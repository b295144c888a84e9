/** The idempotency key's own check, which reads the key rune by rune. */
module Idempotency {
  import opened Prelude

  const MAX_KEY_LENGTH := 200
  const RUNE_ERROR := 0xFFFD

  predicate IsTail(b: Byte) {
    0x80 <= b <= 0xBF
  }

  /** The bytes that may follow a first byte b in second place (section 4 of RFC 3629). */
  predicate IsSecond(b: Byte, c: Byte) {
    && IsTail(c)
    && (b == 0xE0 ==> 0xA0 <= c)
    && (b == 0xED ==> c <= 0x9F)
    && (b == 0xF0 ==> 0x90 <= c)
    && (b == 0xF4 ==> c <= 0x8F)
  }

  datatype Rune = Rune(value: int, width: nat)

  /** One step of ranging over a Go string: an ill-formed byte is one U+FFFD, one byte wide. */
  function DecodeRune(s: seq<Byte>): (r: Rune)
    requires s != []
    ensures 1 <= r.width <= |s|
    ensures s[0] < 0x80 ==> r == Rune(s[0] as int, 1)
    ensures s[0] >= 0x80 ==> r.value >= 0x80
  {
    var b := s[0];
    var bad := Rune(RUNE_ERROR, 1);
    if b < 0x80 then Rune(b as int, 1)
    else if 0xC2 <= b <= 0xDF && |s| >= 2 && IsSecond(b, s[1]) then
      Rune((b as int - 0xC0) * 0x40 + (s[1] as int - 0x80), 2)
    else if 0xE0 <= b <= 0xEF && |s| >= 3 && IsSecond(b, s[1]) && IsTail(s[2]) then
      Rune((b as int - 0xE0) * 0x1000 + (s[1] as int - 0x80) * 0x40 + (s[2] as int - 0x80), 3)
    else if 0xF0 <= b <= 0xF4 && |s| >= 4 && IsSecond(b, s[1]) && IsTail(s[2]) && IsTail(s[3]) then
      Rune((b as int - 0xF0) * 0x4_0000 + (s[1] as int - 0x80) * 0x1000 + (s[2] as int - 0x80) * 0x40
           + (s[3] as int - 0x80), 4)
    else bad
  }

  predicate IsScalar(v: int) {
    0 <= v <= 0x10_FFFF && !(0xD800 <= v <= 0xDFFF)
  }

  /** Section 3 of RFC 3629. */
  function EncodeRune(v: int): seq<Byte>
    requires IsScalar(v)
  {
    if v < 0x80 then [v as Byte]
    else if v < 0x800 then [(0xC0 + v / 0x40) as Byte, (0x80 + v % 0x40) as Byte]
    else if v < 0x1_0000 then
      [(0xE0 + v / 0x1000) as Byte, (0x80 + v / 0x40 % 0x40) as Byte, (0x80 + v % 0x40) as Byte]
    else
      [(0xF0 + v / 0x4_0000) as Byte, (0x80 + v / 0x1000 % 0x40) as Byte,
       (0x80 + v / 0x40 % 0x40) as Byte, (0x80 + v % 0x40) as Byte]
  }

  lemma Sextets(v: nat)
    ensures v == v / 0x40 * 0x40 + v % 0x40
    ensures v / 0x40 == v / 0x1000 * 0x40 + v / 0x40 % 0x40
    ensures v / 0x1000 == v / 0x4_0000 * 0x40 + v / 0x1000 % 0x40
  {
  }

  lemma DecodeEncode2(v: int, rest: seq<Byte>)
    requires 0x80 <= v < 0x800
    ensures DecodeRune(EncodeRune(v) + rest) == Rune(v, 2)
  {
    Sextets(v);
    var s := EncodeRune(v) + rest;
    assert s[0] as int == 0xC0 + v / 0x40 && s[1] as int == 0x80 + v % 0x40;
  }

  lemma DecodeEncode3(v: int, rest: seq<Byte>)
    requires 0x800 <= v < 0x1_0000 && IsScalar(v)
    ensures DecodeRune(EncodeRune(v) + rest) == Rune(v, 3)
  {
    Sextets(v);
    var s := EncodeRune(v) + rest;
    assert s[0] as int == 0xE0 + v / 0x1000;
    assert s[1] as int == 0x80 + v / 0x40 % 0x40 && s[2] as int == 0x80 + v % 0x40;
  }

  lemma DecodeEncode4(v: int, rest: seq<Byte>)
    requires 0x1_0000 <= v <= 0x10_FFFF
    ensures DecodeRune(EncodeRune(v) + rest) == Rune(v, 4)
  {
    Sextets(v);
    var s := EncodeRune(v) + rest;
    assert s[0] as int == 0xF0 + v / 0x4_0000 && s[1] as int == 0x80 + v / 0x1000 % 0x40;
    assert s[2] as int == 0x80 + v / 0x40 % 0x40 && s[3] as int == 0x80 + v % 0x40;
  }

  /** The decoder undoes the encoding of every scalar value, whatever follows it. */
  lemma DecodeEncode(v: int, rest: seq<Byte>)
    requires IsScalar(v)
    ensures DecodeRune(EncodeRune(v) + rest) == Rune(v, |EncodeRune(v)|)
  {
    if v < 0x80 {
    } else if v < 0x800 {
      DecodeEncode2(v, rest);
    } else if v < 0x1_0000 {
      DecodeEncode3(v, rest);
    } else {
      DecodeEncode4(v, rest);
    }
  }

  lemma Compose(a: nat, b: nat, c: nat)
    requires b < 0x40 && c < 0x40
    ensures var v := a * 0x1000 + b * 0x40 + c;
            v / 0x1000 == a && v / 0x40 % 0x40 == b && v % 0x40 == c && v / 0x40 == a * 0x40 + b
  {
  }

  lemma EncodeDecodeShort(s: seq<Byte>)
    requires s != [] && DecodeRune(s) != Rune(RUNE_ERROR, 1) && s[0] < 0xE0
    ensures var r := DecodeRune(s); IsScalar(r.value) && s[..r.width] == EncodeRune(r.value)
  {
    if s[0] >= 0x80 {
      Compose(0, s[0] as int - 0xC0, s[1] as int - 0x80);
      assert s[..2] == [s[0], s[1]];
    } else {
      assert s[..1] == [s[0]];
    }
  }

  lemma EncodeDecode3(s: seq<Byte>)
    requires s != [] && DecodeRune(s) != Rune(RUNE_ERROR, 1) && 0xE0 <= s[0] < 0xF0
    ensures var r := DecodeRune(s); IsScalar(r.value) && s[..r.width] == EncodeRune(r.value)
  {
    Compose(s[0] as int - 0xE0, s[1] as int - 0x80, s[2] as int - 0x80);
    assert s[..3] == [s[0], s[1], s[2]];
  }

  lemma EncodeDecode4(s: seq<Byte>)
    requires s != [] && DecodeRune(s) != Rune(RUNE_ERROR, 1) && 0xF0 <= s[0]
    ensures var r := DecodeRune(s); IsScalar(r.value) && s[..r.width] == EncodeRune(r.value)
  {
    var a, b := s[0] as int - 0xF0, s[1] as int - 0x80;
    Compose(a * 0x40 + b, s[2] as int - 0x80, s[3] as int - 0x80);
    Compose(0, a, b);
    assert s[..4] == [s[0], s[1], s[2], s[3]];
  }

  /** Conversely, whatever it does not call ill-formed is the encoding of the scalar it reports. */
  lemma EncodeDecode(s: seq<Byte>)
    requires s != [] && DecodeRune(s) != Rune(RUNE_ERROR, 1)
    ensures var r := DecodeRune(s); IsScalar(r.value) && s[..r.width] == EncodeRune(r.value)
  {
    if s[0] < 0xE0 {
      EncodeDecodeShort(s);
    } else if s[0] < 0xF0 {
      EncodeDecode3(s);
    } else {
      EncodeDecode4(s);
    }
  }

  predicate Printable(b: Byte) {
    0x20 <= b <= 0x7E
  }

  /** What the contract accepts, said of bytes. */
  ghost predicate Acceptable(key: seq<Byte>) {
    1 <= |key| <= MAX_KEY_LENGTH && forall i :: 0 <= i < |key| ==> Printable(key[i])
  }

  /** The rune-wise loop accepts exactly those keys, ill-formed UTF-8 included. */
  method Validate(key: seq<Byte>) returns (ok: bool)
    ensures ok <==> Acceptable(key)
    ensures ok <==> 1 <= |key| <= 200 && forall i :: 0 <= i < |key| ==> 0x20 <= key[i] <= 0x7E
  {
    if key == [] {
      return false;
    }
    if |key| > MAX_KEY_LENGTH {
      return false;
    }
    var i := 0;
    while i < |key|
      invariant 0 <= i <= |key|
      invariant forall j :: 0 <= j < i ==> Printable(key[j])
    {
      var r := DecodeRune(key[i..]);
      if r.value < 0x20 || r.value > 0x7E {
        assert !Printable(key[i]);
        return false;
      }
      i := i + r.width;
    }
    return true;
  }
}
