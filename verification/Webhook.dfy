/**
 The signature on a webhook delivery: printed by one function, read back and checked by
 another, and checked a second time by the Python receiver, which reads it in its own way.
 The MAC is any function of a secret and a message.
 */
module Webhook {
  import opened Prelude
  import opened Int64
  import opened Decimal
  import opened Backoff
  import Idempotency

  type Mac = (string, string) -> seq<Byte>

  predicate IsHexDigit(c: char) {
    '0' <= c <= '9' || 'a' <= c <= 'f' || 'A' <= c <= 'F'
  }

  function HexDigit(n: nat): (c: char)
    requires n < 16
    ensures IsHexDigit(c) && c != ',' && c < 128 as char
  {
    if n < 10 then ('0' as int + n) as char else ('a' as int + n - 10) as char
  }

  /** Lowercase hexadecimal, two digits a byte. */
  function HexEncode(bytes: seq<Byte>): (s: string)
    ensures |s| == 2 * |bytes|
    ensures forall i :: 0 <= i < |s| ==> IsHexDigit(s[i]) && s[i] != ',' && s[i] < 128 as char
  {
    if bytes == [] then ""
    else [HexDigit(bytes[0] as int / 16), HexDigit(bytes[0] as int % 16)] + HexEncode(bytes[1..])
  }

  /** hex.DecodeString reports no error. */
  predicate DecodesAsHex(s: string) {
    |s| % 2 == 0 && forall i :: 0 <= i < |s| ==> IsHexDigit(s[i])
  }

  function IndexOf(s: string, c: char): (i: nat)
    ensures i <= |s| && (i < |s| ==> s[i] == c)
    ensures forall j :: 0 <= j < i ==> s[j] != c
  {
    if s == "" || s[0] == c then 0 else 1 + IndexOf(s[1..], c)
  }

  /** strings.Split(s, ",") and s.split(','). */
  function Split(s: string): (parts: seq<string>)
    ensures parts != []
    decreases |s|
  {
    var i := IndexOf(s, ',');
    if i == |s| then [s] else [s[..i]] + Split(s[i + 1..])
  }

  predicate HasPrefix(s: string, prefix: string) {
    |prefix| <= |s| && s[..|prefix|] == prefix
  }

  predicate CommaFree(s: string) {
    forall i :: 0 <= i < |s| ==> s[i] != ','
  }

  lemma IndexOfFirst(a: string, c: char, b: string)
    requires forall i :: 0 <= i < |a| ==> a[i] != c
    ensures IndexOf(a + [c] + b, c) == |a|
  {
    var s := a + [c] + b;
    assert s[|a|] == c && forall i :: 0 <= i < |a| ==> s[i] == a[i];
  }

  lemma SplitPair(a: string, b: string)
    requires CommaFree(a) && CommaFree(b)
    ensures Split(a + "," + b) == [a, b]
  {
    var s := a + "," + b;
    IndexOfFirst(a, ',', b);
    assert s[..|a|] == a && s[|a| + 1..] == b;
    var j := IndexOf(b, ',');
    assert j == |b|;
  }

  /** Two parts are all there was, around one comma. */
  lemma JoinPair(s: string)
    requires |Split(s)| == 2
    ensures s == Split(s)[0] + "," + Split(s)[1]
  {
    var i := IndexOf(s, ',');
    var rest := s[i + 1..];
    assert Split(s) == [s[..i]] + Split(rest);
    assert IndexOf(rest, ',') == |rest|;
  }

  // The signature.

  function Message(text: string, body: string): string {
    text + "." + body
  }

  function Header(text: string, digest: string): string {
    "t=" + text + "," + ("v1=" + digest)
  }

  function Sign(mac: Mac, secret: string, seconds: int, body: string): string {
    var text := FormatInt(seconds);
    Header(text, HexEncode(mac(secret, Message(text, body))))
  }

  datatype Verdict = Accepted | Malformed | Stale | Mismatch

  /** Seconds from the year 1 to 1970, the offset that time.Unix adds in 64 bits. */
  const UNIX_TO_INTERNAL: int := 62_135_596_800

  /** The instant of a Unix time, in nanoseconds from 1970. */
  function Instant(seconds: int): int {
    (Wrap64(seconds + UNIX_TO_INTERNAL) - UNIX_TO_INTERNAL) * SECOND
  }

  /** A clock reading within a hundred thousand million years of 1970, in nanoseconds. */
  predicate IsClock(now: int) {
    -0x4000_0000_0000_0000 * SECOND <= now <= 0x4000_0000_0000_0000 * SECOND
  }

  function VerifyAt(mac: Mac, header: string, body: string, secret: string, tolerance: int, now: int): Verdict {
    var parts := Split(header);
    if |parts| != 2 || !HasPrefix(parts[0], "t=") || !HasPrefix(parts[1], "v1=") then Malformed
    else
      match ParseInt(parts[0][2..])
      case None => Malformed
      case Some(seconds) =>
        if !DecodesAsHex(parts[1][3..]) then Malformed
        else
          var signedAt := Instant(seconds);
          if signedAt < now + Wrap64(-tolerance) || signedAt > now + tolerance then Stale
          else if Sign(mac, secret, seconds, body) != header then Mismatch
          else Accepted
  }

  function VerifySignature(mac: Mac, header: string, body: string, secret: string, tolerance: int, now: int): Verdict {
    if secret == "" then Mismatch
    else VerifyAt(mac, header, body, secret, if tolerance < 0 then Wrap64(-tolerance) else tolerance, now)
  }

  lemma FormatIsCommaFree(n: int)
    ensures CommaFree(FormatInt(n))
  {
    FormatShape(n);
  }

  lemma SplitHeader(text: string, digest: string)
    requires CommaFree(text) && CommaFree(digest)
    ensures Split(Header(text, digest)) == ["t=" + text, "v1=" + digest]
    ensures HasPrefix("t=" + text, "t=") && ("t=" + text)[2..] == text
    ensures HasPrefix("v1=" + digest, "v1=") && ("v1=" + digest)[3..] == digest
  {
    SplitPair("t=" + text, "v1=" + digest);
  }

  /** A timestamp so large that its instant wraps is out of every window anyway. */
  lemma WindowIgnoresWrap(seconds: int, tolerance: int, now: int)
    requires IsInt64(seconds) && IsInt64(tolerance) && IsClock(now)
    ensures now + Wrap64(-tolerance) <= Instant(seconds) <= now + tolerance
            <==> now + Wrap64(-tolerance) <= seconds * SECOND <= now + tolerance
  {
    if seconds + UNIX_TO_INTERNAL > MAX_INT64 {
      assert Wrap64(seconds + UNIX_TO_INTERNAL) == seconds + UNIX_TO_INTERNAL - TWO_64;
    }
  }

  /** What the verifier makes of a header that the signer printed. */
  lemma VerifySigned(mac: Mac, body: string, secret: string, signer: string, n: int, tolerance: int, now: int)
    requires IsInt64(n) && IsInt64(tolerance) && IsClock(now)
    ensures var header := Sign(mac, signer, n, body);
            VerifyAt(mac, header, body, secret, tolerance, now)
            == if !(now + Wrap64(-tolerance) <= n * SECOND <= now + tolerance) then Stale
               else if Sign(mac, secret, n, body) != header then Mismatch
               else Accepted
  {
    hide Split, FormatInt, ParseInt, HexEncode, Instant, Wrap64;
    var text := FormatInt(n);
    FormatIsCommaFree(n);
    ParseFormat(n);
    SplitHeader(text, HexEncode(mac(signer, Message(text, body))));
    WindowIgnoresWrap(n, tolerance, now);
  }

  ghost predicate SignedWithin(mac: Mac, header: string, body: string, secret: string, earliest: int, latest: int) {
    exists n: int :: IsInt64(n) && header == Sign(mac, secret, n, body) && earliest <= n * SECOND <= latest
  }

  lemma AcceptedWithin(mac: Mac, header: string, body: string, secret: string, tolerance: int, now: int)
    requires IsInt64(tolerance) && IsClock(now)
    ensures VerifyAt(mac, header, body, secret, tolerance, now) == Accepted
            <==> SignedWithin(mac, header, body, secret, now + Wrap64(-tolerance), now + tolerance)
  {
    if VerifyAt(mac, header, body, secret, tolerance, now) == Accepted {
      var n := ParseInt(Split(header)[0][2..]).value;
      WindowIgnoresWrap(n, tolerance, now);
    }
    if SignedWithin(mac, header, body, secret, now + Wrap64(-tolerance), now + tolerance) {
      var n: int :| IsInt64(n) && header == Sign(mac, secret, n, body)
                    && now + Wrap64(-tolerance) <= n * SECOND <= now + tolerance;
      VerifySigned(mac, body, secret, secret, n, tolerance, now);
    }
  }

  /** The header reads t=<n>,v1=<digest>: a decimal number of 64 bits, and hexadecimal digits two by two. */
  ghost predicate Reads(header: string, text: string, digest: string, n: int) {
    && header == "t=" + text + ",v1=" + digest
    && Numeral(text, n) && -0x8000_0000_0000_0000 <= n < 0x8000_0000_0000_0000
    && |digest| % 2 == 0 && forall i :: 0 <= i < |digest| ==> digest[i] in "0123456789abcdefABCDEF"
  }

  lemma HexDigitsAre(c: char)
    ensures IsHexDigit(c) <==> c in "0123456789abcdefABCDEF"
  {
    var all := "0123456789abcdefABCDEF";
    if IsHexDigit(c) {
      var k := c as int - if c <= '9' then 48 else if c <= 'F' then 65 - 16 else 97 - 10;
      assert all[k] == c;
    }
  }

  lemma NumeralsHaveNoComma(text: string, n: int)
    requires Numeral(text, n)
    ensures CommaFree(text)
  {
    var digits: string :| digits != "" && AllDigits(digits) && Written(text, digits, n);
    assert CommaFree(digits);
  }

  /** The signer's print, spelled out. */
  lemma SignedText(mac: Mac, secret: string, n: int, body: string)
    ensures Sign(mac, secret, n, body)
            == "t=" + FormatInt(n) + ",v1=" + HexEncode(mac(secret, FormatInt(n) + "." + body))
  {
  }

  lemma {:induction false} SplitFirst(s: string)
    ensures CommaFree(Split(s)[0])
  {
  }

  lemma SplitIsCommaFree(s: string)
    requires |Split(s)| == 2
    ensures CommaFree(Split(s)[0]) && CommaFree(Split(s)[1])
  {
    SplitFirst(s);
    SplitFirst(s[IndexOf(s, ',') + 1..]);
  }

  /** Such headers are the ones that the first checks let pass. */
  lemma ReadsExactly(header: string, text: string, digest: string, n: int)
    ensures Reads(header, text, digest, n)
            <==> Split(header) == ["t=" + text, "v1=" + digest] && ParseInt(text) == Some(n) && DecodesAsHex(digest)
  {
    hide Split, ReadInt, IsHexDigit;
    ReadsNumerals(text, n);
    forall c: char
      ensures IsHexDigit(c) <==> c in "0123456789abcdefABCDEF"
    {
      HexDigitsAre(c);
    }
    assert Header(text, digest) == "t=" + text + ",v1=" + digest;
    if Reads(header, text, digest, n) {
      NumeralsHaveNoComma(text, n);
      SplitHeader(text, digest);
    }
    if Split(header) == ["t=" + text, "v1=" + digest] {
      JoinPair(header);
    }
  }

  /**
   The right verdict, from the header's text. Malformed: it does not read as a header. Stale: it
   does, with a second outside the window. Mismatch: that second is inside, but the header is not
   the one that the secret's owner prints for it and the body, letter by letter.
   */
  ghost predicate IsVerdict(v: Verdict, mac: Mac, header: string, body: string, secret: string,
                            earliest: int, latest: int) {
    && (v == Malformed <==> !exists text, digest, n :: Reads(header, text, digest, n))
    && (forall text, digest, n :: Reads(header, text, digest, n) ==>
          v == if !(earliest <= n * 1_000_000_000 <= latest) then Stale
               else if header != "t=" + FormatInt(n) + ",v1=" + HexEncode(mac(secret, FormatInt(n) + "." + body))
               then Mismatch else Accepted)
  }

  /** The verifier gives it on every header. */
  lemma VerdictExactly(mac: Mac, header: string, body: string, secret: string, tolerance: int, now: int)
    requires IsInt64(tolerance) && IsClock(now)
    ensures IsVerdict(VerifyAt(mac, header, body, secret, tolerance, now), mac, header, body, secret,
                      now + Wrap64(-tolerance), now + tolerance)
  {
    hide Split, ReadInt, Reads, Instant, DecodesAsHex;
    var parts := Split(header);
    if |parts| == 2 && HasPrefix(parts[0], "t=") && HasPrefix(parts[1], "v1=") {
      var text, digest := parts[0][2..], parts[1][3..];
      assert parts[0] == "t=" + text && parts[1] == "v1=" + digest;
      assert parts == ["t=" + text, "v1=" + digest];
      if ParseInt(text).Some? {
        ReadsExactly(header, text, digest, ParseInt(text).value);
      }
    }
    forall text, digest, n | Reads(header, text, digest, n)
      ensures Split(header) == ["t=" + text, "v1=" + digest] && ParseInt(text) == Some(n) && DecodesAsHex(digest)
      ensures ("t=" + text)[2..] == text && ("v1=" + digest)[3..] == digest
      ensures now + Wrap64(-tolerance) <= Instant(n) <= now + tolerance
              <==> now + Wrap64(-tolerance) <= n * SECOND <= now + tolerance
      ensures Sign(mac, secret, n, body)
              == "t=" + FormatInt(n) + ",v1=" + HexEncode(mac(secret, FormatInt(n) + "." + body))
    {
      ReadsExactly(header, text, digest, n);
      WindowIgnoresWrap(n, tolerance, now);
      SignedText(mac, secret, n, body);
    }
  }

  /**
   So does the exported function, with the tolerance's magnitude either way; without a secret
   everything is a mismatch.
   */
  lemma SdkVerdictExactly(mac: Mac, header: string, body: string, secret: string, tolerance: int, now: int)
    requires MIN_INT64 < tolerance <= MAX_INT64 && IsClock(now)
    ensures var v := VerifySignature(mac, header, body, secret, tolerance, now);
            var magnitude := if tolerance < 0 then -tolerance else tolerance;
            if secret == "" then v == Mismatch
            else IsVerdict(v, mac, header, body, secret, now - magnitude, now + magnitude)
  {
    hide VerifyAt, IsVerdict;
    var magnitude := if tolerance < 0 then -tolerance else tolerance;
    VerdictExactly(mac, header, body, secret, magnitude, now);
  }

  /**
   Acceptance: a delivery passes exactly when there is a secret and its header is what the
   signer prints for the body at some second no further from now than the tolerance, either way.
   */
  lemma AcceptedExactly(mac: Mac, header: string, body: string, secret: string, tolerance: int, now: int)
    requires MIN_INT64 < tolerance <= MAX_INT64 && IsClock(now)
    ensures var magnitude := if tolerance < 0 then -tolerance else tolerance;
            VerifySignature(mac, header, body, secret, tolerance, now) == Accepted
            <==> secret != "" && SignedWithin(mac, header, body, secret, now - magnitude, now + magnitude)
  {
    AcceptedWithin(mac, header, body, secret, if tolerance < 0 then Wrap64(-tolerance) else tolerance, now);
  }

  /** The one tolerance whose magnitude does not fit: it leaves a single instant, 292 years ago. */
  lemma LeastTolerance(mac: Mac, header: string, body: string, secret: string, now: int)
    requires IsClock(now) && secret != ""
    ensures VerifySignature(mac, header, body, secret, MIN_INT64, now) == Accepted
            <==> SignedWithin(mac, header, body, secret, now - TWO_63, now - TWO_63)
  {
    AcceptedWithin(mac, header, body, secret, MIN_INT64, now);
  }

  lemma HexDigitPrints(n: nat)
    requires n < 16
    ensures HexDigit(n) == "0123456789abcdef"[n]
  {
  }

  /** Byte by byte, the two digits of the lowercase alphabet. */
  lemma {:induction false} HexPrints(bytes: seq<Byte>, i: nat)
    requires i < |bytes|
    ensures HexEncode(bytes)[2 * i] == "0123456789abcdef"[bytes[i] as int / 16]
    ensures HexEncode(bytes)[2 * i + 1] == "0123456789abcdef"[bytes[i] as int % 16]
  {
    hide HexDigit;
    var s := HexEncode(bytes);
    if i == 0 {
      HexDigitPrints(bytes[0] as int / 16);
      HexDigitPrints(bytes[0] as int % 16);
    } else {
      HexPrints(bytes[1..], i - 1);
      assert s[2..] == HexEncode(bytes[1..]);
      assert s[2 * i] == s[2..][2 * (i - 1)] && s[2 * i + 1] == s[2..][2 * (i - 1) + 1];
    }
  }

  lemma {:induction false} HexIsInjective(a: seq<Byte>, b: seq<Byte>)
    requires HexEncode(a) == HexEncode(b)
    ensures a == b
  {
    if a != [] && b != [] {
      var s, t := HexEncode(a), HexEncode(b);
      assert s[0] == t[0] && s[1] == t[1];
      assert s[2..] == HexEncode(a[1..]) && t[2..] == HexEncode(b[1..]);
      HexIsInjective(a[1..], b[1..]);
      assert a[0] == b[0];
      assert a == [a[0]] + a[1..] && b == [b[0]] + b[1..];
    }
  }

  /** The signed message tells the timestamp from the body. */
  lemma MessageIsInjective(n: int, body: string, n': int, body': string)
    requires Message(FormatInt(n), body) == Message(FormatInt(n'), body')
    ensures n == n' && body == body'
  {
    var text, text' := FormatInt(n), FormatInt(n');
    FormatShape(n);
    FormatShape(n');
    IndexOfFirst(text, '.', body);
    IndexOfFirst(text', '.', body');
    var message := Message(text, body);
    assert message[..|text|] == text && message[|text| + 1..] == body;
    assert message[..|text'|] == text' && message[|text'| + 1..] == body';
    ReadFormat(n);
    ReadFormat(n');
  }

  /** Whoever signed, and whatever: equal headers carry the same second. */
  lemma HeaderNamesItsSecond(mac: Mac, secret: string, n: int, body: string, secret': string, n': int, body': string)
    requires Sign(mac, secret, n, body) == Sign(mac, secret', n', body')
    ensures n == n'
  {
    FormatIsCommaFree(n);
    FormatIsCommaFree(n');
    SplitHeader(FormatInt(n), HexEncode(mac(secret, Message(FormatInt(n), body))));
    SplitHeader(FormatInt(n'), HexEncode(mac(secret', Message(FormatInt(n'), body'))));
    ReadFormat(n);
    ReadFormat(n');
  }

  /**
   Tampering: if a header printed by one signer for one body is accepted under some secret for
   some body, then the MAC itself has the same value on both. What is accepted is the same
   body and secret, or a collision.
   */
  lemma AcceptanceNeedsTheMac(mac: Mac, signer: string, n: int, body: string, secret: string, body': string,
                              tolerance: int, now: int)
    requires IsInt64(n) && IsInt64(tolerance) && IsClock(now)
    requires VerifyAt(mac, Sign(mac, signer, n, body), body', secret, tolerance, now) == Accepted
    ensures mac(signer, Message(FormatInt(n), body)) == mac(secret, Message(FormatInt(n), body'))
    ensures body != body' ==> Message(FormatInt(n), body) != Message(FormatInt(n), body')
  {
    var text, header := FormatInt(n), Sign(mac, signer, n, body);
    AcceptedWithin(mac, header, body', secret, tolerance, now);
    var m: int :| IsInt64(m) && header == Sign(mac, secret, m, body')
                  && now + Wrap64(-tolerance) <= m * SECOND <= now + tolerance;
    HeaderNamesItsSecond(mac, signer, n, body, secret, m, body');
    FormatIsCommaFree(n);
    SplitHeader(text, HexEncode(mac(signer, Message(text, body))));
    SplitHeader(text, HexEncode(mac(secret, Message(text, body'))));
    HexIsInjective(mac(signer, Message(text, body)), mac(secret, Message(text, body')));
    if Message(text, body) == Message(text, body') {
      MessageIsInjective(n, body, n, body');
    }
  }

  // The envelope.

  const NIL_TEXT := "00000000-0000-0000-0000-000000000000"

  /** The fields of a delivery that ParseEvent looks at; identifiers are in their canonical text. */
  datatype Envelope = Envelope(tenant: string, id: string, kind: string)

  /** decode is the JSON decoder: None where it reports an error. A missing field is the zero one. */
  function ParseEvent(decode: string -> Option<Envelope>, body: string): Option<Envelope> {
    match decode(body)
    case None => None
    case Some(e) => if e.kind == "" || e.id == NIL_TEXT || e.tenant == NIL_TEXT then None else Some(e)
  }

  /** An event comes back exactly when the decoder finds one with a type and two identifiers, and it is that one. */
  lemma ParsedExactly(decode: string -> Option<Envelope>, body: string)
    ensures var event := ParseEvent(decode, body); var zero := "00000000-0000-0000-0000-000000000000";
            && (event.Some? <==>
                  match decode(body)
                  case None => false
                  case Some(e) => e.kind != "" && e.id != zero && e.tenant != zero)
            && (event.Some? ==> event == decode(body))
  {
  }

  // The receiver's own check.

  predicate IsPythonSpace(c: char) {
    9 as char <= c <= 13 as char || 28 as char <= c <= 32 as char || c == 0x85 as char || c == 0xA0 as char
  }

  function StripLeft(s: string): string {
    if s != "" && IsPythonSpace(s[0]) then StripLeft(s[1..]) else s
  }

  function StripRight(s: string): string {
    if s != "" && IsPythonSpace(s[|s| - 1]) then StripRight(s[..|s| - 1]) else s
  }

  /** Digits, with single underscores between them. */
  predicate IsGrouped(s: string) {
    && s != "" && IsDigit(s[0]) && IsDigit(s[|s| - 1])
    && (forall i :: 0 <= i < |s| ==> IsDigit(s[i]) || s[i] == '_')
    && (forall i :: 0 < i < |s| ==> IsDigit(s[i]) || IsDigit(s[i - 1]))
  }

  function Ungroup(s: string): (r: string)
    requires forall i :: 0 <= i < |s| ==> IsDigit(s[i]) || s[i] == '_'
    ensures AllDigits(r)
  {
    if s == "" then "" else if s[0] == '_' then Ungroup(s[1..]) else [s[0]] + Ungroup(s[1..])
  }

  function Bytes(bytes: seq<Byte>): string {
    seq(|bytes|, i requires 0 <= i < |bytes| => bytes[i] as int as char)
  }

  /** str.encode(): the UTF-8 of every character, one char a byte. */
  function Encode(s: string): string {
    if s == "" then "" else Bytes(Idempotency.EncodeRune(s[0] as int)) + Encode(s[1..])
  }

  /** Character by character; of those in a header, the ones beyond ASCII become two bytes. */
  lemma EncodedExactly(c: char, rest: string)
    requires c as int < 0x100
    ensures Encode([c] + rest)
            == (if c as int < 0x80 then [c] else [(0xC0 + c as int / 0x40) as char, (0x80 + c as int % 0x40) as char])
               + Encode(rest)
  {
    assert ([c] + rest)[1..] == rest;
  }

  /** The most digits that Python's int() converts. */
  const PYTHON_MAX_DIGITS := 4300

  /** Python's int() on text: surrounding blanks, a sign, grouped digits, leading zeros among them, up to the limit. */
  function PythonInt(s: string): Option<int> {
    var t := StripRight(StripLeft(s));
    var m := Magnitude(t);
    if !IsGrouped(m) || |Ungroup(m)| > PYTHON_MAX_DIGITS then None
    else
      var v: int := Value(Ungroup(m));
      Some(if t[0] == '-' then -v else v)
  }

  /** Rounding the number to a float gives 2^1024 or more, which no float holds. */
  predicate OverflowsFloat(v: int) {
    var limit := Pow2(1024) - Pow2(970);
    v >= limit || v <= -limit
  }

  lemma Distribute(a: int, b: int)
    ensures (a - 1) * b == a * b - b
  {
  }

  /** That is half a step beyond the largest float, which has 53 bits and the exponent 971. */
  lemma FloatLimit(v: int)
    ensures OverflowsFloat(v) <==>
              var beyond := (Pow2(53) - 1) * Pow2(971) + Pow2(970); v >= beyond || v <= -beyond
  {
    hide Pow2;
    Pow2Sum(53, 971);
    Pow2Next(970);
    Distribute(Pow2(53), Pow2(971));
  }

  datatype Check = Passed | Failed | Crashed

  const PYTHON_TOLERANCE := 300 * SECOND

  /**
   Unpacking, prefixes, int(), window and digest. Subtracting a number beyond the floats from the
   time is an OverflowError, and comparing a digest with other than ASCII text a TypeError;
   neither is caught.
   */
  function PythonCheck(mac: Mac, header: string, body: string, secret: string, now: int): Check {
    var parts := Split(header);
    if |parts| != 2 || !HasPrefix(parts[0], "t=") || !HasPrefix(parts[1], "v1=") then Failed
    else
      var text, digest := parts[0][2..], parts[1][3..];
      match PythonInt(text)
      case None => Failed
      case Some(seconds) =>
        if OverflowsFloat(seconds) then Crashed
        else if !(now - PYTHON_TOLERANCE <= seconds * SECOND <= now + PYTHON_TOLERANCE) then Failed
        else if exists i :: 0 <= i < |digest| && digest[i] >= 128 as char then Crashed
        else if HexEncode(mac(secret, Message(Encode(text), body))) == digest then Passed
        else Failed
  }

  lemma {:induction false} UngroupDigits(s: string)
    requires AllDigits(s)
    ensures Ungroup(s) == s
  {
    if s != "" {
      UngroupDigits(s[1..]);
    }
  }

  lemma {:induction false} EncodeAscii(s: string)
    requires forall i :: 0 <= i < |s| ==> s[i] < 128 as char
    ensures Encode(s) == s
  {
    if s != "" {
      EncodeAscii(s[1..]);
    }
  }

  /** What the first checks of the receiver let pass: a timestamp that int() reads, and some digest. */
  ghost predicate PythonReads(header: string, text: string, digest: string, n: int) {
    header == "t=" + text + ",v1=" + digest && CommaFree(text) && CommaFree(digest) && PythonInt(text) == Some(n)
  }

  /** The receiver's check on every header, from its text. */
  lemma PythonExactly(mac: Mac, header: string, body: string, secret: string, now: int)
    ensures var check := PythonCheck(mac, header, body, secret, now);
            && ((forall text, digest, n :: !PythonReads(header, text, digest, n)) ==> check == Failed)
            && (forall text, digest, n :: PythonReads(header, text, digest, n) ==>
                  check == if OverflowsFloat(n) then Crashed
                           else if !(now - 300_000_000_000 <= n * 1_000_000_000 <= now + 300_000_000_000) then Failed
                           else if exists i :: 0 <= i < |digest| && digest[i] >= 128 as char then Crashed
                           else if digest == HexEncode(mac(secret, Encode(text) + "." + body)) then Passed
                           else Failed)
  {
    hide Split, PythonInt, OverflowsFloat, Encode;
    var parts := Split(header);
    if |parts| == 2 && HasPrefix(parts[0], "t=") && HasPrefix(parts[1], "v1=") {
      var text, digest := parts[0][2..], parts[1][3..];
      assert parts[0] == "t=" + text && parts[1] == "v1=" + digest;
      JoinPair(header);
      SplitIsCommaFree(header);
      assert CommaFree(text) && CommaFree(digest);
      assert PythonInt(text).Some? ==> PythonReads(header, text, digest, PythonInt(text).value);
    }
    forall text, digest, n | PythonReads(header, text, digest, n)
      ensures Split(header) == ["t=" + text, "v1=" + digest]
      ensures ("t=" + text)[2..] == text && ("v1=" + digest)[3..] == digest
    {
      assert header == Header(text, digest);
      SplitHeader(text, digest);
    }
  }

  lemma {:induction false} UngroupConcat(a: string, b: string)
    requires forall i :: 0 <= i < |a| ==> IsDigit(a[i]) || a[i] == '_'
    requires forall i :: 0 <= i < |b| ==> IsDigit(b[i]) || b[i] == '_'
    ensures Ungroup(a + b) == Ungroup(a) + Ungroup(b)
  {
    if a == "" {
      assert a + b == b;
    } else {
      assert (a + b)[1..] == a[1..] + b;
      UngroupConcat(a[1..], b);
    }
  }

  lemma DigitsAreAGroup(digits: string)
    requires digits != "" && AllDigits(digits)
    ensures IsGrouped(digits) && Ungroup(digits) == digits
  {
    UngroupDigits(digits);
  }

  /** A single underscore joins two groups. */
  lemma GroupsJoin(a: string, b: string)
    requires IsGrouped(a) && IsGrouped(b)
    ensures IsGrouped(a + "_" + b)
  {
    var s, n := a + "_" + b, |a|;
    forall i | 0 <= i < |s|
      ensures IsDigit(s[i]) || s[i] == '_'
      ensures i > 0 ==> IsDigit(s[i]) || IsDigit(s[i - 1])
    {
      if i < n {
        assert s[i] == a[i] && (i > 0 ==> s[i - 1] == a[i - 1]);
      } else if i > n {
        assert s[i] == b[i - n - 1] && (i > n + 1 ==> s[i - 1] == b[i - n - 2]);
      } else {
        assert s[i] == '_' && s[i - 1] == a[n - 1];
      }
    }
    assert s[0] == a[0] && s[|s| - 1] == b[|b| - 1];
  }

  lemma LoneUnderscore()
    ensures Ungroup("_") == ""
  {
  }

  /** And does not count. */
  lemma UngroupJoined(a: string, b: string)
    requires IsGrouped(a) && IsGrouped(b)
    ensures IsGrouped(a + "_" + b) && Ungroup(a + "_" + b) == Ungroup(a) + Ungroup(b)
  {
    GroupsJoin(a, b);
    LoneUnderscore();
    hide IsDigit, Ungroup;
    UngroupConcat(a, "_");
    UngroupConcat(a + "_", b);
    assert Ungroup(a) + "" == Ungroup(a);
  }

  /** An underscore stands nowhere else. */
  lemma NoStrayUnderscore(a: string, b: string)
    ensures !IsGrouped("_" + a) && !IsGrouped(a + "_") && !IsGrouped(a + "__" + b)
  {
    var s, t := a + "_", a + "__" + b;
    assert s[|s| - 1] == '_';
    assert t[|a|] == '_' && t[|a| + 1] == '_';
  }

  ghost predicate PythonBlank(s: string) {
    forall i :: 0 <= i < |s| ==> s[i] as int in {9, 10, 11, 12, 13, 28, 29, 30, 31, 32, 0x85, 0xA0}
  }

  lemma {:induction false} StripsLeft(s: string) returns (a: string)
    ensures PythonBlank(a) && s == a + StripLeft(s)
    ensures StripLeft(s) == "" || !IsPythonSpace(StripLeft(s)[0])
  {
    a := "";
    if s != "" && IsPythonSpace(s[0]) {
      a := StripsLeft(s[1..]);
      a := [s[0]] + a;
    }
  }

  lemma {:induction false} StripsRight(s: string) returns (b: string)
    ensures PythonBlank(b) && s == StripRight(s) + b
    ensures StripRight(s) == "" || !IsPythonSpace(StripRight(s)[|StripRight(s)| - 1])
  {
    b := "";
    if s != "" && IsPythonSpace(s[|s| - 1]) {
      b := StripsRight(s[..|s| - 1]);
      b := b + [s[|s| - 1]];
    }
  }

  lemma {:induction false} StripLeftBlank(a: string, b: string)
    requires PythonBlank(a) && (b == "" || !IsPythonSpace(b[0]))
    ensures StripLeft(a + b) == b
  {
    if a == "" {
      assert a + b == b;
    } else {
      assert (a + b)[1..] == a[1..] + b;
      StripLeftBlank(a[1..], b);
    }
  }

  lemma {:induction false} StripRightBlank(b: string, c: string)
    requires PythonBlank(c) && b != "" && !IsPythonSpace(b[|b| - 1])
    ensures StripRight(b + c) == b
  {
    if c == "" {
      assert b + c == b;
    } else {
      assert (b + c)[..|b + c| - 1] == b + c[..|c| - 1];
      StripRightBlank(b, c[..|c| - 1]);
    }
  }

  /** s is a number of Python's: blanks, a sign, grouped digits within the limit, blanks. */
  ghost predicate PythonNumeral(s: string, a: string, sign: string, g: string, b: string, v: int) {
    && s == a + (sign + g) + b && PythonBlank(a) && PythonBlank(b) && sign in {"", "+", "-"}
    && IsGrouped(g) && |Ungroup(g)| <= 4300
    && (if sign == "-" then v + Value(Ungroup(g)) == 0 else v == Value(Ungroup(g)))
  }

  lemma ReadIsNumeral(s: string, v: int)
    requires PythonInt(s) == Some(v)
    ensures exists a, sign, g, b :: PythonNumeral(s, a, sign, g, b, v)
  {
    hide StripLeft, StripRight, Ungroup, Value, PythonBlank;
    var a := StripsLeft(s);
    var b := StripsRight(StripLeft(s));
    var t := StripRight(StripLeft(s));
    var g := Magnitude(t);
    var sign := if g == t then "" else [t[0]];
    assert |g| != |t| ==> t[0] in {'+', '-'} && sign == [t[0]];
    assert sign in {"", "+", "-"};
    assert t == sign + g;
    assert s == a + (sign + g) + b;
    assert t != "" && (t[0] == '-' <==> sign == "-");
    assert PythonNumeral(s, a, sign, g, b, v);
  }

  lemma NumeralIsRead(s: string, a: string, sign: string, g: string, b: string, v: int)
    requires PythonNumeral(s, a, sign, g, b, v)
    ensures PythonInt(s) == Some(v)
  {
    assert IsDigit(g[0]) && IsDigit(g[|g| - 1]);
    hide StripLeft, StripRight, Ungroup, Value, IsGrouped, PythonBlank;
    var t := sign + g;
    assert s == a + (t + b);
    assert t[|t| - 1] == g[|g| - 1] && (t[0] == g[0] || t[0] in {'+', '-'});
    assert (t + b)[0] == t[0];
    StripLeftBlank(a, t + b);
    StripRightBlank(t, b);
    assert Magnitude(t) == g;
  }

  /** int() reads exactly those. */
  lemma PythonIntExactly(s: string, v: int)
    ensures PythonInt(s) == Some(v) <==> exists a, sign, g, b :: PythonNumeral(s, a, sign, g, b, v)
  {
    hide PythonInt, PythonNumeral;
    if PythonInt(s) == Some(v) {
      ReadIsNumeral(s, v);
    }
    if a, sign, g, b :| PythonNumeral(s, a, sign, g, b, v) {
      NumeralIsRead(s, a, sign, g, b, v);
    }
  }

  lemma NothingToStrip(s: string)
    requires s != "" && !IsPythonSpace(s[0]) && !IsPythonSpace(s[|s| - 1])
    ensures StripRight(StripLeft(s)) == s
  {
  }

  lemma GroupedDigits(n: nat)
    ensures IsGrouped(Digits(n)) && Ungroup(Digits(n)) == Digits(n) && Value(Ungroup(Digits(n))) == n
  {
    UngroupDigits(Digits(n));
    ValueOfDigits(n);
  }

  lemma MagnitudeOfFormat(n: int)
    ensures Magnitude(FormatInt(n)) == Digits(if n < 0 then -n else n)
    ensures n >= 0 ==> Magnitude("+" + FormatInt(n)) == Digits(n)
  {
  }

  /** Python reads what Go prints, up to its limit; a plus sign in front makes no difference to it. */
  lemma PythonReadsFormat(n: int)
    ensures var text := FormatInt(n);
            PythonInt(text) == if |Magnitude(text)| <= PYTHON_MAX_DIGITS then Some(n) else None
    ensures n >= 0 ==> PythonInt("+" + FormatInt(n)) == PythonInt(FormatInt(n))
  {
    hide Digits, StripLeft, StripRight, Ungroup, Value, IsGrouped;
    var digits := Digits(if n < 0 then -n else n);
    GroupedDigits(if n < 0 then -n else n);
    NothingToStrip(FormatInt(n));
    MagnitudeOfFormat(n);
    if n >= 0 {
      NothingToStrip("+" + digits);
    }
  }

  /** No 64-bit number meets either limit. */
  lemma WithinPythonsReach(n: int)
    requires IsInt64(n)
    ensures PythonInt(FormatInt(n)) == Some(n) && !OverflowsFloat(n)
    ensures n >= 0 ==> PythonInt("+" + FormatInt(n)) == Some(n)
  {
    hide PythonInt, FormatInt, Pow2;
    Pow2Of64();
    FloatsReach();
    DigitsAreFew(if n < 0 then -n else n, 64);
    MagnitudeOfFormat(n);
    PythonReadsFormat(n);
  }

  lemma FormatIsAscii(n: int)
    ensures Encode(FormatInt(n)) == FormatInt(n)
    ensures Encode("+" + FormatInt(n)) == "+" + FormatInt(n)
  {
    FormatShape(n);
    EncodeAscii(FormatInt(n));
    EncodeAscii("+" + FormatInt(n));
  }

  /** The timestamp is written as the signer writes it. */
  ghost predicate IsCanonical(header: string) {
    exists n: int :: IsInt64(n) && HasPrefix(Split(header)[0], "t=") && Split(header)[0][2..] == FormatInt(n)
  }

  lemma PythonPassesText(mac: Mac, body: string, secret: string, text: string, n: int, now: int)
    requires CommaFree(text) && Encode(text) == text && PythonInt(text) == Some(n) && !OverflowsFloat(n)
    requires now - PYTHON_TOLERANCE <= n * SECOND <= now + PYTHON_TOLERANCE
    ensures PythonCheck(mac, Header(text, HexEncode(mac(secret, Message(text, body)))), body, secret, now) == Passed
  {
    hide PythonInt, OverflowsFloat, Encode, Split;
    SplitHeader(text, HexEncode(mac(secret, Message(text, body))));
  }

  lemma PythonPassesSigned(mac: Mac, body: string, secret: string, n: int, now: int)
    requires IsInt64(n) && now - PYTHON_TOLERANCE <= n * SECOND <= now + PYTHON_TOLERANCE
    ensures PythonCheck(mac, Sign(mac, secret, n, body), body, secret, now) == Passed
  {
    hide PythonInt, OverflowsFloat, Encode, PythonCheck;
    FormatIsCommaFree(n);
    FormatIsAscii(n);
    WithinPythonsReach(n);
    PythonPassesText(mac, body, secret, FormatInt(n), n, now);
  }

  lemma PythonPassedWasSigned(mac: Mac, header: string, body: string, secret: string, n: int, now: int)
    requires PythonCheck(mac, header, body, secret, now) == Passed
    requires IsInt64(n) && Split(header)[0][2..] == FormatInt(n)
    ensures header == Sign(mac, secret, n, body)
    ensures now - PYTHON_TOLERANCE <= n * SECOND <= now + PYTHON_TOLERANCE
  {
    hide PythonInt, OverflowsFloat, Encode, Split;
    JoinPair(header);
    FormatIsAscii(n);
    WithinPythonsReach(n);
    var parts := Split(header);
    assert parts[0] == "t=" + parts[0][2..] && parts[1] == "v1=" + parts[1][3..];
  }

  /**
   The two verifiers, at the tolerance of five minutes: the Go one accepts exactly what the
   Python one passes with a timestamp written canonically. So Go's acceptance implies Python's.
   */
  lemma VerifiersAgree(mac: Mac, header: string, body: string, secret: string, now: int)
    requires IsClock(now)
    ensures VerifyAt(mac, header, body, secret, PYTHON_TOLERANCE, now) == Accepted
            <==> PythonCheck(mac, header, body, secret, now) == Passed && IsCanonical(header)
  {
    hide PythonCheck, VerifyAt, IsPythonSpace;
    AcceptedWithin(mac, header, body, secret, PYTHON_TOLERANCE, now);
    if SignedWithin(mac, header, body, secret, now - PYTHON_TOLERANCE, now + PYTHON_TOLERANCE) {
      var n: int :| IsInt64(n) && header == Sign(mac, secret, n, body)
                    && now - PYTHON_TOLERANCE <= n * SECOND <= now + PYTHON_TOLERANCE;
      PythonPassesSigned(mac, body, secret, n, now);
      FormatIsCommaFree(n);
      SplitHeader(FormatInt(n), HexEncode(mac(secret, Message(FormatInt(n), body))));
    }
    if PythonCheck(mac, header, body, secret, now) == Passed && IsCanonical(header) {
      var n: int :| IsInt64(n) && HasPrefix(Split(header)[0], "t=") && Split(header)[0][2..] == FormatInt(n);
      PythonPassedWasSigned(mac, header, body, secret, n, now);
    }
  }

  /** VerifySignature besides refuses an empty secret; the receiver does not. */
  lemma SdkAgrees(mac: Mac, header: string, body: string, secret: string, now: int)
    requires IsClock(now)
    ensures VerifySignature(mac, header, body, secret, PYTHON_TOLERANCE, now) == Accepted
            <==> secret != "" && PythonCheck(mac, header, body, secret, now) == Passed && IsCanonical(header)
  {
    hide VerifyAt, PythonCheck, IsCanonical;
    VerifiersAgree(mac, header, body, secret, now);
  }

  /** They do differ: a delivery whose signer writes a plus sign passes in Python and never in Go. */
  lemma PlusSignDivides(mac: Mac, body: string, secret: string, n: nat, now: int)
    requires IsClock(now) && now - PYTHON_TOLERANCE <= n * SECOND <= now + PYTHON_TOLERANCE
    ensures var text := "+" + FormatInt(n);
            var header := Header(text, HexEncode(mac(secret, Message(text, body))));
            PythonCheck(mac, header, body, secret, now) == Passed
            && VerifyAt(mac, header, body, secret, PYTHON_TOLERANCE, now) != Accepted
  {
    hide PythonInt, OverflowsFloat, Encode, PythonCheck, VerifyAt, Split;
    var text := "+" + FormatInt(n);
    var digest := HexEncode(mac(secret, Message(text, body)));
    FormatIsCommaFree(n);
    FormatIsAscii(n);
    WithinPythonsReach(n);
    PythonPassesText(mac, body, secret, text, n, now);
    VerifiersAgree(mac, Header(text, digest), body, secret, now);
    SplitHeader(text, digest);
    forall m: int
      ensures FormatInt(m) != text
    {
      FormatShape(m);
      assert text[0] == '+' && FormatInt(m)[0] != '+';
    }
  }

  /**
   And a timestamp that no float holds is malformed in Go, while in Python the connection is
   dropped without an answer.
   */
  lemma HugeTimestampCrashes(mac: Mac, body: string, secret: string, n: int, digest: string, tolerance: int, now: int)
    requires OverflowsFloat(n) && |Magnitude(FormatInt(n))| <= PYTHON_MAX_DIGITS && CommaFree(digest)
    ensures PythonCheck(mac, Header(FormatInt(n), digest), body, secret, now) == Crashed
    ensures VerifyAt(mac, Header(FormatInt(n), digest), body, secret, tolerance, now) == Malformed
  {
    hide PythonInt, FormatInt, Split, Pow2;
    FloatsReach();
    FormatIsCommaFree(n);
    SplitHeader(FormatInt(n), digest);
    PythonReadsFormat(n);
    ReadFormat(n);
  }
}
