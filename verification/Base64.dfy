/** Canonical base64 (section 4 of RFC 4648) and the sizes built on it
    (scripts/operator_plan_envelope.py, scripts/operator_execution_transport.py,
    scripts/operator_execution_runtime.py). */
module Base64 {
  import opened Wrappers

  type byte = x: int | 0 <= x < 256 witness 0

  type Sextet = x: int | 0 <= x < 64 witness 0

  type Bytes = seq<byte>

  function Digit(value: Sextet): char {
    if value < 26 then 'A' + value as char
    else if value < 52 then 'a' + (value - 26) as char
    else if value < 62 then '0' + (value - 52) as char
    else if value == 62 then '+'
    else '/'
  }

  function Value(c: char): Option<Sextet> {
    if 'A' <= c <= 'Z' then Some(c as int - 'A' as int)
    else if 'a' <= c <= 'z' then Some(c as int - 'a' as int + 26)
    else if '0' <= c <= '9' then Some(c as int - '0' as int + 52)
    else if c == '+' then Some(62)
    else if c == '/' then Some(63)
    else None
  }

  lemma DigitValue(value: Sextet)
    ensures Value(Digit(value)) == Some(value) && Digit(value) != '='
  {
  }

  /* ---------- encoding ---------- */

  function First(a: byte): Sextet { a / 4 }

  function Second(a: byte, b: byte): Sextet { a % 4 * 16 + b / 16 }

  function Third(b: byte, c: byte): Sextet { b % 16 * 4 + c / 64 }

  function Fourth(c: byte): Sextet { c % 64 }

  /** Up to three bytes as four characters, padded. */
  function EncodeGroup(raw: Bytes): (r: string)
    requires 1 <= |raw| <= 3
    ensures |r| == 4
  {
    var b := if |raw| > 1 then raw[1] else 0;
    var c := if |raw| > 2 then raw[2] else 0;
    [Digit(First(raw[0])), Digit(Second(raw[0], b)),
     if |raw| > 1 then Digit(Third(b, c)) else '=',
     if |raw| > 2 then Digit(Fourth(c)) else '=']
  }

  function Encode(raw: Bytes): string {
    if raw == [] then ""
    else if |raw| <= 3 then EncodeGroup(raw)
    else EncodeGroup(raw[..3]) + Encode(raw[3..])
  }

  /* ---------- decoding ---------- */

  function ByteA(p: Sextet, q: Sextet): byte { p * 4 + q / 16 }

  function ByteB(q: Sextet, r: Sextet): byte { q % 16 * 16 + r / 4 }

  function ByteC(r: Sextet, s: Sextet): byte { r % 4 * 64 + s }

  /** How many bytes a group of four stands for. */
  function Kept(text: string): nat
    requires |text| == 4
  {
    if text[3] != '=' then 3 else if text[2] != '=' then 2 else 1
  }

  function DecodeGroup(text: string): Option<Bytes>
    requires |text| == 4
  {
    var p, q, r, s := Value(text[0]), Value(text[1]), Value(text[2]), Value(text[3]);
    if p.None? || q.None? then None
    else if Kept(text) == 1 then Some([ByteA(p.value, q.value)])
    else if r.None? then None
    else if Kept(text) == 2 then Some([ByteA(p.value, q.value), ByteB(q.value, r.value)])
    else if s.None? then None
    else Some([ByteA(p.value, q.value), ByteB(q.value, r.value), ByteC(r.value, s.value)])
  }

  /** Decoding that tolerates unused trailing bits. */
  function Lenient(text: string): Option<Bytes> {
    if text == "" then Some([])
    else if |text| < 4 then None
    else
      var head := DecodeGroup(text[..4]);
      if head.None? || (Kept(text[..4]) < 3 && |text| > 4) then None
      else
        var rest := Lenient(text[4..]);
        if rest.None? then None else Some(head.value + rest.value)
  }

  /** Decode within bounds, then insist that the text is the canonical one. */
  function Decode(value: string, minimum: nat, maximum: nat): Result<Bytes> {
    var _ :- Require(|value| <= 4 * ((maximum + 2) / 3));
    var raw := Lenient(value);
    var _ :- Require(raw.Some? && minimum <= |raw.value| <= maximum && Encode(raw.value) == value);
    Ok(raw.value)
  }

  /* ---------- round trip ---------- */

  lemma SextetsInvert(a: byte, b: byte, c: byte)
    ensures ByteA(First(a), Second(a, b)) == a
    ensures ByteB(Second(a, b), Third(b, c)) == b
    ensures ByteC(Third(b, c), Fourth(c)) == c
  {
  }

  lemma OneInverts(a: byte)
    ensures var text := [Digit(First(a)), Digit(Second(a, 0)), '=', '='];
            DecodeGroup(text) == Some([a]) && Kept(text) == 1
  {
    hide Digit, Value, First, Second, ByteA, ByteB, ByteC;
    SextetsInvert(a, 0, 0);
    DigitValue(First(a));
    DigitValue(Second(a, 0));
  }

  lemma TwoInverts(a: byte, b: byte)
    ensures var text := [Digit(First(a)), Digit(Second(a, b)), Digit(Third(b, 0)), '='];
            DecodeGroup(text) == Some([a, b]) && Kept(text) == 2
  {
    hide Digit, Value, First, Second, Third, ByteA, ByteB, ByteC;
    SextetsInvert(a, b, 0);
    DigitValue(First(a));
    DigitValue(Second(a, b));
    DigitValue(Third(b, 0));
  }

  lemma ThreeInverts(a: byte, b: byte, c: byte)
    ensures var text := [Digit(First(a)), Digit(Second(a, b)), Digit(Third(b, c)), Digit(Fourth(c))];
            DecodeGroup(text) == Some([a, b, c]) && Kept(text) == 3
  {
    hide Digit, Value, First, Second, Third, Fourth, ByteA, ByteB, ByteC;
    SextetsInvert(a, b, c);
    DigitValue(First(a));
    DigitValue(Second(a, b));
    DigitValue(Third(b, c));
    DigitValue(Fourth(c));
  }

  lemma GroupInverts(raw: Bytes)
    requires 1 <= |raw| <= 3
    ensures DecodeGroup(EncodeGroup(raw)) == Some(raw) && Kept(EncodeGroup(raw)) == |raw|
  {
    hide Digit, Value, First, Second, Third, Fourth, DecodeGroup, Kept;
    if |raw| == 1 {
      OneInverts(raw[0]);
      assert raw == [raw[0]];
    } else if |raw| == 2 {
      TwoInverts(raw[0], raw[1]);
      assert raw == [raw[0], raw[1]];
    } else {
      ThreeInverts(raw[0], raw[1], raw[2]);
      assert raw == [raw[0], raw[1], raw[2]];
    }
  }

  lemma {:induction false} DecodingInvertsEncoding(raw: Bytes)
    ensures Lenient(Encode(raw)) == Some(raw)
  {
    hide EncodeGroup, DecodeGroup, Kept;
    if |raw| > 3 {
      var head, rest := EncodeGroup(raw[..3]), Encode(raw[3..]);
      GroupInverts(raw[..3]);
      DecodingInvertsEncoding(raw[3..]);
      assert (head + rest)[..4] == head && (head + rest)[4..] == rest;
      assert raw == raw[..3] + raw[3..];
    } else if raw != [] {
      var text := EncodeGroup(raw);
      GroupInverts(raw);
      assert text[..4] == text && text[4..] == "";
      assert Lenient("") == Some([]) && raw + [] == raw;
    }
  }

  lemma {:induction false} EncodedLength(raw: Bytes)
    ensures |Encode(raw)| == 4 * ((|raw| + 2) / 3)
  {
    hide EncodeGroup;
    if |raw| > 3 {
      EncodedLength(raw[3..]);
    }
  }

  lemma LongerEncodesLonger(n: nat, maximum: nat)
    requires n <= maximum
    ensures 4 * ((n + 2) / 3) <= 4 * ((maximum + 2) / 3)
  {
  }

  /** Exactly the canonical text of bytes within the bounds is accepted. */
  lemma DecodeAcceptsExactlyCanonical(value: string, minimum: nat, maximum: nat, raw: Bytes)
    ensures Decode(value, minimum, maximum) == Ok(raw) <==> Encode(raw) == value && minimum <= |raw| <= maximum
  {
    if Encode(raw) == value && minimum <= |raw| <= maximum {
      DecodingInvertsEncoding(raw);
      EncodedLength(raw);
      LongerEncodesLonger(|raw|, maximum);
    }
  }

  /** No two texts decode to the same bytes. */
  lemma DecodeIsInjective(a: string, b: string, minimum: nat, maximum: nat)
    requires Decode(a, minimum, maximum).Ok? && Decode(a, minimum, maximum) == Decode(b, minimum, maximum)
    ensures a == b
  {
  }
}
