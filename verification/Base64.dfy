/** Standard base64 with padding, as section 4 of RFC 4648 describes it and Go's decoder reads it:
    line breaks are skipped, and unused trailing bits are ignored. */
module Base64 {
  import opened Wrappers

  type Byte = b: int | 0 <= b < 256
  type Bytes = seq<Byte>
  type Sextet = b: int | 0 <= b < 64

  function Digit(v: Sextet): char {
    if v < 26 then 'A' + v as char
    else if v < 52 then 'a' + (v - 26) as char
    else if v < 62 then '0' + (v - 52) as char
    else if v == 62 then '+' else '/'
  }

  function Value(c: char): Option<Sextet> {
    if 'A' <= c <= 'Z' then Some((c - 'A') as int)
    else if 'a' <= c <= 'z' then Some((c - 'a') as int + 26)
    else if '0' <= c <= '9' then Some((c - '0') as int + 52)
    else if c == '+' then Some(62)
    else if c == '/' then Some(63)
    else None
  }

  const PAD := '='

  function Encode(data: Bytes): string {
    if |data| == 0 then ""
    else if |data| == 1 then [Digit(data[0] / 4), Digit(data[0] % 4 * 16), PAD, PAD]
    else if |data| == 2 then
      [Digit(data[0] / 4), Digit(data[0] % 4 * 16 + data[1] / 16), Digit(data[1] % 16 * 4), PAD]
    else
      [Digit(data[0] / 4), Digit(data[0] % 4 * 16 + data[1] / 16),
       Digit(data[1] % 16 * 4 + data[2] / 64), Digit(data[2] % 64)] + Encode(data[3..])
  }

  predicate IsBreak(c: char) { c == '\r' || c == '\n' }

  function WithoutBreaks(s: string): string {
    if s == "" then "" else (if IsBreak(s[0]) then "" else [s[0]]) + WithoutBreaks(s[1..])
  }

  function Decode(s: string): Option<Bytes> { DecodeGroups(WithoutBreaks(s)) }

  // The groups of four digits; padding may only end the last one.
  function DecodeGroups(s: string): Option<Bytes> {
    if s == "" then Some([])
    else if |s| < 4 then None
    else
      var a, b, c, d := Value(s[0]), Value(s[1]), Value(s[2]), Value(s[3]);
      if a.None? || b.None? then None
      else if s[2] == PAD then
        if s[3] == PAD && |s| == 4 then Some([First(a.value, b.value)]) else None
      else if c.None? then None
      else if s[3] == PAD then
        if |s| == 4 then Some([First(a.value, b.value), Second(b.value, c.value)]) else None
      else if d.None? then None
      else
        match DecodeGroups(s[4..])
        case None => None
        case Some(rest) =>
          Some([First(a.value, b.value), Second(b.value, c.value), c.value % 4 * 64 + d.value] + rest)
  }

  function First(a: Sextet, b: Sextet): Byte { a * 4 + b / 16 }

  function Second(b: Sextet, c: Sextet): Byte { b % 16 * 16 + c / 4 }

  lemma DigitHasValue(v: Sextet)
    ensures Value(Digit(v)) == Some(v) && Digit(v) != PAD && !IsBreak(Digit(v))
  {
  }

  /** The digits are those of table 1 of RFC 4648, in its order, and nothing else has a value. */
  lemma Alphabet(v: Sextet, c: char)
    ensures Digit(0) == 'A' && Digit(25) == 'Z' && Digit(26) == 'a' && Digit(51) == 'z'
    ensures Digit(52) == '0' && Digit(61) == '9' && Digit(62) == '+' && Digit(63) == '/'
    ensures v != 25 && v != 51 && v < 61 ==> Digit(v + 1) as int == Digit(v) as int + 1
    ensures Value(c) == Some(v) <==> c == Digit(v)
  {
    DigitHasValue(v);
  }

  predicate NoBreaks(s: string) { forall k :: 0 <= k < |s| ==> !IsBreak(s[k]) }

  lemma {:induction false} NothingToSkip(s: string)
    requires NoBreaks(s)
    ensures WithoutBreaks(s) == s
  {
    if s != "" { NothingToSkip(s[1..]); }
  }

  lemma {:induction false} EncodedHasNoBreaks(data: Bytes)
    ensures NoBreaks(Encode(data))
  {
    if |data| >= 3 { EncodedHasNoBreaks(data[3..]); }
  }

  ghost predicate Returns(data: Bytes) { DecodeGroups(Encode(data)) == Some(data) }

  lemma LastOne(x: Byte)
    ensures Returns([x])
  {
    DigitHasValue(x / 4);
    DigitHasValue(x % 4 * 16);
  }

  lemma RegroupedTwo(x: Byte, y: Byte)
    ensures First(x / 4, x % 4 * 16 + y / 16) == x
    ensures Second(x % 4 * 16 + y / 16, y % 16 * 4) == y
  {
  }

  lemma LastTwo(x: Byte, y: Byte)
    ensures Returns([x, y])
  {
    var a: Sextet, b: Sextet, c: Sextet := x / 4, x % 4 * 16 + y / 16, y % 16 * 4;
    DigitHasValue(a);
    DigitHasValue(b);
    DigitHasValue(c);
    RegroupedTwo(x, y);
    assert Encode([x, y]) == [Digit(a), Digit(b), Digit(c), PAD];
    assert DecodeGroups([Digit(a), Digit(b), Digit(c), PAD]) == Some([First(a, b), Second(b, c)]);
  }

  // A full group followed by anything decodable.
  lemma FullGroup(a: Sextet, b: Sextet, c: Sextet, d: Sextet, s: string)
    requires DecodeGroups(s).Some?
    ensures DecodeGroups([Digit(a), Digit(b), Digit(c), Digit(d)] + s) ==
            Some([First(a, b), Second(b, c), c % 4 * 64 + d] + DecodeGroups(s).value)
  {
    DigitHasValue(a);
    DigitHasValue(b);
    DigitHasValue(c);
    DigitHasValue(d);
    var t := [Digit(a), Digit(b), Digit(c), Digit(d)] + s;
    assert t[4..] == s && |t| >= 4;
    assert Value(t[0]) == Some(a) && Value(t[1]) == Some(b) && Value(t[2]) == Some(c) && Value(t[3]) == Some(d);
    assert t[2] != PAD && t[3] != PAD;
  }

  lemma Regrouped(x: Byte, y: Byte, z: Byte)
    ensures First(x / 4, x % 4 * 16 + y / 16) == x
    ensures Second(x % 4 * 16 + y / 16, y % 16 * 4 + z / 64) == y
    ensures (y % 16 * 4 + z / 64) % 4 * 64 + z % 64 == z
  {
  }

  lemma EncodeThree(x: Byte, y: Byte, z: Byte, rest: Bytes)
    ensures Encode([x, y, z] + rest) ==
            [Digit(x / 4), Digit(x % 4 * 16 + y / 16), Digit(y % 16 * 4 + z / 64), Digit(z % 64)] + Encode(rest)
  {
    var data := [x, y, z] + rest;
    assert data[0] == x && data[1] == y && data[2] == z && data[3..] == rest;
  }

  lemma EncodeFull(x: Byte, y: Byte, z: Byte, rest: Bytes)
    requires Returns(rest)
    ensures Returns([x, y, z] + rest)
  {
    var a: Sextet, b: Sextet, c: Sextet, d: Sextet := x / 4, x % 4 * 16 + y / 16, y % 16 * 4 + z / 64, z % 64;
    EncodeThree(x, y, z, rest);
    FullGroup(a, b, c, d, Encode(rest));
    Regrouped(x, y, z);
  }

  lemma {:induction false} GroupsRoundTrip(data: Bytes)
    ensures Returns(data)
  {
    if |data| == 1 {
      LastOne(data[0]);
      assert data == [data[0]];
    } else if |data| == 2 {
      LastTwo(data[0], data[1]);
      assert data == [data[0], data[1]];
    } else if |data| >= 3 {
      GroupsRoundTrip(data[3..]);
      EncodeFull(data[0], data[1], data[2], data[3..]);
      assert data == [data[0], data[1], data[2]] + data[3..];
    }
  }

  // All but the last two characters are digits, and those two may be padding, the first of them only
  // before the second.
  predicate Grouped(s: string) {
    && |s| % 4 == 0
    && (forall k :: 0 <= k < |s| - 2 ==> Value(s[k]).Some?)
    && (s != "" ==>
          || (Value(s[|s| - 2]).Some? && Value(s[|s| - 1]).Some?)
          || (Value(s[|s| - 2]).Some? && s[|s| - 1] == PAD)
          || (s[|s| - 2] == PAD && s[|s| - 1] == PAD))
  }

  predicate FourDigits(s: string)
    requires |s| >= 4
  {
    Value(s[0]).Some? && Value(s[1]).Some? && Value(s[2]).Some? && Value(s[3]).Some?
  }

  lemma LongerDecodes(s: string)
    requires |s| > 4
    ensures DecodeGroups(s).Some? <==> FourDigits(s) && DecodeGroups(s[4..]).Some?
  {
  }

  lemma LongerGrouped(s: string)
    requires |s| > 4
    ensures Grouped(s) <==> FourDigits(s) && Grouped(s[4..])
  {
    var t := s[4..];
    assert forall k :: 4 <= k < |s| ==> s[k] == t[k - 4];
    if Grouped(s) && |t| >= 4 {
      forall k | 0 <= k < |t| - 2 ensures Value(t[k]).Some? { assert t[k] == s[k + 4]; }
    }
  }

  lemma OneGroupDecodes(s: string)
    requires |s| <= 4
    ensures DecodeGroups(s).Some? <==> Grouped(s)
  {
    if |s| == 4 {
      assert s[4..] == "";
      assert Grouped(s) <==>
             && Value(s[0]).Some? && Value(s[1]).Some?
             && ((Value(s[2]).Some? && (Value(s[3]).Some? || s[3] == PAD)) || (s[2] == PAD && s[3] == PAD));
    }
  }

  /** What decodes, line breaks aside, is exactly the groups of four digits with the padding in place. */
  lemma {:induction false} DecodesExactly(s: string)
    ensures DecodeGroups(s).Some? <==> Grouped(s)
  {
    if |s| > 4 {
      DecodesExactly(s[4..]);
      LongerDecodes(s);
      LongerGrouped(s);
    } else {
      OneGroupDecodes(s);
    }
  }

  /** Decoding gives back every byte string, whatever its length. */
  lemma RoundTrip(data: Bytes)
    ensures Decode(Encode(data)) == Some(data)
  {
    EncodedHasNoBreaks(data);
    NothingToSkip(Encode(data));
    GroupsRoundTrip(data);
  }

  /** Examples of section 10 of RFC 4648. */
  lemma Foobar()
    ensures Encode([102]) == "Zg==" && Encode([102, 111]) == "Zm8=" && Encode([102, 111, 111]) == "Zm9v"
  {
    var foo: Bytes, none: Bytes := [102, 111, 111], [];
    EncodeThree(102, 111, 111, none);
    assert foo + none == foo;
  }
}
