/** The few string operations the services rely on: trimming white space, splitting at commas and
    lower-casing ASCII. */
module Text {

  // The white space of the Unicode standard, which is what strings.TrimSpace removes.
  predicate IsSpace(c: char) {
    ('\t' <= c <= '\r') || c == ' ' || c == '\U{85}' || c == '\U{A0}' || c == '\U{1680}' ||
    ('\U{2000}' <= c <= '\U{200A}') || c == '\U{2028}' || c == '\U{2029}' || c == '\U{202F}' ||
    c == '\U{205F}' || c == '\U{3000}'
  }

  predicate Blank(s: string) { forall k :: 0 <= k < |s| ==> IsSpace(s[k]) }

  function TrimLeft(s: string): string {
    if s != "" && IsSpace(s[0]) then TrimLeft(s[1..]) else s
  }

  function TrimRight(s: string): string {
    if s != "" && IsSpace(s[|s| - 1]) then TrimRight(s[..|s| - 1]) else s
  }

  function TrimSpace(s: string): string { TrimRight(TrimLeft(s)) }

  predicate NoEdgeSpace(s: string) { s != "" ==> !IsSpace(s[0]) && !IsSpace(s[|s| - 1]) }

  lemma {:induction false} TrimLeftDrops(pad: string, s: string)
    requires Blank(pad)
    ensures TrimLeft(pad + s) == TrimLeft(s)
  {
    if pad == "" {
      assert pad + s == s;
    } else {
      assert (pad + s)[1..] == pad[1..] + s;
      TrimLeftDrops(pad[1..], s);
    }
  }

  lemma {:induction false} TrimRightDrops(s: string, pad: string)
    requires Blank(pad)
    ensures TrimRight(s + pad) == TrimRight(s)
  {
    if pad == "" {
      assert s + pad == s;
    } else {
      var n := |pad| - 1;
      assert (s + pad)[..|s + pad| - 1] == s + pad[..n];
      assert (s + pad)[|s + pad| - 1] == pad[n];
      TrimRightDrops(s, pad[..n]);
    }
  }

  /** Padding is exactly what trimming takes away. */
  lemma TrimPadded(left: string, s: string, right: string)
    requires Blank(left) && Blank(right) && NoEdgeSpace(s)
    ensures TrimSpace(left + s + right) == s
  {
    assert left + s + right == left + (s + right);
    TrimLeftDrops(left, s + right);
    if s == "" {
      assert s + right == right + "";
      TrimLeftDrops(right, "");
    } else {
      assert (s + right)[0] == s[0];
      TrimRightDrops(s, right);
    }
  }

  /** A space, a tab and the line breaks are white space; no printing ASCII character is. */
  lemma SpacesAre(c: char)
    ensures c == ' ' || '\t' <= c <= '\r' || c == '\U{85}' || c == '\U{A0}' ==> Blank([c])
    ensures '!' <= c <= '~' ==> !IsSpace(c)
  {
  }

  lemma {:induction false} TrimLeftLeaves(s: string) returns (pad: string)
    ensures Blank(pad) && s == pad + TrimLeft(s)
    ensures TrimLeft(s) != "" ==> !IsSpace(TrimLeft(s)[0])
  {
    pad := "";
    if s != "" && IsSpace(s[0]) {
      var rest := TrimLeftLeaves(s[1..]);
      pad := [s[0]] + rest;
      assert s == [s[0]] + s[1..];
    }
  }

  lemma {:induction false} TrimRightLeaves(s: string) returns (pad: string)
    ensures Blank(pad) && s == TrimRight(s) + pad
    ensures TrimRight(s) != "" ==> !IsSpace(TrimRight(s)[|TrimRight(s)| - 1]) && TrimRight(s)[0] == s[0]
  {
    pad := "";
    if s != "" && IsSpace(s[|s| - 1]) {
      var n := |s| - 1;
      var rest := TrimRightLeaves(s[..n]);
      pad := rest + [s[n]];
      assert s == s[..n] + [s[n]];
    }
  }

  // `b` is `s` with white space around it.
  ghost predicate Pads(b: string, s: string) {
    exists left, right :: Blank(left) && Blank(right) && b == left + s + right
  }

  /** Trimming gives `s` exactly when `s` has no white space at its ends, and only white space is around it. */
  lemma TrimIs(b: string, s: string)
    ensures TrimSpace(b) == s <==> NoEdgeSpace(s) && Pads(b, s)
  {
    if NoEdgeSpace(s) && Pads(b, s) {
      var left, right :| Blank(left) && Blank(right) && b == left + s + right;
      TrimPadded(left, s, right);
    }
    TrimPads(b);
  }

  lemma TrimPads(b: string)
    ensures NoEdgeSpace(TrimSpace(b)) && Pads(b, TrimSpace(b))
  {
    var left := TrimLeftLeaves(b);
    var right := TrimRightLeaves(TrimLeft(b));
    assert b == left + TrimSpace(b) + right;
  }

  lemma TrimBlank(s: string)
    requires Blank(s)
    ensures TrimSpace(s) == ""
  {
    assert s + "" == s;
    TrimLeftDrops(s, "");
  }

  // ---- Lower case ----

  function LowerChar(c: char): char { if 'A' <= c <= 'Z' then c - 'A' + 'a' else c }

  function Lower(s: string): string { seq(|s|, k requires 0 <= k < |s| => LowerChar(s[k])) }

  // The same letter, or one the ASCII capital of the other.
  predicate SameLetter(c: char, d: char) {
    c == d || ('A' <= c <= 'Z' && d as int == c as int + 32) || ('A' <= d <= 'Z' && c as int == d as int + 32)
  }

  predicate SameButCase(s: string, t: string) {
    |s| == |t| && forall k :: 0 <= k < |s| ==> SameLetter(s[k], t[k])
  }

  /** Lower-casing leaves no capital, and identifies exactly what differs in case alone. */
  lemma LowerForgetsCase(s: string, t: string)
    ensures Lower(s) == Lower(t) <==> SameButCase(s, t)
    ensures SameButCase(Lower(s), s) && forall c :: c in Lower(s) ==> !('A' <= c <= 'Z')
  {
    if Lower(s) == Lower(t) {
      assert |Lower(s)| == |s| && |Lower(t)| == |t|;
      forall k | 0 <= k < |s| ensures SameLetter(s[k], t[k]) { assert Lower(s)[k] == Lower(t)[k]; }
    }
  }

  lemma LowerIdempotent(s: string)
    ensures Lower(Lower(s)) == Lower(s)
  {
  }

  // ---- Length in bytes ----

  // The bytes of a character in UTF-8.
  function Utf8Size(c: char): nat {
    if c < '\U{80}' then 1 else if c < '\U{800}' then 2 else if c < '\U{10000}' then 3 else 4
  }

  function Utf8Length(s: string): nat { if s == "" then 0 else Utf8Size(s[0]) + Utf8Length(s[1..]) }

  /** A text takes as many bytes as its parts; one character up to four, and only an ASCII one a single. */
  lemma {:induction false} Utf8Counts(s: string, t: string, c: char)
    ensures Utf8Length(s + t) == Utf8Length(s) + Utf8Length(t)
    ensures Utf8Length([c]) == if c < '\U{80}' then 1 else if c < '\U{800}' then 2 else if c < '\U{10000}' then 3 else 4
  {
    if s == "" {
      assert s + t == t;
    } else {
      assert (s + t)[1..] == s[1..] + t;
      Utf8Counts(s[1..], t, c);
    }
  }
}
