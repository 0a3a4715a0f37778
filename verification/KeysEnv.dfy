/** The setting that lists the encryption keys, as "version:key" parts between commas. */
module KeysEnv {
  import opened Wrappers
  import opened Text
  import Base64

  type Version = Base64.Byte
  type Keys = map<Version, string>

  datatype Error = BadFormat(part: string) | BadVersion(text: string) | NoKeys

  // ---- Splitting ----

  function Split(s: string): (parts: seq<string>)
    ensures |parts| >= 1
  {
    if s == "" then [""]
    else
      var rest := Split(s[1..]);
      if s[0] == ',' then [""] + rest else [[s[0]] + rest[0]] + rest[1..]
  }

  function Join(parts: seq<string>): string
    requires |parts| >= 1
  {
    if |parts| == 1 then parts[0] else parts[0] + "," + Join(parts[1..])
  }

  lemma {:induction false} SplitFirst(first: string, s: string)
    requires ',' !in first
    ensures Split(first + s) == [first + Split(s)[0]] + Split(s)[1..]
  {
    if first == "" {
      assert first + s == s && first + Split(s)[0] == Split(s)[0];
      assert [Split(s)[0]] + Split(s)[1..] == Split(s);
    } else {
      assert (first + s)[1..] == first[1..] + s && (first + s)[0] == first[0] && first[0] in first;
      SplitFirst(first[1..], s);
      assert [first[0]] + (first[1..] + Split(s)[0]) == first + Split(s)[0];
    }
  }

  /** Splitting undoes joining. */
  lemma {:induction false} SplitJoin(parts: seq<string>)
    requires |parts| >= 1 && forall k :: 0 <= k < |parts| ==> ',' !in parts[k]
    ensures Split(Join(parts)) == parts
  {
    if |parts| == 1 {
      SplitFirst(parts[0], "");
      assert parts[0] + "" == parts[0];
    } else {
      SplitJoin(parts[1..]);
      var rest := "," + Join(parts[1..]);
      assert rest[1..] == Join(parts[1..]);
      assert Join(parts) == parts[0] + rest;
      SplitFirst(parts[0], rest);
      assert Split(rest) == [""] + parts[1..];
      assert parts[0] + "" == parts[0] && [parts[0]] + parts[1..] == parts;
    }
  }

  function IndexByte(s: string, c: char): (k: Option<nat>)
    ensures k.Some? ==> k.value < |s| && s[k.value] == c && c !in s[..k.value]
    ensures k.None? ==> c !in s
  {
    if s == "" then None
    else if s[0] == c then Some(0)
    else
      match IndexByte(s[1..], c)
      case None => None
      case Some(k) => assert s[..k + 1] == [s[0]] + s[1..][..k]; Some(k + 1)
  }

  // ---- Numbers ----

  predicate IsDigit(c: char) { '0' <= c <= '9' }

  function Digits(s: string): Option<nat> {
    if s == "" then Some(0)
    else
      var n := |s| - 1;
      match Digits(s[..n])
      case Some(high) => if IsDigit(s[n]) then Some(high * 10 + (s[n] - '0') as int) else None
      case None => None
  }

  // Atoi: an optional sign and at least one digit. Numbers too long for a machine word, which Atoi also
  // refuses, are out of the range of versions anyway.
  function Atoi(s: string): Option<int> {
    var signed := s != "" && (s[0] == '-' || s[0] == '+');
    var text := if signed then s[1..] else s;
    if text == "" then None
    else
      match Digits(text)
      case Some(n) =>
        var i: int := n;
        Some(if s[0] == '-' then -i else i)
      case None => None
  }

  function Decimal(n: nat): string {
    if n < 10 then [n as char + '0'] else Decimal(n / 10) + [(n % 10) as char + '0']
  }

  lemma {:induction false} DecimalDigits(n: nat)
    ensures Digits(Decimal(n)) == Some(n) && Decimal(n) != "" && forall c :: c in Decimal(n) ==> IsDigit(c)
  {
    var s := Decimal(n);
    if n < 10 {
      assert s[..0] == "";
    } else {
      DecimalDigits(n / 10);
      assert s[..|s| - 1] == Decimal(n / 10);
    }
  }

  lemma AtoiDecimal(n: nat)
    ensures Atoi(Decimal(n)) == Some(n)
  {
    DecimalDigits(n);
    assert IsDigit(Decimal(n)[0]);
  }

  predicate AllDigits(s: string) { forall k :: 0 <= k < |s| ==> '0' <= s[k] <= '9' }

  lemma {:induction false} DigitsOnly(s: string)
    ensures Digits(s).Some? <==> AllDigits(s)
  {
    if s != "" {
      var n := |s| - 1;
      DigitsOnly(s[..n]);
      assert AllDigits(s) <==> AllDigits(s[..n]) && IsDigit(s[n]);
    }
  }

  lemma {:induction false} ZerosDropped(s: string)
    ensures Digits("0" + s) == Digits(s)
  {
    if s != "" {
      var n := |s| - 1;
      ZerosDropped(s[..n]);
      assert ("0" + s)[..n + 1] == "0" + s[..n];
    } else {
      assert "0" + s == "0" && "0"[..0] == "";
    }
  }

  /** A number is an optional sign and digits, at least one. */
  lemma AtoiAccepts(s: string)
    ensures Atoi(s).Some? <==>
            || (s != "" && AllDigits(s))
            || (|s| > 1 && (s[0] == '-' || s[0] == '+') && AllDigits(s[1..]))
  {
    DigitsOnly(s);
    if s != "" { DigitsOnly(s[1..]); }
  }

  /** It is read as decimal, after a sign too, and leading zeros do not count. */
  lemma AtoiReads(s: string, n: nat)
    requires Digits(s) == Some(n) && s != ""
    ensures Atoi(s) == Atoi("+" + s) == Atoi("0" + s) == Some(n)
    ensures Atoi("-" + s).Some? && Atoi("-" + s).value == 0 - n
    ensures Digits(Decimal(n)) == Some(n)
  {
    ZerosDropped(s);
    DigitsOnly(s);
    DecimalDigits(n);
    assert s[0] != '-' && s[0] != '+';
    assert ("+" + s)[1..] == s && ("-" + s)[1..] == s;
  }

  // ---- Parsing ----

  function ParsePart(part: string, keys: Keys): Result<Keys, Error> {
    var p := TrimSpace(part);
    if p == "" then Ok(keys)
    else
      match IndexByte(p, ':')
      case None => Err(BadFormat(p))
      case Some(colon) =>
        match Atoi(p[..colon])
        case None => Err(BadVersion(p[..colon]))
        case Some(v) => if 1 <= v <= 255 then Ok(keys[v := p[colon + 1..]]) else Err(BadVersion(p[..colon]))
  }

  function ParseParts(parts: seq<string>): Result<Keys, Error> {
    if parts == [] then Ok(map[])
    else
      var n := |parts| - 1;
      match ParseParts(parts[..n])
      case Err(e) => Err(e)
      case Ok(keys) => ParsePart(parts[n], keys)
  }

  function Parsed(s: string): Result<Keys, Error> {
    match ParseParts(Split(s))
    case Err(e) => Err(e)
    case Ok(keys) => if keys == map[] then Err(NoKeys) else Ok(keys)
  }

  lemma {:induction false} FirstErrorStays(parts: seq<string>, k: nat)
    requires k <= |parts| && ParseParts(parts[..k]).Err?
    ensures ParseParts(parts) == ParseParts(parts[..k])
  {
    if k < |parts| {
      assert parts[..|parts| - 1][..k] == parts[..k];
      FirstErrorStays(parts[..|parts| - 1], k);
    } else {
      assert parts[..k] == parts;
    }
  }

  // The body of the loop, for one part.
  method ParseOne(raw: string, keys: Keys) returns (r: Result<Keys, Error>)
    ensures r == ParsePart(raw, keys)
  {
    var part := TrimSpace(raw);
    if part == "" { return Ok(keys); }
    var colonIdx := IndexByte(part, ':');
    if colonIdx.None? { return Err(BadFormat(part)); }
    var text := part[..colonIdx.value];
    var ver := Atoi(text);
    if ver.None? || ver.value < 1 || ver.value > 255 { return Err(BadVersion(text)); }
    return Ok(keys[ver.value := part[colonIdx.value + 1..]]);
  }

  method ParseKeysEnv(s: string) returns (r: Result<Keys, Error>)
    ensures r == Parsed(s)
  {
    var keys: Keys := map[];
    var parts := Split(s);
    for k := 0 to |parts|
      invariant ParseParts(parts[..k]) == Ok(keys)
    {
      assert parts[..k + 1][..k] == parts[..k];
      var part := ParseOne(parts[k], keys);
      match part {
        case Ok(more) => keys := more;
        case Err(e) =>
          FirstErrorStays(parts, k + 1);
          return Err(e);
      }
    }
    assert parts[..|parts|] == parts;
    if |keys| == 0 { return Err(NoKeys); }
    return Ok(keys);
  }

  // ---- Parsing undoes writing ----

  /** What an operator may write between two commas: nothing but space, or a version and a key with
      space around them. */
  datatype Piece = Space(space: string) | Key(left: string, version: Version, key: string, right: string)

  predicate Fits(p: Piece) {
    match p
    case Space(space) => Blank(space)
    case Key(left, v, key, right) =>
      && Blank(left) && Blank(right) && 1 <= v && ',' !in key
      && (key != "" ==> !IsSpace(key[|key| - 1]))
  }

  function Written(p: Piece): string {
    match p
    case Space(space) => space
    case Key(left, v, key, right) => left + (Decimal(v) + ":" + key) + right
  }

  function WrittenAll(pieces: seq<Piece>): seq<string> {
    seq(|pieces|, k requires 0 <= k < |pieces| => Written(pieces[k]))
  }

  // The keys in the order they are written: a later one replaces an earlier one of the same version.
  function Meaning(pieces: seq<Piece>): Keys {
    if pieces == [] then map[]
    else
      var keys := Meaning(pieces[..|pieces| - 1]);
      match pieces[|pieces| - 1]
      case Space(_) => keys
      case Key(_, v, key, _) => keys[v := key]
  }

  lemma PieceHasNoComma(p: Piece)
    requires Fits(p)
    ensures ',' !in Written(p)
  {
    if p.Key? { DecimalDigits(p.version); }
  }

  lemma {:induction false} ColonAfter(digits: string, key: string)
    requires forall c :: c in digits ==> IsDigit(c)
    ensures IndexByte(digits + ":" + key, ':') == Some(|digits|)
  {
    if digits != "" {
      assert IsDigit(digits[0]);
      assert (digits + ":" + key)[1..] == digits[1..] + ":" + key;
      ColonAfter(digits[1..], key);
    }
  }

  lemma PaddedPart(left: string, body: string, right: string, keys: Keys)
    requires Blank(left) && Blank(right) && NoEdgeSpace(body)
    ensures ParsePart(left + body + right, keys) == ParsePart(body, keys)
  {
    TrimPadded(left, body, right);
    TrimPadded("", body, "");
    assert "" + body + "" == body;
  }

  lemma KeyPart(digits: string, v: Version, key: string, keys: Keys)
    requires digits != "" && (forall c :: c in digits ==> IsDigit(c)) && Atoi(digits) == Some(v)
    requires 1 <= v && (key != "" ==> !IsSpace(key[|key| - 1]))
    ensures NoEdgeSpace(digits + ":" + key)
    ensures ParsePart(digits + ":" + key, keys) == Ok(keys[v := key])
  {
    var body := digits + ":" + key;
    ColonAfter(digits, key);
    assert body[0] == digits[0] && IsDigit(digits[0]);
    assert body[|body| - 1] == if key == "" then ':' else key[|key| - 1];
    assert body[..|digits|] == digits && body[|digits| + 1..] == key;
    assert TrimSpace(body) == body by {
      TrimPadded("", body, "");
      assert "" + body + "" == body;
    }
  }

  lemma PartOfPiece(p: Piece, keys: Keys)
    requires Fits(p)
    ensures ParsePart(Written(p), keys) == Ok(match p case Space(_) => keys case Key(_, v, key, _) => keys[v := key])
  {
    match p {
      case Space(space) => TrimBlank(space);
      case Key(left, v, key, right) =>
        DecimalDigits(v);
        AtoiDecimal(v);
        KeyPart(Decimal(v), v, key, keys);
        PaddedPart(left, Decimal(v) + ":" + key, right, keys);
    }
  }

  lemma {:induction false} PartsOfPieces(pieces: seq<Piece>)
    requires forall k :: 0 <= k < |pieces| ==> Fits(pieces[k])
    ensures ParseParts(WrittenAll(pieces)) == Ok(Meaning(pieces))
  {
    if pieces != [] {
      var n := |pieces| - 1;
      PartsOfPieces(pieces[..n]);
      assert WrittenAll(pieces)[..n] == WrittenAll(pieces[..n]);
      PartOfPiece(pieces[n], Meaning(pieces[..n]));
    }
  }

  /** Whatever is written (parts in any order, spaces around them, empty parts, repeated versions),
      parsing gives the last key of each version and nothing else. */
  lemma {:induction false} ParsesWhatIsWritten(pieces: seq<Piece>)
    requires pieces != [] && forall k :: 0 <= k < |pieces| ==> Fits(pieces[k])
    ensures Parsed(Join(WrittenAll(pieces))) ==
            if Meaning(pieces) == map[] then Err(NoKeys) else Ok(Meaning(pieces))
  {
    forall k | 0 <= k < |pieces| ensures ',' !in WrittenAll(pieces)[k] {
      PieceHasNoComma(pieces[k]);
    }
    SplitJoin(WrittenAll(pieces));
    PartsOfPieces(pieces);
  }

  // ---- A key map, written out ----

  // `pieces` write the map `keys`: each version once, in any order, among any number of empty parts.
  ghost predicate Writes(pieces: seq<Piece>, keys: Keys) {
    && (forall k :: 0 <= k < |pieces| ==> Fits(pieces[k]))
    && (forall j, k :: 0 <= j < k < |pieces| && pieces[j].Key? && pieces[k].Key? ==>
          pieces[j].version != pieces[k].version)
    && (forall k :: 0 <= k < |pieces| && pieces[k].Key? ==>
          pieces[k].version in keys && keys[pieces[k].version] == pieces[k].key)
    && (forall v :: v in keys ==> exists k :: 0 <= k < |pieces| && pieces[k].Key? && pieces[k].version == v)
  }

  // Without its last piece the text writes the map without that piece's key.
  lemma WritesFewer(pieces: seq<Piece>, last: Piece, keys: Keys)
    requires Writes(pieces + [last], keys)
    ensures Writes(pieces, if last.Key? then keys - {last.version} else keys)
    ensures last.Key? ==> last.version in keys && keys[last.version] == last.key
  {
    var all, n := pieces + [last], |pieces|;
    var fewer := if last.Key? then keys - {last.version} else keys;
    assert all[n] == last;
    assert forall k :: 0 <= k < n ==> all[k] == pieces[k];
    forall v | v in fewer
      ensures exists k :: 0 <= k < n && pieces[k].Key? && pieces[k].version == v
    {
      var k :| 0 <= k < |all| && all[k].Key? && all[k].version == v;
      assert k < n && pieces[k].Key?;
    }
  }

  lemma {:induction false} MeaningIs(pieces: seq<Piece>, keys: Keys)
    requires Writes(pieces, keys)
    ensures Meaning(pieces) == keys
  {
    if pieces == [] {
      assert keys == map[];
    } else {
      var n := |pieces| - 1;
      var last := pieces[n];
      assert pieces == pieces[..n] + [last];
      WritesFewer(pieces[..n], last, keys);
      MeaningIs(pieces[..n], if last.Key? then keys - {last.version} else keys);
    }
  }

  /** Parsing any writing of a non-empty key map gives back exactly that map. */
  lemma ParsesTheMap(pieces: seq<Piece>, keys: Keys)
    requires keys != map[] && Writes(pieces, keys)
    ensures pieces != [] && Parsed(Join(WrittenAll(pieces))) == Ok(keys)
  {
    MeaningIs(pieces, keys);
    ParsesWhatIsWritten(pieces);
  }

  // ---- What is accepted ----

  predicate Empty(part: string) { TrimSpace(part) == "" }

  // The text before the first colon of the trimmed part is a number from 1 to 255.
  ghost predicate NamesAVersion(part: string) {
    var p := TrimSpace(part);
    exists c :: 0 <= c < |p| && p[c] == ':' && ':' !in p[..c] && VersionNumber(p[..c])
  }

  predicate VersionNumber(text: string) { Atoi(text).Some? && 1 <= Atoi(text).value <= 255 }

  lemma PartAccepted(part: string, keys: Keys)
    ensures ParsePart(part, keys).Ok? <==> Empty(part) || NamesAVersion(part)
    ensures ParsePart(part, keys).Ok? && !Empty(part) ==> ParsePart(part, keys).value != map[]
    ensures Empty(part) ==> ParsePart(part, keys) == Ok(keys)
  {
    var p := TrimSpace(part);
    var colon := IndexByte(p, ':');
    if NamesAVersion(part) {
      var c :| 0 <= c < |p| && p[c] == ':' && ':' !in p[..c] && VersionNumber(p[..c]);
      assert colon.Some?;
      assert colon.value == c && p != "";
      var v := Atoi(p[..c]).value;
      assert v in ParsePart(part, keys).value;
    } else if p != "" && colon.Some? {
      assert !VersionNumber(p[..colon.value]);
    }
  }

  predicate Fine(part: string) { ParsePart(part, map[]).Ok? }

  lemma PartFine(part: string, keys: Keys)
    ensures ParsePart(part, keys).Ok? <==> Fine(part)
    ensures Fine(part) <==> Empty(part) || NamesAVersion(part)
    ensures Fine(part) ==> (ParsePart(part, keys).value == map[] <==> keys == map[] && Empty(part))
  {
    PartAccepted(part, keys);
    PartAccepted(part, map[]);
  }

  lemma {:induction false} PartsAccepted(parts: seq<string>)
    ensures ParseParts(parts).Ok? <==> forall k :: 0 <= k < |parts| ==> Fine(parts[k])
    ensures ParseParts(parts).Ok? ==>
      (ParseParts(parts).value == map[] <==> forall k :: 0 <= k < |parts| ==> Empty(parts[k]))
  {
    if parts != [] {
      var n := |parts| - 1;
      PartsAccepted(parts[..n]);
      assert forall k :: 0 <= k < n ==> parts[..n][k] == parts[k];
      if ParseParts(parts[..n]).Ok? { PartFine(parts[n], ParseParts(parts[..n]).value); }
    }
  }

  /** A setting is accepted exactly when every part between commas is empty or names a version, and not
      all are empty. */
  lemma {:induction false} AcceptedExactly(s: string)
    ensures Parsed(s).Ok? <==>
            && (forall k :: 0 <= k < |Split(s)| ==> Empty(Split(s)[k]) || NamesAVersion(Split(s)[k]))
            && (exists k :: 0 <= k < |Split(s)| && !Empty(Split(s)[k]))
  {
    var parts := Split(s);
    PartsAccepted(parts);
    forall k | 0 <= k < |parts| ensures Fine(parts[k]) <==> Empty(parts[k]) || NamesAVersion(parts[k]) {
      PartFine(parts[k], map[]);
    }
  }

  // What the error says of the part is so.
  ghost predicate Blames(part: string, e: Error) {
    var p := TrimSpace(part);
    match e
    case BadFormat(q) => q == p && p != "" && ':' !in p
    case BadVersion(text) =>
      exists c :: 0 <= c < |p| && p[c] == ':' && ':' !in p[..c] && text == p[..c] && !VersionNumber(text)
    case NoKeys => false
  }

  lemma PartBlamed(part: string, keys: Keys)
    requires ParsePart(part, keys).Err?
    ensures Blames(part, ParsePart(part, keys).error)
  {
  }

  /** A refusal names the first part that is wrong; nothing else is wrong with a setting of empty parts
      than that it names no key. */
  lemma {:induction false} RefusedFor(s: string)
    requires Parsed(s).Err?
    ensures var parts := Split(s);
            || (Parsed(s).error == NoKeys && forall k :: 0 <= k < |parts| ==> Empty(parts[k]))
            || exists k :: 0 <= k < |parts| && Blames(parts[k], Parsed(s).error)
                           && forall j :: 0 <= j < k ==> Empty(parts[j]) || NamesAVersion(parts[j])
  {
    PartsAccepted(Split(s));
    if ParseParts(Split(s)).Err? {
      FirstBlamed(Split(s));
      assert Parsed(s).error == ParseParts(Split(s)).error;
    }
  }

  lemma {:induction false} FirstBlamed(parts: seq<string>)
    requires ParseParts(parts).Err?
    ensures exists k :: 0 <= k < |parts| && Blames(parts[k], ParseParts(parts).error)
                        && forall j :: 0 <= j < k ==> Empty(parts[j]) || NamesAVersion(parts[j])
  {
    var n := |parts| - 1;
    if ParseParts(parts[..n]).Err? {
      FirstBlamed(parts[..n]);
      var k :| 0 <= k < n && Blames(parts[..n][k], ParseParts(parts).error)
               && forall j :: 0 <= j < k ==> Empty(parts[..n][j]) || NamesAVersion(parts[..n][j]);
      assert Blames(parts[k], ParseParts(parts).error);
      forall j | 0 <= j < k ensures Empty(parts[j]) || NamesAVersion(parts[j]) {
        assert parts[j] == parts[..n][j];
      }
    } else {
      PartsAccepted(parts[..n]);
      PartBlamed(parts[n], ParseParts(parts[..n]).value);
      forall j | 0 <= j < n ensures Empty(parts[j]) || NamesAVersion(parts[j]) {
        assert parts[j] == parts[..n][j];
        PartFine(parts[j], map[]);
      }
    }
  }
}
