/** Derivation paths of hierarchical deterministic wallets: the parser, the printer, and what they
    make of each other's results. */
module DerivationPath {
  import opened Wrappers

  const HARDENED: nat := 0x8000_0000
  const TWO32: nat := 0x1_0000_0000

  /** The path to which relative paths are appended. */
  const DEFAULT_ROOT: seq<nat> := [HARDENED + 44, HARDENED + 60, HARDENED + 0]

  datatype Error = Ambiguous | Empty | InvalidComponent | OutOfRange(hardened: bool)

  datatype Result<+T> = Ok(value: T) | Err(error: Error)

  predicate InRange(p: seq<nat>) {
    forall i :: 0 <= i < |p| ==> p[i] < TWO32
  }

  // Splitting and trimming

  /** The parts with one more character. */
  function Extended(parts: seq<string>, c: char): (r: seq<string>)
    requires parts != []
    ensures r != []
  {
    if c == '/' then parts + [""] else parts[..|parts| - 1] + [parts[|parts| - 1] + [c]]
  }

  /** The parts of a string between slashes; there is always at least one. */
  function Split(s: string): (parts: seq<string>)
    ensures parts != []
  {
    if s == [] then [""]
    else
      Extended(Split(s[..|s| - 1]), s[|s| - 1])
  }

  predicate IsSpace(c: char) {
    || c in {'\t', '\n', '\U{b}', '\U{c}', '\r', ' ', '\U{85}', '\U{a0}', '\U{1680}'}
    || '\U{2000}' <= c <= '\U{200a}'
    || c in {'\U{2028}', '\U{2029}', '\U{202f}', '\U{205f}', '\U{3000}'}
  }

  function TrimLeft(s: string): (r: string)
    ensures r == [] || !IsSpace(r[0])
  {
    if s != [] && IsSpace(s[0]) then TrimLeft(s[1..]) else s
  }

  function TrimRight(s: string): (r: string)
    ensures r == [] || (!IsSpace(r[|r| - 1]) && s != [] && r[0] == s[0])
  {
    if s != [] && IsSpace(s[|s| - 1]) then TrimRight(s[..|s| - 1]) else s
  }

  /** The string without the white space around it. */
  function Trim(s: string): (r: string)
    ensures r == [] || (!IsSpace(r[0]) && !IsSpace(r[|r| - 1]))
  {
    TrimRight(TrimLeft(s))
  }

  // Numbers, in the base that their prefix says

  function Digit(c: char): (d: nat) {
    if '0' <= c <= '9' then c as int - '0' as int
    else if 'a' <= c <= 'z' then c as int - 'a' as int + 10
    else if 'A' <= c <= 'Z' then c as int - 'A' as int + 10
    else 36
  }

  function Digits(s: string, base: nat): (n: Option<nat>) {
    if s == [] then Some(0)
    else
      var high, d := Digits(s[..|s| - 1], base), Digit(s[|s| - 1]);
      if high.None? || d >= base then None else Some(high.value * base + d)
  }

  function Unsigned(s: string): (n: Option<nat>) {
    if s == [] then None
    else if s[0] != '0' then Digits(s, 10)
    else if |s| == 1 then Some(0)
    else if s[1] in {'x', 'X'} then if |s| == 2 then None else Digits(s[2..], 16)
    else if s[1] in {'b', 'B'} then if |s| == 2 then None else Digits(s[2..], 2)
    else Digits(s[1..], 8)
  }

  function Signed(s: string): (n: Option<int>) {
    if s != [] && s[0] in {'+', '-'} then
      var n := Unsigned(s[1..]);
      if n.None? then None
      else
        var v: int := n.value;
        Some(if s[0] == '-' then -v else v)
    else
      Unsigned(s)
  }

  // Components and paths

  function Component(part: string): (r: Result<nat>)
    ensures r.Ok? ==> r.value < TWO32
  {
    Trimmed(Trim(part))
  }

  function Trimmed(t: string): (r: Result<nat>)
    ensures r.Ok? ==> r.value < TWO32
  {
    var hardened := t != [] && t[|t| - 1] == '\'';
    var n := Signed(if hardened then Trim(t[..|t| - 1]) else t);
    var max := TWO32 - 1 - if hardened then HARDENED else 0;
    if n.None? then Err(InvalidComponent)
    else if n.value < 0 || n.value > max then Err(OutOfRange(hardened))
    else Ok(n.value + if hardened then HARDENED else 0)
  }

  type Reader = string -> Result<nat>

  /** What a reader makes of all parts, or the error of the first that has one. */
  function ReadAll(read: Reader, parts: seq<string>): (r: Result<seq<nat>>)
    ensures r.Ok? ==> |r.value| == |parts|
  {
    if parts == [] then Ok([])
    else
      var before := ReadAll(read, parts[..|parts| - 1]);
      if before.Err? then before
      else
        var c := read(parts[|parts| - 1]);
        if c.Err? then Err(c.error) else Ok(before.value + [c.value])
  }

  function Components(parts: seq<string>): (r: Result<seq<nat>>) {
    ReadAll(Component, parts)
  }

  function Parse(path: string): (r: Result<seq<nat>>) {
    var parts := Split(path);
    var first := Trim(parts[0]);
    if first == "" then Err(Ambiguous)
    else if first == "m" then if |parts| == 1 then Err(Empty) else Components(parts[1..])
    else
      var r := Components(parts);
      if r.Err? then r else Ok(DEFAULT_ROOT + r.value)
  }

  function Decimal(n: nat): (s: string)
    ensures s != []
  {
    (if n < 10 then [] else Decimal(n / 10)) + [('0' as int + n % 10) as char]
  }

  function Piece(c: nat): (s: string) {
    if c >= HARDENED then Decimal(c - HARDENED) + "'" else Decimal(c)
  }

  function Print(p: seq<nat>): (s: string) {
    if p == [] then "m" else Print(p[..|p| - 1]) + "/" + Piece(p[|p| - 1])
  }

  // Printed paths parse

  lemma {:induction false} DecimalDigits(n: nat)
    ensures Digits(Decimal(n), 10) == Some(n)
    ensures forall i :: 0 <= i < |Decimal(n)| ==> '0' <= Decimal(n)[i] <= '9'
    ensures n > 0 ==> Decimal(n)[0] != '0'
  {
    var s := Decimal(n);
    if n >= 10 {
      DecimalDigits(n / 10);
      assert s[..|s| - 1] == Decimal(n / 10);
      assert s[0] == Decimal(n / 10)[0];
    } else {
      assert s[..|s| - 1] == [];
    }
  }

  lemma DecimalSigned(n: nat)
    ensures Signed(Decimal(n)) == Some(n)
  {
    DecimalDigits(n);
    if n == 0 { assert Decimal(0) == "0"; }
  }

  lemma TrimNothing(s: string)
    requires s == [] || (!IsSpace(s[0]) && !IsSpace(s[|s| - 1]))
    ensures Trim(s) == s
  {
  }

  predicate Printable(s: string) {
    forall i :: 0 <= i < |s| ==> '0' <= s[i] <= '9' || s[i] == '\''
  }

  lemma PrintablePlain(s: string)
    requires Printable(s)
    ensures '/' !in s && Trim(s) == s
  {
    if s != [] {
      NotSpace(s[0]);
      NotSpace(s[|s| - 1]);
    }
    TrimNothing(s);
  }

  lemma NotSpace(c: char)
    requires '0' <= c <= '9' || c == '\''
    ensures !IsSpace(c)
  {
  }

  lemma PlainPiece(d: string, n: nat)
    requires d != [] && d[|d| - 1] != '\'' && Signed(d) == Some(n)
    ensures Trimmed(d) == if n < 0x1_0000_0000 then Ok(n) else Err(OutOfRange(false))
  {
  }

  lemma HardenedPiece(d: string, n: nat)
    requires Trim(d) == d && Signed(d) == Some(n)
    ensures Trimmed(d + "'") == if n < 0x8000_0000 then Ok(0x8000_0000 + n) else Err(OutOfRange(true))
  {
    assert (d + "'")[..|d|] == d && (d + "'")[|d|] == '\'';
  }

  lemma PieceIsPlain(c: nat)
    ensures '/' !in Piece(c) && Trim(Piece(c)) == Piece(c)
  {
    DecimalDigits(if c >= HARDENED then c - HARDENED else c);
    PrintablePlain(Piece(c));
  }

  lemma PieceIsComponent(c: nat)
    requires c < TWO32
    ensures Component(Piece(c)) == Ok(c)
  {
    PieceIsPlain(c);
    var n := if c >= HARDENED then c - HARDENED else c;
    DecimalDigits(n);
    DecimalSigned(n);
    if c >= HARDENED {
      PrintablePlain(Decimal(n));
      HardenedPiece(Decimal(n), n);
    } else {
      PlainPiece(Decimal(n), n);
    }
  }

  lemma {:induction false} SplitSlash(s: string, w: string)
    requires '/' !in w
    ensures Split(s + "/" + w) == Split(s) + [w]
  {
    var t := s + "/" + w;
    if w == [] {
      assert t[..|t| - 1] == s;
    } else {
      assert t[..|t| - 1] == s + "/" + w[..|w| - 1];
      SplitSlash(s, w[..|w| - 1]);
      assert w == w[..|w| - 1] + [w[|w| - 1]];
    }
  }

  lemma SplitRoot()
    ensures Split("m") == ["m"]
  {
    assert "m"[..0] == "";
    assert Split("") == [""];
    assert "" + ['m'] == "m";
  }

  function Pieces(p: seq<nat>): (parts: seq<string>)
    ensures |parts| == |p|
  {
    if p == [] then [] else Pieces(p[..|p| - 1]) + [Piece(p[|p| - 1])]
  }

  lemma {:induction false} SplitPrinted(p: seq<nat>)
    ensures Split(Print(p)) == ["m"] + Pieces(p)
  {
    if p == [] {
      SplitRoot();
    } else {
      SplitPrinted(p[..|p| - 1]);
      PieceIsPlain(p[|p| - 1]);
      SplitSlash(Print(p[..|p| - 1]), Piece(p[|p| - 1]));
    }
  }

  lemma ReadNext(read: Reader, parts: seq<string>, w: string)
    requires ReadAll(read, parts).Ok? && read(w).Ok?
    ensures ReadAll(read, parts + [w]) == Ok(ReadAll(read, parts).value + [read(w).value])
  {
    assert (parts + [w])[..|parts|] == parts;
  }

  /** Reading succeeds with `p` if and only if each part reads as its own component. */
  lemma {:induction false} ReadEach(read: Reader, parts: seq<string>, p: seq<nat>)
    ensures ReadAll(read, parts) == Ok(p) <==> |parts| == |p| && forall i :: 0 <= i < |p| ==> read(parts[i]) == Ok(p[i])
  {
    if parts != [] {
      var init, last := parts[..|parts| - 1], parts[|parts| - 1];
      if p != [] {
        ReadEach(read, init, p[..|p| - 1]);
        assert p == p[..|p| - 1] + [p[|p| - 1]];
      }
    }
  }

  lemma {:induction false} PiecesAt(p: seq<nat>, i: nat)
    requires i < |p|
    ensures Pieces(p)[i] == Piece(p[i])
  {
    if i < |p| - 1 { PiecesAt(p[..|p| - 1], i); }
  }

  lemma PiecesParse(p: seq<nat>)
    requires InRange(p)
    ensures Components(Pieces(p)) == Ok(p)
  {
    forall i | 0 <= i < |p|
      ensures Component(Pieces(p)[i]) == Ok(p[i])
    {
      PiecesAt(p, i);
      PieceIsComponent(p[i]);
    }
    ReadEach(Component, Pieces(p), p);
  }

  /** Parsing the printed form of a path gives the path back. */
  lemma ParsePrinted(p: seq<nat>)
    requires p != [] && InRange(p)
    ensures Parse(Print(p)) == Ok(p)
  {
    SplitPrinted(p);
    PiecesParse(p);
    TrimNothing("m");
    assert (["m"] + Pieces(p))[1..] == Pieces(p);
  }

  /** Whatever parses gives a path of components in range, whose printed form parses to it again. */
  lemma ParsedReprints(s: string)
    requires Parse(s).Ok?
    ensures Parse(s).value != [] && InRange(Parse(s).value)
    ensures Parse(Print(Parse(s).value)) == Parse(s)
  {
    var parts := if Trim(Split(s)[0]) == "m" then Split(s)[1..] else Split(s);
    ReadEach(Component, parts, Components(parts).value);
    forall i | 0 <= i < |parts|
      ensures Components(parts).value[i] < TWO32
    {
      assert Component(parts[i]) == Ok(Components(parts).value[i]);
    }
    ParsePrinted(Parse(s).value);
  }

  // Absolute and relative paths, and white space

  /** A relative path stands for the default root followed by it. */
  lemma RelativeIsRooted(s: string)
    requires Trim(Split(s)[0]) != "" && Trim(Split(s)[0]) != "m"
    ensures Parse("m/" + s) == Components(Split(s))
    ensures Parse(s) == if Parse("m/" + s).Err? then Parse("m/" + s) else Ok(DEFAULT_ROOT + Parse("m/" + s).value)
  {
    SplitPrefixed(s);
    TrimNothing("m");
    assert (["m"] + Split(s))[1..] == Split(s);
  }

  lemma SplitNext(s: string, c: char)
    ensures Split(s + [c]) == Extended(Split(s), c)
  {
    assert (s + [c])[..|s|] == s;
  }

  lemma {:induction false} SplitAfter(pre: string, head: seq<string>, s: string)
    requires Split(pre) == head + [""]
    ensures Split(pre + s) == head + Split(s)
  {
    if s == [] {
      SplitAfterNothing(pre, head, s);
    } else {
      var t, c := s[..|s| - 1], s[|s| - 1];
      SplitAfter(pre, head, t);
      SplitAfterNext(pre, head, s, t, c);
    }
  }

  lemma SplitAfterNothing(pre: string, head: seq<string>, s: string)
    requires Split(pre) == head + [""] && s == []
    ensures Split(pre + s) == head + Split(s)
  {
    assert pre + s == pre && Split(s) == [""];
  }

  lemma SplitAfterNext(pre: string, head: seq<string>, s: string, t: string, c: char)
    requires s == t + [c] && Split(pre + t) == head + Split(t)
    ensures Split(pre + s) == head + Split(s)
  {
    SplitNext(t, c);
    SplitNext(pre + t, c);
    assert pre + s == pre + t + [c];
    ExtendedAfter(head, Split(t), c);
  }

  lemma ExtendedAfter(head: seq<string>, parts: seq<string>, c: char)
    requires parts != []
    ensures Extended(head + parts, c) == head + Extended(parts, c)
  {
  }

  lemma SplitPrefixed(s: string)
    ensures Split("m/" + s) == ["m"] + Split(s)
  {
    SplitSlash("m", "");
    SplitRoot();
    assert "m" + "/" + "" == "m/";
    SplitAfter("m/", ["m"], s);
  }

  predicate Spaces(w: string) {
    forall i :: 0 <= i < |w| ==> IsSpace(w[i])
  }

  lemma {:induction false} TrimLeftSpaces(w: string, s: string)
    requires Spaces(w)
    ensures TrimLeft(w + s) == TrimLeft(s)
  {
    if w == [] {
      assert w + s == s;
    } else {
      assert (w + s)[1..] == w[1..] + s;
      TrimLeftSpaces(w[1..], s);
    }
  }

  lemma {:induction false} TrimRightSpaces(s: string, w: string)
    requires Spaces(w)
    ensures TrimRight(s + w) == TrimRight(s)
  {
    if w == [] {
      assert s + w == s;
    } else {
      assert (s + w)[..|s + w| - 1] == s + w[..|w| - 1];
      TrimRightSpaces(s, w[..|w| - 1]);
    }
  }

  lemma {:induction false} TrimLeftBefore(s: string, w: string)
    ensures TrimLeft(s + w) == if TrimLeft(s) == [] then TrimLeft(w) else TrimLeft(s) + w
  {
    if s == [] {
      assert s + w == w;
    } else {
      assert (s + w)[1..] == s[1..] + w;
      if IsSpace(s[0]) { TrimLeftBefore(s[1..], w); }
    }
  }

  /** White space around a string makes no difference to what is left of it. */
  lemma TrimPadding(w: string, s: string, w': string)
    requires Spaces(w) && Spaces(w')
    ensures Trim(w + s + w') == Trim(s)
  {
    assert w + s + w' == w + (s + w');
    TrimLeftSpaces(w, s + w');
    TrimLeftBefore(s, w');
    if TrimLeft(s) == [] {
      TrimLeftSpaces(w', []);
      assert w' + [] == w';
    } else {
      TrimRightSpaces(TrimLeft(s), w');
    }
  }

  /** The string of which `parts` are the parts. */
  function Join(parts: seq<string>): (s: string)
    requires parts != []
  {
    if |parts| == 1 then parts[0] else Join(parts[..|parts| - 1]) + "/" + parts[|parts| - 1]
  }

  predicate NoSlash(parts: seq<string>) {
    forall i :: 0 <= i < |parts| ==> '/' !in parts[i]
  }

  lemma {:induction false} SplitPlain(w: string)
    requires '/' !in w
    ensures Split(w) == [w]
  {
    if w != [] {
      var t, c := w[..|w| - 1], w[|w| - 1];
      SplitPlain(t);
      SplitNext(t, c);
      assert w == t + [c] && Extended([t], c) == [t + [c]];
    }
  }

  lemma {:induction false} SplitJoin(parts: seq<string>)
    requires parts != [] && NoSlash(parts)
    ensures Split(Join(parts)) == parts
  {
    if |parts| == 1 {
      SplitPlain(parts[0]);
    } else {
      var init, last := parts[..|parts| - 1], parts[|parts| - 1];
      SplitJoin(init);
      SplitSlash(Join(init), last);
      assert parts == init + [last];
    }
  }

  /** Every path is the join of its parts. */
  lemma {:induction false} JoinSplit(s: string)
    ensures Join(Split(s)) == s
  {
    if s != [] {
      var t, c := s[..|s| - 1], s[|s| - 1];
      JoinSplit(t);
      JoinExtended(Split(t), c);
      assert s == t + [c];
    }
  }

  lemma JoinExtended(parts: seq<string>, c: char)
    requires parts != []
    ensures Join(Extended(parts, c)) == Join(parts) + [c]
  {
    var more, init, last := Extended(parts, c), parts[..|parts| - 1], parts[|parts| - 1];
    if c == '/' {
      assert more[..|parts|] == parts && more[|parts|] == "";
      assert Join(parts) + "/" + "" == Join(parts) + [c];
    } else {
      assert more[..|parts| - 1] == init && more[|parts| - 1] == last + [c];
      if |parts| > 1 { assert Join(init) + "/" + (last + [c]) == Join(init) + "/" + last + [c]; }
    }
  }

  lemma {:induction false} SplitHasNoSlash(s: string)
    ensures NoSlash(Split(s))
  {
    if s != [] { SplitHasNoSlash(s[..|s| - 1]); }
  }

  /** Each part with white space before and after it. */
  function Padded(parts: seq<string>, before: seq<string>, after: seq<string>): (r: seq<string>)
    requires |before| == |after| == |parts|
    ensures |r| == |parts| && forall i :: 0 <= i < |parts| ==> r[i] == before[i] + parts[i] + after[i]
  {
    seq(|parts|, i requires 0 <= i < |parts| => before[i] + parts[i] + after[i])
  }

  /** White space around the components of any path is ignored. */
  lemma PaddingIgnored(path: string, before: seq<string>, after: seq<string>)
    requires |before| == |after| == |Split(path)|
    requires forall i :: 0 <= i < |before| ==> Spaces(before[i]) && Spaces(after[i])
    ensures Parse(Join(Padded(Split(path), before, after))) == Parse(path)
  {
    var parts := Split(path);
    var padded := Padded(parts, before, after);
    SplitHasNoSlash(path);
    forall i | 0 <= i < |parts|
      ensures '/' !in padded[i] && Trim(padded[i]) == Trim(parts[i])
    {
      PaddedPart(before[i], parts[i], after[i]);
    }
    SplitJoin(padded);
    SameParse(path, Join(padded), parts, padded);
  }

  lemma SameParse(path: string, path': string, parts: seq<string>, padded: seq<string>)
    requires Split(path) == parts && Split(path') == padded
    requires |padded| == |parts| && forall i :: 0 <= i < |parts| ==> Trim(padded[i]) == Trim(parts[i])
    ensures Parse(path') == Parse(path)
  {
    SameTrimmed(parts, padded);
    SameTrimmed(parts[1..], padded[1..]);
  }

  lemma PaddedPart(before: string, part: string, after: string)
    requires Spaces(before) && Spaces(after) && '/' !in part
    ensures '/' !in before + part + after && Trim(before + part + after) == Trim(part)
  {
    SpacesPlain(before);
    SpacesPlain(after);
    TrimPadding(before, part, after);
  }

  lemma SpacesPlain(w: string)
    requires Spaces(w)
    ensures '/' !in w
  {
    assert !IsSpace('/');
  }

  lemma SameTrimmed(parts: seq<string>, padded: seq<string>)
    requires |padded| == |parts| && forall i :: 0 <= i < |parts| ==> Trim(padded[i]) == Trim(parts[i])
    ensures Components(padded) == Components(parts)
  {
    forall i | 0 <= i < |parts|
      ensures Component(padded[i]) == Component(parts[i])
    {
      assert Trim(padded[i]) == Trim(parts[i]);
    }
    ReadSame(Component, parts, padded);
  }

  lemma {:induction false} ReadSame(read: Reader, parts: seq<string>, others: seq<string>)
    requires |others| == |parts| && forall i :: 0 <= i < |parts| ==> read(others[i]) == read(parts[i])
    ensures ReadAll(read, others) == ReadAll(read, parts)
  {
    if parts != [] {
      ReadSame(read, parts[..|parts| - 1], others[..|parts| - 1]);
    }
  }

  // What is in a path

  /** Whatever follows, a path with a leading slash is an error. */
  lemma LeadingSlash(s: string)
    ensures Parse("/" + s) == Err(Ambiguous)
  {
    SplitSlash("", "");
    assert "" + "/" + "" == "/" && Split("") == [""];
    SplitAfter("/", [""], s);
    TrimNothing("");
  }

  /** The root alone is an error as well. */
  lemma RootAlone()
    ensures Parse("m") == Err(Empty)
  {
    SplitRoot();
    TrimNothing("m");
  }

  /** Which numbers can be components, plain and hardened, and what the others are refused for. */
  lemma {:induction false} InRangeExactly(n: nat)
    ensures Component(Decimal(n)) == if n < 0x1_0000_0000 then Ok(n) else Err(OutOfRange(false))
    ensures Component(Decimal(n) + "'") == if n < 0x8000_0000 then Ok(0x8000_0000 + n) else Err(OutOfRange(true))
  {
    DecimalDigits(n);
    DecimalSigned(n);
    NumeralInRange(Decimal(n), n);
  }

  lemma NumeralInRange(d: string, n: nat)
    requires d != [] && Signed(d) == Some(n) && forall i :: 0 <= i < |d| ==> '0' <= d[i] <= '9'
    ensures Component(d) == if n < 0x1_0000_0000 then Ok(n) else Err(OutOfRange(false))
    ensures Component(d + "'") == if n < 0x8000_0000 then Ok(0x8000_0000 + n) else Err(OutOfRange(true))
  {
    PrintablePlain(d);
    PrintablePlain(d + "'");
    PlainPiece(d, n);
    HardenedPiece(d, n);
  }

  /** The root to which relative paths are appended is that of the 44th proposal for coin 60 and account 0,
      all hardened. */
  lemma DefaultRoot()
    ensures Print(DEFAULT_ROOT) == "m" + "/" + Decimal(44) + "'" + "/" + Decimal(60) + "'" + "/" + Decimal(0) + "'"
  {
    var a, b, c: nat := 0x8000_0000 + 44, 0x8000_0000 + 60, 0x8000_0000 + 0;
    assert DEFAULT_ROOT == [] + [a] + [b] + [c];
    PrintsNext([] + [a] + [b], 0);
    PrintsNext([] + [a], 60);
    PrintsNext([], 44);
  }

  /** A component is printed in decimal after a slash; a hardened one without what makes it so, and followed by
      an apostrophe. */
  lemma {:induction false} PrintsNext(p: seq<nat>, n: nat)
    ensures n < 0x8000_0000 ==> Print(p + [n]) == Print(p) + "/" + Decimal(n)
    ensures Print(p + [0x8000_0000 + n]) == Print(p) + "/" + Decimal(n) + "'"
  {
    assert (p + [n])[..|p|] == p && (p + [0x8000_0000 + n])[..|p|] == p;
    assert Print(p) + "/" + (Decimal(n) + "'") == Print(p) + "/" + Decimal(n) + "'";
  }

  /** The prefixes of numbers and their bases; without one a number is decimal. */
  ghost predicate Prefix(pre: string, base: nat) {
    (base == 16 && pre in {"0x", "0X"}) || (base == 2 && pre in {"0b", "0B"}) || (base == 8 && pre == "0")
  }

  /** A digit more after a prefix is worth itself and makes the rest worth as many times more as the base says. */
  lemma PrefixedReads(pre: string, base: nat, d: string, k: nat)
    requires Prefix(pre, base) && k < base
    ensures var c := "0123456789abcdef"[k];
            && Unsigned(pre + [c]) == Some(k)
            && forall v: nat :: d != "" && Unsigned(pre + d) == Some(v) && (base == 8 ==> '0' <= d[0] <= '7') ==> Unsigned(pre + d + [c]) == Some(v * base + k)
  {
    var c := "0123456789abcdef"[k];
    SymbolValue(k);
    OneDigit(c, base);
    MoreDigits(d, c, base);
    AfterPrefix(pre, base, [c]);
    if d != "" && (base == 8 ==> '0' <= d[0] <= '7') {
      AfterPrefix(pre, base, d);
      AfterPrefix(pre, base, d + [c]);
      assert pre + (d + [c]) == pre + d + [c];
    }
  }

  lemma SymbolValue(k: nat)
    requires k < 16
    ensures Digit("0123456789abcdef"[k]) == k
  {
  }

  lemma AfterPrefix(pre: string, base: nat, d: string)
    requires Prefix(pre, base) && d != "" && (base == 8 ==> '0' <= d[0] <= '7')
    ensures Unsigned(pre + d) == Digits(d, base)
  {
    var s, n := pre + d, |pre|;
    assert s[n..] == d && s[0] == pre[0] == '0';
    if base == 8 { assert s[1] == d[0]; } else { assert s[1] == pre[1]; }
  }

  lemma OneDigit(c: char, base: nat)
    requires Digit(c) < base
    ensures Digits([c], base) == Some(Digit(c))
  {
    assert [c][..0] == [];
  }

  lemma MoreDigits(d: string, c: char, base: nat)
    requires Digit(c) < base
    ensures Digits(d + [c], base) == if Digits(d, base).None? then None else Some(Digits(d, base).value * base + Digit(c))
  {
    assert (d + [c])[..|d|] == d;
  }

  // The program

  method SplitPath(path: string) returns (parts: seq<string>)
    ensures parts == Split(path)
  {
    parts := [""];
    for i := 0 to |path|
      invariant parts == Split(path[..i])
    {
      assert path[..i + 1] == path[..i] + [path[i]];
      SplitNext(path[..i], path[i]);
      if path[i] == '/' {
        parts := parts + [""];
      } else {
        parts := parts[|parts| - 1 := parts[|parts| - 1] + [path[i]]];
      }
    }
    assert path[..|path|] == path;
  }

  method ParseDerivationPath(path: string) returns (r: Result<seq<nat>>)
    ensures r == Parse(path)
  {
    var components := SplitPath(path);
    var result := [];
    var first := Trim(components[0]);
    if first == "" {
      return Err(Ambiguous);
    } else if first == "m" {
      components := components[1..];
    } else {
      result := DEFAULT_ROOT;
    }
    if |components| == 0 { return Err(Empty); }
    r := Append(result, components);
    assert r.Ok? && result == [] ==> r.value == Components(components).value;
  }

  /** Appends the components of all parts, or stops at the first that has none. */
  method Append(root: seq<nat>, components: seq<string>) returns (r: Result<seq<nat>>)
    ensures r == if Components(components).Err? then Components(components) else Ok(root + Components(components).value)
  {
    var result := root;
    for i := 0 to |components|
      invariant ReadAll(Component, components[..i]).Ok? && result == root + ReadAll(Component, components[..i]).value
    {
      var c := ParseComponent(components[i]);
      if c.Err? {
        FirstError(Component, components, i);
        return Err(c.error);
      }
      ReadNext(Component, components[..i], components[i]);
      assert components[..i + 1] == components[..i] + [components[i]];
      result := result + [c.value];
    }
    assert components[..|components|] == components;
    r := Ok(result);
  }

  lemma {:induction false} FirstError(read: Reader, parts: seq<string>, i: nat)
    requires i < |parts| && ReadAll(read, parts[..i]).Ok? && read(parts[i]).Err?
    ensures ReadAll(read, parts) == Err(read(parts[i]).error)
    decreases |parts|
  {
    if i < |parts| - 1 {
      assert parts[..|parts| - 1][..i] == parts[..i];
      FirstError(read, parts[..|parts| - 1], i);
    }
  }

  method ParseComponent(part: string) returns (r: Result<nat>)
    ensures r == Component(part)
  {
    var component, value: nat := Trim(part), 0;
    if component != [] && component[|component| - 1] == '\'' {
      value := HARDENED;
      component := Trim(component[..|component| - 1]);
    }
    var bigval := Signed(component);
    if bigval.None? { return Err(InvalidComponent); }
    var max := TWO32 - 1 - value;
    if bigval.value < 0 || bigval.value > max { return Err(OutOfRange(value != 0)); }
    value := value + bigval.value;
    r := Ok(value);
  }

  method ToString(path: seq<nat>) returns (result: string)
    ensures result == Print(path)
  {
    result := "m";
    for i := 0 to |path|
      invariant result == Print(path[..i])
    {
      assert path[..i + 1][..i] == path[..i];
      var component, hardened := path[i], false;
      if component >= HARDENED {
        component, hardened := component - HARDENED, true;
      }
      result := result + "/" + Decimal(component);
      if hardened { result := result + "'"; }
      assert result == Print(path[..i]) + "/" + Piece(path[i]);
    }
    assert path[..|path|] == path;
  }
}
