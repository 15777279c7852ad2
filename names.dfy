/** Model of the template-name genericiser: a C++ name such as
    `ns::Vec<int, Foo<bar>>::Get` becomes `ns::Vec<T1,T2>::Get`.

    The scanner (`ScanFrom`, and the method `GenericizeNamespaceAndTypeName`
    that runs it as a loop) follows the source character by character.  For a
    name whose angle brackets are balanced, `GenericizeMatchesPieces` proves
    that it computes the same thing as an independent, structural reading of
    the name (`Pieces` rendered by `Render`): depth-0 characters are copied,
    depth-0 `::` separates segments, every depth-0 template list is replaced by
    one placeholder per top-level parameter, and depth-0 commas vanish. */
module SymbolNames {

  import opened Results

  // ------------------------------------------------------------------
  // Strings: whitespace trimming, decimal rendering, joining
  // ------------------------------------------------------------------

  /** Char.IsWhiteSpace, the test String.Trim uses: the Unicode space
      separators, line and paragraph separators, U+0009..U+000D and U+0085. */
  predicate IsWhiteSpace(c: char) {
    c == ' ' || ('\t' <= c <= '\r') || c == '\U{0085}' || c == '\U{00A0}' || c == '\U{1680}'
    || ('\U{2000}' <= c <= '\U{200A}') || c == '\U{2028}' || c == '\U{2029}'
    || c == '\U{202F}' || c == '\U{205F}' || c == '\U{3000}'
  }

  function TrimStart(s: string): string
    decreases |s|
  {
    if s != [] && IsWhiteSpace(s[0]) then TrimStart(s[1..]) else s
  }

  function TrimEnd(s: string): string
    decreases |s|
  {
    if s != [] && IsWhiteSpace(s[|s| - 1]) then TrimEnd(s[..|s| - 1]) else s
  }

  /** String.Trim: strip white space from both ends. */
  function Trim(s: string): string {
    TrimEnd(TrimStart(s))
  }

  lemma {:induction false} TrimStartIsSuffix(s: string)
    ensures var r := TrimStart(s);
      |r| <= |s| && r == s[|s| - |r|..]
      && (forall k :: 0 <= k < |s| - |r| ==> IsWhiteSpace(s[k]))
      && (r == [] || !IsWhiteSpace(r[0]))
    decreases |s|
  {
    if s != [] && IsWhiteSpace(s[0]) {
      TrimStartIsSuffix(s[1..]);
    }
  }

  lemma {:induction false} TrimEndIsPrefix(s: string)
    ensures var r := TrimEnd(s);
      |r| <= |s| && r == s[..|r|]
      && (forall k :: |r| <= k < |s| ==> IsWhiteSpace(s[k]))
      && (r == [] || !IsWhiteSpace(r[|r| - 1]))
    decreases |s|
  {
    if s != [] && IsWhiteSpace(s[|s| - 1]) {
      TrimEndIsPrefix(s[..|s| - 1]);
    }
  }

  /** Trim keeps a contiguous part of its argument, removes only white space
      and leaves no white space at either end. */
  lemma TrimIsCore(s: string)
    ensures var r := Trim(s);
      exists a, b :: 0 <= a <= b <= |s| && r == s[a..b]
        && (forall k :: 0 <= k < a ==> IsWhiteSpace(s[k]))
        && (forall k :: b <= k < |s| ==> IsWhiteSpace(s[k]))
        && (r == [] || (!IsWhiteSpace(r[0]) && !IsWhiteSpace(r[|r| - 1])))
  {
    var t := TrimStart(s);
    TrimStartIsSuffix(s);
    TrimEndIsPrefix(t);
    var r := TrimEnd(t);
    var a := |s| - |t|;
    var b := a + |r|;
    assert r == s[a..b];
    if r != [] {
      assert r[0] == t[0];
    }
  }

  function DigitChar(d: nat): (c: char)
    requires d < 10
    ensures '0' <= c <= '9'
  {
    "0123456789"[d]
  }

  /** Int32.ToString for a non-negative number. */
  function DecimalString(n: nat): (r: string)
    ensures |r| >= 1
    ensures forall k :: 0 <= k < |r| ==> '0' <= r[k] <= '9'
  {
    if n < 10 then [DigitChar(n)] else DecimalString(n / 10) + [DigitChar(n % 10)]
  }

  /** The placeholder "T" + n. */
  function Placeholder(n: nat): string {
    "T" + DecimalString(n)
  }

  /** Parts joined with a separator, built left to right as the source's
      loops build them. */
  function JoinWith(parts: seq<string>, sep: string): string
    decreases |parts|
  {
    if |parts| == 0 then ""
    else if |parts| == 1 then parts[0]
    else JoinWith(parts[..|parts| - 1], sep) + sep + parts[|parts| - 1]
  }

  /** The final step of the genericiser: all segments but the last joined
      with "::" form the type or namespace; "::" and the last segment follow
      unless that prefix is empty. */
  function Rejoin(segments: seq<string>): string
    requires |segments| >= 1
  {
    var prefix := JoinWith(segments[..|segments| - 1], "::");
    prefix + (if prefix == "" then "" else "::") + segments[|segments| - 1]
  }

  // ------------------------------------------------------------------
  // The anonymised-names dictionary, enumerated in insertion order
  // ------------------------------------------------------------------

  type Dict = seq<(string, string)>

  function Lookup(d: Dict, key: string): Option<string>
    decreases |d|
  {
    if d == [] then None else if d[0].0 == key then Some(d[0].1) else Lookup(d[1..], key)
  }

  /** Keys are never empty and never repeated. */
  ghost predicate WellFormedNames(d: Dict) {
    (forall a :: 0 <= a < |d| ==> d[a].0 != "")
    && (forall a, b :: 0 <= a < b < |d| ==> d[a].0 != d[b].0)
  }

  // ------------------------------------------------------------------
  // Placeholder assignment for one closed template list
  // ------------------------------------------------------------------

  datatype Assigned = Assigned(texts: seq<string>, names: Dict, total: nat)

  /** One parameter: a known name reuses its placeholder; otherwise the
      running counter advances and a non-empty name is recorded as
      "T" + counter, while an empty one produces an empty placeholder. */
  function AssignOne(p: string, names: Dict, total: nat): Assigned {
    match Lookup(names, p)
    case Some(v) => Assigned([v], names, total)
    case None =>
      if |p| > 0 then Assigned([Placeholder(total + 1)], names + [(p, Placeholder(total + 1))], total + 1)
      else Assigned([""], names, total + 1)
  }

  /** The parameters of one list, left to right. */
  function Placeholders(ps: seq<string>, names: Dict, total: nat): (a: Assigned)
    ensures |a.texts| == |ps|
    decreases |ps|
  {
    if ps == [] then Assigned([], names, total)
    else
      var first := AssignOne(ps[0], names, total);
      var rest := Placeholders(ps[1..], first.names, first.total);
      Assigned(first.texts + rest.texts, rest.names, rest.total)
  }

  // ------------------------------------------------------------------
  // The scanner, as the source's index loop
  // ------------------------------------------------------------------

  /** The loop's variables: the StringBuilder of the current segment, the
      finished segments, templateDepth, templateParamStartIndex, the concrete
      parameter names of the open list (the dictionary keyed 1..k-1, whose
      size plus one is templateParameterCount), the counter across all
      segments and the anonymised-names dictionary. */
  datatype Scan = Scan(sb: string, segments: seq<string>, depth: int, start: int,
                       params: seq<string>, total: nat, names: Dict)

  const InitialScan := Scan("", [], 0, -1, [], 0, [])

  /** What the closing '>' of a depth-0 list appends: '<', the placeholders
      separated by ',', '>'. */
  function CloseList(st: Scan, ps: seq<string>): Scan {
    var a := Placeholders(ps, st.names, st.total);
    st.(depth := 0, sb := st.sb + "<" + JoinWith(a.texts, ",") + ">", params := [],
        total := a.total, names := a.names)
  }

  /** templateParamStartIndex is a valid index whenever a list is open. */
  predicate Ready(name: string, i: nat, st: Scan) {
    i <= |name| && (st.depth >= 1 ==> 0 <= st.start <= i)
  }

  datatype Cursor = Cursor(i: nat, st: Scan)

  /** One turn of the loop at index i (two characters for "::"). */
  function Step(name: string, i: nat, st: Scan): (r: Cursor)
    requires Ready(name, i, st) && i < |name|
    ensures i < r.i <= |name| && Ready(name, r.i, r.st)
  {
    var c := name[i];
    if c == '<' then
      if st.depth == 0 then Cursor(i + 1, st.(start := i + 1, params := [], depth := 1))
      else Cursor(i + 1, st.(depth := st.depth + 1))
    else if c == '>' then
      if st.depth - 1 == 0 then Cursor(i + 1, CloseList(st, st.params + [Trim(name[st.start..i])]))
      else Cursor(i + 1, st.(depth := st.depth - 1))
    else if c == ',' then
      if st.depth == 1 then Cursor(i + 1, st.(params := st.params + [Trim(name[st.start..i])], start := i + 1))
      else Cursor(i + 1, st)
    else if c == ':' && i < |name| - 1 && name[i + 1] == ':' then
      if st.depth == 0 then Cursor(i + 2, st.(segments := st.segments + [st.sb], sb := ""))
      else Cursor(i + 2, st)
    else if st.depth == 0 then Cursor(i + 1, st.(sb := st.sb + [c]))
    else Cursor(i + 1, st)
  }

  /** The scan from index i to the end of the name. */
  function ScanFrom(name: string, i: nat, st: Scan): Scan
    requires Ready(name, i, st)
    decreases |name| - i
  {
    if i == |name| then st
    else
      var n := Step(name, i, st);
      ScanFrom(name, n.i, n.st)
  }

  /** The three results of the genericiser: the generic name, the dictionary
      of anonymised names and the segments. */
  datatype Genericized = Genericized(name: string, names: Dict, segments: seq<string>)

  function Genericize(name: string): Genericized {
    var st := ScanFrom(name, 0, InitialScan);
    var segments := st.segments + [st.sb];
    Genericized(Rejoin(segments), st.names, segments)
  }

  // ------------------------------------------------------------------
  // The structural reading of a balanced name
  // ------------------------------------------------------------------

  function Delta(c: char): int {
    if c == '<' then 1 else if c == '>' then -1 else 0
  }

  /** The template depth before character k: '<' minus '>' in name[..k]. */
  function DepthAt(name: string, k: nat): int
    requires k <= |name|
    decreases k
  {
    if k == 0 then 0 else DepthAt(name, k - 1) + Delta(name[k - 1])
  }

  /** No prefix closes more lists than it opens, and all lists are closed. */
  ghost predicate Balanced(name: string) {
    (forall k :: 0 <= k <= |name| ==> DepthAt(name, k) >= 0) && DepthAt(name, |name|) == 0
  }

  /** The '>' that closes the list opened at o (searched from k on). */
  function FindClose(name: string, o: nat, k: nat): (j: nat)
    requires Balanced(name) && o < k <= |name|
    requires forall m :: o < m <= k ==> DepthAt(name, m) >= 1
    ensures k <= j < |name| && name[j] == '>' && DepthAt(name, j) == 1 && DepthAt(name, j + 1) == 0
    ensures forall m :: o < m <= j ==> DepthAt(name, m) >= 1
    decreases |name| - k
  {
    assert DepthAt(name, k) >= 1;
    if DepthAt(name, k + 1) == 0 then k
    else
      assert DepthAt(name, k + 1) >= 0;
      FindClose(name, o, k + 1)
  }

  /** The top-level parameters between positions segStart and j: split at
      the commas where the depth is 1, each one trimmed. */
  function SplitFrom(name: string, segStart: nat, k: nat, j: nat): seq<string>
    requires segStart <= k <= j <= |name|
    decreases j - k
  {
    if k == j then [Trim(name[segStart..j])]
    else if name[k] == ',' && DepthAt(name, k) == 1 then [Trim(name[segStart..k])] + SplitFrom(name, k + 1, k + 1, j)
    else SplitFrom(name, segStart, k + 1, j)
  }

  /** The parameters of the list that opens at o and closes at j. */
  function ParamsBetween(name: string, o: nat, j: nat): seq<string>
    requires o < j <= |name|
  {
    SplitFrom(name, o + 1, o + 1, j)
  }

  datatype Piece = Text(c: char) | Separator | Template(params: seq<string>)

  /** The depth-0 pieces of name[i..]: a copied character, a "::" separator,
      or a whole template list given by its parameters; a depth-0 ',' is no
      piece at all. */
  function Pieces(name: string, i: nat): seq<Piece>
    requires Balanced(name) && i <= |name| && DepthAt(name, i) == 0
    decreases |name| - i
  {
    if i == |name| then []
    else
    assert DepthAt(name, i + 1) == DepthAt(name, i) + Delta(name[i]);
    if name[i] == '<' then
      var j := FindClose(name, i, i + 1);
      [Template(ParamsBetween(name, i, j))] + Pieces(name, j + 1)
    else if name[i] == '>' then
      assert false;
      []
    else if name[i] == ',' then Pieces(name, i + 1)
    else if name[i] == ':' && i + 1 < |name| && name[i + 1] == ':' then [Separator] + Pieces(name, i + 2)
    else [Text(name[i])] + Pieces(name, i + 1)
  }

  datatype Out = Out(sb: string, segments: seq<string>, total: nat, names: Dict)

  function RenderPiece(p: Piece, o: Out): Out {
    match p
    case Text(c) => o.(sb := o.sb + [c])
    case Separator => o.(segments := o.segments + [o.sb], sb := "")
    case Template(ps) =>
      var a := Placeholders(ps, o.names, o.total);
      o.(sb := o.sb + "<" + JoinWith(a.texts, ",") + ">", total := a.total, names := a.names)
  }

  function Render(pieces: seq<Piece>, o: Out): Out
    decreases |pieces|
  {
    if pieces == [] then o else Render(pieces[1..], RenderPiece(pieces[0], o))
  }

  const EmptyOut := Out("", [], 0, [])

  /** The generic name, dictionary and segments read off the pieces. */
  function Reference(name: string): Genericized
    requires Balanced(name)
  {
    var o := Render(Pieces(name, 0), EmptyOut);
    Genericized(Rejoin(o.segments + [o.sb]), o.names, o.segments + [o.sb])
  }

  // ------------------------------------------------------------------
  // The scanner computes the structural reading
  // ------------------------------------------------------------------

  /** Where the last parameter of the list closing at j starts. */
  function LastStart(name: string, s: nat, k: nat, j: nat): nat
    requires s <= k <= j <= |name|
    decreases j - k
  {
    if k == j then s
    else if name[k] == ',' && DepthAt(name, k) == 1 then LastStart(name, k + 1, k + 1, j)
    else LastStart(name, s, k + 1, j)
  }

  /** One step inside an open list keeps the collected parameters in step
      with the split of the whole list and touches nothing outside it. */
  lemma InnerStep(name: string, o: nat, j: nat, k: nat, st: Scan)
    requires o < k < j < |name| && name[j] == '>'
    requires forall m :: o < m <= j ==> DepthAt(name, m) >= 1
    requires st.depth == DepthAt(name, k) && o < st.start <= k
    requires st.params + SplitFrom(name, st.start, k, j) == ParamsBetween(name, o, j)
    ensures var n := Step(name, k, st);
      n.i <= j && n.st.depth == DepthAt(name, n.i) && o < n.st.start <= n.i
      && n.st.params + SplitFrom(name, n.st.start, n.i, j) == ParamsBetween(name, o, j)
      && LastStart(name, n.st.start, n.i, j) == LastStart(name, st.start, k, j)
      && n.st.sb == st.sb && n.st.segments == st.segments && n.st.names == st.names && n.st.total == st.total
  {
    var c := name[k];
    assert DepthAt(name, k + 1) == DepthAt(name, k) + Delta(c);
    if c == '>' {
      assert DepthAt(name, k + 1) >= 1;
    } else if c == ',' && st.depth == 1 {
      var x := st.(params := st.params + [Trim(name[st.start..k])], start := k + 1);
      assert x.params + SplitFrom(name, k + 1, k + 1, j) == st.params + SplitFrom(name, st.start, k, j);
    } else if c == ':' && k < |name| - 1 && name[k + 1] == ':' {
      assert k + 1 < j;
      assert DepthAt(name, k + 2) == DepthAt(name, k + 1) + Delta(name[k + 1]);
      assert SplitFrom(name, st.start, k, j) == SplitFrom(name, st.start, k + 2, j);
      assert LastStart(name, st.start, k, j) == LastStart(name, st.start, k + 2, j);
    }
  }

  /** Inside a list (from k up to its closing '>' at j) the scanner copies
      nothing and only collects the parameters. */
  lemma {:induction false} InnerScan(name: string, o: nat, j: nat, k: nat, st: Scan)
    requires o < k <= j < |name|
    requires name[j] == '>' && DepthAt(name, j) == 1
    requires forall m :: o < m <= j ==> DepthAt(name, m) >= 1
    requires st.depth == DepthAt(name, k) && o < st.start <= k
    requires st.params + SplitFrom(name, st.start, k, j) == ParamsBetween(name, o, j)
    ensures ScanFrom(name, k, st)
         == ScanFrom(name, j + 1, CloseList(st, ParamsBetween(name, o, j)).(start := LastStart(name, st.start, k, j)))
    decreases j - k
  {
    var n := Step(name, k, st);
    assert ScanFrom(name, k, st) == ScanFrom(name, n.i, n.st);
    var goal := CloseList(st, ParamsBetween(name, o, j)).(start := LastStart(name, st.start, k, j));
    if k == j {
      assert SplitFrom(name, st.start, k, j) == [Trim(name[st.start..j])];
      assert n == Cursor(j + 1, goal);
      assert ScanFrom(name, n.i, n.st) == ScanFrom(name, j + 1, goal);
    } else {
      InnerStep(name, o, j, k, st);
      InnerScan(name, o, j, n.i, n.st);
      assert goal == CloseList(n.st, ParamsBetween(name, o, j)).(start := LastStart(name, n.st.start, n.i, j));
    }
  }

  function OutOf(st: Scan): Out {
    Out(st.sb, st.segments, st.total, st.names)
  }

  lemma RenderCons(p: Piece, rest: seq<Piece>, o: Out)
    ensures Render([p] + rest, o) == Render(rest, RenderPiece(p, o))
  {
    assert ([p] + rest)[1..] == rest;
  }

  lemma PiecesAtTemplate(name: string, i: nat)
    requires Balanced(name) && i < |name| && DepthAt(name, i) == 0 && name[i] == '<'
    ensures DepthAt(name, i + 1) == 1
    ensures var j := FindClose(name, i, i + 1);
            Pieces(name, i) == [Template(ParamsBetween(name, i, j))] + Pieces(name, j + 1)
  {
    assert DepthAt(name, i + 1) == DepthAt(name, i) + Delta(name[i]);
  }

  /** The scanner state after the '>' that closes the top-level list
      opened at i: the list rendered, the parameters cleared. */
  function ListClosed(name: string, i: nat, j: nat, st: Scan): Scan
    requires i < j <= |name|
  {
    CloseList(st.(start := i + 1, params := [], depth := 1), ParamsBetween(name, i, j))
      .(start := LastStart(name, i + 1, i + 1, j))
  }

  /** The scanner runs through a top-level list from its '<' at i to its
      '>' at j in one go. */
  lemma ScanThroughList(name: string, i: nat, j: nat, st: Scan)
    requires i < j < |name| && name[i] == '<' && name[j] == '>' && st.depth == 0
    requires DepthAt(name, j) == 1 && DepthAt(name, i + 1) == 1
    requires forall m :: i < m <= j ==> DepthAt(name, m) >= 1
    ensures ScanFrom(name, i, st) == ScanFrom(name, j + 1, ListClosed(name, i, j, st))
  {
    var n := Step(name, i, st);
    assert ScanFrom(name, i, st) == ScanFrom(name, n.i, n.st);
    assert n == Cursor(i + 1, st.(start := i + 1, params := [], depth := 1));
    assert n.st.params + SplitFrom(name, i + 1, i + 1, j) == ParamsBetween(name, i, j);
    InnerScan(name, i, j, i + 1, n.st);
  }

  /** A top-level list is scanned in one go: the scanner resumes after its
      closing '>' having rendered the list as one Template piece. */
  lemma ScanTemplate(name: string, i: nat, st: Scan) returns (k: nat, x: Scan)
    requires Balanced(name) && i < |name| && DepthAt(name, i) == 0 && st.depth == 0 && name[i] == '<'
    ensures i < k <= |name| && DepthAt(name, k) == 0 && x.depth == 0
    ensures ScanFrom(name, i, st) == ScanFrom(name, k, x)
    ensures Render(Pieces(name, i), OutOf(st)) == Render(Pieces(name, k), OutOf(x))
  {
    PiecesAtTemplate(name, i);
    var j := FindClose(name, i, i + 1);
    ScanThroughList(name, i, j, st);
    k, x := j + 1, ListClosed(name, i, j, st);
    var p := Template(ParamsBetween(name, i, j));
    assert OutOf(x) == RenderPiece(p, OutOf(st));
    RenderCons(p, Pieces(name, k), OutOf(st));
  }

  /** Any other character at depth 0 is one turn of the loop: a ',' is
      skipped, "::" closes a segment and anything else is copied. */
  lemma ScanPlainStep(name: string, i: nat, st: Scan) returns (k: nat, x: Scan)
    requires Balanced(name) && i < |name| && DepthAt(name, i) == 0 && st.depth == 0 && name[i] != '<'
    ensures i < k <= |name| && DepthAt(name, k) == 0 && x.depth == 0
    ensures ScanFrom(name, i, st) == ScanFrom(name, k, x)
    ensures Render(Pieces(name, i), OutOf(st)) == Render(Pieces(name, k), OutOf(x))
  {
    var c := name[i];
    var n := Step(name, i, st);
    assert ScanFrom(name, i, st) == ScanFrom(name, n.i, n.st);
    assert DepthAt(name, i + 1) == DepthAt(name, i) + Delta(c);
    k, x := n.i, n.st;
    if c == '>' {
      assert false;
    } else if c == ',' {
      assert n == Cursor(i + 1, st);
      assert Pieces(name, i) == Pieces(name, i + 1);
    } else if c == ':' && i + 1 < |name| && name[i + 1] == ':' {
      assert DepthAt(name, i + 2) == DepthAt(name, i + 1) + Delta(name[i + 1]);
      assert n == Cursor(i + 2, st.(segments := st.segments + [st.sb], sb := ""));
      assert Pieces(name, i) == [Separator] + Pieces(name, i + 2);
      RenderCons(Separator, Pieces(name, i + 2), OutOf(st));
    } else {
      assert n == Cursor(i + 1, st.(sb := st.sb + [c]));
      assert Pieces(name, i) == [Text(c)] + Pieces(name, i + 1);
      RenderCons(Text(c), Pieces(name, i + 1), OutOf(st));
    }
  }

  lemma {:induction false} ScanMatchesPieces(name: string, i: nat, st: Scan)
    requires Balanced(name) && i <= |name| && DepthAt(name, i) == 0 && st.depth == 0
    ensures OutOf(ScanFrom(name, i, st)) == Render(Pieces(name, i), OutOf(st))
    decreases |name| - i
  {
    if i < |name| {
      var k, x;
      if name[i] == '<' {
        k, x := ScanTemplate(name, i, st);
      } else {
        k, x := ScanPlainStep(name, i, st);
      }
      ScanMatchesPieces(name, k, x);
    }
  }

  /** For a balanced name the scanner's results are those of the structural
      reading: generic name, anonymised names and segments alike. */
  lemma GenericizeMatchesPieces(name: string)
    requires Balanced(name)
    ensures Genericize(name) == Reference(name)
  {
    ScanMatchesPieces(name, 0, InitialScan);
  }

  // ------------------------------------------------------------------
  // Placeholder numbering
  // ------------------------------------------------------------------

  function CountEmpty(ps: seq<string>): nat
    decreases |ps|
  {
    if ps == [] then 0 else (if ps[0] == "" then 1 else 0) + CountEmpty(ps[1..])
  }

  lemma {:induction false} LookupSome(d: Dict, key: string)
    ensures Lookup(d, key).Some? <==> exists a :: 0 <= a < |d| && d[a].0 == key
    ensures Lookup(d, key).Some? ==> exists a :: 0 <= a < |d| && d[a] == (key, Lookup(d, key).value)
    decreases |d|
  {
    if d != [] && d[0].0 != key {
      LookupSome(d[1..], key);
      if Lookup(d, key).Some? {
        var a :| 0 <= a < |d[1..]| && d[1..][a] == (key, Lookup(d, key).value);
        assert d[a + 1] == (key, Lookup(d, key).value);
      }
      if exists a :: 0 <= a < |d| && d[a].0 == key {
        var a :| 0 <= a < |d| && d[a].0 == key;
        assert d[1..][a - 1].0 == key;
      }
    }
  }

  /** Entries added later never hide an earlier one. */
  lemma {:induction false} LookupExtend(d: Dict, ext: Dict, key: string)
    requires Lookup(d, key).Some?
    ensures Lookup(d + ext, key) == Lookup(d, key)
    decreases |d|
  {
    if d[0].0 != key {
      assert (d + ext)[1..] == d[1..] + ext;
      LookupExtend(d[1..], ext, key);
    }
  }

  lemma {:induction false} LookupAppendNew(d: Dict, key: string, v: string)
    requires Lookup(d, key).None?
    ensures Lookup(d + [(key, v)], key) == Some(v)
    decreases |d|
  {
    if d != [] {
      assert (d + [(key, v)])[1..] == d[1..] + [(key, v)];
      LookupAppendNew(d[1..], key, v);
    }
  }

  /** One parameter: the dictionary grows by at most that parameter, and
      the counter by what it consumes. */
  lemma AssignOneFacts(p: string, names: Dict, total: nat)
    requires WellFormedNames(names)
    ensures var f := AssignOne(p, names, total);
      && WellFormedNames(f.names) && |f.names| >= |names| && f.names[..|names|] == names
      && f.total == total + (|f.names| - |names|) + (if p == "" then 1 else 0)
      && (forall e :: |names| <= e < |f.names| ==> f.names[e].0 == p)
      && (p == "" ==> f.texts == [""])
      && (p != "" ==> Lookup(f.names, p) == Some(f.texts[0]))
  {
    LookupSome(names, p);
    if Lookup(names, p).None? && |p| > 0 {
      LookupAppendNew(names, p, Placeholder(total + 1));
    }
  }

  /** The dictionary after a list: earlier entries stay, new entries come
      from the list, and every empty parameter and every newly recorded one
      consumes a number. */
  lemma {:induction false} PlaceholderNames(ps: seq<string>, names: Dict, total: nat)
    requires WellFormedNames(names)
    ensures var a := Placeholders(ps, names, total);
      && |a.names| >= |names| && a.names[..|names|] == names
      && WellFormedNames(a.names)
      && a.total == total + (|a.names| - |names|) + CountEmpty(ps)
      && (forall e :: |names| <= e < |a.names| ==> a.names[e].0 in ps)
    decreases |ps|
  {
    if ps != [] {
      var p := ps[0];
      var first := AssignOne(p, names, total);
      AssignOneFacts(p, names, total);
      PlaceholderNames(ps[1..], first.names, first.total);
      var rest := Placeholders(ps[1..], first.names, first.total);
      var a := Placeholders(ps, names, total);
      assert a.names == rest.names && a.total == rest.total;
      assert a.names[..|names|] == names by {
        assert rest.names[..|first.names|][..|names|] == names;
      }
      forall e | |names| <= e < |a.names|
        ensures a.names[e].0 in ps
      {
        if e >= |first.names| {
          assert a.names[e].0 in ps[1..];
        } else {
          assert a.names[e] == rest.names[..|first.names|][e] == first.names[e];
        }
      }
    }
  }

  /** The placeholders of a list: every non-empty parameter ends up with its
      dictionary entry, an empty one with the empty placeholder. */
  lemma {:induction false} PlaceholderTexts(ps: seq<string>, names: Dict, total: nat)
    requires WellFormedNames(names)
    ensures var a := Placeholders(ps, names, total);
      && (forall k :: 0 <= k < |ps| && ps[k] == "" ==> a.texts[k] == "")
      && (forall k :: 0 <= k < |ps| && ps[k] != "" ==> Lookup(a.names, ps[k]) == Some(a.texts[k]))
    decreases |ps|
  {
    if ps != [] {
      var p := ps[0];
      var first := AssignOne(p, names, total);
      AssignOneFacts(p, names, total);
      PlaceholderNames(ps[1..], first.names, first.total);
      PlaceholderTexts(ps[1..], first.names, first.total);
      var rest := Placeholders(ps[1..], first.names, first.total);
      var a := Placeholders(ps, names, total);
      assert a == Assigned(first.texts + rest.texts, rest.names, rest.total);
      if p != "" {
        assert rest.names == first.names + rest.names[|first.names|..];
        LookupExtend(first.names, rest.names[|first.names|..], p);
      }
      forall k | 1 <= k < |ps|
        ensures a.texts[k] == rest.texts[k - 1] && ps[k] == ps[1..][k - 1]
      {
      }
    }
  }

  /** The facts the numbering keeps about one list, together. */
  lemma PlaceholdersConsistent(ps: seq<string>, names: Dict, total: nat)
    requires WellFormedNames(names)
    ensures var a := Placeholders(ps, names, total);
      && |a.names| >= |names| && a.names[..|names|] == names
      && WellFormedNames(a.names)
      && (forall k :: 0 <= k < |ps| && ps[k] == "" ==> a.texts[k] == "")
      && (forall k :: 0 <= k < |ps| && ps[k] != "" ==> Lookup(a.names, ps[k]) == Some(a.texts[k]))
      && a.total == total + (|a.names| - |names|) + CountEmpty(ps)
      && (forall e :: |names| <= e < |a.names| ==> a.names[e].0 in ps)
  {
    PlaceholderNames(ps, names, total);
    PlaceholderTexts(ps, names, total);
  }

  /** Placeholders over a list split in two: the second half continues with
      the dictionary and counter the first half left. */
  lemma {:induction false} PlaceholdersAppend(ps: seq<string>, qs: seq<string>, names: Dict, total: nat)
    ensures var a := Placeholders(ps, names, total);
      var b := Placeholders(qs, a.names, a.total);
      Placeholders(ps + qs, names, total) == Assigned(a.texts + b.texts, b.names, b.total)
    decreases |ps|
  {
    if ps == [] {
      assert [] + qs == qs;
    } else {
      var first := AssignOne(ps[0], names, total);
      assert (ps + qs)[1..] == ps[1..] + qs;
      PlaceholdersAppend(ps[1..], qs, first.names, first.total);
    }
  }

  /** A parameter that was recorded before the list, or that occurs twice
      in it, gets the same placeholder every time. */
  lemma PlaceholderReuse(ps: seq<string>, names: Dict, total: nat)
    requires WellFormedNames(names)
    ensures var a := Placeholders(ps, names, total);
      && (forall k :: 0 <= k < |ps| && Lookup(names, ps[k]).Some? ==> a.texts[k] == Lookup(names, ps[k]).value)
      && (forall k1, k2 :: 0 <= k1 < |ps| && 0 <= k2 < |ps| && ps[k1] == ps[k2] ==> a.texts[k1] == a.texts[k2])
  {
    PlaceholdersConsistent(ps, names, total);
    var a := Placeholders(ps, names, total);
    forall k | 0 <= k < |ps| && Lookup(names, ps[k]).Some?
      ensures a.texts[k] == Lookup(names, ps[k]).value
    {
      LookupSome(names, ps[k]);
      assert a.names == names + a.names[|names|..];
      LookupExtend(names, a.names[|names|..], ps[k]);
    }
  }

  /** The first occurrence of a parameter nobody recorded before gets the
      next number after everything the parameters before it consumed. */
  lemma FirstOccurrenceNumber(ps: seq<string>, names: Dict, total: nat, k: nat)
    requires WellFormedNames(names)
    requires k < |ps| && ps[k] != "" && Lookup(names, ps[k]).None? && ps[k] !in ps[..k]
    ensures Placeholders(ps, names, total).texts[k] == Placeholder(Placeholders(ps[..k], names, total).total + 1)
  {
    var pre := Placeholders(ps[..k], names, total);
    PlaceholdersAppend(ps[..k], ps[k..], names, total);
    assert ps[..k] + ps[k..] == ps;
    PlaceholdersConsistent(ps[..k], names, total);
    LookupSome(names, ps[k]);
    LookupSome(pre.names, ps[k]);
    forall e | 0 <= e < |pre.names|
      ensures pre.names[e].0 != ps[k]
    {
      if e < |names| {
        assert pre.names[e] == pre.names[..|names|][e] == names[e];
      }
    }
    assert Lookup(pre.names, ps[k]).None?;
    assert ps[k..][0] == ps[k];
  }

  // ------------------------------------------------------------------
  // Numbering across a whole name
  // ------------------------------------------------------------------

  /** The parameters of all template lists, in order. */
  function TemplateParams(pieces: seq<Piece>): seq<string>
    decreases |pieces|
  {
    if pieces == [] then []
    else (if pieces[0].Template? then pieces[0].params else []) + TemplateParams(pieces[1..])
  }

  function CountSeparators(pieces: seq<Piece>): nat
    decreases |pieces|
  {
    if pieces == [] then 0 else (if pieces[0].Separator? then 1 else 0) + CountSeparators(pieces[1..])
  }

  /** Rendering threads one dictionary and one counter through all lists,
      as if their parameters formed one list; each separator closes one
      segment. */
  lemma {:induction false} RenderThreadsNumbering(pieces: seq<Piece>, o: Out)
    ensures var r := Render(pieces, o);
      var a := Placeholders(TemplateParams(pieces), o.names, o.total);
      r.names == a.names && r.total == a.total
      && |r.segments| == |o.segments| + CountSeparators(pieces)
    decreases |pieces|
  {
    if pieces != [] {
      var o1 := RenderPiece(pieces[0], o);
      RenderThreadsNumbering(pieces[1..], o1);
      var head := if pieces[0].Template? then pieces[0].params else [];
      PlaceholdersAppend(head, TemplateParams(pieces[1..]), o.names, o.total);
    }
  }

  /** For a balanced name the dictionary is the numbering of all top-level
      parameters of all depth-0 lists taken as one list, and there is one
      segment more than there are depth-0 separators. */
  lemma GenericNumbering(name: string)
    requires Balanced(name)
    ensures var g := Genericize(name);
      var ps := TemplateParams(Pieces(name, 0));
      var a := Placeholders(ps, [], 0);
      g.names == a.names && WellFormedNames(g.names)
      && (forall k :: 0 <= k < |ps| && ps[k] != "" ==> Lookup(g.names, ps[k]).Some?)
      && |g.segments| == 1 + CountSeparators(Pieces(name, 0))
  {
    GenericizeMatchesPieces(name);
    RenderThreadsNumbering(Pieces(name, 0), EmptyOut);
    PlaceholdersConsistent(TemplateParams(Pieces(name, 0)), [], 0);
  }

  // ------------------------------------------------------------------
  // Names without templates
  // ------------------------------------------------------------------

  lemma JoinWithExtendLast(segs: seq<string>, x: string, y: string, sep: string)
    ensures JoinWith(segs + [x + y], sep) == JoinWith(segs + [x], sep) + y
  {
    if segs != [] {
      assert (segs + [x + y])[..|segs|] == segs;
      assert (segs + [x])[..|segs|] == segs;
    }
  }

  lemma JoinWithAppend(segs: seq<string>, x: string, sep: string)
    requires segs != []
    ensures JoinWith(segs + [x], sep) == JoinWith(segs, sep) + sep + x
  {
    assert (segs + [x])[..|segs|] == segs;
  }

  /** The final join leaves out only an empty first of two segments. */
  lemma RejoinJoins(segs: seq<string>)
    requires |segs| >= 1
    ensures Rejoin(segs) == if |segs| == 2 && segs[0] == "" then segs[1] else JoinWith(segs, "::")
  {
    var n := |segs|;
    if n >= 3 {
      assert |JoinWith(segs[..n - 1], "::")| >= 2 by {
        assert segs[..n - 1][..n - 2] == segs[..n - 2];
      }
    } else if n == 2 {
      assert segs[..1] == [segs[0]];
    }
  }

  predicate NoTemplateSyntax(name: string) {
    forall k :: 0 <= k < |name| ==> name[k] != '<' && name[k] != '>' && name[k] != ','
  }

  /** One turn of the loop over a name without template syntax. */
  lemma PlainStep(name: string, i: nat, st: Scan) returns (k: nat, x: Scan)
    requires NoTemplateSyntax(name) && i < |name| && st.depth == 0
    ensures i < k <= |name| && x.depth == 0 && x.names == st.names && x.total == st.total
    ensures ScanFrom(name, i, st) == ScanFrom(name, k, x)
    ensures JoinWith(x.segments + [x.sb], "::") == JoinWith(st.segments + [st.sb], "::") + name[i..k]
  {
    var n := Step(name, i, st);
    assert ScanFrom(name, i, st) == ScanFrom(name, n.i, n.st);
    k, x := n.i, n.st;
    if name[i] == ':' && i < |name| - 1 && name[i + 1] == ':' {
      JoinWithAppend(st.segments + [st.sb], "", "::");
      assert st.segments + [st.sb] + [""] == x.segments + [x.sb];
      assert name[i..k] == "::";
    } else {
      JoinWithExtendLast(st.segments, st.sb, [name[i]], "::");
      assert name[i..k] == [name[i]];
    }
  }

  lemma {:induction false} PlainScan(name: string, i: nat, st: Scan)
    requires NoTemplateSyntax(name) && i <= |name| && st.depth == 0
    ensures var r := ScanFrom(name, i, st);
      r.depth == 0 && r.names == st.names && r.total == st.total
      && JoinWith(r.segments + [r.sb], "::") == JoinWith(st.segments + [st.sb], "::") + name[i..]
    decreases |name| - i
  {
    if i < |name| {
      var k, x := PlainStep(name, i, st);
      PlainScan(name, k, x);
      assert name[i..] == name[i..k] + name[k..];
    }
  }

  /** Without template syntax the segments, joined again with "::", give the
      name back, no parameter is recorded, and the generic name is the name
      itself unless it is "::" followed by a name free of "::". */
  lemma PlainNameRoundTrip(name: string)
    requires NoTemplateSyntax(name)
    ensures var g := Genericize(name);
      JoinWith(g.segments, "::") == name && g.names == []
      && g.name == (if |g.segments| == 2 && g.segments[0] == "" then g.segments[1] else name)
  {
    PlainScan(name, 0, InitialScan);
    RejoinJoins(Genericize(name).segments);
  }

  predicate NoSeparator(name: string) {
    forall k :: 0 <= k < |name| - 1 ==> !(name[k] == ':' && name[k + 1] == ':')
  }

  lemma {:induction false} PlainNoSeparatorScan(name: string, i: nat, st: Scan)
    requires NoTemplateSyntax(name) && NoSeparator(name) && i <= |name| && st.depth == 0
    ensures var r := ScanFrom(name, i, st);
      r.segments == st.segments && r.sb == st.sb + name[i..] && r.names == st.names
    decreases |name| - i
  {
    if i < |name| {
      var n := Step(name, i, st);
      assert ScanFrom(name, i, st) == ScanFrom(name, n.i, n.st);
      PlainNoSeparatorScan(name, n.i, n.st);
      assert name[i..] == [name[i]] + name[i + 1..];
    }
  }

  /** A name without template syntax and without "::" is its own generic
      name and forms a single segment. */
  lemma PlainNameUnchanged(name: string)
    requires NoTemplateSyntax(name) && NoSeparator(name)
    ensures Genericize(name) == Genericized(name, [], [name])
  {
    PlainNoSeparatorScan(name, 0, InitialScan);
    assert name[0..] == name;
  }

  // ------------------------------------------------------------------
  // The dictionary keys are never empty, for every name
  // ------------------------------------------------------------------

  lemma {:induction false} ScanKeepsNamesWellFormed(name: string, i: nat, st: Scan)
    requires Ready(name, i, st) && WellFormedNames(st.names)
    ensures WellFormedNames(ScanFrom(name, i, st).names)
    decreases |name| - i
  {
    if i < |name| {
      var n := Step(name, i, st);
      assert ScanFrom(name, i, st) == ScanFrom(name, n.i, n.st);
      if name[i] == '>' && st.depth - 1 == 0 {
        PlaceholdersConsistent(st.params + [Trim(name[st.start..i])], st.names, st.total);
      }
      assert WellFormedNames(n.st.names);
      ScanKeepsNamesWellFormed(name, n.i, n.st);
    }
  }

  /** Whatever the name, balanced or not, no anonymised name is recorded for
      the empty string and none twice. */
  lemma GenericNamesWellFormed(name: string)
    ensures WellFormedNames(Genericize(name).names)
  {
    ScanKeepsNamesWellFormed(name, 0, InitialScan);
  }

  // ------------------------------------------------------------------
  // The genericiser as the source's loop
  // ------------------------------------------------------------------

  /** What is left of the numbering of `ps` from parameter `k` (counting
      from 1) on, given the placeholders `texts` already produced. */
  ghost predicate NumberedUpTo(ps: seq<string>, k: nat, names: Dict, total: nat, texts: seq<string>, full: Assigned)
    requires 1 <= k <= |ps| + 1
  {
    var rest := Placeholders(ps[k - 1..], names, total);
    texts + rest.texts == full.texts && rest.names == full.names && rest.total == full.total
  }

  lemma NumberingStep(ps: seq<string>, k: nat, names: Dict, total: nat, texts: seq<string>, full: Assigned,
                      x: string, names': Dict, total': nat)
    requires 1 <= k <= |ps| && NumberedUpTo(ps, k, names, total, texts, full)
    requires AssignOne(ps[k - 1], names, total) == Assigned([x], names', total')
    ensures NumberedUpTo(ps, k + 1, names', total', texts + [x], full)
  {
    var tail := Placeholders(ps[k..], names', total');
    assert ps[k - 1..][1..] == ps[k..];
    assert Placeholders(ps[k - 1..], names, total) == Assigned([x] + tail.texts, tail.names, tail.total);
    assert (texts + [x]) + tail.texts == texts + ([x] + tail.texts);
  }

  lemma JoinStep(sb0: string, sb: string, texts: seq<string>, x: string)
    requires sb == sb0 + JoinWith(texts, ",")
    ensures (if |texts| > 0 then sb + "," else sb) + x == sb0 + JoinWith(texts + [x], ",")
  {
    if |texts| > 0 {
      JoinWithAppend(texts, x, ",");
      var j := JoinWith(texts, ",");
      assert sb + "," + x == sb0 + (j + "," + x);
    } else {
      assert texts + [x] == [x];
      assert JoinWith([x], ",") == x;
      assert sb == sb0;
    }
  }

  /** The placeholder of one concrete name: a recorded name's, or the next
      number, recorded unless the name is empty. */
  method AnonymizeOne(concrete: string, names: Dict, total: nat) returns (anonymizedName: string, names': Dict, total': nat)
    ensures AssignOne(concrete, names, total) == Assigned([anonymizedName], names', total')
  {
    anonymizedName, names', total' := "", names, total;
    var known := Lookup(names, concrete);
    if known.Some? {
      anonymizedName := known.value;
    } else {
      total' := total + 1;
      if |concrete| > 0 {
        anonymizedName := Placeholder(total');
        names' := names + [(concrete, anonymizedName)];
      }
    }
  }

  /** The inner loop of a closing '>': append the placeholders of
      concreteNames[1..count] separated by ',' while threading the
      dictionary and the counter. */
  method AppendAnonymizedNames(sb0: string, concreteNames: map<int, string>, count: int,
                               names0: Dict, total0: nat, ghost ps: seq<string>)
    returns (sb: string, names: Dict, total: nat)
    requires count == |ps| && forall key :: 1 <= key <= count ==> key in concreteNames && concreteNames[key] == ps[key - 1]
    ensures var a := Placeholders(ps, names0, total0);
      sb == sb0 + JoinWith(a.texts, ",") && names == a.names && total == a.total
  {
    sb, names, total := sb0, names0, total0;
    ghost var full := Placeholders(ps, names0, total0);
    ghost var texts: seq<string> := [];
    var paramCount := 1;
    assert ps[paramCount - 1..] == ps;
    while paramCount <= count
      invariant 1 <= paramCount <= count + 1 && |texts| == paramCount - 1
      invariant NumberedUpTo(ps, paramCount, names, total, texts, full)
      invariant sb == sb0 + JoinWith(texts, ",")
      decreases count - paramCount
    {
      ghost var before := sb;
      if paramCount > 1 {
        sb := sb + ",";
      }
      var anonymizedName, names', total' := AnonymizeOne(concreteNames[paramCount], names, total);
      sb := sb + anonymizedName;
      JoinStep(sb0, before, texts, anonymizedName);
      NumberingStep(ps, paramCount, names, total, texts, full, anonymizedName, names', total');
      names, total := names', total';
      texts := texts + [anonymizedName];
      paramCount := paramCount + 1;
    }
    assert ps[paramCount - 1..] == [];
    assert texts + [] == texts;
  }

  /** The loop state for the specification: the dictionary of concrete
      names (keys 1..count-1 while a list is open) is the ghost list ps. */
  ghost predicate ConcreteNamesMatch(depth: int, concreteNames: map<int, string>, count: int, ps: seq<string>) {
    (depth >= 1 ==> count == |ps| + 1
                    && (forall key :: key in concreteNames <==> 1 <= key < count)
                    && (forall key :: 1 <= key < count ==> concreteNames[key] == ps[key - 1]))
    && (depth <= 0 ==> concreteNames == map[] && ps == [])
  }

  /** GenericizeNamespaceAndTypeName: the generic name, the dictionary of
      anonymised names and the segments; concreteNames.Add never meets a key
      that is already there and every lookup finds its key. */
  method GenericizeNamespaceAndTypeName(name: string)
    returns (generic: string, anonymizedNames: Dict, segments: seq<string>)
    ensures Genericize(name) == Genericized(generic, anonymizedNames, segments)
  {
    segments := [];
    var sb: string := "";
    var templateDepth := 0;
    var templateParameterCount := 0;
    var totalCount: nat := 0;
    var templateParamStartIndex := -1;
    var concreteNames: map<int, string> := map[];
    anonymizedNames := [];
    ghost var ps: seq<string> := [];
    var i: nat := 0;
    while i < |name|
      invariant Ready(name, i, Scan(sb, segments, templateDepth, templateParamStartIndex, ps, totalCount, anonymizedNames))
      invariant ScanFrom(name, i, Scan(sb, segments, templateDepth, templateParamStartIndex, ps, totalCount, anonymizedNames))
             == ScanFrom(name, 0, InitialScan)
      invariant ConcreteNamesMatch(templateDepth, concreteNames, templateParameterCount, ps)
      decreases |name| - i
    {
      ghost var cur := Scan(sb, segments, templateDepth, templateParamStartIndex, ps, totalCount, anonymizedNames);
      ghost var n := Step(name, i, cur);
      assert ScanFrom(name, i, cur) == ScanFrom(name, n.i, n.st);
      var c := name[i];
      if c == '<' {
        if templateDepth == 0 {
          templateParamStartIndex := i + 1;
          templateParameterCount := 1;
          ps := [];
        }
        templateDepth := templateDepth + 1;
      } else if c == '>' {
        templateDepth := templateDepth - 1;
        if templateDepth == 0 {
          var concrete := Trim(name[templateParamStartIndex..i]);
          assert templateParameterCount !in concreteNames;
          concreteNames := concreteNames[templateParameterCount := concrete];
          ps := ps + [concrete];
          sb, anonymizedNames, totalCount :=
            AppendAnonymizedNames(sb + "<", concreteNames, templateParameterCount, anonymizedNames, totalCount, ps);
          sb := sb + ">";
          templateParameterCount := 1;
          concreteNames := map[];
          ps := [];
        }
      } else if c == ',' {
        if templateDepth == 1 {
          var concrete := Trim(name[templateParamStartIndex..i]);
          assert templateParameterCount !in concreteNames;
          concreteNames := concreteNames[templateParameterCount := concrete];
          ps := ps + [concrete];
          templateParamStartIndex := i + 1;
          templateParameterCount := templateParameterCount + 1;
        }
      } else if c == ':' && i < |name| - 1 && name[i + 1] == ':' {
        i := i + 1;
        if templateDepth == 0 {
          segments := segments + [sb];
          sb := "";
        }
      } else if templateDepth == 0 {
        sb := sb + [c];
      }
      i := i + 1;
      assert n == Cursor(i, Scan(sb, segments, templateDepth, templateParamStartIndex, ps, totalCount, anonymizedNames));
    }
    segments := segments + [sb];
    var typeOrNamespace := JoinSegmentsBeforeLast(segments);
    var last := segments[|segments| - 1];
    generic := typeOrNamespace + (if typeOrNamespace == "" then "" else "::") + last;
  }

  /** The loop that joins all segments but the last with "::". */
  method JoinSegmentsBeforeLast(segments: seq<string>) returns (typeOrNamespace: string)
    requires |segments| >= 1
    ensures typeOrNamespace == JoinWith(segments[..|segments| - 1], "::")
  {
    typeOrNamespace := "";
    var segmentIndex := 0;
    while segmentIndex < |segments| - 1
      invariant 0 <= segmentIndex <= |segments| - 1
      invariant typeOrNamespace == if segmentIndex == 0 then ""
                                   else JoinWith(segments[..segmentIndex], "::")
                                        + (if segmentIndex < |segments| - 1 then "::" else "")
      decreases |segments| - segmentIndex
    {
      if segmentIndex > 0 {
        JoinWithAppend(segments[..segmentIndex], segments[segmentIndex], "::");
        assert segments[..segmentIndex + 1] == segments[..segmentIndex] + [segments[segmentIndex]];
      }
      typeOrNamespace := typeOrNamespace + segments[segmentIndex];
      if segmentIndex < |segments| - 2 {
        typeOrNamespace := typeOrNamespace + "::";
      }
      segmentIndex := segmentIndex + 1;
    }
  }

  /** UserDefinedTypeToGenericTemplatedName: the generic name of a type. */
  method UserDefinedTypeToGenericTemplatedName(udtName: string) returns (r: string)
    ensures r == Genericize(udtName).name
  {
    var names, segments;
    r, names, segments := GenericizeNamespaceAndTypeName(udtName);
  }

  // ------------------------------------------------------------------
  // Function names: the generic qualified name and the argument list
  // ------------------------------------------------------------------

  predicate OccursAt(s: string, pat: string, k: int) {
    0 <= k && k + |pat| <= |s| && s[k..k + |pat|] == pat
  }

  /** String.Replace with ordinal comparison: the occurrences of pat,
      found left to right without overlap, each become rep. */
  function Replace(s: string, pat: string, rep: string): string
    requires |pat| > 0
    decreases |s|
  {
    if |s| < |pat| then s
    else if s[..|pat|] == pat then rep + Replace(s[|pat|..], pat, rep)
    else [s[0]] + Replace(s[1..], pat, rep)
  }

  lemma {:induction false} ReplaceWithoutOccurrence(s: string, pat: string, rep: string)
    requires |pat| > 0 && forall k :: !OccursAt(s, pat, k)
    ensures Replace(s, pat, rep) == s
    decreases |s|
  {
    if |s| >= |pat| {
      assert !OccursAt(s, pat, 0);
      forall k ensures !OccursAt(s[1..], pat, k) {
        if OccursAt(s[1..], pat, k) {
          assert s[1..][k..k + |pat|] == s[k + 1..k + 1 + |pat|];
          assert OccursAt(s, pat, k + 1);
        }
      }
      ReplaceWithoutOccurrence(s[1..], pat, rep);
      assert s == [s[0]] + s[1..];
    }
  }

  /** Keys of the dictionary are non-empty, as String.Replace demands. */
  predicate NonEmptyKeys(names: Dict) {
    forall a :: 0 <= a < |names| ==> names[a].0 != ""
  }

  /** Each recorded concrete name in turn, in insertion order, replaced by
      its placeholder. */
  function ReplaceRecorded(s: string, names: Dict): string
    requires NonEmptyKeys(names)
    decreases |names|
  {
    if names == [] then s else ReplaceRecorded(Replace(s, names[0].0, names[0].1), names[1..])
  }

  /** An argument type that is itself a recorded name becomes its
      placeholder; any other has the recorded names replaced inside it. */
  function GenericArgumentName(argType: string, names: Dict): string
    requires NonEmptyKeys(names)
  {
    match Lookup(names, argType)
    case Some(v) => v
    case None => ReplaceRecorded(argType, names)
  }

  function GenericArgumentNames(argTypes: seq<string>, names: Dict): (r: seq<string>)
    requires NonEmptyKeys(names)
    ensures |r| == |argTypes| && forall k :: 0 <= k < |argTypes| ==> r[k] == GenericArgumentName(argTypes[k], names)
    decreases |argTypes|
  {
    if argTypes == [] then [] else [GenericArgumentName(argTypes[0], names)] + GenericArgumentNames(argTypes[1..], names)
  }

  /** The function's type as far as the name needs it: the argument type
      names (absent when unknown), and whether it is const or volatile. */
  datatype FunctionType = FunctionType(argumentTypes: Option<seq<string>>, isConst: bool, isVolatile: bool)

  /** "(" arguments separated by ", " ")" then " const" and " volatile". */
  function ArgumentList(functionType: Option<FunctionType>, names: Dict): string
    requires NonEmptyKeys(names)
  {
    var args := if functionType.Some? && functionType.value.argumentTypes.Some?
                then JoinWith(GenericArgumentNames(functionType.value.argumentTypes.value, names), ", ")
                else "";
    "(" + args + ")"
    + (if functionType.Some? && functionType.value.isConst then " const" else "")
    + (if functionType.Some? && functionType.value.isVolatile then " volatile" else "")
  }

  /** An argument type in which no recorded name occurs is kept as it is. */
  lemma {:induction false} ArgumentWithoutRecordedNames(argType: string, names: Dict)
    requires NonEmptyKeys(names)
    requires forall a, k :: 0 <= a < |names| ==> !OccursAt(argType, names[a].0, k)
    ensures GenericArgumentName(argType, names) == argType
  {
    LookupSome(names, argType);
    if Lookup(names, argType).Some? {
      var a :| 0 <= a < |names| && names[a].0 == argType;
      assert OccursAt(argType, names[a].0, 0);
    }
    RecordedUntouched(argType, names);
  }

  lemma {:induction false} RecordedUntouched(s: string, names: Dict)
    requires NonEmptyKeys(names)
    requires forall a, k :: 0 <= a < |names| ==> !OccursAt(s, names[a].0, k)
    ensures ReplaceRecorded(s, names) == s
    decreases |names|
  {
    if names != [] {
      ReplaceWithoutOccurrence(s, names[0].0, names[0].1);
      assert forall a, k :: 0 <= a < |names[1..]| ==> !OccursAt(s, names[1..][a].0, k) by {
        forall a, k | 0 <= a < |names[1..]| ensures !OccursAt(s, names[1..][a].0, k) {
          assert names[1..][a] == names[a + 1];
        }
      }
      RecordedUntouched(s, names[1..]);
    }
  }

  /** The loop over the recorded names for one argument type. */
  method ReplaceAllRecorded(argType: string, names: Dict) returns (r: string)
    requires NonEmptyKeys(names)
    ensures r == ReplaceRecorded(argType, names)
  {
    r := argType;
    var e := 0;
    while e < |names|
      invariant 0 <= e <= |names|
      invariant NonEmptyKeys(names[e..]) && ReplaceRecorded(r, names[e..]) == ReplaceRecorded(argType, names)
      decreases |names| - e
    {
      assert names[e..][1..] == names[e + 1..];
      r := Replace(r, names[e].0, names[e].1);
      e := e + 1;
    }
  }

  /** FunctionToGenericTemplatedName: the generic name of the function's
      qualified name, followed by its argument list in which every argument
      type goes through the same dictionary. */
  method FunctionToGenericTemplatedName(nameIncludingParentType: string, functionType: Option<FunctionType>)
    returns (r: string)
    ensures NonEmptyKeys(Genericize(nameIncludingParentType).names)
    ensures r == Genericize(nameIncludingParentType).name
               + ArgumentList(functionType, Genericize(nameIncludingParentType).names)
  {
    var generic, names, segments := GenericizeNamespaceAndTypeName(nameIncludingParentType);
    GenericNamesWellFormed(nameIncludingParentType);
    var typeOrNamespace := JoinSegmentsBeforeLast(segments);
    var functionSegment := segments[|segments| - 1];
    var sb := "(";
    if functionType.Some? && functionType.value.argumentTypes.Some? {
      var text := GenericArgumentsText(functionType.value.argumentTypes.value, names);
      sb := sb + text;
    }
    sb := sb + ")";
    if functionType.Some? && functionType.value.isConst {
      sb := sb + " const";
    }
    if functionType.Some? && functionType.value.isVolatile {
      sb := sb + " volatile";
    }
    var qualified := typeOrNamespace + (if typeOrNamespace == "" then "" else "::") + functionSegment;
    assert qualified == generic;
    assert sb == ArgumentList(functionType, names);
    r := qualified + sb;
  }

  lemma {:induction false} GenericArgumentNamesAppend(argTypes: seq<string>, argType: string, names: Dict)
    requires NonEmptyKeys(names)
    ensures GenericArgumentNames(argTypes + [argType], names)
         == GenericArgumentNames(argTypes, names) + [GenericArgumentName(argType, names)]
    decreases |argTypes|
  {
    if argTypes == [] {
      assert [] + [argType] == [argType];
    } else {
      assert (argTypes + [argType])[1..] == argTypes[1..] + [argType];
      GenericArgumentNamesAppend(argTypes[1..], argType, names);
    }
  }

  /** The argument loop: the argument types, each through the dictionary,
      separated by ", ". */
  method GenericArgumentsText(argumentTypes: seq<string>, names: Dict) returns (sb: string)
    requires NonEmptyKeys(names)
    ensures sb == JoinWith(GenericArgumentNames(argumentTypes, names), ", ")
  {
    sb := "";
    ghost var args: seq<string> := [];
    var argumentIndex := 0;
    while argumentIndex < |argumentTypes|
      invariant 0 <= argumentIndex <= |argumentTypes|
      invariant args == GenericArgumentNames(argumentTypes[..argumentIndex], names)
      invariant sb == JoinWith(args, ", ")
      decreases |argumentTypes| - argumentIndex
    {
      if argumentIndex > 0 {
        sb := sb + ", ";
      }
      var argTypeName := argumentTypes[argumentIndex];
      var known := Lookup(names, argTypeName);
      var shown;
      if known.Some? {
        shown := known.value;
      } else {
        shown := ReplaceAllRecorded(argTypeName, names);
      }
      assert shown == GenericArgumentName(argTypeName, names);
      GenericArgumentNamesAppend(argumentTypes[..argumentIndex], argTypeName, names);
      assert argumentTypes[..argumentIndex + 1] == argumentTypes[..argumentIndex] + [argTypeName];
      if argumentIndex > 0 {
        JoinWithAppend(args, shown, ", ");
      } else {
        assert args + [shown] == [shown];
      }
      sb := sb + shown;
      args := args + [shown];
      argumentIndex := argumentIndex + 1;
    }
    assert argumentTypes[..argumentIndex] == argumentTypes;
  }
}
