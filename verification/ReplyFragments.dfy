/** What the email reply parser computes, on values: the fragments of a message and which are hidden. */
module ReplyFragments {
  import opened Options
  import opened Sequences
  import opened Text

  /** How lines are classified. */
  datatype Rules = Rules(
    isQuoteHeader: string -> bool, isQuoted: string -> bool, isOtherHeader: string -> bool,
    isSignature: string -> bool, isSpace: char -> bool)
  {
    predicate IsHeader(line: string) {
      isQuoteHeader(line) || isOtherHeader(line)
    }

    predicate Blank(line: string) {
      AllSpace(isSpace, line)
    }

    /** A blank line over a signature line ends the fragment. */
    predicate Cut(above: string, below: string) {
      Blank(above) && isSignature(Strip(isSpace, below))
    }
  }

  /** A fragment, its lines in the order of the text. */
  datatype Piece = Piece(quoted: bool, headers: bool, signature: bool, hidden: bool, lines: seq<string>)

  predicate Joins(r: Rules, p: Piece, line: string) {
    || (p.headers == r.IsHeader(line) && p.quoted == r.isQuoted(line))
    || (p.quoted && (r.isQuoteHeader(line) || r.Blank(line)))
  }

  /** Neither quoted nor a header nor a signature, and not blank. */
  predicate Plain(r: Rules, p: Piece) {
    !p.quoted && !p.headers && !p.signature && !r.Blank(Join(p.lines))
  }

  /** The scanner on its way up the text: the fragment being read, and those below it. */
  datatype Scan = Scan(open: Option<Piece>, done: seq<Piece>, foundVisible: bool)

  function HideAll(pieces: seq<Piece>): (hidden: seq<Piece>)
    ensures |hidden| == |pieces|
    ensures forall i | 0 <= i < |pieces| :: hidden[i] == pieces[i].(hidden := true)
  {
    seq(|pieces|, i requires 0 <= i < |pieces| => pieces[i].(hidden := true))
  }

  /** `_finish_fragment` */
  function Close(r: Rules, s: Scan): Scan {
    if s.open.None? then s
    else
      var p := s.open.value;
      var found := s.foundVisible && !p.headers;
      var below := if p.headers then HideAll(s.done) else s.done;
      Scan(None, [p.(hidden := !found && !Plain(r, p))] + below, found || Plain(r, p))
  }

  /** The signature test at the top of `_scan_line`. */
  function Sign(r: Rules, s: Scan, line: string): Scan
    requires s.open.Some? ==> s.open.value.lines != []
  {
    if s.open.Some? && r.Cut(line, s.open.value.lines[0]) then
      Close(r, s.(open := Some(s.open.value.(signature := true))))
    else s
  }

  /** The rest of `_scan_line`. */
  function Take(r: Rules, s: Scan, line: string): Scan {
    if s.open.Some? && Joins(r, s.open.value, line) then
      s.(open := Some(s.open.value.(lines := [line] + s.open.value.lines)))
    else
      Close(r, s).(open := Some(Piece(r.isQuoted(line), r.IsHeader(line), false, false, [line])))
  }

  /** The scanner after the lines from the last one up to the first. */
  function Scanned(r: Rules, lines: seq<string>): (s: Scan)
    ensures s.open.Some? ==> s.open.value.lines != []
  {
    if lines == [] then Scan(None, [], false)
    else Take(r, Sign(r, Scanned(r, lines[1..]), lines[0]), lines[0])
  }

  /** The fragments of the lines, in the order of the text. */
  function Fragments(r: Rules, lines: seq<string>): seq<Piece> {
    Close(r, Scanned(r, lines)).done
  }

  // ------------------------------------------------------------------ what is visible

  predicate NoHeader(pieces: seq<Piece>, n: nat)
    requires n < |pieces|
  {
    forall k | 0 <= k <= n :: !pieces[k].headers
  }

  /** The piece is plain and above every header. */
  predicate Anchors(r: Rules, pieces: seq<Piece>, j: nat) {
    j < |pieces| && Plain(r, pieces[j]) && NoHeader(pieces, j)
  }

  /** Some piece at or below i is plain, and no header is above it. */
  predicate Shown(r: Rules, pieces: seq<Piece>, i: nat) {
    exists j | i <= j < |pieces| :: Anchors(r, pieces, j)
  }

  predicate Marked(r: Rules, pieces: seq<Piece>, found: bool) {
    && (forall i | 0 <= i < |pieces| :: !pieces[i].hidden <==> Shown(r, pieces, i))
    && (found <==> Shown(r, pieces, 0))
  }

  /** Hiding says nothing about what anchors. */
  lemma AnchorsAbove(r: Rules, top: Piece, below: seq<Piece>, hidden: seq<Piece>, j: nat)
    requires |hidden| == |below| && forall i | 0 <= i < |below| :: hidden[i].(hidden := false) == below[i].(hidden := false)
    ensures Anchors(r, [top] + hidden, j + 1) <==> !top.headers && Anchors(r, below, j)
  {
    var all := [top] + hidden;
    if !top.headers && Anchors(r, below, j) {
      assert NoHeader(all, j + 1);
    }
    if Anchors(r, all, j + 1) {
      assert !all[0].headers;
      forall k | 0 <= k <= j ensures !below[k].headers { assert all[k + 1] == hidden[k]; }
    }
  }

  lemma ShownBelow(r: Rules, top: Piece, below: seq<Piece>, hidden: seq<Piece>, i: nat)
    requires |hidden| == |below| && forall i | 0 <= i < |below| :: hidden[i].(hidden := false) == below[i].(hidden := false)
    ensures Shown(r, [top] + hidden, i + 1) <==> !top.headers && Shown(r, below, i)
  {
    var all := [top] + hidden;
    if Shown(r, all, i + 1) {
      var j :| i + 1 <= j < |all| && Anchors(r, all, j);
      var k: nat := j - 1;
      AnchorsAbove(r, top, below, hidden, k);
    }
    if !top.headers && Shown(r, below, i) {
      var j :| i <= j < |below| && Anchors(r, below, j);
      AnchorsAbove(r, top, below, hidden, j);
    }
  }

  lemma CloseMarks(r: Rules, s: Scan)
    requires Marked(r, s.done, s.foundVisible)
    ensures var c := Close(r, s); Marked(r, c.done, c.foundVisible)
  {
    if s.open.Some? {
      var c := Close(r, s);
      var top, below := c.done[0], c.done[1..];
      assert c.done == [top] + below;
      ShownBelow(r, top, s.done, below, 0);
      ShownFirst(r, c.done);
      assert Anchors(r, c.done, 0) <==> Plain(r, top);
      forall i | 0 <= i < |c.done| ensures !c.done[i].hidden <==> Shown(r, c.done, i) {
        if i > 0 { ShownBelow(r, top, s.done, below, i - 1); }
      }
    }
  }

  lemma ShownFirst(r: Rules, pieces: seq<Piece>)
    requires pieces != []
    ensures Shown(r, pieces, 0) <==> Anchors(r, pieces, 0) || Shown(r, pieces, 1)
  {
    if Shown(r, pieces, 0) {
      var j :| 0 <= j < |pieces| && Anchors(r, pieces, j);
      assert j == 0 || Shown(r, pieces, 1);
    }
  }

  lemma {:induction false} ScanMarks(r: Rules, lines: seq<string>)
    ensures var s := Scanned(r, lines); Marked(r, s.done, s.foundVisible)
  {
    if lines != [] {
      ScanMarks(r, lines[1..]);
      var s, line := Scanned(r, lines[1..]), lines[0];
      if s.open.Some? { CloseMarks(r, s.(open := Some(s.open.value.(signature := true)))); }
      CloseMarks(r, Sign(r, s, line));
    }
  }

  /** A fragment stays visible exactly when some plain fragment is at or below it, and no header is above
      that one. */
  lemma VisibleIff(r: Rules, lines: seq<string>, i: nat)
    requires i < |Fragments(r, lines)|
    ensures !Fragments(r, lines)[i].hidden <==> Shown(r, Fragments(r, lines), i)
  {
    ScanMarks(r, lines);
    CloseMarks(r, Scanned(r, lines));
  }

  /** How many fragments are above the topmost header. */
  function AboveHeaders(pieces: seq<Piece>): (n: nat)
    ensures n <= |pieces|
  {
    if pieces == [] || pieces[0].headers then 0 else 1 + AboveHeaders(pieces[1..])
  }

  /** How many fragments there are down to the last plain one. */
  function DownToPlain(r: Rules, pieces: seq<Piece>): (n: nat)
    ensures n <= |pieces|
  {
    if pieces == [] || Plain(r, pieces[|pieces| - 1]) then |pieces|
    else DownToPlain(r, pieces[..|pieces| - 1])
  }

  /** The fragments above the topmost header, down to the last plain one among them. */
  function VisibleCount(r: Rules, pieces: seq<Piece>): (n: nat)
    ensures n <= |pieces|
  {
    DownToPlain(r, pieces[..AboveHeaders(pieces)])
  }

  lemma {:induction false} AboveHeadersIff(pieces: seq<Piece>, j: nat)
    requires j < |pieces|
    ensures NoHeader(pieces, j) <==> j < AboveHeaders(pieces)
  {
    if !pieces[0].headers {
      var rest := pieces[1..];
      if j > 0 {
        AboveHeadersIff(rest, j - 1);
        if NoHeader(rest, j - 1) {
          forall k | 0 <= k <= j ensures !pieces[k].headers { if k > 0 { assert !rest[k - 1].headers; } }
        }
        if NoHeader(pieces, j) {
          forall k | 0 <= k <= j - 1 ensures !rest[k].headers { assert rest[k] == pieces[k + 1]; }
        }
      }
    }
  }

  lemma {:induction false} DownToPlainIff(r: Rules, pieces: seq<Piece>, i: nat)
    requires i < |pieces|
    ensures i < DownToPlain(r, pieces) <==> exists j | i <= j < |pieces| :: Plain(r, pieces[j])
  {
    var n := |pieces| - 1;
    if !Plain(r, pieces[n]) && i < n {
      var init := pieces[..n];
      DownToPlainIff(r, init, i);
      if j :| i <= j < n && Plain(r, init[j]) { assert Plain(r, pieces[j]); }
      if j :| i <= j < |pieces| && Plain(r, pieces[j]) { assert Plain(r, init[j]); }
    }
  }

  lemma ShownIsPrefix(r: Rules, pieces: seq<Piece>, i: nat)
    requires i < |pieces|
    ensures Shown(r, pieces, i) <==> i < VisibleCount(r, pieces)
  {
    var n := AboveHeaders(pieces);
    var top := pieces[..n];
    if i < n { DownToPlainIff(r, top, i); }
    if Shown(r, pieces, i) {
      var j :| i <= j < |pieces| && Anchors(r, pieces, j);
      AboveHeadersIff(pieces, j);
      assert Plain(r, top[j]);
    }
    if i < VisibleCount(r, pieces) {
      var j :| i <= j < |top| && Plain(r, top[j]);
      AboveHeadersIff(pieces, j);
      assert Anchors(r, pieces, j);
    }
  }

  /** The visible fragments are a prefix: those above the topmost header, down to the last plain one. */
  lemma VisibleExactly(r: Rules, lines: seq<string>)
    ensures
      var pieces := Fragments(r, lines);
      forall i | 0 <= i < |pieces| :: !pieces[i].hidden <==> i < VisibleCount(r, pieces)
  {
    var pieces := Fragments(r, lines);
    forall i | 0 <= i < |pieces| ensures !pieces[i].hidden <==> i < VisibleCount(r, pieces) {
      VisibleIff(r, lines, i);
      ShownIsPrefix(r, pieces, i);
    }
  }

  // ------------------------------------------------------------------ how lines are grouped

  function LinesOf(pieces: seq<Piece>): (parts: seq<seq<string>>)
    ensures |parts| == |pieces|
    ensures forall i | 0 <= i < |pieces| :: parts[i] == pieces[i].lines
  {
    seq(|pieces|, i requires 0 <= i < |pieces| => pieces[i].lines)
  }

  /** The lowest line sets the kind of a fragment, the others join it, and no cut runs through it. */
  predicate Whole(r: Rules, p: Piece) {
    var n := |p.lines| - 1;
    && n >= 0 && p.quoted == r.isQuoted(p.lines[n]) && p.headers == r.IsHeader(p.lines[n])
    && forall j | 0 <= j < n :: Joins(r, p, p.lines[j]) && !r.Cut(p.lines[j], p.lines[j + 1])
  }

  /** A fragment is a signature exactly when a cut ends it, and ends only so or where a line does not join. */
  predicate Boundary(r: Rules, above: Piece, below: Piece) {
    && above.lines != [] && below.lines != []
    && var line := above.lines[|above.lines| - 1];
       below.signature == r.Cut(line, below.lines[0]) && (below.signature || !Joins(r, below, line))
  }

  predicate Grouped(r: Rules, pieces: seq<Piece>, lines: seq<string>) {
    Concat(LinesOf(pieces)) == lines && Chain(r, pieces) && (pieces != [] ==> !pieces[0].signature)
  }

  predicate Chain(r: Rules, pieces: seq<Piece>) {
    && (forall i | 0 <= i < |pieces| :: Whole(r, pieces[i]))
    && (forall i | 0 <= i < |pieces| - 1 :: Boundary(r, pieces[i], pieces[i + 1]))
  }

  lemma ChainFirst(r: Rules, top: Piece, rest: seq<Piece>)
    ensures Chain(r, [top] + rest)
        <==> Whole(r, top) && Chain(r, rest) && (rest != [] ==> Boundary(r, top, rest[0]))
  {
    var all := [top] + rest;
    if Chain(r, all) {
      forall i | 0 <= i < |rest| ensures Whole(r, rest[i]) { assert Whole(r, all[i + 1]); }
      forall i | 0 <= i < |rest| - 1 ensures Boundary(r, rest[i], rest[i + 1]) {
        assert Boundary(r, all[i + 1], all[i + 1 + 1]);
      }
      assert Whole(r, all[0]) && (rest != [] ==> Boundary(r, all[0], all[0 + 1]));
    }
  }

  /** All but the marks of the pieces agree. */
  predicate SameLines(a: seq<Piece>, b: seq<Piece>) {
    |a| == |b| && forall i | 0 <= i < |a| :: a[i].(hidden := false) == b[i].(hidden := false)
  }

  lemma HidingKeepsGroups(r: Rules, a: seq<Piece>, b: seq<Piece>, lines: seq<string>)
    requires SameLines(a, b) && Grouped(r, a, lines)
    ensures Grouped(r, b, lines)
  {
    assert LinesOf(a) == LinesOf(b);
    forall i | 0 <= i < |b| ensures Whole(r, b[i]) { assert Whole(r, a[i]); }
    forall i | 0 <= i < |b| - 1 ensures Boundary(r, b[i], b[i + 1]) { assert Boundary(r, a[i], a[i + 1]); }
  }

  /** The pieces of a scan, the open one first. */
  function All(s: Scan): seq<Piece> {
    if s.open.Some? then [s.open.value] + s.done else s.done
  }

  lemma CloseKeepsLines(r: Rules, s: Scan)
    ensures SameLines(All(s), Close(r, s).done)
  {}

  lemma WholeJoin(r: Rules, p: Piece, line: string)
    requires Whole(r, p) && Joins(r, p, line) && !r.Cut(line, p.lines[0])
    ensures Whole(r, p.(lines := [line] + p.lines))
  {
    var q := p.(lines := [line] + p.lines);
    forall j | 0 <= j < |q.lines| - 1 ensures Joins(r, q, q.lines[j]) && !r.Cut(q.lines[j], q.lines[j + 1]) {
      if j > 0 { assert Joins(r, p, p.lines[j - 1]) && q.lines[j] == p.lines[j - 1]; }
    }
  }

  lemma BoundaryJoin(r: Rules, p: Piece, below: Piece, line: string)
    requires Boundary(r, p, below)
    ensures Boundary(r, p.(lines := [line] + p.lines), below)
  {}

  lemma ChainJoin(r: Rules, p: Piece, rest: seq<Piece>, line: string)
    requires Chain(r, [p] + rest) && Joins(r, p, line)
    requires p.lines != [] && !r.Cut(line, p.lines[0])
    ensures Chain(r, [p.(lines := [line] + p.lines)] + rest)
  {
    ChainFirst(r, p, rest);
    WholeJoin(r, p, line);
    if rest != [] { BoundaryJoin(r, p, rest[0], line); }
    ChainFirst(r, p.(lines := [line] + p.lines), rest);
  }

  /** A line that joins the topmost fragment extends it. */
  lemma GroupJoin(r: Rules, p: Piece, rest: seq<Piece>, lines: seq<string>, line: string)
    requires Grouped(r, [p] + rest, lines) && Joins(r, p, line)
    requires p.lines != [] && !r.Cut(line, p.lines[0])
    ensures Grouped(r, [p.(lines := [line] + p.lines)] + rest, [line] + lines)
  {
    ChainJoin(r, p, rest, line);
    GroupLines(p, rest);
    GroupLines(p.(lines := [line] + p.lines), rest);
    var below := Concat(LinesOf(rest));
    assert [line] + (p.lines + below) == ([line] + p.lines) + below;
  }

  lemma GroupLines(p: Piece, rest: seq<Piece>)
    ensures Concat(LinesOf([p] + rest)) == p.lines + Concat(LinesOf(rest))
  {
    ConcatFirst(LinesOf([p] + rest));
    assert LinesOf([p] + rest)[1..] == LinesOf(rest);
  }

  lemma {:induction false} ScanGroups(r: Rules, lines: seq<string>)
    ensures Grouped(r, All(Scanned(r, lines)), lines)
    ensures lines != [] ==> Scanned(r, lines).open.Some?
  {
    if lines != [] {
      ScanGroups(r, lines[1..]);
      assert lines == [lines[0]] + lines[1..];
      StepGroups(r, Scanned(r, lines[1..]), lines[1..], lines[0], Scanned(r, lines));
    }
  }

  /** What a line that starts a fragment leaves behind: the fragment below is a signature if it was cut. */
  function Started(r: Rules, pieces: seq<Piece>, line: string): seq<Piece>
    requires pieces != [] ==> pieces[0].lines != []
  {
    [Piece(r.isQuoted(line), r.IsHeader(line), false, false, [line])] + Signed(r, pieces, line)
  }

  function Signed(r: Rules, pieces: seq<Piece>, line: string): seq<Piece>
    requires pieces != [] ==> pieces[0].lines != []
  {
    if pieces == [] then [] else [pieces[0].(signature := r.Cut(line, pieces[0].lines[0]))] + pieces[1..]
  }

  lemma SignedAlike(r: Rules, p: Piece, rest: seq<Piece>, signed: bool)
    requires Whole(r, p) && (rest != [] ==> Boundary(r, p, rest[0]))
    ensures var q := p.(signature := signed); Whole(r, q) && (rest != [] ==> Boundary(r, q, rest[0]))
  {}

  lemma SignedChain(r: Rules, pieces: seq<Piece>, line: string)
    requires Chain(r, pieces) && (pieces != [] ==> pieces[0].lines != [])
    ensures Chain(r, Signed(r, pieces, line)) && LinesOf(Signed(r, pieces, line)) == LinesOf(pieces)
  {
    if pieces != [] {
      var p, rest := pieces[0], pieces[1..];
      assert pieces == [p] + rest;
      ChainFirst(r, p, rest);
      SignedAlike(r, p, rest, r.Cut(line, p.lines[0]));
      ChainFirst(r, p.(signature := r.Cut(line, p.lines[0])), rest);
    }
  }

  /** Another line starts a fragment of its own. */
  lemma GroupStart(r: Rules, pieces: seq<Piece>, lines: seq<string>, line: string)
    requires Grouped(r, pieces, lines) && (pieces != [] ==> pieces[0].lines != [])
    requires pieces != [] ==> r.Cut(line, pieces[0].lines[0]) || !Joins(r, pieces[0], line)
    ensures Grouped(r, Started(r, pieces, line), [line] + lines)
  {
    var top, below := Piece(r.isQuoted(line), r.IsHeader(line), false, false, [line]), Signed(r, pieces, line);
    SignedChain(r, pieces, line);
    ChainFirst(r, top, below);
    GroupLines(top, below);
  }

  lemma CutCloses(r: Rules, s: Scan, p: Piece, line: string)
    requires s.open == Some(p) && p.lines != [] && !p.signature
    requires r.Cut(line, p.lines[0]) || !Joins(r, p, line)
    ensures
      var signed := s.(open := Some(p.(signature := r.Cut(line, p.lines[0]))));
      Take(r, Sign(r, s, line), line).done == Close(r, signed).done
  {}

  lemma StepStarts(r: Rules, s: Scan, line: string, next: Scan)
    requires s.open.Some? ==> s.open.value.lines != [] && !s.open.value.signature
    requires s.open.None? ==> s.done == []
    requires s.open.Some? ==> r.Cut(line, s.open.value.lines[0]) || !Joins(r, s.open.value, line)
    requires next == Take(r, Sign(r, s, line), line)
    ensures SameLines(Started(r, All(s), line), All(next))
  {
    var top := Piece(r.isQuoted(line), r.IsHeader(line), false, false, [line]);
    assert next.open == Some(top);
    if s.open.Some? {
      var p := s.open.value;
      var signed := s.(open := Some(p.(signature := r.Cut(line, p.lines[0]))));
      CutCloses(r, s, p, line);
      CloseKeepsLines(r, signed);
      assert All(s)[1..] == s.done && Signed(r, All(s), line) == All(signed);
      assert SameLines(All(signed), next.done);
    }
  }

  lemma StepGroups(r: Rules, s: Scan, lines: seq<string>, line: string, next: Scan)
    requires Grouped(r, All(s), lines) && (s.open.Some? ==> s.open.value.lines != [])
    requires s.open.None? ==> s.done == []
    requires next == Take(r, Sign(r, s, line), line)
    ensures Grouped(r, All(next), [line] + lines) && next.open.Some?
  {
    if s.open.Some? && !r.Cut(line, s.open.value.lines[0]) && Joins(r, s.open.value, line) {
      GroupJoin(r, s.open.value, s.done, lines, line);
    } else {
      GroupStart(r, All(s), lines, line);
      StepStarts(r, s, line, next);
      HidingKeepsGroups(r, Started(r, All(s), line), All(next), [line] + lines);
    }
  }

  /** The fragments are the lines, cut exactly where the rules say. */
  lemma FragmentsGrouped(r: Rules, lines: seq<string>)
    ensures Grouped(r, Fragments(r, lines), lines)
  {
    ScanGroups(r, lines);
    var s := Scanned(r, lines);
    CloseKeepsLines(r, s);
    HidingKeepsGroups(r, All(s), Close(r, s).done, lines);
  }

  /** Without its lowest fragment, a grouping groups the lines above it, and their last one ends it. */
  lemma GroupedInit(r: Rules, a: seq<Piece>, lines: seq<string>) returns (above: seq<string>)
    requires Grouped(r, a, lines) && a != []
    ensures Grouped(r, a[..|a| - 1], above) && lines == above + a[|a| - 1].lines
    ensures Whole(r, a[|a| - 1]) && (|a| == 1 <==> above == [])
    ensures
      var p := a[|a| - 1];
      if above == [] then !p.signature
      else
        var line := above[|above| - 1];
        p.signature == r.Cut(line, p.lines[0]) && (p.signature || !Joins(r, p, line))
  {
    var n := |a| - 1;
    assert LinesOf(a)[..n] == LinesOf(a[..n]);
    above := Concat(LinesOf(a[..n]));
    assert Whole(r, a[n]);
    if n > 0 {
      assert Whole(r, a[n - 1]) && LinesOf(a[..n])[..n - 1] == LinesOf(a[..n - 1]);
      assert above == Concat(LinesOf(a[..n - 1])) + a[n - 1].lines;
      assert Boundary(r, a[n - 1], a[n - 1 + 1]);
    }
    forall i | 0 <= i < n ensures Whole(r, a[..n][i]) { assert Whole(r, a[i]); }
    forall i | 0 <= i < n - 1 ensures Boundary(r, a[..n][i], a[..n][i + 1]) { assert Boundary(r, a[i], a[i + 1]); }
  }

  /** A line within a fragment joins it and does not cut it. */
  lemma LineWithin(r: Rules, q: Piece, rest: seq<string>, above: seq<string>, low: seq<string>)
    requires Whole(r, q) && rest + q.lines == above + low && above != [] && 0 < |low| < |q.lines|
    ensures Joins(r, q, above[|above| - 1]) && !r.Cut(above[|above| - 1], low[0])
  {
    var lines := above + low;
    var j := |q.lines| - |low| - 1;
    assert q.lines[j] == (rest + q.lines)[|rest| + j] == lines[|above| - 1];
    assert q.lines[j + 1] == (rest + q.lines)[|rest| + j + 1] == lines[|above|];
  }

  /** A fragment of another grouping does not reach further up: the line that ends this one would cut it. */
  lemma NoLonger(r: Rules, p: Piece, above: seq<string>, q: Piece, rest: seq<string>)
    requires Whole(r, p) && Whole(r, q) && above + p.lines == rest + q.lines
    requires above != [] ==>
      var line := above[|above| - 1];
      p.signature == r.Cut(line, p.lines[0]) && (p.signature || !Joins(r, p, line))
    ensures |q.lines| <= |p.lines| && p.quoted == q.quoted && p.headers == q.headers
  {
    var lines := above + p.lines;
    assert lines[|lines| - 1] == p.lines[|p.lines| - 1];
    assert (rest + q.lines)[|lines| - 1] == q.lines[|q.lines| - 1];
    if |p.lines| < |q.lines| {
      LineWithin(r, q, rest, above, p.lines);
    }
  }

  lemma SameSuffix(a: seq<string>, p: seq<string>, b: seq<string>, q: seq<string>)
    requires a + p == b + q && |p| == |q|
    ensures a == b && p == q
  {
    assert a == (a + p)[..|a|] && b == (b + q)[..|b|];
    assert p == (a + p)[|a|..] && q == (b + q)[|b|..];
  }

  /** The last pieces of two groupings are the same, and so are the lines above them. */
  lemma LastSame(r: Rules, a: seq<Piece>, b: seq<Piece>, lines: seq<string>) returns (above: seq<string>)
    requires Grouped(r, a, lines) && Grouped(r, b, lines) && a != [] && b != []
    ensures Grouped(r, a[..|a| - 1], above) && Grouped(r, b[..|b| - 1], above)
    ensures a[|a| - 1].(hidden := false) == b[|b| - 1].(hidden := false)
  {
    var p, q := a[|a| - 1], b[|b| - 1];
    above := GroupedInit(r, a, lines);
    var other := GroupedInit(r, b, lines);
    NoLonger(r, p, above, q, other);
    NoLonger(r, q, other, p, above);
    SameSuffix(above, p.lines, other, q.lines);
  }

  lemma SameSnoc(a: seq<Piece>, b: seq<Piece>)
    requires a != [] && b != [] && SameLines(a[..|a| - 1], b[..|b| - 1])
    requires a[|a| - 1].(hidden := false) == b[|b| - 1].(hidden := false)
    ensures SameLines(a, b)
  {
    assert a == a[..|a| - 1] + [a[|a| - 1]] && b == b[..|b| - 1] + [b[|b| - 1]];
  }

  /** There is one way only to group the lines, up to what is hidden. */
  lemma {:induction false} GroupedUnique(r: Rules, a: seq<Piece>, b: seq<Piece>, lines: seq<string>)
    requires Grouped(r, a, lines) && Grouped(r, b, lines)
    ensures SameLines(a, b)
    decreases |a|
  {
    if a == [] || b == [] {
      if a != [] { var _ := GroupedInit(r, a, lines); }
      if b != [] { var _ := GroupedInit(r, b, lines); }
    } else {
      var above := LastSame(r, a, b, lines);
      GroupedUnique(r, a[..|a| - 1], b[..|b| - 1], above);
      SameSnoc(a, b);
    }
  }

  /** The raw texts of all fragments, joined, are the text that was split into lines. */
  lemma FragmentsJoin(r: Rules, text: string)
    ensures Join(JoinEach(LinesOf(Fragments(r, Split(text))))) == text
  {
    var pieces := Fragments(r, Split(text));
    FragmentsGrouped(r, Split(text));
    forall part | part in LinesOf(pieces) ensures part != [] {
      var i :| 0 <= i < |pieces| && LinesOf(pieces)[i] == part;
      assert Whole(r, pieces[i]);
    }
    JoinGroups(LinesOf(pieces));
    JoinSplit(text);
  }
}
