/** The reply in an email, told on its lines and on the rules for lines alone. */
module ReplySections {
  import opened Options
  import opened Sequences
  import opened Text
  import opened ReplyFragments

  function Low(part: seq<string>): string
    requires part != []
  {
    part[|part| - 1]
  }

  predicate Heads(r: Rules, line: string) {
    r.isQuoteHeader(line) || r.isOtherHeader(line)
  }

  predicate Spaces(r: Rules, line: string) {
    forall i | 0 <= i < |line| :: r.isSpace(line[i])
  }

  /** A line belongs to the lines below it: it is of the kind of the lowest one, or that one is quoted and the line
      is the header of a quote or blank. */
  predicate Belongs(r: Rules, line: string, low: string) {
    || (Heads(r, line) == Heads(r, low) && r.isQuoted(line) == r.isQuoted(low))
    || (r.isQuoted(low) && (r.isQuoteHeader(line) || Spaces(r, line)))
  }

  /** A blank line above a signature. */
  predicate Signs(r: Rules, above: string, line: string) {
    Spaces(r, above) && r.isSignature(Strip(r.isSpace, line))
  }

  /** The lines of a section belong to its lowest line, and none but the first may be a signature below a blank. */
  predicate Section(r: Rules, part: seq<string>) {
    part != []
    && forall j | 0 <= j < |part| - 1 :: Belongs(r, part[j], Low(part)) && !Signs(r, part[j], part[j + 1])
  }

  /** A section ends where a signature starts, or where the line above does not belong to it. */
  predicate Ends(r: Rules, above: seq<string>, part: seq<string>)
    requires above != [] && part != []
  {
    Signs(r, Low(above), part[0]) || !Belongs(r, Low(above), Low(part))
  }

  predicate Sections(r: Rules, parts: seq<seq<string>>, lines: seq<string>) {
    && Concat(parts) == lines && (forall i | 0 <= i < |parts| :: Section(r, parts[i]))
    && forall i | 0 <= i < |parts| - 1 :: Ends(r, parts[i], parts[i + 1])
  }

  predicate Filled(parts: seq<seq<string>>) {
    forall k | 0 <= k < |parts| :: parts[k] != []
  }

  /** A section that is neither quoted nor headed nor a signature nor blank. */
  predicate Written(r: Rules, parts: seq<seq<string>>, i: nat)
    requires i < |parts| && Filled(parts)
  {
    !r.isQuoted(Low(parts[i])) && !Heads(r, Low(parts[i])) && !Spaces(r, Join(parts[i]))
    && !(i > 0 && Signs(r, Low(parts[i - 1]), parts[i][0]))
  }

  /** A section is kept when one like that is at or below it, with no header from the top down to there. */
  predicate Kept(r: Rules, parts: seq<seq<string>>, i: nat)
    requires i < |parts| && Filled(parts)
  {
    exists j | i <= j < |parts| :: Written(r, parts, j) && forall k | 0 <= k <= j :: !Heads(r, Low(parts[k]))
  }

  /** The reply that is made of the first n sections: each is stripped, and they are joined and stripped. */
  ghost predicate Replies(r: Rules, parts: seq<seq<string>>, kept: seq<string>, reply: string) {
    && |kept| <= |parts| && Filled(parts)
    && (forall i | 0 <= i < |parts| :: Kept(r, parts, i) <==> i < |kept|)
    && (forall i | 0 <= i < |kept| :: kept[i] == Strip(r.isSpace, Join(parts[i])))
    && reply == Strip(r.isSpace, Join(kept))
  }

  /** The reply in some lines: the sections that are kept. */
  ghost predicate IsReply(r: Rules, lines: seq<string>, reply: string) {
    exists parts, kept :: Sections(r, parts, lines) && Replies(r, parts, kept, reply)
  }

  // ------------------------------------------------------------------ the fragments are the sections

  lemma WholeSection(r: Rules, p: Piece)
    requires Whole(r, p)
    ensures Section(r, p.lines)
  {}

  lemma FragmentsSections(r: Rules, pieces: seq<Piece>, lines: seq<string>)
    requires Grouped(r, pieces, lines)
    ensures Sections(r, LinesOf(pieces), lines)
  {
    var parts := LinesOf(pieces);
    forall i | 0 <= i < |parts| ensures Section(r, parts[i]) { WholeSection(r, pieces[i]); }
    forall i | 0 <= i < |parts| - 1 ensures Ends(r, parts[i], parts[i + 1]) {
      assert Boundary(r, pieces[i], pieces[i + 1]) && Whole(r, pieces[i + 1]);
    }
  }

  lemma PlainWritten(r: Rules, pieces: seq<Piece>, lines: seq<string>, i: nat)
    requires Grouped(r, pieces, lines) && i < |pieces|
    ensures Filled(LinesOf(pieces))
    ensures Plain(r, pieces[i]) <==> Written(r, LinesOf(pieces), i)
    ensures pieces[i].headers == Heads(r, Low(LinesOf(pieces)[i]))
  {
    forall k | 0 <= k < |pieces| ensures LinesOf(pieces)[k] != [] { assert Whole(r, pieces[k]); }
    assert Whole(r, pieces[i]);
    if i > 0 { assert Boundary(r, pieces[i - 1], pieces[i - 1 + 1]); }
  }

  lemma ShownKept(r: Rules, pieces: seq<Piece>, lines: seq<string>, i: nat)
    requires Grouped(r, pieces, lines) && i < |pieces|
    ensures Filled(LinesOf(pieces))
    ensures Shown(r, pieces, i) <==> Kept(r, LinesOf(pieces), i)
  {
    var parts := LinesOf(pieces);
    PlainWritten(r, pieces, lines, i);
    forall j: nat | j < |pieces|
      ensures Anchors(r, pieces, j) <==> Written(r, parts, j) && forall k | 0 <= k <= j :: !Heads(r, Low(parts[k]))
    {
      forall k: nat | k <= j ensures pieces[k].headers == Heads(r, Low(parts[k])) { PlainWritten(r, pieces, lines, k); }
      PlainWritten(r, pieces, lines, j);
    }
  }

  lemma GroupedFilled(r: Rules, pieces: seq<Piece>, lines: seq<string>)
    requires Grouped(r, pieces, lines)
    ensures Filled(LinesOf(pieces))
  {
    forall k | 0 <= k < |pieces| ensures LinesOf(pieces)[k] != [] { assert Whole(r, pieces[k]); }
  }

  lemma KeptCount(r: Rules, pieces: seq<Piece>, lines: seq<string>, i: nat)
    requires pieces == Fragments(r, lines) && i < |pieces|
    ensures Filled(LinesOf(pieces)) && (Kept(r, LinesOf(pieces), i) <==> i < VisibleCount(r, pieces))
  {
    FragmentsGrouped(r, lines);
    VisibleExactly(r, lines);
    VisibleIff(r, lines, i);
    ShownKept(r, pieces, lines, i);
  }

  /** The contents of the visible fragments make the reply. */
  lemma FragmentsReply(r: Rules, lines: seq<string>, pieces: seq<Piece>, kept: seq<string>)
    requires pieces == Fragments(r, lines) && |kept| == VisibleCount(r, pieces)
    requires forall i | 0 <= i < |kept| :: kept[i] == Strip(r.isSpace, Join(pieces[i].lines))
    ensures IsReply(r, lines, Strip(r.isSpace, Join(kept)))
  {
    FragmentsGrouped(r, lines);
    GroupedFilled(r, pieces, lines);
    FragmentsSections(r, pieces, lines);
    forall i | 0 <= i < |pieces| ensures Kept(r, LinesOf(pieces), i) <==> i < |kept| {
      KeptCount(r, pieces, lines, i);
    }
    PartsReply(r, lines, LinesOf(pieces), kept);
  }

  lemma PartsReply(r: Rules, lines: seq<string>, parts: seq<seq<string>>, kept: seq<string>)
    requires Sections(r, parts, lines) && Filled(parts) && |kept| <= |parts|
    requires forall i | 0 <= i < |parts| :: Kept(r, parts, i) <==> i < |kept|
    requires forall i | 0 <= i < |kept| :: kept[i] == Strip(r.isSpace, Join(parts[i]))
    ensures IsReply(r, lines, Strip(r.isSpace, Join(kept)))
  {
    assert Replies(r, parts, kept, Strip(r.isSpace, Join(kept)));
  }

  // ------------------------------------------------------------------ there is one reply only

  function PieceOf(r: Rules, parts: seq<seq<string>>, i: nat): Piece
    requires i < |parts| && Filled(parts)
  {
    Piece(r.isQuoted(Low(parts[i])), Heads(r, Low(parts[i])), i > 0 && Signs(r, Low(parts[i - 1]), parts[i][0]), false,
          parts[i])
  }

  function PiecesOf(r: Rules, parts: seq<seq<string>>): (pieces: seq<Piece>)
    requires Filled(parts)
    ensures |pieces| == |parts| && forall i | 0 <= i < |parts| :: pieces[i] == PieceOf(r, parts, i)
  {
    seq(|parts|, i requires 0 <= i < |parts| => PieceOf(r, parts, i))
  }

  lemma SectionWhole(r: Rules, parts: seq<seq<string>>, i: nat)
    requires i < |parts| && Filled(parts) && Section(r, parts[i])
    ensures Whole(r, PieceOf(r, parts, i))
  {}

  lemma EndsBoundary(r: Rules, parts: seq<seq<string>>, i: nat)
    requires i + 1 < |parts| && Filled(parts) && Ends(r, parts[i], parts[i + 1])
    ensures Boundary(r, PieceOf(r, parts, i), PieceOf(r, parts, i + 1))
  {}

  lemma SectionsGrouped(r: Rules, parts: seq<seq<string>>, lines: seq<string>)
    requires Sections(r, parts, lines)
    ensures Filled(parts) && Grouped(r, PiecesOf(r, parts), lines)
  {
    forall k | 0 <= k < |parts| ensures parts[k] != [] { assert Section(r, parts[k]); }
    var pieces := PiecesOf(r, parts);
    assert LinesOf(pieces) == parts;
    forall i | 0 <= i < |pieces| ensures Whole(r, pieces[i]) { SectionWhole(r, parts, i); }
    forall i | 0 <= i < |pieces| - 1 ensures Boundary(r, pieces[i], pieces[i + 1]) { EndsBoundary(r, parts, i); }
  }

  /** Lines are cut into sections in one way only. */
  lemma SectionsUnique(r: Rules, a: seq<seq<string>>, b: seq<seq<string>>, lines: seq<string>)
    requires Sections(r, a, lines) && Sections(r, b, lines)
    ensures a == b
  {
    SectionsGrouped(r, a, lines);
    SectionsGrouped(r, b, lines);
    var p, q := PiecesOf(r, a), PiecesOf(r, b);
    GroupedUnique(r, p, q, lines);
    forall i | 0 <= i < |a| ensures a[i] == b[i] {
      assert p[i].(hidden := false) == q[i].(hidden := false);
    }
  }

  lemma SameReply(r: Rules, parts: seq<seq<string>>, k: seq<string>, l: seq<string>, a: string, b: string)
    requires Replies(r, parts, k, a) && Replies(r, parts, l, b)
    ensures a == b
  {
    var n := if |k| < |l| then |k| else |l|;
    if n < |parts| { assert Kept(r, parts, n) <==> n < |k|; }
    assert k == l;
  }

  /** So lines have one reply only. */
  lemma ReplyUnique(r: Rules, lines: seq<string>, a: string, b: string)
    requires IsReply(r, lines, a) && IsReply(r, lines, b)
    ensures a == b
  {
    var p, k :| Sections(r, p, lines) && Replies(r, p, k, a);
    var q, l :| Sections(r, q, lines) && Replies(r, q, l, b);
    SectionsUnique(r, p, q, lines);
    SameReply(r, p, k, l, a, b);
  }
}
