/** The email reply parser: a scanner over the lines of a message from the last one up, and the text
    without quotes, signatures and forwarded headers. */
module EmailReplies {
  import opened Options
  import opened Sequences
  import opened Text
  import opened EmailText
  import opened ReplyFragments
  import opened ReplySections

  function Reverse<T>(s: seq<T>): (r: seq<T>)
    ensures |r| == |s|
    ensures forall i | 0 <= i < |s| :: r[i] == s[|s| - 1 - i]
  {
    seq(|s|, i requires 0 <= i < |s| => s[|s| - 1 - i])
  }

  lemma ReverseSnoc<T>(s: seq<T>, x: T)
    ensures Reverse(s + [x]) == [x] + Reverse(s)
  {}

  lemma ReverseHidden(pieces: seq<Piece>)
    ensures Reverse(HideAll(pieces)) == HideAll(Reverse(pieces))
  {}

  class Fragment {
    var signature: bool
    var headers: bool
    var hidden: bool
    var quoted: bool
    var content: Option<string>
    var lines: seq<string>
    /** The lines in the order of the text. */
    ghost var raw: seq<string>

    constructor (quoted: bool, firstLine: string, headers: bool)
      ensures View() == Piece(quoted, headers, false, false, [firstLine]) && Open()
    {
      signature, this.headers, hidden, this.quoted := false, headers, false, quoted;
      content, lines := None, [firstLine];
      raw := [firstLine];
    }

    ghost predicate Open()
      reads this
    {
      lines == Reverse(raw) && raw != [] && content.None? && !hidden
    }

    ghost predicate Finished()
      reads this
    {
      lines == [] && content == Some(Join(raw))
    }

    ghost function View(): Piece
      reads this
    {
      Piece(quoted, headers, signature, hidden, raw)
    }

    /** `fragment.lines.append(line)` */
    method AddLine(line: string)
      requires Open()
      modifies this
      ensures Open() && View() == old(View()).(lines := [line] + old(raw))
    {
      lines := lines + [line];
      raw := [line] + raw;
    }

    method Finish()
      requires Open()
      modifies this
      ensures Finished() && View() == old(View())
    {
      assert Reverse(lines) == raw;
      content := Some(Join(Reverse(lines)));
      lines := [];
    }

    /** The property `content`. */
    function Content(isSpace: char -> bool): string
      reads this
    {
      Strip(isSpace, if content.Some? then content.value else "")
    }
  }

  class EmailMessage {
    const rules: Rules
    var fragments: seq<Fragment>
    var fragment: Fragment?
    var text: string
    var foundVisible: bool
    /** The finished fragments, the last of the text first. */
    ghost var finished: seq<Piece>

    constructor (rules: Rules, text: string)
      ensures Valid() && State() == Scan(None, [], false) && fragments == [] && finished == [] && fragment == null
      ensures this.rules == rules && this.text == text
    {
      this.rules, this.text := rules, text;
      fragments, fragment, foundVisible, finished := [], null, false, [];
      new;
      assert Reverse(finished) == [];
    }

    ghost predicate Holds()
      reads this, fragments
    {
      && |finished| == |fragments|
      && (forall i | 0 <= i < |fragments| :: fragments[i].Finished() && fragments[i].View() == finished[i])
    }

    ghost predicate Valid()
      reads this, fragments, fragment
    {
      && fragment !in fragments && Holds()
      && (fragment != null ==> fragment.Open())
    }

    ghost function State(): Scan
      reads this, fragment
    {
      Scan(if fragment == null then None else Some(fragment.View()), Reverse(finished), foundVisible)
    }

    /** `for f in self.fragments: f.hidden = True` */
    method HideFragments()
      requires Holds()
      modifies fragments`hidden, `finished
      ensures Holds() && finished == HideAll(old(finished))
    {
      for i := 0 to |fragments|
        invariant finished == old(finished) && forall k | 0 <= k < i :: fragments[k].hidden
      {
        fragments[i].hidden := true;
      }
      finished := HideAll(finished);
    }

    /** The fragments below a header are hidden. */
    method HideBelow(f: Fragment)
      requires Holds() && f !in fragments
      modifies `foundVisible, `finished, fragments`hidden
      ensures Holds() && foundVisible == (old(foundVisible) && !f.headers)
      ensures finished == if f.headers then HideAll(old(finished)) else old(finished)
    {
      if f.headers {
        foundVisible := false;
        HideFragments();
      }
    }

    /** The test whether the fragment is the first visible one, or hidden. */
    method MarkFragment(f: Fragment)
      requires f.Finished() && !f.hidden
      modifies `foundVisible, f`hidden
      ensures f.View() == old(f.View()).(hidden := !old(foundVisible) && !Plain(rules, old(f.View())))
      ensures foundVisible == (old(foundVisible) || Plain(rules, old(f.View())))
    {
      if !foundVisible {
        if f.quoted || f.headers || f.signature
           || |Strip(rules.isSpace, f.Content(rules.isSpace))| == 0 {
          f.hidden := true;
        } else {
          foundVisible := true;
        }
      }
    }

    method CloseFragment(f: Fragment)
      requires Holds() && f !in fragments && f.Open()
      modifies `foundVisible, `finished, `fragments, fragments`hidden, f
      ensures Holds() && fragments == old(fragments) + [f]
      ensures Scan(None, Reverse(finished), foundVisible)
           == Close(rules, Scan(Some(old(f.View())), Reverse(old(finished)), old(foundVisible)))
    {
      f.Finish();
      HideBelow(f);
      MarkFragment(f);
      ClosedState(rules, old(f.View()), old(finished), old(foundVisible));
      AppendFragment(f);
    }

    /** `self.fragments.append(self.fragment)` */
    method AppendFragment(f: Fragment)
      requires Holds() && f.Finished()
      modifies `fragments, `finished
      ensures Holds() && fragments == old(fragments) + [f] && finished == old(finished) + [f.View()]
    {
      finished := finished + [f.View()];
      fragments := fragments + [f];
    }

    /** `_finish_fragment` */
    method FinishFragment()
      requires Valid()
      modifies this, fragments, fragment
      ensures Valid() && fragment == null
      ensures fragments == old(fragments) + if old(fragment) == null then [] else [old(fragment)]
      ensures State() == Close(rules, old(State())) && text == old(text)
    {
      if fragment != null {
        CloseFragment(fragment);
      }
      fragment := null;
    }

    /** The signature test of `_scan_line`. */
    method SignFragment(line: string)
      requires Valid()
      modifies this, fragments, fragment
      ensures Valid()
      ensures State() == Sign(rules, old(State()), line) && text == old(text)
      ensures if fragment == null && old(fragment) != null then fragments == old(fragments) + [old(fragment)]
              else fragment == old(fragment) && fragments == old(fragments)
    {
      if fragment != null && |Strip(rules.isSpace, line)| == 0 {
        if rules.isSignature(Strip(rules.isSpace, fragment.lines[|fragment.lines| - 1])) {
          fragment.signature := true;
          FinishFragment();
        }
      }
    }

    /** The rest of `_scan_line`. */
    method TakeLine(line: string)
      requires Valid()
      modifies this, fragments, fragment
      ensures Valid() && fragment != null
      ensures State() == Take(rules, old(State()), line) && text == old(text)
      ensures fragment == old(fragment) || fresh(fragment)
      ensures fragments == old(fragments) || (old(fragment) != null && fragments == old(fragments) + [old(fragment)])
    {
      var isQuoteHeader, isQuoted := rules.isQuoteHeader(line), rules.isQuoted(line);
      var isHeader := isQuoteHeader || rules.isOtherHeader(line);
      if fragment != null
         && ((fragment.headers == isHeader && fragment.quoted == isQuoted)
             || (fragment.quoted && (isQuoteHeader || |Strip(rules.isSpace, line)| == 0)))
      {
        fragment.AddLine(line);
      } else {
        StartFragment(isQuoted, line, isHeader);
      }
    }

    method StartFragment(quoted: bool, line: string, headers: bool)
      requires Valid()
      modifies this, fragments, fragment
      ensures Valid() && fresh(fragment) && text == old(text)
      ensures State() == Close(rules, old(State())).(open := Some(Piece(quoted, headers, false, false, [line])))
      ensures fragments == old(fragments) + if old(fragment) == null then [] else [old(fragment)]
    {
      FinishFragment();
      fragment := new Fragment(quoted, line, headers);
    }

    /** `_scan_line` */
    method ScanLine(line: string)
      requires Valid()
      modifies this, fragments, fragment
      ensures Valid() && fragment != null
      ensures State() == Take(rules, Sign(rules, old(State()), line), line) && text == old(text)
      ensures fragment == old(fragment) || fresh(fragment)
      ensures fragments == old(fragments) || (old(fragment) != null && fragments == old(fragments) + [old(fragment)])
    {
      SignFragment(line);
      TakeLine(line);
    }

    /** The loop of `read`. */
    method ScanLines(lines: seq<string>)
      requires Valid() && fragment == null && !foundVisible
      modifies this, fragments
      ensures Valid() && State() == ScannedAfter(rules, Reverse(old(finished)), lines) && text == old(text)
      ensures forall k | 0 <= k < |fragments| :: fragments[k] in old(fragments) || fresh(fragments[k])
      ensures fragment == null || fresh(fragment)
    {
      var reversed := Reverse(lines);
      ghost var done := Reverse(finished);
      assert lines[|lines|..] == [];
      for i := 0 to |reversed|
        invariant Valid() && State() == ScannedAfter(rules, done, lines[|lines| - i..]) && text == old(text)
        invariant forall k | 0 <= k < |fragments| :: fragments[k] in old(fragments) || fresh(fragments[k])
        invariant fragment == null || fresh(fragment)
      {
        ScannedStep(rules, done, lines, |lines| - i - 1);
        ScanLine(reversed[i]);
      }
      assert lines[0..] == lines;
    }

    /** The scan and the end of `read`. */
    method ReadLines(lines: seq<string>)
      requires Valid() && fragment == null && !foundVisible
      modifies this, fragments
      ensures Valid() && fragment == null && finished == FragmentsAfter(rules, old(finished), lines)
    {
      ScanLines(lines);
      FinishFragment();
      ReverseFragments();
    }

    /** `self.fragments.reverse()` */
    method ReverseFragments()
      requires Valid() && fragment == null
      modifies `fragments, `finished
      ensures Valid() && finished == Reverse(old(finished))
    {
      fragments, finished := Reverse(fragments), Reverse(finished);
    }

    /** `read`, where `collapse` puts a quote header of several lines on one line. A message that was read
        before keeps its fragments. */
    method Read(collapse: string -> string)
      requires Valid() && fragment == null
      modifies this, fragments
      ensures Valid() && fragment == null
      ensures finished
           == FragmentsAfter(rules, old(finished), Spaced(Split(collapse(old(text)))))
    {
      BoundariesLines(collapse(text));
      foundVisible := false;
      text := collapse(text);
      text := SplitBoundaries(text);
      ReadLines(Split(text));
    }
  }

  /** A fragment that is closed joins the finished ones, those below it being hidden by a header. */
  lemma ClosedState(r: Rules, p: Piece, finished: seq<Piece>, foundVisible: bool)
    ensures
      var found := foundVisible && !p.headers;
      var below := if p.headers then HideAll(finished) else finished;
      Close(r, Scan(Some(p), Reverse(finished), foundVisible))
      == Scan(None, Reverse(below + [p.(hidden := !found && !Plain(r, p))]), found || Plain(r, p))
  {
    var found := foundVisible && !p.headers;
    ReverseHidden(finished);
    ReverseSnoc(if p.headers then HideAll(finished) else finished, p.(hidden := !found && !Plain(r, p)));
  }

  /** What scanning lines makes of fragments that were there before, the topmost of the text first. */
  function ScannedAfter(r: Rules, done: seq<Piece>, lines: seq<string>): (s: Scan)
    ensures s.open.Some? ==> s.open.value.lines != []
  {
    if lines == [] then Scan(None, done, false)
    else Take(r, Sign(r, ScannedAfter(r, done, lines[1..]), lines[0]), lines[0])
  }

  /** The fragments after reading lines: those of the lines, then those of an earlier reading in reverse,
      hidden when the lines hold a header. */
  function FragmentsAfter(r: Rules, before: seq<Piece>, lines: seq<string>): seq<Piece> {
    Close(r, ScannedAfter(r, Reverse(before), lines)).done
  }

  lemma {:induction false} ScannedFirst(r: Rules, lines: seq<string>)
    ensures ScannedAfter(r, [], lines) == Scanned(r, lines)
  {
    if lines != [] { ScannedFirst(r, lines[1..]); }
  }

  /** A message that was not read before has the fragments of its lines. */
  lemma FragmentsFirst(r: Rules, lines: seq<string>)
    ensures FragmentsAfter(r, [], lines) == Fragments(r, lines)
  {
    assert Reverse<Piece>([]) == [];
    ScannedFirst(r, lines);
  }

  /** The fragments show the pieces, in order. */
  ghost predicate Shows(fragments: seq<Fragment>, pieces: seq<Piece>)
    reads fragments
  {
    && |fragments| == |pieces|
    && forall i | 0 <= i < |fragments| :: fragments[i].Finished() && fragments[i].View() == pieces[i]
  }

  lemma ScannedStep(r: Rules, done: seq<Piece>, lines: seq<string>, i: nat)
    requires i < |lines|
    ensures ScannedAfter(r, done, lines[i..])
         == Take(r, Sign(r, ScannedAfter(r, done, lines[i + 1..]), lines[i]), lines[i])
  {
    assert lines[i..][0] == lines[i] && lines[i..][1..] == lines[i + 1..];
  }

  // ------------------------------------------------------------------ the visible text

  function Contents(r: Rules, pieces: seq<Piece>): (contents: seq<string>)
    ensures |contents| == |pieces|
  {
    seq(|pieces|, i requires 0 <= i < |pieces| => Strip(r.isSpace, Join(pieces[i].lines)))
  }

  /** The contents of the fragments that are not hidden. */
  method VisibleParts(r: Rules, fragments: seq<Fragment>, ghost pieces: seq<Piece>, ghost n: nat)
    returns (parts: seq<string>)
    requires Shows(fragments, pieces) && n <= |pieces|
    requires forall i | 0 <= i < |pieces| :: !pieces[i].hidden <==> i < n
    ensures parts == Contents(r, pieces[..n])
  {
    parts := [];
    for i := 0 to |fragments|
      invariant parts == Contents(r, pieces[..if i < n then i else n])
    {
      assert fragments[i].View() == pieces[i];
      if !fragments[i].hidden {
        parts := parts + [fragments[i].Content(r.isSpace)];
      }
    }
  }

  /** The lines that are scanned: those of the text without carriage returns, with what `collapse` makes of them,
      and an empty line above each boundary right below a line that is not empty. */
  function Scannable(collapse: string -> string, text: string): seq<string> {
    Spaced(Split(collapse(Join(Unix(Split(text))))))
  }

  /** Every line of a section is a line of the text that `collapse` gives, or empty. */
  lemma SectionLines(
      rules: Rules, collapse: string -> string, text: string, parts: seq<seq<string>>, i: nat, line: string)
    requires Sections(rules, parts, Scannable(collapse, text)) && i < |parts| && line in parts[i]
    ensures line == "" || line in Split(collapse(Join(Unix(Split(text)))))
  {
    InConcat(parts, line);
    SpacedLines(Split(collapse(Join(Unix(Split(text))))), line);
  }

  lemma PreparedLines(collapse: string -> string, text: string)
    ensures Split(SplitBoundaries(collapse(LineFeeds(text)))) == Scannable(collapse, text)
  {
    LineFeedsLines(text);
    JoinSplit(LineFeeds(text));
    BoundariesLines(collapse(LineFeeds(text)));
  }

  /** The reply is the one of those lines; there is one only, by `ReplyUnique`. */
  method StripEmailReplyQuotes(rules: Rules, collapse: string -> string, text: string) returns (reply: string)
    ensures IsReply(rules, Scannable(collapse, text), reply)
  {
    var message := new EmailMessage(rules, LineFeeds(text));
    message.Read(collapse);
    ghost var lines := Scannable(collapse, text);
    PreparedLines(collapse, text);
    BoundariesLines(collapse(LineFeeds(text)));
    VisibleExactly(rules, lines);
    ghost var pieces := Fragments(rules, lines);
    FragmentsFirst(rules, lines);
    var parts := VisibleParts(rules, message.fragments, pieces, VisibleCount(rules, pieces));
    FragmentsReply(rules, lines, pieces, parts);
    reply := Strip(rules.isSpace, Join(parts));
  }
}
