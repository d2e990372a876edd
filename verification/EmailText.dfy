/** The text of an email before it is scanned: line ends, and the empty line above a signature boundary. */
module EmailText {
  import opened Text

  /** `text.replace("\r\n", "\n")` */
  function LineFeeds(text: string): string {
    if |text| < 2 then text
    else if text[..2] == "\r\n" then "\n" + LineFeeds(text[2..])
    else text[..1] + LineFeeds(text[1..])
  }

  predicate Rule(text: string, n: nat) {
    if n == 0 then true else text != "" && (text[0] == '_' || text[0] == '-') && Rule(text[1..], n - 1)
  }

  /** A line feed, at most one space, and seven dashes or underscores. */
  predicate BoundaryFollows(text: string) {
    text != "" && text[0] == '\n'
    && (Rule(text[1..], 7) || (|text| > 1 && text[1] == ' ' && Rule(text[2..], 7)))
  }

  /** A character right above a signature boundary gets an empty line. */
  function SplitBoundaries(text: string): string {
    if text == "" then ""
    else
      [text[0]] + (if text[0] != '\n' && BoundaryFollows(text[1..]) then "\n" else "")
      + SplitBoundaries(text[1..])
  }

  // ------------------------------------------------------------------ what becomes of the lines

  predicate Dashes(s: string) {
    |s| >= 7 && forall k | 0 <= k < 7 :: s[k] == '_' || s[k] == '-'
  }

  /** A line that starts with at most one space and seven dashes or underscores. */
  predicate IsBoundary(line: string) {
    Dashes(line) || (line != "" && line[0] == ' ' && Dashes(line[1..]))
  }

  /** Lines below a line: each boundary right below a line that is not empty gets an empty line above it. */
  function SpacedBelow(above: string, lines: seq<string>): seq<string>
    decreases |lines|
  {
    if lines == [] then []
    else
      (if above != "" && IsBoundary(lines[0]) then ["", lines[0]] else [lines[0]]) + SpacedBelow(lines[0], lines[1..])
  }

  function Spaced(lines: seq<string>): seq<string> {
    if lines == [] then [] else [lines[0]] + SpacedBelow(lines[0], lines[1..])
  }

  /** A line without the carriage return at its end. */
  function Chopped(line: string): string {
    if line != "" && line[|line| - 1] == '\r' then line[..|line| - 1] else line
  }

  /** Every line that a line feed ends, without a carriage return before it. */
  function Unix(lines: seq<string>): (r: seq<string>)
    ensures |r| == |lines|
    ensures forall i | 0 <= i < |lines| :: r[i] == if i < |lines| - 1 then Chopped(lines[i]) else lines[i]
  {
    seq(|lines|, i requires 0 <= i < |lines| => if i < |lines| - 1 then Chopped(lines[i]) else lines[i])
  }

  lemma SplitBreak(rest: string)
    ensures Split("\n" + rest) == [""] + Split(rest)
  {
    assert ("\n" + rest)[1..] == rest;
  }

  lemma SplitLonger(c: char, rest: string)
    requires c != '\n'
    ensures Split([c] + rest) == [[c] + Split(rest)[0]] + Split(rest)[1..]
  {
    assert ([c] + rest)[1..] == rest;
  }

  lemma {:induction false} SpacedBelowLines(above: string, lines: seq<string>, line: string)
    ensures line in lines ==> line in SpacedBelow(above, lines)
    ensures line in SpacedBelow(above, lines) ==> line == "" || line in lines
    decreases |lines|
  {
    if lines != [] {
      SpacedBelowLines(lines[0], lines[1..], line);
      assert line in lines <==> line == lines[0] || line in lines[1..];
    }
  }

  /** Nothing but empty lines is added, and nothing is lost. */
  lemma SpacedLines(lines: seq<string>, line: string)
    ensures line in lines ==> line in Spaced(lines)
    ensures line in Spaced(lines) ==> line == "" || line in lines
  {
    if lines != [] {
      SpacedBelowLines(lines[0], lines[1..], line);
      assert line in lines <==> line == lines[0] || line in lines[1..];
    }
  }

  // ------------------------------------------------------------------ line ends

  lemma UnixFirst(line: string, rest: seq<string>)
    requires rest != []
    ensures Unix([line] + rest) == [Chopped(line)] + Unix(rest)
  {
    var all := [line] + rest;
    var x, y := Unix(all), [Chopped(line)] + Unix(rest);
    forall i | 0 <= i < |all| ensures x[i] == y[i] {
      if i > 0 { assert all[i] == rest[i - 1] && y[i] == Unix(rest)[i - 1]; }
    }
    assert x == y;
  }

  lemma ChoppedLonger(c: char, line: string)
    requires line == "" ==> c != '\r'
    ensures Chopped([c] + line) == [c] + Chopped(line)
  {
    var longer := [c] + line;
    assert longer[|longer| - 1] == if line == "" then c else line[|line| - 1];
    if line != "" { assert longer[..|longer| - 1] == [c] + line[..|line| - 1]; }
  }

  /** A character in front of the first line, when the line does not become one of a carriage return only. */
  lemma UnixLonger(c: char, lines: seq<string>)
    requires lines != [] && (lines[0] == "" && |lines| > 1 ==> c != '\r')
    ensures Unix([[c] + lines[0]] + lines[1..]) == [[c] + Unix(lines)[0]] + Unix(lines)[1..]
  {
    var line, rest := lines[0], lines[1..];
    assert lines == [line] + rest;
    if rest != [] {
      UnixFirst([c] + line, rest);
      UnixFirst(line, rest);
      ChoppedLonger(c, line);
    }
  }

  /** The text is cut at every line feed, with the carriage return before it if there is one. */
  lemma {:induction false} LineFeedsLines(text: string)
    ensures Split(LineFeeds(text)) == Unix(Split(text))
  {
    if |text| < 2 {
      if text != "" { assert text[1..] == ""; }
    } else if text[..2] == "\r\n" {
      var rest := text[2..];
      LineFeedsLines(rest);
      assert text == ['\r'] + ("\n" + rest);
      SplitLonger('\r', "\n" + rest);
      SplitBreak(rest);
      SplitBreak(LineFeeds(rest));
      CarriageReturn(rest);
    } else {
      var c, rest := text[0], text[1..];
      LineFeedsLines(rest);
      assert text == [c] + rest && text[..2] == [c, rest[0]] && text[..1] == [c];
      if c == '\n' {
        SplitBreak(rest);
        SplitBreak(LineFeeds(rest));
        UnixFirst("", Split(rest));
      } else {
        SplitLonger(c, rest);
        SplitLonger(c, LineFeeds(rest));
        UnixLonger(c, Split(rest));
      }
    }
  }

  lemma CarriageReturn(rest: string)
    ensures Unix([['\r'] + ""] + Split(rest)) == [""] + Unix(Split(rest))
  {
    assert ['\r'] + "" == "\r";
    UnixFirst("\r", Split(rest));
  }

  // ------------------------------------------------------------------ boundaries

  lemma {:induction false} RuleLine(text: string, n: nat)
    ensures
      var line := Split(text)[0];
      Rule(text, n) <==> |line| >= n && forall k | 0 <= k < n :: line[k] == '_' || line[k] == '-'
  {
    if n > 0 && text != "" && text[0] != '\n' {
      var c, rest := text[0], Split(text[1..])[0];
      RuleLine(text[1..], n - 1);
      assert text == [c] + text[1..];
      SplitLonger(c, text[1..]);
      LongerDashes(c, rest, n);
    }
  }

  lemma LongerDashes(c: char, rest: string, n: nat)
    requires n > 0
    ensures
      var line := [c] + rest;
      (|line| >= n && forall k | 0 <= k < n :: line[k] == '_' || line[k] == '-')
      <==> (c == '_' || c == '-') && |rest| >= n - 1 && forall k | 0 <= k < n - 1 :: rest[k] == '_' || rest[k] == '-'
  {
    var line := [c] + rest;
    if |line| >= n && forall k | 0 <= k < n :: line[k] == '_' || line[k] == '-' {
      assert line[0] == c;
      forall k | 0 <= k < n - 1 ensures rest[k] == '_' || rest[k] == '-' { assert line[k + 1] == rest[k]; }
    }
  }

  lemma BoundaryLine(text: string)
    requires text != "" && text[0] == '\n'
    ensures BoundaryFollows(text) <==> IsBoundary(Split(text[1..])[0])
  {
    var rest := text[1..];
    RuleLine(rest, 7);
    if rest != "" && rest[0] == ' ' {
      RuleLine(rest[1..], 7);
      assert text[2..] == rest[1..] && Split(rest)[0][1..] == Split(rest[1..])[0];
    }
  }

  lemma SpacedEmpty(lines: seq<string>)
    requires lines != []
    ensures Spaced([""] + lines) == [""] + Spaced(lines)
  {
    assert ([""] + lines)[1..] == lines;
  }

  /** A character before the first line, or a line of its own before a boundary. */
  lemma SpacedLonger(c: char, lines: seq<string>)
    requires lines != []
    ensures
      var longer := [[c] + lines[0]] + lines[1..];
      if lines[0] == "" && |lines| > 1 && IsBoundary(lines[1]) then Spaced(longer) == [[c]] + Spaced(lines)
      else Spaced(longer) == [[c] + Spaced(lines)[0]] + Spaced(lines)[1..]
  {
    var longer := [[c] + lines[0]] + lines[1..];
    assert longer[1..] == lines[1..];
    if lines[0] == "" && |lines| > 1 && IsBoundary(lines[1]) {
      assert [c] + "" == [c];
      var below := SpacedBelow(lines[1], lines[1..][1..]);
      assert Spaced(longer) == [[c]] + (["", lines[1]] + below);
      assert Spaced(lines) == [""] + ([lines[1]] + below);
    }
  }

  /** Each boundary right below a line that is not empty gets an empty line above it, and nothing else changes. */
  lemma {:induction false} BoundariesLines(text: string)
    ensures Split(SplitBoundaries(text)) == Spaced(Split(text))
  {
    if text != "" {
      var c, rest := text[0], text[1..];
      var lines, after := Split(rest), SplitBoundaries(rest);
      BoundariesLines(rest);
      assert text == [c] + rest;
      if c == '\n' {
        SpacedEmpty(lines);
        SplitBreak(rest);
        SplitBreak(after);
        assert SplitBoundaries(text) == "\n" + after;
      } else {
        SplitLonger(c, rest);
        SpacedLonger(c, lines);
        BoundaryKept(c, rest);
      }
    }
  }

  lemma FollowsLines(text: string)
    ensures
      var lines := Split(text);
      BoundaryFollows(text) <==> lines[0] == "" && |lines| > 1 && IsBoundary(lines[1])
  {
    if text != "" {
      var rest := text[1..];
      assert text == [text[0]] + rest;
      if text[0] == '\n' {
        BoundaryLine(text);
        SplitBreak(rest);
      } else {
        SplitLonger(text[0], rest);
      }
    }
  }

  lemma SplitAfter(c: char, below: string)
    requires c != '\n'
    ensures Split([c] + ("\n" + below)) == [[c]] + Split(below)
  {
    SplitLonger(c, "\n" + below);
    SplitBreak(below);
    assert [c] + "" == [c];
  }

  lemma BoundaryKept(c: char, rest: string)
    requires c != '\n'
    ensures
      var after, lines := Split(SplitBoundaries(rest)), Split(rest);
      Split(SplitBoundaries([c] + rest))
      == if lines[0] == "" && |lines| > 1 && IsBoundary(lines[1]) then [[c]] + after
         else [[c] + after[0]] + after[1..]
  {
    var below := SplitBoundaries(rest);
    FollowsLines(rest);
    BoundariesFirst(c, rest, below);
    if BoundaryFollows(rest) { SplitAfter(c, below); } else { SplitLonger(c, below); }
  }

  lemma BoundariesFirst(c: char, rest: string, below: string)
    requires c != '\n' && below == SplitBoundaries(rest)
    ensures SplitBoundaries([c] + rest) == if BoundaryFollows(rest) then [c] + ("\n" + below) else [c] + below
  {
    assert ([c] + rest)[1..] == rest;
  }
}
