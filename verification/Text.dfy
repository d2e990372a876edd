/** Parts and whitespace, as `str.split`, `str.join` and `str.strip` treat them; the separator is a line
    feed unless it is given. */
module Text {
  import opened Sequences

  /** `text.split(sep)`: never empty, and no part holds the separator. */
  function Split(text: string, sep: char := '\n'): (parts: seq<string>)
    ensures parts != []
    ensures forall part :: part in parts ==> sep !in part
  {
    if text == "" then [""]
    else
      var rest := Split(text[1..], sep);
      if text[0] == sep then [""] + rest
      else
        assert rest[0] in rest && forall part :: part in rest[1..] ==> part in rest;
        [[text[0]] + rest[0]] + rest[1..]
  }

  /** `sep.join(parts)` */
  function Join(parts: seq<string>, sep: char := '\n'): string {
    if parts == [] then ""
    else if |parts| == 1 then parts[0]
    else parts[0] + [sep] + Join(parts[1..], sep)
  }

  lemma {:induction false} JoinSplit(text: string, sep: char := '\n')
    ensures Join(Split(text, sep), sep) == text
  {
    if text != "" {
      var rest := Split(text[1..], sep);
      JoinSplit(text[1..], sep);
      var parts := Split(text, sep);
      if text[0] == sep {
        assert parts[1..] == rest;
      } else {
        assert parts[1..] == rest[1..] && parts[0] == [text[0]] + rest[0];
      }
    }
  }

  lemma {:induction false} SplitPart(part: string, sep: char)
    requires sep !in part
    ensures Split(part, sep) == [part]
  {
    if part != "" {
      SplitPart(part[1..], sep);
      assert part[0] in part && [part[0]] + part[1..] == part;
    }
  }

  lemma {:induction false} SplitFirst(part: string, rest: string, sep: char)
    requires sep !in part
    ensures Split(part + [sep] + rest, sep) == [part] + Split(rest, sep)
  {
    var text := part + [sep] + rest;
    if part == "" {
      assert text[1..] == rest;
    } else {
      SplitFirst(part[1..], rest, sep);
      assert text[1..] == part[1..] + [sep] + rest;
      assert part[0] in part && [part[0]] + part[1..] == part && text[0] == part[0];
    }
  }

  lemma {:induction false} SplitJoin(parts: seq<string>, sep: char)
    requires parts != [] && forall part :: part in parts ==> sep !in part
    ensures Split(Join(parts, sep), sep) == parts
  {
    if |parts| == 1 {
      SplitPart(parts[0], sep);
    } else {
      SplitJoin(parts[1..], sep);
      SplitFirst(parts[0], Join(parts[1..], sep), sep);
    }
  }

  function JoinEach(parts: seq<seq<string>>): (texts: seq<string>)
    ensures |texts| == |parts|
  {
    if parts == [] then [] else [Join(parts[0])] + JoinEach(parts[1..])
  }

  lemma {:induction false} JoinAppend(a: seq<string>, b: seq<string>)
    requires a != [] && b != []
    ensures Join(a + b) == Join(a) + "\n" + Join(b)
  {
    if |a| == 1 {
      assert (a + b)[1..] == b;
    } else {
      JoinAppend(a[1..], b);
      assert (a + b)[1..] == a[1..] + b;
    }
  }

  /** Joining groups of lines and then the groups is joining the lines. */
  lemma {:induction false} JoinGroups(parts: seq<seq<string>>)
    requires forall part :: part in parts ==> part != []
    ensures Join(JoinEach(parts)) == Join(Concat(parts))
  {
    if parts != [] { ConcatFirst(parts); }
    if |parts| == 1 {
      assert parts[1..] == [] && parts[0] + [] == parts[0];
    } else if parts != [] {
      var rest := parts[1..];
      assert forall part :: part in rest ==> part in parts;
      JoinGroups(rest);
      assert parts[0] in parts && rest[0] in rest;
      ConcatFirst(rest);
      JoinAppend(parts[0], Concat(rest));
      assert JoinEach(parts)[1..] == JoinEach(rest);
    }
  }

  predicate IsDigit(c: char) {
    '0' <= c <= '9'
  }

  predicate AllSpace(isSpace: char -> bool, s: string) {
    forall i | 0 <= i < |s| :: isSpace(s[i])
  }

  /** `s.strip()` */
  function Strip(isSpace: char -> bool, s: string): (r: string)
    ensures r == "" <==> AllSpace(isSpace, s)
    ensures r != "" ==> !isSpace(r[0]) && !isSpace(r[|r| - 1])
  {
    if s == "" then ""
    else if isSpace(s[0]) then
      assert AllSpace(isSpace, s) <==> AllSpace(isSpace, s[1..]) by { AllSpaceFirst(isSpace, s); }
      Strip(isSpace, s[1..])
    else if isSpace(s[|s| - 1]) then Strip(isSpace, s[..|s| - 1])
    else s
  }

  /** The text from i to j, with spaces before and after. */
  predicate Inside(isSpace: char -> bool, s: string, r: string, i: nat, j: nat) {
    i <= j <= |s| && r == s[i..j] && AllSpace(isSpace, s[..i]) && AllSpace(isSpace, s[j..])
  }

  lemma InsideFront(isSpace: char -> bool, s: string, r: string, i: nat, j: nat)
    requires s != "" && isSpace(s[0]) && Inside(isSpace, s[1..], r, i, j)
    ensures Inside(isSpace, s, r, i + 1, j + 1)
  {
    assert s[..i + 1] == [s[0]] + s[1..][..i] && s[j + 1..] == s[1..][j..] && s[i + 1..j + 1] == s[1..][i..j];
  }

  lemma InsideBack(isSpace: char -> bool, s: string, r: string, i: nat, j: nat)
    requires s != "" && isSpace(s[|s| - 1]) && Inside(isSpace, s[..|s| - 1], r, i, j)
    ensures Inside(isSpace, s, r, i, j)
  {
    var init := s[..|s| - 1];
    assert s[i..j] == init[i..j] && s[..i] == init[..i] && s[j..] == init[j..] + [s[|s| - 1]];
  }

  /** What is stripped are the spaces around the text. */
  lemma {:induction false} StripExact(isSpace: char -> bool, s: string)
    ensures exists i, j :: Inside(isSpace, s, Strip(isSpace, s), i, j)
  {
    var r := Strip(isSpace, s);
    if s != "" && isSpace(s[0]) {
      StripExact(isSpace, s[1..]);
      var i, j :| Inside(isSpace, s[1..], r, i, j);
      InsideFront(isSpace, s, r, i, j);
    } else if s != "" && isSpace(s[|s| - 1]) {
      StripExact(isSpace, s[..|s| - 1]);
      var i, j :| Inside(isSpace, s[..|s| - 1], r, i, j);
      InsideBack(isSpace, s, r, i, j);
    } else {
      assert s[0..|s|] == s && Inside(isSpace, s, r, 0, |s|);
    }
  }

  lemma AllSpaceFirst(isSpace: char -> bool, s: string)
    requires s != "" && isSpace(s[0])
    ensures AllSpace(isSpace, s) <==> AllSpace(isSpace, s[1..])
  {
    if AllSpace(isSpace, s[1..]) {
      forall i | 0 <= i < |s| ensures isSpace(s[i]) {
        if i > 0 { assert s[i] == s[1..][i - 1]; }
      }
    }
  }
}
