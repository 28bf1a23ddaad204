/** The string operations of the source: whitespace splitting and joining, line splitting and
    stripping, with the normal forms they produce. */
module Text {
  import opened Models

  /** The code points of whitespace, as inclusive ranges. */
  const SPACE_RANGES := [
    (0x09, 0x0D), (0x1C, 0x20), (0x85, 0x85), (0xA0, 0xA0), (0x1680, 0x1680), (0x2000, 0x200A),
    (0x2028, 0x2029), (0x202F, 0x202F), (0x205F, 0x205F), (0x3000, 0x3000)]

  /** The line boundaries of str.splitlines. */
  const BREAK_RANGES := [(0x0A, 0x0D), (0x1C, 0x1E), (0x85, 0x85), (0x2028, 0x2029)]

  predicate InRanges(n: int, ranges: seq<(int, int)>) {
    ranges != [] && (ranges[0].0 <= n <= ranges[0].1 || InRanges(n, ranges[1..]))
  }

  /** str.isspace for one character. */
  predicate IsSpace(c: char) {
    InRanges(c as int, SPACE_RANGES)
  }

  predicate IsBreak(c: char) {
    InRanges(c as int, BREAK_RANGES)
  }

  /** A range table holds a number exactly when one of its ranges does. */
  lemma {:induction false} InSomeRange(n: int, ranges: seq<(int, int)>)
    ensures InRanges(n, ranges) <==> exists i :: 0 <= i < |ranges| && ranges[i].0 <= n <= ranges[i].1
  {
    if ranges != [] {
      InSomeRange(n, ranges[1..]);
      if i :| 0 < i < |ranges| && ranges[i].0 <= n <= ranges[i].1 {
        assert ranges[1..][i - 1] == ranges[i];
      }
    }
  }

  /** The characters that str.isspace accepts. */
  lemma SpacesExactly(c: char)
    ensures IsSpace(c) <==> c as int in {
      0x09, 0x0A, 0x0B, 0x0C, 0x0D, 0x1C, 0x1D, 0x1E, 0x1F, 0x20, 0x85, 0xA0, 0x1680,
      0x2000, 0x2001, 0x2002, 0x2003, 0x2004, 0x2005, 0x2006, 0x2007, 0x2008, 0x2009, 0x200A,
      0x2028, 0x2029, 0x202F, 0x205F, 0x3000 }
  {
    InSomeRange(c as int, SPACE_RANGES);
    var r := SPACE_RANGES;
    assert |r| == 10 && r[0] == (0x09, 0x0D) && r[1] == (0x1C, 0x20) && r[2] == (0x85, 0x85) && r[3] == (0xA0, 0xA0);
    assert r[4] == (0x1680, 0x1680) && r[5] == (0x2000, 0x200A) && r[6] == (0x2028, 0x2029);
    assert r[7] == (0x202F, 0x202F) && r[8] == (0x205F, 0x205F) && r[9] == (0x3000, 0x3000);
  }

  /** The characters at which str.splitlines breaks. */
  lemma BreaksExactly(c: char)
    ensures IsBreak(c) <==> c as int in { 0x0A, 0x0B, 0x0C, 0x0D, 0x1C, 0x1D, 0x1E, 0x85, 0x2028, 0x2029 }
  {
    InSomeRange(c as int, BREAK_RANGES);
    var r := BREAK_RANGES;
    assert |r| == 4 && r[0] == (0x0A, 0x0D) && r[1] == (0x1C, 0x1E) && r[2] == (0x85, 0x85) && r[3] == (0x2028, 0x2029);
  }

  /** Every line boundary is whitespace; the characters the bridge writes itself are classified. */
  lemma SpaceFacts()
    ensures IsSpace(' ') && IsSpace('\n') && IsBreak('\n') && !IsBreak(' ') && !IsSpace('.')
    ensures forall c: char | IsBreak(c) :: IsSpace(c)
  {
    InSomeRange(' ' as int, SPACE_RANGES);
    InSomeRange('\n' as int, SPACE_RANGES);
    InSomeRange('\n' as int, BREAK_RANGES);
    InSomeRange(' ' as int, BREAK_RANGES);
    InSomeRange('.' as int, SPACE_RANGES);
    assert SPACE_RANGES[1] == (0x1C, 0x20) && SPACE_RANGES[0] == (0x09, 0x0D) && BREAK_RANGES[0] == (0x0A, 0x0D);
    forall c: char | IsBreak(c)
      ensures IsSpace(c)
    {
      InSomeRange(c as int, BREAK_RANGES);
      InSomeRange(c as int, SPACE_RANGES);
      var i :| 0 <= i < |BREAK_RANGES| && BREAK_RANGES[i].0 <= c as int <= BREAK_RANGES[i].1;
      var j := if i < 3 then i else 6;
      assert SPACE_RANGES[j].0 <= c as int <= SPACE_RANGES[j].1;
    }
  }

  predicate Plain(s: string) {
    forall i | 0 <= i < |s| :: !IsSpace(s[i])
  }

  function LStrip(s: string): (r: string)
    ensures r == "" || !IsSpace(r[0])
  {
    if s != "" && IsSpace(s[0]) then LStrip(s[1..]) else s
  }

  /** Only whitespace at the beginning goes. */
  lemma {:induction false} LStripIs(s: string) returns (n: nat)
    ensures n <= |s| && LStrip(s) == s[n..] && forall i | 0 <= i < n :: IsSpace(s[i])
  {
    n := 0;
    if s != "" && IsSpace(s[0]) {
      var m := LStripIs(s[1..]);
      n := m + 1;
      assert forall i | 1 <= i < n :: s[i] == s[1..][i - 1];
    }
  }

  function RStrip(s: string): (r: string)
    ensures r <= s
    ensures r == "" || !IsSpace(r[|r| - 1])
    ensures forall i | |r| <= i < |s| :: IsSpace(s[i])
  {
    if s != "" && IsSpace(s[|s| - 1]) then RStrip(s[..|s| - 1]) else s
  }

  function Strip(s: string): string {
    RStrip(LStrip(s))
  }

  /** The length of the leading run of characters that are not whitespace. */
  function WordLength(s: string): (n: nat)
    ensures n <= |s| && forall i | 0 <= i < n :: !IsSpace(s[i])
    ensures n < |s| ==> IsSpace(s[n])
  {
    if s == "" || IsSpace(s[0]) then 0 else 1 + WordLength(s[1..])
  }

  /** str.split with no argument. */
  function Words(s: string): seq<string>
    decreases |s|
  {
    if s == "" then []
    else if IsSpace(s[0]) then Words(s[1..])
    else [s[..WordLength(s)]] + Words(s[WordLength(s)..])
  }

  function Join(sep: string, parts: seq<string>): string {
    if parts == [] then ""
    else if |parts| == 1 then parts[0]
    else parts[0] + sep + Join(sep, parts[1..])
  }

  /** " ".join(text.strip().split()) */
  function Normalize(s: string): string {
    Join(" ", Words(Strip(s)))
  }

  /** Words separated by exactly one ASCII space each, and nothing else that is whitespace. */
  predicate IsNormal(s: string) {
    forall i {:trigger Separator(s, i)} | 0 <= i < |s| && IsSpace(s[i]) :: Separator(s, i)
  }

  predicate Separator(s: string, i: int)
    requires 0 <= i < |s|
  {
    s[i] == ' ' && 0 < i < |s| - 1 && !IsSpace(s[i - 1]) && !IsSpace(s[i + 1])
  }

  /** A normal text begins and ends with visible characters. */
  lemma NormalEnds(s: string)
    requires IsNormal(s) && s != ""
    ensures !IsSpace(s[0]) && !IsSpace(s[|s| - 1])
  {
    if IsSpace(s[0]) {
      SpaceInside(s, 0);
    }
    if IsSpace(s[|s| - 1]) {
      SpaceInside(s, |s| - 1);
    }
  }

  lemma SpaceInside(s: string, i: nat)
    requires IsNormal(s) && i < |s| && IsSpace(s[i])
    ensures Separator(s, i)
  {
    assert Separator(s, i);
  }

  predicate GoodWords(ws: seq<string>) {
    forall i | 0 <= i < |ws| :: ws[i] != "" && Plain(ws[i])
  }

  lemma {:induction false} WordsAreGood(s: string)
    ensures GoodWords(Words(s))
    decreases |s|
  {
    if s == "" {
    } else if IsSpace(s[0]) {
      WordsAreGood(s[1..]);
    } else {
      WordsAreGood(s[WordLength(s)..]);
    }
  }

  /** The first word of a text that starts with one, and what is left after the space. */
  lemma WordsCons(w: string, rest: string)
    requires w != "" && Plain(w)
    ensures Words(w) == [w]
    ensures Words(w + " " + rest) == [w] + Words(rest)
  {
    WordsFirst(w, w);
    WordsFirst(w + " " + rest, w);
    assert w[|w|..] == "";
    assert (w + " " + rest)[|w|..] == " " + rest && (" " + rest)[1..] == rest;
    SpaceFacts();
  }

  lemma WordsFirst(s: string, w: string)
    requires w != "" && Plain(w) && w <= s && (|w| < |s| ==> s[|w|] == ' ')
    ensures Words(s) == [w] + Words(s[|w|..])
  {
    FirstWordLength(s, w);
    WordsUnfold(s);
    assert s[..|w|] == w;
  }

  lemma WordsUnfold(s: string)
    requires WordLength(s) > 0
    ensures Words(s) == [s[..WordLength(s)]] + Words(s[WordLength(s)..])
  {
  }

  lemma FirstWordLength(s: string, w: string)
    requires Plain(w) && w <= s && (|w| < |s| ==> s[|w|] == ' ')
    ensures WordLength(s) == |w|
  {
    var m := WordLength(s);
    assert forall i | 0 <= i < |w| :: s[i] == w[i];
    if |w| < |s| {
      assert IsSpace(s[|w|]) by {
        SpaceFacts();
      }
    }
  }

  lemma NormalCons(w: string, tail: string)
    requires w != "" && Plain(w) && tail != "" && IsNormal(tail)
    ensures IsNormal(w + " " + tail)
  {
    var s := w + " " + tail;
    SpaceFacts();
    forall i | 0 <= i < |s| && IsSpace(s[i])
      ensures Separator(s, i)
    {
      if i <= |w| {
        assert s[|w| - 1] == w[|w| - 1] && s[|w| + 1] == tail[0];
        NormalEnds(tail);
      } else {
        assert Separator(tail, i - |w| - 1);
      }
    }
  }

  lemma NormalTail(s: string, n: nat)
    requires IsNormal(s) && n < |s| && IsSpace(s[n])
    ensures s[n] == ' ' && s[n + 1..] != "" && IsNormal(s[n + 1..])
  {
    assert Separator(s, n);
    var tail := s[n + 1..];
    forall i | 0 <= i < |tail| && IsSpace(tail[i])
      ensures Separator(tail, i)
    {
      var j := n + 1 + i;
      assert Separator(s, j);
      assert i > 0;
      assert tail[i - 1] == s[j - 1] && tail[i + 1] == s[j + 1];
    }
  }

  /** A normal text is its first word, and if there is more, a space and a normal text. */
  lemma NormalSplit(s: string)
    requires s != "" && IsNormal(s)
    ensures var n := WordLength(s);
      && n > 0
      && (n < |s| ==> s[n + 1..] != "" && IsNormal(s[n + 1..]) && s == s[..n] + " " + s[n + 1..])
  {
    var n := WordLength(s);
    NormalEnds(s);
    if n < |s| {
      NormalTail(s, n);
      SplitAtSpace(s, n);
    }
  }

  lemma SplitAtSpace(s: string, n: nat)
    requires n < |s| && s[n] == ' '
    ensures s == s[..n] + " " + s[n + 1..]
  {
  }

  lemma {:induction false} JoinIsNormal(ws: seq<string>)
    requires GoodWords(ws)
    ensures IsNormal(Join(" ", ws))
    ensures Words(Join(" ", ws)) == ws
    ensures ws != [] ==> Join(" ", ws) != ""
  {
    if ws != [] {
      WordsCons(ws[0], Join(" ", ws[1..]));
      if |ws| > 1 {
        JoinIsNormal(ws[1..]);
        NormalCons(ws[0], Join(" ", ws[1..]));
      }
    }
  }

  lemma {:induction false} NormalIsJoined(s: string)
    requires IsNormal(s)
    ensures Join(" ", Words(s)) == s
    ensures s != "" ==> Words(s) != []
    decreases |s|
  {
    if s != "" {
      var n := WordLength(s);
      NormalSplit(s);
      assert Plain(s[..n]);
      if n == |s| {
        assert s[..n] == s;
        WordsCons(s, "");
      } else {
        NormalIsJoined(s[n + 1..]);
        WordsCons(s[..n], s[n + 1..]);
        var ws := [s[..n]] + Words(s[n + 1..]);
        assert ws[1..] == Words(s[n + 1..]);
      }
    }
  }

  lemma {:induction false} WordsOfStrip(s: string)
    ensures Words(Strip(s)) == Words(s)
  {
    WordsOfLStrip(s);
    WordsOfRStrip(LStrip(s));
  }

  lemma {:induction false} WordsOfLStrip(s: string)
    ensures Words(LStrip(s)) == Words(s)
  {
    if s != "" && IsSpace(s[0]) {
      WordsOfLStrip(s[1..]);
    }
  }

  lemma {:induction false} WordsOfRStrip(s: string)
    ensures Words(RStrip(s)) == Words(s)
  {
    if s != "" && IsSpace(s[|s| - 1]) {
      WordsOfRStrip(s[..|s| - 1]);
      assert s == s[..|s| - 1] + [s[|s| - 1]];
      WordsBeforeSpace(s[..|s| - 1], s[|s| - 1]);
    }
  }

  lemma {:induction false} WordsBeforeSpace(s: string, c: char)
    requires IsSpace(c)
    ensures Words(s + [c]) == Words(s)
    decreases |s|
  {
    if s == "" {
    } else if IsSpace(s[0]) {
      assert (s + [c])[1..] == s[1..] + [c];
      WordsBeforeSpace(s[1..], c);
    } else {
      var n := WordLength(s);
      assert (s + [c])[..n] == s[..n] && (s + [c])[n..] == s[n..] + [c];
      assert WordLength(s + [c]) == n by {
        assert forall i | 0 <= i < |s| :: (s + [c])[i] == s[i];
        assert (s + [c])[|s|] == c;
      }
      WordsBeforeSpace(s[n..], c);
    }
  }

  /** Normalising yields a normal string with the same words. */
  lemma NormalizeIsNormal(s: string)
    ensures IsNormal(Normalize(s))
    ensures Words(Normalize(s)) == Words(s)
  {
    WordsOfStrip(s);
    WordsAreGood(s);
    JoinIsNormal(Words(s));
  }

  /** The fixed points of whitespace normalisation are exactly the normal strings. */
  lemma NormalizeFixedPoint(s: string)
    ensures Normalize(s) == s <==> IsNormal(s)
  {
    NormalizeIsNormal(s);
    WordsOfStrip(s);
    if IsNormal(s) {
      NormalIsJoined(s);
    }
  }

  /** Two texts normalise alike exactly when they have the same words. */
  lemma NormalizeSameWords(a: string, b: string)
    ensures Normalize(a) == Normalize(b) <==> Words(a) == Words(b)
  {
    NormalizeIsNormal(a);
    NormalizeIsNormal(b);
    WordsOfStrip(a);
    WordsOfStrip(b);
  }

  /** str.split(" "): every ASCII space separates, empty parts are kept. */
  function SplitSpaces(s: string): (parts: seq<string>)
    ensures parts != []
    decreases |s|
  {
    var n := SpaceIndex(s);
    if n == |s| then [s] else [s[..n]] + SplitSpaces(s[n + 1..])
  }

  function SpaceIndex(s: string): (n: nat)
    ensures n <= |s| && ' ' !in s[..n]
    ensures n < |s| ==> s[n] == ' '
  {
    if s == "" || s[0] == ' ' then 0 else
      var m := SpaceIndex(s[1..]);
      assert s[..1 + m] == [s[0]] + s[1..][..m];
      1 + m
  }

  // Lines

  /** The index of the first line boundary, or the length when there is none. */
  function LineLength(s: string): (n: nat)
    ensures n <= |s| && forall i | 0 <= i < n :: !IsBreak(s[i])
    ensures n < |s| ==> IsBreak(s[n])
  {
    if s == "" || IsBreak(s[0]) then 0 else 1 + LineLength(s[1..])
  }

  /** What follows the boundary at index `n`; a carriage return and line feed count as one. */
  function AfterBreak(s: string, n: nat): (rest: string)
    requires n < |s|
    ensures |rest| < |s| - n
    ensures exists k | n < k <= |s| :: rest == s[k..]
  {
    if s[n] == '\r' && n + 1 < |s| && s[n + 1] == '\n' then s[n + 2..] else s[n + 1..]
  }

  /** str.splitlines, each line stripped on the right. */
  function Lines(s: string): seq<string>
    decreases |s|
  {
    if s == "" then []
    else
      var n := LineLength(s);
      if n == |s| then [RStrip(s)] else [RStrip(s[..n])] + Lines(AfterBreak(s, n))
  }

  /** "\n".join(line.rstrip() for line in text.strip().splitlines()) */
  function Tidy(s: string): string {
    Join("\n", Lines(Strip(s)))
  }

  /** Ends in a visible character, breaks lines only with line feeds, and has no other whitespace
      before one. */
  predicate IsTidyTail(s: string) {
    && s != "" && !IsSpace(s[|s| - 1])
    && forall i {:trigger TidyBreak(s, i)} | 0 <= i < |s| && IsBreak(s[i]) :: TidyBreak(s, i)
  }

  predicate TidyBreak(s: string, i: int)
    requires 0 <= i < |s|
  {
    s[i] == '\n' && (0 < i && IsSpace(s[i - 1]) ==> s[i - 1] == '\n')
  }

  predicate IsTidy(s: string) {
    s == "" || (IsTidyTail(s) && !IsSpace(s[0]))
  }

  lemma TidyCons(line: string, tail: string)
    requires line == "" || !IsSpace(line[|line| - 1])
    requires forall i | 0 <= i < |line| :: !IsBreak(line[i])
    requires IsTidyTail(tail)
    ensures IsTidyTail(line + "\n" + tail)
  {
    var s := line + "\n" + tail;
    assert s[|s| - 1] == tail[|tail| - 1];
    forall i | 0 <= i < |s| && IsBreak(s[i])
      ensures TidyBreak(s, i)
    {
      if i == |line| {
        assert i > 0 ==> s[i - 1] == line[i - 1];
      } else if i > |line| {
        assert TidyBreak(tail, i - |line| - 1);
      }
    }
  }

  lemma {:induction false} LinesAreTidy(s: string)
    requires s != "" && !IsSpace(s[|s| - 1])
    ensures Lines(s) != [] && IsTidyTail(Join("\n", Lines(s)))
    ensures !IsSpace(s[0]) ==> !IsSpace(Join("\n", Lines(s))[0])
    decreases |s|
  {
    SpaceFacts();
    var n := LineLength(s);
    if n == |s| {
      assert RStrip(s) == s;
    } else {
      var rest := AfterBreak(s, n);
      var line := RStrip(s[..n]);
      assert rest != "" && rest[|rest| - 1] == s[|s| - 1];
      LinesAreTidy(rest);
      TidyCons(line, Join("\n", Lines(rest)));
      assert ([line] + Lines(rest))[1..] == Lines(rest);
      if !IsSpace(s[0]) {
        assert line != "" && line[0] == s[0];
      }
    }
  }

  lemma {:induction false} TidyTailIsJoined(s: string)
    requires IsTidyTail(s)
    ensures Lines(s) != [] && Join("\n", Lines(s)) == s
    decreases |s|
  {
    SpaceFacts();
    var n := LineLength(s);
    if n == |s| {
      assert RStrip(s) == s;
    } else {
      assert TidyBreak(s, n);
      var tail := s[n + 1..];
      forall i | 0 <= i < |tail| && IsBreak(tail[i])
        ensures TidyBreak(tail, i)
      {
        assert TidyBreak(s, n + 1 + i);
      }
      TidyTailIsJoined(tail);
      assert RStrip(s[..n]) == s[..n];
      assert ([s[..n]] + Lines(tail))[1..] == Lines(tail);
      assert s == s[..n] + "\n" + tail;
    }
  }

  lemma StripKeepsEnds(s: string)
    ensures Strip(s) == "" || (!IsSpace(Strip(s)[0]) && !IsSpace(Strip(s)[|Strip(s)| - 1]))
    ensures s == "" || (!IsSpace(s[0]) && !IsSpace(s[|s| - 1])) ==> Strip(s) == s
  {
  }

  /** The tidy strings are exactly what trimming lines produces, and its fixed points. */
  lemma TidyIsTidy(s: string)
    ensures IsTidy(Tidy(s))
    ensures Tidy(s) == s <==> IsTidy(s)
  {
    StripKeepsEnds(s);
    var t := Strip(s);
    if t != "" {
      LinesAreTidy(t);
    }
    if IsTidy(s) && s != "" {
      TidyTailIsJoined(s);
    }
  }

  // What tidying keeps

  lemma {:induction false} WordsSplit(a: string, c: char, b: string)
    requires IsSpace(c)
    ensures Words(a + [c] + b) == Words(a) + Words(b)
    decreases |a|
  {
    var s := a + [c] + b;
    if a == "" {
      assert s[1..] == b;
    } else if IsSpace(a[0]) {
      assert s[1..] == a[1..] + [c] + b;
      WordsSplit(a[1..], c, b);
    } else {
      var n := WordLength(a);
      SameFirstWord(a, c, b);
      assert s[..n] == a[..n] && s[n..] == a[n..] + [c] + b;
      WordsSplit(a[n..], c, b);
      Associate([a[..n]], Words(a[n..]), Words(b));
    }
  }

  lemma SameFirstWord(a: string, c: char, b: string)
    requires IsSpace(c) && a != ""
    ensures WordLength(a + [c] + b) == WordLength(a)
  {
    var s := a + [c] + b;
    assert s[|a|] == c && forall i | 0 <= i < |a| :: s[i] == a[i];
  }

  /** Splitting into lines, stripping them and joining them again keeps every word. */
  lemma {:induction false} LinesKeepWords(s: string)
    ensures Words(Join("\n", Lines(s))) == Words(s)
    decreases |s|
  {
    if s != "" {
      var n := LineLength(s);
      SpaceFacts();
      if n == |s| {
        WordsOfRStrip(s);
        assert Join("\n", [RStrip(s)]) == RStrip(s);
      } else {
        var rest := AfterBreak(s, n);
        LinesKeepWords(rest);
        BreakSplitsWords(s, n);
        AfterBreakWords(s, n);
        WordsOfRStrip(s[..n]);
        JoinedWords(RStrip(s[..n]), Lines(rest));
      }
    }
  }

  lemma BreakIsSpace(c: char)
    requires IsBreak(c)
    ensures IsSpace(c)
  {
    SpaceFacts();
  }

  lemma LeadingSpace(s: string)
    requires s != "" && IsSpace(s[0])
    ensures Words(s) == Words(s[1..])
  {
  }

  lemma BreakSplitsWords(s: string, n: nat)
    requires n < |s| && IsBreak(s[n])
    ensures Words(s) == Words(s[..n]) + Words(s[n + 1..])
  {
    var a, c, b := s[..n], s[n], s[n + 1..];
    BreakIsSpace(c);
    WordsSplit(a, c, b);
    CutAround(s, n);
  }

  lemma CutAround(s: string, n: nat)
    requires n < |s|
    ensures s[..n] + [s[n]] + s[n + 1..] == s
  {
  }

  lemma AfterBreakWords(s: string, n: nat)
    requires n < |s|
    ensures Words(AfterBreak(s, n)) == Words(s[n + 1..])
  {
    if n + 1 < |s| && s[n + 1] == '\n' {
      SpaceFacts();
      var after := s[n + 1..];
      assert after[0] == '\n' && after[1..] == s[n + 2..];
      LeadingSpace(after);
    }
  }

  lemma JoinedWords(line: string, lines: seq<string>)
    ensures Words(Join("\n", [line] + lines)) == Words(line) + Words(Join("\n", lines))
  {
    SpaceFacts();
    assert ([line] + lines)[1..] == lines;
    if lines == [] {
      assert Words("") == [];
    } else {
      WordsSplit(line, '\n', Join("\n", lines));
      assert line + "\n" + Join("\n", lines) == line + ['\n'] + Join("\n", lines);
    }
  }

  /** Tidying keeps every word of a text, and a text of one line as it is but for its ends. */
  lemma TidyKeepsText(s: string)
    ensures Words(Tidy(s)) == Words(s)
    ensures (forall i | 0 <= i < |s| :: !IsBreak(s[i])) ==> Tidy(s) == Strip(s)
  {
    WordsOfStrip(s);
    LinesKeepWords(Strip(s));
    if forall i | 0 <= i < |s| :: !IsBreak(s[i]) {
      StripOfLine(s);
      OneLine(Strip(s));
    }
  }

  lemma StripOfLine(s: string)
    requires forall i | 0 <= i < |s| :: !IsBreak(s[i])
    ensures forall i | 0 <= i < |Strip(s)| :: !IsBreak(Strip(s)[i])
  {
    var n := LStripIs(s);
    var t := Strip(s);
    assert forall i | 0 <= i < |t| :: t[i] == s[n + i];
  }

  lemma OneLine(t: string)
    requires forall i | 0 <= i < |t| :: !IsBreak(t[i])
    requires t == "" || !IsSpace(t[|t| - 1])
    ensures Join("\n", Lines(t)) == t
  {
    if t != "" {
      assert LineLength(t) == |t|;
      assert RStrip(t) == t;
    }
  }
}
