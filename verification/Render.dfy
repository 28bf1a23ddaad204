/** Rendering of forwarded messages within a byte limit, in both directions. */
module Render {
  import opened Models
  import opened Utf8
  import opened Text

  datatype Rendered = Rendered(text: Option<string>, truncated: bool)

  const ELLIPSIS := "..."
  const TELEGRAM_SUFFIX := "... truncado"

  function Appended(output: string, word: string): string {
    if output == "" then word else output + " " + word
  }

  /** The words kept after `output`: as many as fit, stopping at the first that does not. */
  function Greedy(words: seq<string>, output: string, budget: int): string {
    if words == [] || Size(Appended(output, words[0])) > budget then output
    else Greedy(words[1..], Appended(output, words[0]), budget)
  }

  /** What is kept before the ellipsis. */
  function Kept(value: string, budget: int): string {
    var kept := Greedy(SplitSpaces(value), "", budget);
    RStrip(if kept == "" then RStrip(Truncate(value, budget)) else kept)
  }

  function TruncatedWords(value: string, maxBytes: int): Option<string> {
    if maxBytes < 4 || Kept(value, maxBytes - 3) == "" then None
    else Some(Kept(value, maxBytes - 3) + ELLIPSIS)
  }

  method TruncateUtf8Words(value: string, maxBytes: int) returns (r: Option<string>)
    ensures r == TruncatedWords(value, maxBytes)
  {
    var ellipsisBytes := Size(ELLIPSIS);
    EllipsisSize();
    if maxBytes < ellipsisBytes + 1 {
      return None;
    }
    var budget := maxBytes - ellipsisBytes;
    var words := SplitSpaces(value);
    var output := "";
    var i := 0;
    while i < |words|
      invariant i <= |words|
      invariant Greedy(words[i..], output, budget) == Greedy(words, "", budget)
    {
      var candidate := Appended(output, words[i]);
      assert words[i..][1..] == words[i + 1..];
      if Size(candidate) > budget {
        break;
      }
      output := candidate;
      i := i + 1;
    }
    if output == "" {
      output := RStrip(Truncate(value, budget));
    }
    output := RStrip(output);
    return if output == "" then None else Some(output + ELLIPSIS);
  }

  function TruncatedWithSuffix(value: string, maxBytes: int, suffix: string): Option<string> {
    if maxBytes < Size(suffix) + 1 then None
    else
      var output := RStrip(Truncate(value, maxBytes - Size(suffix)));
      if output == "" then None else Some(output + suffix)
  }

  function RenderMeshcore(text: string, prefix: string, maxBytes: int): Rendered {
    var normalized := Normalize(text);
    if normalized == "" then Rendered(None, false)
    else if Size(prefix + normalized) <= maxBytes then Rendered(Some(prefix + normalized), false)
    else Rendered(TruncatedWords(prefix + normalized, maxBytes), true)
  }

  function RenderTelegram(text: string, prefix: string, maxBytes: int): Rendered {
    var normalized := Normalize(text);
    if normalized == "" then Rendered(None, false)
    else if Size(prefix + normalized) <= maxBytes then Rendered(Some(prefix + normalized), false)
    else Rendered(TruncatedWithSuffix(prefix + normalized, maxBytes, TELEGRAM_SUFFIX), true)
  }

  lemma EllipsisSize()
    ensures Size(ELLIPSIS) == 3
  {
    assert EncodeChar('.') == [0x2E];
    assert ELLIPSIS[1..] == ".." && ".."[1..] == ".";
    assert Encode(".") == [0x2E];
    assert Encode("..") == [0x2E, 0x2E];
  }

  // Greedy and optimal word truncation

  /** A nonempty leading part of `value` that ends at the end of a word. */
  predicate WholeWords(value: string, p: string) {
    p != "" && p <= value && (|p| < |value| ==> value[|p|] == ' ')
  }

  lemma PrefixSize(value: string, p: string, q: string)
    requires p <= value && q <= value && |p| <= |q|
    ensures Size(p) <= Size(q)
  {
    assert value[..|p|] == p && value[..|q|] == q;
    SizeMonotone(value, |p|, |q|);
  }

  /** `p` is the longest whole-word prefix within the budget that extends `output`. */
  ghost predicate LongestRun(value: string, output: string, p: string, budget: int) {
    && (p == "" || (WholeWords(value, p) && Size(p) <= budget))
    && |output| <= |p|
    && forall q :: WholeWords(value, q) && |p| < |q| ==> Size(q) > budget
  }

  lemma GreedyUnfold(output: string, rest: string, budget: int)
    ensures var n := SpaceIndex(rest);
      var candidate := Appended(output, rest[..n]);
      Greedy(SplitSpaces(rest), output, budget) ==
        if Size(candidate) > budget then output
        else if n == |rest| then candidate
        else Greedy(SplitSpaces(rest[n + 1..]), candidate, budget)
  {
    var n := SpaceIndex(rest);
    var words := SplitSpaces(rest);
    assert words[0] == rest[..n];
    if n < |rest| {
      assert words[1..] == SplitSpaces(rest[n + 1..]);
    }
  }

  lemma StopIsLongest(output: string, rest: string, budget: int)
    requires rest != "" && SpaceIndex(rest) > 0
    requires output == "" || Size(output) <= budget
    requires Size(Appended(output, rest[..SpaceIndex(rest)])) > budget
    ensures LongestRun(Appended(output, rest), output, output, budget)
  {
    var value := Appended(output, rest);
    var candidate := Appended(output, rest[..SpaceIndex(rest)]);
    assert candidate <= value;
    forall q | WholeWords(value, q) && |output| < |q|
      ensures Size(q) > budget
    {
      NextWordEnd(output, rest, q);
      PrefixSize(value, candidate, q);
    }
  }

  lemma RunWeaken(value: string, output: string, candidate: string, p: string, budget: int)
    requires LongestRun(value, candidate, p, budget) && |output| <= |candidate|
    ensures LongestRun(value, output, p, budget)
  {
  }

  lemma LastWordIsLongest(output: string, rest: string, budget: int)
    requires rest != ""
    requires Size(Appended(output, rest)) <= budget
    ensures LongestRun(Appended(output, rest), output, Appended(output, rest), budget)
  {
  }

  /** The greedy loop on the rest of a normal text keeps the longest run of whole words. */
  lemma {:induction false} GreedyIsLongest(output: string, rest: string, budget: int)
    requires rest != "" && IsNormal(rest)
    requires output == "" || Size(output) <= budget
    ensures LongestRun(Appended(output, rest), output, Greedy(SplitSpaces(rest), output, budget), budget)
    decreases |rest|
  {
    var n := SpaceIndex(rest);
    var candidate := Appended(output, rest[..n]);
    FirstIsNotSpace(rest);
    GreedyUnfold(output, rest, budget);
    if Size(candidate) > budget {
      StopIsLongest(output, rest, budget);
    } else if n == |rest| {
      assert rest[..n] == rest;
      LastWordIsLongest(output, rest, budget);
    } else {
      var tail := rest[n + 1..];
      TailAfterSpace(rest);
      AppendedSplit(output, rest, n);
      GreedyIsLongest(candidate, tail, budget);
      RunWeaken(Appended(output, rest), output, candidate, Greedy(SplitSpaces(tail), candidate, budget), budget);
    }
  }

  lemma AppendedSplit(output: string, rest: string, n: nat)
    requires 0 < n < |rest| && rest[n] == ' '
    ensures Appended(output, rest) == Appended(Appended(output, rest[..n]), rest[n + 1..])
  {
    assert rest == rest[..n] + " " + rest[n + 1..];
    if output != "" {
      assert output + " " + rest == (output + " " + rest[..n]) + " " + rest[n + 1..];
    }
  }

  lemma FirstIsNotSpace(rest: string)
    requires rest != "" && IsNormal(rest)
    ensures SpaceIndex(rest) > 0
  {
    SpaceFacts();
    NormalEnds(rest);
  }

  lemma TailAfterSpace(rest: string)
    requires IsNormal(rest) && SpaceIndex(rest) < |rest|
    ensures rest[SpaceIndex(rest) + 1..] != "" && IsNormal(rest[SpaceIndex(rest) + 1..])
  {
    SpaceFacts();
    NormalTail(rest, SpaceIndex(rest));
  }

  /** After `output`, whole words can end no earlier than its next word does. */
  lemma NextWordEnd(output: string, rest: string, q: string)
    requires WholeWords(Appended(output, rest), q) && |output| < |q|
    ensures |Appended(output, rest[..SpaceIndex(rest)])| <= |q|
  {
    var value := Appended(output, rest);
    var n := SpaceIndex(rest);
    var off := if output == "" then 0 else |output| + 1;
    assert forall k | off <= k < off + n :: value[k] == rest[..n][k - off];
  }

  /** `p` is the longest nonempty whole-word prefix within the budget, or, when there is none, the
      longest nonempty prefix within it. */
  ghost predicate LongestCut(value: string, p: string, budget: int) {
    && p != "" && p <= value && Size(p) <= budget
    && (if SomeWordFits(value, budget) then LongestWords(value, p, budget) else LongestPrefix(value, p, budget))
  }

  ghost predicate SomeWordFits(value: string, budget: int) {
    exists q :: WholeWords(value, q) && Size(q) <= budget
  }

  ghost predicate LongestWords(value: string, p: string, budget: int) {
    WholeWords(value, p) && forall q :: WholeWords(value, q) && Size(q) <= budget ==> |q| <= |p|
  }

  ghost predicate LongestPrefix(value: string, p: string, budget: int) {
    forall q :: q <= value && Size(q) <= budget ==> |q| <= |p|
  }

  lemma FirstWordTooLong(value: string, budget: int)
    requires value != "" && IsNormal(value) && budget >= 1
    requires forall q :: WholeWords(value, q) ==> Size(q) > budget
    ensures var t := Truncate(value, budget);
      && Plain(t) && RStrip(t) == t && IsNormal(t + ELLIPSIS)
      && (t == "" <==> Size(value[..1]) > budget)
      && (t != "" ==> LongestCut(value, t, budget))
  {
    var t := Truncate(value, budget);
    TruncateIsOptimal(value, budget);
    forall i | 0 <= i < |t|
      ensures !IsSpace(t[i])
    {
      if IsSpace(value[i]) {
        assert Separator(value, i);
        assert WholeWords(value, value[..i]);
        PrefixSize(value, value[..i], t);
      }
    }
    SpaceFacts();
    assert Plain(t + ELLIPSIS);
    if t != "" {
      PrefixSize(value, value[..1], t);
      forall q | q <= value && Size(q) <= budget
        ensures |q| <= |t|
      {
        assert value[..|q|] == q;
      }
    }
  }

  lemma WholeWordsFit(value: string, kept: string, budget: int)
    requires LongestRun(value, "", kept, budget) && kept != "" && IsNormal(value)
    ensures LongestCut(value, kept, budget) && RStrip(kept) == kept
    ensures Size(value[..1]) <= budget && IsNormal(kept + ELLIPSIS)
  {
    WholeWordsAreNormal(value, kept);
    PrefixSize(value, value[..1], kept);
  }

  lemma KeptIsLongest(value: string, budget: int)
    requires IsNormal(value) && value != "" && budget >= 1
    ensures Kept(value, budget) == "" <==> Size(value[..1]) > budget
    ensures Kept(value, budget) != "" ==> LongestCut(value, Kept(value, budget), budget)
    ensures IsNormal(Kept(value, budget) + ELLIPSIS)
  {
    var kept := Greedy(SplitSpaces(value), "", budget);
    GreedyIsLongest("", value, budget);
    if kept == "" {
      FirstWordTooLong(value, budget);
    } else {
      WholeWordsFit(value, kept, budget);
    }
  }

  /** Over the limit, a normal text is cut after the longest run of whole words that leaves room
      for the ellipsis; when not even the first word does, after the longest run of characters. */
  lemma WordTruncationIsOptimal(value: string, maxBytes: int)
    requires IsNormal(value) && value != "" && Size(value) > maxBytes
    ensures TruncatedWords(value, maxBytes).None? <==> maxBytes < 4 || Size(value[..1]) > maxBytes - 3
    ensures TruncatedWords(value, maxBytes).Some? ==>
      var p := Kept(value, maxBytes - 3);
      TruncatedWords(value, maxBytes) == Some(p + ELLIPSIS) && LongestCut(value, p, maxBytes - 3)
  {
    if maxBytes >= 4 {
      KeptIsLongest(value, maxBytes - 3);
    }
    CutIsOptimal(value, maxBytes, Kept(value, maxBytes - 3), TruncatedWords(value, maxBytes));
  }

  lemma CutIsOptimal(value: string, maxBytes: int, kept: string, r: Option<string>)
    requires value != ""
    requires r == if maxBytes < 4 || kept == "" then None else Some(kept + ELLIPSIS)
    requires maxBytes >= 4 ==> (kept == "" <==> Size(value[..1]) > maxBytes - 3)
    requires maxBytes >= 4 && kept != "" ==> LongestCut(value, kept, maxBytes - 3)
    ensures r.None? <==> maxBytes < 4 || Size(value[..1]) > maxBytes - 3
    ensures r.Some? ==> r == Some(kept + ELLIPSIS) && LongestCut(value, kept, maxBytes - 3)
  {
  }

  lemma WholeWordsAreNormal(value: string, p: string)
    requires IsNormal(value) && WholeWords(value, p)
    ensures IsNormal(p) && !IsSpace(p[|p| - 1])
    ensures IsNormal(p + ELLIPSIS)
  {
    SpaceFacts();
    if IsSpace(p[|p| - 1]) {
      SpaceInside(value, |p| - 1);
      assert false;
    }
    var e := p + ELLIPSIS;
    forall i | 0 <= i < |e| && IsSpace(e[i])
      ensures i < |p| - 1 && Separator(e, i) && Separator(p, i)
    {
      if i < |p| {
        assert Separator(value, i);
      }
    }
  }

  /** Renderings stay within the byte limit, in both directions. */
  lemma RenderedFits(text: string, prefix: string, maxBytes: int)
    ensures var r := RenderMeshcore(text, prefix, maxBytes).text; r.Some? ==> Size(r.value) <= maxBytes
    ensures var r := RenderTelegram(text, prefix, maxBytes).text; r.Some? ==> Size(r.value) <= maxBytes
  {
    MeshcoreFits(text, prefix, maxBytes);
    TelegramFits(text, prefix, maxBytes);
  }

  lemma MeshcoreFits(text: string, prefix: string, maxBytes: int)
    ensures var r := RenderMeshcore(text, prefix, maxBytes).text; r.Some? ==> Size(r.value) <= maxBytes
  {
    WordsFit(prefix + Normalize(text), maxBytes);
  }

  lemma TelegramFits(text: string, prefix: string, maxBytes: int)
    ensures var r := RenderTelegram(text, prefix, maxBytes).text; r.Some? ==> Size(r.value) <= maxBytes
  {
    SuffixFits(prefix + Normalize(text), maxBytes, TELEGRAM_SUFFIX);
  }

  lemma WordsFit(value: string, maxBytes: int)
    ensures var r := TruncatedWords(value, maxBytes); r.Some? ==> Size(r.value) <= maxBytes
  {
    if maxBytes >= 4 {
      var budget := maxBytes - 3;
      KeptFits(value, budget);
      SizeConcat(Kept(value, budget), ELLIPSIS);
      EllipsisSize();
    }
  }

  lemma KeptFits(value: string, budget: int)
    requires budget >= 0
    ensures Size(Kept(value, budget)) <= budget
  {
    var kept := Greedy(SplitSpaces(value), "", budget);
    GreedyFits(SplitSpaces(value), "", budget);
    TruncateIsOptimal(value, budget);
    StrippedFits(Truncate(value, budget));
    StrippedFits(if kept == "" then RStrip(Truncate(value, budget)) else kept);
  }

  lemma SuffixFits(value: string, maxBytes: int, suffix: string)
    ensures var r := TruncatedWithSuffix(value, maxBytes, suffix); r.Some? ==> Size(r.value) <= maxBytes
  {
    if maxBytes > Size(suffix) {
      var cut := Truncate(value, maxBytes - Size(suffix));
      TruncateIsOptimal(value, maxBytes - Size(suffix));
      StrippedFits(cut);
      SizeConcat(RStrip(cut), suffix);
    }
  }

  lemma {:induction false} GreedyFits(words: seq<string>, output: string, budget: int)
    requires Size(output) <= budget
    ensures Size(Greedy(words, output, budget)) <= budget
  {
    if words != [] && Size(Appended(output, words[0])) <= budget {
      GreedyFits(words[1..], Appended(output, words[0]), budget);
    }
  }

  lemma StrippedFits(s: string)
    ensures Size(RStrip(s)) <= Size(s)
  {
    PrefixSize(s, RStrip(s), s);
  }

  // What is rendered, told without the functions that render it

  /** The prefix and the text with its whitespace normalised. */
  function Whole(text: string, prefix: string): string {
    prefix + Normalize(text)
  }

  /** The longest leading part within the budget. */
  ghost predicate LongestFit(value: string, cut: string, budget: int) {
    cut <= value && Size(cut) <= budget && LongestPrefix(value, cut, budget)
  }

  /** The visible part of a text: what is left without the whitespace at its end. */
  predicate VisiblePart(s: string, kept: string) {
    && kept <= s && (kept != "" ==> !IsSpace(kept[|kept| - 1]))
    && forall i | |kept| <= i < |s| :: IsSpace(s[i])
  }

  lemma VisiblePartIsStripped(s: string, kept: string)
    requires VisiblePart(s, kept)
    ensures kept == RStrip(s)
  {
    var r := RStrip(s);
    assert forall i | 0 <= i < |r| :: r[i] == s[i];
    assert forall i | 0 <= i < |kept| :: kept[i] == s[i];
    assert |kept| == |r|;
  }

  lemma LongestFitIsTruncated(value: string, cut: string, budget: int)
    requires budget >= 0 && LongestFit(value, cut, budget)
    ensures cut == Truncate(value, budget)
  {
    TruncateIsOptimal(value, budget);
    assert value[..|cut|] == cut && value[..|Truncate(value, budget)|] == Truncate(value, budget);
  }

  /** A text without words is never forwarded; one that fits goes out whole, in both directions. */
  lemma FittingGoesOutWhole(text: string, prefix: string, maxBytes: int)
    ensures Words(text) == [] ==>
      RenderMeshcore(text, prefix, maxBytes) == RenderTelegram(text, prefix, maxBytes) == Rendered(None, false)
    ensures Words(text) != [] && Size(Whole(text, prefix)) <= maxBytes ==>
      RenderMeshcore(text, prefix, maxBytes) == RenderTelegram(text, prefix, maxBytes)
        == Rendered(Some(Whole(text, prefix)), false)
  {
    EmptyWithoutWords(text);
  }

  lemma EmptyWithoutWords(text: string)
    ensures Normalize(text) == "" <==> Words(text) == []
  {
    NormalizeIsNormal(text);
    assert Words("") == [];
    NormalIsJoined(Normalize(text));
    assert Join(" ", []) == "";
  }

  /** Over its limit a text goes to Telegram as the visible part of its longest fitting prefix, with
      the suffix; with room for the suffix, it does not go at all exactly when nothing visible fits. */
  lemma TelegramCutIsLongest(text: string, prefix: string, maxBytes: int, cut: string, kept: string)
    ensures Words(text) != [] && Size(Whole(text, prefix)) > maxBytes > Size(TELEGRAM_SUFFIX) ==>
      (LongestFit(Whole(text, prefix), cut, maxBytes - Size(TELEGRAM_SUFFIX)) && VisiblePart(cut, kept) ==>
        RenderTelegram(text, prefix, maxBytes)
          == Rendered(if kept == "" then None else Some(kept + TELEGRAM_SUFFIX), true))
  {
    EmptyWithoutWords(text);
    if maxBytes > Size(TELEGRAM_SUFFIX)
      && LongestFit(Whole(text, prefix), cut, maxBytes - Size(TELEGRAM_SUFFIX)) && VisiblePart(cut, kept) {
      LongestFitIsTruncated(Whole(text, prefix), cut, maxBytes - Size(TELEGRAM_SUFFIX));
      VisiblePartIsStripped(cut, kept);
    }
  }

  lemma TelegramHasNoRoom(text: string, prefix: string, maxBytes: int)
    ensures Size(Whole(text, prefix)) > maxBytes && maxBytes <= Size(TELEGRAM_SUFFIX) ==>
      RenderTelegram(text, prefix, maxBytes).text == None
  {
  }

  /** What may go to Telegram for a text. */
  ghost predicate GoesToTelegram(text: string, prefix: string, maxBytes: int, out: string) {
    && Words(text) != []
    && if Size(Whole(text, prefix)) <= maxBytes then out == Whole(text, prefix)
       else exists cut, kept :: CutForTelegram(text, prefix, maxBytes, out, cut, kept)
  }

  ghost predicate CutForTelegram(text: string, prefix: string, maxBytes: int, out: string, cut: string, kept: string) {
    && LongestFit(Whole(text, prefix), cut, maxBytes - Size(TELEGRAM_SUFFIX))
    && VisiblePart(cut, kept) && kept != "" && out == kept + TELEGRAM_SUFFIX
  }

  lemma TelegramGetsTheText(text: string, prefix: string, maxBytes: int)
    ensures var r := RenderTelegram(text, prefix, maxBytes).text;
      r.Some? ==> GoesToTelegram(text, prefix, maxBytes, r.value)
  {
    FittingGoesOutWhole(text, prefix, maxBytes);
    var r := RenderTelegram(text, prefix, maxBytes).text;
    var whole, budget := Whole(text, prefix), maxBytes - Size(TELEGRAM_SUFFIX);
    if r.Some? && Size(whole) > maxBytes {
      TelegramHasNoRoom(text, prefix, maxBytes);
      var cut, kept := TelegramCut(text, prefix, maxBytes);
    }
  }

  lemma TelegramCut(text: string, prefix: string, maxBytes: int) returns (cut: string, kept: string)
    ensures var r := RenderTelegram(text, prefix, maxBytes).text;
      Words(text) != [] && Size(Whole(text, prefix)) > maxBytes > Size(TELEGRAM_SUFFIX) && r.Some? ==>
        CutForTelegram(text, prefix, maxBytes, r.value, cut, kept)
  {
    if maxBytes <= Size(TELEGRAM_SUFFIX) {
      return "", "";
    }
    cut := LongestFitOf(Whole(text, prefix), maxBytes - Size(TELEGRAM_SUFFIX));
    kept := VisiblePartOf(cut);
    TelegramCutIsLongest(text, prefix, maxBytes, cut, kept);
  }

  lemma VisiblePartOf(s: string) returns (kept: string)
    ensures VisiblePart(s, kept)
  {
    kept := RStrip(s);
  }

  lemma LongestFitOf(value: string, budget: nat) returns (cut: string)
    ensures LongestFit(value, cut, budget)
  {
    cut := Truncate(value, budget);
    TruncateIsOptimal(value, budget);
    forall q | q <= value && Size(q) <= budget
      ensures |q| <= |cut|
    {
      assert value[..|q|] == q;
    }
  }

  // Echo suppression: rendered texts are fixed points of normalisation

  /** The condition on a prefix: it does not start with whitespace, and all its whitespace is
      single ASCII spaces. One trailing space is allowed. */
  predicate CleanPrefix(prefix: string) {
    forall i {:trigger PrefixSeparator(prefix, i)} | 0 <= i < |prefix| && IsSpace(prefix[i]) ::
      PrefixSeparator(prefix, i)
  }

  predicate PrefixSeparator(prefix: string, i: int)
    requires 0 <= i < |prefix|
  {
    prefix[i] == ' ' && 0 < i && !IsSpace(prefix[i - 1])
  }

  /** A clean prefix is exactly what keeps a normalised text normal. */
  lemma CleanPrefixKeepsNormal(prefix: string, t: string)
    requires t != "" && IsNormal(t)
    ensures IsNormal(prefix + t) <==> CleanPrefix(prefix)
  {
    var s := prefix + t;
    NormalEnds(t);
    if CleanPrefix(prefix) {
      forall i | 0 <= i < |s| && IsSpace(s[i])
        ensures Separator(s, i)
      {
        if i < |prefix| {
          assert PrefixSeparator(prefix, i);
          assert i + 1 < |prefix| && IsSpace(prefix[i + 1]) ==> PrefixSeparator(prefix, i + 1);
        } else {
          assert Separator(t, i - |prefix|);
        }
      }
    }
    if IsNormal(s) {
      forall i | 0 <= i < |prefix| && IsSpace(prefix[i])
        ensures PrefixSeparator(prefix, i)
      {
        assert Separator(s, i);
        assert s[i - 1] == prefix[i - 1];
      }
    }
  }

  /** With a clean prefix every rendering for MeshCore, whole, cut between words or cut inside its
      first word, is a fixed point of the normalisation that incoming texts go through. */
  lemma RenderedIsFixedPoint(text: string, prefix: string, maxBytes: int)
    requires CleanPrefix(prefix)
    requires RenderMeshcore(text, prefix, maxBytes).text.Some?
    ensures var r := RenderMeshcore(text, prefix, maxBytes).text.value; r != "" && Normalize(r) == r
  {
    var t := Normalize(text);
    var value := prefix + t;
    var r := RenderMeshcore(text, prefix, maxBytes).text.value;
    NormalizeIsNormal(text);
    CleanPrefixKeepsNormal(prefix, t);
    if Size(value) > maxBytes {
      KeptIsLongest(value, maxBytes - 3);
    }
    NormalizeFixedPoint(r);
  }

  /** Some rendering fails to be a fixed point exactly when the prefix is not clean. */
  lemma CleanPrefixIsNeeded(prefix: string)
    ensures CleanPrefix(prefix) <==>
      forall text, maxBytes ::
        var r := RenderMeshcore(text, prefix, maxBytes).text;
        r.Some? ==> Normalize(r.value) == r.value
  {
    if CleanPrefix(prefix) {
      forall text, maxBytes | RenderMeshcore(text, prefix, maxBytes).text.Some?
        ensures var r := RenderMeshcore(text, prefix, maxBytes).text.value; Normalize(r) == r
      {
        RenderedIsFixedPoint(text, prefix, maxBytes);
      }
    } else {
      SpaceFacts();
      var text := ".";
      NormalizeFixedPoint(text);
      CleanPrefixKeepsNormal(prefix, text);
      NormalizeFixedPoint(prefix + text);
      var r := RenderMeshcore(text, prefix, Size(prefix + text)).text;
      assert r == Some(prefix + text);
    }
  }

  /** What may go to MeshCore for a text, under a clean prefix. */
  ghost predicate GoesToMeshcore(text: string, prefix: string, maxBytes: int, out: string) {
    && Words(text) != []
    && if Size(Whole(text, prefix)) <= maxBytes then out == Whole(text, prefix)
       else CleanPrefix(prefix) ==>
         |out| > 3 && out[|out| - 3..] == ELLIPSIS && LongestCut(Whole(text, prefix), out[..|out| - 3], maxBytes - 3)
  }

  /** A text that fits goes to MeshCore whole; over the limit, and under a clean prefix, what goes out
      is the longest run of whole words, or of characters when not even the first word fits, before
      an ellipsis; and nothing does exactly when not one character has room. */
  lemma MeshcoreGetsTheText(text: string, prefix: string, maxBytes: int)
    ensures var r := RenderMeshcore(text, prefix, maxBytes).text;
      && (r.Some? ==> GoesToMeshcore(text, prefix, maxBytes, r.value))
      && (CleanPrefix(prefix) && Words(text) != [] && Size(Whole(text, prefix)) > maxBytes ==>
            (r.None? <==> maxBytes < 4 || Size(Whole(text, prefix)[..1]) > maxBytes - 3))
  {
    FittingGoesOutWhole(text, prefix, maxBytes);
    var r := RenderMeshcore(text, prefix, maxBytes).text;
    if CleanPrefix(prefix) && Words(text) != [] && Size(Whole(text, prefix)) > maxBytes {
      MeshcoreCutIsOptimal(text, prefix, maxBytes);
    }
  }

  lemma MeshcoreCutIsOptimal(text: string, prefix: string, maxBytes: int)
    requires CleanPrefix(prefix) && Words(text) != [] && Size(Whole(text, prefix)) > maxBytes
    ensures var r := RenderMeshcore(text, prefix, maxBytes).text;
      && (r.None? <==> maxBytes < 4 || Size(Whole(text, prefix)[..1]) > maxBytes - 3)
      && (r.Some? ==> GoesToMeshcore(text, prefix, maxBytes, r.value))
  {
    EmptyWithoutWords(text);
    NormalizeIsNormal(text);
    CleanPrefixKeepsNormal(prefix, Normalize(text));
    var whole := Whole(text, prefix);
    WordTruncationIsOptimal(whole, maxBytes);
    var r := TruncatedWords(whole, maxBytes);
    assert RenderMeshcore(text, prefix, maxBytes).text == r;
    if r.Some? {
      var p := Kept(whole, maxBytes - 3);
      assert r.value[|p|..] == ELLIPSIS && r.value[..|p|] == p && |r.value| == |p| + 3;
    }
  }
}
