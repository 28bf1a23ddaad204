/** The two layers that trim multi-line replies to a radio byte budget: the plugins' `fit_lora`
    and the bridge's own response trimming. They differ only in the marker they append. */
module LoraTrim {
  import opened Utf8
  import opened Text

  const FIT_MARKER := "\n..."
  const TRIM_SUFFIX := "\n... pide detalle"

  /** What both layers compute, `fit_lora` with FIT_MARKER and the bridge with TRIM_SUFFIX: the tidy
      text if it fits, else a cut text with the marker. */
  function Trimmed(text: string, maxBytes: int, marker: string): string {
    var tidy := Tidy(text);
    if Size(tidy) <= maxBytes then tidy
    else if maxBytes <= Size(marker) then Truncate(tidy, maxBytes)
    else RStrip(Truncate(tidy, maxBytes - Size(marker))) + marker
  }

  /** How often the loop that shrinks an oversized body runs. */
  function Rounds(body: string, marker: string, maxBytes: int): nat
    decreases |body|
  {
    if body == "" || Size(body + marker) <= maxBytes then 0
    else 1 + Rounds(RStrip(body[..|body| - 1]), marker, maxBytes)
  }

  /** The source's algorithm with its loop; `rounds` counts how often the loop body runs. */
  method TrimToBudget(text: string, maxBytes: int, marker: string) returns (r: string, rounds: nat)
    ensures r == Trimmed(text, maxBytes, marker)
    ensures rounds == 0
    ensures 0 <= maxBytes ==> Size(r) <= maxBytes
  {
    var normalized := Tidy(text);
    rounds := 0;
    if Size(normalized) <= maxBytes {
      r := normalized;
    } else if maxBytes <= Size(marker) {
      r := Truncate(normalized, maxBytes);
    } else {
      var cut := RStrip(Truncate(normalized, maxBytes - Size(marker)));
      var body := cut;
      while body != "" && Size(body + marker) > maxBytes
        invariant rounds + Rounds(body, marker, maxBytes) == Rounds(cut, marker, maxBytes)
        invariant rounds == 0 ==> body == cut
        decreases |body|
      {
        body := RStrip(body[..|body| - 1]);
        rounds := rounds + 1;
      }
      r := body + marker;
    }
    TrimmedFits(text, maxBytes, marker);
  }

  lemma TrimmedFits(text: string, maxBytes: int, marker: string)
    ensures 0 <= maxBytes ==> Size(Trimmed(text, maxBytes, marker)) <= maxBytes
    ensures Size(marker) < maxBytes ==>
      Size(RStrip(Truncate(Tidy(text), maxBytes - Size(marker))) + marker) <= maxBytes
  {
    var tidy := Tidy(text);
    TruncateIsOptimal(tidy, maxBytes);
    if Size(marker) < maxBytes {
      MarkedFits(tidy, maxBytes - Size(marker), marker);
    }
  }

  lemma MarkedFits(tidy: string, budget: nat, marker: string)
    ensures Size(RStrip(Truncate(tidy, budget)) + marker) <= budget + Size(marker)
  {
    var cut := Truncate(tidy, budget);
    TruncateIsOptimal(tidy, budget);
    assert cut[..|cut|] == cut && cut[..|RStrip(cut)|] == RStrip(cut);
    SizeMonotone(cut, |RStrip(cut)|, |cut|);
    SizeConcat(RStrip(cut), marker);
  }

  /** Only one-byte characters: the size is the length. */
  lemma {:induction false} AsciiSize(s: string)
    requires forall i | 0 <= i < |s| :: s[i] as int < 0x80
    ensures Size(s) == |s|
  {
    if s != "" {
      AsciiSize(s[1..]);
    }
  }

  lemma MarkerSizes()
    ensures Size(FIT_MARKER) == 4 && Size(TRIM_SUFFIX) == 17
  {
    AsciiSize(FIT_MARKER);
    AsciiSize(TRIM_SUFFIX);
  }

  /** A marker: a line feed, then one visible line. */
  predicate IsMarker(marker: string) {
    && |marker| >= 2 && marker[0] == '\n' && !IsSpace(marker[1]) && !IsSpace(marker[|marker| - 1])
    && forall i | 0 < i < |marker| :: !IsBreak(marker[i])
  }

  /** A cut of a tidy text with a marker is tidy as long as something of the text is left. */
  lemma CutIsTidy(tidy: string, cut: string, marker: string)
    requires IsTidy(tidy) && cut <= tidy && cut != "" && IsMarker(marker)
    ensures RStrip(cut) != "" && IsTidy(RStrip(cut) + marker)
  {
    var body := RStrip(cut);
    assert cut[0] == tidy[0];
    assert body != "" && body[0] == tidy[0];
    var s := body + marker;
    assert s[|s| - 1] == marker[|marker| - 1];
    forall i | 0 <= i < |s| && IsBreak(s[i])
      ensures TidyBreak(s, i)
    {
      if i < |body| {
        assert TidyBreak(tidy, i);
      } else {
        assert s[i] == marker[i - |body|];
      }
    }
  }

  lemma MarkersAreMarkers()
    ensures IsMarker(FIT_MARKER) && IsMarker(TRIM_SUFFIX)
  {
    forall c: char | c == '.' || c == ' ' || 'a' <= c <= 'z'
      ensures !IsBreak(c) && (c != ' ' ==> !IsSpace(c))
    {
      InSomeRange(c as int, BREAK_RANGES);
      InSomeRange(c as int, SPACE_RANGES);
    }
  }

  /** With room for the marker and one character of any width, the result is tidy. */
  lemma TrimmedIsTidy(text: string, maxBytes: int, marker: string)
    requires IsMarker(marker) && Size(marker) + 4 <= maxBytes
    ensures IsTidy(Trimmed(text, maxBytes, marker))
  {
    var tidy := Tidy(text);
    TidyIsTidy(text);
    if Size(tidy) > maxBytes {
      var cut := Truncate(tidy, maxBytes - Size(marker));
      TruncateIsOptimal(tidy, maxBytes - Size(marker));
      SizeAtLeastLength(tidy[..1]);
      CutIsTidy(tidy, cut, marker);
    }
  }

  lemma TidyAndFittingIsKept(s: string, maxBytes: int, marker: string)
    requires IsTidy(s) && Size(s) <= maxBytes
    ensures Trimmed(s, maxBytes, marker) == s
  {
    TidyIsTidy(s);
  }

  /** A budget of one byte leaves at most one character, which is visible. */
  lemma TinyBudget(text: string, maxBytes: int, marker: string)
    requires 0 <= maxBytes <= 1 && marker != ""
    ensures IsTidy(Trimmed(text, maxBytes, marker))
  {
    var tidy := Tidy(text);
    var cut := Truncate(tidy, maxBytes);
    TidyIsTidy(text);
    SizeAtLeastLength(marker);
    TruncateIsOptimal(tidy, maxBytes);
    SizeAtLeastLength(cut);
    SpaceFacts();
    if cut != "" {
      assert cut[0] == tidy[0] && IsTidy(cut);
    }
  }

  lemma Repeated(c: char, n: nat)
    requires c == 'a' || c == '\U{1F600}'
    ensures var s := seq(n, _ => c); IsTidy(s) && Size(s) == n * |EncodeChar(c)|
  {
    InSomeRange(c as int, BREAK_RANGES);
    InSomeRange(c as int, SPACE_RANGES);
    RepeatedSize(c, n);
  }

  lemma {:induction false} RepeatedSize(c: char, n: nat)
    ensures Size(seq(n, _ => c)) == n * |EncodeChar(c)|
  {
    if n > 0 {
      RepeatedSize(c, n - 1);
      assert seq(n, _ => c)[1..] == seq(n - 1, _ => c);
    }
  }

  lemma AsciiTruncate(s: string, n: nat)
    requires forall i | 0 <= i < |s| :: s[i] as int < 0x80
    requires n <= |s|
    ensures Truncate(s, n) == s[..n]
  {
    TruncateIsFitting(s, n);
    AsciiSize(s[..n]);
    FittingIsLongest(s, n, n);
    AsciiSize(s[..Fitting(s, n)]);
    FittingIsLongest(s, n, Fitting(s, n));
  }

  lemma TidyDropsTrailingSpace(s: string)
    requires s != "" && IsTidy(s)
    ensures Tidy(s + " ") == s && !IsTidy(s + " ")
  {
    SpaceFacts();
    TidyIsTidy(s);
    assert (s + " ")[..|s|] == s;
    assert LStrip(s + " ") == s + " ";
  }

  lemma TidyDropsLineFeed(marker: string)
    requires IsMarker(marker)
    ensures Tidy(marker) == marker[1..] && !IsTidy(marker)
  {
    SpaceFacts();
    var line := marker[1..];
    assert forall i | 0 <= i < |line| :: line[i] == marker[i + 1];
    assert IsTidy(line);
    TidyIsTidy(line);
    assert LStrip(marker) == line;
  }

  /** A budget that cuts just after a space leaves the space. */
  lemma UntidyNarrow(maxBytes: nat, marker: string) returns (text: string)
    requires 2 <= maxBytes <= Size(marker)
    ensures var r := Trimmed(text, maxBytes, marker); !IsTidy(r) && Size(Tidy(r)) <= maxBytes
  {
    var word := seq(maxBytes - 1, _ => 'a');
    text := word + " b";
    NarrowWord(maxBytes - 1);
    CutAfterSpace(word, maxBytes, marker);
    TidyDropsTrailingSpace(word);
  }

  lemma NarrowWord(n: nat)
    ensures var word := seq(n, _ => 'a');
      IsTidy(word) && Size(word) == n && forall i | 0 <= i < n :: word[i] as int < 0x80
  {
    Repeated('a', n);
    AsciiSize(seq(n, _ => 'a'));
  }

  lemma CutAfterSpace(word: string, maxBytes: nat, marker: string)
    requires IsTidy(word) && |word| == maxBytes - 1 && 2 <= maxBytes <= Size(marker)
    requires forall i | 0 <= i < |word| :: word[i] as int < 0x80
    ensures Trimmed(word + " b", maxBytes, marker) == word + " "
  {
    var text := word + " b";
    AsciiBIsTidy(word);
    AsciiSize(text);
    TrimmedNarrowly(text, maxBytes, marker);
    AsciiTruncate(text, maxBytes);
    assert text[..maxBytes] == word + " ";
  }

  lemma TrimmedNarrowly(text: string, maxBytes: int, marker: string)
    requires IsTidy(text) && Size(text) > maxBytes && maxBytes <= Size(marker)
    ensures Trimmed(text, maxBytes, marker) == Truncate(text, maxBytes)
  {
    TidyIsTidy(text);
  }

  lemma AsciiBIsTidy(word: string)
    requires word != "" && IsTidy(word)
    ensures IsTidy(word + " b")
  {
    SpaceFacts();
    InSomeRange('b' as int, BREAK_RANGES);
    InSomeRange('b' as int, SPACE_RANGES);
    var text := word + " b";
    forall i | 0 <= i < |text| && IsBreak(text[i])
      ensures TidyBreak(text, i)
    {
      assert TidyBreak(word, i);
    }
  }

  /** A budget too small for the marker and one wide character leaves the marker alone. */
  lemma UntidyWide(maxBytes: nat, marker: string) returns (text: string)
    requires IsMarker(marker) && Size(marker) < maxBytes < Size(marker) + 4
    ensures var r := Trimmed(text, maxBytes, marker); !IsTidy(r) && Size(Tidy(r)) <= maxBytes
  {
    text := seq(maxBytes, _ => '\U{1F600}');
    WideIsCutAway(maxBytes, marker);
    TidyDropsLineFeed(marker);
    SizeConcat(marker[..1], marker[1..]);
    assert marker == marker[..1] + marker[1..];
  }

  lemma WideIsCutAway(maxBytes: nat, marker: string)
    requires Size(marker) < maxBytes < Size(marker) + 4
    ensures Trimmed(seq(maxBytes, _ => '\U{1F600}'), maxBytes, marker) == marker
  {
    var wide := '\U{1F600}';
    var text := seq(maxBytes, _ => wide);
    Repeated(wide, maxBytes);
    TidyIsTidy(text);
    NothingFits(text, maxBytes - Size(marker));
    assert RStrip("") + marker == marker;
  }

  /** A budget below the size of its first character leaves nothing of a wide text. */
  lemma NothingFits(text: string, budget: nat)
    requires text != "" && text[0] == '\U{1F600}' && budget < 4
    ensures Truncate(text, budget) == ""
  {
    TruncateIsOptimal(text, budget);
    assert Truncate(text, budget) == "";
  }

  /** Whatever the text, the outer layer returns the inner layer's result unchanged. */
  ghost predicate Composes(maxBytes: nat, inner: string, outer: string) {
    forall text :: var r := Trimmed(text, maxBytes, inner); Trimmed(r, maxBytes, outer) == r
  }

  /** Two layers with the same budget compose, the outer one leaving every result of the inner
      one alone, exactly when the budget is at most one byte or has room for the inner marker and
      one character of any width. */
  lemma LayersCompose(maxBytes: nat, inner: string, outer: string)
    requires IsMarker(inner)
    ensures Composes(maxBytes, inner, outer) <==> maxBytes <= 1 || Size(inner) + 4 <= maxBytes
  {
    if maxBytes <= 1 || Size(inner) + 4 <= maxBytes {
      forall text
        ensures var r := Trimmed(text, maxBytes, inner); Trimmed(r, maxBytes, outer) == r
      {
        TrimmedFits(text, maxBytes, inner);
        if maxBytes <= 1 {
          TinyBudget(text, maxBytes, inner);
        } else {
          TrimmedIsTidy(text, maxBytes, inner);
        }
        TidyAndFittingIsKept(Trimmed(text, maxBytes, inner), maxBytes, outer);
      }
    } else {
      var text;
      if maxBytes <= Size(inner) {
        text := UntidyNarrow(maxBytes, inner);
      } else {
        text := UntidyWide(maxBytes, inner);
      }
      var r := Trimmed(text, maxBytes, inner);
      TidyIsTidy(r);
      assert Trimmed(r, maxBytes, outer) == Tidy(r) != r;
    }
  }

  /** For one shared budget the bridge's trimming returns every `fit_lora` output unchanged
      exactly from 8 bytes up, or at 0 and 1; it is idempotent exactly from 21 bytes up, or at 0
      and 1. */
  lemma BridgeBudgets(maxBytes: nat)
    ensures Composes(maxBytes, FIT_MARKER, TRIM_SUFFIX) <==> maxBytes <= 1 || 8 <= maxBytes
    ensures Composes(maxBytes, TRIM_SUFFIX, TRIM_SUFFIX) <==> maxBytes <= 1 || 21 <= maxBytes
  {
    MarkersAreMarkers();
    MarkerSizes();
    LayersCompose(maxBytes, FIT_MARKER, TRIM_SUFFIX);
    LayersCompose(maxBytes, TRIM_SUFFIX, TRIM_SUFFIX);
  }

  // How much is kept

  ghost predicate LongestWithin(value: string, cut: string, budget: int) {
    && cut <= value && Size(cut) <= budget
    && forall q :: q <= value && Size(q) <= budget ==> |q| <= |cut|
  }

  /** A text that is tidied within the budget is left whole; a longer one keeps the longest leading
      part that leaves room for the marker, without the whitespace at its end, or, when the budget is
      no more than the marker, the longest leading part there is room for. */
  lemma TrimKeepsLongest(text: string, maxBytes: int, marker: string, cut: string)
    ensures Size(Tidy(text)) <= maxBytes ==> Trimmed(text, maxBytes, marker) == Tidy(text)
    ensures Size(Tidy(text)) > maxBytes > Size(marker) && LongestWithin(Tidy(text), cut, maxBytes - Size(marker)) ==>
      Trimmed(text, maxBytes, marker) == RStrip(cut) + marker
    ensures Size(Tidy(text)) > maxBytes && 0 <= maxBytes <= Size(marker) && LongestWithin(Tidy(text), cut, maxBytes) ==>
      Trimmed(text, maxBytes, marker) == cut
  {
    TrimmedIs(text, maxBytes, marker);
    LongestIsTruncated(Tidy(text), cut, maxBytes);
    LongestIsTruncated(Tidy(text), cut, maxBytes - Size(marker));
  }

  lemma TrimmedIs(text: string, maxBytes: int, marker: string)
    ensures Size(Tidy(text)) <= maxBytes ==> Trimmed(text, maxBytes, marker) == Tidy(text)
    ensures Size(Tidy(text)) > maxBytes > Size(marker) ==>
      Trimmed(text, maxBytes, marker) == RStrip(Truncate(Tidy(text), maxBytes - Size(marker))) + marker
    ensures Size(Tidy(text)) > maxBytes && maxBytes <= Size(marker) ==>
      Trimmed(text, maxBytes, marker) == Truncate(Tidy(text), maxBytes)
  {
  }

  lemma LongestIsTruncated(value: string, cut: string, budget: int)
    ensures 0 <= budget && LongestWithin(value, cut, budget) ==> cut == Truncate(value, budget)
  {
    var t := Truncate(value, budget);
    TruncateIsOptimal(value, budget);
    assert t <= value;
    if 0 <= budget && LongestWithin(value, cut, budget) {
      assert value[..|cut|] == cut && value[..|t|] == t;
    }
  }
}
