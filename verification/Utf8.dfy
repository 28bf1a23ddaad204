/** UTF-8 as section 3 of RFC 3629 defines it, with a decoder that skips what it cannot decode,
    and the byte truncation the bridge builds from them.
    A Dafny `char` is exactly a Unicode scalar value. */
module Utf8 {
  import opened Models

  type Byte = b: int | 0 <= b < 256

  function EncodeChar(c: char): (r: seq<Byte>)
    ensures 1 <= |r| <= 4
  {
    var n := c as int;
    if n < 0x80 then [n]
    else
      var m := n / 0x40;
      if n < 0x800 then [0xC0 + m, 0x80 + n % 0x40]
      else
        var k := m / 0x40;
        if n < 0x10000 then [0xE0 + k, 0x80 + m % 0x40, 0x80 + n % 0x40]
        else [0xF0 + k / 0x40, 0x80 + k % 0x40, 0x80 + m % 0x40, 0x80 + n % 0x40]
  }

  function Encode(s: string): (r: seq<Byte>) {
    if s == "" then [] else EncodeChar(s[0]) + Encode(s[1..])
  }

  function Size(s: string): nat {
    |Encode(s)|
  }

  predicate Continuation(b: Byte) {
    0x80 <= b < 0xC0
  }

  /** Second bytes allowed after a given leading byte: no overlong forms, no surrogates, no
      values above U+10FFFF. */
  predicate SecondByte(lead: Byte, b: Byte) {
    && Continuation(b)
    && (lead == 0xE0 ==> 0xA0 <= b)
    && (lead == 0xED ==> b < 0xA0)
    && (lead == 0xF0 ==> 0x90 <= b)
    && (lead == 0xF4 ==> b < 0x90)
  }

  /** One decoding step: a character of `width` bytes, or `width` bytes to skip. */
  datatype Head = Char(c: char, width: nat) | Skip(width: nat)

  function Width(lead: Byte): (w: nat)
    ensures w <= 4
  {
    if lead < 0x80 then 1
    else if lead < 0xC2 then 0
    else if lead < 0xE0 then 2
    else if lead < 0xF0 then 3
    else if lead < 0xF5 then 4
    else 0
  }

  /** How many leading bytes of `b` fit one character: the whole width, or the maximal valid part. */
  function ValidPart(b: seq<Byte>): (k: nat)
    requires b != [] && Width(b[0]) > 0
    ensures 1 <= k <= |b| && k <= Width(b[0])
  {
    var w := Width(b[0]);
    if w == 1 || |b| == 1 || !SecondByte(b[0], b[1]) then 1
    else if w == 2 || |b| == 2 || !Continuation(b[2]) then 2
    else if w == 3 || |b| == 3 || !Continuation(b[3]) then 3
    else 4
  }

  /** The scalar value a complete sequence stands for. */
  function ScalarOf(b: seq<Byte>): int
    requires 1 <= |b| <= 4
  {
    var b0: int := b[0];
    if |b| == 1 then b0
    else
      var b1: int := b[1];
      if |b| == 2 then (b0 - 0xC0) * 0x40 + (b1 - 0x80)
      else
        var b2: int := b[2];
        if |b| == 3 then (b0 - 0xE0) * 0x1000 + (b1 - 0x80) * 0x40 + (b2 - 0x80)
        else
          var b3: int := b[3];
          (b0 - 0xF0) * 0x40000 + (b1 - 0x80) * 0x1000 + (b2 - 0x80) * 0x40 + (b3 - 0x80)
  }

  function DecodeHead(b: seq<Byte>): (h: Head)
    requires b != []
    ensures 1 <= h.width <= |b|
  {
    var w := Width(b[0]);
    if w == 0 then Skip(1)
    else
      var k := ValidPart(b);
      if k < w then Skip(k) else Char(ScalarOf(b[..w]) as char, w)
  }

  /** Decoding with errors ignored. */
  function DecodeIgnore(b: seq<Byte>): (s: string) {
    if b == [] then ""
    else
      var h := DecodeHead(b);
      match h
      case Char(c, w) => [c] + DecodeIgnore(b[w..])
      case Skip(w) => DecodeIgnore(b[w..])
  }

  /** Cut the encoding at `n` bytes and decode what is left. */
  function Truncate(s: string, n: int): string {
    if n <= 0 then ""
    else if Size(s) <= n then s
    else DecodeIgnore(Encode(s)[..n])
  }

  /** The number of leading characters of `s` whose encodings fit `n` bytes together. */
  function Fitting(s: string, n: int): (k: nat)
    ensures k <= |s|
  {
    if s == "" || |EncodeChar(s[0])| > n then 0
    else 1 + Fitting(s[1..], n - |EncodeChar(s[0])|)
  }

  lemma WellFormedChar(c: char)
    ensures var e := EncodeChar(c);
      && Width(e[0]) == |e|
      && (1 < |e| ==> SecondByte(e[0], e[1]))
      && (2 < |e| ==> Continuation(e[2]))
      && (3 < |e| ==> Continuation(e[3]))
      && ScalarOf(e) == c as int
  {
    var e := EncodeChar(c);
    var n := c as int;
    var m, k := n / 0x40, n / 0x40 / 0x40;
    assert n == 0x40 * m + n % 0x40 && m == 0x40 * k + m % 0x40 && k == 0x40 * (k / 0x40) + k % 0x40;
    if n >= 0x10000 {
      assert e[1] as int == 0x80 + k % 0x40;
    }
  }

  lemma HeadOfEncoded(c: char, rest: seq<Byte>)
    ensures DecodeHead(EncodeChar(c) + rest) == Char(c, |EncodeChar(c)|)
  {
    var e := EncodeChar(c);
    var b := e + rest;
    WellFormedChar(c);
    assert forall i | 0 <= i < |e| :: b[i] == e[i];
    assert ValidPart(b) == |e|;
    assert b[..|e|] == e;
  }

  /** A character cut short is skipped to the end of the input. */
  lemma HeadOfCut(c: char, n: nat)
    requires 0 < n < |EncodeChar(c)|
    ensures DecodeHead(EncodeChar(c)[..n]) == Skip(n)
  {
    var e := EncodeChar(c);
    var b := e[..n];
    WellFormedChar(c);
    assert forall i | 0 <= i < n :: b[i] == e[i];
    assert ValidPart(b) == n;
  }

  lemma {:induction false} DecodeOfCut(s: string, n: nat)
    requires n <= Size(s)
    ensures DecodeIgnore(Encode(s)[..n]) == s[..Fitting(s, n)]
  {
    if n == 0 {
    } else {
      var e := EncodeChar(s[0]);
      var b := Encode(s)[..n];
      if n < |e| {
        assert b == e[..n];
        HeadOfCut(s[0], n);
        assert b[n..] == [];
      } else {
        var rest := Encode(s[1..])[..n - |e|];
        assert b == e + rest;
        HeadOfEncoded(s[0], rest);
        assert b[|e|..] == rest;
        DecodeOfCut(s[1..], n - |e|);
        assert s[..Fitting(s, n)] == [s[0]] + s[1..][..Fitting(s[1..], n - |e|)];
      }
    }
  }

  lemma {:induction false} EncodeConcat(a: string, b: string)
    ensures Encode(a + b) == Encode(a) + Encode(b)
  {
    if a == "" {
      assert a + b == b;
    } else {
      EncodeConcat(a[1..], b);
      EncodeCons(a[0], a[1..]);
      EncodeCons(a[0], a[1..] + b);
      assert a == [a[0]] + a[1..] && a + b == [a[0]] + (a[1..] + b);
      Associate(EncodeChar(a[0]), Encode(a[1..]), Encode(b));
    }
  }

  lemma EncodeCons(c: char, rest: string)
    ensures Encode([c] + rest) == EncodeChar(c) + Encode(rest)
  {
    assert ([c] + rest)[1..] == rest;
  }

  lemma SizeConcat(a: string, b: string)
    ensures Size(a + b) == Size(a) + Size(b)
  {
    EncodeConcat(a, b);
  }

  /** A longer prefix never takes fewer bytes, and each character takes at least one. */
  lemma SizeMonotone(s: string, j: nat, k: nat)
    requires j <= k <= |s|
    ensures Size(s[..j]) + (k - j) <= Size(s[..k])
  {
    assert s[..k] == s[..j] + s[j..k];
    SizeConcat(s[..j], s[j..k]);
    SizeAtLeastLength(s[j..k]);
  }

  lemma {:induction false} SizeAtLeastLength(s: string)
    ensures |s| <= Size(s) <= 4 * |s|
  {
    if s != "" {
      SizeAtLeastLength(s[1..]);
    }
  }

  /** Fitting counts exactly the characters of the longest prefix within `n` bytes. */
  lemma {:induction false} FittingIsLongest(s: string, n: int, k: nat)
    requires k <= |s|
    ensures Size(s[..k]) <= n && 0 <= n ==> k <= Fitting(s, n)
    ensures k <= Fitting(s, n) && 0 <= n ==> Size(s[..k]) <= n
  {
    if k == 0 || n < 0 {
    } else {
      var e := EncodeChar(s[0]);
      assert s[..k][1..] == s[1..][..k - 1];
      assert Size(s[..k]) == |e| + Size(s[1..][..k - 1]);
      if |e| <= n {
        FittingIsLongest(s[1..], n - |e|, k - 1);
      }
    }
  }

  /** Decoding inverts encoding, whatever the string. */
  lemma RoundTrip(s: string)
    ensures DecodeIgnore(Encode(s)) == s
  {
    DecodeOfCut(s, Size(s));
    assert Encode(s)[..Size(s)] == Encode(s);
    assert s[..|s|] == s;
    FittingIsLongest(s, Size(s), |s|);
  }

  lemma TruncateIsFitting(s: string, n: int)
    ensures Truncate(s, n) == s[..Fitting(s, n)]
  {
    if n <= 0 {
    } else if Size(s) <= n {
      assert s[..|s|] == s;
      FittingIsLongest(s, n, |s|);
    } else {
      DecodeOfCut(s, n);
    }
  }

  /** Byte truncation is optimal: the result is a prefix of the text, it fits the budget, and no
      longer prefix does. */
  lemma TruncateIsOptimal(s: string, n: int)
    ensures Truncate(s, n) <= s
    ensures 0 <= n ==> Size(Truncate(s, n)) <= n
    ensures forall k: nat :: k <= |s| && Size(s[..k]) <= n ==> k <= |Truncate(s, n)|
  {
    TruncateIsFitting(s, n);
    FittingIsLongest(s, n, Fitting(s, n));
    forall k: nat | k <= |s| && Size(s[..k]) <= n
      ensures k <= |Truncate(s, n)|
    {
      FittingIsLongest(s, n, k);
    }
  }

  /** The examples in section 7 of RFC 3629. */
  lemma RfcExamples()
    ensures Encode("A\U{2262}\U{0391}.") == [0x41, 0xE2, 0x89, 0xA2, 0xCE, 0x91, 0x2E]
    ensures Encode("\U{D55C}\U{AD6D}\U{C5B4}") == [0xED, 0x95, 0x9C, 0xEA, 0xB5, 0xAD, 0xEC, 0x96, 0xB4]
    ensures Encode("\U{65E5}\U{672C}\U{8A9E}") == [0xE6, 0x97, 0xA5, 0xE6, 0x9C, 0xAC, 0xE8, 0xAA, 0x9E]
    ensures Encode("\U{FEFF}\U{233B4}") == [0xEF, 0xBB, 0xBF, 0xF0, 0xA3, 0x8E, 0xB4]
  {
    EncodeMixed();
    EncodeKorean();
    EncodeJapanese();
    EncodeWide();
  }

  lemma EncodeKorean()
    ensures Encode("\U{D55C}\U{AD6D}\U{C5B4}") == [0xED, 0x95, 0x9C, 0xEA, 0xB5, 0xAD, 0xEC, 0x96, 0xB4]
  {
    EncodeThree('\U{D55C}', '\U{AD6D}', '\U{C5B4}');
  }

  lemma EncodeJapanese()
    ensures Encode("\U{65E5}\U{672C}\U{8A9E}") == [0xE6, 0x97, 0xA5, 0xE6, 0x9C, 0xAC, 0xE8, 0xAA, 0x9E]
  {
    EncodeThree('\U{65E5}', '\U{672C}', '\U{8A9E}');
  }

  lemma EncodeOne(c: char)
    ensures Encode([c]) == EncodeChar(c)
  {
    assert [c][1..] == "";
  }

  lemma EncodeThree(a: char, b: char, c: char)
    ensures Encode([a, b, c]) == EncodeChar(a) + EncodeChar(b) + EncodeChar(c)
  {
    EncodeOne(c);
    EncodeCons(b, [c]);
    EncodeCons(a, [b, c]);
    assert [b] + [c] == [b, c] && [a] + [b, c] == [a, b, c];
  }

  lemma EncodeMixed()
    ensures Encode("A\U{2262}\U{0391}.") == [0x41, 0xE2, 0x89, 0xA2, 0xCE, 0x91, 0x2E]
  {
    EncodeThree('A', '\U{2262}', '\U{0391}');
    EncodeOne('.');
    EncodeConcat(['A', '\U{2262}', '\U{0391}'], ".");
    assert "A\U{2262}\U{0391}." == ['A', '\U{2262}', '\U{0391}'] + ".";
  }

  lemma EncodeWide()
    ensures Encode("\U{FEFF}\U{233B4}") == [0xEF, 0xBB, 0xBF, 0xF0, 0xA3, 0x8E, 0xB4]
  {
    EncodeOne('\U{233B4}');
    EncodeCons('\U{FEFF}', ['\U{233B4}']);
    assert "\U{FEFF}\U{233B4}" == ['\U{FEFF}'] + ['\U{233B4}'];
  }
}
