/** The preprocessing stage (`SimplePreprocessor`): an input of more than
    `max_input_len` words is replaced by its summary. */
module Preprocess {
  import opened Basics
  import opened Containers

  /** `SimplePreprocessor(summarizer, min_input_len=10, max_input_len=15)`;
      the summariser is a parameter of `Process`. */
  datatype Preprocessor = Preprocessor(minInputLen: int, maxInputLen: int)

  const Default: Preprocessor := Preprocessor(10, 15)

  // ---- words ----

  /** The characters `str.split()` splits on (`str.isspace`). */
  predicate IsSpace(c: char) {
    ('\t' <= c <= '\r') || ('\U{1c}' <= c <= ' ') || c == '\U{85}' || c == '\U{a0}'
    || c == '\U{1680}' || ('\U{2000}' <= c <= '\U{200a}') || c == '\U{2028}' || c == '\U{2029}'
    || c == '\U{202f}' || c == '\U{205f}' || c == '\U{3000}'
  }

  /** A non-empty run of non-space characters. */
  predicate IsWord(w: string) {
    w != "" && forall k :: 0 <= k < |w| ==> !IsSpace(w[k])
  }

  /** The end of the run of non-space characters starting at `i`. */
  function WordEnd(s: string, i: nat): (j: nat)
    requires i <= |s|
    ensures i <= j <= |s|
    ensures forall k :: i <= k < j ==> !IsSpace(s[k])
    ensures j == |s| || IsSpace(s[j])
    decreases |s| - i
  {
    if i == |s| || IsSpace(s[i]) then i else WordEnd(s, i + 1)
  }

  /** `s.split()`: the maximal runs of non-space characters, in order. */
  function Words(s: string): (r: seq<string>)
    ensures forall i :: 0 <= i < |r| ==> IsWord(r[i])
    decreases |s|
  {
    if s == [] then []
    else if IsSpace(s[0]) then Words(s[1..])
    else
      var n := WordEnd(s, 0);
      [s[..n]] + Words(s[n..])
  }

  /** A word followed by a space, or by nothing, is split off whole. */
  lemma {:induction false} WordsAfterWord(w: string, rest: string)
    requires IsWord(w)
    requires rest == [] || IsSpace(rest[0])
    ensures Words(w + rest) == [w] + Words(rest)
  {
    var s := w + rest;
    WordEndAt(s, 0, |w|);
    assert s[..|w|] == w;
    assert s[|w|..] == rest;
  }

  lemma {:induction false} WordEndAt(s: string, i: nat, n: nat)
    requires i <= n <= |s|
    requires forall k :: i <= k < n ==> !IsSpace(s[k])
    requires n == |s| || IsSpace(s[n])
    ensures WordEnd(s, i) == n
    decreases n - i
  {
    if i < n {
      WordEndAt(s, i + 1, n);
    }
  }

  /** Splitting undoes joining with single spaces: words written out with
      one space between them are read back as the same words. */
  lemma {:induction false} WordsOfJoin(ws: seq<string>)
    requires forall i :: 0 <= i < |ws| ==> IsWord(ws[i])
    ensures Words(Join(ws, " ")) == ws
  {
    if |ws| == 0 {
    } else if |ws| == 1 {
      WordsAfterWord(ws[0], "");
      assert ws[0] + "" == ws[0];
    } else {
      var tail := Join(ws[1..], " ");
      WordsOfJoin(ws[1..]);
      assert Join(ws, " ") == ws[0] + (" " + tail);
      WordsAfterWord(ws[0], " " + tail);
      assert (" " + tail)[1..] == tail;
      assert ws == [ws[0]] + ws[1..];
    }
  }

  /** Position `i` begins a word: its character is not a space and the
      one before it, if any, is. */
  predicate StartsWord(s: string, i: nat)
    requires i < |s|
  {
    !IsSpace(s[i]) && (i == 0 || IsSpace(s[i - 1]))
  }

  /** The positions from `i` on where a word begins, in increasing order. */
  function StartsFrom(s: string, i: nat): (r: seq<nat>)
    requires i <= |s|
    ensures forall k :: 0 <= k < |r| ==> i <= r[k] < |s| && StartsWord(s, r[k])
    ensures forall k, l :: 0 <= k < l < |r| ==> r[k] < r[l]
    ensures forall j :: i <= j < |s| && StartsWord(s, j) ==> j in r
    decreases |s| - i
  {
    if i == |s| then []
    else if StartsWord(s, i) then [i] + StartsFrom(s, i + 1)
    else StartsFrom(s, i + 1)
  }

  /** `str.split()` on any text: one word per position where a word
      begins, in order, each running to the next space or the end. Runs of
      several spaces, leading or trailing spaces, and every kind of space
      are all covered. */
  lemma WordsAreRuns(s: string)
    ensures var ws, ps := Words(s), StartsFrom(s, 0);
      |ws| == |ps| && forall k :: 0 <= k < |ws| ==> ws[k] == s[ps[k]..WordEnd(s, ps[k])]
  {
    WordsFromBoundary(s, 0);
    assert s[0..] == s;
  }

  /** `ws` are the runs of `s` that begin at the positions `ps`. */
  predicate RunsAt(s: string, ws: seq<string>, ps: seq<nat>) {
    |ws| == |ps| && forall k :: 0 <= k < |ps| ==> ps[k] <= |s| && ws[k] == s[ps[k]..WordEnd(s, ps[k])]
  }

  lemma RunsAtCons(s: string, ws: seq<string>, ps: seq<nat>, p: nat, ws': seq<string>, ps': seq<nat>)
    requires RunsAt(s, ws, ps) && p <= |s|
    requires ws' == [s[p..WordEnd(s, p)]] + ws && ps' == [p] + ps
    ensures RunsAt(s, ws', ps')
  {
    forall k | 0 <= k < |ps'| ensures ps'[k] <= |s| && ws'[k] == s[ps'[k]..WordEnd(s, ps'[k])] {
      if k > 0 {
        assert ps'[k] == ps[k - 1] && ws'[k] == ws[k - 1];
      }
    }
  }

  lemma {:induction false} WordsFromBoundary(s: string, i: nat)
    requires i <= |s| && (i == 0 || IsSpace(s[i - 1]))
    ensures RunsAt(s, Words(s[i..]), StartsFrom(s, i))
    decreases |s| - i
  {
    if i == |s| {
      assert s[i..] == [];
    } else if IsSpace(s[i]) {
      assert s[i..][1..] == s[i + 1..];
      WordsFromBoundary(s, i + 1);
    } else {
      WordsFromWord(s, i);
    }
  }

  /** The step over one word: it is split off whole, and the scan resumes
      after the space that ends it. */
  lemma {:induction false} WordsFromWord(s: string, i: nat)
    requires i < |s| && (i == 0 || IsSpace(s[i - 1])) && !IsSpace(s[i])
    ensures RunsAt(s, Words(s[i..]), StartsFrom(s, i))
    decreases |s| - i, 0
  {
    var e := WordEnd(s, i);
    SplitOffWord(s, i);
    StartsAtWord(s, i);
    RunsAfterWord(s, e);
    RunsAtCons(s, WordsAfter(s, e), StartsAfter(s, e), i, Words(s[i..]), StartsFrom(s, i));
  }

  /** After the end of a word the scan stands on a boundary again. */
  lemma {:induction false} RunsAfterWord(s: string, e: nat)
    requires 0 < e <= |s| && (e == |s| || IsSpace(s[e]))
    ensures RunsAt(s, WordsAfter(s, e), StartsAfter(s, e))
    decreases |s| - e, 1
  {
    if e < |s| {
      WordsFromBoundary(s, e + 1);
    }
  }

  /** A word begins where the scan stands, and the next one after its end. */
  lemma StartsAtWord(s: string, i: nat)
    requires i < |s| && (i == 0 || IsSpace(s[i - 1])) && !IsSpace(s[i])
    ensures StartsFrom(s, i) == [i] + StartsAfter(s, WordEnd(s, i))
  {
    assert StartsWord(s, i);
    StartsInsideWord(s, i + 1, WordEnd(s, i));
  }

  /** The words after the end `e` of a word. */
  function WordsAfter(s: string, e: nat): seq<string>
    requires e <= |s|
  {
    if e == |s| then [] else Words(s[e + 1..])
  }

  /** The word starts after the end `e` of a word. */
  function StartsAfter(s: string, e: nat): seq<nat>
    requires e <= |s|
  {
    if e == |s| then [] else StartsFrom(s, e + 1)
  }

  lemma SplitOffWord(s: string, i: nat)
    requires i < |s| && !IsSpace(s[i])
    ensures Words(s[i..]) == [s[i..WordEnd(s, i)]] + WordsAfter(s, WordEnd(s, i))
  {
    var t, e := s[i..], WordEnd(s, i);
    WordEndShift(s, i, e);
    SuffixSlices(s, i, e);
    WordsOfWord(t, e - i, s[i..e], s[e..]);
    WordsAtEnd(s, e);
  }

  lemma SuffixSlices<T>(s: seq<T>, i: nat, e: nat)
    requires i <= e <= |s|
    ensures s[i..][..e - i] == s[i..e] && s[i..][e - i..] == s[e..]
  {
  }

  /** At the end of a word the text goes on with a space, or stops. */
  lemma WordsAtEnd(s: string, e: nat)
    requires e <= |s| && (e == |s| || IsSpace(s[e]))
    ensures Words(s[e..]) == WordsAfter(s, e)
  {
    if e < |s| {
      WordsOfSpace(s[e..]);
      assert s[e..][1..] == s[e + 1..];
    } else {
      assert s[e..] == [];
    }
  }

  lemma WordsOfWord(t: string, n: nat, w: string, rest: string)
    requires t != [] && !IsSpace(t[0]) && n == WordEnd(t, 0)
    requires w == t[..n] && rest == t[n..]
    ensures Words(t) == [w] + Words(rest)
  {
  }

  lemma WordsOfSpace(t: string)
    requires t != [] && IsSpace(t[0])
    ensures Words(t) == Words(t[1..])
  {
  }

  /** `WordEnd` measured on a suffix is the same end, shifted. */
  lemma WordEndShift(s: string, i: nat, e: nat)
    requires i <= |s| && e == WordEnd(s, i)
    ensures WordEnd(s[i..], 0) == e - i
  {
    WordEndAt(s[i..], 0, e - i);
  }

  /** No word begins inside a run of non-space characters, nor on the space
      that ends it. */
  lemma {:induction false} StartsInsideWord(s: string, j: nat, e: nat)
    requires 0 < j <= e <= |s|
    requires forall k :: j - 1 <= k < e ==> !IsSpace(s[k])
    requires e == |s| || IsSpace(s[e])
    ensures StartsFrom(s, j) == StartsAfter(s, e)
    decreases e - j
  {
    if j < e {
      StartsInsideWord(s, j + 1, e);
    }
  }

  // ---- the stage ----

  /** `process`: an input of more than `max_input_len` words is replaced
      by `summarize(input, min_input_len, max_input_len)`; a shorter one,
      and one of exactly `max_input_len` words, is kept. Nothing else in
      the container changes. */
  function Process(p: Preprocessor, c: Container, summarize: (string, int, int) -> string): (r: Container)
    ensures r == c.(input := r.input)
    ensures r.input == c.input || r.input == summarize(c.input, p.minInputLen, p.maxInputLen)
    ensures |Words(c.input)| > p.maxInputLen ==> r.input == summarize(c.input, p.minInputLen, p.maxInputLen)
    ensures |Words(c.input)| <= p.maxInputLen ==> r.input == c.input
  {
    if |Words(c.input)| > p.maxInputLen then c.(input := summarize(c.input, p.minInputLen, p.maxInputLen))
    else c
  }

  /** The default gate on a message of single-spaced words: fifteen words
      pass unchanged, sixteen or more go to the summariser with the bounds
      10 and 15. */
  lemma DefaultGate(ws: seq<string>, c: Container, summarize: (string, int, int) -> string)
    requires forall i :: 0 <= i < |ws| ==> IsWord(ws[i])
    requires c.input == Join(ws, " ")
    ensures |ws| <= 15 ==> Process(Default, c, summarize) == c
    ensures |ws| > 15 ==> Process(Default, c, summarize).input == summarize(c.input, 10, 15)
  {
    WordsOfJoin(ws);
  }

  /** The gate counts the places where a word begins, whatever spaces
      separate the words. */
  lemma GateCountsWordStarts(p: Preprocessor, c: Container, summarize: (string, int, int) -> string)
    ensures Process(p, c, summarize).input
              == if |StartsFrom(c.input, 0)| > p.maxInputLen then summarize(c.input, p.minInputLen, p.maxInputLen)
                 else c.input
  {
    WordsAreRuns(c.input);
  }
}
