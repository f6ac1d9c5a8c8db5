/**
 * Reading-time estimate shared by the post page and the post card:
 * `Math.ceil(text.trim().split(/\s+/).length / wordsPerMinute)`.
 */
module ReadingTime {
  import opened JsText

  /** `text.trim().split(/\s+/).length`: never 0, since splitting always
      yields at least one element. */
  function WordCount(text: string): (w: nat)
    ensures w >= 1
  {
    |SplitWs(Trim(text))|
  }

  /** The count is the number of words of the text, except that a text
      without words still counts as one. */
  lemma WordCountIsWords(text: string)
    ensures var n := CountWordStarts(text, true);
            WordCount(text) == if n == 0 then 1 else n
  {
    WordStartsTrim(text);
    TokensOfTrimmed(Trim(text));
  }

  /** Text without surrounding spaces splits into one token per word, or a
      single empty token when it has none. */
  lemma TokensOfTrimmed(t: string)
    requires IsTrimmed(t)
    ensures var n := CountWordStarts(t, true);
            |SplitWs(t)| == if n == 0 then 1 else n
  {
    SplitWsCount(t);
    if t != [] {
      WordStartFlag(t);
    }
  }

  /** `Math.ceil(n / d)` on whole numbers. */
  function CeilDiv(n: nat, d: nat): nat
    requires d > 0
  {
    (n + d - 1) / d
  }

  /** `q` is the least whole number with `n <= q * d`. */
  predicate IsCeilQuotient(q: nat, n: nat, d: nat)
  {
    (q - 1) * d < n <= q * d
  }

  /** The rounded-up quotient is the least `q` with `n <= q * d`. */
  lemma CeilDivIsLeast(n: nat, d: nat)
    requires d > 0
    ensures IsCeilQuotient(CeilDiv(n, d), n, d)
  {
  }

  lemma CeilDivMonotone(n1: nat, n2: nat, d: nat)
    requires d > 0 && n1 <= n2
    ensures CeilDiv(n1, d) <= CeilDiv(n2, d)
  {
    var q1, q2 := CeilDiv(n1, d), CeilDiv(n2, d);
    CeilDivIsLeast(n1, d);
    CeilDivIsLeast(n2, d);
    if q1 > q2 {
      MulMonotone(q1 - 1, q2, d);
      assert false;
    }
  }

  lemma MulMonotone(a: int, b: int, d: nat)
    requires a >= b
    ensures a * d >= b * d
  {
    var k: nat := a - b;
    assert a * d == b * d + k * d;
  }

  /** Whole minutes to read `text` at `wpm` words per minute, rounded up. */
  function Minutes(text: string, wpm: nat): (m: nat)
    requires wpm > 0
    ensures m >= 1
    ensures IsCeilQuotient(m, WordCount(text), wpm)
  {
    var n := WordCount(text);
    CeilDivIsLeast(n, wpm);
    CeilDivPositive(n, wpm);
    CeilDiv(n, wpm)
  }

  lemma CeilDivPositive(n: nat, d: nat)
    requires n >= 1 && d > 0
    ensures CeilDiv(n, d) >= 1
  {
    CeilDivIsLeast(n, d);
  }

  /** More words never read faster. */
  lemma MinutesMonotone(t1: string, t2: string, wpm: nat)
    requires wpm > 0 && WordCount(t1) <= WordCount(t2)
    ensures Minutes(t1, wpm) <= Minutes(t2, wpm)
  {
    CeilDivMonotone(WordCount(t1), WordCount(t2), wpm);
  }

  /** A text of `n` non-empty words separated by single blanks counts as
      exactly `n` words. */
  lemma WordCountOfWords(words: seq<string>)
    requires words != []
    requires forall k :: 0 <= k < |words| ==> words[k] != [] && NoSpace(words[k])
    ensures WordCount(JoinWith(words, " ")) == |words|
  {
    JoinedIsTrimmed(words);
    WordCountOfTrimmed(JoinWith(words, " "));
    SplitWsJoin(words);
  }

  /** Text without leading or trailing space counts its own tokens. */
  lemma WordCountOfTrimmed(text: string)
    requires IsTrimmed(text)
    ensures WordCount(text) == |SplitWs(text)|
  {
    TrimOfTrimmed(text);
  }

  lemma {:induction false} JoinedIsTrimmed(words: seq<string>)
    requires words != []
    requires forall k :: 0 <= k < |words| ==> words[k] != [] && NoSpace(words[k])
    ensures JoinWith(words, " ") != [] && IsTrimmed(JoinWith(words, " "))
    decreases |words|
  {
    if |words| > 1 {
      JoinedIsTrimmed(words[1..]);
      var j := JoinWith(words, " ");
      var tail := JoinWith(words[1..], " ");
      assert j == words[0] + " " + tail;
      assert j[0] == words[0][0];
      assert j[|j| - 1] == tail[|tail| - 1];
    }
  }
}
