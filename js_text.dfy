/**
 * The JavaScript string operations the site relies on, with their ECMAScript
 * semantics: `includes`/`indexOf` with a string pattern, `replace` with a
 * string pattern (first occurrence only), `trim`, `split` on a one-character
 * string, `split(/\s+/)`, `join`, and `toUpperCase` restricted to ASCII.
 */
module JsText {
  import opened Common

  /** The characters matched by `\s` and removed by `trim()`: ECMAScript
      WhiteSpace and LineTerminator code points. */
  predicate IsSpace(c: char)
  {
    || c == '\t' || c == '\n' || c == '\U{000B}' || c == '\U{000C}' || c == '\r'
    || c == ' ' || c == '\U{00A0}' || c == '\U{1680}'
    || ('\U{2000}' <= c <= '\U{200A}')
    || c == '\U{2028}' || c == '\U{2029}' || c == '\U{202F}' || c == '\U{205F}'
    || c == '\U{3000}' || c == '\U{FEFF}'
  }

  predicate NoSpace(s: string)
  {
    forall i :: 0 <= i < |s| ==> !IsSpace(s[i])
  }

  /** `s` neither starts nor ends with a space: what `trim()` returns. */
  predicate IsTrimmed(s: string)
  {
    s != [] ==> !IsSpace(s[0]) && !IsSpace(s[|s| - 1])
  }

  // ---------------------------------------------------------------------
  // includes / indexOf / replace

  predicate OccursAt(s: string, pat: string, i: nat)
  {
    i + |pat| <= |s| && s[i..i + |pat|] == pat
  }

  /** `s.indexOf(pat, from)`: the leftmost occurrence at or after `from`. */
  function IndexOfFrom(s: string, pat: string, from: nat): (r: Option<nat>)
    ensures r.Some? ==> from <= r.value && OccursAt(s, pat, r.value)
    ensures r.Some? ==> forall j :: from <= j < r.value ==> !OccursAt(s, pat, j)
    ensures r.None? ==> forall j :: from <= j ==> !OccursAt(s, pat, j)
    decreases |s| - from
  {
    if from + |pat| > |s| then None
    else if s[from..from + |pat|] == pat then Some(from)
    else IndexOfFrom(s, pat, from + 1)
  }

  function IndexOf(s: string, pat: string): Option<nat>
  {
    IndexOfFrom(s, pat, 0)
  }

  /** `s.includes(pat)`. */
  predicate Includes(s: string, pat: string)
  {
    IndexOf(s, pat).Some?
  }

  lemma IncludesIff(s: string, pat: string)
    ensures Includes(s, pat) <==> exists i: nat :: OccursAt(s, pat, i)
  {
    var r := IndexOf(s, pat);
    if r.Some? {
      assert OccursAt(s, pat, r.value);
    }
  }

  /** `s.replace(pat, rep)` with a string pattern: only the first occurrence
      is replaced. */
  function ReplaceFirst(s: string, pat: string, rep: string): (r: string)
    ensures IndexOf(s, pat).None? ==> r == s
    ensures IndexOf(s, pat).Some? ==> |r| == |s| - |pat| + |rep|
  {
    match IndexOf(s, pat)
    case None => s
    case Some(i) => s[..i] + rep + s[i + |pat|..]
  }

  /** Removing the first occurrence of `pat` is undone by putting `pat` back
      where it was; nothing before that occurrence changes. */
  lemma {:induction false} ReplaceFirstUndo(s: string, pat: string)
    requires pat != [] && IndexOf(s, pat).Some?
    ensures var i := IndexOf(s, pat).value;
            var r := ReplaceFirst(s, pat, "");
            i <= |r| && r[..i] + pat + r[i..] == s && !Includes(r[..i], pat)
  {
    var i := IndexOf(s, pat).value;
    var r := ReplaceFirst(s, pat, "");
    assert r == s[..i] + s[i + |pat|..];
    assert r[..i] == s[..i];
    assert r[i..] == s[i + |pat|..];
    assert s[i..i + |pat|] == pat;
    assert s == s[..i] + s[i..i + |pat|] + s[i + |pat|..];
    forall j: nat
      ensures !OccursAt(r[..i], pat, j)
    {
      if j + |pat| <= i {
        assert IndexOfFrom(s, pat, 0).value == i && j < i;
        assert !OccursAt(s, pat, j);
        assert r[..i][j..j + |pat|] == s[j..j + |pat|];
      }
    }
    IncludesIff(r[..i], pat);
  }

  // ---------------------------------------------------------------------
  // trim

  function TrimStart(s: string): (r: string)
    ensures |r| <= |s| && r == s[|s| - |r|..]
    ensures r != [] ==> !IsSpace(r[0])
    ensures forall i :: 0 <= i < |s| - |r| ==> IsSpace(s[i])
  {
    if s != [] && IsSpace(s[0]) then
      var r := TrimStart(s[1..]);
      assert s[1..][|s| - 1 - |r|..] == s[|s| - |r|..];
      assert forall i :: 1 <= i < |s| - |r| ==> s[i] == s[1..][i - 1];
      r
    else s
  }

  function TrimEnd(s: string): (r: string)
    ensures |r| <= |s| && r == s[..|r|]
    ensures r != [] ==> !IsSpace(r[|r| - 1])
    ensures forall i :: |r| <= i < |s| ==> IsSpace(s[i])
  {
    if s != [] && IsSpace(s[|s| - 1]) then
      var r := TrimEnd(s[..|s| - 1]);
      assert s[..|s| - 1][..|r|] == s[..|r|];
      assert forall i :: |r| <= i < |s| - 1 ==> s[i] == s[..|s| - 1][i];
      r
    else s
  }

  /** `r` sits in `s` at `a` with nothing but spaces before and after it. */
  predicate SpacesAround(s: string, a: nat, r: string)
  {
    && a + |r| <= |s| && s[a..a + |r|] == r
    && (forall i :: 0 <= i < a ==> IsSpace(s[i]))
    && (forall i :: a + |r| <= i < |s| ==> IsSpace(s[i]))
  }

  /** `s.trim()`: the substring left once the leading and trailing spaces
      are dropped. */
  function Trim(s: string): (r: string)
    ensures IsTrimmed(r)
  {
    TrimEnd(TrimStart(s))
  }

  /** `trim()` removes spaces, and only spaces, from both ends: the result
      sits in the input with nothing but spaces around it. With `Trim`'s
      own contract this fixes the result. */
  lemma TrimIsInfix(s: string)
    ensures exists a: nat :: SpacesAround(s, a, Trim(s))
  {
    var t := TrimStart(s);
    TrimAround(s, t, TrimEnd(t));
    assert SpacesAround(s, |s| - |t|, Trim(s));
  }

  /** Spaces dropped from the front, then from the back, leave the rest
      surrounded by spaces only. */
  lemma TrimAround(s: string, t: string, r: string)
    requires |t| <= |s| && t == s[|s| - |t|..]
    requires forall i :: 0 <= i < |s| - |t| ==> IsSpace(s[i])
    requires |r| <= |t| && r == t[..|r|]
    requires forall i :: |r| <= i < |t| ==> IsSpace(t[i])
    ensures SpacesAround(s, |s| - |t|, r)
  {
    var a := |s| - |t|;
    forall i | a + |r| <= i < |s|
      ensures IsSpace(s[i])
    {
      assert s[i] == t[i - a];
    }
  }

  lemma TrimOfTrimmed(s: string)
    requires IsTrimmed(s)
    ensures Trim(s) == s
  {
  }

  /** A single leading blank is trimmed away again. */
  lemma TrimAfterBlank(s: string)
    requires s != [] && IsTrimmed(s)
    ensures Trim(" " + s) == s
  {
    assert (" " + s)[1..] == s;
    assert TrimStart(" " + s) == TrimStart(s) == s;
    assert TrimEnd(s) == s;
  }

  // ---------------------------------------------------------------------
  // join

  /** `parts.join(sep)`. */
  function JoinWith(parts: seq<string>, sep: string): string
  {
    if parts == [] then ""
    else if |parts| == 1 then parts[0]
    else parts[0] + sep + JoinWith(parts[1..], sep)
  }

  // ---------------------------------------------------------------------
  // split on one character

  /** `s.split(c)` for a one-character separator: the pieces between
      separators, empty pieces included. */
  function SplitOn(s: string, sep: char): (r: seq<string>)
    ensures |r| >= 1
    ensures forall k :: 0 <= k < |r| ==> sep !in r[k]
    ensures JoinWith(r, [sep]) == s
  {
    if s == [] then [[]]
    else if s[0] == sep then
      var rest := SplitOn(s[1..], sep);
      assert JoinWith([[]] + rest, [sep]) == [] + [sep] + JoinWith(rest, [sep]);
      [[]] + rest
    else
      var rest := SplitOn(s[1..], sep);
      var r := [[s[0]] + rest[0]] + rest[1..];
      assert JoinWith(r, [sep]) == [s[0]] + JoinWith(rest, [sep]) by {
        if |rest| > 1 {
          assert r[1..] == rest[1..];
        }
      }
      r
  }

  /** A piece without separator stays whole. */
  lemma {:induction false} SplitOnPlain(s: string, sep: char)
    requires sep !in s
    ensures SplitOn(s, sep) == [s]
  {
    if s != [] {
      SplitOnPlain(s[1..], sep);
    }
  }

  /** The first separator ends the first piece. */
  lemma {:induction false} SplitOnFirst(a: string, sep: char, b: string)
    requires sep !in a
    ensures SplitOn(a + [sep] + b, sep) == [a] + SplitOn(b, sep)
    decreases |a|
  {
    if a == [] {
      assert (a + [sep] + b)[1..] == b;
    } else {
      assert (a + [sep] + b)[1..] == a[1..] + [sep] + b;
      SplitOnFirst(a[1..], sep, b);
      assert [a[0]] + a[1..] == a;
    }
  }

  // ---------------------------------------------------------------------
  // split(/\s+/)

  /** `s.split(/\s+/)`: the text between maximal runs of spaces. A leading
      or trailing run yields an empty first or last element, and the empty
      string yields `[""]`. */
  function SplitWs(s: string): (r: seq<string>)
    ensures |r| >= 1
    ensures forall k :: 0 <= k < |r| ==> NoSpace(r[k])
    decreases |s|
  {
    if s == [] then [[]]
    else if IsSpace(s[0]) then [[]] + SplitWs(TrimStart(s))
    else
      var rest := SplitWs(s[1..]);
      assert forall k :: 1 <= k < |rest| ==> NoSpace(rest[k]);
      [[s[0]] + rest[0]] + rest[1..]
  }

  /** Only space characters. */
  predicate AllSpace(s: string)
  {
    forall i :: 0 <= i < |s| ==> IsSpace(s[i])
  }

  /** `words[0] + seps[0] + words[1] + … + seps[n-1] + words[n]`. */
  function Interleave(words: seq<string>, seps: seq<string>): string
    requires |words| == |seps| + 1
  {
    if seps == [] then words[0] else words[0] + seps[0] + Interleave(words[1..], seps[1..])
  }

  /** Gluing a character onto the first token glues it onto the text. */
  lemma {:induction false} InterleaveHead(c: char, words: seq<string>, seps: seq<string>)
    requires |words| == |seps| + 1
    ensures Interleave([[c] + words[0]] + words[1..], seps) == [c] + Interleave(words, seps)
  {
    var w := [[c] + words[0]] + words[1..];
    if seps != [] {
      var tail := Interleave(words[1..], seps[1..]);
      assert w[1..] == words[1..];
      assert Interleave(w, seps) == ([c] + words[0]) + seps[0] + tail;
      assert Interleave(words, seps) == words[0] + seps[0] + tail;
    }
  }

  /** `seps` are non-empty runs of spaces that, put between the `words`,
      give `s`. */
  predicate CutAt(words: seq<string>, seps: seq<string>, s: string)
  {
    && |words| == |seps| + 1 && Interleave(words, seps) == s
    && forall k :: 0 <= k < |seps| ==> seps[k] != [] && AllSpace(seps[k])
  }

  /** The tokens of `split(/\s+/)`, put back together with the non-empty
      runs of spaces they were cut at, give the text back; only the first
      and the last token can be empty. Together with `SplitWs`'s own
      contract this fixes the tokens completely. */
  lemma SplitWsRebuild(s: string)
    ensures var r := SplitWs(s);
            forall k :: 0 < k < |r| - 1 ==> r[k] != []
    ensures exists seps :: CutAt(SplitWs(s), seps, s)
  {
    SplitWsInner(s);
    var seps := SplitWsSeps(s);
  }

  lemma {:induction false} SplitWsInner(s: string)
    ensures forall k :: 0 < k < |SplitWs(s)| - 1 ==> SplitWs(s)[k] != []
    decreases |s|
  {
    var r := SplitWs(s);
    if s == [] {
    } else if IsSpace(s[0]) {
      var t := TrimStart(s);
      var rt := SplitWs(t);
      SplitWsInner(t);
      if t != [] {
        assert rt[0] != [];
      }
      assert r == [[]] + rt;
      assert forall k :: 0 < k < |r| - 1 ==> r[k] == rt[k - 1];
    } else {
      var rest := SplitWs(s[1..]);
      SplitWsInner(s[1..]);
      assert r == [[s[0]] + rest[0]] + rest[1..];
      forall k | 0 < k < |r| - 1
        ensures r[k] != []
      {
        assert r[k] == rest[k];
        assert 0 < k < |rest| - 1;
        assert rest[k] != [];
      }
    }
  }

  /** The runs of spaces `split(/\s+/)` cuts `s` at. */
  lemma {:induction false} SplitWsSeps(s: string) returns (seps: seq<string>)
    ensures CutAt(SplitWs(s), seps, s)
    decreases |s|
  {
    var r := SplitWs(s);
    if s == [] {
      seps := [];
    } else if IsSpace(s[0]) {
      var t := TrimStart(s);
      var rt := SplitWs(t);
      var st := SplitWsSeps(t);
      var run := s[..|s| - |t|];
      seps := [run] + st;
      assert r == [[]] + rt;
      assert r[1..] == rt && seps[1..] == st;
      assert Interleave(r, seps) == run + t;
      PrefixSuffix(s, |s| - |t|);
    } else {
      var rest := SplitWs(s[1..]);
      seps := SplitWsSeps(s[1..]);
      InterleaveHead(s[0], rest, seps);
      HeadTail(s);
    }
  }

  /** The number of words in `s`: the non-space characters that start the
      text or follow a space. `afterSpace` tells whether the character
      before `s` was a space (or `s` starts the text). */
  function CountWordStarts(s: string, afterSpace: bool): nat
  {
    if s == [] then 0
    else (if afterSpace && !IsSpace(s[0]) then 1 else 0) + CountWordStarts(s[1..], IsSpace(s[0]))
  }

  /** Words before a word start: the flag only matters for the first character. */
  lemma WordStartFlag(s: string)
    ensures CountWordStarts(s, true) == CountWordStarts(s, false) + (if s != [] && !IsSpace(s[0]) then 1 else 0)
  {
  }

  /** Leading spaces start no word. */
  lemma {:induction false} WordStartsTrimStart(s: string)
    ensures CountWordStarts(TrimStart(s), true) == CountWordStarts(s, true)
    decreases |s|
  {
    if s != [] && IsSpace(s[0]) {
      WordStartsTrimStart(s[1..]);
    }
  }

  /** Spaces start no word. */
  lemma {:induction false} WordStartsOfSpaces(s: string, afterSpace: bool)
    requires AllSpace(s)
    ensures CountWordStarts(s, afterSpace) == 0
    decreases |s|
  {
    if s != [] {
      WordStartsOfSpaces(s[1..], IsSpace(s[0]));
    }
  }

  /** Trailing spaces start no word. */
  lemma {:induction false} WordStartsAppendSpaces(a: string, b: string, afterSpace: bool)
    requires AllSpace(b)
    ensures CountWordStarts(a + b, afterSpace) == CountWordStarts(a, afterSpace)
    decreases |a|
  {
    if a == [] {
      assert a + b == b;
      WordStartsOfSpaces(b, afterSpace);
    } else {
      assert (a + b)[1..] == a[1..] + b;
      WordStartsAppendSpaces(a[1..], b, IsSpace(a[0]));
    }
  }

  /** `trim()` keeps every word. */
  lemma WordStartsTrim(s: string)
    ensures CountWordStarts(Trim(s), true) == CountWordStarts(s, true)
  {
    var t := TrimStart(s);
    var r := TrimEnd(t);
    WordStartsTrimStart(s);
    PrefixSuffix(t, |r|);
    WordStartsAppendSpaces(r, t[|r|..], true);
  }

  /** `split(/\s+/)` yields one token per word, plus an empty one for a
      leading run of spaces and an empty one for a trailing run (or for the
      empty text). */
  lemma {:induction false} SplitWsCount(s: string)
    ensures |SplitWs(s)| == CountWordStarts(s, true)
                             + (if s != [] && IsSpace(s[0]) then 1 else 0)
                             + (if s == [] || IsSpace(s[|s| - 1]) then 1 else 0)
    decreases |s|
  {
    if s == [] {
    } else if IsSpace(s[0]) {
      var t := TrimStart(s);
      SplitWsCount(t);
      WordStartsTrimStart(s);
      if t != [] {
        assert t[|t| - 1] == s[|s| - 1];
      }
    } else {
      SplitWsCount(s[1..]);
      WordStartFlag(s[1..]);
      if s[1..] != [] {
        assert s[1..][|s[1..]| - 1] == s[|s| - 1];
      }
    }
  }

  /** A word followed by more text is glued onto the first token of that text. */
  lemma {:induction false} SplitWsWord(w: string, s: string)
    requires NoSpace(w)
    ensures var t := SplitWs(s);
            SplitWs(w + s) == [w + t[0]] + t[1..]
    decreases |w|
  {
    var t := SplitWs(s);
    if w == [] {
      assert w + s == s && w + t[0] == t[0];
      assert [t[0]] + t[1..] == t;
    } else {
      assert (w + s)[1..] == w[1..] + s;
      SplitWsWord(w[1..], s);
      assert [w[0]] + (w[1..] + SplitWs(s)[0]) == w + SplitWs(s)[0];
    }
  }

  /** Text made of non-empty words joined by single blanks splits back into
      exactly those words. */
  lemma {:induction false} SplitWsJoin(words: seq<string>)
    requires words != []
    requires forall k :: 0 <= k < |words| ==> words[k] != [] && NoSpace(words[k])
    ensures SplitWs(JoinWith(words, " ")) == words
    decreases |words|
  {
    if |words| == 1 {
      SplitWsWord(words[0], []);
      assert words[0] + [] == words[0];
    } else {
      var tail := JoinWith(words[1..], " ");
      SplitWsJoin(words[1..]);
      JoinFirstWord(words[1..]);
      SplitWsAfterBlank(tail);
      assert JoinWith(words, " ") == words[0] + (" " + tail);
      SplitWsWord(words[0], " " + tail);
      assert words[0] + [] == words[0];
      HeadTail(words);
    }
  }

  /** A single blank before a word starts a new token. */
  lemma SplitWsAfterBlank(s: string)
    requires s != [] && !IsSpace(s[0])
    ensures SplitWs(" " + s) == [[]] + SplitWs(s)
  {
    assert (" " + s)[1..] == s;
    assert TrimStart(s) == s;
  }

  lemma JoinFirstWord(words: seq<string>)
    requires words != [] && words[0] != []
    ensures JoinWith(words, " ") != [] && JoinWith(words, " ")[0] == words[0][0]
  {
  }

  // ---------------------------------------------------------------------
  // toUpperCase

  /** `toUpperCase` on the ASCII letters; other characters are kept. */
  function UpperChar(c: char): (u: char)
    ensures 'a' <= c <= 'z' ==> 'A' <= u <= 'Z' && u as int - c as int == 'A' as int - 'a' as int
    ensures !('a' <= c <= 'z') ==> u == c
  {
    if 'a' <= c <= 'z' then (c as int - 'a' as int + 'A' as int) as char else c
  }
}
