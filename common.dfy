/** Small shared vocabulary: optional values and sequence concatenation. */
module Common {

  /** A value that may be absent (JavaScript's null / undefined). */
  datatype Option<+T> = None | Some(value: T)

  function Min(a: int, b: int): int
  {
    if a <= b then a else b
  }

  /** Concatenation of a sequence of sequences, in order. */
  function Flatten<T>(ss: seq<seq<T>>): seq<T>
  {
    if ss == [] then [] else ss[0] + Flatten(ss[1..])
  }

  lemma {:induction false} FlattenAppend<T>(ss: seq<seq<T>>, last: seq<T>)
    ensures Flatten(ss + [last]) == Flatten(ss) + last
    decreases |ss|
  {
    if ss == [] {
      assert [last][1..] == [];
    } else {
      assert (ss + [last])[1..] == ss[1..] + [last];
      FlattenAppend(ss[1..], last);
    }
  }

  lemma HeadTail<T>(s: seq<T>)
    requires s != []
    ensures [s[0]] + s[1..] == s
  {
  }

  lemma PrefixSuffix<T>(s: seq<T>, i: nat)
    requires i <= |s|
    ensures s[..i] + s[i..] == s
  {
  }
}
