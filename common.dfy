/** Small shared datatypes and facts about sequences. */
module Common {
  /** A value that may be absent (an optional field, a number not drawn, a name not found). */
  datatype Option<T> = None | Some(value: T)

  /** An index into the first part of a concatenation. */
  lemma ConcatIndexLeft<T>(a: seq<T>, c: seq<T>, x: int)
    requires 0 <= x < |a|
    ensures x < |a + c| && (a + c)[x] == a[x]
  {
  }

  /** Index j of the second part of a concatenation, addressed from its start. */
  lemma ConcatIndex<T>(a: seq<T>, c: seq<T>, x: int, j: nat)
    requires j < |c| && x == |a| + j
    ensures 0 <= x < |a + c| && (a + c)[x] == c[j]
  {
  }
}
