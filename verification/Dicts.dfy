/** Insertion-ordered dictionaries with string keys. */
module Dicts {
  import opened Wrappers

  type Dict<T> = seq<(string, T)>

  function Get<T>(m: Dict<T>, key: string): Option<T> {
    if m == [] then None else if m[0].0 == key then Some(m[0].1) else Get(m[1..], key)
  }

  /** Overwrite in place, or append. */
  function Put<T>(m: Dict<T>, key: string, value: T): Dict<T> {
    if m == [] then [(key, value)]
    else if m[0].0 == key then [(key, value)] + m[1..]
    else [m[0]] + Put(m[1..], key, value)
  }

  predicate Unique<T>(m: Dict<T>) {
    forall i, j | 0 <= i < j < |m| :: m[i].0 != m[j].0
  }

  lemma {:induction false} GetPut<T>(m: Dict<T>, key: string, value: T, other: string)
    ensures Get(Put(m, key, value), other) == if other == key then Some(value) else Get(m, other)
  {
    if m != [] && m[0].0 != key {
      GetPut(m[1..], key, value, other);
    }
  }

  lemma {:induction false} PutNew<T>(m: Dict<T>, key: string, value: T)
    requires forall i | 0 <= i < |m| :: m[i].0 != key
    ensures Put(m, key, value) == m + [(key, value)]
  {
    if m != [] {
      PutNew(m[1..], key, value);
    }
  }

  lemma {:induction false} GetAt<T>(m: Dict<T>, i: nat)
    requires i < |m| && Unique(m)
    ensures Get(m, m[i].0) == Some(m[i].1)
  {
    if i > 0 {
      assert m[0].0 != m[i].0;
      GetAt(m[1..], i - 1);
    }
  }
}
