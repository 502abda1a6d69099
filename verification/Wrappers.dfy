/** The conventional option type, and small facts about collections of values and of objects. */
module Wrappers {
  datatype Option<+T> = None | Some(value: T)

  /** A sequence with its i-th element taken out. */
  function Without<T>(s: seq<T>, i: nat): seq<T>
    requires i < |s|
  {
    s[..i] + s[i + 1..]
  }

  lemma Member<T>(s: set<T>) returns (x: T)
    requires s != {}
    ensures x in s
  {
    x :| x in s;
  }

  lemma Element<T>(s: multiset<T>) returns (x: T)
    requires s != multiset{}
    ensures x in s
  {
    x :| x in s;
  }

  lemma SameMap<K, V>(a: map<K, V>, b: map<K, V>)
    requires a.Keys == b.Keys
    requires forall k :: k in a ==> a[k] == b[k]
    ensures a == b
  {
  }

  /** Every one of the objects is of the old ones, or new. */
  twostate predicate FromOrNew(new olds: set<object>, new objects: set<object>) {
    forall o :: o in objects ==> o in olds || fresh(o)
  }
}
