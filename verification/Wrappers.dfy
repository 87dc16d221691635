/** The Option type and the lemmas shared by the other modules. */
module Wrappers {
  datatype Option<+T> = None | Some(value: T)

  /** Filling an empty entry adds the one value, and changes nothing else that is present. */
  lemma PresentAfterFill<T(!new)>(s: seq<Option<T>>, p: nat, x: T)
    requires p < |s| && s[p] == None
    ensures forall y: T {:trigger Some(y) in s} {:trigger Some(y) in s[p := Some(x)]} ::
      Some(y) in s[p := Some(x)] <==> Some(y) in s || y == x
  {
    assert s[p := Some(x)][p] == Some(x);
    forall y: T | Some(y) in s
      ensures Some(y) in s[p := Some(x)]
    {
      var i :| 0 <= i < |s| && s[i] == Some(y);
      assert s[p := Some(x)][i] == Some(y);
    }
  }

  lemma RemoveAdded<K, V>(m: map<K, V>, k: K, v: V)
    requires k !in m
    ensures m[k := v] - {k} == m
  {
  }
}
