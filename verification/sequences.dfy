/** Facts about sequences that list the elements of a set, used to state
    "once per member" for the pool's status report and its shutdown. */
module Sequences {

  /** No element occurs twice in `s`. */
  ghost predicate Distinct<T>(s: seq<T>) {
    forall i, j :: 0 <= i < j < |s| ==> s[i] != s[j]
  }

  /** `s` lists every element of `keys` exactly once, in some order. */
  ghost predicate Enumerates<T(!new)>(s: seq<T>, keys: set<T>) {
    && Distinct(s)
    && (forall x :: x in s <==> x in keys)
  }

  /** An enumeration of a set is exactly as long as the set is large. */
  lemma {:induction false} EnumerationLength<T(!new)>(s: seq<T>, keys: set<T>)
    requires Enumerates(s, keys)
    ensures |s| == |keys|
  {
    if s != [] {
      var last := s[|s| - 1];
      var init := s[..|s| - 1];
      assert s == init + [last];
      forall x
        ensures x in init <==> x in keys - {last}
      {
        if x in init {
          var i :| 0 <= i < |init| && init[i] == x;
          assert s[i] != s[|s| - 1];
        }
        if x in keys - {last} {
          assert x in s;
        }
      }
      EnumerationLength(init, keys - {last});
    }
  }
}
