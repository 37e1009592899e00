/** Facts about sequences that the solver needs to be told. */
module Sequences {

  lemma Assoc<T>(a: seq<T>, b: seq<T>, c: seq<T>)
    ensures a + b + c == a + (b + c)
  {
  }

  lemma AppendOne<T>(a: seq<T>, x: T, b: seq<T>)
    ensures a + [x] + b == a + ([x] + b)
  {
  }

  lemma SameFirst<T>(x: T, a: seq<T>, b: seq<T>)
    ensures [x] + a == [x] + b <==> a == b
  {
    assert ([x] + a)[1..] == a && ([x] + b)[1..] == b;
  }

  /** Different items among those of a sequence are not more than these. */
  lemma {:induction false} DistinctMembers<T>(items: seq<T>, at: seq<T>)
    requires forall i, j :: 0 <= i < j < |items| ==> items[i] != items[j]
    requires forall i :: 0 <= i < |items| ==> items[i] in at
    ensures |items| <= |at|
  {
    if items != [] {
      var k :| 0 <= k < |at| && at[k] == items[0];
      var others := at[..k] + at[k + 1..];
      forall i | 0 <= i < |items[1..]|
        ensures items[1..][i] in others
      {
        var j :| 0 <= j < |at| && at[j] == items[i + 1];
        assert j != k;
        assert others[if j < k then j else j - 1] == items[i + 1];
      }
      DistinctMembers(items[1..], others);
    }
  }
}
