/**
 Sequences without repetition, as linked lists of records are.
 */
module Seqs {

  predicate Distinct<T(==)>(s: seq<T>) {
    forall i, j :: 0 <= i < j < |s| ==> s[i] != s[j]
  }

  /** Element `i` is unlinked. */
  function Unlink<T>(s: seq<T>, i: nat): seq<T>
    requires i < |s|
  {
    s[..i] + s[i + 1..]
  }

  lemma {:induction false} UnlinkDistinct<T>(s: seq<T>, i: nat)
    requires Distinct(s) && i < |s|
    ensures Distinct(Unlink(s, i)) && |Unlink(s, i)| == |s| - 1
    ensures forall x :: x in Unlink(s, i) <==> x in s && x != s[i]
  {
    var u := Unlink(s, i);
    assert forall j :: 0 <= j < |u| ==> u[j] == if j < i then s[j] else s[j + 1];
    forall x | x in s && x != s[i] ensures x in u {
      var j :| 0 <= j < |s| && s[j] == x;
      var k := if j < i then j else j - 1;
      assert u[k] == x;
    }
  }

  lemma {:induction false} ConsDistinct<T>(x: T, s: seq<T>)
    requires Distinct(s) && x !in s
    ensures Distinct([x] + s) && forall y :: y in [x] + s <==> y == x || y in s
  {
    assert forall j :: 0 <= j < |s| ==> ([x] + s)[j + 1] == s[j];
  }

  /** The elements of a repetition-free sequence are as many as its length. */
  lemma {:induction false} DistinctCard<T>(s: seq<T>, t: set<T>)
    requires Distinct(s) && t == set x | x in s
    ensures |t| == |s|
  {
    if s != [] {
      var rest := set x | x in s[1..];
      assert s[0] !in rest && t == rest + {s[0]};
      DistinctCard(s[1..], rest);
    }
  }
}
