/** Sequences without repetitions, and with one element put in or taken out. */
module Seqs {

  /** Names a pair of positions, so that distinctness is looked at only there. */
  predicate Pair(i: int, j: int) { true }

  ghost predicate Distinct<T>(s: seq<T>) {
    forall i, j :: Pair(i, j) && 0 <= i < j < |s| ==> s[i] != s[j]
  }

  function Upto(n: nat): (s: seq<nat>)
    ensures |s| == n
  {
    seq(n, i => i)
  }

  lemma Regroup<X>(a: seq<X>, b: seq<X>, c: seq<X>)
    ensures a + (b + c) == (a + b) + c
  {}

  lemma TailConcat<X>(a: seq<X>, b: seq<X>)
    requires a != []
    ensures (a + b)[1..] == a[1..] + b
  {}

  lemma Apart<T>(s: seq<T>, i: nat)
    requires Distinct(s) && i < |s|
    ensures forall j :: 0 <= j < |s| && j != i ==> s[j] != s[i]
  {
    forall j | 0 <= j < |s| && j != i ensures s[j] != s[i] {
      assert Pair(i, j) && Pair(j, i);
    }
  }

  function Inserted<X>(s: seq<X>, i: nat, x: X): seq<X>
    requires i <= |s|
  {
    s[..i] + [x] + s[i..]
  }

  function Deleted<X>(s: seq<X>, i: nat): seq<X>
    requires i < |s|
  {
    s[..i] + s[i + 1..]
  }

  lemma DeletedMember<X>(s: seq<X>, i: nat)
    requires i < |s| && s[i] !in Deleted(s, i)
    ensures (set x | x in s && x !in Deleted(s, i)) == {s[i]}
  {
    forall x | x in s && x != s[i] ensures x in Deleted(s, i) {
      var j :| 0 <= j < |s| && s[j] == x;
      assert Deleted(s, i)[if j < i then j else j - 1] == x;
    }
  }

  lemma InsertedAt<X>(s: seq<X>, i: nat, x: X)
    requires 0 < i <= |s| && Distinct(s) && x !in s
    ensures |Inserted(s, i, x)| == |s| + 1 && Distinct(Inserted(s, i, x))
    ensures forall j {:trigger Inserted(s, i, x)[j]} :: 0 <= j <= |s| ==>
      Inserted(s, i, x)[j] == if j < i then s[j] else if j == i then x else s[j - 1]
  {
    var r := Inserted(s, i, x);
    forall j, k | 0 <= j < k < |r| ensures r[j] != r[k] {
      assert Pair(if j < i then j else j - 1, if k < i then k else k - 1);
    }
  }

  lemma DeletedAt<X>(s: seq<X>, i: nat)
    requires i < |s| && Distinct(s)
    ensures |Deleted(s, i)| == |s| - 1 && Distinct(Deleted(s, i)) && s[i] !in Deleted(s, i)
    ensures forall j {:trigger Deleted(s, i)[j]} :: 0 <= j < |s| - 1 ==>
      Deleted(s, i)[j] == if j < i then s[j] else s[j + 1]
  {
    Apart(s, i);
    var r := Deleted(s, i);
    forall j, k | 0 <= j < k < |r| ensures r[j] != r[k] {
      assert Pair(if j < i then j else j + 1, if k < i then k else k + 1);
    }
  }
}
