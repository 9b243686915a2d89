/** The intrusive circular doubly linked list of src/util/ring.c. A structure
    that embeds a RING is a node here, and its other members are the item. */
module Rings {
  import opened Options
  import opened Seqs

  class Ring<T> {
    var succ: Ring?<T>
    var pred: Ring?<T>
    var item: Option<T>

    constructor (item: Option<T>)
      ensures this.item == item && succ == null && pred == null
    {
      this.item := item;
      succ, pred := null, null;
    }
  }

  function After(i: nat, n: nat): nat { if i + 1 == n then 0 else i + 1 }
  function Ahead(i: nat, n: nat): nat requires n > 0 { if i == 0 then n - 1 else i - 1 }

  /** s lists the nodes of one ring in order, linked both ways. */
  ghost predicate IsRing<T>(s: seq<Ring<T>>)
    reads s
  {
    && |s| > 0 && Distinct(s)
    && (forall i {:trigger s[i].succ} :: 0 <= i < |s| ==> s[i].succ == s[After(i, |s|)])
    && (forall i {:trigger s[i].pred} :: 0 <= i < |s| ==> s[i].pred == s[Ahead(i, |s|)])
  }

  /** ring_init */
  method Init<T>(ring: Ring<T>)
    modifies ring`succ, ring`pred
    ensures IsRing([ring])
  {
    ring.pred, ring.succ := ring, ring;
  }

  /** `entry` has just been linked in between positions i - 1 and i of the ring s
      (or after its last node when i is |s|); every other link is as before. */
  ghost predicate SplicedIn<T>(s: seq<Ring<T>>, i: nat, entry: Ring<T>)
    requires 0 < i <= |s|
    reads s, entry
  {
    var a, b := s[i - 1], s[if i == |s| then 0 else i];
    && entry.pred == a && entry.succ == b && a.succ == entry && b.pred == entry
    && (forall j {:trigger s[j].succ} :: 0 <= j < |s| && j != i - 1 ==> s[j].succ == s[After(j, |s|)])
    && (forall j {:trigger s[j].pred} :: 0 <= j < |s| && j != (if i == |s| then 0 else i) ==>
          s[j].pred == s[Ahead(j, |s|)])
  }

  lemma SplicedIsRing<T>(s: seq<Ring<T>>, i: nat, entry: Ring<T>)
    requires 0 < i <= |s| && Distinct(s) && entry !in s && SplicedIn(s, i, entry)
    ensures IsRing(Inserted(s, i, entry))
  {
    InsertedAt(s, i, entry);
    var r := Inserted(s, i, entry);
    forall j | 0 <= j < |r| ensures r[j].succ == r[After(j, |r|)] {
      var k := if j < i then j else j - 1;
      if j != i { assert r[j] == s[k]; }
    }
    forall j | 0 <= j < |r| ensures r[j].pred == r[Ahead(j, |r|)] {
      var k := if j < i then j else j - 1;
      if j != i { assert r[j] == s[k]; }
    }
  }

  /** ring_append: insert after `ring`, which is position i of the ring s. */
  method Append<T>(ring: Ring<T>, entry: Ring<T>, ghost s: seq<Ring<T>>, ghost i: nat)
    requires IsRing(s) && i < |s| && s[i] == ring && entry !in s
    modifies s`succ, s`pred, entry`succ, entry`pred
    ensures IsRing(Inserted(s, i + 1, entry))
  {
    Apart(s, i);
    Apart(s, After(i, |s|));
    entry.succ := ring.succ;
    entry.pred := ring;
    ring.succ.pred := entry;
    ring.succ := entry;
    SplicedIsRing(s, i + 1, entry);
  }

  /** ring_prepend: insert before `ring`, which is position i of the ring s; in
      front of the first position is the end. */
  method Prepend<T>(ring: Ring<T>, entry: Ring<T>, ghost s: seq<Ring<T>>, ghost i: nat)
    requires IsRing(s) && i < |s| && s[i] == ring && entry !in s
    modifies s`succ, s`pred, entry`succ, entry`pred
    ensures IsRing(Inserted(s, if i == 0 then |s| else i, entry))
  {
    Apart(s, i);
    Apart(s, Ahead(i, |s|));
    entry.pred := ring.pred;
    entry.succ := ring;
    ring.pred.succ := entry;
    ring.pred := entry;
    SplicedIsRing(s, if i == 0 then |s| else i, entry);
  }

  /** ring_detach: the node at position i leaves the ring s. A ring of one is
      taken apart. */
  method Detach<T>(entry: Ring<T>, ghost s: seq<Ring<T>>, ghost i: nat)
    requires IsRing(s) && i < |s| && s[i] == entry
    modifies s`succ, s`pred
    ensures |s| > 1 ==> IsRing(Deleted(s, i))
    ensures entry.succ == null && entry.pred == null
  {
    Apart(s, i);
    Apart(s, After(i, |s|));
    Apart(s, Ahead(i, |s|));
    var succ, pred := entry.succ, entry.pred;
    pred.succ := succ;
    succ.pred := pred;
    entry.succ, entry.pred := null, null;
    if |s| > 1 { ClosedIsRing(s, i); }
  }

  /** The neighbours of position i have just been linked to each other. */
  lemma ClosedIsRing<T>(s: seq<Ring<T>>, i: nat)
    requires i < |s| && |s| > 1 && Distinct(s)
    requires var a, b := Ahead(i, |s|), After(i, |s|);
      && s[a].succ == s[b] && s[b].pred == s[a]
      && (forall j {:trigger s[j].succ} :: 0 <= j < |s| && j != a && j != i ==> s[j].succ == s[After(j, |s|)])
      && (forall j {:trigger s[j].pred} :: 0 <= j < |s| && j != b && j != i ==> s[j].pred == s[Ahead(j, |s|)])
    ensures IsRing(Deleted(s, i))
  {
    DeletedAt(s, i);
    var r := Deleted(s, i);
    forall j | 0 <= j < |r| ensures r[j].succ == r[After(j, |r|)] {
      assert r[j] == s[if j < i then j else j + 1];
    }
    forall j | 0 <= j < |r| ensures r[j].pred == r[Ahead(j, |r|)] {
      assert r[j] == s[if j < i then j else j + 1];
    }
  }
}
