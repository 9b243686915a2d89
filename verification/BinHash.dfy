/** The hash table of src/util/binhash.c: doubly linked chains, rehashed in
    place. Every key has a stack of entries, of which the top one is found; with
    one entry for each key that is a finite map. */
module BinHash {
  import opened Options
  import opened Seqs

  /** Keys are byte strings; comparing them reads the first byte, so none is empty. */
  type Key = k: seq<bv8> | |k| > 0 witness [0]

  /** A key byte, as a signed char, in the width of the accumulator. */
  function SignedChar(b: bv8): bv64 { if b < 128 then b as bv64 else (b as bv64) | 0xffff_ffff_ffff_ff00 }

  /** One round of binhash_hash on a 64-bit accumulator. */
  function Round(h: bv64, b: bv8): bv64 {
    var h1 := (h << 4) + SignedChar(b);
    var g := h1 & 0xf000_0000;
    if g != 0 then (h1 ^ (g >> 24)) ^ g else h1
  }

  function Rounds(h: bv64, s: seq<bv8>): bv64
    decreases |s|
  {
    if s == [] then h else Rounds(Round(h, s[0]), s[1..])
  }

  function Hash(key: Key, size: nat): (b: nat)
    requires size > 0
    ensures b < size
  {
    (Rounds(0, key) as nat) % size
  }

  /** binhash_hash */
  method ComputeHash(key: Key, size: nat) returns (b: nat)
    requires size > 0
    ensures b == Hash(key, size)
  {
    var h: bv64 := 0;
    var i := 0;
    while i < |key|
      invariant 0 <= i <= |key|
      invariant Rounds(h, key[i..]) == Rounds(0, key)
    {
      h := Round(h, key[i]);
      assert key[i..][0] == key[i] && key[i..][1..] == key[i + 1..];
      i := i + 1;
    }
    b := (h as nat) % size;
  }

  lemma SignedCharValue(b: bv8)
    ensures SignedChar(b) == (b as bv64) - if b < 0x80 then 0 else 0x100
  {}

  /** What a round makes of the shifted accumulator plus the byte: bits 28 to 31 are
      cleared after being folded into bits 4 to 7, and the rest stays. */
  lemma RoundFolds(h: bv64, b: bv8)
    ensures var t, r := (h << 4) + SignedChar(b), Round(h, b);
      && r & 0xf000_0000 == 0
      && r & 0xf0 == (t & 0xf0) ^ ((t >> 24) & 0xf0)
      && r & 0xffff_ffff_0fff_ff0f == t & 0xffff_ffff_0fff_ff0f
  {
    Folded((h << 4) + SignedChar(b));
  }

  lemma Folded(t: bv64)
    ensures var g := t & 0xf000_0000; var r := (t ^ (g >> 24)) ^ g;
      && r & 0xf000_0000 == 0 && r & 0xf0 == (t & 0xf0) ^ ((t >> 24) & 0xf0)
      && r & 0xffff_ffff_0fff_ff0f == t & 0xffff_ffff_0fff_ff0f && (g == 0 ==> r == t)
  {}

  /** After a byte below 128 the accumulator is below 2^28, if it was before, exactly
      when the sum does not reach 2^32: bits from 32 on are never folded. */
  lemma RoundBelowExact(h: bv64, b: bv8)
    requires h < 0x1000_0000 && b < 128
    ensures Round(h, b) < 0x1000_0000 <==> (h << 4) + (b as bv64) < 0x1_0000_0000
  {}

  /** Eight bytes below 128 that bring the accumulator to 2^32. */
  lemma HashEscapes()
    ensures Rounds(0, [15, 15, 15, 15, 15, 15, 9, 112]) == 0x1_0000_0000
  {
    var s: seq<bv8> := [15, 15, 15, 15, 15, 15, 9, 112];
    assert s[1..] == [15, 15, 15, 15, 15, 9, 112] && s[1..][1..] == [15, 15, 15, 15, 9, 112];
    assert Rounds(0, s) == Rounds(0xff, [15, 15, 15, 15, 9, 112]);
    RoundsConcat(0xff, [15, 15, 15, 15], [9, 112]);
    RoundsConcat(0xff, [15, 15], [15, 15]);
  }

  /** The bytes as digits of weight 16. */
  function Weighted(s: seq<bv8>): bv64 {
    if s == [] then 0 else (Weighted(s[..|s| - 1]) << 4) + (s[|s| - 1] as bv64)
  }

  lemma {:induction false} RoundsConcat(h: bv64, s: seq<bv8>, t: seq<bv8>)
    ensures Rounds(h, s + t) == Rounds(Rounds(h, s), t)
    decreases |s|
  {
    if s == [] {
      assert s + t == t;
    } else {
      assert (s + t)[1..] == s[1..] + t;
      RoundsConcat(Round(h, s[0]), s[1..], t);
    }
  }

  /** The largest accumulator after n bytes below 128 that are not folded. */
  function Most(n: nat): bv64 {
    match n
    case 0 => 0
    case 1 => 0x7f
    case 2 => 0x86f
    case 3 => 0x876f
    case 4 => 0x8_776f
    case 5 => 0x87_776f
    case _ => 0x877_776f
  }

  predicate Small(h: bv64, n: nat) { h <= Most(n) }

  predicate Plain(b: bv8) { b < 128 }

  /** Nothing is folded in the first six bytes below 128: the accumulator is their
      weighted sum. */
  lemma {:induction false} ShortSum(s: seq<bv8>)
    requires |s| <= 6 && forall i :: 0 <= i < |s| ==> Plain(s[i])
    ensures Rounds(0, s) == Weighted(s) && Small(Weighted(s), |s|)
  {
    if s != [] {
      var n := |s| - 1;
      ShortSum(s[..n]);
      RoundsLast(0, s);
      RoundPlain(Weighted(s[..n]), s[n], n);
      WeightedLast(s);
    }
  }

  function Appended(h: bv64, b: bv8): bv64 { (h << 4) + (b as bv64) }

  lemma WeightedLast(s: seq<bv8>)
    requires s != []
    ensures Weighted(s) == Appended(Weighted(s[..|s| - 1]), s[|s| - 1])
  {}

  lemma RoundsLast(h: bv64, s: seq<bv8>)
    requires s != []
    ensures Rounds(h, s) == Round(Rounds(h, s[..|s| - 1]), s[|s| - 1])
  {
    var n := |s| - 1;
    assert s[..n] + [s[n]] == s;
    RoundsConcat(h, s[..n], [s[n]]);
  }

  lemma RoundPlain(h: bv64, b: bv8, n: nat)
    requires n < 6 && Small(h, n) && Plain(b)
    ensures Round(h, b) == Appended(h, b) && Small(Appended(h, b), n + 1)
  {
    NotFolded(h, b, n);
  }

  lemma NotFolded(h: bv64, b: bv8, n: nat)
    requires n < 6 && h <= Most(n) && b < 128
    ensures Round(h, b) == (h << 4) + (b as bv64) && (h << 4) + (b as bv64) <= Most(n + 1)
  {
    assert Most(n) <= 0x87_776f && (Most(n) << 4) + 127 == Most(n + 1);
    NotFoldedBelow(h, b, Most(n));
  }

  lemma NotFoldedBelow(h: bv64, b: bv8, most: bv64)
    requires h <= most <= 0x87_776f && b < 128
    ensures Round(h, b) == (h << 4) + (b as bv64) && (h << 4) + (b as bv64) <= (most << 4) + 127
  {}

  lemma ShortHash(key: Key, size: nat)
    requires size > 0 && |key| <= 6 && forall i :: 0 <= i < |key| ==> Plain(key[i])
    ensures Hash(key, size) == (Weighted(key) as nat) % size
  {
    ShortSum(key);
  }

  /** BINHASH_INFO */
  class Info<V> {
    const key: Key
    const value: V
    var next: Info?<V>
    var prev: Info?<V>

    constructor (key: Key, value: V)
      ensures this.key == key && this.value == value
    {
      this.key, this.value := key, value;
      next, prev := null, null;
    }
  }

  ghost predicate Linked<V>(c: seq<Info<V>>, first: Info?<V>)
    reads c
  {
    && first == (if c == [] then null else c[0])
    && (forall i {:trigger c[i].next} :: 0 <= i < |c| ==> c[i].next == if i + 1 < |c| then c[i + 1] else null)
    && (forall i {:trigger c[i].prev} :: 0 <= i < |c| ==> c[i].prev == if i > 0 then c[i - 1] else null)
  }

  function Total<X>(cs: seq<seq<X>>): nat {
    if cs == [] then 0 else |cs[0]| + Total(cs[1..])
  }

  lemma {:induction false} TotalUpdate<X>(cs: seq<seq<X>>, b: nat, c: seq<X>)
    requires b < |cs|
    ensures Total(cs[b := c]) == Total(cs) - |cs[b]| + |c|
  {
    var ds := cs[b := c];
    if b == 0 {
      assert ds[1..] == cs[1..];
    } else {
      assert ds[1..] == cs[1..][b - 1 := c];
      TotalUpdate(cs[1..], b - 1, c);
    }
  }

  lemma {:induction false} TotalEmpty<X>(cs: seq<seq<X>>)
    requires forall b :: 0 <= b < |cs| ==> cs[b] == []
    ensures Total(cs) == 0
  {
    if cs != [] { TotalEmpty(cs[1..]); }
  }

  lemma TakeNext<X>(a: seq<X>, c: seq<X>, i: nat)
    requires i < |c|
    ensures a + c[..i] + [c[i]] == a + c[..i + 1]
  {}

  /** The nodes are in the chains their keys hash to, once each. */
  ghost predicate Placed<V>(chains: seq<seq<Info<V>>>, nodes: set<Info<V>>) {
    && |chains| > 0
    && (forall n {:trigger NodePlaced(chains, n)} :: n in nodes ==> NodePlaced(chains, n))
    && (forall b :: 0 <= b < |chains| ==> ChainPlaced(chains[b], b, |chains|, nodes))
  }

  ghost predicate NodePlaced<V>(chains: seq<seq<Info<V>>>, n: Info<V>)
    requires |chains| > 0
  {
    n in chains[Hash(n.key, |chains|)]
  }

  ghost predicate ChainPlaced<V>(c: seq<Info<V>>, b: nat, size: nat, nodes: set<Info<V>>)
    requires size > 0
  {
    Distinct(c) && forall n :: n in c ==> n in nodes && Hash(n.key, size) == b
  }

  // ---------------------------------------------------------------------
  // The entries of a key

  function WithKey<V>(c: seq<Info<V>>, k: Key): (r: seq<Info<V>>)
    ensures forall i :: 0 <= i < |r| ==> r[i] in c && r[i].key == k
  {
    if c == [] then [] else (if c[0].key == k then [c[0]] else []) + WithKey(c[1..], k)
  }

  /** The nodes of a key, in chain order: the first one shadows the others. */
  function Stack<V>(chains: seq<seq<Info<V>>>, k: Key): seq<Info<V>>
    requires |chains| > 0
  {
    WithKey(chains[Hash(k, |chains|)], k)
  }

  function Values<V>(s: seq<Info<V>>): (r: seq<V>)
    ensures |r| == |s|
  {
    seq(|s|, i requires 0 <= i < |s| => s[i].value)
  }

  function Reversed<X>(s: seq<X>): (r: seq<X>)
    ensures |r| == |s|
  {
    if s == [] then [] else Reversed(s[1..]) + [s[0]]
  }

  /** On top of s, if it is the stack of the element's key. */
  function Pushed<V>(elm: Info<V>, k: Key, s: seq<Info<V>>): seq<Info<V>> {
    (if k == elm.key then [elm] else []) + s
  }

  function Turned<X>(s: seq<X>, grows: bool): seq<X> { if grows then Reversed(s) else s }

  lemma {:induction false} WithKeyConcat<V>(a: seq<Info<V>>, b: seq<Info<V>>, k: Key)
    ensures WithKey(a + b, k) == WithKey(a, k) + WithKey(b, k)
  {
    if a == [] {
      assert a + b == b;
    } else {
      assert (a + b)[1..] == a[1..] + b;
      WithKeyConcat(a[1..], b, k);
    }
  }

  lemma {:induction false} ReversedConcat<X>(a: seq<X>, b: seq<X>)
    ensures Reversed(a + b) == Reversed(b) + Reversed(a)
  {
    if a == [] {
      assert a + b == b;
    } else {
      assert (a + b)[1..] == a[1..] + b;
      ReversedConcat(a[1..], b);
    }
  }

  lemma {:induction false} ReversedAt<X>(s: seq<X>, i: nat)
    requires i < |s|
    ensures Reversed(s)[i] == s[|s| - 1 - i]
  {
    if i < |s| - 1 { ReversedAt(s[1..], i); }
  }

  /** The first entry of the stack is the first node with the key. */
  lemma {:induction false} FirstWithKey<V>(c: seq<Info<V>>, k: Key, i: nat)
    requires i < |c| && c[i].key == k && forall j :: 0 <= j < i ==> c[j].key != k
    ensures WithKey(c, k) != [] && WithKey(c, k)[0] == c[i]
    ensures WithKey(Deleted(c, i), k) == WithKey(c, k)[1..]
  {
    if i == 0 {
      assert Deleted(c, 0) == c[1..];
    } else {
      FirstWithKey(c[1..], k, i - 1);
      assert Deleted(c, i) == [c[0]] + Deleted(c[1..], i - 1);
    }
  }

  lemma {:induction false} NoneWithKey<V>(c: seq<Info<V>>, k: Key)
    requires forall n :: n in c ==> n.key != k
    ensures WithKey(c, k) == []
  {
    if c != [] { NoneWithKey(c[1..], k); }
  }

  lemma {:induction false} OtherKey<V>(c: seq<Info<V>>, k: Key, i: nat)
    requires i < |c| && c[i].key != k
    ensures WithKey(Deleted(c, i), k) == WithKey(c, k)
  {
    if i == 0 {
      assert Deleted(c, 0) == c[1..];
    } else {
      OtherKey(c[1..], k, i - 1);
      assert Deleted(c, i) == [c[0]] + Deleted(c[1..], i - 1);
    }
  }

  // ---------------------------------------------------------------------

  lemma PlacedPush<V>(chains: seq<seq<Info<V>>>, nodes: set<Info<V>>, elm: Info<V>)
    requires Placed(chains, nodes) && elm !in nodes
    ensures var b := Hash(elm.key, |chains|);
      Placed(chains[b := [elm] + chains[b]], nodes + {elm})
  {
    var b := Hash(elm.key, |chains|);
    var cs := chains[b := [elm] + chains[b]];
    forall d | 0 <= d < |cs| ensures ChainPlaced(cs[d], d, |cs|, nodes + {elm}) {
      assert ChainPlaced(chains[d], d, |chains|, nodes);
    }
    forall n | n in nodes + {elm} ensures NodePlaced(cs, n) {
      assert n != elm ==> NodePlaced(chains, n);
    }
  }

  ghost predicate ChainAt<V>(c: seq<Info<V>>, first: Info?<V>, nodes: set<Info<V>>)
    reads nodes
  {
    (forall n :: n in c ==> n in nodes) && Linked(c, first)
  }

  /** Each slot of the array heads its chain. */
  ghost predicate AllLinked<V>(chains: seq<seq<Info<V>>>, data: array<Info?<V>>, nodes: set<Info<V>>)
    reads data, nodes
  {
    data.Length == |chains| && forall b :: 0 <= b < |chains| ==> ChainAt(chains[b], data[b], nodes)
  }

  ghost predicate InAll<V>(c: seq<Info<V>>, all: set<Info<V>>) { forall n :: n in c ==> n in all }

  class Table<V> {
    var size: nat
    var used: nat
    var data: array<Info?<V>>
    ghost var chains: seq<seq<Info<V>>>
    ghost var nodes: set<Info<V>>

    ghost predicate Chained()
      reads `size, `used, `data, `chains, `nodes, data, nodes
    {
      && data.Length == size && used == Total(chains)
      && Placed(chains, nodes) && AllLinked(chains, data, nodes)
    }

    /** Doubly linked chains in the right buckets, at most one entry a bucket. */
    ghost predicate Valid()
      reads this, data, nodes
    {
      Chained() && used <= size
    }

    /** The entries of a key, the one that is found first. */
    ghost function Entries(k: Key): seq<V>
      requires |chains| > 0
      reads `chains
    {
      Values(Stack(chains, k))
    }

    /** No key has two entries, and the table is the map `contents`. */
    ghost predicate Holds(contents: map<Key, V>)
      requires |chains| > 0
      reads `chains
    {
      IsMap(chains, contents)
    }

    /** The pointer work of binhash_link on chain b. */
    method PushFront(elm: Info<V>, b: nat, ghost cs: seq<seq<Info<V>>>, ghost all: set<Info<V>>)
      requires AllLinked(cs, data, all) && Placed(cs, all) && elm !in all && b < data.Length
      modifies data, all`prev, elm`next, elm`prev
      ensures AllLinked(cs[b := [elm] + cs[b]], data, all + {elm})
    {
      ghost var c := cs[b];
      assert ChainAt(c, data[b], all) && ChainPlaced(c, b, |cs|, all);
      if c != [] { Apart(c, 0); }
      elm.prev := null;
      elm.next := data[b];
      if elm.next != null {
        elm.next.prev := elm;
      }
      data[b] := elm;
      forall d | 0 <= d < |cs| && d != b ensures ChainAt(cs[d], data[d], all + {elm}) {
        assert old(ChainAt(cs[d], data[d], all)) && ChainPlaced(cs[d], d, |cs|, all);
        assert forall i :: 0 <= i < |cs[d]| ==> cs[d][i] in cs[d] && cs[d][i] !in c && cs[d][i] != elm;
      }
      assert ChainAt([elm] + c, elm, all + {elm});
    }

    /** binhash_link: the element goes in front of its chain. */
    method Link(elm: Info<V>)
      requires Chained() && elm !in nodes
      modifies `used, `chains, `nodes, data, nodes`prev, elm`next, elm`prev
      ensures Chained() && nodes == old(nodes) + {elm} && used == old(used) + 1
      ensures OnTop(old(chains), chains, elm)
    {
      var b := ComputeHash(elm.key, size);
      ghost var cs, all := chains[b := [elm] + chains[b]], nodes + {elm};
      assert Placed(cs, all) by { PlacedPush(chains, nodes, elm); }
      TotalUpdate(chains, b, [elm] + chains[b]);
      PushFront(elm, b, chains, nodes);
      used := used + 1;
      chains, nodes := cs, all;
      assert OnTop(old(chains), chains, elm);
    }

    /** binhash_size: an empty array of n (made odd) chains. */
    method SetSize(n: nat)
      modifies this
      ensures Chained() && nodes == {} && used == 0 && fresh(data)
      ensures size == (if n % 2 == 1 then n else n + 1) && forall k :: Stack(chains, k) == []
    {
      size := if n % 2 == 1 then n else n + 1;
      used := 0;
      data := new Info?<V>[size](_ => null);
      chains, nodes := seq(size, _ => []), {};
      TotalEmpty(chains);
    }

    /** binhash_create */
    constructor (n: nat)
      ensures Valid() && nodes == {} && fresh(data) && Holds(map[])
      ensures used == 0 && size == if n < 13 then 13 else if n % 2 == 1 then n else n + 1
    {
      new;
      SetSize(if n < 13 then 13 else n);
    }

    /** The search loop of binhash_find, binhash_locate and binhash_delete. */
    method Seek(key: Key) returns (b: nat, ht: Info?<V>, ghost i: nat)
      requires Valid()
      ensures b < size && i <= |chains[b]|
      ensures ht == if i < |chains[b]| then chains[b][i] else null
      ensures b == Hash(key, size) && (forall j :: 0 <= j < i ==> chains[b][j].key != key)
      ensures ht == null <==> Stack(chains, key) == []
      ensures ht != null ==> ht in nodes && ht.key == key && ht == Stack(chains, key)[0]
    {
      b := ComputeHash(key, size);
      ghost var c := chains[b];
      assert ChainAt(c, data[b], nodes);
      i := 0;
      ht := data[b];
      while ht != null && ht.key != key
        invariant 0 <= i <= |c| && ht == (if i < |c| then c[i] else null)
        invariant forall j :: 0 <= j < i ==> c[j].key != key
        decreases |c| - i
      {
        ht := ht.next;
        i := i + 1;
      }
      if ht != null { FirstWithKey(c, key, i); } else { NoneWithKey(c, key); }
    }

    /** binhash_locate */
    method Locate(key: Key) returns (ht: Info?<V>)
      requires Valid()
      ensures ht == null <==> Stack(chains, key) == []
      ensures ht != null ==> ht in nodes && ht.key == key && ht == Stack(chains, key)[0]
    {
      var b, found, i := Seek(key);
      ht := found;
    }

    /** binhash_find */
    method Find(key: Key) returns (value: Option<V>)
      requires Valid()
      ensures value == if Entries(key) == [] then None else Some(Entries(key)[0])
    {
      var ht := Locate(key);
      value := if ht == null then None else Some(ht.value);
    }

    /** The nodes of chain c from position i on, reached from ht. */
    ghost predicate Rest(c: seq<Info<V>>, i: nat, ht: Info?<V>)
      reads c
    {
      && ht == (if i < |c| then c[i] else null)
      && forall j {:trigger c[j].next} :: i <= j < |c| ==> c[j].next == if j + 1 < |c| then c[j + 1] else null
    }

    /** One more node of the old chain c. */
    method LinkNext(elm: Info<V>, ghost first: seq<seq<Info<V>>>, ghost c: seq<Info<V>>, ghost i: nat)
      requires Chained() && elm !in nodes && i < |c| && c[i] == elm && Moved(first, chains, c[..i])
      modifies `used, `chains, `nodes, data, nodes`prev, elm`next, elm`prev
      ensures Chained() && nodes == old(nodes) + {elm} && used == old(used) + 1
      ensures Moved(first, chains, c[..i + 1])
    {
      Link(elm);
      MovedNode(first, old(chains), chains, c, i);
    }

    /** The inner loop of binhash_grow moves one old chain into this table. */
    method MoveChain(first: Info?<V>, ghost c: seq<Info<V>>)
      requires Chained() && Rest(c, 0, first) && Distinct(c) && forall n :: n in c ==> n !in nodes
      modifies `used, `chains, `nodes, data, nodes`prev, c`next, c`prev
      ensures Chained() && nodes == old(nodes) + (set n | n in c) && used == old(used) + |c|
      ensures Moved(old(chains), chains, c)
    {
      var ht := first;
      ghost var i, moved: set<Info<V>> := 0, {};
      while ht != null
        invariant 0 <= i <= |c| && Chained() && Rest(c, i, ht)
        invariant nodes == old(nodes) + moved && used == old(used) + i
        invariant forall n :: n in moved ==> n in c
        invariant forall j :: 0 <= j < i ==> c[j] in moved
        invariant forall j :: i <= j < |c| ==> c[j] !in nodes
        invariant Moved(old(chains), chains, c[..i])
        decreases |c| - i
      {
        var next := ht.next;
        Apart(c, i);
        LinkNext(ht, old(chains), c, i);
        moved := moved + {ht};
        ht := next;
        i := i + 1;
      }
      assert c[..i] == c;
    }

    /** The old chains from b on are untouched, those before it are in this table. */
    ghost predicate Halfway(oldData: array<Info?<V>>, cs: seq<seq<Info<V>>>, all: set<Info<V>>, b: nat)
      requires b <= |cs| && Placed(cs, all) && oldData.Length == |cs|
      reads `size, `used, `data, `chains, `nodes, data, nodes, oldData, all
    {
      && Chained() && nodes == MovedBelow(all, |cs|, b) && used == Total(cs[..b])
      && Untouched(oldData, cs, all, b)
    }

    ghost predicate Untouched(oldData: array<Info?<V>>, cs: seq<seq<Info<V>>>, all: set<Info<V>>, b: nat)
      requires Placed(cs, all) && oldData.Length == |cs|
      reads oldData, all
    {
      forall d :: b <= d < |cs| ==> InAll(cs[d], all) && Rest(cs[d], 0, oldData[d])
    }

    /** One round of the outer loop of binhash_grow. */
    method MoveBucket(oldData: array<Info?<V>>, ghost cs: seq<seq<Info<V>>>, ghost all: set<Info<V>>, b: nat)
      requires oldData.Length == |cs| && b < |cs| && oldData != data && Placed(cs, all)
      requires Halfway(oldData, cs, all, b)
      modifies `used, `chains, `nodes, data, all`next, all`prev
      ensures Halfway(oldData, cs, all, b + 1) && Moved(old(chains), chains, cs[b])
    {
      ghost var c := cs[b];
      assert ChainPlaced(c, b, |cs|, all);
      MoveChain(oldData[b], c);
      MovedNext(cs, all, b);
      TotalTake(cs, b);
      forall d | b < d < |cs| ensures Rest(cs[d], 0, oldData[d]) {
        ghost var e := cs[d];
        assert old(Rest(e, 0, oldData[d])) && oldData[d] == old(oldData[d]);
        forall j | 0 <= j < |e| ensures e[j].next == old(e[j].next) {
          assert ChainPlaced(e, d, |cs|, all);
          assert e[j] in e && e[j] !in c;
        }
      }
    }

    /** The loops of binhash_grow. */
    method MoveAll(oldData: array<Info?<V>>, ghost cs: seq<seq<Info<V>>>, ghost all: set<Info<V>>)
      requires Placed(cs, all) && oldData.Length == |cs| && oldData != data
      requires Halfway(oldData, cs, all, 0) && StacksBelow(cs, chains, 0)
      modifies `used, `chains, `nodes, data, all`next, all`prev
      ensures Chained() && nodes == all && used == Total(cs) && |chains| == |old(chains)|
      ensures forall k :: Stack(chains, k) == Reversed(Stack(cs, k))
    {
      var b := 0;
      while b < oldData.Length
        invariant 0 <= b <= |cs| && Halfway(oldData, cs, all, b) && StacksBelow(cs, chains, b)
        invariant |chains| == |old(chains)|
      {
        ghost var before := chains;
        MoveBucket(oldData, cs, all, b);
        MovedStacks(cs, before, chains, all, b);
        b := b + 1;
      }
      assert cs[..b] == cs;
      assert nodes == all;
      assert forall k :: Hash(k, |cs|) < b;
    }

    /** binhash_grow: an array of twice the size plus one, into which every chain
        is moved node by node. Every entry survives, but the stacks come out
        reversed. */
    method Grow()
      requires Chained()
      modifies this, nodes`next, nodes`prev
      ensures Chained() && nodes == old(nodes) && used == old(used) && fresh(data)
      ensures size == 2 * old(size) + 1 && forall k :: Stack(chains, k) == Reversed(Stack(old(chains), k))
    {
      var oldData := data;
      ghost var cs, all := chains, nodes;
      forall d | 0 <= d < size ensures Rest(cs[d], 0, oldData[d]) {
        assert ChainAt(cs[d], oldData[d], all);
      }
      forall d | 0 <= d < size ensures InAll(cs[d], all) { assert ChainAt(cs[d], oldData[d], all); }
      SetSize(2 * size);
      assert nodes == MovedBelow(all, |cs|, 0);
      MoveAll(oldData, cs, all);
    }

    /** binhash_enter: the new entry goes on top of its key's stack. When the table
        has to grow first, all stacks are turned over. */
    method Enter(key: Key, value: V) returns (ht: Info<V>)
      requires Valid()
      modifies this, data, nodes`next, nodes`prev
      ensures Valid() && fresh(ht) && nodes == old(nodes) + {ht} && ht.key == key && ht.value == value
      ensures forall k ::
        Stack(chains, k) == Pushed(ht, k, Turned(Stack(old(chains), k), old(used) >= old(size)))
      ensures used == old(used) + 1 && size == if old(used) >= old(size) then 2 * old(size) + 1 else old(size)
      ensures data == old(data) || fresh(data)
    {
      ghost var turned := used >= size;
      if used >= size { Grow(); }
      assert forall k :: Stack(chains, k) == Turned(Stack(old(chains), k), turned);
      ht := new Info(key, value);
      Link(ht);
    }

    /** The pointer work of binhash_delete on position i of the chain in bucket b. */
    method Bridge(ht: Info<V>, b: nat, ghost i: nat, ghost c: seq<Info<V>>)
      requires b < data.Length && Linked(c, data[b]) && Distinct(c) && i < |c| && c[i] == ht
      modifies data, c`next, c`prev
      ensures Linked(Deleted(c, i), data[b])
      ensures forall d :: 0 <= d < data.Length && d != b ==> data[d] == old(data[d])
    {
      Apart(c, i);
      if i > 0 { Apart(c, i - 1); }
      if i + 1 < |c| { Apart(c, i + 1); }
      if ht.next != null {
        ht.next.prev := ht.prev;
      }
      if ht.prev != null {
        ht.prev.next := ht.next;
      } else {
        data[b] := ht.next;
      }
    }

    /** The other chains are left alone. */
    method Unlink(ht: Info<V>, b: nat, ghost i: nat, ghost cs: seq<seq<Info<V>>>, ghost all: set<Info<V>>)
      requires AllLinked(cs, data, all) && Placed(cs, all) && b < data.Length && i < |cs[b]| && cs[b][i] == ht
      modifies data, all`next, all`prev
      ensures AllLinked(cs[b := Deleted(cs[b], i)], data, all - {ht})
    {
      ghost var c := cs[b];
      assert ChainAt(c, data[b], all) && ChainPlaced(c, b, |cs|, all);
      Bridge(ht, b, i, c);
      forall d | 0 <= d < |cs| && d != b ensures ChainAt(cs[d], data[d], all - {ht}) {
        assert old(ChainAt(cs[d], data[d], all)) && ChainPlaced(cs[d], d, |cs|, all);
        assert forall j :: 0 <= j < |cs[d]| ==> cs[d][j] in cs[d] && cs[d][j] !in c;
      }
      DeletedAt(c, i);
    }

    /** What binhash_delete does with the node it has found. */
    method Drop(ht: Info<V>, b: nat, ghost i: nat)
      requires Chained() && b < size && i < |chains[b]| && chains[b][i] == ht
      modifies `used, `chains, `nodes, data, nodes`next, nodes`prev
      ensures Chained() && nodes == old(nodes) - {ht} && used == old(used) - 1
      ensures chains == old(chains)[b := Deleted(old(chains)[b], i)]
    {
      ghost var r := Deleted(chains[b], i);
      PlacedDelete(chains, nodes, b, i);
      TotalUpdate(chains, b, r);
      Unlink(ht, b, i, chains, nodes);
      used := used - 1;
      chains := chains[b := r];
      nodes := nodes - {ht};
    }

    /** binhash_delete: the top entry goes; deleting an unknown key is a panic. */
    method Delete(key: Key) returns (ok: bool)
      requires Valid()
      modifies this, data, nodes`next, nodes`prev
      ensures Valid() && (ok <==> Stack(old(chains), key) != [])
      ensures nodes == if ok then old(nodes) - {Stack(old(chains), key)[0]} else old(nodes)
      ensures |chains| == |old(chains)| && forall k ::
        Stack(chains, k) == if ok && k == key then Stack(old(chains), k)[1..] else Stack(old(chains), k)
    {
      var b, ht, i := Seek(key);
      ok := ht != null;
      if ok {
        FirstWithKey(chains[b], key, i);
        forall k | k != key ensures WithKey(Deleted(chains[b], i), k) == WithKey(chains[b], k) {
          OtherKey(chains[b], k, i);
        }
        Drop(ht, b, i);
      }
    }

    /** binhash_list: an array of all nodes, once each, and a terminating null.
        The writes stay within the used + 1 slots allocated. */
    method List() returns (list: array<Info?<V>>)
      requires Valid()
      ensures fresh(list) && list.Length == used + 1 && list[used] == null
      ensures forall k :: 0 <= k < used ==> list[k] != null && list[k] in nodes
      ensures forall n :: n in nodes ==> n in list[..used]
      ensures Distinct(list[..used])
    {
      list := new Info?<V>[used + 1];
      var count := 0;
      ghost var out: seq<Info<V>> := [];
      var b := 0;
      while b < size
        invariant 0 <= b <= size && out == Flat(chains[..b]) && count == |out| == Total(chains[..b])
        invariant count <= used && forall k :: 0 <= k < count ==> list[k] == out[k]
      {
        ghost var c := chains[b];
        assert ChainAt(c, data[b], nodes);
        FlatTake(chains, b);
        TotalTake(chains, b);
        TotalBound(chains, b + 1);
        ghost var i := 0;
        var member := data[b];
        while member != null
          invariant 0 <= i <= |c| && member == (if i < |c| then c[i] else null)
          invariant out == Flat(chains[..b]) + c[..i] && count == |out| == Total(chains[..b]) + i
          invariant forall k :: 0 <= k < count ==> list[k] == out[k]
          decreases |c| - i
        {
          list[count] := member;
          count := count + 1;
          out := out + [member];
          TakeNext(Flat(chains[..b]), c, i);
          member := member.next;
          i := i + 1;
        }
        assert c[..i] == c;
        b := b + 1;
      }
      assert chains[..b] == chains;
      list[count] := null;
      FlatNodes(chains, nodes, size);
      CopiedOut(list[..used], out, nodes);
    }
  }

  lemma CopiedOut<V>(l: seq<Info?<V>>, out: seq<Info<V>>, nodes: set<Info<V>>)
    requires |l| == |out| && forall k :: 0 <= k < |l| ==> l[k] == out[k]
    requires Distinct(out) && forall n :: n in out <==> n in nodes
    ensures Distinct(l) && (forall n :: n in nodes ==> n in l)
    ensures forall k :: 0 <= k < |l| ==> l[k] != null && l[k] in nodes
  {
    forall n | n in nodes ensures n in l {
      var k :| 0 <= k < |out| && out[k] == n;
      assert l[k] == n;
    }
    assert forall k :: 0 <= k < |out| ==> out[k] in out;
  }

  function Flat<X>(cs: seq<seq<X>>): seq<X> {
    if cs == [] then [] else cs[0] + Flat(cs[1..])
  }

  lemma {:induction false} FlatTake<X>(cs: seq<seq<X>>, b: nat)
    requires b < |cs|
    ensures Flat(cs[..b + 1]) == Flat(cs[..b]) + cs[b]
  {
    if b == 0 {
      assert cs[..1][1..] == [];
    } else {
      FlatTake(cs[1..], b - 1);
      assert cs[..b + 1][1..] == cs[1..][..b] && cs[..b][1..] == cs[1..][..b - 1];
    }
  }

  lemma {:induction false} TotalBound<X>(cs: seq<seq<X>>, b: nat)
    requires b <= |cs|
    ensures Total(cs[..b]) <= Total(cs)
  {
    if b == 0 {
    } else {
      TotalBound(cs[1..], b - 1);
      assert cs[..b][1..] == cs[1..][..b - 1];
    }
  }

  lemma PlacedDelete<V>(chains: seq<seq<Info<V>>>, nodes: set<Info<V>>, b: nat, i: nat)
    requires Placed(chains, nodes) && b < |chains| && i < |chains[b]|
    ensures Placed(chains[b := Deleted(chains[b], i)], nodes - {chains[b][i]})
  {
    var c, x := chains[b], chains[b][i];
    var r := Deleted(c, i);
    var cs := chains[b := r];
    assert ChainPlaced(c, b, |chains|, nodes);
    assert forall j :: 0 <= j < |r| ==> r[j] == c[if j < i then j else j + 1];
    forall d | 0 <= d < |cs| ensures ChainPlaced(cs[d], d, |cs|, nodes - {x}) {
      assert ChainPlaced(chains[d], d, |chains|, nodes);
    }
    forall n | n in nodes - {x} ensures NodePlaced(cs, n) {
      assert NodePlaced(chains, n);
      if Hash(n.key, |cs|) == b {
        var j :| 0 <= j < |c| && c[j] == n;
        assert r[if j < i then j else j - 1] == n;
      }
    }
  }

  /** The keys of the first b old chains have their stacks, turned over. */
  ghost predicate StacksBelow<V>(cs: seq<seq<Info<V>>>, chains: seq<seq<Info<V>>>, b: nat) {
    |cs| > 0 && |chains| > 0
    && forall k :: Stack(chains, k) == if Hash(k, |cs|) < b then Reversed(Stack(cs, k)) else []
  }

  lemma MovedStacks<V>(cs: seq<seq<Info<V>>>, before: seq<seq<Info<V>>>, after: seq<seq<Info<V>>>,
                       all: set<Info<V>>, b: nat)
    requires Placed(cs, all) && b < |cs| && StacksBelow(cs, before, b) && Moved(before, after, cs[b])
    ensures StacksBelow(cs, after, b + 1)
  {
    forall k ensures Stack(after, k) == if Hash(k, |cs|) < b + 1 then Reversed(Stack(cs, k)) else [] {
      assert Stack(after, k) == Reversed(WithKey(cs[b], k)) + Stack(before, k);
      MovedStack(cs, all, b, k);
    }
  }

  /** Only the keys that belong there have entries in chain b. */
  lemma MovedStack<V>(cs: seq<seq<Info<V>>>, all: set<Info<V>>, b: nat, k: Key)
    requires Placed(cs, all) && b < |cs|
    ensures WithKey(cs[b], k) == if Hash(k, |cs|) == b then Stack(cs, k) else []
  {
    if Hash(k, |cs|) != b {
      assert ChainPlaced(cs[b], b, |cs|, all);
      NoneWithKey(cs[b], k);
    }
  }

  /** elm has been put on top of its key's stack. */
  ghost predicate OnTop<V>(before: seq<seq<Info<V>>>, after: seq<seq<Info<V>>>, elm: Info<V>) {
    |after| == |before| > 0 && forall k :: Stack(after, k) == Pushed(elm, k, Stack(before, k))
  }

  /** The nodes of c have been put there one after the other. */
  ghost predicate Moved<V>(before: seq<seq<Info<V>>>, after: seq<seq<Info<V>>>, c: seq<Info<V>>) {
    |after| == |before| > 0 && forall k :: Stack(after, k) == Reversed(WithKey(c, k)) + Stack(before, k)
  }

  lemma MovedNode<V>(first: seq<seq<Info<V>>>, before: seq<seq<Info<V>>>, after: seq<seq<Info<V>>>,
                     c: seq<Info<V>>, i: nat)
    requires i < |c| && Moved(first, before, c[..i]) && OnTop(before, after, c[i])
    ensures Moved(first, after, c[..i + 1])
  {
    forall k ensures Stack(after, k) == Reversed(WithKey(c[..i + 1], k)) + Stack(first, k) {
      MovedOne(c, k, i);
    }
  }

  lemma MovedOne<V>(c: seq<Info<V>>, k: Key, i: nat)
    requires i < |c|
    ensures Reversed(WithKey(c[..i + 1], k)) == Pushed(c[i], k, Reversed(WithKey(c[..i], k)))
  {
    assert c[..i + 1] == c[..i] + [c[i]];
    WithKeyConcat(c[..i], [c[i]], k);
    var one := WithKey([c[i]], k);
    assert one == if k == c[i].key then [c[i]] else [];
    ReversedConcat(WithKey(c[..i], k), one);
    assert Reversed(one) == one;
  }

  /** Growing keeps what is found for a key exactly when the top and the bottom of
      its stack are alike. */
  lemma GrowKeepsTopExact<V>(s: seq<Info<V>>)
    requires s != []
    ensures Values(Reversed(s))[0] == Values(s)[0] <==> s[|s| - 1].value == s[0].value
  {
    ReversedAt(s, 0);
  }

  /** Two entries for one key: the newer is found, until the table grows. */
  method OlderComesUp() returns (first: Option<int>, later: Option<int>)
    ensures first == Some(2) && later == Some(1)
  {
    var table, a, b := TwoDeep([1]);
    first := table.Find([1]);
    FillUp(table, [1], [2]);
    var _ := table.Enter([2], 0);
    TurnTwo(a, b);
    later := table.Find([1]);
  }

  method TwoDeep(k: Key) returns (table: Table<int>, ghost a: Info<int>, ghost b: Info<int>)
    ensures fresh(table) && fresh(table.data) && fresh(table.nodes) && table.Valid()
    ensures Stack(table.chains, k) == [b, a] && a.value == 1 && b.value == 2
  {
    table := new Table<int>(1);
    a := table.Enter(k, 1);
    b := table.Enter(k, 2);
  }

  lemma TurnTwo<X>(a: X, b: X)
    ensures Reversed([b, a]) == [a, b]
  {
    assert [b, a][1..] == [a];
    assert Reversed([a]) == [a];
  }

  /** Entries for another key, until the table is about to grow. */
  method FillUp(table: Table<int>, ghost k: Key, other: Key)
    requires table.Valid() && k != other
    modifies table, table.data, table.nodes
    ensures table.Valid() && table.used >= table.size && Stack(table.chains, k) == Stack(old(table.chains), k)
    ensures fresh(table.nodes - old(table.nodes)) && (table.data == old(table.data) || fresh(table.data))
  {
    while table.used < table.size
      invariant fresh(table.nodes - old(table.nodes)) && (table.data == old(table.data) || fresh(table.data))
      invariant table.Valid() && Stack(table.chains, k) == Stack(old(table.chains), k)
      decreases table.size - table.used
    {
      var _ := table.Enter(other, 0);
    }
  }

  // ---------------------------------------------------------------------
  // One entry for each key: a finite map

  ghost predicate IsMap<V>(chains: seq<seq<Info<V>>>, contents: map<Key, V>)
    requires |chains| > 0
  {
    forall k :: Values(Stack(chains, k)) == if k in contents then [contents[k]] else []
  }

  /** Entering a new key, whether the table grows or not, updates the map. */
  lemma EnterUpdates<V>(cs: seq<seq<Info<V>>>, cs': seq<seq<Info<V>>>, contents: map<Key, V>,
                        key: Key, ht: Info<V>, grows: bool)
    requires |cs| > 0 && |cs'| > 0 && IsMap(cs, contents) && key !in contents && ht.key == key
    requires forall k :: Stack(cs', k) == Pushed(ht, k, Turned(Stack(cs, k), grows))
    ensures IsMap(cs', contents[key := ht.value])
  {
    forall k ensures Values(Stack(cs', k))
        == if k in contents[key := ht.value] then [contents[key := ht.value][k]] else [] {
      var s := Stack(cs, k);
      assert |Values(s)| <= 1;
      assert Reversed(s) == s;
    }
  }

  /** Deleting a key removes it from the map. */
  lemma DeleteRemoves<V>(cs: seq<seq<Info<V>>>, cs': seq<seq<Info<V>>>, contents: map<Key, V>, key: Key)
    requires |cs| > 0 && |cs'| > 0 && IsMap(cs, contents)
    requires forall k :: Stack(cs', k) == if k == key && Stack(cs, k) != [] then Stack(cs, k)[1..] else Stack(cs, k)
    ensures (Stack(cs, key) != [] <==> key in contents) && IsMap(cs', contents - {key})
  {
    forall k ensures Values(Stack(cs', k)) == if k in contents - {key} then [contents[k]] else [] {
      OneOrNone(cs, contents, k);
      if k == key { NoneLeft(Stack(cs, k), Stack(cs', k)); }
    }
    OneOrNone(cs, contents, key);
  }

  lemma NoneLeft<V>(s: seq<Info<V>>, s': seq<Info<V>>)
    requires |s| <= 1 && s' == if s != [] then s[1..] else s
    ensures Values(s') == []
  {}

  lemma OneOrNone<V>(cs: seq<seq<Info<V>>>, contents: map<Key, V>, k: Key)
    requires |cs| > 0 && IsMap(cs, contents)
    ensures |Stack(cs, k)| == if k in contents then 1 else 0
  {
    assert |Values(Stack(cs, k))| == |Stack(cs, k)|;
  }

  /** The nodes of the first b chains of the old table. */
  ghost function MovedBelow<V>(all: set<Info<V>>, oldSize: nat, b: nat): set<Info<V>>
    requires oldSize > 0
  {
    set n | n in all && Hash(n.key, oldSize) < b
  }

  lemma MovedNext<V>(cs: seq<seq<Info<V>>>, all: set<Info<V>>, b: nat)
    requires b < |cs| && Placed(cs, all)
    ensures MovedBelow(all, |cs|, b + 1) == MovedBelow(all, |cs|, b) + (set n | n in cs[b])
  {
    assert ChainPlaced(cs[b], b, |cs|, all);
    forall n | n in all && Hash(n.key, |cs|) == b ensures n in cs[b] {
      assert NodePlaced(cs, n);
    }
  }

  lemma {:induction false} TotalTake<X>(cs: seq<seq<X>>, b: nat)
    requires b < |cs|
    ensures Total(cs[..b + 1]) == Total(cs[..b]) + |cs[b]|
  {
    if b == 0 {
      assert cs[..1][1..] == [];
    } else {
      TotalTake(cs[1..], b - 1);
      assert cs[..b + 1][1..] == cs[1..][..b] && cs[..b][1..] == cs[1..][..b - 1];
    }
  }

  /** The chains laid end to end list every node once. */
  lemma {:induction false} FlatNodes<V>(chains: seq<seq<Info<V>>>, nodes: set<Info<V>>, b: nat)
    requires Placed(chains, nodes) && b <= |chains|
    ensures Distinct(Flat(chains[..b])) && |Flat(chains[..b])| == Total(chains[..b])
    ensures forall n :: n in Flat(chains[..b]) <==> n in MovedBelow(nodes, |chains|, b)
  {
    if b == 0 {
    } else {
      FlatNodes(chains, nodes, b - 1);
      FlatTake(chains, b - 1);
      TotalTake(chains, b - 1);
      MovedNext(chains, nodes, b - 1);
      assert ChainPlaced(chains[b - 1], b - 1, |chains|, nodes);
      DistinctConcat(Flat(chains[..b - 1]), chains[b - 1]);
    }
  }

  lemma DistinctConcat<X>(a: seq<X>, b: seq<X>)
    requires Distinct(a) && Distinct(b) && forall x :: x in a ==> x !in b
    ensures Distinct(a + b)
  {
    forall i, j | 0 <= i < j < |a + b| ensures (a + b)[i] != (a + b)[j] {
      if i < |a| <= j { assert a[i] in a && b[j - |a|] in b; }
    }
  }
}
