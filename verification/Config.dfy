/** Re-reading the configuration (src/master/master_conf.c): the linked list of
    services is marked, updated from the entries, and swept in place. */
module Config {
  import opened Options
  import opened Seqs

  /** A service is identified by its endpoint name and its transport type. */
  datatype Key = Key(name: string, kind: int)

  /** What an entry configures. */
  datatype Settings = Settings(
    condwake: bool, wakeupTime: nat, maxProc: nat, throttleDelay: nat, path: string, args: seq<string>)

  datatype Entry = Entry(key: Key, settings: Settings)

  /** MASTER_SERV, with the members master_conf.c looks at. */
  class Serv {
    const key: Key
    var mark: bool
    var condwake: bool
    var wakeupTime: nat
    var maxProc: nat
    var throttleDelay: nat
    var path: string
    var args: seq<string>
    var availProc: int
    var totalProc: int
    var next: Serv?

    /** get_master_ent */
    constructor (e: Entry)
      ensures key == e.key && !mark && Configured() == e.settings
      ensures availProc == 0 && totalProc == 0 && next == null
    {
      key, mark, next := e.key, false, null;
      availProc, totalProc := 0, 0;
      condwake, wakeupTime := e.settings.condwake, e.settings.wakeupTime;
      maxProc, throttleDelay := e.settings.maxProc, e.settings.throttleDelay;
      path, args := e.settings.path, e.settings.args;
    }

    function Configured(): Settings
      reads this
    {
      Settings(condwake, wakeupTime, maxProc, throttleDelay, path, args)
    }
  }

  /** What the last entry for a key says. */
  function Last(es: seq<Entry>, k: Key): Option<Settings> {
    if es == [] then None
    else if es[|es| - 1].key == k then Some(es[|es| - 1].settings)
    else Last(es[..|es| - 1], k)
  }

  lemma {:induction false} LastExact(es: seq<Entry>, k: Key)
    ensures Last(es, k).Some? <==> exists i :: 0 <= i < |es| && es[i].key == k
  {
    if es != [] { LastExact(es[..|es| - 1], k); }
  }

  lemma EntryNamed(es: seq<Entry>, e: Entry)
    requires e in es
    ensures Last(es, e.key).Some?
  {
    LastExact(es, e.key);
  }

  lemma LastAppend(es: seq<Entry>, e: Entry, k: Key)
    ensures Last(es + [e], k) == if e.key == k then Some(e.settings) else Last(es, k)
  {
    assert (es + [e])[..|es|] == es;
  }

  /** The elements of s outside the set m, in order. */
  function Without<X(==)>(s: seq<X>, m: set<X>): seq<X> {
    if s == [] then []
    else (if s[0] in m then [] else [s[0]]) + Without(s[1..], m)
  }

  lemma {:induction false} WithoutMembers<X>(s: seq<X>, m: set<X>)
    ensures forall x :: x in Without(s, m) <==> x in s && x !in m
  {
    if s != [] { WithoutMembers(s[1..], m); }
  }

  /** s is the chain of next pointers from `first`. */
  ghost predicate Chain(s: seq<Serv>, first: Serv?)
    reads s`next
  {
    && first == (if s == [] then null else s[0])
    && forall i {:trigger s[i].next} :: 0 <= i < |s| ==> s[i].next == if i + 1 < |s| then s[i + 1] else null
  }

  /** No two services share name and type. */
  ghost predicate DistinctKeys(s: seq<Serv>) {
    forall i, j :: Pair(i, j) && 0 <= i < j < |s| ==> s[i].key != s[j].key
  }

  /** The calls that stop the members of m, in list order. */
  function Stops(s: seq<Serv>, m: set<Serv>): seq<Call> {
    if s == [] then [] else (if s[0] in m then [StopService(s[0])] else []) + Stops(s[1..], m)
  }

  lemma Unroll(kept: seq<Serv>, calls: seq<Call>, serv: Serv, tail: seq<Serv>, gone: set<Serv>)
    ensures kept + Without([serv] + tail, gone)
         == (if serv in gone then kept else kept + [serv]) + Without(tail, gone)
    ensures calls + Stops([serv] + tail, gone)
         == (if serv in gone then calls + [StopService(serv)] else calls) + Stops(tail, gone)
  {
    assert ([serv] + tail)[1..] == tail;
    assert kept + ([serv] + Without(tail, gone)) == (kept + [serv]) + Without(tail, gone);
    assert calls + ([StopService(serv)] + Stops(tail, gone)) == (calls + [StopService(serv)]) + Stops(tail, gone);
  }

  /** Services in front of the list that stay. */
  lemma {:induction false} SweepConcat(a: seq<Serv>, b: seq<Serv>, m: set<Serv>)
    requires forall n :: n in a ==> n !in m
    ensures Without(a + b, m) == a + Without(b, m) && Stops(a + b, m) == Stops(b, m)
  {
    if a == [] {
      assert a + b == b;
    } else {
      assert (a + b)[1..] == a[1..] + b;
      SweepConcat(a[1..], b, m);
    }
  }

  /** A call, with the settings that the service has when it is made. */
  datatype Call =
    | StartService(serv: Serv, settings: Settings)
    | RestartService(serv: Serv, settings: Settings)
    | StopService(serv: Serv)

  predicate Named(s: seq<Serv>, k: Key) {
    exists n :: n in s && n.key == k
  }

  ghost predicate AllNamed(s: seq<Serv>, es: seq<Entry>) {
    forall n :: n in s ==> Last(es, n.key).Some?
  }

  lemma NamedGrows(new': seq<Serv>, added: seq<Serv>, es: seq<Entry>, e: Entry)
    requires AllNamed(added, es) && forall n :: n in new' ==> n.key == e.key
    ensures AllNamed(new' + added, es + [e])
  {
    forall n | n in new' + added ensures Last(es + [e], n.key).Some? {
      LastAppend(es, e, n.key);
    }
  }

  /** `same` contains the services in `all` that no entry names. */
  ghost predicate AllUnnamed(all: set<Serv>, es: seq<Entry>, same: set<Serv>) {
    forall n :: n in all && Last(es, n.key) == None ==> n in same
  }

  lemma UnnamedNext(all: set<Serv>, same: set<Serv>, es: seq<Entry>, e: Entry) returns (same': set<Serv>)
    requires AllUnnamed(all, es, same)
    ensures AllUnnamed(all, es + [e], same') && forall n :: n in same' <==> n in same && n.key != e.key
  {
    same' := set n | n in same && n.key != e.key;
    forall n | n in all && Last(es + [e], n.key) == None ensures n in same' {
      LastAppend(es, e, n.key);
    }
  }

  /** What the configuration reader calls for an entry. */
  predicate Handles(c: Call, e: Entry, known: bool) {
    c.serv.key == e.key && (if known then c.RestartService? else c.StartService?) && c.settings == e.settings
  }

  /** One call for each entry, in order, on a service now in the list: a restart
      if the service was listed before or an earlier entry named it, else a start. */
  ghost predicate AllHandled(cs: seq<Call>, es: seq<Entry>, was: seq<Serv>, list: seq<Serv>) {
    |cs| == |es| && forall i :: 0 <= i < |es| ==>
      cs[i].serv in list && Handles(cs[i], es[i], Named(was, es[i].key) || Last(es[..i], es[i].key).Some?)
  }

  lemma HandledNext(cs: seq<Call>, es: seq<Entry>, was: seq<Serv>, list: seq<Serv>,
                    e: Entry, c: Call, list': seq<Serv>, known: bool)
    requires AllHandled(cs, es, was, list) && (forall n :: n in list ==> n in list') && c.serv in list'
    requires Handles(c, e, known) && (known <==> Named(was, e.key) || Last(es, e.key).Some?)
    ensures AllHandled(cs + [c], es + [e], was, list')
  {
    var es' := es + [e];
    forall i | 0 <= i < |es'|
      ensures Handles((cs + [c])[i], es'[i], Named(was, es'[i].key) || Last(es'[..i], es'[i].key).Some?)
    {
      assert es'[..i] == es[..i];
    }
    assert es[..|es|] == es;
  }

  /** The services of s that no entry names. */
  function Unnamed(s: seq<Serv>, es: seq<Entry>): set<Serv> {
    set n | n in s && Last(es, n.key) == None
  }

  class ServiceList {
    var head: Serv?
    var calls: seq<Call>         // the start, restart and stop calls made
    ghost var list: seq<Serv>
    ghost var nodes: set<Serv>

    ghost predicate Valid()
      reads `head, `list, `nodes, nodes`next
    {
      && (forall n :: n in list ==> n in nodes) && (forall n :: n in nodes ==> n in list)
      && Chain(list, head) && DistinctKeys(list)
    }

    /** The search loop of master_config. */
    method Find(key: Key) returns (serv: Serv?, ghost i: nat)
      requires Valid()
      ensures i <= |list| && serv == (if i < |list| then list[i] else null)
      ensures forall j :: 0 <= j < i ==> list[j].key != key
      ensures serv != null ==> serv.key == key
    {
      serv := head;
      i := 0;
      while serv != null && serv.key != key
        invariant 0 <= i <= |list| && serv == (if i < |list| then list[i] else null)
        invariant forall j :: 0 <= j < i ==> list[j].key != key
        decreases |list| - i
      {
        serv := serv.next;
        i := i + 1;
      }
    }

    /** One round of the marking loop. */
    method MarkOne(serv: Serv, ghost i: nat) returns (next: Serv?)
      requires Valid() && i < |list| && serv == list[i]
      modifies serv`mark
      ensures Valid() && serv.mark && next == if i + 1 < |list| then list[i + 1] else null
    {
      serv.mark := true;
      next := serv.next;
    }

    /** The marking loop of master_refresh. */
    method MarkAll()
      requires Valid()
      modifies nodes`mark
      ensures Valid() && forall i :: 0 <= i < |list| ==> list[i].mark
    {
      var serv := head;
      ghost var i, done: set<Serv> := 0, {};
      while serv != null
        invariant 0 <= i <= |list| && serv == (if i < |list| then list[i] else null)
        invariant Valid() && forall n :: n in done ==> n.mark
        invariant forall j :: 0 <= j < i ==> list[j] in done
        decreases |list| - i
      {
        assert serv in list;
        done := done + {serv};
        serv := MarkOne(serv, i);
        i := i + 1;
      }
    }

    /** `*servp = serv->next`, where `prev` stands for servp: it is the service
        whose next is looked at, or null for the list head. */
    method Bypass(prev: Serv?, serv: Serv, ghost kept: seq<Serv>, ghost rest: seq<Serv>) returns (next: Serv?)
      requires Valid() && list == kept + [serv] + rest
      requires prev == if kept == [] then null else kept[|kept| - 1]
      modifies `head, `list, `nodes, nodes`next
      ensures Valid() && list == kept + rest && nodes == old(nodes) - {serv}
      ensures next == if rest == [] then null else rest[0]
    {
      ghost var k, all, r := |kept|, list, kept + rest;
      Unlinked(all, kept, serv, rest);
      assert all[k] == serv && (k > 0 ==> all[k - 1] == prev) && (rest != [] ==> all[k + 1] == rest[0]);
      next := serv.next;
      if prev == null { head := next; } else { prev.next := next; }
      list, nodes := r, nodes - {serv};
      forall i {:trigger r[i].next} | 0 <= i < |r| ensures r[i].next == if i + 1 < |r| then r[i + 1] else null {
        assert i < k ==> r[i] == all[i] && (i < k - 1 ==> r[i] != prev);
        assert i >= k ==> r[i] == all[i + 1] && r[i] != prev;
      }
      assert head == if r == [] then null else r[0] by { assert k > 0 ==> r[0] == all[0]; }
      assert Chain(r, head);
    }

    /** One round of the sweep: a marked service is stopped and dropped, any other
        one is kept. */
    method SweepOne(prev: Serv?, serv: Serv, ghost kept: seq<Serv>, ghost rest: seq<Serv>)
        returns (prev': Serv?, next: Serv?, ghost kept': seq<Serv>)
      requires Valid() && list == kept + [serv] + rest
      requires prev == if kept == [] then null else kept[|kept| - 1]
      modifies this, nodes`next
      ensures Valid() && nodes <= old(nodes) && list == kept' + rest
      ensures kept' == if serv.mark then kept else kept + [serv]
      ensures calls == if serv.mark then old(calls) + [StopService(serv)] else old(calls)
      ensures prev' == (if kept' == [] then null else kept'[|kept'| - 1])
      ensures next == if rest == [] then null else rest[0]
    {
      if serv.mark {
        calls := calls + [StopService(serv)];
        next := Bypass(prev, serv, kept, rest);
        prev', kept' := prev, kept;
      } else {
        assert list[|kept|] == serv;
        prev', kept' := serv, kept + [serv];
        next := serv.next;
      }
    }

    /** The sweep of master_refresh. */
    method Sweep()
      requires Valid()
      modifies this, nodes`next
      ensures Valid() && nodes <= old(nodes) && list == Without(old(list), old(Marked(list)))
      ensures calls == old(calls) + Stops(old(list), old(Marked(list)))
    {
      var prev: Serv?, serv := null, head;
      ghost var kept: seq<Serv>, rest, gone := [], list, Marked(list);
      ghost var goal, trace := Without(list, gone), calls + Stops(list, gone);
      while serv != null
        invariant serv == (if rest == [] then null else rest[0])
        invariant prev == if kept == [] then null else kept[|kept| - 1]
        invariant list == kept + rest && kept + Without(rest, gone) == goal
        invariant calls + Stops(rest, gone) == trace
        invariant Valid() && nodes <= old(nodes)
        invariant forall n :: n in rest ==> (n in gone <==> n.mark)
        decreases |rest|
      {
        ghost var tail := rest[1..];
        assert rest == [serv] + tail && serv in rest;
        Regroup(kept, [serv], tail);
        Unroll(kept, calls, serv, tail, gone);
        prev, serv, kept := SweepOne(prev, serv, kept, tail);
        rest := tail;
      }
      assert list == kept == goal;
    }

    /** An entry for a service that is not listed. */
    method AddFront(e: Entry)
      requires Valid() && forall j :: 0 <= j < |list| ==> list[j].key != e.key
      modifies this
      ensures |list| > 0 && list == [list[0]] + old(list) && nodes == old(nodes) + {list[0]}
      ensures Valid() && fresh(list[0])
      ensures list[0].key == e.key && list[0].Configured() == e.settings && !list[0].mark
      ensures calls == old(calls) + [StartService(list[0], e.settings)]
    {
      var entry := new Serv(e);
      entry.next := head;
      head := entry;
      calls := calls + [StartService(entry, entry.Configured())];
      KeysAdded(list, entry);
      list, nodes := [entry] + list, nodes + {entry};
    }

    /** The body of the loop in master_config, for one entry. */
    method Update(e: Entry) returns (ghost call: Call)
      requires Valid()
      modifies this, nodes`mark, nodes`condwake, nodes`wakeupTime, nodes`maxProc
      modifies nodes`throttleDelay, nodes`path, nodes`args
      ensures Valid() && old(nodes) <= nodes
      ensures forall n :: n in old(nodes) ==>
        && n.Configured() == (if n.key == e.key then e.settings else old(n.Configured()))
        && n.mark == (old(n.mark) && n.key != e.key)
      ensures if exists n :: n in old(list) && n.key == e.key
              then list == old(list)
              else |list| == |old(list)| + 1 && list[1..] == old(list) && fresh(list[0])
                   && list[0].key == e.key && list[0].Configured() == e.settings && !list[0].mark
      ensures calls == old(calls) + [call] && call.serv in list && Handles(call, e, old(HasService(e.key)))
    {
      var serv, i := Find(e.key);
      if serv == null {
        AddFront(e);
        call := StartService(list[0], e.settings);
      } else {
        KeysApart(list, i);
        serv.mark := false;
        serv.condwake := e.settings.condwake;
        serv.wakeupTime := e.settings.wakeupTime;
        serv.maxProc := e.settings.maxProc;
        serv.throttleDelay := e.settings.throttleDelay;
        serv.path, serv.args := e.settings.path, e.settings.args;
        call := RestartService(serv, serv.Configured());
        calls := calls + [RestartService(serv, serv.Configured())];
        assert serv in list;
      }
    }

    /** Each listed service has the settings and lost the mark of the last entry for
        it, and each entry has its service. */
    ghost predicate Reflects(es: seq<Entry>)
      reads this, nodes
      requires forall n :: n in list ==> n in nodes
    {
      && (forall n :: n in list && Last(es, n.key).Some? ==>
            n.Configured() == Last(es, n.key).value && !n.mark)
      && (forall e :: e in es ==> HasService(e.key))
    }

    ghost predicate HasService(k: Key)
      reads `list
    {
      Named(list, k)
    }

    /** One more entry, after those in `done`. */
    method Apply(e: Entry, ghost done: seq<Entry>) returns (ghost new': seq<Serv>, ghost call: Call)
      requires Valid() && Reflects(done)
      modifies this, nodes`mark, nodes`condwake, nodes`wakeupTime, nodes`maxProc
      modifies nodes`throttleDelay, nodes`path, nodes`args
      ensures Valid() && Reflects(done + [e]) && old(nodes) <= nodes
      ensures list == new' + old(list) && forall n :: n in new' ==> fresh(n) && n.key == e.key
      ensures calls == old(calls) + [call] && call.serv in list && Handles(call, e, old(HasService(e.key)))
      ensures forall n :: n in old(nodes) && n.key != e.key ==>
        n.mark == old(n.mark) && n.Configured() == old(n.Configured())
    {
      ghost var was, known := list, HasService(e.key);
      call := Update(e);
      new' := if known then [] else [list[0]];
      assert list == new' + was;
      forall n | n in list && Last(done + [e], n.key).Some?
        ensures n.Configured() == Last(done + [e], n.key).value && !n.mark
      {
        LastAppend(done, e, n.key);
        assert n in was || n == list[0];
      }
      forall x | x in done + [e] ensures HasService(x.key) {
        if x in done {
          assert old(HasService(x.key));
        } else if !known {
          assert list[0] in list;
        }
      }
    }

    /** master_config: new services go to the front, known ones are updated. A
        service that no entry names keeps its mark and settings. */
    method Configure(es: seq<Entry>) returns (ghost added: seq<Serv>, ghost made: seq<Call>)
      requires Valid()
      modifies this, nodes`mark, nodes`condwake, nodes`wakeupTime, nodes`maxProc
      modifies nodes`throttleDelay, nodes`path, nodes`args
      ensures Valid() && Reflects(es) && list == added + old(list) && old(nodes) <= nodes
      ensures AllNamed(added, es) && forall n :: n in added ==> fresh(n)
      ensures calls == old(calls) + made && AllHandled(made, es, old(list), list)
      ensures forall n :: n in old(nodes) && Last(es, n.key) == None ==>
        n.mark == old(n.mark) && n.Configured() == old(n.Configured())
    {
      added, made := [], [];
      ghost var same := nodes;
      var k := 0;
      while k < |es|
        invariant 0 <= k <= |es| && Valid() && Reflects(es[..k]) && list == added + old(list)
        invariant old(nodes) <= nodes && fresh(nodes - old(nodes))
        invariant AllNamed(added, es[..k]) && forall n :: n in added ==> fresh(n)
        invariant calls == old(calls) + made && AllHandled(made, es[..k], old(list), list)
        invariant same <= old(nodes) && AllUnnamed(old(nodes), es[..k], same)
        invariant forall n :: n in same ==> n.mark == old(n.mark) && n.Configured() == old(n.Configured())
      {
        assert es[..k + 1] == es[..k] + [es[k]];
        KnownExact(es[..k], es[k].key, added, old(list));
        ghost var known, l := HasService(es[k].key), list;
        ghost var new', call := Apply(es[k], es[..k]);
        HandledNext(made, es[..k], old(list), l, es[k], call, list, known);
        NamedGrows(new', added, es[..k], es[k]);
        same := UnnamedNext(old(nodes), same, es[..k], es[k]);
        Regroup(new', added, old(list));
        Regroup(old(calls), made, [call]);
        made := made + [call];
        added := new' + added;
        k := k + 1;
      }
      assert es[..k] == es;
    }

    lemma KnownExact(es: seq<Entry>, k: Key, added: seq<Serv>, was: seq<Serv>)
      requires Valid() && Reflects(es) && list == added + was
      requires AllNamed(added, es)
      ensures HasService(k) <==> Named(was, k) || Last(es, k).Some?
    {
      LastExact(es, k);
      if Last(es, k).Some? {
        var i :| 0 <= i < |es| && es[i].key == k;
        assert es[i] in es;
      } else if Named(was, k) {
        var n :| n in was && n.key == k;
        assert n in list;
      }
    }

    /** master_refresh: afterwards the list holds a service for each name and type
        in the configuration and no other, each with the settings of the last
        entry for it. The survivors are the old objects, in their old order, with
        counters untouched (they are outside the frame); what disappeared from
        the configuration is stopped last, after the calls `made` for the entries. */
    method Refresh(es: seq<Entry>) returns (ghost added: seq<Serv>, ghost made: seq<Call>)
      requires Valid()
      modifies this, nodes`mark, nodes`condwake, nodes`wakeupTime, nodes`maxProc
      modifies nodes`throttleDelay, nodes`path, nodes`args, nodes`next
      ensures Valid() && Reflects(es)
      ensures forall n :: n in list ==> Last(es, n.key).Some?
      ensures list == added + Without(old(list), Unnamed(old(list), es)) && forall n :: n in added ==> fresh(n)
      ensures AllHandled(made, es, old(list), added + old(list))
      ensures calls == old(calls) + made + Stops(old(list), Unnamed(old(list), es))
    {
      ghost var was := list;
      MarkAll();
      assert forall n :: n in was ==> n.mark;
      added, made := Configure(es);
      ghost var all, gone := list, Marked(list);
      GoneExact(was, added, es);
      SweepConcat(added, was, gone);
      WithoutMembers(all, gone);
      Sweep();
      forall e | e in es ensures HasService(e.key) {
        var n :| n in all && n.key == e.key;
        EntryNamed(es, e);
        assert n in list;
      }
    }

    /** After marking and updating, exactly the unnamed services carry the mark. */
    lemma GoneExact(was: seq<Serv>, added: seq<Serv>, es: seq<Entry>)
      requires Valid() && Reflects(es) && list == added + was
      requires AllNamed(added, es)
      requires forall n :: n in was && Last(es, n.key) == None ==> n.mark
      ensures Marked(list) == Unnamed(was, es)
    {
      forall n ensures n in Marked(list) <==> n in Unnamed(was, es) {}
    }

    ghost function Marked(s: seq<Serv>): set<Serv>
      reads s
    {
      set n | n in s && n.mark
    }
  }

  lemma KeysApart(s: seq<Serv>, i: nat)
    requires DistinctKeys(s) && i < |s|
    ensures forall j :: 0 <= j < |s| && j != i ==> s[j].key != s[i].key
  {
    forall j | 0 <= j < |s| && j != i ensures s[j].key != s[i].key {
      assert Pair(i, j) && Pair(j, i);
    }
  }

  /** What taking serv out of the list leaves, apart from the links. */
  lemma Unlinked(all: seq<Serv>, kept: seq<Serv>, serv: Serv, rest: seq<Serv>)
    requires DistinctKeys(all) && all == kept + [serv] + rest
    ensures DistinctKeys(kept + rest)
    ensures forall n :: n in kept + rest <==> n in all && n != serv
    ensures kept != [] ==> forall j :: 0 <= j < |all| && j != |kept| - 1 ==> all[j] != all[|kept| - 1]
  {
    var k := |kept|;
    assert Deleted(all, k) == kept + rest && all[k] == serv;
    KeysDeleted(all, k);
    if k > 0 { KeysApart(all, k - 1); }
  }

  lemma KeysAdded(s: seq<Serv>, x: Serv)
    requires DistinctKeys(s) && forall j :: 0 <= j < |s| ==> s[j].key != x.key
    ensures DistinctKeys([x] + s)
  {
    forall i, j | 0 <= i < j < |[x] + s| ensures ([x] + s)[i].key != ([x] + s)[j].key {
      assert Pair(i - 1, j - 1);
    }
  }

  lemma KeysDeleted(s: seq<Serv>, i: nat)
    requires DistinctKeys(s) && i < |s|
    ensures DistinctKeys(Deleted(s, i))
    ensures forall n :: n in Deleted(s, i) <==> n in s && n != s[i]
  {
    var r := Deleted(s, i);
    forall j, k | 0 <= j < k < |r| ensures r[j].key != r[k].key {
      assert Pair(if j < i then j else j + 1, if k < i then k else k + 1);
    }
    KeysApart(s, i);
    forall n | n in s && n != s[i] ensures n in r {
      var j :| 0 <= j < |s| && s[j] == n;
      assert r[if j < i then j else j - 1] == n;
    }
  }
}
