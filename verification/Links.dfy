/** How the process manager's descriptors and child table stand on the
    registration table of events.c and the hash table of binhash.c. */
module Links {
  import opened Options
  import opened Master
  import Protocol
  import R = Registry
  import B = BinHash

  // ---------------------------------------------------------------------
  // Master.reg is what the registration table holds for reading

  const AVAIL_CB := 1   // stands for master_avail_event
  const STATUS_CB := 2  // stands for master_status_event
  const READ := R.Mask(true, false)

  function CallbackOf(h: Handler): int { if h.AvailEvent? then AVAIL_CB else STATUS_CB }

  function HandlerOf(b: R.Base): Handler {
    if b.readCb == AVAIL_CB then AvailEvent(b.data) else StatusEvent(b.data)
  }

  function Readers(t: R.Table): map<int, Handler> {
    map fd | 0 <= fd < |t.bases| && t.bases[fd].mask.read :: HandlerOf(t.bases[fd])
  }

  /** The manager never asks for write events. */
  predicate ReadsOnly(t: R.Table) { forall fd :: 0 <= fd < |t.bases| ==> !t.bases[fd].mask.write }

  /** The table under the manager's state. */
  ghost predicate Carries(t: R.Table, m: Master) {
    |t.bases| == m.size && R.Mirrored(t) && R.Topped(t) && ReadsOnly(t) && Readers(t) == m.reg
  }

  /** event_enable_rw for reading does to the table what EnableRead does to reg;
      for a descriptor beyond the table, nothing. */
  lemma EnableLinks(t: R.Table, m: Master, fd: nat, h: Handler)
    requires Carries(t, m)
    ensures var c := R.Enable(fd, CallbackOf(h), h.serv, READ);
      R.Accepted(t, c) && EnableRead(m, fd, h).Fine? && Carries(R.Apply(t, c), EnableRead(m, fd, h).value)
  {
    var c := R.Enable(fd, CallbackOf(h), h.serv, READ);
    R.ApplyMirrorsExact(t, c);
    R.ApplyToppedExact(t, c);
    assert Readers(R.Apply(t, c)) == Registered(m.reg, fd, h, m.size);
  }

  /** event_disable_rw for reading does to the table what DisableRead does to reg. */
  lemma DisableLinks(t: R.Table, m: Master, fd: nat)
    requires Carries(t, m)
    ensures var c := R.Disable(fd, READ);
      R.Accepted(t, c) && DisableRead(m, fd).Fine? && Carries(R.Apply(t, c), DisableRead(m, fd).value)
  {
    var c := R.Disable(fd, READ);
    R.ApplyMirrorsExact(t, c);
    R.ApplyToppedExact(t, c);
    assert Readers(R.Apply(t, c)) == m.reg - {fd};
  }

  /** The dispatch loop's test against maxfd, in terms of reg. */
  lemma MaxFdLinks(t: R.Table, m: Master, fd: int)
    requires Carries(t, m) && fd >= 0
    ensures fd > t.maxfd <==> Protocol.BeyondMaxFd(m, fd)
  {
    if t.maxfd >= 0 { assert t.maxfd in Readers(t); }
    forall f | f in m.reg ensures f <= t.maxfd {
      assert t.bases[f].mask.read;
    }
  }

  // ---------------------------------------------------------------------
  // The child table is the hash table, keyed by the bytes of the pid

  /** Different pids among `pids` have different bytes in memory. */
  ghost predicate Injective(bytes: int -> B.Key, pids: set<int>) {
    forall p, q :: p in pids && q in pids && bytes(p) == bytes(q) ==> p == q
  }

  /** The chains hold the entries of `table`, one for each, and no others. */
  ghost predicate Holds<V>(bytes: int -> B.Key, chains: seq<seq<B.Info<V>>>, table: map<int, V>) {
    && |chains| > 0
    && (forall p :: p in table ==> B.Values(B.Stack(chains, bytes(p))) == [table[p]])
    && (forall k :: B.Stack(chains, k) != [] ==> IsKeyOf(bytes, table.Keys, k))
  }

  ghost predicate IsKeyOf(bytes: int -> B.Key, pids: set<int>, k: B.Key) { exists p :: p in pids && bytes(p) == k }

  /** What the chains hold for a pid. */
  lemma FindLinks<V>(bytes: int -> B.Key, chains: seq<seq<B.Info<V>>>, table: map<int, V>, p: int)
    requires Injective(bytes, table.Keys + {p}) && Holds(bytes, chains, table)
    ensures B.Values(B.Stack(chains, bytes(p))) == if p in table then [table[p]] else []
  {
    assert B.Stack(chains, bytes(p)) != [] ==> IsKeyOf(bytes, table.Keys, bytes(p));
  }

  /** Entering a child that is not in the table, whether the hash table grows or not. */
  lemma EnterLinks<V>(bytes: int -> B.Key, cs: seq<seq<B.Info<V>>>, cs': seq<seq<B.Info<V>>>, table: map<int, V>,
                      p: int, ht: B.Info<V>, grows: bool)
    requires Injective(bytes, table.Keys + {p}) && Holds(bytes, cs, table) && p !in table
    requires |cs'| > 0 && ht.key == bytes(p)
    requires forall k :: B.Stack(cs', k) == B.Pushed(ht, k, B.Turned(B.Stack(cs, k), grows))
    ensures Holds(bytes, cs', table[p := ht.value])
  {
    FindLinks(bytes, cs, table, p);
    var t' := table[p := ht.value];
    forall q | q in t' ensures B.Values(B.Stack(cs', bytes(q))) == [t'[q]] {
      FindLinks(bytes, cs, table, q);
      TurnOne(B.Stack(cs, bytes(q)), grows);
    }
    forall k | B.Stack(cs', k) != [] ensures IsKeyOf(bytes, t'.Keys, k) {
      if k == bytes(p) {
        assert p in t'.Keys;
      } else {
        assert B.Stack(cs, k) != [];
        var q :| q in table.Keys && bytes(q) == k;
        assert q in t'.Keys;
      }
    }
  }

  lemma TurnOne<X>(s: seq<X>, grows: bool)
    requires |s| <= 1
    ensures B.Turned(s, grows) == s
  {}

  lemma DeleteLinks<V>(bytes: int -> B.Key, cs: seq<seq<B.Info<V>>>, cs': seq<seq<B.Info<V>>>, table: map<int, V>,
                       p: int)
    requires Injective(bytes, table.Keys + {p}) && Holds(bytes, cs, table) && |cs'| > 0
    requires forall k ::
      B.Stack(cs', k) == if k == bytes(p) && B.Stack(cs, k) != [] then B.Stack(cs, k)[1..] else B.Stack(cs, k)
    ensures Holds(bytes, cs', table - {p})
    ensures B.Stack(cs, bytes(p)) != [] <==> p in table
  {
    FindLinks(bytes, cs, table, p);
    var s, s' := B.Stack(cs, bytes(p)), B.Stack(cs', bytes(p));
    assert |B.Values(s)| == |s| && |B.Values(s')| == |s'|;
    B.NoneLeft(s, s');
    forall k | B.Stack(cs', k) != [] ensures IsKeyOf(bytes, (table - {p}).Keys, k) {
      var q :| q in table.Keys && bytes(q) == k;
      assert q in (table - {p}).Keys;
    }
  }

  /** binhash_find on the child table. */
  method FindChild<V>(t: B.Table<V>, bytes: int -> B.Key, p: int, ghost table: map<int, V>)
      returns (child: Option<V>)
    requires t.Valid() && Injective(bytes, table.Keys + {p}) && Holds(bytes, t.chains, table)
    ensures child == if p in table then Some(table[p]) else None
  {
    FindLinks(bytes, t.chains, table, p);
    child := t.Find(bytes(p));
  }

  /** binhash_enter of a new child. */
  method EnterChild<V>(t: B.Table<V>, bytes: int -> B.Key, p: int, child: V, ghost table: map<int, V>)
    requires t.Valid() && Injective(bytes, table.Keys + {p}) && Holds(bytes, t.chains, table) && p !in table
    modifies t, t.data, t.nodes
    ensures t.Valid() && Holds(bytes, t.chains, table[p := child])
  {
    ghost var before, grows := t.chains, t.used >= t.size;
    var ht := t.Enter(bytes(p), child);
    EnterLinks(bytes, before, t.chains, table, p, ht, grows);
  }

  /** binhash_delete of a child. */
  method DeleteChild<V>(t: B.Table<V>, bytes: int -> B.Key, p: int, ghost table: map<int, V>) returns (ok: bool)
    requires t.Valid() && Injective(bytes, table.Keys + {p}) && Holds(bytes, t.chains, table)
    modifies t, t.data, t.nodes
    ensures t.Valid() && Holds(bytes, t.chains, table - {p}) && (ok <==> p in table)
  {
    ghost var before := t.chains;
    ok := t.Delete(bytes(p));
    DeleteLinks(bytes, before, t.chains, table, p);
  }
}
