/** The registration table of src/util/events.c (event_enable_rw and
    event_disable_rw) beside the kernel's epoll interest set. */
module Registry {
  import opened Options

  /** A mask of EVENT_READ and EVENT_WRITE, one field per bit. */
  datatype Mask = Mask(read: bool, write: bool)

  const NONE := Mask(false, false)

  function Or(a: Mask, b: Mask): Mask { Mask(a.read || b.read, a.write || b.write) }
  function AndNot(a: Mask, b: Mask): Mask { Mask(a.read && !b.read, a.write && !b.write) }

  /** EPOLLIN and EPOLLOUT */
  datatype Events = Events(epollIn: bool, epollOut: bool)

  function EpollBits(mask: Mask): Events { Events(mask.read, mask.write) }

  /** event_base: the mask, and who is called with what context. */
  datatype Base = Base(mask: Mask, readCb: int, writeCb: int, data: int)

  datatype Op = Add | Mod | Del

  /** The interest set of one epoll descriptor. */
  type Interest = map<int, Events>

  /** epoll_ctl fails with EEXIST or ENOENT exactly when this does not hold. */
  predicate CtlOk(k: Interest, op: Op, fd: int) {
    if op.Add? then fd !in k else fd in k
  }

  function Ctl(k: Interest, op: Op, fd: int, events: Events): Interest {
    if !CtlOk(k, op, fd) then k else if op.Del? then k - {fd} else k[fd := events]
  }

  // ---------------------------------------------------------------------
  // The calls, on values

  /** event_loop: the table, the kernel's set beside it, and maxfd. */
  datatype Table = Table(bases: seq<Base>, kernel: Interest, maxfd: int)

  datatype Call = Enable(fd: nat, cb: int, data: int, mask: Mask) | Disable(fd: nat, mask: Mask)

  function Enabled(b: Base, cb: int, data: int, mask: Mask): Base {
    Base(Or(b.mask, mask), if mask.read then cb else b.readCb,
         if mask.write then cb else b.writeCb, data)
  }

  function Disabled(b: Base, mask: Mask): Base { b.(mask := AndNot(b.mask, mask)) }

  /** The operation a call asks of epoll_ctl, for a descriptor with mask `was`. */
  function OpOf(was: Mask, c: Call): Op {
    if c.Enable? then (if was == NONE then Add else Mod)
    else if AndNot(was, c.mask) == NONE then Del else Mod
  }

  function MaskAfter(was: Mask, c: Call): Mask {
    if c.Enable? then Or(was, c.mask) else AndNot(was, c.mask)
  }

  /** Disabling what is not registered ends before epoll_ctl. */
  predicate Skips(t: Table, c: Call) {
    c.fd >= |t.bases| || (c.Disable? && t.bases[c.fd].mask == NONE)
  }

  /** The call meets neither EEXIST nor ENOENT. */
  predicate Accepted(t: Table, c: Call) {
    Skips(t, c) || CtlOk(t.kernel, OpOf(t.bases[c.fd].mask, c), c.fd)
  }

  /** The highest registered descriptor below n, or -1. */
  function Top(bases: seq<Base>, n: nat): int
    requires n <= |bases|
  {
    if n == 0 then -1 else if bases[n - 1].mask != NONE then n - 1 else Top(bases, n - 1)
  }

  /** An enable that epoll_ctl refuses has changed the mask already. */
  function Apply(t: Table, c: Call): Table {
    if Skips(t, c) then t
    else
      var b := t.bases[c.fd];
      var mask := MaskAfter(b.mask, c);
      var kernel := Ctl(t.kernel, OpOf(b.mask, c), c.fd, EpollBits(mask));
      match c
      case Enable(fd, cb, data, m) =>
        if Accepted(t, c)
        then Table(t.bases[fd := Enabled(b, cb, data, m)], kernel, if fd > t.maxfd then fd else t.maxfd)
        else t.(bases := t.bases[fd := b.(mask := mask)])
      case Disable(fd, m) =>
        if Accepted(t, c) then
          var bases := t.bases[fd := Disabled(b, m)];
          Table(bases, kernel, if fd == t.maxfd && mask == NONE then Top(bases, fd) else t.maxfd)
        else t
  }

  // ---------------------------------------------------------------------
  // The agreement with the kernel

  /** A descriptor has an entry exactly when its mask is not empty, and then for
      just the events of the mask. */
  ghost predicate Mirrors(bases: seq<Base>, k: Interest) {
    && (forall fd :: fd in k ==> 0 <= fd < |bases|)
    && forall fd :: 0 <= fd < |bases| ==> MirrorsAt(bases[fd].mask, k, fd)
  }

  predicate MirrorsAt(mask: Mask, k: Interest, fd: int) {
    (mask != NONE <==> fd in k) && (fd in k ==> k[fd] == EpollBits(mask))
  }

  /** maxfd is the highest registered descriptor, or -1. */
  ghost predicate IsHighest(bases: seq<Base>, maxfd: int) {
    && -1 <= maxfd < |bases|
    && (maxfd >= 0 ==> bases[maxfd].mask != NONE)
    && forall fd :: maxfd < fd < |bases| ==> bases[fd].mask == NONE
  }

  ghost predicate Mirrored(t: Table) { Mirrors(t.bases, t.kernel) }
  ghost predicate Topped(t: Table) { IsHighest(t.bases, t.maxfd) }

  /** An enable that leaves an unregistered descriptor with an empty mask. */
  predicate Breaks(t: Table, c: Call) {
    c.Enable? && c.fd < |t.bases| && Or(t.bases[c.fd].mask, c.mask) == NONE
  }

  /** A table that mirrors the kernel gets no call refused, and goes on to mirror
      it exactly when no enable leaves a mask empty. */
  lemma ApplyMirrorsExact(t: Table, c: Call)
    requires Mirrored(t)
    ensures Accepted(t, c)
    ensures Mirrored(Apply(t, c)) <==> !Breaks(t, c)
  {
    if !Skips(t, c) {
      var mask := MaskAfter(t.bases[c.fd].mask, c);
      assert MirrorsAt(t.bases[c.fd].mask, t.kernel, c.fd);
      var t' := Apply(t, c);
      forall i | 0 <= i < |t.bases| && i != c.fd ensures MirrorsAt(t'.bases[i].mask, t'.kernel, i) {
        assert MirrorsAt(t.bases[i].mask, t.kernel, i);
      }
      assert t'.bases[c.fd].mask == mask;
      assert MirrorsAt(mask, t'.kernel, c.fd) <==> !Breaks(t, c);
    }
  }

  /** Then maxfd stays the highest registered descriptor exactly when no enable
      leaves the mask empty of a descriptor above it. */
  lemma ApplyToppedExact(t: Table, c: Call)
    requires Mirrored(t) && Topped(t)
    ensures Topped(Apply(t, c)) <==> !(Breaks(t, c) && c.fd > t.maxfd)
  {
    ApplyMirrorsExact(t, c);
    if !Skips(t, c) {
      var t' := Apply(t, c);
      assert t'.bases[c.fd].mask == MaskAfter(t.bases[c.fd].mask, c);
      if c.Disable? { TopIsHighest(t'.bases, c.fd); }
      if Breaks(t, c) && c.fd > t.maxfd { assert t'.maxfd == c.fd; }
    }
  }

  lemma {:induction false} TopIsHighest(bases: seq<Base>, n: nat)
    requires n <= |bases|
    ensures -1 <= Top(bases, n) < n && (Top(bases, n) >= 0 ==> bases[Top(bases, n)].mask != NONE)
    ensures forall fd :: Top(bases, n) < fd < n ==> bases[fd].mask == NONE
  {
    if n > 0 && bases[n - 1].mask == NONE { TopIsHighest(bases, n - 1); }
  }

  /** The successive tables under a sequence of calls, from an empty one. */
  ghost predicate IsRun(ts: seq<Table>, cs: seq<Call>) {
    && |ts| == |cs| + 1 && ts[0].kernel == map[] && ts[0].maxfd == -1
    && (forall fd :: 0 <= fd < |ts[0].bases| ==> ts[0].bases[fd].mask == NONE)
    && forall i :: 0 <= i < |cs| ==> ts[i + 1] == Apply(ts[i], cs[i])
  }

  /** Over any sequence of calls the table mirrors the kernel in every state
      exactly when no enable leaves a mask empty. */
  lemma RunsMirrorExact(ts: seq<Table>, cs: seq<Call>)
    requires IsRun(ts, cs)
    ensures (forall n :: 0 <= n < |ts| ==> Mirrored(ts[n]))
            <==> (forall n :: 0 <= n < |cs| ==> !Breaks(ts[n], cs[n]))
  {
    if forall n :: 0 <= n < |cs| ==> !Breaks(ts[n], cs[n]) {
      forall n | 0 <= n < |ts| ensures Mirrored(ts[n]) { RunsAccepted(ts, cs, n); }
    }
    if forall n :: 0 <= n < |ts| ==> Mirrored(ts[n]) {
      forall n | 0 <= n < |cs| ensures !Breaks(ts[n], cs[n]) {
        assert Mirrored(ts[n]) && Mirrored(ts[n + 1]);
        ApplyMirrorsExact(ts[n], cs[n]);
      }
    }
  }

  /** As long as no enable leaves a mask empty, the table mirrors the kernel,
      maxfd is the highest registered descriptor, and epoll_ctl refuses nothing. */
  lemma {:induction false} RunsAccepted(ts: seq<Table>, cs: seq<Call>, n: nat)
    requires IsRun(ts, cs) && n < |ts|
    requires forall i :: 0 <= i < n ==> !Breaks(ts[i], cs[i])
    ensures Mirrored(ts[n]) && Topped(ts[n])
    ensures forall c :: Accepted(ts[n], c)
  {
    if n > 0 {
      RunsAccepted(ts, cs, n - 1);
      assert ts[n - 1 + 1] == Apply(ts[n - 1], cs[n - 1]);
      ApplyMirrorsExact(ts[n - 1], cs[n - 1]);
      ApplyToppedExact(ts[n - 1], cs[n - 1]);
    }
    forall c ensures Accepted(ts[n], c) { ApplyMirrorsExact(ts[n], c); }
  }

  /** A refused enable leaves the new bits in the mask, and nothing else changed; so
      the same call is not refused a second time. */
  lemma RefusedOnce(t: Table, c: Call)
    requires c.Enable? && !Accepted(t, c) && t.bases[c.fd].mask == NONE && c.mask != NONE
    ensures var t' := Apply(t, c);
      && t'.kernel == t.kernel && t'.maxfd == t.maxfd
      && t'.bases == t.bases[c.fd := t.bases[c.fd].(mask := c.mask)]
      && Accepted(t', c) && MirrorsAt(c.mask, Apply(t', c).kernel, c.fd)
  {}

  // ---------------------------------------------------------------------
  // What the calls made decide

  datatype Way = Reading | Writing

  function Bit(mask: Mask, w: Way): bool { if w.Reading? then mask.read else mask.write }

  /** The callback for one way of a descriptor, if it is registered. */
  function CallbackAt(b: Base, w: Way): Option<int> {
    if !Bit(b.mask, w) then None else Some(if w.Reading? then b.readCb else b.writeCb)
  }

  /** The last call that names this way of the descriptor decides: an enable
      registers its callback, a disable none. */
  function LastWord(cs: seq<Call>, fd: nat, w: Way): Option<int> {
    if cs == [] then None
    else
      var c := cs[|cs| - 1];
      if c.fd != fd || !Bit(c.mask, w) then LastWord(cs[..|cs| - 1], fd, w)
      else if c.Enable? then Some(c.cb) else None
  }

  /** The context is that of the last enable of the descriptor. */
  function LastContext(cs: seq<Call>, fd: nat, first: int): int {
    if cs == [] then first
    else
      var c := cs[|cs| - 1];
      if c.fd == fd && c.Enable? then c.data else LastContext(cs[..|cs| - 1], fd, first)
  }

  lemma ApplyDecides(t: Table, c: Call, fd: nat, w: Way)
    requires fd < |t.bases| && Accepted(t, c)
    ensures |Apply(t, c).bases| == |t.bases|
    ensures var b, b' := t.bases[fd], Apply(t, c).bases[fd];
      && CallbackAt(b', w) == (if c.fd != fd || !Bit(c.mask, w) then CallbackAt(b, w)
                               else if c.Enable? then Some(c.cb) else None)
      && b'.data == if c.fd == fd && c.Enable? then c.data else b.data
  {}

  /** Over any sequence of calls, as long as no enable leaves a mask empty: each way
      of each descriptor is registered, with its callback and context, exactly as
      the last call that names it says. */
  lemma {:induction false} RunsDecideExact(ts: seq<Table>, cs: seq<Call>, n: nat, fd: nat, w: Way)
    requires IsRun(ts, cs) && n < |ts| && fd < |ts[0].bases|
    requires forall i :: 0 <= i < n ==> !Breaks(ts[i], cs[i])
    ensures |ts[n].bases| == |ts[0].bases|
    ensures CallbackAt(ts[n].bases[fd], w) == LastWord(cs[..n], fd, w)
    ensures ts[n].bases[fd].data == LastContext(cs[..n], fd, ts[0].bases[fd].data)
  {
    if n > 0 {
      RunsDecideExact(ts, cs, n - 1, fd, w);
      RunsAccepted(ts, cs, n - 1);
      assert ts[n - 1 + 1] == Apply(ts[n - 1], cs[n - 1]);
      ApplyDecides(ts[n - 1], cs[n - 1], fd, w);
      assert cs[..n][..n - 1] == cs[..n - 1];
    }
  }

  /** An empty mask: the kernel gets an entry that the table does not show, and
      the next enable of that descriptor is refused. */
  lemma EmptyMask() returns (ts: seq<Table>, cs: seq<Call>)
    ensures IsRun(ts, cs) && |cs| == 1 && Breaks(ts[0], cs[0])
    ensures !Mirrored(ts[1]) && !Topped(ts[1]) && !Accepted(ts[1], Enable(0, 0, 0, Mask(true, false)))
  {
    var b := Base(NONE, 0, 0, 0);
    cs := [Enable(0, 0, 0, NONE)];
    ts := [Table([b], map[], -1), Table([b], map[0 := EpollBits(NONE)], 0)];
    assert MirrorsAt(NONE, ts[0].kernel, 0);
    assert !MirrorsAt(ts[1].bases[0].mask, ts[1].kernel, 0);
  }

  // ---------------------------------------------------------------------
  // The code

  class EventLoop {
    var maxfd: int
    const size: nat
    const regEvents: array<Base>
    var kernel: Interest

    ghost predicate Valid()
      reads this
    {
      regEvents.Length == size && -1 <= maxfd < size
    }

    ghost function State(): Table
      reads this, regEvents
    {
      Table(regEvents[..], kernel, maxfd)
    }

    /** event_init */
    constructor (n: nat)
      ensures Valid() && fresh(regEvents) && size == n && kernel == map[] && maxfd == -1
      ensures State().bases == seq(n, _ => Base(NONE, 0, 0, 0))
    {
      size := n;
      regEvents := new Base[n](_ => Base(NONE, 0, 0, 0));
      maxfd, kernel := -1, map[];
    }

    method EpollCtl(op: Op, fd: int, events: Events) returns (ok: bool)
      modifies `kernel
      ensures ok == CtlOk(old(kernel), op, fd) && kernel == Ctl(old(kernel), op, fd, events)
    {
      ok := CtlOk(kernel, op, fd);
      kernel := Ctl(kernel, op, fd, events);
    }

    /** event_enable_rw */
    method EnableRw(fd: nat, cb: int, data: int, mask: Mask) returns (ok: bool)
      requires Valid()
      modifies this, regEvents
      ensures Valid() && State() == Apply(old(State()), Enable(fd, cb, data, mask))
      ensures ok <==> fd < size && Accepted(old(State()), Enable(fd, cb, data, mask))
    {
      if fd >= size { return false; }
      ghost var before := regEvents[..];
      var eb := regEvents[fd];
      var op := if eb.mask == NONE then Add else Mod;
      eb := eb.(mask := Or(eb.mask, mask));
      regEvents[fd] := eb;
      assert regEvents[..] == before[fd := eb];
      ok := EpollCtl(op, fd, EpollBits(eb.mask));
      if !ok { return; }
      if mask.read { eb := eb.(readCb := cb); }
      if mask.write { eb := eb.(writeCb := cb); }
      eb := eb.(data := data);
      regEvents[fd] := eb;
      assert regEvents[..] == before[fd := eb];
      if fd > maxfd { maxfd := fd; }
    }

    /** event_disable_rw */
    method DisableRw(fd: nat, mask: Mask) returns (ok: bool)
      requires Valid()
      modifies this, regEvents
      ensures Valid() && State() == Apply(old(State()), Disable(fd, mask))
      ensures ok <==> fd < size && Accepted(old(State()), Disable(fd, mask))
    {
      if fd >= size { return false; }
      var eb := regEvents[fd];
      if eb.mask == NONE { return true; }
      ghost var before := regEvents[..];
      var rest := AndNot(eb.mask, mask);
      if rest != NONE {
        ok := EpollCtl(Mod, fd, EpollBits(rest));
      } else {
        ok := EpollCtl(Del, fd, EpollBits(NONE));
      }
      if !ok { return; }
      regEvents[fd] := eb.(mask := rest);
      assert regEvents[..] == before[fd := Disabled(eb, mask)];
      if fd == maxfd && rest == NONE { SearchDown(); }
    }

    /** The downward search of event_disable_rw. */
    method SearchDown()
      requires regEvents.Length == size && 0 <= maxfd < size
      modifies `maxfd
      ensures -1 <= maxfd < size && maxfd == Top(regEvents[..], old(maxfd))
    {
      var j := maxfd - 1;
      while j >= 0
        invariant -1 <= j < maxfd == old(maxfd)
        invariant Top(regEvents[..], j + 1) == Top(regEvents[..], maxfd)
      {
        if regEvents[j].mask != NONE { break; }
        j := j - 1;
      }
      maxfd := j;
    }
  }
}
