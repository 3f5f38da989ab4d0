/**
 The runtime side of the driver: one order in flight, requests drained from the
 shared registry one at a time, and every way a claimed request is given back.
 */
module Driver {
  import opened Bytes
  import opened HostName
  import opened Registry
  import RateCap

  /** What the driver finds out about a host: covered by a configured name (and is that certificate there?) or not. */
  datatype Cover = NotConfigured | CoveredFresh | CoveredDue

  datatype Flight = Flight(host: string, runtime: bool)

  /** The world during one pump: configuration, disk, memory and the launch of an order, all arbitrary. */
  datatype World = World(now: int, exiting: bool, live: bool, cover: string -> Cover, due: string -> bool,
                         launches: string -> bool, room: nat -> bool, ttl: int)

  /** A request is claimed only while its order is the one in flight. */
  ghost predicate Quiet(m: Table, order: Option<Flight>) {
    forall h :: h in m && m[h].state == Pending ==> order == Some(Flight(h, true))
  }

  ghost function EligibleHosts(m: Table, now: int): set<string> {
    set h | h in m && Eligible(m[h], now)
  }

  // ----------------------------------------------------------- on the table

  /** Claiming one host and settling it for later takes it off the list of eligible hosts. */
  lemma {:induction false} Disposed(m: Table, out: seq<string>, m1: Table, m2: Table, st: State, next: int, now: int, full: bool)
    requires DrainEffect(m, m1, now, 1, full, out) && |out| == 1 && Proper(m) && now > 0
    requires m2 == SetStateEffect(m1, true, out[0], st, next, now).0
    requires PutsAside(st, next, now)
    requires Quiet(m, None)
    ensures |EligibleHosts(m2, now)| < |EligibleHosts(m, now)|
    ensures Quiet(m2, None)
  {
    DisposedAt(m, out, m1, m2, st, next, now, full);
    hide DrainEffect, SetStateEffect, PutsAside, Normal, Proper, Eligible;
    var h := out[0];
    var a, b := EligibleHosts(m2, now), EligibleHosts(m, now);
    assert a <= b - {h};
    SubsetSize(a, b - {h});
    assert |b - {h}| == |b| - 1;
  }

  /** What becomes of the one host, and of the others. */
  lemma {:induction false} DisposedAt(m: Table, out: seq<string>, m1: Table, m2: Table, st: State, next: int, now: int, full: bool)
    requires DrainEffect(m, m1, now, 1, full, out) && |out| == 1 && Proper(m) && now > 0
    requires m2 == SetStateEffect(m1, true, out[0], st, next, now).0
    requires PutsAside(st, next, now)
    ensures m2.Keys == m.Keys && out[0] in m
    ensures Eligible(m[out[0]], now) && !Eligible(m2[out[0]], now) && m2[out[0]].state != Pending
    ensures forall k :: k in m && k != out[0] ==> m2[k] == m[k]
  {
    hide Normal;
    var h := out[0];
    assert Normal(h) == Some(h);
    assert m2 == m1[h := Settled(m1[h], st, next, now)];
  }

  lemma {:induction false} ClaimedQuiet(m: Table, out: seq<string>, m1: Table, now: int, full: bool)
    requires DrainEffect(m, m1, now, 1, full, out) && |out| == 1 && Quiet(m, None)
    ensures Quiet(m1, Some(Flight(out[0], true)))
  {
  }

  /** Settling a host to anything but PENDING keeps every other claim as it was. */
  lemma {:induction false} SettleQuiet(m: Table, host: string, st: State, next: int, now: int, order: Option<Flight>)
    requires Quiet(m, order) && st != Pending
    ensures var m' := SetStateEffect(m, true, host, st, next, now).0;
            && Quiet(m', order)
            && (Normal(host) == Some(host) && order == Some(Flight(host, true)) && st != Unknown ==> Quiet(m', None))
  {
    hide Normal;
  }

  lemma {:induction false} EnsureQuiet(m: Table, active: bool, host: string, now: int, alloc: bool, order: Option<Flight>)
    requires Quiet(m, order)
    ensures Quiet(EnsureEffect(m, active, host, now, alloc).0, order)
  {
    hide Normal;
  }

  lemma {:induction false} GcQuiet(m: Table, m': Table, now: int, ttl: int, full: bool, out: seq<string>, order: Option<Flight>)
    requires GcEffect(m, m', now, ttl, full, out) && Quiet(m, order)
    ensures Quiet(m', order)
  {
  }

  /** What the end of an order leaves: the outcome on the host of a runtime order, held until Retry-After when there is one. */
  function Concluded(m: Table, flight: Flight, ok: bool, retryAfter: int, now: int): Table {
    if !flight.runtime then m
    else
      SetStateEffect(m, true, flight.host, if ok then Issued else Failed, if !ok && retryAfter > 0 then retryAfter else 0, now).0
  }

  /** A claimed request. */
  function Taken(r: Request, now: int): Request { r.(state := Pending, lastAttempt := now) }

  /** The ways a claimed host is put aside for later. */
  predicate PutsAside(st: State, next: int, now: int) {
    st == Issued || (st == Requested && next > now) || (st == Failed && next == 0)
  }

  // ------------------------------------------------------------------ renewals

  predicate Renewable(w: World, h: string) { w.cover(h) == NotConfigured && w.due(h) }

  function Requeue(r: Request, now: int): Request { Settled(r, Requested, 0, now) }

  /** The table after the hosts of `out` were looked at. */
  function Requeued(m: Table, out: seq<string>, w: World): Table {
    map h | h in m :: if h in out && Renewable(w, h) then Requeue(m[h], w.now) else m[h]
  }

  /** Exactly the issued hosts that no configured name covers and that are due are asked for again. */
  ghost predicate Renewed(m: Table, m': Table, w: World, full: bool) {
    && m'.Keys == m.Keys
    && (forall h :: h in m && m'[h] != m[h] ==> m[h].state == Issued && Renewable(w, h) && m'[h] == Requeue(m[h], w.now))
    && (full ==> forall h :: h in m && m[h].state == Issued && Renewable(w, h) ==> m'[h] == Requeue(m[h], w.now))
  }

  lemma {:induction false} ListedHosts(m: Table, full: bool, out: seq<string>)
    requires ListEffect(m, full, out)
    ensures forall i, j :: 0 <= i < j < |out| ==> out[i] != out[j]
    ensures forall i :: 0 <= i < |out| ==> out[i] in m && m[out[i]].state == Issued
    ensures full ==> forall h :: h in m && m[h].state == Issued ==> h in out
  {
  }

  lemma {:induction false} Requeue0(m: Table, w: World)
    ensures Requeued(m, [], w) == m
  {
  }

  /** Looking at one more host. */
  lemma {:induction false} Requeue1(m: Table, out: seq<string>, j: nat, w: World)
    requires j < |out| && out[j] in m && Proper(m) && (forall i :: 0 <= i < j ==> out[i] != out[j])
    ensures var h := out[j];
            Requeued(m, out[..j + 1], w) ==
            if Renewable(w, h) then SetStateEffect(Requeued(m, out[..j], w), true, h, Requested, 0, w.now).0
            else Requeued(m, out[..j], w)
  {
    hide Normal;
    var h := out[j];
    assert out[..j + 1] == out[..j] + [h];
    assert h !in out[..j];
    assert Normal(h) == Some(h);
  }

  lemma {:induction false} RequeuedAll(m: Table, out: seq<string>, w: World, full: bool)
    requires forall i :: 0 <= i < |out| ==> out[i] in m && m[out[i]].state == Issued
    requires full ==> forall h :: h in m && m[h].state == Issued ==> h in out
    ensures Renewed(m, Requeued(m, out, w), w, full)
  {
  }

  // -------------------------------------------------------------- the driver

  class Runtime {
    const zone: Zone
    const orders: RateCap.Ring
    const fails: RateCap.FailTable
    var order: Option<Flight>
    ghost var clock: int
    ghost var counted: bool

    /** Everything but the rule about claims. */
    ghost predicate Base()
      reads this, zone, orders, orders.ring, fails
    {
      && zone.Valid() && zone.Active() && CapsValid()
      && (order.Some? && order.value.runtime ==> Normal(order.value.host) == Some(order.value.host))
    }

    /** The order flow as the rate cap sees it. */
    ghost function Rate(): RateCap.Driver
      reads this`clock, this`order, this`counted, orders
    {
      RateCap.Driver(orders.log, order.Some? && order.value.runtime, counted, clock)
    }

    ghost predicate CapsValid()
      reads this`clock, this`order, this`counted, orders, orders.ring, fails
    {
      && orders.Valid() && fails.Valid() && orders.ring.Length == RateCap.ORDER_MAX
      && RateCap.Inv(Rate())
      && RateCap.NoLaterThan(fails.entries, clock)
    }

    /** Between events: a request is PENDING only if it is the host of the runtime order in flight. */
    ghost predicate Valid()
      reads this, zone, orders, orders.ring, fails
    {
      Base() && Quiet(zone.table, order)
    }

    constructor (zone: Zone, now: int)
      requires zone.Valid() && zone.Active() && Quiet(zone.table, None) && now > 0
      ensures Valid() && this.zone == zone && order == None && clock == now
      ensures fresh(orders) && fresh(orders.ring) && fresh(fails)
    {
      this.zone := zone;
      orders := new RateCap.Ring(RateCap.ORDER_MAX);
      fails := new RateCap.FailTable();
      order, clock, counted := None, now, false;
    }

    /** A consumer asks for a host; it may do so at any time, also while an order is in flight. */
    method ConsumerEnsure(host: string, now: int, alloc: bool) returns (r: State)
      requires Valid()
      modifies zone
      ensures Valid() && (zone.table, r) == EnsureEffect(old(zone.table), true, host, now, alloc)
    {
      EnsureQuiet(zone.table, true, host, now, alloc, order);
      hide Quiet, EnsureEffect;
      r := zone.Ensure(host, now, alloc);
    }

    /** Either rate cap is full for this host. */
    ghost predicate Capped(h: string, now: int)
      reads orders, fails
    {
      || RateCap.AtCap(orders.log, RateCap.ORDER_MAX, now, RateCap.ORDER_WINDOW)
      || RateCap.AtCap(RateCap.LogOf(fails.entries, h), RateCap.FAIL_MAX, now, RateCap.FAIL_WINDOW)
    }

    /** The cap found full at `now`, the global one first, is still full at `later`. */
    ghost predicate StillCapped(h: string, now: int, later: int)
      reads orders, fails
    {
      if RateCap.AtCap(orders.log, RateCap.ORDER_MAX, now, RateCap.ORDER_WINDOW)
      then RateCap.AtCap(orders.log, RateCap.ORDER_MAX, later, RateCap.ORDER_WINDOW)
      else RateCap.AtCap(RateCap.LogOf(fails.entries, h), RateCap.FAIL_MAX, later, RateCap.FAIL_WINDOW)
    }

    /** An order in flight is for a host no configured name covers, that was behind both caps, and whose launch worked. */
    ghost predicate Warranted(w: World)
      reads this`order, orders, fails
    {
      order.Some? ==> order.value.runtime && Launchable(w, order.value.host)
    }

    /** The cap opened a second before `hold`, and not a second earlier. */
    ghost predicate HoldTight(h: string, now: int, hold: int)
      reads orders, fails
    {
      hold > now + 1 && !StillCapped(h, now, hold) && !StillCapped(h, now, hold - 1) && StillCapped(h, now, hold - 2)
    }

    /** How a host that is not launched is put aside. */
    ghost predicate Aside(w: World, h: string, st: State, next: int)
      reads orders, fails
    {
      match w.cover(h)
      case CoveredFresh => st == Issued && next == 0
      case CoveredDue => st == Requested && next == w.now + 300
      case NotConfigured =>
        if Capped(h, w.now) then st == Requested && HoldTight(h, w.now, next)
        else !w.launches(h) && st == Failed && next == 0
    }

    /** The host was claimed and put aside. */
    ghost predicate TookAside(w: World, h: string, r: Request, r': Request)
      reads orders, fails
    {
      exists st, next :: Aside(w, h, st, next) && r' == Settled(Taken(r, w.now), st, next, w.now)
    }

    /** Nothing stands between the host and its order. */
    ghost predicate Launchable(w: World, h: string)
      reads orders, fails
    {
      w.cover(h) == NotConfigured && !Capped(h, w.now) && w.launches(h)
    }

    /**
     What serving the backlog did: eligible hosts were put aside, or one of them
     was launched, which came before every host still eligible; the others are
     as they were. With memory for the copies, no launch means that every
     eligible host was put aside.
     */
    ghost predicate Served(w: World, m: Table, m': Table)
      reads this`order, orders, fails
    {
      && m'.Keys == m.Keys
      && (forall h :: h in m && m'[h] != m[h] ==>
            Eligible(m[h], w.now) && !w.exiting
            && (TookAside(w, h, m[h], m'[h]) || (order == Some(Flight(h, true)) && m'[h] == Taken(m[h], w.now))))
      && (order.Some? ==>
            var h := order.value.host;
            && order.value.runtime && h in m && Eligible(m[h], w.now) && m'[h] == Taken(m[h], w.now) && Launchable(w, h)
            && forall x :: x in m' && Eligible(m'[x], w.now) ==> Less(zone.hash, h, x))
      && (order.None? && !w.exiting && (forall i :: w.room(i)) ==>
            forall h :: h in m && Eligible(m[h], w.now) ==> TookAside(w, h, m[h], m'[h]))
    }

    /** The whole runtime part of a pump: the backlog served, then due renewals re-queued, then idle hosts evicted. */
    ghost predicate PumpEffect(w: World, m: Table, m': Table)
      reads this`order, orders, fails
    {
      if !w.live then order.None? && m' == m
      else exists served, renewed, evicted :: Stages(w, m, served, renewed, evicted, m')
    }

    ghost predicate Stages(w: World, m: Table, served: Table, renewed: Table, evicted: seq<string>, m': Table)
      reads this`order, orders, fails
    {
      && Served(w, m, served) && Renewed(served, renewed, w, forall i :: w.room(i))
      && if w.ttl <= 0 then m' == renewed && evicted == []
         else GcEffect(renewed, m', w.now, w.ttl, forall i :: w.room(i), evicted)
    }

    /** The gates a drained host passes, and the launch; `st` and `next` say how it was put aside instead. */
    method Dispose(w: World, h: string) returns (launched: bool, ghost st: State, ghost next: int)
      requires Base() && order.None? && clock == w.now && Normal(h) == Some(h)
      modifies this, zone
      ensures Base() && clock == w.now
      ensures launched ==> order == Some(Flight(h, true)) && zone.table == old(zone.table)
      ensures launched <==> w.cover(h) == NotConfigured && !Capped(h, w.now) && w.launches(h)
      ensures !launched ==> Aside(w, h, st, next)
      ensures !launched ==> order.None? && PutsAside(st, next, w.now)
                            && zone.table == SetStateEffect(old(zone.table), true, h, st, next, w.now).0
      ensures launched ==> !counted
    {
      hide Quiet, SetStateEffect, Normal, CapsValid;
      launched, st, next := false, Issued, 0;
      if w.cover(h) != NotConfigured {
        if w.cover(h) == CoveredFresh {
          PutAside(h, Issued, 0, w.now);
        } else {
          st, next := Requested, w.now + 300;
          PutAside(h, Requested, w.now + 300, w.now);
        }
        return;
      }
      var held, hold := Held(w.now, h);
      if held {
        st, next := Requested, hold;
        PutAside(h, Requested, hold, w.now);
        return;
      }
      if w.launches(h) {
        Take(h);
        launched := true;
        return;
      }
      st, next := Failed, 0;
      PutAside(h, Failed, 0, w.now);
    }

    /** The order slot, behind the global gate. */
    method Take(h: string)
      requires Base() && order.None? && Normal(h) == Some(h)
      requires !RateCap.AtCap(orders.log, RateCap.ORDER_MAX, clock, RateCap.ORDER_WINDOW)
      modifies this`order, this`counted
      ensures Base() && order == Some(Flight(h, true))
      ensures !counted
    {
      hide Zone.Valid, Normal, RateCap.Inv;
      ghost var before := Rate();
      order, counted := Some(Flight(h, true)), false;
      RateCap.StepInv(before, RateCap.Launch(clock), Rate());
    }

    /** Settles a host without touching anything but the registry. */
    method PutAside(h: string, st: State, next: int, now: int)
      requires Base()
      modifies zone
      ensures Base() && zone.table == SetStateEffect(old(zone.table), true, h, st, next, now).0
    {
      hide SetStateEffect, Normal;
      var _ := zone.SetState(h, st, next, now);
    }

    /** The two rate caps; `hold` is when the one that is full opens. */
    method Held(now: int, h: string) returns (held: bool, hold: int)
      requires CapsValid() && clock == now && Normal(h) == Some(h)
      ensures held <==> Capped(h, now)
      ensures held ==> HoldTight(h, now, hold)
    {
      hide Normal, LowerCharset, RateCap.AtCap, RateCap.Last, RateCap.CountIn, RateCap.LogOf;
      held, hold := false, 0;
      NormalIsSafe(h);
      var log := RateCap.LogOf(fails.entries, h);
      FailsOrdered(h);
      CapIs(orders.log, RateCap.ORDER_MAX, now, RateCap.ORDER_WINDOW);
      CapIs(log, RateCap.FAIL_MAX, now, RateCap.FAIL_WINDOW);
      RateCap.RingCounts(orders.log, RateCap.ORDER_MAX, now, RateCap.ORDER_WINDOW);
      var n := orders.WindowCount(now, RateCap.ORDER_WINDOW);
      if n >= RateCap.ORDER_MAX {
        var oldest := orders.WindowOldest(now, RateCap.ORDER_WINDOW);
        if oldest != 0 {
          RateCap.HoldIsSafe(orders.log, RateCap.ORDER_MAX, now, RateCap.ORDER_WINDOW, oldest);
        }
        return true, if oldest != 0 then oldest + RateCap.ORDER_WINDOW + 1 else now + RateCap.ORDER_WINDOW;
      }
      var full := fails.FailAtCap(h, now);
      if full {
        var oldest := fails.FailOldest(h, now);
        if oldest != 0 {
          RateCap.HoldIsSafe(log, RateCap.FAIL_MAX, now, RateCap.FAIL_WINDOW, oldest);
        }
        return true, if oldest != 0 then oldest + RateCap.FAIL_WINDOW + 1 else now + RateCap.FAIL_WINDOW;
      }
    }

    /**
     Claims one eligible host, the first in key order, and disposes of it; `more`
     says whether to go on, and `host` which one it was.
     */
    method ServeOne(w: World) returns (more: bool, ghost host: string)
      requires Valid() && order.None? && clock == w.now
      modifies this, zone
      ensures Valid() && clock == w.now
      ensures more ==> order.None? && |EligibleHosts(zone.table, w.now)| < |EligibleHosts(old(zone.table), w.now)|
      ensures !more && order.None? && (forall i :: w.room(i)) ==> EligibleHosts(zone.table, w.now) == {}
      ensures Warranted(w)
      ensures order.Some? ==> !counted
      ensures if more || order.Some? then ServedOne(w, old(zone.table), host, zone.table) else zone.table == old(zone.table)
    {
      hide Quiet, CapsValid, Zone.Valid, SetStateEffect, DrainEffect, PutsAside, Normal, Proper, EligibleHosts, Aside, InKeyOrder;
      ghost var m := zone.table;
      zone.TableProper();
      host := "";
      var n, hosts := zone.Drain(w.now, 1, w.room);
      Weaker(m, zone.table, w.now, 1, forall i :: w.room(i), hosts);
      if n <= 0 {
        DrainedNone(m, zone.table, w.now, forall i :: w.room(i), hosts);
        return false, "";
      }
      ghost var m1 := zone.table;
      AtMostOne(m, m1, w.now, hosts);
      HandedKey(m, hosts, m1, w.now);
      ClaimedIs(m, hosts, m1, w.now);
      FirstInOrder(zone.hash, hosts, m, w.now);
      ClockRuns();
      var launched, st, next := Dispose(w, hosts[0]);
      host := hosts[0];
      if launched {
        ClaimedQuiet(m, hosts, m1, w.now, false);
        return false, host;
      }
      AsideAway(w, host, st, next);
      Disposed(m, hosts, m1, zone.table, st, next, w.now, false);
      SettledIs(m, host, m1, zone.table, st, next, w.now);
      more := true;
    }

    /** One eligible host, the first in key order, was claimed; it is the one in flight, or was put aside. */
    ghost predicate ServedOne(w: World, m: Table, host: string, m': Table)
      reads this`order, orders, fails
    {
      && host in m && Eligible(m[host], w.now)
      && (forall x :: x in m && Eligible(m[x], w.now) && x != host ==> Less(zone.hash, host, x))
      && if order.Some? then order == Some(Flight(host, true)) && m' == m[host := Taken(m[host], w.now)]
         else host in m' && m' == m[host := m'[host]] && TookAside(w, host, m[host], m'[host])
    }

    lemma AsideAway(w: World, h: string, st: State, next: int)
      requires Aside(w, h, st, next)
      ensures PutsAside(st, next, w.now)
    {
    }

    lemma ClockRuns()
      requires CapsValid()
      ensures clock > 0
    {
    }

    lemma FailsOrdered(h: string)
      requires CapsValid()
      ensures RateCap.Ordered(RateCap.LogOf(fails.entries, h))
    {
    }

    /** The hosts put aside so far; the others are as they were. */
    ghost predicate Serving(w: World, m: Table, m': Table)
      reads orders, fails
    {
      && m'.Keys == m.Keys
      && forall h :: h in m && m'[h] != m[h] ==> Eligible(m[h], w.now) && !w.exiting && TookAside(w, h, m[h], m'[h])
    }

    lemma AsideIdle(w: World, h: string, r: Request, r': Request)
      requires TookAside(w, h, r, r') && w.now > 0
      ensures !Eligible(r', w.now) && r' != Taken(r, w.now)
    {
      hide Capped, StillCapped;
    }

    lemma ServingStep(w: World, m: Table, m1: Table, host: string, m2: Table)
      requires Serving(w, m, m1) && ServedOne(w, m1, host, m2) && w.now > 0 && !w.exiting
      ensures order.None? ==> Serving(w, m, m2)
      ensures order.Some? && Warranted(w) ==> Served(w, m, m2)
    {
      hide Capped, StillCapped, TookAside, Less, Launchable;
      if m1[host] != m[host] {
        AsideIdle(w, host, m[host], m1[host]);
      }
    }

    lemma ServingDone(w: World, m: Table, m': Table)
      requires Serving(w, m, m') && order.None? && w.now > 0
      requires !w.exiting && (forall i :: w.room(i)) ==> EligibleHosts(m', w.now) == {}
      ensures Served(w, m, m')
    {
      hide Capped, StillCapped, TookAside, Less, Eligible, Launchable;
      if !w.exiting && forall i :: w.room(i) {
        forall h | h in m && Eligible(m[h], w.now)
          ensures TookAside(w, h, m[h], m'[h])
        {
          assert h !in EligibleHosts(m', w.now);
        }
      }
    }

    /** Drains hosts one at a time until one is launched or, memory permitting, none is eligible. */
    method ServeAll(w: World)
      requires Valid() && order.None? && clock == w.now
      modifies this, zone
      ensures Valid() && clock == w.now
      ensures Served(w, old(zone.table), zone.table)
      ensures Warranted(w) && (order.Some? ==> !w.exiting)
      ensures order.None? && !w.exiting && (forall i :: w.room(i)) ==> EligibleHosts(zone.table, w.now) == {}
      ensures order.Some? ==> !counted
    {
      hide Base, Quiet, EligibleHosts, Served, ServedOne, TookAside, Launchable;
      ghost var m := zone.table;
      ClockPositive();
      var more := true;
      while more
        invariant Valid() && clock == w.now
        invariant Warranted(w) && (order.Some? ==> !w.exiting && !counted)
        invariant more ==> order.None?
        invariant if order.None? then Serving(w, m, zone.table) else Served(w, m, zone.table)
        invariant !more && order.None? && !w.exiting && (forall i :: w.room(i)) ==> EligibleHosts(zone.table, w.now) == {}
        decreases if more then 1 + |EligibleHosts(zone.table, w.now)| else 0
      {
        if w.exiting {
          break;
        }
        ghost var before, host := zone.table, "";
        more, host := ServeOne(w);
        if more || order.Some? {
          ServingStep(w, m, before, host, zone.table);
        }
      }
      if order.None? {
        ServingDone(w, m, zone.table);
      }
    }

    lemma ClockPositive()
      requires Valid()
      ensures clock > 0
    {
      hide Quiet, Zone.Valid;
    }

    /** A served backlog leaves no host behind that could have been launched. */
    lemma ServedLaunches(w: World, m: Table, m': Table, h: string)
      requires Served(w, m, m') && !w.exiting && (forall i :: w.room(i))
      requires h in m && Eligible(m[h], w.now) && Launchable(w, h)
      ensures order.Some?
    {
      hide Less;
    }

    /**
     The runtime part of a pump: serve the backlog, re-queue due renewals, evict
     idle hosts. An order it starts is warranted: both caps were open for it.
     With memory for the copies an order is started whenever a host asks for one
     that nothing stands against.
     */
    method PumpRuntime(w: World) returns (evicted: seq<string>)
      requires Valid() && order.None? && clock <= w.now
      modifies this, zone
      ensures Valid() && clock == w.now
      ensures Warranted(w) && (order.Some? ==> !w.exiting && w.live)
      ensures order.Some? ==> !counted
      ensures PumpEffect(w, old(zone.table), zone.table)
      ensures w.live && !w.exiting && (forall i :: w.room(i))
              && (exists h :: h in old(zone.table) && Eligible(old(zone.table)[h], w.now) && Launchable(w, h)) ==>
                order.Some?
    {
      hide Base, Quiet, Capped, Renewed, GcEffect, Served, Launchable, Eligible;
      ghost var m := zone.table;
      evicted := [];
      Tick(w.now);
      if !w.live {
        return;
      }
      ServeAll(w);
      ghost var served := zone.table;
      Renewals(w);
      ghost var renewed := zone.table;
      evicted := Evict(w);
      assert Stages(w, m, served, renewed, evicted, zone.table);
      if !w.exiting && (forall i :: w.room(i)) && exists h :: h in m && Eligible(m[h], w.now) && Launchable(w, h) {
        var h :| h in m && Eligible(m[h], w.now) && Launchable(w, h);
        ServedLaunches(w, m, served, h);
      }
    }

    method Tick(now: int)
      requires Valid() && clock <= now
      modifies this`clock
      ensures Valid() && clock == now
    {
      hide Quiet, Zone.Valid, Normal, RateCap.Inv;
      RateCap.LaterInv(Rate(), now);
      clock := now;
    }

    /** Between events, no three hours of the log hold more than 300 counted orders. */
    lemma ThreeHours(from: int)
      requires Valid()
      ensures RateCap.InThreeHours(orders.log, from) <= RateCap.ORDER_MAX
    {
      hide Quiet, Zone.Valid, Normal, RateCap.Inv;
      RateCap.InvBounds(Rate(), from);
    }

    /** Issued certificates inside their renewal window go back to REQUESTED, and nothing else changes. */
    method Renewals(w: World)
      requires Valid() && clock == w.now
      modifies zone
      ensures Valid() && Renewed(old(zone.table), zone.table, w, forall i :: w.room(i))
    {
      hide Quiet, CapsValid, Zone.Valid, SetStateEffect, Normal, ListEffect, Requeued, Proper;
      ghost var m := zone.table;
      zone.TableProper();
      var n, issued := zone.ListIssued(0, w.room);
      ghost var full := forall i :: w.room(i);
      ListedHosts(m, full, issued);
      Requeue0(m, w);
      var j := 0;
      while j < |issued|
        invariant 0 <= j <= |issued| && Valid() && zone.table == Requeued(m, issued[..j], w)
      {
        Requeue1(m, issued, j, w);
        if w.cover(issued[j]) == NotConfigured && w.due(issued[j]) {
          SettleQuiet(zone.table, issued[j], Requested, 0, w.now, order);
          var _ := zone.SetState(issued[j], Requested, 0, w.now);
        }
        j := j + 1;
      }
      assert issued[..j] == issued;
      RequeuedAll(m, issued, w, full);
    }

    /** Idle hosts are dropped from the registry, if idling is limited at all. */
    method Evict(w: World) returns (evicted: seq<string>)
      requires Valid() && clock == w.now
      modifies zone
      ensures Valid()
      ensures if w.ttl <= 0 then zone.table == old(zone.table) && evicted == []
              else GcEffect(old(zone.table), zone.table, w.now, w.ttl, (forall i :: w.room(i)), evicted)
    {
      hide Quiet;
      evicted := [];
      if w.ttl > 0 {
        ghost var m := zone.table;
        var n: int;
        n, evicted := zone.Gc(w.now, w.ttl, w.room);
        GcQuiet(m, zone.table, w.now, w.ttl, forall i :: w.room(i), evicted, order);
      }
    }

    /** The order's newOrder request went out, once in its life: count it. */
    method Counted(now: int)
      requires Valid() && clock <= now && order.Some? && order.value.runtime && !counted
      modifies this`clock, this`counted, orders, orders.ring
      ensures Valid() && clock == now && orders.log == old(orders.log) + [now]
    {
      Tick(now);
      hide Quiet, Zone.Valid, Normal, RateCap.Inv;
      ghost var before := Rate();
      orders.Push(now);
      counted := true;
      RateCap.StepInv(before, RateCap.Count(now), Rate());
    }

    /** The order ended: record the outcome where it belongs and free the slot. */
    method Complete(ok: bool, retryAfter: int, now: int)
      requires Valid() && clock <= now && order.Some?
      modifies this, zone, fails
      ensures Valid() && clock == now && order.None?
      ensures zone.table == Concluded(old(zone.table), old(order).value, ok, retryAfter, now)
      ensures if ok || !old(order).value.runtime then fails.entries == old(fails.entries)
              else RateCap.Noted(old(fails.entries), fails.entries, old(order).value.host, now)
    {
      Tick(now);
      hide Base, Quiet, SetStateEffect;
      if order.value.runtime {
        if !ok {
          NoteFailure(now);
        }
        Outcome(ok, if !ok && retryAfter > 0 then retryAfter else 0, now);
      } else {
        Vacate();
      }
    }

    /** Frees the slot of an order that claimed nothing. */
    method Vacate()
      requires Valid() && order.Some? && !order.value.runtime
      modifies this`order
      ensures Valid() && order.None?
    {
      hide Quiet;
      OtherQuiet(zone.table, order);
      order := None;
    }

    method NoteFailure(now: int)
      requires Valid() && clock == now && order.Some? && order.value.runtime
      modifies fails
      ensures Valid()
      ensures RateCap.Noted(old(fails.entries), fails.entries, order.value.host, now)
    {
      hide Quiet, Zone.Valid, Normal, LowerCharset, RateCap.Noted;
      NormalIsSafe(order.value.host);
      fails.Record(order.value.host, now);
    }

    /** The registry's part of a completion; under an active stamp the write is never refused. */
    method Outcome(ok: bool, hold: int, now: int)
      requires Valid() && order.Some? && order.value.runtime
      modifies this`order, zone
      ensures Valid() && order.None?
      ensures zone.table == SetStateEffect(old(zone.table), true, old(order).value.host, if ok then Issued else Failed, hold, now).0
    {
      hide Quiet, Normal;
      var host := order.value.host;
      var st := if ok then Issued else Failed;
      SettleQuiet(zone.table, host, st, hold, now, order);
      var done := zone.SetState(host, st, hold, now);
      assert done;
      order := None;
    }

    /** Teardown frees the order without its completion; a claimed host is given back first. */
    method DropOrder(now: int)
      requires Valid() && clock <= now
      modifies this, zone
      ensures Valid() && clock == now && order.None?
      ensures zone.table ==
              if old(order).None? || !old(order).value.runtime then old(zone.table)
              else SetStateEffect(old(zone.table), true, old(order).value.host, Requested, 0, now).0
    {
      hide Base, Quiet, SetStateEffect;
      Tick(now);
      if order.Some? {
        if order.value.runtime {
          GiveBack(now);
        } else {
          Vacate();
        }
      }
    }

    /** The host of a runtime order goes back to REQUESTED, and the slot is free. */
    method GiveBack(now: int)
      requires Valid() && order.Some? && order.value.runtime
      modifies this`order, zone
      ensures Valid() && order.None?
      ensures zone.table == SetStateEffect(old(zone.table), true, old(order).value.host, Requested, 0, now).0
    {
      hide Quiet, Normal, SetStateEffect;
      SettleQuiet(zone.table, order.value.host, Requested, 0, now, order);
      PutAside(order.value.host, Requested, 0, now);
      order := None;
    }

    /** The sweep launches an order for a configured name. */
    method StartConfig(name: string)
      requires Valid() && order.None?
      modifies this`order
      ensures Valid() && order == Some(Flight(name, false))
    {
      order := Some(Flight(name, false));
    }
  }

  lemma {:induction false} CapIs(log: seq<int>, n: nat, now: int, window: nat)
    requires RateCap.Ordered(log) && n > 0
    ensures RateCap.AtCap(log, n, now, window) <==> RateCap.CountIn(RateCap.Last(log, n), now, window) >= n
  {
    RateCap.RingCounts(log, n, now, window);
  }

  lemma {:induction false} Weaker(m: Table, m': Table, now: int, max: nat, full: bool, out: seq<string>)
    requires DrainEffect(m, m', now, max, full, out)
    ensures DrainEffect(m, m', now, max, false, out)
  {
  }

  lemma {:induction false} DrainedNone(m: Table, m': Table, now: int, full: bool, out: seq<string>)
    requires DrainEffect(m, m', now, 1, full, out) && out == []
    ensures m' == m && (full ==> EligibleHosts(m, now) == {})
  {
    assert Claimed(m, [], now) == m;
  }

  lemma {:induction false} AtMostOne(m: Table, m': Table, now: int, out: seq<string>)
    requires DrainEffect(m, m', now, 1, false, out)
    ensures |out| <= 1
  {
  }

  lemma {:induction false} ClaimedIs(m: Table, out: seq<string>, m': Table, now: int)
    requires DrainEffect(m, m', now, 1, false, out) && |out| == 1
    ensures out[0] in m && Eligible(m[out[0]], now) && m' == m[out[0] := Taken(m[out[0]], now)]
  {
  }

  lemma {:induction false} FirstInOrder(hash: string -> nat, out: seq<string>, m: Table, now: int)
    requires InKeyOrder(hash, out, m, now) && |out| == 1
    ensures forall x :: x in m && Eligible(m[x], now) && x != out[0] ==> Less(hash, out[0], x)
  {
  }

  lemma {:induction false} SettledIs(m: Table, h: string, m1: Table, m2: Table, st: State, next: int, now: int)
    requires h in m && Normal(h) == Some(h) && m1 == m[h := Taken(m[h], now)]
    requires m2 == SetStateEffect(m1, true, h, st, next, now).0 && st != Unknown
    ensures h in m2 && m2 == m[h := m2[h]] && m2[h] == Settled(Taken(m[h], now), st, next, now)
  {
  }

  lemma {:induction false} HandedKey(m: Table, out: seq<string>, m': Table, now: int)
    requires DrainEffect(m, m', now, 1, false, out) && |out| == 1 && Proper(m)
    ensures Normal(out[0]) == Some(out[0])
  {
  }

  lemma {:induction false} OtherQuiet(m: Table, order: Option<Flight>)
    requires Quiet(m, order) && (order.None? || !order.value.runtime)
    ensures forall o: Option<Flight> :: Quiet(m, o)
  {
  }

  /** What happens to a driver with an active zone, in any order; each event says how much later it comes. */
  datatype Event =
    | Asked(later: nat, host: string, alloc: bool)
    | Pumped(later: nat, world: World)
    | Sent(later: nat)
    | Ended(later: nat, ok: bool, retryAfter: int)
    | Configured(later: nat, name: string)
    | TornDown(later: nat)

  /**
   Runs any sequence of events, passing over those that cannot happen where
   they stand. At the end, as after every event, a request is PENDING only if
   its order is in flight, and no three hours saw more than 300 counted orders.
   */
  method Serve(d: Runtime, start: int, events: seq<Event>)
    requires d.Valid() && d.clock == start
    modifies d, d.zone, d.orders, d.orders.ring, d.fails
    ensures d.Valid() && Quiet(d.zone.table, d.order)
    ensures forall from :: RateCap.InThreeHours(d.orders.log, from) <= RateCap.ORDER_MAX
  {
    hide Runtime.Base, Quiet, EnsureEffect, SetStateEffect, RateCap.InThreeHours;
    var now := start;
    var sent := true;
    for i := 0 to |events|
      invariant d.Valid() && d.clock <= now
      invariant d.order.Some? && d.order.value.runtime && !sent ==> !d.counted
    {
      var e := events[i];
      now := now + e.later;
      match e {
        case Asked(_, host, alloc) =>
          var _ := d.ConsumerEnsure(host, now, alloc);
        case Pumped(_, w) =>
          if d.order.None? {
            var _ := d.PumpRuntime(w.(now := now));
            sent := false;
          }
        case Sent(_) =>
          if d.order.Some? && d.order.value.runtime && !sent {
            d.Counted(now);
            sent := true;
          }
        case Ended(_, ok, retryAfter) =>
          if d.order.Some? {
            d.Complete(ok, retryAfter, now);
          }
        case Configured(_, name) =>
          if d.order.None? {
            d.StartConfig(name);
          }
        case TornDown(_) =>
          d.DropOrder(now);
      }
    }
    forall from ensures RateCap.InThreeHours(d.orders.log, from) <= RateCap.ORDER_MAX {
      d.ThreeHours(from);
    }
  }
}
