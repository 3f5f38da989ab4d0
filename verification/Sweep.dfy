/**
 The renewal sweep: a cursor over CAs, names and key types that survives from
 one order's completion to the next, the failure backoff, and the timer.
 */
module Sweep {
  import opened Bytes
  import Registry
  import RateCap
  import Driver

  const INTERVAL: nat := 12 * 60 * 60 * 1000
  const FLOOR: nat := 60 * 1000
  const INITIAL: nat := 1000
  const BASE: nat := 60
  const MAX_SHIFT: nat := 6
  const CAP: nat := 60 * 60

  // ------------------------------------------------------------------- slots

  /** One certificate to look after: which CA, which of its names, which key type. */
  datatype Slot = Slot(ca: nat, name: nat, kt: nat)

  /** What a sweep covers: the names of each CA, how many key types, and which CAs have a live account. */
  datatype Plan = Plan(names: seq<seq<string>>, nkt: nat, live: seq<bool>)

  predicate PlanOk(p: Plan) { |p.live| == |p.names| && p.nkt > 0 }

  /** The slots from a cursor position on, in the order the sweep offers them. */
  function Rest(p: Plan, ca: nat, i: nat, k: nat): seq<Slot>
    requires PlanOk(p)
    decreases |p.names| - ca, if ca < |p.names| then |p.names[ca]| - i else 0, p.nkt - k
  {
    if ca >= |p.names| then []
    else if !p.live[ca] || i >= |p.names[ca]| then Rest(p, ca + 1, 0, 0)
    else if k >= p.nkt then Rest(p, ca, i + 1, 0)
    else [Slot(ca, i, k)] + Rest(p, ca, i, k + 1)
  }

  function All(p: Plan): seq<Slot>
    requires PlanOk(p)
  {
    Rest(p, 0, 0, 0)
  }

  predicate IsLive(p: Plan, s: Slot)
    requires PlanOk(p)
  {
    s.ca < |p.names| && p.live[s.ca] && s.name < |p.names[s.ca]| && s.kt < p.nkt
  }

  /** At or behind a cursor position. */
  predicate NotBefore(s: Slot, ca: nat, i: nat, k: nat) {
    s.ca > ca || (s.ca == ca && (s.name > i || (s.name == i && s.kt >= k)))
  }

  predicate Distinct(l: seq<Slot>) { forall a, b :: 0 <= a < b < |l| ==> l[a] != l[b] }

  lemma {:induction false} RestHas(p: Plan, ca: nat, i: nat, k: nat, s: Slot)
    requires PlanOk(p)
    ensures s in Rest(p, ca, i, k) <==> IsLive(p, s) && NotBefore(s, ca, i, k)
    decreases |p.names| - ca, if ca < |p.names| then |p.names[ca]| - i else 0, p.nkt - k
  {
    if ca < |p.names| {
      if !p.live[ca] || i >= |p.names[ca]| {
        RestHas(p, ca + 1, 0, 0, s);
      } else if k >= p.nkt {
        RestHas(p, ca, i + 1, 0, s);
      } else {
        RestHas(p, ca, i, k + 1, s);
      }
    }
  }

  lemma {:induction false} AheadOf(s: Slot)
    ensures !NotBefore(s, s.ca, s.name, s.kt + 1)
  {
  }

  lemma {:induction false} EmptyDistinct()
    ensures Distinct([])
  {
  }

  lemma {:induction false} PrependDistinct(s: Slot, rest: seq<Slot>)
    requires s !in rest && Distinct(rest)
    ensures Distinct([s] + rest)
  {
  }

  /** One step of the walk. */
  lemma {:induction false} RestIs(p: Plan, ca: nat, i: nat, k: nat)
    requires PlanOk(p)
    ensures Rest(p, ca, i, k) ==
            if ca >= |p.names| then []
            else if !p.live[ca] || i >= |p.names[ca]| then Rest(p, ca + 1, 0, 0)
            else if k >= p.nkt then Rest(p, ca, i + 1, 0)
            else [Slot(ca, i, k)] + Rest(p, ca, i, k + 1)
  {
  }

  lemma {:induction false} NotAhead(p: Plan, s: Slot)
    requires PlanOk(p)
    ensures s !in Rest(p, s.ca, s.name, s.kt + 1)
  {
    hide Rest, IsLive;
    RestHas(p, s.ca, s.name, s.kt + 1, s);
    AheadOf(s);
  }

  lemma {:induction false} RestDistinct(p: Plan, ca: nat, i: nat, k: nat)
    requires PlanOk(p)
    ensures Distinct(Rest(p, ca, i, k))
    decreases |p.names| - ca, if ca < |p.names| then |p.names[ca]| - i else 0, p.nkt - k
  {
    hide Distinct, Rest;
    EmptyDistinct();
    RestIs(p, ca, i, k);
    if ca < |p.names| {
      if !p.live[ca] || i >= |p.names[ca]| {
        RestDistinct(p, ca + 1, 0, 0);
      } else if k >= p.nkt {
        RestDistinct(p, ca, i + 1, 0);
      } else {
        RestDistinct(p, ca, i, k + 1);
        NotAhead(p, Slot(ca, i, k));
        PrependDistinct(Slot(ca, i, k), Rest(p, ca, i, k + 1));
      }
    }
  }

  /** A whole sweep offers every live slot exactly once. */
  lemma {:induction false} AllOnce(p: Plan)
    requires PlanOk(p)
    ensures forall s :: s in All(p) <==> IsLive(p, s)
    ensures Distinct(All(p))
  {
    RestDistinct(p, 0, 0, 0);
    forall s ensures s in All(p) <==> IsLive(p, s) {
      RestHas(p, 0, 0, 0, s);
    }
  }

  // ----------------------------------------------------------------- backoff

  datatype Hold = Hold(next: int, fails: nat)

  function Pow2(n: nat): (r: nat)
    ensures r >= 1
  {
    if n == 0 then 1 else 2 * Pow2(n - 1)
  }

  /** A minute, doubled for each failure after the first, at most an hour. */
  function Delay(fails: nat): nat
    requires fails > 0
  {
    var shift := if fails - 1 > MAX_SHIFT then MAX_SHIFT else fails - 1;
    if BASE * Pow2(shift) > CAP then CAP else BASE * Pow2(shift)
  }

  lemma {:induction false} DelayGrows(fails: nat)
    requires fails > 0
    ensures BASE <= Delay(fails) <= Delay(fails + 1) <= CAP
    ensures Delay(1) == BASE && Delay(fails + 1) == (if 2 * Delay(fails) < CAP then 2 * Delay(fails) else CAP)
    ensures fails >= 7 <==> Delay(fails) == CAP
  {
    assert Pow2(0) == 1 && Pow2(1) == 2 && Pow2(2) == 4 && Pow2(3) == 8 && Pow2(4) == 16;
    assert Pow2(5) == 32 && Pow2(6) == 64;
  }

  /** What an attempt leaves in its slot, and the CA's own Retry-After on top of it. */
  function Recorded(h: Hold, ok: bool, retryAfter: int, now: int): Hold {
    if ok then Hold(0, 0)
    else
      var next := now + Delay(h.fails + 1);
      Hold(if retryAfter > 0 && retryAfter > next then retryAfter else next, h.fails + 1)
  }

  /** The flat index of a (name, key type) pair, and its bound. */
  lemma {:induction false} FlatBound(i: nat, k: nat, n: nat, nkt: nat)
    requires i < n && k < nkt
    ensures i * nkt + k < n * nkt
  {
    assert n * nkt == i * nkt + (n - i) * nkt;
    assert (n - i) * nkt == nkt + (n - i - 1) * nkt;
  }

  /** No two pairs share a backoff slot. */
  lemma {:induction false} FlatInjective(i: nat, k: nat, j: nat, l: nat, nkt: nat)
    requires k < nkt && l < nkt && i * nkt + k == j * nkt + l
    ensures i == j && k == l
  {
    if i < j {
      FlatBound(i, k, j, nkt);
    } else if j < i {
      FlatBound(j, l, i, nkt);
    }
  }

  // ---------------------------------------------------------------- the timer

  /** What bounds the next sweep: half the renewal window, the idle time, the soonest hold; each may be absent. */
  datatype Limits = Limits(renewBefore: nat, ttl: nat, zone: bool, configured: bool)

  /** A bound on the delay to the next sweep that applies, in milliseconds. */
  ghost predicate Bounds(l: Limits, holds: seq<Hold>, now: int, x: nat) {
    || x == INTERVAL
    || (l.configured && l.renewBefore > 0 && x == l.renewBefore * 1000 / 2)
    || (l.configured && l.ttl > 0 && l.zone && x == l.ttl * 1000)
    || exists i :: 0 <= i < |holds| && holds[i].next > now && x == (holds[i].next - now) * 1000
  }

  /** The least of the bounds, but no less than the floor. */
  ghost predicate IsDelay(l: Limits, holds: seq<Hold>, now: int, ms: nat) {
    exists x: nat :: Bounds(l, holds, now, x) && (forall y: nat :: Bounds(l, holds, now, y) ==> x <= y) && ms == Max(FLOOR, x)
  }

  /** The delay to the next sweep, in milliseconds. */
  method Interval(l: Limits, holds: seq<Hold>, now: int) returns (ms: nat)
    ensures FLOOR <= ms <= INTERVAL && IsDelay(l, holds, now, ms)
  {
    ms := INTERVAL;
    if l.configured && l.renewBefore > 0 {
      var half := l.renewBefore * 1000 / 2;
      if half < ms {
        ms := half;
      }
    }
    if l.configured && l.ttl > 0 && l.zone {
      if l.ttl * 1000 < ms {
        ms := l.ttl * 1000;
      }
    }
    var soonest: Option<int> := None;
    ghost var at := 0;
    for i := 0 to |holds|
      invariant soonest.None? ==> forall j :: 0 <= j < i ==> holds[j].next <= now
      invariant soonest.Some? ==> soonest.value > now && at < i && holds[at].next == soonest.value
      invariant soonest.Some? ==> forall j :: 0 <= j < i && holds[j].next > now ==> soonest.value <= holds[j].next
    {
      var e := holds[i].next;
      if e > now && (soonest.None? || e < soonest.value) {
        soonest, at := Some(e), i;
      }
    }
    if soonest.Some? {
      var until := (soonest.value - now) * 1000;
      if until < ms {
        ms := until;
      }
    }
    assert Bounds(l, holds, now, ms);
    forall y: nat | Bounds(l, holds, now, y)
      ensures ms <= y
    {
    }
    if ms < FLOOR {
      ms := FLOOR;
    }
  }

  function Max(a: nat, b: nat): nat { if a < b then b else a }

  // ------------------------------------------------------------ the scheduler

  /** What one pump finds: configuration, which slots are due on disk, which launches succeed; all arbitrary. */
  datatype World = World(ready: bool, due: Slot -> bool, starts: Slot -> bool, limits: Limits, runtime: Driver.World)

  /** A slot's entry in the backoff arrays. */
  function HoldIn(b: seq<seq<Hold>>, p: Plan, s: Slot): Hold {
    if s.ca < |b| && s.name * p.nkt + s.kt < |b[s.ca]| then b[s.ca][s.name * p.nkt + s.kt] else Hold(0, 0)
  }

  /** Past its backoff and due on disk. */
  predicate Wants(w: World, b: seq<seq<Hold>>, p: Plan, s: Slot) {
    HoldIn(b, p, s).next <= w.runtime.now && w.due(s)
  }

  /** The first slot of a list whose order is asked for and starts, or the length of the list. */
  function First(w: World, b: seq<seq<Hold>>, p: Plan, l: seq<Slot>): (n: nat)
    ensures n <= |l|
  {
    if l == [] || (Wants(w, b, p, l[0]) && w.starts(l[0])) then 0 else 1 + First(w, b, p, l[1..])
  }

  /** What passing over the slots of `l` leaves: a failure on each that wanted an order, and nothing else. */
  ghost predicate Passed(w: World, p: Plan, b: seq<seq<Hold>>, b': seq<seq<Hold>>, l: seq<Slot>)
    requires PlanOk(p)
  {
    forall s :: IsLive(p, s) ==>
      HoldIn(b', p, s) == if s in l && Wants(w, b, p, s) then Recorded(HoldIn(b, p, s), false, 0, w.runtime.now) else HoldIn(b, p, s)
  }

  /** None of them could start, and all were passed over. */
  ghost predicate Scanned(w: World, p: Plan, b: seq<seq<Hold>>, b': seq<seq<Hold>>, l: seq<Slot>)
    requires PlanOk(p)
  {
    Passed(w, p, b, b', l) && forall s :: s in l ==> !(Wants(w, b, p, s) && w.starts(s))
  }

  lemma {:induction false} ScannedNone(w: World, p: Plan, b: seq<seq<Hold>>)
    requires PlanOk(p)
    ensures Scanned(w, p, b, b, [])
  {
  }

  lemma {:induction false} ScannedHold(w: World, p: Plan, b: seq<seq<Hold>>, b': seq<seq<Hold>>, l: seq<Slot>, s: Slot)
    requires PlanOk(p) && Scanned(w, p, b, b', l) && IsLive(p, s) && s !in l
    ensures HoldIn(b', p, s) == HoldIn(b, p, s)
  {
  }

  lemma {:induction false} SameWants(w: World, b: seq<seq<Hold>>, b': seq<seq<Hold>>, p: Plan, s: Slot)
    requires HoldIn(b', p, s) == HoldIn(b, p, s)
    ensures Wants(w, b', p, s) == Wants(w, b, p, s)
  {
  }

  lemma {:induction false} ScannedOne(w: World, p: Plan, b: seq<seq<Hold>>, b1: seq<seq<Hold>>, b2: seq<seq<Hold>>, l: seq<Slot>, s: Slot)
    requires PlanOk(p) && Scanned(w, p, b, b1, l) && IsLive(p, s) && s !in l
    requires Passed(w, p, b1, b2, [s]) && !(Wants(w, b1, p, s) && w.starts(s))
    ensures Scanned(w, p, b, b2, l + [s])
  {
    ScannedHold(w, p, b, b1, l, s);
    forall t | IsLive(p, t)
      ensures HoldIn(b2, p, t) ==
              if t in l + [s] && Wants(w, b, p, t) then Recorded(HoldIn(b, p, t), false, 0, w.runtime.now) else HoldIn(b, p, t)
    {
      assert HoldIn(b1, p, t) ==
             if t in l && Wants(w, b, p, t) then Recorded(HoldIn(b, p, t), false, 0, w.runtime.now) else HoldIn(b, p, t);
    }
    hide HoldIn, Recorded;
  }

  lemma {:induction false} FirstIs(w: World, b: seq<seq<Hold>>, p: Plan, l: seq<Slot>, n: nat)
    requires n <= |l| && forall s :: s in l[..n] ==> !(Wants(w, b, p, s) && w.starts(s))
    requires n < |l| ==> Wants(w, b, p, l[n]) && w.starts(l[n])
    ensures First(w, b, p, l) == n
  {
    if n > 0 {
      assert l[0] in l[..n];
      assert l[1..][..n - 1] == l[..n][1..];
      FirstIs(w, b, p, l[1..], n - 1);
    }
  }

  /** It is the first: none before it could start, and it does. */
  lemma {:induction false} FirstSpec(w: World, b: seq<seq<Hold>>, p: Plan, l: seq<Slot>)
    ensures var n := First(w, b, p, l);
            && (n < |l| ==> Wants(w, b, p, l[n]) && w.starts(l[n]))
            && forall s :: s in l[..n] ==> !(Wants(w, b, p, s) && w.starts(s))
  {
    if l != [] && !(Wants(w, b, p, l[0]) && w.starts(l[0])) {
      FirstSpec(w, b, p, l[1..]);
      var n := First(w, b, p, l);
      assert l[..n] == [l[0]] + l[1..][..n - 1];
    }
  }

  class Scheduler {
    const runtime: Driver.Runtime
    const plan: Plan
    var backoff: seq<seq<Hold>>
    var ca: nat
    var index: nat
    var kt: nat
    var cur: Slot  // the slot whose order is in flight
    var timer: Option<nat>
    var armed: bool
    var exiting: bool
    ghost var sweeping: bool
    ghost var offered: seq<Slot>
    ghost var sweeps: seq<seq<Slot>>

    /** Every slot has its backoff entry. */
    predicate BackoffFits()
      reads this`backoff
    {
      PlanOk(plan) && |backoff| == |plan.names| && forall c :: 0 <= c < |backoff| ==> |backoff[c]| == |plan.names[c]| * plan.nkt
    }

    /** The sweep so far and the slots still ahead of the cursor make up the whole plan; past sweeps were whole. */
    ghost predicate Swept()
      reads this`ca, this`index, this`kt, this`sweeping, this`offered, this`sweeps
    {
      && PlanOk(plan)
      && (sweeping ==> offered + Rest(plan, ca, index, kt) == All(plan))
      && forall i :: 0 <= i < |sweeps| ==> sweeps[i] == All(plan)
    }

    ghost predicate Valid()
      reads this, runtime, runtime.zone, runtime.orders, runtime.orders.ring, runtime.fails
    {
      && runtime.Valid() && BackoffFits() && Swept() && (!armed ==> !sweeping)
      && (runtime.order.Some? && !runtime.order.value.runtime ==> IsLive(plan, cur))
      && (runtime.order.Some? && !sweeping ==> Rest(plan, ca, index, kt) == [])
    }

    /** Between events an armed scheduler has an order in flight or a timer set, and a sweep in progress waits for its order. */
    ghost predicate Alive()
      reads this, runtime
    {
      armed && !exiting ==> (runtime.order.Some? || timer.Some?) && (sweeping ==> runtime.order.Some?)
    }

    constructor (runtime: Driver.Runtime, plan: Plan)
      requires runtime.Valid() && runtime.order.None? && PlanOk(plan)
      ensures Valid() && Alive() && this.runtime == runtime && this.plan == plan && !armed && sweeps == []
      ensures timer == None && !exiting && forall s :: HoldOf(s) == Hold(0, 0)
    {
      this.runtime, this.plan := runtime, plan;
      backoff := seq(|plan.names|, c requires 0 <= c < |plan.names| => seq(|plan.names[c]| * plan.nkt, _ => Hold(0, 0)));
      ca, index, kt, cur := 0, 0, 0, Slot(0, 0, 0);
      timer, armed, exiting := None, false, false;
      sweeping, offered, sweeps := false, [], [];
      hide Driver.Runtime.Valid, Rest, All;
    }

    /** The account is live: the first sweep comes a second later. */
    method Arm()
      requires Valid() && Alive()
      modifies this`armed, this`timer
      ensures Valid() && Alive() && armed
      ensures old(armed) ==> timer == old(timer)
      ensures !old(armed) ==> timer == Some(INITIAL)
    {
      hide Driver.Runtime.Valid, Rest, Swept;
      if armed {
        return;
      }
      armed, timer := true, Some(INITIAL);
    }

    function Index(s: Slot): nat { s.name * plan.nkt + s.kt }

    /** A slot's backoff entry. */
    function HoldOf(s: Slot): Hold
      reads this`backoff
    {
      HoldIn(backoff, plan, s)
    }

    /** Replaces one backoff entry. */
    method Record(s: Slot, ok: bool, retryAfter: int, now: int)
      requires BackoffFits() && IsLive(plan, s)
      modifies this`backoff
      ensures BackoffFits() && HoldOf(s) == Recorded(old(HoldOf(s)), ok, retryAfter, now)
      ensures forall t :: IsLive(plan, t) && t != s ==> HoldOf(t) == old(HoldOf(t))
    {
      forall t | IsLive(plan, t) && t != s ensures t.ca == s.ca ==> Index(t) != Index(s) {
        if t.ca == s.ca && Index(t) == Index(s) {
          FlatInjective(t.name, t.kt, s.name, s.kt, plan.nkt);
        }
      }
      FlatBound(s.name, s.kt, |plan.names[s.ca]|, plan.nkt);
      var h := backoff[s.ca][Index(s)];
      var q: Hold;
      if ok {
        q := Hold(0, 0);
      } else {
        q := Hold(now + Delay(h.fails + 1), h.fails + 1);
        if retryAfter > 0 && retryAfter > q.next {
          q := q.(next := retryAfter);
        }
      }
      backoff := backoff[s.ca := backoff[s.ca][Index(s) := q]];
    }

    /**
     Offers the slot under the cursor. It is launched exactly when it is past its
     backoff, due, and its order starts; a failure to start is recorded, and
     nothing else touches a backoff entry.
     */
    method Offer(w: World) returns (launched: bool)
      requires Valid() && sweeping && runtime.order.None? && IsLive(plan, Slot(ca, index, kt))
      modifies this`kt, this`cur, this`backoff, this`offered, runtime`order
      ensures Valid() && kt == old(kt) + 1 && offered == old(offered) + [Slot(ca, index, old(kt))]
      ensures launched <==> Wants(w, old(backoff), plan, Slot(ca, index, old(kt))) && w.starts(Slot(ca, index, old(kt)))
      ensures if launched then Flies(Slot(ca, index, old(kt))) && backoff == old(backoff)
              else runtime.order.None? && Passed(w, plan, old(backoff), backoff, [Slot(ca, index, old(kt))])
    {
      hide Driver.Runtime.Valid, Rest, All, Passed, Wants;
      var s := Slot(ca, index, kt);
      StepRest();
      kt := kt + 1;
      offered := offered + [s];
      launched := Try(w, s);
    }

    /** The order in flight is that of slot `s`. */
    ghost predicate Flies(s: Slot)
      reads this`cur, runtime`order
    {
      PlanOk(plan) && IsLive(plan, s) && cur == s && runtime.order == Some(Driver.Flight(plan.names[s.ca][s.name], false))
    }

    /** Held by its backoff, not due, launched, or failed to launch. */
    method Try(w: World, s: Slot) returns (launched: bool)
      requires Valid() && sweeping && runtime.order.None? && IsLive(plan, s)
      modifies this`cur, this`backoff, runtime`order
      ensures Valid()
      ensures launched <==> Wants(w, old(backoff), plan, s) && w.starts(s)
      ensures if launched then Flies(s) && backoff == old(backoff)
              else runtime.order.None? && Passed(w, plan, old(backoff), backoff, [s])
    {
      hide Driver.Runtime.Valid, Rest, All, Recorded;
      if HoldOf(s).next > w.runtime.now || !w.due(s) {
        return false;
      }
      cur := s;
      if w.starts(s) {
        runtime.StartConfig(plan.names[s.ca][s.name]);
        return true;
      }
      Record(s, false, 0, w.runtime.now);
      launched := false;
    }

    lemma StepRest()
      requires PlanOk(plan) && IsLive(plan, Slot(ca, index, kt))
      ensures Rest(plan, ca, index, kt) == [Slot(ca, index, kt)] + Rest(plan, ca, index, kt + 1)
    {
    }

    /** The slots offered since `before` were all passed over, but for the last one when it was launched. */
    ghost predicate Went(w: World, b: seq<seq<Hold>>, before: seq<Slot>, launched: bool)
      reads this`offered, this`backoff, this`cur, runtime`order
    {
      && PlanOk(plan) && before <= offered
      && if !launched then runtime.order.None? && Scanned(w, plan, b, backoff, offered[|before|..])
         else
           && |offered| > |before| && Flies(offered[|offered| - 1])
           && Scanned(w, plan, b, backoff, offered[|before|..|offered| - 1])
           && Wants(w, b, plan, offered[|offered| - 1]) && w.starts(offered[|offered| - 1])
    }

    /** The slot under the cursor was not offered before in this sweep. */
    lemma NotOffered()
      requires PlanOk(plan) && IsLive(plan, Slot(ca, index, kt)) && offered + Rest(plan, ca, index, kt) == All(plan)
      ensures Slot(ca, index, kt) !in offered
    {
      StepRest();
      AllOnce(plan);
      hide Rest, All;
      var s, all := Slot(ca, index, kt), All(plan);
      assert all[|offered|] == s;
      forall i | 0 <= i < |offered|
        ensures offered[i] != s
      {
        assert all[i] == offered[i] && all[i] != all[|offered|];
      }
    }

    /** One more slot, offered after others were passed over. */
    method OfferNext(w: World, ghost b: seq<seq<Hold>>, ghost before: seq<Slot>) returns (launched: bool)
      requires Valid() && sweeping && Went(w, b, before, false) && IsLive(plan, Slot(ca, index, kt))
      modifies this`kt, this`cur, this`backoff, this`offered, runtime`order
      ensures Valid() && kt == old(kt) + 1 && Went(w, b, before, launched)
    {
      hide Driver.Runtime.Valid, Rest, All, Passed, Wants, Scanned, Recorded, Flies;
      ghost var s, b1, l := Slot(ca, index, kt), backoff, offered[|before|..];
      NotOffered();
      ScannedHold(w, plan, b, b1, l, s);
      SameWants(w, b, b1, plan, s);
      launched := Offer(w);
      assert offered[|before|..|offered| - 1] == l;
      if !launched {
        ScannedOne(w, plan, b, b1, backoff, l, s);
        assert offered[|before|..] == l + [s];
      }
    }

    /** The three nested loops from the cursor on; stops at the first launch. */
    method Scan(w: World) returns (launched: bool)
      requires Valid() && runtime.order.None? && (sweeping || Rest(plan, ca, index, kt) == [])
      modifies this`ca, this`index, this`kt, this`cur, this`backoff, this`offered, runtime`order
      ensures Valid() && Found(w, old(backoff), old(Rest(plan, ca, index, kt)), launched)
      ensures launched ==> sweeping
      ensures !launched ==> runtime.order.None? && Rest(plan, ca, index, kt) == []
    {
      hide Driver.Runtime.Valid, All, Went, Found;
      ghost var b, before, l := backoff, offered, Rest(plan, ca, index, kt);
      WentNowhere(w);
      launched := ScanFrom(w, b, before);
      WentFinds(w, b, before, l, launched);
    }

    method ScanFrom(w: World, ghost b: seq<seq<Hold>>, ghost before: seq<Slot>) returns (launched: bool)
      requires Valid() && (sweeping || Rest(plan, ca, index, kt) == []) && Went(w, b, before, false) && runtime.order.None?
      modifies this`ca, this`index, this`kt, this`cur, this`backoff, this`offered, runtime`order
      ensures Valid() && Went(w, b, before, launched) && (launched <==> runtime.order.Some?)
      ensures launched ==> sweeping
      ensures !sweeping ==> offered == old(offered)
      ensures !launched ==> Rest(plan, ca, index, kt) == []
    {
      hide Driver.Runtime.Valid, All, Went;
      while ca < |plan.names|
        invariant Valid() && runtime.order.None? && (sweeping || Rest(plan, ca, index, kt) == [])
        invariant Went(w, b, before, false) && (!sweeping ==> offered == old(offered))
        decreases |plan.names| - ca
      {
        if plan.live[ca] && |plan.names[ca]| > 0 {
          launched := ScanNames(w, b, before);
          if launched {
            return;
          }
        }
        ca, index, kt := ca + 1, 0, 0;
      }
      launched := false;
    }

    method ScanNames(w: World, ghost b: seq<seq<Hold>>, ghost before: seq<Slot>) returns (launched: bool)
      requires Valid() && (sweeping || Rest(plan, ca, index, kt) == []) && Went(w, b, before, false) && runtime.order.None?
      requires ca < |plan.names| && plan.live[ca]
      modifies this`index, this`kt, this`cur, this`backoff, this`offered, runtime`order
      ensures Valid() && Went(w, b, before, launched) && (launched <==> runtime.order.Some?)
      ensures launched ==> sweeping
      ensures !sweeping ==> offered == old(offered)
      ensures !launched ==> index >= |plan.names[ca]| && (sweeping || Rest(plan, ca, index, kt) == [])
    {
      hide Driver.Runtime.Valid, All, Went;
      while index < |plan.names[ca]|
        invariant Valid() && runtime.order.None? && (sweeping || Rest(plan, ca, index, kt) == [])
        invariant Went(w, b, before, false) && (!sweeping ==> offered == old(offered))
        decreases |plan.names[ca]| - index
      {
        ghost var here := index;
        while kt < plan.nkt
          invariant index == here
          invariant Valid() && runtime.order.None? && (sweeping || Rest(plan, ca, index, kt) == [])
          invariant Went(w, b, before, false) && (!sweeping ==> offered == old(offered))
          decreases plan.nkt - kt
        {
          launched := OfferNext(w, b, before);
          WentOrder(w, b, before, launched);
          if launched {
            return;
          }
        }
        index, kt := index + 1, 0;
      }
      launched := false;
    }

    lemma WentOrder(w: World, b: seq<seq<Hold>>, before: seq<Slot>, launched: bool)
      requires Went(w, b, before, launched)
      ensures launched <==> runtime.order.Some?
    {
    }

    lemma WentNowhere(w: World)
      requires PlanOk(plan) && runtime.order.None?
      ensures Went(w, backoff, offered, false)
    {
      ScannedNone(w, plan, backoff);
      assert offered[|offered|..] == [];
    }

    /**
     The first slot of `l` that wants an order which starts is in flight, exactly
     when there is one; those before it were passed over, all of them when there is none.
     */
    ghost predicate Found(w: World, b: seq<seq<Hold>>, l: seq<Slot>, launched: bool)
      reads this`backoff, this`cur, runtime`order
    {
      var n := First(w, b, plan, l);
      && PlanOk(plan) && Passed(w, plan, b, backoff, l[..n]) && (launched <==> n < |l|)
      && (launched ==> Flies(l[n]))
    }

    lemma WentFinds(w: World, b: seq<seq<Hold>>, before: seq<Slot>, l: seq<Slot>, launched: bool)
      requires Valid() && Went(w, b, before, launched) && (!launched ==> Rest(plan, ca, index, kt) == [])
      requires if sweeping then before + l == All(plan) else l == [] && offered == before && !launched
      ensures Found(w, b, l, launched)
    {
      hide Driver.Runtime.Valid, All, Rest, Passed, Wants, Flies;
      if sweeping {
        var rest := Rest(plan, ca, index, kt);
        assert offered + rest == before + l;
        assert l == (before + l)[|before|..] == offered[|before|..] + rest;
        var n := if launched then |offered| - 1 - |before| else |offered| - |before|;
        assert l[..n] == if launched then offered[|before|..|offered| - 1] else offered[|before|..];
        assert launched ==> l[n] == offered[|offered| - 1];
        FirstIs(w, b, plan, l, n);
      } else {
        assert offered[|before|..] == [];
      }
    }

    /** Nothing of the sweep, the slot in flight or the registry is touched. */
    twostate predicate Untouched()
      reads this, runtime, runtime.zone
    {
      && backoff == old(backoff) && ca == old(ca) && index == old(index) && kt == old(kt) && cur == old(cur)
      && sweeping == old(sweeping) && offered == old(offered) && sweeps == old(sweeps)
      && runtime.order == old(runtime.order) && runtime.zone.table == old(runtime.zone.table)
    }

    /** The timer is set for the delay that the limits and the backoff entries give. */
    ghost predicate TimerSet(w: World)
      reads this`timer, this`backoff
    {
      timer.Some? && FLOOR <= timer.value <= INTERVAL && IsDelay(w.limits, Flatten(backoff), w.runtime.now, timer.value)
    }

    /**
     What a pump comes to that is free to work: from the slots `l` ahead of the
     cursor the first that wants an order and starts is launched; when there is
     none the sweep is complete, the backlog is served, and unless that launched
     an order the timer is set. Without a usable configuration the sweep is given
     up and the timer set.
     */
    ghost predicate Pumped(w: World, b: seq<seq<Hold>>, l: seq<Slot>, was: bool, before: seq<seq<Slot>>, tick: Option<nat>,
                           m: Registry.Table)
      reads this, runtime, runtime.zone, runtime.orders, runtime.fails
    {
      && PlanOk(plan)
      && if !w.ready then
           && backoff == b && !sweeping && sweeps == before && runtime.order.None? && runtime.zone.table == m && TimerSet(w)
         else if First(w, b, plan, l) < |l| then
           Found(w, b, l, true) && sweeping == was && sweeps == before && timer == tick && runtime.zone.table == m
         else
           && Passed(w, plan, b, backoff, l) && !sweeping && sweeps == (if was then before + [All(plan)] else before)
           && runtime.PumpEffect(w.runtime, m, runtime.zone.table)
           && if runtime.order.None? then TimerSet(w) else timer == tick
    }

    /** From the cursor to the next order, or to the end of the sweep, the runtime backlog and the timer. */
    method Pump(w: World)
      requires Valid() && armed && runtime.clock <= w.runtime.now
      requires runtime.order.Some? || sweeping || Rest(plan, ca, index, kt) == []
      modifies this, runtime, runtime.zone
      ensures Valid() && Alive() && armed && exiting == old(exiting)
      ensures runtime.clock <= w.runtime.now
      ensures if old(exiting || runtime.order.Some?) then Untouched() && timer == old(timer)
              else Pumped(w, old(backoff), old(Rest(plan, ca, index, kt)), old(sweeping), old(sweeps), old(timer), old(runtime.zone.table))
    {
      hide Driver.Runtime.Valid, Rest, All, Driver.Runtime.PumpEffect, Found, Passed, IsDelay, Flatten;
      if exiting || runtime.order.Some? {
        SomeOrder();
        return;
      }
      if w.ready {
        ghost var b, l := backoff, Rest(plan, ca, index, kt);
        var launched := Scan(w);
        FoundIs(w, b, l, launched);
        if launched {
          return;
        }
        Finish();
        RunBacklog(w);
        if runtime.order.Some? {
          return;
        }
      } else {
        Abandon();
      }
      Rearm(w);
    }

    lemma FoundIs(w: World, b: seq<seq<Hold>>, l: seq<Slot>, launched: bool)
      requires Found(w, b, l, launched)
      ensures launched == (First(w, b, plan, l) < |l|) && (launched ==> runtime.order.Some?)
      ensures PlanOk(plan) && (!launched ==> Passed(w, plan, b, backoff, l))
    {
      hide Passed;
      assert l[..|l|] == l;
    }

    lemma SomeOrder()
      requires Valid()
      ensures runtime.order.Some? ==> Alive()
      ensures exiting ==> Alive()
    {
    }

    /** The config names are exhausted: the sweep, if one was under way, is complete. */
    method Finish()
      requires Valid() && armed && runtime.order.None? && Rest(plan, ca, index, kt) == []
      modifies this`sweeping, this`sweeps
      ensures Valid() && !sweeping && |sweeps| == |old(sweeps)| + if old(sweeping) then 1 else 0
      ensures old(sweeping) ==> sweeps == old(sweeps) + [All(plan)]
    {
      hide Driver.Runtime.Valid, All, Rest;
      if sweeping {
        sweeps := sweeps + [offered];
        sweeping := false;
      }
    }

    /** No usable configuration: this sweep stops where it is. */
    method Abandon()
      requires Valid() && runtime.order.None?
      modifies this`sweeping
      ensures Valid() && !sweeping
    {
      hide Driver.Runtime.Valid, All, Rest;
      sweeping := false;
    }

    method RunBacklog(w: World)
      requires Valid() && armed && !exiting && !sweeping && runtime.order.None? && Rest(plan, ca, index, kt) == []
      requires runtime.clock <= w.runtime.now
      modifies runtime, runtime.zone
      ensures Valid() && runtime.clock == w.runtime.now
      ensures runtime.order.Some? ==> runtime.order.value.runtime
      ensures runtime.PumpEffect(w.runtime, old(runtime.zone.table), runtime.zone.table)
    {
      hide Driver.Runtime.Valid, All, Rest, Driver.Runtime.PumpEffect;
      var _ := runtime.PumpRuntime(w.runtime);
    }

    method Rearm(w: World)
      requires Valid() && armed && !sweeping
      modifies this`timer
      ensures Valid() && Alive() && TimerSet(w)
    {
      hide Driver.Runtime.Valid, All, Rest, IsDelay, Flatten;
      var ms := Interval(w.limits, Flatten(backoff), w.runtime.now);
      timer := Some(ms);
    }

    /** A timer tick: a new sweep from the first slot, unless an order is still in flight. */
    method TimerFires(w: World)
      requires Valid() && Alive() && armed && timer.Some? && runtime.clock <= w.runtime.now
      modifies this, runtime, runtime.zone
      ensures Valid() && Alive() && armed && runtime.clock <= w.runtime.now && exiting == old(exiting)
      ensures old(exiting) ==> Untouched() && timer == None
      ensures !old(exiting) && old(runtime.order).Some? ==> Untouched() && timer == Some(INTERVAL)
      ensures !old(exiting) && old(runtime.order).None? ==>
                Pumped(w, old(backoff), All(plan), true, old(sweeps), None, old(runtime.zone.table))
    {
      hide Driver.Runtime.Valid, All, Rest, Pumped;
      timer := None;
      if exiting {
        return;
      }
      if runtime.order.Some? {
        timer := Some(INTERVAL);
        return;
      }
      StartSweep();
      Pump(w);
    }

    method StartSweep()
      requires Valid() && armed && runtime.order.None?
      modifies this`ca, this`index, this`kt, this`sweeping, this`offered
      ensures Valid() && sweeping && offered == [] && Rest(plan, ca, index, kt) == All(plan)
    {
      hide Driver.Runtime.Valid, Rest;
      ca, index, kt := 0, 0, 0;
      sweeping, offered := true, [];
      assert offered + Rest(plan, ca, index, kt) == All(plan);
    }

    /** The slot of an order that ended has its outcome recorded; an order for a runtime host leaves the slots alone. */
    ghost predicate Settled(b: seq<seq<Hold>>, b': seq<seq<Hold>>, flight: Driver.Flight, s: Slot, ok: bool, retryAfter: int, now: int)
    {
      && PlanOk(plan)
      && if flight.runtime then b' == b
         else forall t :: IsLive(plan, t) ==>
                HoldIn(b', plan, t) == if t == s then Recorded(HoldIn(b, plan, t), ok, retryAfter, now) else HoldIn(b, plan, t)
    }

    /** The order in flight ends: its slot's backoff is settled, its host or slot free again, and the sweep goes on. */
    method Complete(ok: bool, retryAfter: int, w: World) returns (ghost settled: seq<seq<Hold>>)
      requires Valid() && Alive() && armed && runtime.order.Some? && runtime.clock <= w.runtime.now
      modifies this, runtime, runtime.zone, runtime.fails
      ensures Valid() && Alive() && armed && exiting == old(exiting)
      ensures runtime.clock <= w.runtime.now
      ensures Settled(old(backoff), settled, old(runtime.order).value, old(cur), ok, retryAfter, w.runtime.now)
      ensures var m := Driver.Concluded(old(runtime.zone.table), old(runtime.order).value, ok, retryAfter, w.runtime.now);
              if old(exiting) then backoff == settled && runtime.order.None? && runtime.zone.table == m && timer == old(timer)
              else Pumped(w, settled, old(Rest(plan, ca, index, kt)), old(sweeping), old(sweeps), old(timer), m)
      ensures if ok || !old(runtime.order).value.runtime then runtime.fails.entries == old(runtime.fails.entries)
              else RateCap.Noted(old(runtime.fails.entries), runtime.fails.entries, old(runtime.order).value.host, w.runtime.now)
    {
      hide Driver.Runtime.Valid, All, Rest, Settled, Pumped, Driver.Concluded, RateCap.Noted;
      Settle(ok, retryAfter, w.runtime.now);
      settled := backoff;
      Pump(w);
    }

    method Settle(ok: bool, retryAfter: int, now: int)
      requires Valid() && runtime.order.Some? && runtime.clock <= now
      modifies this`backoff, runtime, runtime.zone, runtime.fails
      ensures Valid() && runtime.order.None? && runtime.clock == now
      ensures sweeping || Rest(plan, ca, index, kt) == []
      ensures Settled(old(backoff), backoff, old(runtime.order).value, cur, ok, retryAfter, now)
      ensures runtime.zone.table == Driver.Concluded(old(runtime.zone.table), old(runtime.order).value, ok, retryAfter, now)
      ensures if ok || !old(runtime.order).value.runtime then runtime.fails.entries == old(runtime.fails.entries)
              else RateCap.Noted(old(runtime.fails.entries), runtime.fails.entries, old(runtime.order).value.host, now)
    {
      hide Driver.Runtime.Valid, All, Rest, Driver.Concluded, RateCap.Noted;
      if !runtime.order.value.runtime {
        Record(cur, ok, retryAfter, now);
      }
      runtime.Complete(ok, retryAfter, now);
    }

    method Ask(host: string, now: int, alloc: bool)
      requires Valid() && Alive()
      modifies runtime.zone
      ensures Valid() && Alive()
      ensures runtime.zone.table == Registry.EnsureEffect(old(runtime.zone.table), true, host, now, alloc).0
    {
      hide Driver.Runtime.Base, All, Rest, Registry.EnsureEffect;
      var _ := runtime.ConsumerEnsure(host, now, alloc);
    }

    /** The worker is asked to retire: nothing new starts from here on. */
    method Retire()
      requires Valid() && Alive()
      modifies this`exiting
      ensures Valid() && Alive() && exiting
    {
      hide Driver.Runtime.Valid, All, Rest;
      exiting := true;
    }

    /** Teardown frees the order and the timer; the scheduler is disarmed. */
    method TearDown(now: int)
      requires Valid() && runtime.clock <= now
      modifies this`armed, this`timer, this`sweeping, runtime, runtime.zone
      ensures Valid() && Alive() && !armed && timer == None && runtime.order.None? && runtime.clock == now
      ensures runtime.zone.table ==
              if old(runtime.order).None? || !old(runtime.order).value.runtime then old(runtime.zone.table)
              else Registry.SetStateEffect(old(runtime.zone.table), true, old(runtime.order).value.host, Registry.Requested, 0, now).0
    {
      hide Driver.Runtime.Valid, All, Rest, Registry.SetStateEffect;
      runtime.DropOrder(now);
      armed, timer, sweeping := false, None, false;
    }

    /** Each completed sweep offered every live slot exactly once. */
    lemma SweepsWhole(i: nat)
      requires Valid() && i < |sweeps|
      ensures Distinct(sweeps[i]) && forall s :: s in sweeps[i] <==> IsLive(plan, s)
    {
      AllOnce(plan);
    }
  }

  /** What happens to an armed scheduler; each event says how much later it comes. */
  datatype Event =
    | Ticked(later: nat, world: World)
    | Ended(later: nat, ok: bool, retryAfter: int, world: World)
    | Asked(later: nat, host: string, alloc: bool)
    | Retired

  /**
   Runs any sequence of events. Until it is asked to retire, the scheduler
   always has an order in flight or its timer set; the order slot holds at most
   one order; and every sweep it completed was a whole one.
   */
  method Run(d: Scheduler, start: int, events: seq<Event>)
    requires d.Valid() && d.Alive() && d.armed && d.runtime.clock == start
    modifies d, d.runtime, d.runtime.zone, d.runtime.fails
    ensures d.Valid() && d.Alive() && d.armed
    ensures !d.exiting ==> d.runtime.order.Some? || d.timer.Some?
    ensures forall i :: 0 <= i < |d.sweeps| ==> Distinct(d.sweeps[i]) && forall s :: s in d.sweeps[i] <==> IsLive(d.plan, s)
  {
    hide Driver.Runtime.Valid, Rest, All;
    var now := start;
    for i := 0 to |events|
      invariant d.Valid() && d.Alive() && d.armed && d.runtime.clock <= now
    {
      match events[i] {
        case Ticked(later, w) =>
          now := now + later;
          if d.timer.Some? {
            d.TimerFires(At(w, now));
          }
        case Ended(later, ok, retryAfter, w) =>
          now := now + later;
          if d.runtime.order.Some? {
            ghost var _ := d.Complete(ok, retryAfter, At(w, now));
          }
        case Asked(later, host, alloc) =>
          now := now + later;
          d.Ask(host, now, alloc);
        case Retired => d.Retire();
      }
    }
    forall i | 0 <= i < |d.sweeps| ensures Distinct(d.sweeps[i]) && forall s :: s in d.sweeps[i] <==> IsLive(d.plan, s) {
      d.SweepsWhole(i);
    }
  }

  function At(w: World, now: int): World { w.(runtime := w.runtime.(now := now)) }

  function Flatten(b: seq<seq<Hold>>): seq<Hold> {
    if b == [] then [] else b[0] + Flatten(b[1..])
  }

  /** The backoff entries the delay looks at are those of all CAs. */
  lemma {:induction false} FlattenHas(b: seq<seq<Hold>>, h: Hold)
    ensures h in Flatten(b) <==> exists c :: 0 <= c < |b| && h in b[c]
  {
    if b != [] {
      var rest := b[1..];
      FlattenHas(rest, h);
      if c :| 0 <= c < |rest| && h in rest[c] {
        assert h in b[c + 1];
      }
      if c :| 0 < c < |b| && h in b[c] {
        assert h in rest[c - 1];
      }
    }
  }
}
