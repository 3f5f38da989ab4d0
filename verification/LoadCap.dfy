/**
 The per-worker budget for certificate loads on the handshake path: a general
 pool, a reserve only previously denied names may draw on, and the fairness
 this buys a name over consecutive seconds.
 */
module LoadCap {
  import opened Bytes

  /** The counters of one second. */
  datatype Cap = Cap(second: int, spent: nat, spentRes: nat)

  function Reserve(limit: nat): (r: nat)
    ensures limit >= 2 ==> 1 <= r < limit
    ensures r <= limit
    ensures limit >= 4 ==> 4 * r <= limit < 4 * r + 4
  {
    if limit < 2 then 0 else if limit / 4 != 0 then limit / 4 else 1
  }

  function General(limit: nat): nat { limit - Reserve(limit) }

  /** The counters as they stand at `now`: a new second starts from nothing spent. */
  function At(cap: Cap, now: int): Cap {
    if cap.second != now then Cap(now, 0, 0) else cap
  }

  /** All or nothing: the counters after a request for `n` loads, and the answer. */
  function Admit(cap: Cap, now: int, limit: nat, n: nat, retry: bool): (Cap, bool) {
    if limit == 0 || n == 0 then (cap, true)
    else
      var c := At(cap, now);
      if n > General(limit) then
        if c.spent != 0 || c.spentRes != 0 then (c, false)
        else (Cap(now, General(limit), Reserve(limit)), true)
      else if c.spent + n <= General(limit) then (c.(spent := c.spent + n), true)
      else if retry && c.spentRes + n <= Reserve(limit) then (c.(spentRes := c.spentRes + n), true)
      else (c, false)
  }

  /** Counters a run of requests can reach. */
  predicate Within(cap: Cap, limit: nat) {
    cap.spent <= General(limit) && cap.spentRes <= Reserve(limit)
  }

  class Budget {
    var second: int
    var spent: nat
    var spentRes: nat

    function Value(): Cap
      reads this
    {
      Cap(second, spent, spentRes)
    }

    /** Ask for `n` loads at `now`; a retry may fall back on the reserve. */
    method AdmitRetryN(now: int, limit: nat, n: nat, retry: bool) returns (ok: bool)
      requires limit > 0 ==> Within(Value(), limit)
      modifies this
      ensures (Value(), ok) == Admit(old(Value()), now, limit, n, retry)
      ensures limit > 0 ==> Within(Value(), limit)
    {
      if limit == 0 || n == 0 {
        return true;
      }
      if second != now {
        second, spent, spentRes := now, 0, 0;
      }
      var reserve := Reserve(limit);
      var general := limit - reserve;
      if n > general {
        if spent != 0 || spentRes != 0 {
          return false;
        }
        spent, spentRes := general, reserve;
        return true;
      }
      if spent <= general - n {
        spent := spent + n;
        return true;
      }
      if !retry {
        return false;
      }
      var left := reserve - spentRes;
      if n > left {
        return false;
      }
      spentRes := spentRes + n;
      return true;
    }
  }

  // ------------------------------------------------- bounded work per second

  datatype Request = Request(n: nat, retry: bool)

  /** The units admitted to a list of requests within one second. */
  function Units(cap: Cap, now: int, limit: nat, rs: seq<Request>): nat
    decreases |rs|
  {
    if rs == [] then 0
    else
      var (c, ok) := Admit(cap, now, limit, rs[0].n, rs[0].retry);
      (if ok then rs[0].n else 0) + Units(c, now, limit, rs[1..])
  }

  /** Whatever is asked for, one second never admits more than the limit. */
  lemma {:induction false} UnitsBounded(cap: Cap, now: int, limit: nat, rs: seq<Request>)
    requires limit > 0 && Within(cap, limit)
    requires forall i :: 0 <= i < |rs| ==> rs[i].n <= limit
    ensures var c := At(cap, now); Units(cap, now, limit, rs) <= limit - c.spent - c.spentRes
    decreases |rs|
  {
    if rs != [] {
      var (c, _) := Admit(cap, now, limit, rs[0].n, rs[0].retry);
      UnitsBounded(c, now, limit, rs[1..]);
    }
  }

  /** A request at a time, and what becomes of a run of them in a fresh worker. */
  datatype Timed = Timed(at: int, n: nat, retry: bool)

  function CapAfter(limit: nat, qs: seq<Timed>): Cap {
    if qs == [] then Cap(0, 0, 0)
    else
      var q := qs[|qs| - 1];
      Admit(CapAfter(limit, qs[..|qs| - 1]), q.at, limit, q.n, q.retry).0
  }

  predicate Admitted(limit: nat, qs: seq<Timed>, i: nat)
    requires i < |qs|
  {
    Admit(CapAfter(limit, qs[..i]), qs[i].at, limit, qs[i].n, qs[i].retry).1
  }

  /** Something was admitted at `at` before request `i`. */
  ghost predicate BusyAt(limit: nat, qs: seq<Timed>, i: nat, at: int)
    requires i <= |qs|
  {
    exists j :: 0 <= j < i && qs[j].at == at && qs[j].n > 0 && Admitted(limit, qs, j)
  }

  /** Units are spent only on admitted requests of the counters' own second. */
  lemma {:induction false} SpentBusy(limit: nat, qs: seq<Timed>, i: nat)
    requires i <= |qs| && limit > 0
    ensures var c := CapAfter(limit, qs[..i]); c.spent + c.spentRes > 0 ==> BusyAt(limit, qs, i, c.second)
  {
    if i > 0 {
      SpentBusy(limit, qs, i - 1);
      assert qs[..i][..i - 1] == qs[..i - 1];
      var b, c := CapAfter(limit, qs[..i - 1]), CapAfter(limit, qs[..i]);
      if c.spent + c.spentRes > 0 {
        if c != At(b, qs[i - 1].at) && c != b {
          assert Admitted(limit, qs, i - 1);
        }
      }
    }
  }

  /**
   A request of any size is denied only in a second that admitted another one
   before: an idle worker admits whatever comes first, whatever came in other
   seconds and whichever way the clock moved.
   */
  lemma {:induction false} IdleAdmits(limit: nat, qs: seq<Timed>, i: nat)
    requires i < |qs| && !Admitted(limit, qs, i)
    ensures BusyAt(limit, qs, i, qs[i].at)
  {
    SpentBusy(limit, qs, i);
  }

  // ------------------------------------------------------- the serve cache

  /** What a cache entry remembers about refreshing: the second of the last refresh, and a pending denial. */
  datatype Entry = Entry(checked: int, deferred: bool)

  datatype World = World(cap: Cap, entries: map<string, Entry>)

  function Get(w: World, x: string): Entry {
    if x in w.entries then w.entries[x] else Entry(0, false)
  }

  /** One handshake for name `x`: refresh if the budget allows, else remember the denial. */
  function Attempt(w: World, now: int, limit: nat, n: nat, x: string): World {
    var e := Get(w, x);
    if now == e.checked then w.(entries := w.entries[x := e])
    else
      var (c, ok) := Admit(w.cap, now, limit, n, e.deferred);
      World(c, w.entries[x := if ok then Entry(now, false) else e.(deferred := true)])
  }

  class ServeCache {
    const budget: Budget
    var entries: map<string, Entry>
    const limit: nat
    const slots: nat

    ghost predicate Valid()
      reads this, budget
    {
      limit > 0 ==> Within(budget.Value(), limit)
    }

    function Value(): World
      reads this, budget
    {
      World(budget.Value(), entries)
    }

    constructor (limit: nat, slots: nat)
      ensures Valid() && fresh(budget) && Value() == World(Cap(0, 0, 0), map[])
      ensures this.limit == limit && this.slots == slots
    {
      var b := new Budget;
      b.second, b.spent, b.spentRes := 0, 0, 0;
      budget := b;
      entries := map[];
      this.limit, this.slots := limit, slots;
    }

    /** The cache part of the certificate callback; `refreshed` says that this handshake read the disk. */
    method Handshake(now: int, x: string) returns (refreshed: bool)
      requires Valid()
      modifies this`entries, budget
      ensures Valid() && Value() == Attempt(old(Value()), now, limit, slots, x)
      ensures refreshed <==> Get(old(Value()), x).checked != now && Get(Value(), x).checked == now
    {
      if x !in entries {
        entries := entries[x := Entry(0, false)];
      }
      var e := entries[x];
      refreshed := false;
      if now != e.checked {
        refreshed := budget.AdmitRetryN(now, limit, slots, e.deferred);
        entries := entries[x := if refreshed then Entry(now, false) else e.(deferred := true)];
      }
    }
  }

  // --------------------------------------------------------------- fairness

  /** A second in progress: the world, and how each name that attempted fared. */
  datatype Second = Second(world: World, gen: set<string>, res: set<string>, denied: set<string>)

  /** One attempt of a name that was not refreshed this second. */
  function Step(s: Second, now: int, limit: nat, n: nat, x: string): Second {
    var w := Attempt(s.world, now, limit, n, x);
    if w.entries[x].checked != now then s.(world := w, denied := s.denied + {x})
    else if w.cap.spentRes != At(s.world.cap, now).spentRes then s.(world := w, res := s.res + {x})
    else s.(world := w, gen := s.gen + {x})
  }

  function RunSecond(s: Second, now: int, limit: nat, n: nat, names: seq<string>): Second
    decreases |names|
  {
    if names == [] then s else RunSecond(Step(s, now, limit, n, names[0]), now, limit, n, names[1..])
  }

  /** The world after the attempts of a second, in order. */
  function After(w: World, now: int, limit: nat, n: nat, names: seq<string>): World
    decreases |names|
  {
    if names == [] then w else After(Attempt(w, now, limit, n, names[0]), now, limit, n, names[1..])
  }

  lemma {:induction false} RunIsAfter(s: Second, now: int, limit: nat, n: nat, names: seq<string>)
    ensures RunSecond(s, now, limit, n, names).world == After(s.world, now, limit, n, names)
    decreases |names|
  {
    if names != [] {
      RunIsAfter(Step(s, now, limit, n, names[0]), now, limit, n, names[1..]);
    }
  }

  predicate Distinct(names: seq<string>) {
    forall i, j :: 0 <= i < j < |names| ==> names[i] != names[j]
  }

  predicate Seen(s: Second, x: string) {
    x in s.gen || x in s.res || x in s.denied
  }

  /** The pools are charged once per admitted name. */
  ghost predicate Charged(s: Second, now: int, limit: nat, n: nat) {
    && s.world.cap.second <= now
    && At(s.world.cap, now) == Cap(now, n * |s.gen|, n * |s.res|)
    && Within(s.world.cap, limit)
  }

  /** Each name has one fate, its entry says which, and the reserve only serves names denied before. */
  ghost predicate Fates(s: Second, w0: World, now: int) {
    && s.gen !! s.res && s.gen !! s.denied && s.res !! s.denied
    && (forall x :: x in s.gen || x in s.res ==> Get(s.world, x) == Entry(now, false))
    && (forall x :: x in s.denied ==> Get(s.world, x) == Get(w0, x).(deferred := true))
    && (forall x :: !Seen(s, x) ==> Get(s.world, x) == Get(w0, x))
    && (forall x :: x in s.res ==> Get(w0, x).deferred)
  }

  /** A denial means that the general pool, and for a retry the reserve too, ran dry. */
  ghost predicate Dry(s: Second, w0: World, limit: nat, n: nat) {
    && (forall x :: x in s.denied ==> n * |s.gen| + n > General(limit))
    && (forall x :: x in s.denied && Get(w0, x).deferred ==> n * |s.res| + n > Reserve(limit))
  }

  ghost predicate Books(s: Second, w0: World, now: int, limit: nat, n: nat) {
    Charged(s, now, limit, n) && Fates(s, w0, now) && Dry(s, w0, limit, n)
  }

  /** The three ways an attempt can go. */
  lemma {:induction false} StepIs(s: Second, now: int, limit: nat, n: nat, x: string)
    requires Charged(s, now, limit, n) && 0 < n <= General(limit) && Get(s.world, x).checked != now
    ensures var e, g, r := Get(s.world, x), n * |s.gen|, n * |s.res|;
            var s' := Step(s, now, limit, n, x);
            if g + n <= General(limit) then
              s' == s.(world := World(Cap(now, g + n, r), s.world.entries[x := Entry(now, false)]), gen := s.gen + {x})
            else if e.deferred && r + n <= Reserve(limit) then
              s' == s.(world := World(Cap(now, g, r + n), s.world.entries[x := Entry(now, false)]), res := s.res + {x})
            else
              s' == s.(world := World(Cap(now, g, r), s.world.entries[x := e.(deferred := true)]), denied := s.denied + {x})
  {
  }

  lemma {:induction false} StepCharged(s: Second, now: int, limit: nat, n: nat, x: string)
    requires Charged(s, now, limit, n) && 0 < n <= General(limit) && Get(s.world, x).checked != now
    requires !Seen(s, x)
    ensures Charged(Step(s, now, limit, n, x), now, limit, n)
  {
    StepIs(s, now, limit, n, x);
    hide Step, Get, General, Reserve;
    assert |s.gen + {x}| == |s.gen| + 1 && |s.res + {x}| == |s.res| + 1;
    NextMultiple(n, |s.gen|);
    NextMultiple(n, |s.res|);
  }

  /** A first fate for `x` this second, recorded in its entry. */
  lemma {:induction false} NewFate(s: Second, s': Second, w0: World, now: int, x: string, e: Entry)
    requires Fates(s, w0, now) && !Seen(s, x)
    requires s'.world.entries == s.world.entries[x := e]
    requires || (e == Entry(now, false) && s'.gen == s.gen + {x} && s'.res == s.res && s'.denied == s.denied)
             || (e == Entry(now, false) && s'.gen == s.gen && s'.res == s.res + {x} && s'.denied == s.denied
                 && Get(w0, x).deferred)
             || (e == Get(w0, x).(deferred := true) && s'.gen == s.gen && s'.res == s.res && s'.denied == s.denied + {x})
    ensures Fates(s', w0, now)
    ensures forall y :: Seen(s', y) <==> y == x || Seen(s, y)
  {
    assert Get(s'.world, x) == e;
    assert forall y :: y != x ==> Get(s'.world, y) == Get(s.world, y);
    hide Get;
  }

  lemma {:induction false} StepFates(s: Second, w0: World, now: int, limit: nat, n: nat, x: string)
    requires Books(s, w0, now, limit, n) && 0 < n <= General(limit)
    requires Get(w0, x).checked != now && !Seen(s, x)
    ensures Fates(Step(s, now, limit, n, x), w0, now)
    ensures forall y :: Seen(Step(s, now, limit, n, x), y) <==> y == x || Seen(s, y)
  {
    assert Get(s.world, x) == Get(w0, x);
    StepIs(s, now, limit, n, x);
    hide Step, Charged, Dry, General, Reserve, Fates, Get, Seen;
    var s' := Step(s, now, limit, n, x);
    NewFate(s, s', w0, now, x, s'.world.entries[x]);
  }

  lemma {:induction false} StepDry(s: Second, w0: World, now: int, limit: nat, n: nat, x: string)
    requires Books(s, w0, now, limit, n) && 0 < n <= General(limit)
    requires Get(w0, x).checked != now && !Seen(s, x)
    ensures Dry(Step(s, now, limit, n, x), w0, limit, n)
  {
    StepIs(s, now, limit, n, x);
    assert Get(s.world, x) == Get(w0, x);
    hide Step, Charged, Fates, General, Reserve, Get, Dry, Seen;
    var s' := Step(s, now, limit, n, x);
    if n * |s.gen| + n <= General(limit) {
      DryGeneral(s, s', w0, limit, n);
    } else if Get(w0, x).deferred && n * |s.res| + n <= Reserve(limit) {
      DryReserve(s, s', w0, limit, n, x);
    } else {
      DryDenied(s, s', w0, limit, n, x);
    }
  }

  /** While the general pool has room nobody was denied. */
  lemma {:induction false} DryGeneral(s: Second, s': Second, w0: World, limit: nat, n: nat)
    requires Dry(s, w0, limit, n) && n * |s.gen| + n <= General(limit) && s'.denied == s.denied
    ensures Dry(s', w0, limit, n)
  {
    hide General, Reserve, Get;
    assert s.denied == {};
  }

  /** While the reserve has room no retry was denied. */
  lemma {:induction false} DryReserve(s: Second, s': Second, w0: World, limit: nat, n: nat, x: string)
    requires Dry(s, w0, limit, n) && n * |s.res| + n <= Reserve(limit) && !(n * |s.gen| + n <= General(limit))
    requires s'.gen == s.gen && s'.denied == s.denied && s'.res == s.res + {x}
    ensures Dry(s', w0, limit, n)
  {
    hide General, Reserve, Get;
    assert forall y :: y in s.denied ==> !Get(w0, y).deferred;
  }

  /** A denial found the pools it may draw on dry. */
  lemma {:induction false} DryDenied(s: Second, s': Second, w0: World, limit: nat, n: nat, x: string)
    requires Dry(s, w0, limit, n) && !(n * |s.gen| + n <= General(limit))
    requires !(Get(w0, x).deferred && n * |s.res| + n <= Reserve(limit))
    requires s'.gen == s.gen && s'.res == s.res && s'.denied == s.denied + {x}
    ensures Dry(s', w0, limit, n)
  {
    hide General, Reserve, Get;
  }

  /** Names not yet seen this second, and not refreshed in it. */
  ghost predicate Waiting(s: Second, w0: World, now: int, names: seq<string>) {
    forall i :: 0 <= i < |names| ==> Get(w0, names[i]).checked != now && !Seen(s, names[i])
  }

  lemma {:induction false} RunBooks(s: Second, w0: World, now: int, limit: nat, n: nat, names: seq<string>)
    requires Books(s, w0, now, limit, n) && 0 < n <= General(limit)
    requires Distinct(names) && Waiting(s, w0, now, names)
    ensures Books(RunSecond(s, now, limit, n, names), w0, now, limit, n)
    ensures forall y :: Seen(RunSecond(s, now, limit, n, names), y) <==> y in names || Seen(s, y)
    decreases |names|
  {
    if names != [] {
      var x, rest := names[0], names[1..];
      assert Get(w0, x).checked != now && !Seen(s, x);
      assert Get(s.world, x) == Get(w0, x);
      StepCharged(s, now, limit, n, x);
      StepFates(s, w0, now, limit, n, x);
      StepDry(s, w0, now, limit, n, x);
      hide Step, Charged, Fates, Dry, General, Get, Seen;
      var s1 := Step(s, now, limit, n, x);
      assert Distinct(rest);
      forall i | 0 <= i < |rest| ensures Get(w0, rest[i]).checked != now && !Seen(s1, rest[i]) {
        assert rest[i] == names[i + 1] && names[0] != names[i + 1];
      }
      RunBooks(s1, w0, now, limit, n, rest);
      assert names == [x] + rest;
    }
  }

  /** A worker at the start of second `now`: nothing is charged or checked in it yet. */
  ghost predicate Early(w: World, now: int, limit: nat) {
    now > 0 && w.cap.second < now && Within(w.cap, limit) && forall x :: Get(w, x).checked < now
  }

  function Started(w: World): Second { Second(w, {}, {}, {}) }

  /** A whole second: its books balance, every name listed has its fate, and the next second starts clean. */
  lemma {:induction false} WholeSecond(w: World, now: int, limit: nat, n: nat, names: seq<string>, next: int)
    requires Early(w, now, limit) && 0 < n <= General(limit) && Distinct(names) && now < next
    ensures var s := RunSecond(Started(w), now, limit, n, names);
            && Books(s, w, now, limit, n)
            && s.world == After(w, now, limit, n, names)
            && (forall y :: Seen(s, y) <==> y in names)
            && Early(s.world, next, limit)
  {
    var s0 := Started(w);
    assert Books(s0, w, now, limit, n);
    assert forall y :: !Seen(s0, y);
    RunBooks(s0, w, now, limit, n, names);
    RunIsAfter(s0, now, limit, n, names);
    hide RunSecond, Get, Dry;
  }

  lemma {:induction false} KeysAfter(w: World, now: int, limit: nat, n: nat, names: seq<string>)
    ensures forall x :: x in names || x in w.entries ==> x in After(w, now, limit, n, names).entries
    decreases |names|
  {
    if names != [] {
      var x := names[0];
      var w1 := Attempt(w, now, limit, n, x);
      assert x in w1.entries && forall y :: y in w.entries ==> y in w1.entries;
      KeysAfter(w1, now, limit, n, names[1..]);
      assert names == [x] + names[1..];
    }
  }

  /** How many requests of `n` units a pool covers. */
  function Slots(pool: nat, n: nat): nat
    requires n > 0
  {
    pool / n
  }

  /** One more request of `n` fits a pool exactly while fewer than `pool / n` were admitted. */
  lemma {:induction false} PoolHas(n: nat, k: nat, pool: nat)
    requires n > 0
    ensures n * k + n <= pool <==> k < Slots(pool, n)
  {
    Quotient(n, k, pool / n, pool % n);
  }

  lemma {:induction false} Quotient(n: nat, k: nat, q: nat, rest: nat)
    requires rest < n
    ensures n * k + n <= n * q + rest <==> k < q
  {
    if k < q {
      Distribute(n, k + 1, q - k - 1);
      Distribute(n, k, 1);
    } else {
      Distribute(n, q, k - q);
    }
  }

  lemma {:induction false} Distribute(n: nat, a: nat, d: nat)
    ensures n * (a + d) == n * a + n * d >= n * a
  {
  }

  /** Three seconds with attempts, in order; `v` is one of the names. */
  datatype Trial = Trial(start: World, t1: int, t2: int, t3: int,
                         a1: seq<string>, a2: seq<string>, a3: seq<string>, v: string)

  function World1(t: Trial, limit: nat, n: nat): World { After(t.start, t.t1, limit, n, t.a1) }
  function World2(t: Trial, limit: nat, n: nat): World { After(World1(t, limit, n), t.t2, limit, n, t.a2) }
  function World3(t: Trial, limit: nat, n: nat): World { After(World2(t, limit, n), t.t3, limit, n, t.a3) }

  /** Each name attempts at most once a second, `v` in every one, and the cache ends with at most `m` entries. */
  ghost predicate Honest(t: Trial, limit: nat, n: nat, m: nat) {
    && Early(t.start, t.t1, limit) && t.t1 < t.t2 < t.t3
    && Distinct(t.a1) && Distinct(t.a2) && Distinct(t.a3)
    && t.v in t.a1 && t.v in t.a2 && t.v in t.a3
    && |World3(t, limit, n).entries.Keys| <= m
  }

  predicate Served(t: Trial, limit: nat, n: nat) {
    || Get(World1(t, limit, n), t.v).checked == t.t1
    || Get(World2(t, limit, n), t.v).checked == t.t2
    || Get(World3(t, limit, n), t.v).checked == t.t3
  }

  /** With at most floor(G/n) + 2 floor(R/n) entries, the third attempt at the latest reads the disk. */
  lemma {:induction false} ThirdAttempt(t: Trial, limit: nat, n: nat)
    requires 0 < n <= General(limit)
    requires Honest(t, limit, n, Slots(General(limit), n) + 2 * (Slots(Reserve(limit), n)))
    ensures Served(t, limit, n)
  {
    var w1, w2, w3 := World1(t, limit, n), World2(t, limit, n), World3(t, limit, n);
    WholeSecond(t.start, t.t1, limit, n, t.a1, t.t2);
    WholeSecond(w1, t.t2, limit, n, t.a2, t.t3);
    WholeSecond(w2, t.t3, limit, n, t.a3, t.t3 + 1);
    if !Served(t, limit, n) {
      var s1 := RunSecond(Started(t.start), t.t1, limit, n, t.a1);
      var s2 := RunSecond(Started(w1), t.t2, limit, n, t.a2);
      var s3 := RunSecond(Started(w2), t.t3, limit, n, t.a3);
      DeniedAll(t, limit, n, s1, s2, s3);
      var N := w3.entries.Keys;
      KeysAfter(w1, t.t2, limit, n, t.a2);
      KeysAfter(w2, t.t3, limit, n, t.a3);
      hide Books, Served, Honest, Early, After, RunSecond;
      FitsIn(s2.gen, s2.res, s3.res, t.v, N);
      assert false;
    }
  }

  /** A name denied in all three seconds: the pools it found dry were drained by that many different names. */
  lemma {:induction false} DeniedAll(t: Trial, limit: nat, n: nat, s1: Second, s2: Second, s3: Second)
    requires 0 < n <= General(limit) && t.v in t.a1 && t.v in t.a2 && t.v in t.a3 && !Served(t, limit, n)
    requires Books(s1, t.start, t.t1, limit, n) && s1.world == World1(t, limit, n) && Seen(s1, t.v)
    requires Books(s2, s1.world, t.t2, limit, n) && s2.world == World2(t, limit, n) && Seen(s2, t.v)
    requires Books(s3, s2.world, t.t3, limit, n) && s3.world == World3(t, limit, n) && Seen(s3, t.v)
    ensures |s2.gen| >= Slots(General(limit), n) && |s2.res| >= Slots(Reserve(limit), n) && |s3.res| >= Slots(Reserve(limit), n)
    ensures s2.gen !! s2.res && s2.gen !! s3.res && s2.res !! s3.res
    ensures t.v !in s2.gen && t.v !in s2.res && t.v !in s3.res
  {
    hide World1, World2, World3, Get, Charged, General, Reserve;
    assert t.v in s1.denied && t.v in s2.denied && t.v in s3.denied;
    PoolHas(n, |s2.gen|, General(limit));
    PoolHas(n, |s2.res|, Reserve(limit));
    PoolHas(n, |s3.res|, Reserve(limit));
    forall x | x in s3.res ensures x !in s2.gen && x !in s2.res {
      assert Get(s2.world, x).deferred;
    }
  }

  lemma {:induction false} FitsIn(a: set<string>, b: set<string>, c: set<string>, v: string, all: set<string>)
    requires a !! b && a !! c && b !! c && v !in a && v !in b && v !in c && v in all
    requires (forall x :: x in a || x in b || x in c ==> x in all)
    ensures |a| + |b| + |c| + 1 <= |all|
  {
    var u := a + b + c + {v};
    assert u <= all && |u| == |a| + |b| + |c| + 1;
    var rest := all - u;
    assert all == u + rest && |all| == |u| + |rest|;
  }

  // -------------------------------------------------------------- exactness

  /** Which names are owed a retry, by position, as the second of a standing queue begins. */
  predicate Owed(phase: nat, g: nat, r: nat, j: nat) {
    if phase == 0 then false
    else if phase == 1 then j >= g
    else if phase == 2 then j >= g + r
    else g <= j < g + r || j >= g + 2 * r
  }

  /** Which positions the reserve serves: two groups of `r` names take turns. */
  predicate Lucky(phase: nat, g: nat, r: nat, j: nat) {
    (phase == 2 && g + r <= j < g + 2 * r) || ((phase == 1 || phase == 3) && g <= j < g + r)
  }

  function Next(phase: nat): nat { if phase == 0 then 1 else if phase == 2 then 3 else 2 }

  /** How many of the first `i` positions the reserve has served. */
  function LuckyBelow(phase: nat, g: nat, r: nat, i: nat): (k: nat)
    ensures k <= r
  {
    var from := if phase == 2 then g + r else g;
    if phase == 0 || i <= from then 0 else if i - from <= r then i - from else r
  }

  ghost predicate Queue(w: World, now: int, g: nat, r: nat, phase: nat, names: seq<string>, from: nat) {
    forall j :: from <= j < |names| ==> Get(w, names[j]).checked < now && Get(w, names[j]).deferred == Owed(phase, g, r, j)
  }

  ghost predicate Gone(w: World, now: int, g: nat, r: nat, phase: nat, names: seq<string>, upto: nat, last: int) {
    forall j :: 0 <= j < upto && j < |names| ==>
      Get(w, names[j]).checked <= now
      && Get(w, names[j]).deferred == Owed(Next(phase), g, r, j)
      && (j >= g + 2 * r ==> Get(w, names[j]).checked == last)
  }

  /** One attempt of a standing queue. */
  lemma {:induction false} QueueStep(w: World, now: int, limit: nat, n: nat, g: nat, r: nat, phase: nat, names: seq<string>, i: nat)
    requires 0 < n <= General(limit) && g == Slots(General(limit), n) && r == Slots(Reserve(limit), n)
    requires i < |names| && phase <= 3
    requires At(w.cap, now) == Cap(now, n * Min(i, g), n * LuckyBelow(phase, g, r, i))
    requires Get(w, names[i]).checked < now && Get(w, names[i]).deferred == Owed(phase, g, r, i)
    ensures var w' := Attempt(w, now, limit, n, names[i]);
            var e := Get(w, names[i]);
            && w'.cap == Cap(now, n * Min(i + 1, g), n * LuckyBelow(phase, g, r, i + 1))
            && w'.entries == w.entries[names[i] := if i < g || Lucky(phase, g, r, i) then Entry(now, false)
                                                   else e.(deferred := true)]
  {
    var k, m := LuckyBelow(phase, g, r, i), Min(i, g);
    AttemptIs(w, now, limit, n, names[i], n * m, n * k);
    Position(phase, g, r, i);
    PoolHas(n, m, General(limit));
    PoolHas(n, k, Reserve(limit));
    hide General, Reserve, Attempt, LuckyBelow, Lucky, Owed, Get, At, Slots;
    NextMultiple(n, m);
    NextMultiple(n, k);
  }

  lemma {:induction false} NextMultiple(n: nat, k: nat)
    ensures n * (k + 1) == n * k + n
  {
  }

  /** What an attempt does, from what the pools have been charged. */
  lemma {:induction false} AttemptIs(w: World, now: int, limit: nat, n: nat, x: string, spent: nat, res: nat)
    requires 0 < n <= General(limit) && At(w.cap, now) == Cap(now, spent, res) && Get(w, x).checked != now
    ensures Attempt(w, now, limit, n, x) ==
            if spent + n <= General(limit) then World(Cap(now, spent + n, res), w.entries[x := Entry(now, false)])
            else if Get(w, x).deferred && res + n <= Reserve(limit)
            then World(Cap(now, spent, res + n), w.entries[x := Entry(now, false)])
            else World(Cap(now, spent, res), w.entries[x := Get(w, x).(deferred := true)])
  {
  }

  lemma {:induction false} Position(phase: nat, g: nat, r: nat, i: nat)
    requires phase <= 3
    ensures var k := LuckyBelow(phase, g, r, i);
            LuckyBelow(phase, g, r, i + 1) == if Lucky(phase, g, r, i) then k + 1 else k
    ensures Lucky(phase, g, r, i) ==> i >= g && Owed(phase, g, r, i) && LuckyBelow(phase, g, r, i) < r
    ensures i >= g && !Lucky(phase, g, r, i) && Owed(phase, g, r, i) ==> LuckyBelow(phase, g, r, i) == r
  {
  }

  function Min(a: nat, b: nat): nat { if a < b then a else b }

  /** Serving or denying position `i` moves it from the queue as it stood to the queue of the next second. */
  lemma {:induction false} Turn(w: World, w': World, now: int, g: nat, r: nat, phase: nat, names: seq<string>, i: nat, last: int)
    requires i < |names| && phase <= 3 && Distinct(names)
    requires Queue(w, now, g, r, phase, names, i) && Gone(w, now, g, r, phase, names, i, last)
    requires forall j :: i <= j < |names| && g + 2 * r <= j ==> Get(w, names[j]).checked == last
    requires w'.entries == w.entries[names[i] := if i < g || Lucky(phase, g, r, i) then Entry(now, false)
                                                 else Get(w, names[i]).(deferred := true)]
    ensures Queue(w', now, g, r, phase, names, i + 1) && Gone(w', now, g, r, phase, names, i + 1, last)
    ensures forall j :: i < j < |names| && g + 2 * r <= j ==> Get(w', names[j]).checked == last
  {
    assert forall j :: 0 <= j < |names| && j != i ==> Get(w', names[j]) == Get(w, names[j]);
    var e := Get(w', names[i]);
    assert e.checked <= now && e.deferred == Owed(Next(phase), g, r, i) && (i >= g + 2 * r ==> e.checked == last);
    hide Get, Owed, Lucky;
  }

  /** One second of a standing queue of at least g + 2r names. */
  lemma {:induction false} QueueSecond(w: World, now: int, limit: nat, n: nat, g: nat, r: nat, phase: nat, names: seq<string>, last: int)
    requires 0 < n <= General(limit) && g == Slots(General(limit), n) && r == Slots(Reserve(limit), n)
    requires phase <= 3 && Distinct(names) && w.cap.second < now && last < now
    requires Queue(w, now, g, r, phase, names, 0)
    requires forall j :: g + 2 * r <= j < |names| ==> Get(w, names[j]).checked == last
    ensures var w' := After(w, now, limit, n, names);
            (names != [] ==> w'.cap.second == now) && Gone(w', now, g, r, phase, names, |names|, last)
  {
    hide General, Reserve, Slots, Owed, Lucky, Next, Attempt, Get, Distinct;
    assert n * 0 == 0;
    var v, i := w, 0;
    assert names[0..] == names;
    while i < |names|
      invariant 0 <= i <= |names|
      invariant After(v, now, limit, n, names[i..]) == After(w, now, limit, n, names)
      invariant At(v.cap, now) == Cap(now, n * Min(i, g), n * LuckyBelow(phase, g, r, i))
      invariant i > 0 ==> v.cap.second == now
      invariant Queue(v, now, g, r, phase, names, i) && Gone(v, now, g, r, phase, names, i, last)
      invariant forall j :: i <= j < |names| && g + 2 * r <= j ==> Get(v, names[j]).checked == last
    {
      QueueStep(v, now, limit, n, g, r, phase, names, i);
      var v' := Attempt(v, now, limit, n, names[i]);
      Turn(v, v', now, g, r, phase, names, i, last);
      hide Queue, Gone, LuckyBelow, Min;
      assert names[i..] != [] && names[i..][0] == names[i] && names[i..][1..] == names[i + 1..];
      v, i := v', i + 1;
    }
  }

  /** A standing queue: every second the same names, in the same order. */
  function Seconds(w: World, now: int, k: nat, limit: nat, n: nat, names: seq<string>): World
    decreases k
  {
    if k == 0 then w else Seconds(After(w, now, limit, n, names), now + 1, k - 1, limit, n, names)
  }

  function Idle(): World { World(Cap(0, 0, 0), map[]) }

  /** In a standing queue of more than g + 2r names, the last one is never refreshed. */
  lemma {:induction false} Starvation(limit: nat, n: nat, names: seq<string>, k: nat)
    requires 0 < n <= General(limit) && Distinct(names)
    requires |names| > Slots(General(limit), n) + 2 * Slots(Reserve(limit), n)
    ensures Get(Seconds(Idle(), 1, k, limit, n, names), names[|names| - 1]).checked == 0
  {
    Starving(Idle(), 1, k, limit, n, Slots(General(limit), n), Slots(Reserve(limit), n), 0, names);
  }

  /** What one second leaves is the standing queue of the next. */
  lemma {:induction false} NextQueue(w: World, now: int, g: nat, r: nat, phase: nat, names: seq<string>, last: int)
    requires Gone(w, now, g, r, phase, names, |names|, last)
    ensures Queue(w, now + 1, g, r, Next(phase), names, 0)
    ensures forall j :: g + 2 * r <= j < |names| ==> Get(w, names[j]).checked == last
  {
    hide Owed, Get;
  }

  lemma {:induction false} NoSeconds(w: World, now: int, limit: nat, n: nat, names: seq<string>)
    ensures Seconds(w, now, 0, limit, n, names) == w
  {
  }

  lemma {:induction false} NextSecond(w: World, now: int, k: nat, limit: nat, n: nat, names: seq<string>)
    requires k > 0
    ensures Seconds(w, now, k, limit, n, names) == Seconds(After(w, now, limit, n, names), now + 1, k - 1, limit, n, names)
  {
  }

  lemma {:induction false} Starving(w: World, now: int, k: nat, limit: nat, n: nat, g: nat, r: nat, phase: nat, names: seq<string>)
    requires 0 < n <= General(limit) && g == Slots(General(limit), n) && r == Slots(Reserve(limit), n)
    requires phase <= 3 && Distinct(names) && |names| > g + 2 * r && w.cap.second < now && 0 < now
    requires Queue(w, now, g, r, phase, names, 0)
    requires forall j :: g + 2 * r <= j < |names| ==> Get(w, names[j]).checked == 0
    ensures Get(Seconds(w, now, k, limit, n, names), names[|names| - 1]).checked == 0
    decreases k
  {
    hide After, Owed, Distinct, General, Reserve, Slots, Get, Gone, Queue, Seconds, LuckyBelow, Lucky;
    if k == 0 {
      NoSeconds(w, now, limit, n, names);
    } else {
      QueueSecond(w, now, limit, n, g, r, phase, names, 0);
      NextQueue(After(w, now, limit, n, names), now, g, r, phase, names, 0);
      NextSecond(w, now, k, limit, n, names);
      Starving(After(w, now, limit, n, names), now + 1, k - 1, limit, n, g, r, Next(phase), names);
    }
  }

  /** The guarantee for a cache of at most `m` entries. */
  ghost predicate Fair(limit: nat, n: nat, m: nat) {
    forall t: Trial :: Honest(t, limit, n, m) ==> Served(t, limit, n)
  }

  /** Strings of 0, 1, ..., k - 1 letters. */
  function Names(k: nat): (names: seq<string>)
    ensures |names| == k
  {
    seq(k, i requires 0 <= i => seq(i, _ => 'a'))
  }

  lemma {:induction false} KeysOnly(w: World, now: int, limit: nat, n: nat, names: seq<string>)
    ensures forall x :: x in After(w, now, limit, n, names).entries ==> x in names || x in w.entries
    decreases |names|
  {
    if names != [] {
      KeysOnly(Attempt(w, now, limit, n, names[0]), now, limit, n, names[1..]);
    }
  }

  lemma {:induction false} FewElements(all: set<string>, names: seq<string>)
    requires forall x :: x in all ==> x in names
    ensures |all| <= |names|
    decreases |names|
  {
    if names == [] {
      assert all == {};
    } else {
      var rest := all - {names[0]};
      assert names == [names[0]] + names[1..];
      FewElements(rest, names[1..]);
      assert all <= rest + {names[0]};
      assert |rest + {names[0]}| <= |rest| + 1;
      SubsetSize(all, rest + {names[0]});
    }
  }

  lemma {:induction false} NamesDistinct(k: nat)
    ensures Distinct(Names(k))
  {
    var names := Names(k);
    forall i, j | 0 <= i < j < k ensures names[i] != names[j] {
      assert |names[i]| == i && |names[j]| == j;
    }
  }

  /** Three seconds of a standing queue of `m` names, seen from the last. */
  lemma {:induction false} QueueIsTrial(limit: nat, n: nat, m: nat)
    requires 0 < n <= General(limit) && m > Slots(General(limit), n) + 2 * Slots(Reserve(limit), n)
    ensures !Fair(limit, n, m)
  {
    hide World1, World2, World3, Distinct, Served, Names, General, Reserve, Slots;
    var names := Names(m);
    NamesDistinct(m);
    var t := Trial(Idle(), 1, 2, 3, names, names, names, names[m - 1]);
    QueueUnserved(t, limit, n, names);
    QueueKeys(t, limit, n, names);
    assert Honest(t, limit, n, m);
  }

  lemma {:induction false} QueueUnserved(t: Trial, limit: nat, n: nat, names: seq<string>)
    requires 0 < n <= General(limit) && |names| > Slots(General(limit), n) + 2 * Slots(Reserve(limit), n)
    requires Distinct(names) && t == Trial(Idle(), 1, 2, 3, names, names, names, names[|names| - 1])
    ensures !Served(t, limit, n)
  {
    assert World1(t, limit, n) == Seconds(Idle(), 1, 1, limit, n, names);
    assert World2(t, limit, n) == Seconds(Idle(), 1, 2, limit, n, names);
    assert World3(t, limit, n) == Seconds(Idle(), 1, 3, limit, n, names);
    Starvation(limit, n, names, 1);
    Starvation(limit, n, names, 2);
    Starvation(limit, n, names, 3);
  }

  lemma {:induction false} QueueKeys(t: Trial, limit: nat, n: nat, names: seq<string>)
    requires t.start == Idle() && t.a1 == t.a2 == t.a3 == names
    ensures |World3(t, limit, n).entries.Keys| <= |names|
  {
    KeysOnly(Idle(), t.t1, limit, n, names);
    KeysOnly(World1(t, limit, n), t.t2, limit, n, names);
    KeysOnly(World2(t, limit, n), t.t3, limit, n, names);
    FewElements(World3(t, limit, n).entries.Keys, names);
  }

  /** A name is served by its third attempt in every run exactly when the cache has at most g + 2r entries. */
  lemma {:induction false} FairExactly(limit: nat, n: nat, m: nat)
    requires 0 < n <= General(limit)
    ensures Fair(limit, n, m) <==> m <= Slots(General(limit), n) + 2 * Slots(Reserve(limit), n)
  {
    if m <= Slots(General(limit), n) + 2 * Slots(Reserve(limit), n) {
      forall t: Trial | Honest(t, limit, n, m) ensures Served(t, limit, n) {
        ThirdAttempt(t, limit, n);
      }
    } else {
      QueueIsTrial(limit, n, m);
    }
  }

  /** The documented threshold, fewer than (G + 2R) / n names, is too generous when n does not divide the pools. */
  lemma {:induction false} DocumentedThresholdFails()
    ensures 2 * 2 < General(4) + 2 * Reserve(4) && !Fair(4, 2, 2)
  {
    FairExactly(4, 2, 2);
  }

  /** When n divides both pools the documented threshold is safe, with one name to spare. */
  lemma {:induction false} DocumentedThreshold(limit: nat, n: nat, m: nat)
    requires 0 < n <= General(limit) && General(limit) % n == 0 && Reserve(limit) % n == 0
    requires m * n < General(limit) + 2 * Reserve(limit)
    ensures Fair(limit, n, m)
  {
    var g, r := Slots(General(limit), n), Slots(Reserve(limit), n);
    assert General(limit) == n * g && Reserve(limit) == n * r;
    if m > g + 2 * r {
      Distribute(n, g + 2 * r, m - g - 2 * r);
      assert false;
    }
    FairExactly(limit, n, m);
  }

  /** One second in which `d` attempts twice: denied, then at once served from the reserve ahead of `v`. */
  lemma {:induction false} TwiceInOneSecond(w: World, now: int)
    requires w.cap.second < now && Get(w, "a").checked < now && Get(w, "d").checked < now && Get(w, "v").checked < now
    requires !Get(w, "d").deferred
    ensures var w' := After(w, now, 2, 1, ["a", "d", "d", "v"]);
            && w'.cap.second == now && !Get(w', "d").deferred && Get(w', "v").checked == Get(w, "v").checked
            && Get(w', "a").checked == now && Get(w', "d").checked == now
  {
    var w1 := Attempt(w, now, 2, 1, "a");
    var w2 := Attempt(w1, now, 2, 1, "d");
    var w3 := Attempt(w2, now, 2, 1, "d");
    var w4 := Attempt(w3, now, 2, 1, "v");
    assert w1.cap == Cap(now, 1, 0);
    assert w2.cap == Cap(now, 1, 0) && Get(w2, "d").deferred;
    assert w3.cap == Cap(now, 1, 1) && !Get(w3, "d").deferred;
    hide Attempt;
    assert After(w3, now, 2, 1, ["v"]) == After(w4, now, 2, 1, []);
    assert After(w2, now, 2, 1, ["d", "v"]) == After(w3, now, 2, 1, ["v"]);
    assert After(w1, now, 2, 1, ["d", "d", "v"]) == After(w2, now, 2, 1, ["d", "v"]);
    assert After(w, now, 2, 1, ["a", "d", "d", "v"]) == After(w1, now, 2, 1, ["d", "d", "v"]);
  }

  /** "At most once per second" is needed: three names fit g + 2r, and still `v` is never refreshed. */
  lemma {:induction false} TwicePerSecondStarves(w: World, now: int, k: nat)
    requires w.cap.second < now && Get(w, "a").checked < now && Get(w, "d").checked < now && Get(w, "v").checked < now
    requires !Get(w, "d").deferred
    ensures Get(Seconds(w, now, k, 2, 1, ["a", "d", "d", "v"]), "v").checked == Get(w, "v").checked
    decreases k
  {
    if k > 0 {
      TwiceInOneSecond(w, now);
      hide After, Get;
      TwicePerSecondStarves(After(w, now, 2, 1, ["a", "d", "d", "v"]), now + 1, k - 1);
    }
  }
}
