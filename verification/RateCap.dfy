/**
 Sliding-window rate caps: a ring of timestamps that stands for an unbounded
 log, the hold it computes, and the bound the launch gate enforces although
 orders are only counted later.
 */
module RateCap {

  const ORDER_MAX: nat := 300
  const ORDER_WINDOW: nat := 10800

  // -------------------------------------------------------------------- logs

  /** A slot holds a timestamp inside the window that ends at `now`; 0 is an empty slot. */
  predicate InWindow(t: int, now: int, window: nat) { t != 0 && t > now - window }

  function CountIn(log: seq<int>, now: int, window: nat): (c: nat)
    ensures c <= |log|
  {
    if log == [] then 0 else (if InWindow(log[0], now, window) then 1 else 0) + CountIn(log[1..], now, window)
  }

  /** Time never runs backwards and is never zero. */
  predicate Ordered(log: seq<int>) {
    (forall i :: 0 <= i < |log| ==> log[i] > 0) && forall i, j :: 0 <= i <= j < |log| ==> log[i] <= log[j]
  }

  lemma {:induction false} CountJoin(a: seq<int>, b: seq<int>, now: int, window: nat)
    ensures CountIn(a + b, now, window) == CountIn(a, now, window) + CountIn(b, now, window)
  {
    if a == [] {
      assert a + b == b;
    } else {
      assert (a + b)[0] == a[0] && (a + b)[1..] == a[1..] + b;
      CountJoin(a[1..], b, now, window);
    }
  }

  lemma {:induction false} CountNone(a: seq<int>, now: int, window: nat)
    requires forall i :: 0 <= i < |a| ==> !InWindow(a[i], now, window)
    ensures CountIn(a, now, window) == 0
  {
    if a != [] {
      CountNone(a[1..], now, window);
    }
  }

  lemma {:induction false} CountAll(a: seq<int>, now: int, window: nat)
    requires forall i :: 0 <= i < |a| ==> InWindow(a[i], now, window)
    ensures CountIn(a, now, window) == |a|
  {
    if a != [] {
      CountAll(a[1..], now, window);
    }
  }

  /** A window that ends later holds no more of what is already logged. */
  lemma {:induction false} CountShrinks(a: seq<int>, now: int, later: int, window: nat)
    requires now <= later
    ensures CountIn(a, later, window) <= CountIn(a, now, window)
  {
    if a != [] {
      CountShrinks(a[1..], now, later, window);
    }
  }

  // -------------------------------------------------------------------- rings

  function Zeros(n: nat): (z: seq<int>)
    ensures |z| == n && forall i :: 0 <= i < n ==> z[i] == 0
  {
    seq(n, _ => 0)
  }

  /** The last `n` entries of a log, empty slots in front of a short one. */
  function Last(log: seq<int>, n: nat): (r: seq<int>)
    ensures |r| == n
  {
    var p := Zeros(n) + log;
    p[|p| - n..]
  }

  /** Where the next timestamp goes. */
  function Head(m: nat, n: nat): (h: nat)
    requires n > 0
    ensures h < n
  {
    if m == 0 || Head(m - 1, n) + 1 == n then 0 else Head(m - 1, n) + 1
  }

  /** How a ring of `n` slots holds them: the newest up to the head, the oldest behind it. */
  function Wrapped(log: seq<int>, n: nat): (r: seq<int>)
    requires n > 0
    ensures |r| == n
  {
    Rotated(Last(log, n), Head(|log|, n))
  }

  function Rotated(l: seq<int>, h: nat): (r: seq<int>)
    requires h <= |l|
    ensures |r| == |l|
  {
    l[|l| - h..] + l[..|l| - h]
  }

  lemma {:induction false} LastPush(log: seq<int>, n: nat, t: int)
    requires n > 0
    ensures Last(log + [t], n) == Last(log, n)[1..] + [t]
  {
    var p := Zeros(n) + log;
    assert Zeros(n) + (log + [t]) == p + [t];
  }

  /** Writing the new timestamp at the head is the only change. */
  lemma {:induction false} WrapPush(log: seq<int>, n: nat, t: int)
    requires n > 0
    ensures Wrapped(log + [t], n) == Wrapped(log, n)[Head(|log|, n) := t]
  {
    LastPush(log, n, t);
    RotatePush(Last(log, n), Head(|log|, n), t);
    assert |log + [t]| == |log| + 1;
  }

  lemma {:induction false} RotatePush(l: seq<int>, h: nat, t: int)
    requires h < |l|
    ensures Rotated(l[1..] + [t], if h + 1 == |l| then 0 else h + 1) == Rotated(l, h)[h := t]
  {
    var n, l', h' := |l|, l[1..] + [t], if h + 1 == |l| then 0 else h + 1;
    forall i | 0 <= i < n ensures Rotated(l', h')[i] == Rotated(l, h)[h := t][i] {
      if i < h {
        assert Rotated(l, h)[i] == l[n - h + i];
      } else if i > h {
        assert Rotated(l, h)[i] == l[i - h];
      }
    }
  }

  lemma {:induction false} NextHead(h: nat, n: nat)
    requires h < n
    ensures (h + 1) % n == if h + 1 == n then 0 else h + 1
  {
  }

  class Ring {
    const ring: array<int>
    var head: nat
    ghost var log: seq<int>

    ghost predicate Valid()
      reads this, ring
    {
      ring.Length > 0 && head == Head(|log|, ring.Length) && ring[..] == Wrapped(log, ring.Length)
    }

    constructor (n: nat)
      requires n > 0
      ensures Valid() && log == [] && ring.Length == n && fresh(ring)
    {
      ring := new int[n](_ => 0);
      head, log := 0, [];
      new;
      assert ring[..] == Zeros(n);
      assert Zeros(n) + [] == Zeros(n);
    }

    /** How many slots lie in the window. */
    method WindowCount(now: int, window: nat) returns (c: nat)
      requires Valid()
      ensures c == CountIn(Last(log, ring.Length), now, window)
    {
      c := 0;
      var i := 0;
      while i < ring.Length
        invariant 0 <= i <= ring.Length && c == CountIn(ring[..i], now, window)
      {
        assert ring[..i + 1] == ring[..i] + [ring[i]];
        CountJoin(ring[..i], [ring[i]], now, window);
        if ring[i] != 0 && ring[i] > now - window {
          c := c + 1;
        }
        i := i + 1;
      }
      assert ring[..i] == ring[..];
      WrapCounts(log, ring.Length, now, window);
    }

    /** The oldest timestamp in the window, or 0. */
    method WindowOldest(now: int, window: nat) returns (oldest: int)
      requires Valid() && Ordered(log)
      ensures oldest == 0 <==> CountIn(Last(log, ring.Length), now, window) == 0
      ensures oldest != 0 ==> oldest in Last(log, ring.Length) && InWindow(oldest, now, window)
                              && forall t :: t in Last(log, ring.Length) && InWindow(t, now, window) ==> oldest <= t
    {
      hide Wrapped, Last, Ordered;
      oldest := 0;
      var i := 0;
      ghost var at := 0;
      while i < ring.Length
        invariant 0 <= i <= ring.Length
        invariant oldest == 0 <==> forall k :: 0 <= k < i ==> !InWindow(ring[k], now, window)
        invariant oldest != 0 ==> InWindow(oldest, now, window) && at < i && ring[at] == oldest
        invariant oldest != 0 ==> forall k :: 0 <= k < i && InWindow(ring[k], now, window) ==> oldest <= ring[k]
      {
        if ring[i] != 0 && ring[i] > now - window {
          if oldest == 0 || ring[i] < oldest {
            oldest, at := ring[i], i;
          }
        }
        i := i + 1;
      }
      WrapElements(log, ring.Length);
      if oldest == 0 {
        CountNone(ring[..], now, window);
      } else {
        assert ring[..][at] == oldest;
        CountSome(ring[..], now, window, oldest);
      }
      WrapCounts(log, ring.Length, now, window);
    }

    /** Overwrites the oldest slot. */
    method Push(now: int)
      requires Valid()
      modifies this`head, this`log, ring
      ensures Valid() && log == old(log) + [now]
    {
      ghost var n := ring.Length;
      WrapPush(log, n, now);
      NextHead(head, n);
      hide Wrapped;
      ring[head] := now;
      head := (head + 1) % ring.Length;
      log := log + [now];
    }
  }

  lemma {:induction false} WrapCounts(log: seq<int>, n: nat, now: int, window: nat)
    requires n > 0
    ensures CountIn(Wrapped(log, n), now, window) == CountIn(Last(log, n), now, window)
  {
    var l, h := Last(log, n), Head(|log|, n);
    CountJoin(l[n - h..], l[..n - h], now, window);
    CountJoin(l[..n - h], l[n - h..], now, window);
    assert l == l[..n - h] + l[n - h..];
  }

  lemma {:induction false} WrapElements(log: seq<int>, n: nat)
    requires n > 0
    ensures forall t :: t in Wrapped(log, n) <==> t in Last(log, n)
    ensures forall t :: t in Last(log, n) && t != 0 ==> t in log
  {
    var l, h := Last(log, n), Head(|log|, n);
    assert l == l[..n - h] + l[n - h..];
    var p := Zeros(n) + log;
    forall t | t in l && t != 0 ensures t in log {
      assert t in p;
    }
  }

  lemma {:induction false} CountSome(a: seq<int>, now: int, window: nat, t: int)
    requires t in a && InWindow(t, now, window)
    ensures CountIn(a, now, window) > 0
  {
    if a[0] != t {
      CountSome(a[1..], now, window, t);
    }
  }

  // ------------------------------------------------- the ring against the log

  /** In an ordered log what is in the window is a suffix. */
  lemma {:induction false} WindowSuffix(log: seq<int>, now: int, window: nat)
    requires Ordered(log)
    ensures var c := CountIn(log, now, window);
            (forall i :: 0 <= i < |log| - c ==> !InWindow(log[i], now, window))
            && (forall i :: |log| - c <= i < |log| ==> InWindow(log[i], now, window))
  {
    if log != [] {
      var rest := log[1..];
      assert forall i :: 0 <= i < |rest| ==> rest[i] == log[i + 1];
      WindowSuffix(rest, now, window);
      var c := CountIn(rest, now, window);
      if InWindow(log[0], now, window) {
        assert forall i :: 0 <= i < |rest| ==> rest[i] >= log[0];
        CountAll(rest, now, window);
      }
      forall i | 0 <= i < |log| - CountIn(log, now, window) ensures !InWindow(log[i], now, window) {
        assert i > 0 ==> log[i] == rest[i - 1];
      }
      forall i | |log| - CountIn(log, now, window) <= i < |log| ensures InWindow(log[i], now, window) {
        assert i > 0 ==> log[i] == rest[i - 1];
      }
    }
  }

  function Min(a: nat, b: nat): nat { if a < b then a else b }

  /** The ring counts what an unbounded log would, up to its own size: its cap test is the log's. */
  lemma {:induction false} RingCounts(log: seq<int>, n: nat, now: int, window: nat)
    requires Ordered(log)
    ensures CountIn(Last(log, n), now, window) == Min(n, CountIn(log, now, window))
  {
    var p, c := Zeros(n) + log, CountIn(log, now, window);
    WindowSuffix(log, now, window);
    CountJoin(Zeros(n), log, now, window);
    CountNone(Zeros(n), now, window);
    var head, tail := p[..|p| - n], p[|p| - n..];
    assert p == head + tail;
    CountJoin(head, tail, now, window);
    assert forall i :: n <= i < |p| ==> p[i] == log[i - n];
    if c <= n {
      forall i | 0 <= i < |head| ensures !InWindow(head[i], now, window) {
        assert head[i] == p[i];
      }
      CountNone(head, now, window);
    } else {
      forall i | 0 <= i < |tail| ensures InWindow(tail[i], now, window) {
        assert tail[i] == p[|p| - n + i] == log[|log| - n + i];
      }
      CountAll(tail, now, window);
    }
  }

  predicate AtCap(log: seq<int>, n: nat, now: int, window: nat) {
    CountIn(log, now, window) >= n
  }

  /** At the cap, the oldest timestamp of the ring decides when it opens: at `oldest + window`, not before. */
  lemma {:induction false} CapOpens(log: seq<int>, n: nat, now: int, window: nat, oldest: int, later: int)
    requires Ordered(log) && n > 0 && AtCap(log, n, now, window) && now <= later
    requires oldest in Last(log, n) && InWindow(oldest, now, window)
    requires forall t :: t in Last(log, n) && InWindow(t, now, window) ==> oldest <= t
    ensures AtCap(log, n, later, window) <==> later < oldest + window
    ensures now < oldest + window
  {
    WindowSuffix(log, now, window);
    WindowSuffix(log, later, window);
    var p, k := Zeros(n) + log, |log| - n;
    assert Last(log, n)[0] == p[|p| - n] == log[k];
    assert log[k] in Last(log, n);
    var i :| 0 <= i < n && Last(log, n)[i] == oldest;
    assert oldest == p[|p| - n + i] == log[k + i];
    assert oldest == log[k];
  }

  /** The hold is never early, and one second later than it needs to be. */
  lemma {:induction false} HoldIsSafe(log: seq<int>, n: nat, now: int, window: nat, oldest: int)
    requires Ordered(log) && n > 0 && AtCap(log, n, now, window)
    requires oldest in Last(log, n) && InWindow(oldest, now, window)
    requires forall t :: t in Last(log, n) && InWindow(t, now, window) ==> oldest <= t
    ensures var hold := oldest + window + 1;
            && hold > now + 1
            && !AtCap(log, n, hold, window) && !AtCap(log, n, hold - 1, window)
            && (forall t :: now <= t < hold - 1 ==> AtCap(log, n, t, window))
  {
    CapOpens(log, n, now, window, oldest, now);
    CapOpens(log, n, now, window, oldest, oldest + window);
    CapOpens(log, n, now, window, oldest, oldest + window + 1);
    forall t | now <= t < oldest + window ensures AtCap(log, n, t, window) {
      CapOpens(log, n, now, window, oldest, t);
    }
  }

  // ------------------------------------------------------------ launch and count

  /** What one driver process does about runtime orders: launches behind the gate, counts at newOrder, ends. */
  datatype Event = Launch(now: int) | Count(now: int) | End(now: int)

  /** `counted` is whether the order in flight has been counted. */
  datatype Driver = Driver(log: seq<int>, inFlight: bool, counted: bool, clock: int)

  predicate Step(d: Driver, e: Event, d': Driver) {
    && d.clock <= e.now && d'.clock == e.now
    && match e
       case Launch(now) =>
         // one order at a time, and never at the cap
         !d.inFlight && !AtCap(d.log, ORDER_MAX, now, ORDER_WINDOW) && d' == d.(inFlight := true, counted := false, clock := now)
       case Count(now) =>
         d.inFlight && !d.counted && d' == d.(log := d.log + [now], counted := true, clock := now)
       case End(now) => d.inFlight && d' == d.(inFlight := false, clock := now)
  }

  predicate Run(ds: seq<Driver>, es: seq<Event>) {
    && |ds| == |es| + 1 && ds[0].log == [] && !ds[0].inFlight && ds[0].clock > 0
    && forall i :: 0 <= i < |es| ==> Step(ds[i], es[i], ds[i + 1])
  }

  /** Every entry when it was logged was at most the 300th of its window; an order not yet counted leaves room. */
  ghost predicate Inv(d: Driver) {
    && d.clock > 0 && Ordered(d.log) && (forall i :: 0 <= i < |d.log| ==> d.log[i] <= d.clock)
    && (forall k :: 0 <= k < |d.log| ==> CountIn(d.log[..k + 1], d.log[k], ORDER_WINDOW) <= ORDER_MAX)
    && (d.inFlight && !d.counted ==> CountIn(d.log, d.clock, ORDER_WINDOW) < ORDER_MAX)
  }

  lemma {:induction false} StepInv(d: Driver, e: Event, d': Driver)
    requires Inv(d) && Step(d, e, d')
    ensures Inv(d')
  {
    CountShrinks(d.log, d.clock, e.now, ORDER_WINDOW);
    if e.Count? {
      CountJoin(d.log, [e.now], e.now, ORDER_WINDOW);
      assert d'.log[..|d'.log|] == d'.log;
      forall k | 0 <= k < |d'.log| ensures CountIn(d'.log[..k + 1], d'.log[k], ORDER_WINDOW) <= ORDER_MAX {
        if k < |d.log| {
          assert d'.log[..k + 1] == d.log[..k + 1];
        }
      }
    }
  }

  /** Time alone breaks nothing. */
  lemma {:induction false} LaterInv(d: Driver, now: int)
    requires Inv(d) && d.clock <= now
    ensures Inv(d.(clock := now))
  {
    CountShrinks(d.log, d.clock, now, ORDER_WINDOW);
  }

  /** What the invariant says about any three hours. */
  lemma {:induction false} InvBounds(d: Driver, from: int)
    requires Inv(d)
    ensures InThreeHours(d.log, from) <= ORDER_MAX
  {
    BetweenIn(d.log, from, from + ORDER_WINDOW);
  }

  lemma {:induction false} RunInv(ds: seq<Driver>, es: seq<Event>, i: nat)
    requires Run(ds, es) && i <= |es|
    ensures Inv(ds[i])
  {
    if i > 0 {
      RunInv(ds, es, i - 1);
      StepInv(ds[i - 1], es[i - 1], ds[i]);
    }
  }

  /** How many entries of a log lie in the half-open interval from `from`, exclusive, to `to`. */
  function Between(log: seq<int>, from: int, to: int): nat {
    if log == [] then 0 else (if from < log[|log| - 1] <= to then 1 else 0) + Between(log[..|log| - 1], from, to)
  }

  /** The entries of the three hours after `from`. */
  function InThreeHours(log: seq<int>, from: int): nat { Between(log, from, from + ORDER_WINDOW) }

  lemma {:induction false} BetweenIn(log: seq<int>, from: int, to: int)
    requires Ordered(log) && from <= to
    ensures Between(log, from, to) == 0
            || exists k :: 0 <= k < |log| && log[k] <= to
                           && Between(log, from, to) <= CountIn(log[..k + 1], log[k], to - from)
  {
    if log != [] {
      var last, rest := log[|log| - 1], log[..|log| - 1];
      if last > to || last <= from {
        BetweenIn(rest, from, to);
        if Between(rest, from, to) != 0 {
          var k :| 0 <= k < |rest| && rest[k] <= to && Between(rest, from, to) <= CountIn(rest[..k + 1], rest[k], to - from);
          assert log[..k + 1] == rest[..k + 1] && log[k] == rest[k];
        }
      } else {
        BetweenCounts(log, from, to, last);
        assert log[..|log|] == log;
      }
    }
  }

  lemma {:induction false} BetweenCounts(log: seq<int>, from: int, to: int, now: int)
    requires Ordered(log) && from <= to && now <= to
    ensures Between(log, from, to) <= CountIn(log, now, to - from)
  {
    if log != [] {
      var last, rest := log[|log| - 1], log[..|log| - 1];
      assert log == rest + [last];
      CountJoin(rest, [last], now, to - from);
      BetweenCounts(rest, from, to, now);
    }
  }

  /** In every run, no three hours see more than 300 counted orders, although the gate is tested before the count. */
  lemma {:induction false} ThreeHours(ds: seq<Driver>, es: seq<Event>, i: nat, from: int)
    requires Run(ds, es) && i <= |es|
    ensures InThreeHours(ds[i].log, from) <= ORDER_MAX
  {
    RunInv(ds, es, i);
    InvBounds(ds[i], from);
  }

  // --------------------------------------------------------- failures per host

  const FAIL_MAX: nat := 5
  const FAIL_WINDOW: nat := 3600
  const FAIL_HOSTS: nat := 64
  const HOST_SIZE: nat := 256

  /** One host's failures; the empty host marks a free slot. The log stands for the entry's ring. */
  datatype Entry = Entry(host: string, log: seq<int>)

  function Failures(e: Entry, now: int): nat { CountIn(Last(e.log, FAIL_MAX), now, FAIL_WINDOW) }

  /** The oldest timestamp in the window, or 0. */
  function OldestIn(a: seq<int>, now: int, window: nat): int {
    if a == [] then 0
    else
      var o := OldestIn(a[1..], now, window);
      if InWindow(a[0], now, window) && (o == 0 || a[0] < o) then a[0] else o
  }

  lemma {:induction false} OldestInWindow(a: seq<int>, now: int, window: nat)
    ensures var o := OldestIn(a, now, window);
            && (o == 0 || (o in a && InWindow(o, now, window)))
            && (o == 0 <==> CountIn(a, now, window) == 0)
            && forall t :: t in a && InWindow(t, now, window) ==> o <= t
  {
    if a != [] {
      OldestInWindow(a[1..], now, window);
      forall t | t in a[1..] && InWindow(t, now, window) ensures CountIn(a[1..], now, window) > 0 {
        CountSome(a[1..], now, window, t);
      }
      assert a == [a[0]] + a[1..];
    }
  }

  class FailTable {
    var entries: seq<Entry>

    ghost predicate Valid()
      reads this
    {
      TableOk(entries)
    }

    constructor ()
      ensures Valid() && (forall h :: LogOf(entries, h) == []) && forall now :: NoLaterThan(entries, now)
    {
      entries := seq(FAIL_HOSTS, _ => Entry("", []));
      new;
      NoLog(entries);
    }

    method Find(host: string) returns (i: nat)
      requires Valid()
      ensures i <= |entries| == FAIL_HOSTS
      ensures i == if host == "" || |host| >= HOST_SIZE then FAIL_HOSTS else Place(entries, host)
    {
      i := FAIL_HOSTS;
      if host == "" || |host| >= HOST_SIZE {
        return;
      }
      i := 0;
      PlaceFrom(entries, host);
      while i < FAIL_HOSTS
        invariant 0 <= i <= FAIL_HOSTS && forall k :: 0 <= k < i ==> entries[k].host != host
      {
        if entries[i].host == host {
          break;
        }
        i := i + 1;
      }
      PlaceIs(entries, host, i);
    }

    /** An unknown host is never at its cap. */
    method FailAtCap(host: string, now: int) returns (full: bool)
      requires Valid() && host != "" && |host| < HOST_SIZE
      ensures full <==> AtCap(LogOf(entries, host), FAIL_MAX, now, FAIL_WINDOW)
    {
      var i := Find(host);
      if i == FAIL_HOSTS {
        return false;
      }
      RingCounts(entries[i].log, FAIL_MAX, now, FAIL_WINDOW);
      return Failures(entries[i], now) >= FAIL_MAX;
    }

    /** The oldest counted failure of a host, or 0. */
    method FailOldest(host: string, now: int) returns (oldest: int)
      requires Valid()
      ensures oldest != 0 ==> InWindow(oldest, now, FAIL_WINDOW) && oldest in Last(LogOf(entries, host), FAIL_MAX)
      ensures oldest != 0 ==> forall t :: t in Last(LogOf(entries, host), FAIL_MAX) && InWindow(t, now, FAIL_WINDOW) ==> oldest <= t
      ensures oldest == 0 && host != "" && |host| < HOST_SIZE ==> CountIn(Last(LogOf(entries, host), FAIL_MAX), now, FAIL_WINDOW) == 0
    {
      hide Last, CountIn, OldestIn;
      var i := Find(host);
      if i == FAIL_HOSTS {
        NoneLogged(FAIL_MAX, now, FAIL_WINDOW);
        return 0;
      }
      OldestInWindow(Last(entries[i].log, FAIL_MAX), now, FAIL_WINDOW);
      oldest := OldestIn(Last(entries[i].log, FAIL_MAX), now, FAIL_WINDOW);
    }

    /**
     Records one failure. A slot that still holds failures inside the window is
     never taken over; when all are such slots of other hosts, nothing is recorded.
     */
    method Record(host: string, now: int)
      requires Valid() && host != "" && |host| < HOST_SIZE && now > 0
      requires NoLaterThan(entries, now)
      modifies this
      ensures Valid() && NoLaterThan(entries, now)
      ensures Noted(old(entries), entries, host, now)
    {
      hide TableOk, Noted, NoLaterThan, Failures;
      var e := Find(host);
      if e == FAIL_HOSTS {
        var slot := FindSlot(now);
        TakeSlot(entries, slot, host, now);
        if slot == FAIL_HOSTS {
          return;
        }
        entries := entries[slot := Entry(host, [now])];
      } else {
        GrowSlot(entries, host, now);
        entries := entries[e := Entry(host, entries[e].log + [now])];
      }
    }

    /** A free slot, else one whose failures have all aged out, else none. */
    method FindSlot(now: int) returns (slot: nat)
      requires Valid()
      ensures slot <= FAIL_HOSTS
      ensures slot < FAIL_HOSTS ==> entries[slot].host == "" || Failures(entries[slot], now) == 0
      ensures slot == FAIL_HOSTS ==> forall i :: 0 <= i < FAIL_HOSTS ==> entries[i].host != "" && Failures(entries[i], now) > 0
    {
      slot := FAIL_HOSTS;
      var i := 0;
      while i < FAIL_HOSTS
        invariant 0 <= i <= FAIL_HOSTS && slot <= FAIL_HOSTS
        invariant slot < FAIL_HOSTS ==> Failures(entries[slot], now) == 0
        invariant slot == FAIL_HOSTS ==> forall k :: 0 <= k < i ==> entries[k].host != "" && Failures(entries[k], now) > 0
      {
        if entries[i].host == "" {
          slot := i;
          break;
        }
        if slot == FAIL_HOSTS && Failures(entries[i], now) == 0 {
          slot := i;
        }
        i := i + 1;
      }
    }
  }

  lemma {:induction false} NoneLogged(n: nat, now: int, window: nat)
    ensures CountIn(Last([], n), now, window) == 0
  {
    assert Zeros(n) + [] == Zeros(n);
    CountNone(Zeros(n), now, window);
  }

  /** The first slot of a host, or the number of slots. */
  function Place(entries: seq<Entry>, host: string): (i: nat)
    ensures i <= |entries| && (i < |entries| ==> entries[i].host == host)
  {
    if entries == [] || entries[0].host == host then 0 else 1 + Place(entries[1..], host)
  }

  function LogOf(entries: seq<Entry>, host: string): seq<int> {
    var i := Place(entries, host);
    if i < |entries| then entries[i].log else []
  }

  lemma {:induction false} PlaceFrom(entries: seq<Entry>, host: string)
    ensures forall i :: 0 <= i < Place(entries, host) ==> entries[i].host != host
    decreases |entries|
  {
    if entries != [] && entries[0].host != host {
      PlaceFrom(entries[1..], host);
      assert forall i :: 1 <= i < |entries| ==> entries[i] == entries[1..][i - 1];
    }
  }

  lemma {:induction false} PlaceIs(entries: seq<Entry>, host: string, i: nat)
    requires i <= |entries| && (forall k :: 0 <= k < i ==> entries[k].host != host)
    requires i < |entries| ==> entries[i].host == host
    ensures Place(entries, host) == i
  {
    PlaceFrom(entries, host);
  }

  lemma {:induction false} NoLog(entries: seq<Entry>)
    requires forall i :: 0 <= i < |entries| ==> entries[i].log == []
    ensures forall h :: LogOf(entries, h) == []
  {
  }

  /** The clock has not run backwards since the last failure. */
  ghost predicate NoLaterThan(entries: seq<Entry>, now: int) {
    forall i :: 0 <= i < |entries| && entries[i].log != [] ==> entries[i].log[|entries[i].log| - 1] <= now
  }

  ghost predicate OneSlotEach(entries: seq<Entry>) {
    forall i, j :: 0 <= i < j < |entries| && entries[i].host != "" ==> entries[i].host != entries[j].host
  }

  /** Giving a slot to a host that has it, or has none, touches the log of that host and of the slot's former owner. */
  lemma {:induction false} Replaced(entries: seq<Entry>, slot: nat, e: Entry)
    requires OneSlotEach(entries) && slot < |entries| && e.host != ""
    requires entries[slot].host == e.host || forall i :: 0 <= i < |entries| ==> entries[i].host != e.host
    ensures OneSlotEach(entries[slot := e])
    ensures LogOf(entries[slot := e], e.host) == e.log
    ensures entries[slot].host == e.host ==> LogOf(entries, e.host) == entries[slot].log
    ensures entries[slot].host != e.host ==> LogOf(entries, e.host) == []
    ensures forall h :: h != "" && h != e.host && h != entries[slot].host ==> LogOf(entries[slot := e], h) == LogOf(entries, h)
    ensures entries[slot].host != "" ==> LogOf(entries, entries[slot].host) == entries[slot].log
  {
    var now := entries[slot := e];
    PlaceIs(now, e.host, slot);
    if entries[slot].host != "" {
      PlaceIs(entries, entries[slot].host, slot);
    }
    if entries[slot].host != e.host {
      PlaceIs(entries, e.host, |entries|);
    }
    forall h | h != "" && h != e.host && h != entries[slot].host ensures LogOf(now, h) == LogOf(entries, h) {
      PlaceFrom(entries, h);
      var k := Place(entries, h);
      PlaceIs(now, h, k);
    }
  }

  ghost predicate TableOk(entries: seq<Entry>) {
    |entries| == FAIL_HOSTS && OneSlotEach(entries) && forall i :: 0 <= i < FAIL_HOSTS ==> Ordered(entries[i].log)
  }

  /**
   A failure of `host` was noted, or no slot could be had for it; and only a
   host without failures in the window may have lost its slot.
   */
  ghost predicate Noted(before: seq<Entry>, after: seq<Entry>, host: string, now: int) {
    && (LogOf(after, host) == LogOf(before, host) + [now] || (after == before && AllBusy(before, host, now)))
    && forall h :: h != "" && h != host && LogOf(after, h) != LogOf(before, h) ==> CountIn(LogOf(before, h), now, FAIL_WINDOW) == 0
  }

  /** Every slot holds failures inside the window, of other hosts. */
  ghost predicate AllBusy(entries: seq<Entry>, host: string, now: int) {
    forall i :: 0 <= i < |entries| ==> entries[i].host != host && entries[i].host != "" && Failures(entries[i], now) > 0
  }

  lemma {:induction false} TakeSlot(entries: seq<Entry>, slot: nat, host: string, now: int)
    requires TableOk(entries) && NoLaterThan(entries, now) && host != "" && now > 0 && slot <= FAIL_HOSTS
    requires Place(entries, host) == FAIL_HOSTS
    requires slot < FAIL_HOSTS ==> entries[slot].host == "" || Failures(entries[slot], now) == 0
    requires slot == FAIL_HOSTS ==> forall i :: 0 <= i < FAIL_HOSTS ==> entries[i].host != "" && Failures(entries[i], now) > 0
    ensures slot == FAIL_HOSTS ==> Noted(entries, entries, host, now)
    ensures slot < FAIL_HOSTS ==>
              var after := entries[slot := Entry(host, [now])];
              TableOk(after) && NoLaterThan(after, now) && Noted(entries, after, host, now)
  {
    hide Last, CountIn, OneSlotEach, Place, AtCap;
    PlaceFrom(entries, host);
    if slot < FAIL_HOSTS {
      RingCounts(entries[slot].log, FAIL_MAX, now, FAIL_WINDOW);
      Replaced(entries, slot, Entry(host, [now]));
      hide LogOf, Failures, InWindow;
    }
  }

  lemma {:induction false} GrowSlot(entries: seq<Entry>, host: string, now: int)
    requires TableOk(entries) && NoLaterThan(entries, now) && host != "" && now > 0 && Place(entries, host) < FAIL_HOSTS
    ensures var e := Place(entries, host);
            var after := entries[e := Entry(host, entries[e].log + [now])];
            TableOk(after) && NoLaterThan(after, now) && Noted(entries, after, host, now)
  {
    hide Last, CountIn, OneSlotEach;
    var e := Place(entries, host);
    Replaced(entries, e, Entry(host, entries[e].log + [now]));
    hide LogOf, Place;
  }

  // ------------------------------------------------- runs of recorded failures

  datatype Failure = Failure(host: string, at: int)

  /** Failures of usable hosts, none before `now` and in the order of time. */
  predicate Chronological(fs: seq<Failure>, now: int) {
    && (forall i :: 0 <= i < |fs| ==> fs[i].host != "" && |fs[i].host| < HOST_SIZE && fs[i].at >= now)
    && forall i, j :: 0 <= i <= j < |fs| ==> fs[i].at <= fs[j].at
  }

  /** The tables `ts` come about by recording `fs` one after the other. */
  ghost predicate Recorded(ts: seq<seq<Entry>>, fs: seq<Failure>) {
    && |ts| == |fs| + 1 && TableOk(ts[0])
    && forall i :: 0 <= i < |fs| ==> NotedNext(ts[i], fs[i], ts[i + 1])
  }

  ghost predicate NotedNext(before: seq<Entry>, f: Failure, after: seq<Entry>) {
    TableOk(after) && Noted(before, after, f.host, f.at)
  }

  /** When `host` failed. */
  function TimesOf(fs: seq<Failure>, host: string): seq<int> {
    if fs == [] then []
    else
      var f, rest := fs[|fs| - 1], fs[..|fs| - 1];
      TimesOf(rest, host) + if f.host == host then [f.at] else []
  }

  /** One recording no later than `until` keeps the log of a host that still is at its cap at `until`. */
  lemma {:induction false} NotedKeeps(before: seq<Entry>, after: seq<Entry>, f: Failure, host: string, until: int)
    requires TableOk(before) && host != "" && Noted(before, after, f.host, f.at) && f.at <= until
    requires AtCap(LogOf(before, host), FAIL_MAX, until, FAIL_WINDOW)
    ensures LogOf(after, host) == LogOf(before, host) + if f.host == host then [f.at] else []
    ensures AtCap(LogOf(after, host), FAIL_MAX, until, FAIL_WINDOW)
  {
    hide Failures;
    CountShrinks(LogOf(before, host), f.at, until, FAIL_WINDOW);
    if f.host == host {
      CountJoin(LogOf(before, host), [f.at], until, FAIL_WINDOW);
    }
  }

  /**
   Once at its cap, a host stays there until its oldest counted failure ages
   out: whoever else fails up to then and however often, the host keeps its
   slot, and its log is what it was with its own further failures appended.
   */
  lemma {:induction false} StaysCapped(ts: seq<seq<Entry>>, fs: seq<Failure>, host: string, now: int, oldest: int,
                                       i: nat, until: int)
    requires Recorded(ts, fs) && host != "" && i <= |fs|
    requires var log := LogOf(ts[0], host);
             && Ordered(log) && AtCap(log, FAIL_MAX, now, FAIL_WINDOW)
             && oldest in Last(log, FAIL_MAX) && InWindow(oldest, now, FAIL_WINDOW)
             && forall t :: t in Last(log, FAIL_MAX) && InWindow(t, now, FAIL_WINDOW) ==> oldest <= t
    requires now <= until < oldest + FAIL_WINDOW && forall k :: 0 <= k < i ==> fs[k].at <= until
    ensures LogOf(ts[i], host) == LogOf(ts[0], host) + TimesOf(fs[..i], host)
    ensures AtCap(LogOf(ts[i], host), FAIL_MAX, until, FAIL_WINDOW)
  {
    hide LogOf, AtCap, Last, Ordered, Noted, TableOk, InWindow;
    if i == 0 {
      CapOpens(LogOf(ts[0], host), FAIL_MAX, now, FAIL_WINDOW, oldest, until);
    } else {
      StaysCapped(ts, fs, host, now, oldest, i - 1, until);
      assert fs[..i][..i - 1] == fs[..i - 1];
      NotedKeeps(ts[i - 1], ts[i], fs[i - 1], host, until);
    }
  }

  lemma {:induction false} StillNoLater(entries: seq<Entry>, now: int, later: int)
    requires NoLaterThan(entries, now) && now <= later
    ensures NoLaterThan(entries, later)
  {
  }

  lemma {:induction false} RecordedMore(ts: seq<seq<Entry>>, fs: seq<Failure>, t: seq<Entry>, f: Failure)
    requires Recorded(ts, fs) && TableOk(t) && Noted(ts[|ts| - 1], t, f.host, f.at)
    ensures Recorded(ts + [t], fs + [f])
  {
    hide TableOk, Noted;
  }

  /** Any failures, recorded in turn. */
  method RecordAll(table: FailTable, fs: seq<Failure>, ghost now: int) returns (ghost ts: seq<seq<Entry>>)
    requires table.Valid() && now > 0 && NoLaterThan(table.entries, now) && Chronological(fs, now)
    modifies table
    ensures table.Valid() && Recorded(ts, fs) && ts[0] == old(table.entries) && ts[|fs|] == table.entries
  {
    hide TableOk, Noted, NoLaterThan;
    ts := [table.entries];
    ghost var clock := now;
    for i := 0 to |fs|
      invariant table.Valid() && Recorded(ts, fs[..i]) && ts[0] == old(table.entries) && ts[i] == table.entries
      invariant now <= clock && (i < |fs| ==> clock <= fs[i].at) && NoLaterThan(table.entries, clock)
    {
      StillNoLater(table.entries, clock, fs[i].at);
      table.Record(fs[i].host, fs[i].at);
      RecordedMore(ts, fs[..i], table.entries, fs[i]);
      assert fs[..i] + [fs[i]] == fs[..i + 1];
      ts, clock := ts + [table.entries], fs[i].at;
    }
    assert fs[..|fs|] == fs;
  }
}
