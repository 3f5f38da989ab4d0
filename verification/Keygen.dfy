/**
 RSA key generation off the event loop: one process-lifetime slot, a posted
 task that cannot be withdrawn, and orders that can be freed at any moment.
 */
module Keygen {
  import opened Bytes

  /** What posting to nginx's pool can come to: queued, refused untouched, or marked active without ever being queued. */
  datatype Posting = Queued | Refused | Stuck

  datatype Answer = Again | Ok | Error

  /** The static slot; keys and orders are named by number. */
  datatype Slot = Slot(order: Option<nat>, rsa: nat, key: Option<nat>, failed: bool, busy: bool)

  /** The task object of the slot: whether nginx considers it active. */
  datatype Task = Task(active: bool)

  /** Luck: what the environment decides during one call. */
  datatype Luck = Luck(pool: bool, memory: bool, posting: Posting, generates: bool, csr: bool)

  /** Where a key is: held by the live order, parked in the slot, or freed. */
  function Places(k: nat, orderKey: Option<nat>, slotKey: Option<nat>, freed: seq<nat>): nat {
    (if orderKey == Some(k) then 1 else 0) + (if slotKey == Some(k) then 1 else 0) + Times(k, freed)
  }

  function Times(k: nat, l: seq<nat>): nat {
    if l == [] then 0 else (if l[|l| - 1] == k then 1 else 0) + Times(k, l[..|l| - 1])
  }

  /** Each of the first `n` keys is in exactly one place, once. */
  ghost predicate AllOnce(n: nat, orderKey: Option<nat>, slotKey: Option<nat>, freed: seq<nat>) {
    forall k: nat :: Places(k, orderKey, slotKey, freed) == if k < n then 1 else 0
  }

  lemma {:induction false} TimesPush(k: nat, l: seq<nat>, x: nat)
    ensures Times(k, l + [x]) == Times(k, l) + if k == x then 1 else 0
  {
    assert (l + [x])[..|l|] == l;
  }

  /** A key moves from its holder, order or slot, to the freed ones. */
  lemma {:induction false} Released(n: nat, orderKey: Option<nat>, slotKey: Option<nat>, freed: seq<nat>)
    requires AllOnce(n, orderKey, slotKey, freed)
    ensures orderKey.Some? ==> AllOnce(n, None, slotKey, freed + [orderKey.value])
    ensures slotKey.Some? ==> AllOnce(n, orderKey, None, freed + [slotKey.value])
  {
    forall k: nat ensures orderKey.Some? ==> Places(k, None, slotKey, freed + [orderKey.value]) == if k < n then 1 else 0 {
      assert Places(k, orderKey, slotKey, freed) == if k < n then 1 else 0;
      if orderKey.Some? {
        TimesPush(k, freed, orderKey.value);
      }
    }
    forall k: nat ensures slotKey.Some? ==> Places(k, orderKey, None, freed + [slotKey.value]) == if k < n then 1 else 0 {
      assert Places(k, orderKey, slotKey, freed) == if k < n then 1 else 0;
      if slotKey.Some? {
        TimesPush(k, freed, slotKey.value);
      }
    }
  }

  /** A new key comes to the order or to the slot; or moves from the slot to the order. */
  lemma {:induction false} Gained(n: nat, orderKey: Option<nat>, slotKey: Option<nat>, freed: seq<nat>)
    requires AllOnce(n, orderKey, slotKey, freed)
    ensures orderKey.None? ==> AllOnce(n + 1, Some(n), slotKey, freed) && AllOnce(n, slotKey, None, freed)
    ensures slotKey.None? ==> AllOnce(n + 1, orderKey, Some(n), freed)
  {
    hide Times;
    assert Places(n, orderKey, slotKey, freed) == 0;
    forall k: nat ensures orderKey.None? ==>
        && Places(k, Some(n), slotKey, freed) == (if k < n + 1 then 1 else 0)
        && Places(k, slotKey, None, freed) == (if k < n then 1 else 0)
    {
      assert Places(k, orderKey, slotKey, freed) == if k < n then 1 else 0;
    }
    forall k: nat ensures slotKey.None? ==> Places(k, orderKey, Some(n), freed) == if k < n + 1 then 1 else 0 {
      assert Places(k, orderKey, slotKey, freed) == if k < n then 1 else 0;
    }
  }

  class Generator {
    var slot: Slot
    var task: Option<Task>
    var queue: seq<bool>  // tasks handed to the pool, and whether each has run
    var live: Option<nat>  // the driver's one order
    var rsaOrder: bool  // whether it asks for an RSA key
    var orderKey: Option<nat>  // its certificate key
    var orders: nat  // orders started so far
    var keys: nat  // keys generated so far
    ghost var freed: seq<nat>

    /** The slot agrees with what is in flight, and is attached only to an order that is alive. */
    ghost predicate SlotOk()
      reads this
    {
      && |queue| == (if slot.busy then 1 else 0)
      && (slot.order.Some? ==> slot.busy && slot.order == live && rsaOrder && orderKey.None?)
      && (slot.key.Some? ==> queue == [true])
      && (queue == [true] ==> slot.failed == slot.key.None?)
      && (task.Some? && task.value.active ==> slot.busy)
      && (slot.busy ==> task == Some(Task(true)))
      && (live.Some? ==> live.value < orders) && (live.None? ==> orderKey.None?)
    }

    ghost predicate Valid()
      reads this
    {
      SlotOk() && AllOnce(keys, orderKey, slot.key, freed)
    }

    constructor ()
      ensures Valid() && keys == 0 && live == None && !slot.busy
    {
      slot := Slot(None, 0, None, false, false);
      task, queue, live, rsaOrder, orderKey, orders, keys, freed := None, [], None, false, None, 0, 0, [];
    }

    /** Frees a key handle taken out of its place; freeing none is allowed. */
    ghost method Free(k: Option<nat>)
      modifies this`freed
      ensures freed == if k.None? then old(freed) else old(freed) + [k.value]
    {
      if k.Some? {
        freed := freed + [k.value];
      }
    }

    /** The driver starts its next order. */
    method NewOrder(isRsa: bool)
      requires Valid() && live.None?
      modifies this`live, this`rsaOrder, this`orders
      ensures Valid() && live == Some(old(orders)) && orders == old(orders) + 1 && rsaOrder == isRsa
    {
      live, rsaOrder, orders := Some(orders), isRsa, orders + 1;
    }

    /** Detaches the task of a dying order; it keeps running. */
    method Abandon(order: nat)
      modifies this`slot
      ensures slot == if old(slot).busy && old(slot).order == Some(order) then old(slot).(order := None) else old(slot)
    {
      if slot.busy && slot.order == Some(order) {
        slot := slot.(order := None);
      }
    }

    /** The single funnel of an order's end, at any moment: what the thread reads or writes is left alone. */
    method FreeOrder()
      requires Valid() && live.Some?
      modifies this`slot, this`live, this`orderKey, this`freed
      ensures Valid() && live.None? && orderKey.None? && slot == old(slot).(order := None)
      ensures freed == if old(orderKey).None? then old(freed) else old(freed) + [old(orderKey).value]
    {
      Abandon(live.value);
      Released(keys, orderKey, slot.key, freed);
      hide AllOnce;
      Free(orderKey);
      orderKey := None;
      live := None;
    }

    /** A thread of the pool runs the task: it touches the key and the failure flag, nothing else. */
    method RunTask(generates: bool)
      requires Valid() && queue == [false]
      modifies this`slot, this`queue, this`keys
      ensures Valid() && queue == [true]
      ensures slot == old(slot).(key := if generates then Some(old(keys)) else None, failed := !generates)
    {
      Gained(keys, orderKey, slot.key, freed);
      if generates {
        slot := slot.(key := Some(keys), failed := false);
        keys := keys + 1;
      } else {
        slot := slot.(key := None, failed := true);
      }
      queue := [true];
    }

    /** A key was made for the order, and numbered next; or none was. */
    ghost predicate Generated(ok: bool, before: nat)
      reads this`orderKey, this`keys
    {
      if ok then orderKey == Some(before) && keys == before + 1 else orderKey.None? && keys == before
    }

    /** A task in flight that still belongs to an order: a post on top of it is refused. */
    ghost predicate Attached()
      reads this`slot
    {
      slot.busy && slot.order.Some?
    }

    /** The pool takes a task: the slot is free, there is a pool and a task object, and the queue has room. */
    ghost predicate Offloads(luck: Luck)
      reads this`slot, this`task
    {
      !slot.busy && luck.pool && (task.Some? || luck.memory) && luck.posting == Queued
    }

    /** The order's own generation, on the event loop: every degraded path ends here. */
    method Inline(luck: Luck) returns (r: Answer)
      requires Valid() && live.Some? && orderKey.None? && slot.order.None?
      modifies this`orderKey, this`keys
      ensures Valid() && r != Again && (r == Ok <==> luck.generates && luck.csr)
      ensures Generated(luck.generates, old(keys))
    {
      Gained(keys, orderKey, slot.key, freed);
      hide AllOnce;
      if !luck.generates {
        return Error;
      }
      orderKey := Some(keys);
      keys := keys + 1;
      r := if luck.csr then Ok else Error;
    }

    /**
     Hands the generation to the pool. Whatever a task in flight reads or writes
     is left alone; at most one task is ever in flight; a refused or stuck post
     falls back to the event loop, and leaves a slot that can post again.
     */
    method Post(luck: Luck, rsa: nat) returns (r: Answer)
      requires Valid() && live.Some? && rsaOrder && orderKey.None?
      modifies this`slot, this`task, this`queue, this`orderKey, this`keys
      ensures Valid() && |queue| <= 1
      ensures r == Again <==> old(Offloads(luck))
      ensures r == Again ==>
                && slot == Slot(live, rsa, None, false, true) && task == Some(Task(true)) && queue == [false]
                && Generated(false, old(keys))
      ensures r != Again ==> queue == old(queue) && slot.busy == old(slot).busy && slot.order == old(slot).order
      ensures old(slot).busy ==> slot == old(slot) && task == old(task)
      ensures !old(slot).busy && r != Again && task.Some? ==> !task.value.active
      ensures old(Attached()) ==> r == Error && Generated(false, old(keys))
      ensures r != Again && !(old(Attached())) ==>
                (r == Ok <==> luck.generates && luck.csr) && Generated(luck.generates, old(keys))
    {
      if slot.busy {
        if slot.order.Some? {
          return Error;
        }
        r := Inline(luck);
        return;
      }
      if !luck.pool {
        r := Inline(luck);
        return;
      }
      if task.None? {
        if !luck.memory {
          slot := slot.(order := None);
          r := Inline(luck);
          return;
        }
        task := Some(Task(false));
      }
      assert !task.value.active;
      slot := slot.(order := live, rsa := rsa, key := None, failed := false);
      if luck.posting != Queued {
        slot := slot.(order := None);
        if luck.posting == Stuck {
          task := None;
        }
        r := Inline(luck);
        return;
      }
      task, queue := Some(Task(true)), queue + [false];
      slot := slot.(busy := true);
      assert queue == [false];
      r := Again;
    }

    /** Certificate key for the live order: any earlier one is freed first. An error ends the order. */
    method Finalize(luck: Luck, rsa: nat) returns (r: Answer)
      requires Valid() && live.Some?
      modifies this
      ensures Valid() && orders == old(orders) && rsaOrder == old(rsaOrder)
      ensures r == Again <==> old(rsaOrder && Offloads(luck))
      ensures r == Error <==> live.None?
      ensures r == Again ==> live == old(live) && slot == Slot(live, rsa, None, false, true) && queue == [false] && orderKey.None?
      ensures r != Again ==> queue == old(queue) && slot.busy == old(slot).busy
      ensures r == Error <==> !old(rsaOrder && Offloads(luck)) && (old(rsaOrder && Attached()) || !luck.generates || !luck.csr)
      ensures r == Ok ==> live == old(live) && Generated(true, old(keys))
      ensures !old(rsaOrder) ==> slot == old(slot) && task == old(task)
      ensures old(slot).busy ==> slot.key == old(slot).key && slot.failed == old(slot).failed && slot.rsa == old(slot).rsa
    {
      if orderKey.Some? {
        Released(keys, orderKey, slot.key, freed);
      }
      Free(orderKey);
      orderKey := None;
      if rsaOrder {
        r := Post(luck, rsa);
      } else {
        r := Inline(luck);  // elliptic-curve keys never use the slot
      }
      if r == Error {
        FreeOrder();
      }
    }

    /**
     The completion event, on the event loop. It looks at an order only if that
     order is alive; a key nobody waits for is freed; and the slot is free
     before the order goes on, so that the next one may use it.
     */
    method Completion(luck: Luck)
      requires Valid() && queue == [true]
      modifies this
      ensures Valid() && queue == [] && slot == old(slot).(order := None, key := None, busy := false)
      ensures task == Some(Task(false)) && orders == old(orders) && keys == old(keys) && rsaOrder == old(rsaOrder)
      ensures old(slot).order.None? ==>
                && live == old(live) && orderKey == old(orderKey)
                && freed == if old(slot).key.None? then old(freed) else old(freed) + [old(slot).key.value]
      ensures old(slot).order.Some? ==> old(slot).order == old(live)
      ensures old(slot).order.Some? && old(slot).key.Some? && luck.csr ==> live == old(live) && orderKey == old(slot).key
      ensures old(slot).order.Some? && !(old(slot).key.Some? && luck.csr) ==> live.None?
    {
      var order, key := slot.order, slot.key;
      Released(keys, orderKey, slot.key, freed);
      Gained(keys, orderKey, slot.key, freed);
      hide AllOnce;
      var failed := slot.failed;
      slot := slot.(order := None, key := None, busy := false);
      task, queue := Some(Task(false)), [];
      if order.None? {
        Free(key);
        return;
      }
      assert order == live;
      if failed || key.None? {
        FreeOrder();
        return;
      }
      orderKey := key;
      if !luck.csr {
        FreeOrder();
      }
    }
  }

  /** Every interleaving of the two threads and of the driver's decisions. */
  datatype Event = Starts(isRsa: bool) | Finalizes(luck: Luck, rsa: nat) | ThreadRuns(generates: bool) | Completes(luck: Luck) | Dies

  /** Runs any interleaving, passing over events that cannot happen where they stand. */
  method Run(events: seq<Event>) returns (g: Generator)
    ensures g.Valid() && |g.queue| <= 1
    ensures forall k: nat :: k < g.keys ==> Places(k, g.orderKey, g.slot.key, g.freed) == 1
    ensures g.live.None? && g.queue == [] ==> forall k: nat :: k < g.keys ==> Times(k, g.freed) == 1
  {
    g := new Generator();
    for i := 0 to |events|
      invariant g.Valid() && fresh(g)
    {
      match events[i] {
        case Starts(isRsa) =>
          if g.live.None? {
            g.NewOrder(isRsa);
          }
        case Finalizes(luck, rsa) =>
          if g.live.Some? {
            var _ := g.Finalize(luck, rsa);
          }
        case ThreadRuns(generates) =>
          if g.queue == [false] {
            g.RunTask(generates);
          }
        case Completes(luck) =>
          if g.queue == [true] {
            g.Completion(luck);
          }
        case Dies =>
          if g.live.Some? {
            g.FreeOrder();
          }
      }
    }
    Accounted(g.keys, g.orderKey, g.slot.key, g.freed);
  }

  lemma {:induction false} Accounted(n: nat, orderKey: Option<nat>, slotKey: Option<nat>, freed: seq<nat>)
    requires AllOnce(n, orderKey, slotKey, freed)
    ensures forall k: nat :: k < n ==> Places(k, orderKey, slotKey, freed) == 1
    ensures orderKey.None? && slotKey.None? ==> forall k: nat :: k < n ==> Times(k, freed) == 1
  {
    forall k: nat | k < n ensures orderKey.None? && slotKey.None? ==> Times(k, freed) == 1 {
      assert Places(k, orderKey, slotKey, freed) == 1;
    }
  }
}
