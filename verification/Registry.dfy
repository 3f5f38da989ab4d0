/**
 The shared registry of runtime certificate requests: a bounded binary tree
 ordered by hash, length and bytes of the host, proved to be a map from
 normalized host to request.
 */
module Registry {
  import opened Bytes
  import opened HostName

  const REQUESTS_MAX: nat := 64
  const BACKOFF_BASE: nat := 300
  const BACKOFF_MAX: nat := 86400

  datatype State = Unknown | Requested | Pending | Issued | Failed | Denied

  datatype Request = Request(host: string, state: State, firstSeen: int, lastAttempt: int, lastSeen: int,
                             nextEligible: int, failCount: nat)

  type Table = map<string, Request>

  // ---------------------------------------------------------------- key order

  /** memcmp on strings of one length. */
  predicate BytesLess(a: string, b: string)
    requires |a| == |b|
    decreases |a|
  {
    a != "" && (a[0] < b[0] || (a[0] == b[0] && BytesLess(a[1..], b[1..])))
  }

  /** The order of the tree: hash, then length, then bytes. The hash is arbitrary. */
  predicate Less(hash: string -> nat, a: string, b: string) {
    || hash(a) < hash(b)
    || (hash(a) == hash(b) && (|a| < |b| || (|a| == |b| && BytesLess(a, b))))
  }

  lemma {:induction false} BytesTotal(a: string, b: string)
    requires |a| == |b|
    ensures BytesLess(a, b) || BytesLess(b, a) || a == b
    ensures !(BytesLess(a, b) && BytesLess(b, a)) && !BytesLess(a, a)
    decreases |a|
  {
    if a != "" {
      BytesTotal(a[1..], b[1..]);
      BytesTotal(a[1..], a[1..]);
      assert a == [a[0]] + a[1..] && b == [b[0]] + b[1..];
    }
  }

  lemma {:induction false} BytesTransitive(a: string, b: string, c: string)
    requires |a| == |b| == |c| && BytesLess(a, b) && BytesLess(b, c)
    ensures BytesLess(a, c)
    decreases |a|
  {
    if a[0] == b[0] == c[0] {
      BytesTransitive(a[1..], b[1..], c[1..]);
    }
  }

  /** Whatever the hash, the order is total: two hosts are never confused. */
  lemma {:induction false} LessTotal(hash: string -> nat, a: string, b: string)
    ensures Less(hash, a, b) || Less(hash, b, a) || a == b
    ensures !(Less(hash, a, b) && Less(hash, b, a)) && !Less(hash, a, a)
  {
    BytesTotal(a, a);
    if |a| == |b| {
      BytesTotal(a, b);
    }
  }

  lemma {:induction false} LessTransitive(hash: string -> nat, a: string, b: string, c: string)
    requires Less(hash, a, b) && Less(hash, b, c)
    ensures Less(hash, a, c)
  {
    if hash(a) == hash(b) == hash(c) && |a| == |b| == |c| {
      BytesTransitive(a, b, c);
    }
  }

  // -------------------------------------------------------------------- trees

  datatype Tree = Leaf | Node(left: Tree, req: Request, right: Tree)

  function Inorder(t: Tree): seq<Request> {
    if t.Leaf? then [] else Inorder(t.left) + [t.req] + Inorder(t.right)
  }

  predicate Sorted(hash: string -> nat, list: seq<Request>) {
    forall i, j :: 0 <= i < j < |list| ==> Less(hash, list[i].host, list[j].host)
  }

  /** Linear search: what any lookup has to agree with. */
  function FindIn(list: seq<Request>, host: string): Option<Request> {
    if list == [] then None
    else if list[0].host == host then Some(list[0])
    else FindIn(list[1..], host)
  }

  lemma {:induction false} FindNone(list: seq<Request>, host: string)
    requires forall i :: 0 <= i < |list| ==> list[i].host != host
    ensures FindIn(list, host) == None
  {
    if list != [] {
      FindNone(list[1..], host);
    }
  }

  lemma {:induction false} FindWhere(list: seq<Request>, host: string) returns (k: nat)
    requires FindIn(list, host).Some?
    ensures k < |list| && list[k].host == host && FindIn(list, host) == Some(list[k])
  {
    if list[0].host == host {
      k := 0;
    } else {
      k := FindWhere(list[1..], host);
      k := k + 1;
    }
  }

  lemma {:induction false} FindJoin(a: seq<Request>, b: seq<Request>, host: string)
    ensures FindIn(a + b, host) == if FindIn(a, host).Some? then FindIn(a, host) else FindIn(b, host)
  {
    if a == [] {
      assert a + b == b;
    } else {
      assert (a + b)[0] == a[0] && (a + b)[1..] == a[1..] + b;
      FindJoin(a[1..], b, host);
    }
  }

  /** One comparison decides which side of a sorted list can hold the host. */
  lemma {:induction false} OneSide(hash: string -> nat, a: seq<Request>, x: Request, b: seq<Request>, host: string)
    requires Sorted(hash, a + [x] + b)
    ensures Sorted(hash, a) && Sorted(hash, b)
    ensures Less(hash, host, x.host) ==> FindIn(a + [x] + b, host) == FindIn(a, host)
    ensures Less(hash, x.host, host) ==> FindIn(a + [x] + b, host) == FindIn(b, host)
    ensures host == x.host ==> FindIn(a + [x] + b, host) == Some(x)
  {
    var list := a + [x] + b;
    assert forall i :: 0 <= i < |a| ==> list[i] == a[i];
    assert list[|a|] == x;
    assert forall i :: 0 <= i < |b| ==> list[|a| + 1 + i] == b[i];
    FindJoin(a + [x], b, host);
    FindJoin(a, [x], host);
    forall i | 0 <= i < |a| ensures Less(hash, a[i].host, x.host) {
      assert Less(hash, list[i].host, list[|a|].host);
    }
    forall i | 0 <= i < |b| ensures Less(hash, x.host, b[i].host) {
      assert Less(hash, list[|a|].host, list[|a| + 1 + i].host);
    }
    LessTotal(hash, host, x.host);
    if !Less(hash, host, x.host) {
      forall i | 0 <= i < |a| ensures a[i].host != host {
        LessTotal(hash, a[i].host, x.host);
      }
      FindNone(a, host);
    }
    if !Less(hash, x.host, host) {
      forall i | 0 <= i < |b| ensures b[i].host != host {
        LessTotal(hash, x.host, b[i].host);
      }
      FindNone(b, host);
    }
  }

  /** The tree's own descent, comparing hash, length and bytes in turn. */
  method Descend(hash: string -> nat, tree: Tree, host: string) returns (r: Option<Request>)
    requires Sorted(hash, Inorder(tree))
    ensures r == FindIn(Inorder(tree), host)
  {
    hide Sorted, Less, FindIn, BytesLess;
    var node := tree;
    while !node.Leaf?
      invariant Sorted(hash, Inorder(node)) && FindIn(Inorder(node), host) == FindIn(Inorder(tree), host)
      decreases node
    {
      var rn := node.req;
      OneSide(hash, Inorder(node.left), rn, Inorder(node.right), host);
      if hash(host) < hash(rn.host) {
        LessIs(hash, host, rn.host);
        node := node.left;
      } else if hash(host) > hash(rn.host) {
        LessIs(hash, rn.host, host);
        node := node.right;
      } else if |host| != |rn.host| {
        LessIs(hash, host, rn.host);
        LessIs(hash, rn.host, host);
        node := if |host| < |rn.host| then node.left else node.right;
      } else if host == rn.host {
        return Some(rn);
      } else {
        BytesTotal(host, rn.host);
        LessIs(hash, host, rn.host);
        LessIs(hash, rn.host, host);
        node := if BytesLess(host, rn.host) then node.left else node.right;
      }
    }
    FindNone([], host);
    r := None;
  }

  lemma {:induction false} LessIs(hash: string -> nat, a: string, b: string)
    ensures hash(a) < hash(b) ==> Less(hash, a, b)
    ensures hash(a) == hash(b) && |a| < |b| ==> Less(hash, a, b)
    ensures hash(a) == hash(b) && |a| == |b| && BytesLess(a, b) ==> Less(hash, a, b)
  {
  }

  /** Where insertion hangs a new node, before any rebalancing. */
  function Insert(hash: string -> nat, t: Tree, x: Request): Tree {
    if t.Leaf? then Node(Leaf, x, Leaf)
    else if Less(hash, x.host, t.req.host) then t.(left := Insert(hash, t.left, x))
    else t.(right := Insert(hash, t.right, x))
  }

  predicate AllBefore(hash: string -> nat, list: seq<Request>, host: string) {
    forall z :: z in list ==> Less(hash, z.host, host)
  }

  predicate AllAfter(hash: string -> nat, list: seq<Request>, host: string) {
    forall z :: z in list ==> Less(hash, host, z.host)
  }

  /** Around one element of a sorted list. */
  lemma {:induction false} SortedAround(hash: string -> nat, a: seq<Request>, x: Request, b: seq<Request>)
    requires Sorted(hash, a + [x] + b)
    ensures Sorted(hash, a) && Sorted(hash, b) && AllBefore(hash, a, x.host) && AllAfter(hash, b, x.host)
  {
    var list := a + [x] + b;
    assert list[|a|] == x;
    assert forall i :: 0 <= i < |a| ==> list[i] == a[i];
    assert forall i :: 0 <= i < |b| ==> list[|a| + 1 + i] == b[i];
    forall z | z in a ensures Less(hash, z.host, x.host) {
      var i :| 0 <= i < |a| && a[i] == z;
      assert Less(hash, list[i].host, list[|a|].host);
    }
    forall z | z in b ensures Less(hash, x.host, z.host) {
      var i :| 0 <= i < |b| && b[i] == z;
      assert Less(hash, list[|a|].host, list[|a| + 1 + i].host);
    }
  }

  /** And back. */
  lemma {:induction false} AroundSorted(hash: string -> nat, a: seq<Request>, x: Request, b: seq<Request>)
    requires Sorted(hash, a) && Sorted(hash, b) && AllBefore(hash, a, x.host) && AllAfter(hash, b, x.host)
    ensures Sorted(hash, a + [x] + b)
  {
    var list := a + [x] + b;
    forall i, j | 0 <= i < j < |list| ensures Less(hash, list[i].host, list[j].host) {
      if i < |a| < j {
        LessTransitive(hash, a[i].host, x.host, b[j - |a| - 1].host);
      }
    }
  }

  lemma {:induction false} StillBefore(hash: string -> nat, a: seq<Request>, y: string, x: string)
    requires AllBefore(hash, a, y) && Less(hash, y, x)
    ensures AllBefore(hash, a, x)
  {
    forall z | z in a ensures Less(hash, z.host, x) {
      LessTransitive(hash, z.host, y, x);
    }
  }

  lemma {:induction false} StillAfter(hash: string -> nat, b: seq<Request>, y: string, x: string)
    requires AllAfter(hash, b, y) && Less(hash, x, y)
    ensures AllAfter(hash, b, x)
  {
    forall z | z in b ensures Less(hash, x, z.host) {
      LessTransitive(hash, x, y, z.host);
    }
  }

  predicate NotIn(list: seq<Request>, host: string) { forall z :: z in list ==> z.host != host }

  lemma {:induction false} NotInParts(a: seq<Request>, y: Request, b: seq<Request>, host: string)
    requires NotIn(a + [y] + b, host)
    ensures NotIn(a, host) && y.host != host && NotIn(b, host)
  {
    var list := a + [y] + b;
    assert y in list;
    assert forall z :: z in a || z in b ==> z in list;
  }

  /** Insertion puts the new node where the order wants it and moves nothing else. */
  lemma {:induction false} InsertSplits(hash: string -> nat, t: Tree, x: Request) returns (a: seq<Request>, b: seq<Request>)
    requires Sorted(hash, Inorder(t)) && NotIn(Inorder(t), x.host)
    ensures Inorder(t) == a + b && Inorder(Insert(hash, t, x)) == a + [x] + b
    ensures AllBefore(hash, a, x.host) && AllAfter(hash, b, x.host)
  {
    hide Less, Sorted, NotIn;
    if t.Leaf? {
      a, b := [], [];
    } else {
      var l, y, r := Inorder(t.left), t.req, Inorder(t.right);
      SortedAround(hash, l, y, r);
      LessTotal(hash, x.host, y.host);
      NotInParts(l, y, r, x.host);
      hide AllBefore, AllAfter;
      if Less(hash, x.host, y.host) {
        a, b := InsertSplits(hash, t.left, x);
        StillAfter(hash, r, y.host, x.host);
        AfterJoin(hash, b, y, r, x.host);
        assert (a + b) + [y] + r == a + (b + [y] + r);
        assert (a + [x] + b) + [y] + r == a + [x] + (b + [y] + r);
        b := b + [y] + r;
      } else {
        a, b := InsertSplits(hash, t.right, x);
        StillBefore(hash, l, y.host, x.host);
        BeforeJoin(hash, l, y, a, x.host);
        assert l + [y] + (a + b) == (l + [y] + a) + b;
        assert l + [y] + (a + [x] + b) == (l + [y] + a) + [x] + b;
        a := l + [y] + a;
      }
    }
  }

  lemma {:induction false} AfterJoin(hash: string -> nat, a: seq<Request>, y: Request, b: seq<Request>, x: string)
    requires AllAfter(hash, a, x) && Less(hash, x, y.host) && AllAfter(hash, b, x)
    ensures AllAfter(hash, a + [y] + b, x)
  {
    hide Less;
  }

  lemma {:induction false} BeforeJoin(hash: string -> nat, a: seq<Request>, y: Request, b: seq<Request>, x: string)
    requires AllBefore(hash, a, x) && Less(hash, y.host, x) && AllBefore(hash, b, x)
    ensures AllBefore(hash, a + [y] + b, x)
  {
    hide Less;
  }

  /** A tree with a given content, to show that one exists. */
  function Chain(list: seq<Request>): (t: Tree)
    ensures Inorder(t) == list
  {
    if list == [] then Leaf else Node(Leaf, list[0], Chain(list[1..]))
  }

  // -------------------------------------------------------- a list for a map

  function At(m: Table, h: string): Option<Request> { if h in m then Some(m[h]) else None }

  /** The list holds exactly the map's requests, each once. */
  ghost predicate Represents(list: seq<Request>, m: Table) {
    |list| == |m| && forall h :: FindIn(list, h) == At(m, h)
  }

  lemma {:induction false} FindSplit(a: seq<Request>, x: Request, b: seq<Request>, h: string)
    ensures FindIn(a + [x] + b, h) ==
            if FindIn(a, h).Some? then FindIn(a, h) else if x.host == h then Some(x) else FindIn(b, h)
  {
    FindJoin(a + [x], b, h);
    FindJoin(a, [x], h);
  }

  lemma {:induction false} RepresentsInsert(a: seq<Request>, x: Request, b: seq<Request>, m: Table)
    requires Represents(a + b, m) && x.host !in m
    ensures Represents(a + [x] + b, m[x.host := x])
  {
    hide FindIn;
    forall h ensures FindIn(a + [x] + b, h) == At(m[x.host := x], h) {
      FindSplit(a, x, b, h);
      FindJoin(a, b, h);
      assert FindIn(a + b, h) == At(m, h) && FindIn(a + b, x.host) == At(m, x.host);
    }
  }

  /** The element at a place of a sorted list, by its host. */
  lemma {:induction false} FindPlace(hash: string -> nat, a: seq<Request>, x: Request, b: seq<Request>)
    requires Sorted(hash, a + [x] + b)
    ensures FindIn(a + [x] + b, x.host) == Some(x) && FindIn(a, x.host) == None && FindIn(b, x.host) == None
  {
    SortedAround(hash, a, x, b);
    LessTotal(hash, x.host, x.host);
    forall i | 0 <= i < |a| ensures a[i].host != x.host { assert a[i] in a; }
    forall i | 0 <= i < |b| ensures b[i].host != x.host { assert b[i] in b; }
    FindNone(a, x.host);
    FindNone(b, x.host);
    FindSplit(a, x, b, x.host);
  }

  lemma {:induction false} RepresentsUpdate(hash: string -> nat, a: seq<Request>, x: Request, b: seq<Request>, y: Request, m: Table)
    requires Sorted(hash, a + [x] + b) && Represents(a + [x] + b, m) && y.host == x.host
    ensures x.host in m && m[x.host] == x
    ensures Sorted(hash, a + [y] + b) && Represents(a + [y] + b, m[y.host := y])
  {
    FindPlace(hash, a, x, b);
    SortedAround(hash, a, x, b);
    AroundSorted(hash, a, y, b);
    hide FindIn, Sorted;
    assert At(m, x.host) == Some(x);
    forall h ensures FindIn(a + [y] + b, h) == At(m[y.host := y], h) {
      FindSplit(a, x, b, h);
      FindSplit(a, y, b, h);
      assert FindIn(a + [x] + b, h) == At(m, h);
    }
  }

  lemma {:induction false} RepresentsRemove(hash: string -> nat, a: seq<Request>, x: Request, b: seq<Request>, m: Table)
    requires Sorted(hash, a + [x] + b) && Represents(a + [x] + b, m)
    ensures x.host in m && m[x.host] == x
    ensures Sorted(hash, a + b) && Represents(a + b, m - {x.host})
  {
    FindPlace(hash, a, x, b);
    SortedWithout(hash, a, x, b);
    hide FindIn, Sorted;
    assert At(m, x.host) == Some(x);
    assert m == (m - {x.host})[x.host := x];
    forall h ensures FindIn(a + b, h) == At(m - {x.host}, h) {
      FindSplit(a, x, b, h);
      FindJoin(a, b, h);
      assert FindIn(a + [x] + b, h) == At(m, h);
    }
  }

  lemma {:induction false} SortedWithout(hash: string -> nat, a: seq<Request>, x: Request, b: seq<Request>)
    requires Sorted(hash, a + [x] + b)
    ensures Sorted(hash, a + b)
  {
    var list := a + [x] + b;
    forall i, j | 0 <= i < j < |a + b| ensures Less(hash, (a + b)[i].host, (a + b)[j].host) {
      var i' := if i < |a| then i else i + 1;
      var j' := if j < |a| then j else j + 1;
      assert (a + b)[i] == list[i'] && (a + b)[j] == list[j'];
    }
  }

  // ------------------------------------------------- operations on the map

  /** Every entry is filed under its own normalized host, and none reads as absent. */
  ghost predicate Proper(m: Table) {
    forall h :: h in m ==> m[h].host == h && Normal(h) == Some(h) && m[h].state != Unknown
  }

  predicate Eligible(r: Request, now: int) {
    (r.state == Requested || r.state == Failed) && (r.nextEligible == 0 || now >= r.nextEligible)
  }

  function EnsureEffect(m: Table, active: bool, host: string, now: int, alloc: bool): (Table, State) {
    match Normal(host)
    case None => (m, Denied)
    case Some(k) =>
      if !active then (m, Unknown)
      else if k in m then (m[k := m[k].(lastSeen := now)], m[k].state)
      else if |m| >= REQUESTS_MAX then (m, Denied)
      else if !alloc then (m, Unknown)
      else (m[k := Request(k, Requested, now, 0, now, 0, 0)], Requested)
  }

  /** Five minutes, doubled for every failure after the first, at most a day. */
  function Backoff(fails: nat): (b: nat)
    ensures BACKOFF_BASE <= b <= BACKOFF_MAX
  {
    if fails <= 1 then BACKOFF_BASE
    else if 2 * Backoff(fails - 1) >= BACKOFF_MAX then BACKOFF_MAX
    else 2 * Backoff(fails - 1)
  }

  function Settled(r: Request, state: State, next: int, now: int): Request {
    var q := r.(state := state, lastAttempt := now, lastSeen := now);
    if state == Failed then
      q.(failCount := r.failCount + 1, nextEligible := if next == 0 then now + Backoff(r.failCount + 1) else next)
    else q.(nextEligible := next)
  }

  function SetStateEffect(m: Table, active: bool, host: string, state: State, next: int, now: int): (Table, bool) {
    if state == Unknown || Normal(host).None? || !active then (m, false)
    else
      var k := Normal(host).value;
      (if k in m then m[k := Settled(m[k], state, next, now)] else m, true)
  }

  /** What claiming the hosts of `out` at `now` leaves. */
  function Claimed(m: Table, out: seq<string>, now: int): Table {
    map h | h in m :: if h in out then m[h].(state := Pending, lastAttempt := now) else m[h]
  }

  /** Pairwise different. */
  predicate Distinct(out: seq<string>) {
    forall i, j :: 0 <= i < j < |out| ==> out[i] != out[j]
  }

  /** A drain claims eligible hosts, each once; short of its maximum and of memory it leaves none. */
  ghost predicate DrainEffect(m: Table, m': Table, now: int, max: nat, full: bool, out: seq<string>) {
    && Distinct(out) && m' == Claimed(m, out, now)
    && (forall i :: 0 <= i < |out| ==> out[i] in m && Eligible(m[out[i]], now))
    && (max != 0 ==> |out| <= max)
    && (full && (max == 0 || |out| < max) ==> forall h :: h in m && Eligible(m[h], now) ==> h in out)
  }

  /** Claimed in key order, and no eligible host was passed over. */
  ghost predicate InKeyOrder(hash: string -> nat, out: seq<string>, m: Table, now: int) {
    && Ascending(hash, out)
    && (forall h, i :: h in m && Eligible(m[h], now) && h !in out && 0 <= i < |out| ==> Less(hash, out[i], h))
  }

  predicate Idle(r: Request, now: int, ttl: int) { now - r.lastSeen > ttl }

  /** Eviction takes exactly idle hosts; with memory it takes them all. */
  ghost predicate GcEffect(m: Table, m': Table, now: int, ttl: int, full: bool, out: seq<string>) {
    && Distinct(out) && m' == Without(m, out)
    && (forall i :: 0 <= i < |out| ==> out[i] in m && Idle(m[out[i]], now, ttl))
    && (full ==> forall h :: h in m && Idle(m[h], now, ttl) ==> h in out)
  }

  /** A listing names hosts with a certificate, each once; with memory and no maximum it names them all. */
  ghost predicate ListEffect(m: Table, full: bool, out: seq<string>) {
    && Distinct(out) && (forall h :: h in out ==> h in m && m[h].state == Issued)
    && (full ==> forall h :: h in m && m[h].state == Issued ==> h in out)
  }

  // ---------------------------------------------------------------- the zone

  const API_VERSION: nat := 2
  const API_INACTIVE: nat := 0x8000_0000_0000_0002

  class Zone {
    const hash: string -> nat
    var stamp: Option<nat>  // None: no header allocated yet
    var tree: Tree
    var count: nat
    ghost var table: Table

    ghost predicate Valid()
      reads this
    {
      && Sorted(hash, Inorder(tree)) && Represents(Inorder(tree), table) && Proper(table)
      && count == |table| <= REQUESTS_MAX && (stamp.None? ==> table == map[])
    }

    predicate Active()
      reads this
    {
      stamp == Some(API_VERSION)
    }

    constructor (hash: string -> nat)
      ensures Valid() && table == map[] && stamp == None && this.hash == hash
    {
      this.hash := hash;
      stamp, tree, count, table := None, Leaf, 0, map[];
    }

    lemma TableProper()
      requires Valid()
      ensures Proper(table)
    {
    }

    /** The registry's key for a host, by the validating loop. */
    method Key(host: string) returns (k: Option<string>)
      ensures k == Normal(host)
    {
      var buf := new char[NAME_MAX];
      var n := Normalize(host, buf);
      k := if n == 0 then None else Some(buf[..n]);
    }

    method Lookup(k: string) returns (r: Option<Request>)
      requires Valid()
      ensures r == At(table, k)
    {
      r := Descend(hash, tree, k);
      assert FindIn(Inorder(tree), k) == At(table, k);
    }

    /** Rewrites one node's record in place: the shape and the keys stay. */
    method Rewrite(y: Request)
      requires Valid() && y.host in table && y.state != Unknown
      modifies this`tree, this`table
      ensures Valid() && table == old(table)[y.host := y]
    {
      hide Sorted, FindIn, Inorder, Normal, Insert;
      assert FindIn(Inorder(tree), y.host) == At(table, y.host);
      ghost var w := FindWhere(Inorder(tree), y.host);
      var list := Inorder(tree);
      var i :| 0 <= i < |list| && list[i].host == y.host;
      var a, b := list[..i], list[i + 1..];
      assert list == a + [list[i]] + b;
      RepresentsUpdate(hash, a, list[i], b, y, table);
      ChainIs(a + [y] + b);
      var t :| Inorder(t) == a + [y] + b;
      tree := t;
      table := table[y.host := y];
    }

    /** Hangs a new node and rebalances in any way that keeps the order. */
    method Add(x: Request)
      requires Valid() && x.host !in table && count < REQUESTS_MAX && stamp.Some?
      requires Normal(x.host) == Some(x.host) && x.state != Unknown
      modifies this`tree, this`table, this`count
      ensures Valid() && table == old(table)[x.host := x]
    {
      hide Sorted, FindIn, Inorder, Normal, Insert;
      assert FindIn(Inorder(tree), x.host) == At(table, x.host);
      Absent(hash, Inorder(tree), x.host);
      ghost var a, b := InsertSplits(hash, tree, x);
      SortedJoin(hash, a, b);
      AroundSorted(hash, a, x, b);
      RepresentsInsert(a, x, b, table);
      var grown := Insert(hash, tree, x);
      var t :| Inorder(t) == Inorder(grown);
      tree := t;
      table := table[x.host := x];
      count := count + 1;
    }

    /** Unlinks a node and rebalances in any way that keeps the order. */
    method Delete(k: string)
      requires Valid() && k in table
      modifies this`tree, this`table, this`count
      ensures Valid() && table == old(table) - {k}
    {
      hide Sorted, FindIn, Inorder, Normal, Insert;
      assert FindIn(Inorder(tree), k) == At(table, k);
      ghost var w := FindWhere(Inorder(tree), k);
      var list := Inorder(tree);
      var i :| 0 <= i < |list| && list[i].host == k;
      var a, b := list[..i], list[i + 1..];
      assert list == a + [list[i]] + b;
      RepresentsRemove(hash, a, list[i], b, table);
      ChainIs(a + b);
      var t :| Inorder(t) == a + b;
      tree := t;
      table := table - {k};
      if count > 0 {
        count := count - 1;
      }
    }

    /** A consumer asks for a host; asking again keeps it alive. */
    method Ensure(host: string, now: int, alloc: bool) returns (r: State)
      requires Valid()
      modifies this
      ensures Valid() && stamp == old(stamp)
      ensures (table, r) == EnsureEffect(old(table), Active(), host, now, alloc)
    {
      hide Sorted, FindIn, Inorder, Normal;
      var k := Key(host);
      if k.None? {
        return Denied;
      }
      if stamp != Some(API_VERSION) {
        return Unknown;
      }
      var rn := Lookup(k.value);
      NormalTwice(host);
      if rn.Some? {
        Rewrite(rn.value.(lastSeen := now));
        return rn.value.state;
      }
      if count >= REQUESTS_MAX {
        return Denied;
      }
      if !alloc {
        return Unknown;
      }
      Add(Request(k.value, Requested, now, 0, now, 0, 0));
      r := Requested;
    }

    /** What the serving path sees of a host. */
    method StateOf(host: string) returns (r: State)
      requires Valid()
      ensures r == if Active() && Normal(host).Some? && Normal(host).value in table
                   then table[Normal(host).value].state else Unknown
    {
      hide Sorted, FindIn, Inorder, Normal;
      var k := Key(host);
      if k.None? || stamp != Some(API_VERSION) {
        return Unknown;
      }
      var rn := Lookup(k.value);
      r := if rn.Some? then rn.value.state else Unknown;
    }

    /** The driver records an outcome; an absent host is left absent. */
    method SetState(host: string, state: State, next: int, now: int) returns (ok: bool)
      requires Valid()
      modifies this
      ensures Valid() && stamp == old(stamp)
      ensures (table, ok) == SetStateEffect(old(table), Active(), host, state, next, now)
    {
      hide Sorted, FindIn, Inorder, Normal;
      if state == Unknown {
        return false;
      }
      var k := Key(host);
      if k.None? || stamp != Some(API_VERSION) {
        return false;
      }
      var rn := Lookup(k.value);
      if rn.None? {
        return true;
      }
      var q := rn.value.(state := state, lastAttempt := now, lastSeen := now, nextEligible := next);
      if state == Failed {
        q := q.(failCount := q.failCount + 1);
        if next == 0 {
          var b := Doubled(q.failCount);
          q := q.(nextEligible := now + b);
        }
      }
      Rewrite(q);
      ok := true;
    }

    /** Claims eligible hosts in key order, at most `max` of them unless `max` is 0; `room` is whether each copy fits. */
    method Drain(now: int, max: nat, room: nat -> bool) returns (r: int, out: seq<string>)
      requires Valid()
      modifies this
      ensures Valid() && stamp == old(stamp)
      ensures !Active() ==> r == -1 && out == [] && table == old(table)
      ensures Active() ==> DrainEffect(old(table), table, now, max, (forall i :: room(i)), out)
      ensures r == |out| || (r == -1 && out == [] && (Active() ==> exists i :: !room(i)))
      ensures InKeyOrder(hash, out, old(table), now)
    {
      hide Sorted, FindIn, Inorder, Normal, Represents, Proper, Nodes, DrainEffect, Claimed, Pick, Distinct, Less, Eligible, InKeyOrder;
      out := [];
      NoneInOrder(hash, table, now);
      if stamp != Some(API_VERSION) {
        return -1, [];
      }
      var nodes := Inorder(tree);
      NodesAre(hash, nodes, table);
      ClaimNone(table, now, nodes);
      var i := 0;
      while i < |nodes|
        invariant 0 <= i <= |nodes| && Valid() && stamp == old(stamp)
        invariant out == Pick(nodes, i, ByEligible(now)) && (max != 0 ==> |out| <= max)
        invariant table == Claimed(old(table), out, now)
      {
        if max != 0 && |out| >= max {
          break;
        }
        var rn := nodes[i];
        PickOne(nodes, i, ByEligible(now));
        if Eligible(rn, now) {
          if !room(i) {
            Drained(old(table), nodes, now, max, i);
            PickInOrder(hash, nodes, old(table), now, i);
            return if |out| > 0 then |out| else -1, out;
          }
          ClaimOne(old(table), nodes, now, i);
          Rewrite(rn.(state := Pending, lastAttempt := now));
          out := out + [rn.host];
        }
        i := i + 1;
      }
      Drained(old(table), nodes, now, max, i);
      PickInOrder(hash, nodes, old(table), now, i);
      r := |out|;
    }

    /** The hosts that hold a certificate; nothing changes. */
    method ListIssued(max: nat, room: nat -> bool) returns (r: int, out: seq<string>)
      requires Valid()
      ensures !Active() ==> r == -1 && out == []
      ensures ListEffect(table, Active() && max == 0 && (forall i :: room(i)), out)
    {
      hide Sorted, FindIn, Inorder, Normal, Represents, Proper, Nodes, ListEffect;
      out := [];
      ListNone(table);
      if stamp != Some(API_VERSION) {
        return -1, [];
      }
      var nodes := Inorder(tree);
      NodesAre(hash, nodes, table);
      var i := 0;
      while i < |nodes|
        invariant 0 <= i <= |nodes| && out == Pick(nodes, i, HoldsCert())
      {
        Listed(nodes, table, i);
        if max != 0 && |out| >= max {
          break;
        }
        if nodes[i].state == Issued {
          if !room(i) {
            return if |out| > 0 then |out| else -1, out;
          }
          out := out + [nodes[i].host];
        }
        i := i + 1;
      }
      Listed(nodes, table, i);
      r := |out|;
    }

    /** Evicts hosts idle for longer than `ttl`: first collected, then deleted one by one. */
    method Gc(now: int, ttl: int, room: nat -> bool) returns (r: int, out: seq<string>)
      requires Valid()
      modifies this
      ensures Valid() && stamp == old(stamp)
      ensures ttl <= 0 || !Active() ==> r <= 0 && out == [] && table == old(table)
      ensures ttl > 0 && Active() ==> r == |out| && GcEffect(old(table), table, now, ttl, (forall i :: room(i)), out)
    {
      hide Sorted, FindIn, Inorder, Normal, Represents, Proper, Distinct, GcEffect, Without, Idle;
      out := [];
      if ttl <= 0 {
        return 0, [];
      }
      if stamp != Some(API_VERSION) {
        return -1, [];
      }
      ghost var was := table;
      var victims := Collect(now, ttl);
      var i := 0;
      WithoutNone(table);
      while i < |victims|
        invariant 0 <= i <= |victims| && Valid() && stamp == old(stamp)
        invariant out == victims[..i] && table == Without(was, out)
      {
        if !room(i) {
          break;
        }
        WithoutOne(was, victims, i);
        Delete(victims[i]);
        out := out + [victims[i]];
        i := i + 1;
      }
      Evicted(was, now, ttl, victims, i);
      r := |out|;
    }

    /** The idle hosts, in key order; the array of victims is never too small. */
    method Collect(now: int, ttl: int) returns (victims: seq<string>)
      requires Valid()
      ensures Distinct(victims) && |victims| <= REQUESTS_MAX
      ensures forall h :: h in victims <==> h in table && Idle(table[h], now, ttl)
    {
      hide Sorted, FindIn, Inorder, Normal, Represents, Proper, Idle;
      var nodes := Inorder(tree);
      NodesAre(hash, nodes, table);
      var sel := ByIdle(now, ttl);
      victims := [];
      var i := 0;
      while i < |nodes| && |victims| < REQUESTS_MAX
        invariant 0 <= i <= |nodes| && victims == Pick(nodes, i, sel) && |victims| <= i
      {
        if Idle(nodes[i], now, ttl) {
          victims := victims + [nodes[i].host];
        }
        i := i + 1;
      }
      PickSpec(nodes, table, i, sel);
      hide Pick;
    }

    /** Adopts or allocates the header when a cycle starts; an unknown layout is never relabelled. */
    method Init(owner: bool, alloc: bool) returns (ok: bool)
      requires Valid()
      modifies this
      ensures Valid() && table == old(table)
      ensures (stamp, ok) == InitEffect(old(stamp), |table| == 0, owner, alloc)
    {
      hide Sorted, FindIn, Inorder, Normal;
      if stamp.Some? {
        if stamp.value == API_VERSION || stamp.value == API_INACTIVE || (stamp.value == 0 && count == 0 && tree.Leaf?) {
          EmptyTree(tree, table);
          stamp := Some(if owner then API_VERSION else API_INACTIVE);
          return true;
        }
        EmptyTree(tree, table);
        return !owner;
      }
      if !alloc {
        return false;
      }
      stamp := Some(if owner then API_VERSION else API_INACTIVE);
      EmptyTree(tree, table);
      tree, count := Leaf, 0;
      ok := true;
    }
  }

  /** The loop that doubles the delay. */
  method Doubled(fails: nat) returns (b: nat)
    ensures b == Backoff(fails)
  {
    b := BACKOFF_BASE;
    var n := fails;
    assert Backoff(1) == BACKOFF_BASE;
    while n > 1
      invariant n <= fails && (fails >= 1 ==> n >= 1) && b == Backoff(if fails <= 1 then 1 else fails - n + 1)
      invariant b < BACKOFF_MAX
    {
      b := b * 2;
      n := n - 1;
      if b >= BACKOFF_MAX {
        b := BACKOFF_MAX;
        BackoffStays(fails - n + 1, fails);
        break;
      }
    }
  }

  lemma {:induction false} BackoffStays(a: nat, b: nat)
    requires a <= b && Backoff(a) == BACKOFF_MAX
    ensures Backoff(b) == BACKOFF_MAX
    decreases b - a
  {
    if a < b {
      BackoffStays(a, b - 1);
    }
  }

  function InitEffect(stamp: Option<nat>, empty: bool, owner: bool, alloc: bool): (Option<nat>, bool) {
    var mine := Some(if owner then API_VERSION else API_INACTIVE);
    match stamp
    case None => if alloc then (mine, true) else (None, false)
    case Some(v) =>
      if v == API_VERSION || v == API_INACTIVE || (v == 0 && empty) then (mine, true) else (stamp, !owner)
  }

  function Without(m: Table, out: seq<string>): Table { map h | h in m && h !in out :: m[h] }

  lemma {:induction false} ChainIs(list: seq<Request>)
    ensures exists t :: Inorder(t) == list
  {
    assert Inorder(Chain(list)) == list;
  }

  lemma {:induction false} Absent(hash: string -> nat, list: seq<Request>, host: string)
    requires FindIn(list, host) == None
    ensures NotIn(list, host)
  {
    if list != [] {
      Absent(hash, list[1..], host);
      assert list == [list[0]] + list[1..];
    }
  }

  lemma {:induction false} SortedJoin(hash: string -> nat, a: seq<Request>, b: seq<Request>)
    requires Sorted(hash, a + b)
    ensures Sorted(hash, a) && Sorted(hash, b)
  {
    assert forall i :: 0 <= i < |a| ==> (a + b)[i] == a[i];
    assert forall i :: 0 <= i < |b| ==> (a + b)[|a| + i] == b[i];
  }

  lemma {:induction false} EmptyTree(t: Tree, m: Table)
    requires Represents(Inorder(t), m)
    ensures t.Leaf? <==> |m| == 0
    ensures |m| == 0 ==> m == map[]
  {
    if !t.Leaf? {
      assert t.req in Inorder(t);
    }
  }

  /** The nodes of a walk, by host: each once, and all of them. */
  ghost predicate Nodes(nodes: seq<Request>, m: Table) {
    && (forall i, j :: 0 <= i < j < |nodes| ==> nodes[i].host != nodes[j].host)
    && (forall i :: 0 <= i < |nodes| ==> nodes[i].host in m && m[nodes[i].host] == nodes[i])
    && (forall h :: h in m ==> exists i :: 0 <= i < |nodes| && nodes[i].host == h)
    && |nodes| == |m|
  }

  lemma {:induction false} NodesAre(hash: string -> nat, nodes: seq<Request>, m: Table)
    requires Sorted(hash, nodes) && Represents(nodes, m)
    ensures Nodes(nodes, m)
  {
    forall i | 0 <= i < |nodes| ensures nodes[i].host in m && m[nodes[i].host] == nodes[i] {
      assert nodes == nodes[..i] + [nodes[i]] + nodes[i + 1..];
      FindPlace(hash, nodes[..i], nodes[i], nodes[i + 1..]);
      assert FindIn(nodes, nodes[i].host) == At(m, nodes[i].host);
    }
    forall i, j | 0 <= i < j < |nodes| ensures nodes[i].host != nodes[j].host {
      LessTotal(hash, nodes[i].host, nodes[i].host);
    }
    forall h | h in m ensures exists i :: 0 <= i < |nodes| && nodes[i].host == h {
      assert FindIn(nodes, h) == At(m, h);
      var i := FindWhere(nodes, h);
    }
  }


  /** The hosts of the chosen ones among the first `i` nodes, in key order. */
  function Pick(nodes: seq<Request>, i: nat, sel: Request -> bool): (out: seq<string>)
    requires i <= |nodes|
    ensures |out| <= i
  {
    if i == 0 then []
    else if sel(nodes[i - 1]) then Pick(nodes, i - 1, sel) + [nodes[i - 1].host]
    else Pick(nodes, i - 1, sel)
  }

  function ByEligible(now: int): Request -> bool { r => Eligible(r, now) }

  function ByIdle(now: int, ttl: int): Request -> bool { r => Idle(r, now, ttl) }

  function HoldsCert(): Request -> bool { (r: Request) => r.state == Issued }

  lemma {:induction false} PickOne(nodes: seq<Request>, i: nat, sel: Request -> bool)
    requires i < |nodes|
    ensures Pick(nodes, i + 1, sel) ==
            if sel(nodes[i]) then Pick(nodes, i, sel) + [nodes[i].host] else Pick(nodes, i, sel)
  {
  }

  lemma {:induction false} PickSpec(nodes: seq<Request>, m: Table, i: nat, sel: Request -> bool)
    requires Nodes(nodes, m) && i <= |nodes|
    ensures Distinct(Pick(nodes, i, sel))
    ensures forall h :: h in Pick(nodes, i, sel) ==> h in m && sel(m[h])
    ensures forall j :: i <= j < |nodes| ==> nodes[j].host !in Pick(nodes, i, sel)
    ensures forall j :: 0 <= j < i && sel(nodes[j]) ==> nodes[j].host in Pick(nodes, i, sel)
    ensures i == |nodes| ==> forall h :: h in m && sel(m[h]) ==> h in Pick(nodes, i, sel)
    decreases i
  {
    if i > 0 {
      PickSpec(nodes, m, i - 1, sel);
    }
  }

  lemma {:induction false} NoneInOrder(hash: string -> nat, m: Table, now: int)
    ensures InKeyOrder(hash, [], m, now)
  {
  }

  /** Every chosen host comes before every node not yet reached. */
  lemma {:induction false} PickBefore(hash: string -> nat, nodes: seq<Request>, i: nat, sel: Request -> bool, j: nat)
    requires Sorted(hash, nodes) && i <= j < |nodes|
    ensures forall a :: 0 <= a < |Pick(nodes, i, sel)| ==> Less(hash, Pick(nodes, i, sel)[a], nodes[j].host)
  {
    hide Less;
    if i > 0 {
      PickBefore(hash, nodes, i - 1, sel, j);
    }
  }

  predicate Ascending(hash: string -> nat, out: seq<string>) {
    forall a, b :: 0 <= a < b < |out| ==> Less(hash, out[a], out[b])
  }

  lemma {:induction false} AscendingPush(hash: string -> nat, out: seq<string>, last: string)
    requires Ascending(hash, out) && forall a :: 0 <= a < |out| ==> Less(hash, out[a], last)
    ensures Ascending(hash, out + [last])
  {
    hide Less;
    var next := out + [last];
    forall a, b | 0 <= a < b < |next| ensures Less(hash, next[a], next[b]) {
      if b == |out| {
        assert next[a] == out[a];
      } else {
        assert next[a] == out[a] && next[b] == out[b];
      }
    }
  }

  lemma {:induction false} PickSorted(hash: string -> nat, nodes: seq<Request>, i: nat, sel: Request -> bool)
    requires Sorted(hash, nodes) && i <= |nodes|
    ensures Ascending(hash, Pick(nodes, i, sel))
  {
    if i > 0 {
      PickSorted(hash, nodes, i - 1, sel);
      PickBefore(hash, nodes, i - 1, sel, i - 1);
      if sel(nodes[i - 1]) {
        AscendingPush(hash, Pick(nodes, i - 1, sel), nodes[i - 1].host);
      }
    }
  }

  lemma {:induction false} PickInOrder(hash: string -> nat, nodes: seq<Request>, m: Table, now: int, i: nat)
    requires Sorted(hash, nodes) && Nodes(nodes, m) && i <= |nodes|
    ensures InKeyOrder(hash, Pick(nodes, i, ByEligible(now)), m, now)
  {
    var out := Pick(nodes, i, ByEligible(now));
    PickSorted(hash, nodes, i, ByEligible(now));
    PickSpec(nodes, m, i, ByEligible(now));
    hide Pick, Less, Sorted;
    forall h, a | h in m && Eligible(m[h], now) && h !in out && 0 <= a < |out| ensures Less(hash, out[a], h) {
      var j :| 0 <= j < |nodes| && nodes[j].host == h;
      assert m[nodes[j].host] == nodes[j];
      PickBefore(hash, nodes, i, ByEligible(now), j);
    }
  }

  lemma {:induction false} ListNone(m: Table)
    ensures ListEffect(m, false, [])
  {
  }

  lemma {:induction false} Listed(nodes: seq<Request>, m: Table, i: nat)
    requires Nodes(nodes, m) && i <= |nodes|
    ensures ListEffect(m, false, Pick(nodes, i, HoldsCert()))
    ensures i == |nodes| ==> ListEffect(m, true, Pick(nodes, i, HoldsCert()))
  {
    PickSpec(nodes, m, i, HoldsCert());
  }

  lemma {:induction false} ClaimNone(m: Table, now: int, nodes: seq<Request>)
    ensures Claimed(m, [], now) == m && Pick(nodes, 0, ByEligible(now)) == []
  {
  }

  /** The node the drain has reached is still as it was, and claiming it extends what is claimed. */
  lemma {:induction false} ClaimOne(m: Table, nodes: seq<Request>, now: int, i: nat)
    requires Nodes(nodes, m) && i < |nodes|
    ensures var out, h := Pick(nodes, i, ByEligible(now)), nodes[i].host;
            var y := nodes[i].(state := Pending, lastAttempt := now);
            h in m && h in Claimed(m, out, now) && Claimed(m, out, now)[h := y] == Claimed(m, out + [h], now)
  {
    PickSpec(nodes, m, i, ByEligible(now));
  }

  lemma {:induction false} Drained(m: Table, nodes: seq<Request>, now: int, max: nat, i: nat)
    requires Nodes(nodes, m) && i <= |nodes| && (max != 0 ==> |Pick(nodes, i, ByEligible(now))| <= max)
    ensures var out := Pick(nodes, i, ByEligible(now));
            && DrainEffect(m, Claimed(m, out, now), now, max, false, out)
            && (i == |nodes| || (max != 0 && |out| >= max) ==> DrainEffect(m, Claimed(m, out, now), now, max, true, out))
  {
    PickSpec(nodes, m, i, ByEligible(now));
  }

  lemma {:induction false} WithoutNone(m: Table)
    ensures Without(m, []) == m
  {
  }

  lemma {:induction false} WithoutOne(m: Table, victims: seq<string>, i: nat)
    requires Distinct(victims) && i < |victims| && forall h :: h in victims ==> h in m
    ensures victims[i] in Without(m, victims[..i])
    ensures Without(m, victims[..i]) - {victims[i]} == Without(m, victims[..i + 1])
    ensures victims[..i] + [victims[i]] == victims[..i + 1]
  {
    assert victims[i] !in victims[..i];
    assert victims[..i + 1] == victims[..i] + [victims[i]];
  }

  lemma {:induction false} Evicted(m: Table, now: int, ttl: int, victims: seq<string>, i: nat)
    requires Distinct(victims) && i <= |victims|
    requires forall h :: h in victims <==> h in m && Idle(m[h], now, ttl)
    ensures GcEffect(m, Without(m, victims[..i]), now, ttl, false, victims[..i])
    ensures i == |victims| ==> GcEffect(m, Without(m, victims[..i]), now, ttl, true, victims[..i])
  {
    assert i == |victims| ==> victims[..i] == victims;
    assert forall k :: 0 <= k < i ==> victims[..i][k] == victims[k] && victims[k] in victims;
  }

  // -------------------------------------------------------------------- runs

  /** What consumers, the driver and reloads do to the zone. */
  datatype Event =
    | Asked(host: string, now: int, alloc: bool)
    | Outcome(host: string, state: State, next: int, now: int)
    | Handed(now: int, max: nat, full: bool, out: seq<string>)
    | Swept(now: int, ttl: int, full: bool, out: seq<string>)
    | Cycle(owner: bool, alloc: bool)

  datatype Reg = Reg(stamp: Option<nat>, table: Table)

  predicate IsActive(r: Reg) { r.stamp == Some(API_VERSION) }

  ghost predicate Step(r: Reg, e: Event, r': Reg) {
    match e
    case Asked(h, now, alloc) => r' == r.(table := EnsureEffect(r.table, IsActive(r), h, now, alloc).0)
    case Outcome(h, state, next, now) => r' == r.(table := SetStateEffect(r.table, IsActive(r), h, state, next, now).0)
    case Handed(now, max, full, out) =>
      r'.stamp == r.stamp
      && if IsActive(r) then DrainEffect(r.table, r'.table, now, max, full, out) else out == [] && r'.table == r.table
    case Swept(now, ttl, full, out) =>
      r'.stamp == r.stamp
      && if IsActive(r) && ttl > 0 then GcEffect(r.table, r'.table, now, ttl, full, out) else out == [] && r'.table == r.table
    case Cycle(owner, alloc) => r' == r.(stamp := InitEffect(r.stamp, |r.table| == 0, owner, alloc).0)
  }

  ghost predicate Run(rs: seq<Reg>, es: seq<Event>) {
    |rs| == |es| + 1 && forall i :: 0 <= i < |es| ==> Step(rs[i], es[i], rs[i + 1])
  }

  /** What gives a claimed host back: an outcome other than a claim, or eviction. */
  predicate Releases(e: Event, h: string) {
    || (e.Outcome? && Normal(e.host) == Some(h) && e.state != Pending)
    || (e.Swept? && h in e.out)
  }

  predicate IsPending(r: Reg, h: string) { h in r.table && r.table[h].state == Pending }

  lemma {:induction false} StaysPending(r: Reg, e: Event, r': Reg, h: string)
    requires Step(r, e, r') && IsPending(r, h) && !Releases(e, h)
    ensures IsPending(r', h) && (e.Handed? ==> h !in e.out)
  {
    hide Normal;
  }

  lemma {:induction false} PendingUntil(rs: seq<Reg>, es: seq<Event>, i: nat, j: nat, h: string)
    requires Run(rs, es) && i <= j <= |es| && IsPending(rs[i], h)
    requires forall k :: i <= k < j ==> !Releases(es[k], h)
    ensures IsPending(rs[j], h)
    decreases j - i
  {
    if i < j {
      StaysPending(rs[i], es[i], rs[i + 1], h);
      hide Step, Releases;
      PendingUntil(rs, es, i + 1, j, h);
    }
  }

  /** In every run, a host drained twice was released in between. */
  lemma {:induction false} ClaimedOnce(rs: seq<Reg>, es: seq<Event>, i: nat, j: nat, h: string)
    requires Run(rs, es) && i < j < |es| && es[i].Handed? && es[j].Handed? && h in es[i].out && h in es[j].out
    ensures exists k :: i < k < j && Releases(es[k], h)
  {
    var m := rs[i].table;
    assert Step(rs[i], es[i], rs[i + 1]);
    var k :| 0 <= k < |es[i].out| && es[i].out[k] == h;
    assert es[i].out[k] in m;
    assert IsPending(rs[i + 1], h);
    if forall k :: i < k < j ==> !Releases(es[k], h) {
      PendingUntil(rs, es, i + 1, j, h);
      assert Step(rs[j], es[j], rs[j + 1]);
      StaysPending(rs[j], es[j], rs[j + 1], h);
      assert false;
    }
  }

  lemma {:induction false} EnsureKeeps(m: Table, active: bool, host: string, now: int, alloc: bool)
    requires Proper(m) && |m| <= REQUESTS_MAX
    ensures var m' := EnsureEffect(m, active, host, now, alloc).0; Proper(m') && |m'| <= REQUESTS_MAX
  {
    hide Normal;
    if Normal(host).Some? {
      NormalTwice(host);
    }
  }

  lemma {:induction false} SetStateKeeps(m: Table, active: bool, host: string, state: State, next: int, now: int)
    requires Proper(m) && |m| <= REQUESTS_MAX
    ensures var m' := SetStateEffect(m, active, host, state, next, now).0; Proper(m') && |m'| <= REQUESTS_MAX
  {
    hide Normal;
    if Normal(host).Some? {
      NormalTwice(host);
    }
  }

  lemma {:induction false} ClaimedKeeps(m: Table, out: seq<string>, now: int)
    requires Proper(m)
    ensures Proper(Claimed(m, out, now)) && |Claimed(m, out, now)| <= |m|
  {
    hide Normal;
    SameKeys(m, Claimed(m, out, now));
  }

  lemma {:induction false} WithoutKeeps(m: Table, out: seq<string>)
    requires Proper(m)
    ensures Proper(Without(m, out)) && |Without(m, out)| <= |m|
  {
    hide Normal;
    SameKeys(m, Without(m, out));
  }

  lemma {:induction false} SameKeys(m: Table, m': Table)
    requires m'.Keys <= m.Keys
    ensures |m'| <= |m|
  {
    SubsetSize(m'.Keys, m.Keys);
    assert |m.Keys| == |m| && |m'.Keys| == |m'|;
  }

  /** Every step keeps the table bounded and every entry under its own key. */
  lemma {:induction false} StepKeeps(r: Reg, e: Event, r': Reg)
    requires Step(r, e, r') && Proper(r.table) && |r.table| <= REQUESTS_MAX
    ensures Proper(r'.table) && |r'.table| <= REQUESTS_MAX
  {
    hide Normal, Proper, EnsureEffect, SetStateEffect, Claimed, Without, InitEffect;
    match e
    case Asked(h, now, alloc) => EnsureKeeps(r.table, IsActive(r), h, now, alloc);
    case Outcome(h, state, next, now) => SetStateKeeps(r.table, IsActive(r), h, state, next, now);
    case Handed(now, max, full, out) => ClaimedKeeps(r.table, out, now);
    case Swept(now, ttl, full, out) => WithoutKeeps(r.table, out);
    case Cycle(owner, alloc) =>
  }

  /** What a drain hands to an order is its own key and passes the order's check. */
  lemma {:induction false} HandedSafe(r: Reg, e: Event, r': Reg, h: string)
    requires Step(r, e, r') && Proper(r.table) && e.Handed? && h in e.out
    ensures Normal(h) == Some(h) && 0 < |h| <= NAME_MAX && LowerCharset(h)
  {
    hide Normal, Claimed, LowerCharset, Eligible;
    var k :| 0 <= k < |e.out| && e.out[k] == h;
    assert e.out[k] in r.table;
    NormalIsSafe(h);
  }

  lemma {:induction false} EmptyProper()
    ensures Proper(map[])
  {
  }

  lemma {:induction false} RunStep(rs: seq<Reg>, es: seq<Event>, i: nat)
    requires Run(rs, es) && i < |es|
    ensures Step(rs[i], es[i], rs[i + 1])
  {
  }

  /** Over every run from an empty zone: at most 64 hosts, each under its own key. */
  lemma {:induction false} RunKeeps(rs: seq<Reg>, es: seq<Event>, i: nat)
    requires |rs| == |es| + 1 && Run(rs, es) && rs[0].table == map[] && i <= |es|
    ensures Proper(rs[i].table) && |rs[i].table| <= REQUESTS_MAX
  {
    hide Step, Proper, Run;
    if i > 0 {
      RunKeeps(rs, es, i - 1);
      RunStep(rs, es, i - 1);
      StepKeeps(rs[i - 1], es[i - 1], rs[i]);
    } else {
      EmptyProper();
    }
  }

  // ---------------------------------------------- the zone's own runs

  /** A call of one of the operations that write; `room` is whether each name copied out fits. */
  datatype Call =
    | CallEnsure(host: string, now: int, alloc: bool)
    | CallSetState(host: string, state: State, next: int, now: int)
    | CallDrain(now: int, max: nat, room: nat -> bool)
    | CallGc(now: int, ttl: int, room: nat -> bool)
    | CallInit(owner: bool, alloc: bool)

  ghost function Snapshot(z: Zone): Reg
    reads z
  {
    Reg(z.stamp, z.table)
  }

  /** The event a call amounts to, `out` being the hosts it drained or evicted. */
  ghost function EventOf(c: Call, out: seq<string>): Event {
    match c
    case CallEnsure(h, now, alloc) => Asked(h, now, alloc)
    case CallSetState(h, state, next, now) => Outcome(h, state, next, now)
    case CallDrain(now, max, room) => Handed(now, max, forall i :: room(i), out)
    case CallGc(now, ttl, room) => Swept(now, ttl, forall i :: room(i), out)
    case CallInit(owner, alloc) => Cycle(owner, alloc)
  }

  /** Each operation of the zone is the step of the runs above that its event describes. */
  method Perform(z: Zone, c: Call) returns (out: seq<string>)
    requires z.Valid()
    modifies z
    ensures z.Valid() && Step(old(Snapshot(z)), EventOf(c, out), Snapshot(z))
  {
    hide Normal, EnsureEffect, SetStateEffect, DrainEffect, GcEffect, InitEffect, Sorted, Represents, Proper, InKeyOrder;
    out := [];
    match c
    case CallEnsure(h, now, alloc) =>
      var _ := z.Ensure(h, now, alloc);
    case CallSetState(h, state, next, now) =>
      var _ := z.SetState(h, state, next, now);
    case CallDrain(now, max, room) =>
      var r;
      r, out := z.Drain(now, max, room);
    case CallGc(now, ttl, room) =>
      var r;
      r, out := z.Gc(now, ttl, room);
    case CallInit(owner, alloc) =>
      var _ := z.Init(owner, alloc);
  }

  ghost function EventsOf(cs: seq<Call>, outs: seq<seq<string>>): (es: seq<Event>)
    requires |outs| == |cs|
    ensures |es| == |cs| && forall i :: 0 <= i < |cs| ==> es[i] == EventOf(cs[i], outs[i])
  {
    seq(|cs|, i requires 0 <= i < |cs| => EventOf(cs[i], outs[i]))
  }

  lemma {:induction false} RunGrows(rs: seq<Reg>, es: seq<Event>, e: Event, r: Reg)
    requires Run(rs, es) && Step(rs[|es|], e, r)
    ensures Run(rs + [r], es + [e])
  {
    hide Step;
  }

  /**
   Any calls, one after the other, on a zone in any state: a run, so that what
   is said about runs holds of the zone. A host that two drains hand out was
   released in between.
   */
  method PerformAll(z: Zone, cs: seq<Call>) returns (outs: seq<seq<string>>, ghost rs: seq<Reg>)
    requires z.Valid()
    modifies z
    ensures z.Valid() && |outs| == |cs| && Run(rs, EventsOf(cs, outs))
    ensures rs[0] == old(Snapshot(z)) && rs[|cs|] == Snapshot(z)
    ensures forall i, j, h :: 0 <= i < j < |cs| && cs[i].CallDrain? && cs[j].CallDrain? && h in outs[i] && h in outs[j] ==>
              exists k :: i < k < j && Releases(EventOf(cs[k], outs[k]), h)
  {
    hide Step, Releases, Sorted, Represents, Proper;
    outs, rs := [], [Snapshot(z)];
    for n := 0 to |cs|
      invariant z.Valid() && |outs| == n && Run(rs, EventsOf(cs[..n], outs))
      invariant rs[0] == old(Snapshot(z)) && rs[n] == Snapshot(z)
    {
      ghost var es := EventsOf(cs[..n], outs);
      var out := Perform(z, cs[n]);
      RunGrows(rs, es, EventOf(cs[n], out), Snapshot(z));
      assert EventsOf(cs[..n + 1], outs + [out]) == es + [EventOf(cs[n], out)];
      outs, rs := outs + [out], rs + [Snapshot(z)];
    }
    assert cs[..|cs|] == cs;
    ghost var es := EventsOf(cs, outs);
    forall i, j, h | 0 <= i < j < |cs| && cs[i].CallDrain? && cs[j].CallDrain? && h in outs[i] && h in outs[j]
      ensures exists k :: i < k < j && Releases(EventOf(cs[k], outs[k]), h)
    {
      ClaimedOnce(rs, es, i, j, h);
      var k :| i < k < j && Releases(es[k], h);
      assert Releases(EventOf(cs[k], outs[k]), h);
    }
  }

  /** A host that was asked for is not evicted until it has been idle for longer than the limit since. */
  lemma {:induction false} KeptAlive(m: Table, host: string, k: string, now: int, alloc: bool, later: int, ttl: int, m2: Table,
                                     full: bool, out: seq<string>)
    requires Normal(host) == Some(k) && (k in m || (|m| < REQUESTS_MAX && alloc)) && later - now <= ttl
    requires GcEffect(EnsureEffect(m, true, host, now, alloc).0, m2, later, ttl, full, out)
    ensures k in m2 && m2[k].lastSeen == now
    ensures k in m ==> m2[k] == m[k].(lastSeen := now) && EnsureEffect(m, true, host, now, alloc).1 == m[k].state
    ensures k !in m ==> m2[k].state == Requested && Eligible(m2[k], later) && m2[k].failCount == 0 && m2[k].firstSeen == now
  {
    hide Normal;
    assert k !in out;
  }

  /** With memory for the copies, eviction keeps exactly the hosts seen within the limit. */
  lemma {:induction false} GcExactly(m: Table, m': Table, now: int, ttl: int, out: seq<string>)
    requires GcEffect(m, m', now, ttl, true, out)
    ensures forall h :: h in m' <==> h in m && now - m[h].lastSeen <= ttl
    ensures forall h :: h in m' ==> m'[h] == m[h]
  {
    forall h | h in m && h in out
      ensures now - m[h].lastSeen > ttl
    {
      var i :| 0 <= i < |out| && out[i] == h;
      assert Idle(m[out[i]], now, ttl);
    }
  }

  /**
   When a drain takes a host after an outcome was reported for it: a requested
   one at once or when its hold is over, a failed one when its delay is over, any
   other never.
   */
  lemma {:induction false} TakenAgain(m: Table, host: string, k: string, state: State, next: int, now: int, later: int)
    requires Normal(host) == Some(k) && k in m && state != Unknown && now >= 0 && next >= 0
    ensures var m' := SetStateEffect(m, true, host, state, next, now).0;
            Eligible(m'[k], later) <==>
              match state
              case Requested => later >= next || next == 0
              case Failed => later >= if next == 0 then now + Backoff(m[k].failCount + 1) else next
              case _ => false
  {
    hide Normal, Backoff;
  }

  /** An outcome that the driver reports for a host. */
  datatype Report = Report(state: State, next: int, now: int)

  function Reported(m: Table, host: string, rs: seq<Report>): Table
    decreases |rs|
  {
    if rs == [] then m
    else
      var r := rs[|rs| - 1];
      SetStateEffect(Reported(m, host, rs[..|rs| - 1]), true, host, r.state, r.next, r.now).0
  }

  function Failures(rs: seq<Report>): nat {
    if rs == [] then 0 else Failures(rs[..|rs| - 1]) + if rs[|rs| - 1].state == Failed then 1 else 0
  }

  /**
   Over any reports the failures add up, and nothing ever takes them back, a
   success included; the last report decides the state and when the host is next
   looked at, and other hosts are left alone.
   */
  lemma {:induction false} FailuresAdd(m: Table, host: string, k: string, rs: seq<Report>)
    requires Normal(host) == Some(k) && k in m && forall i :: 0 <= i < |rs| ==> rs[i].state != Unknown
    ensures var m' := Reported(m, host, rs);
            && m'.Keys == m.Keys && (forall h :: h in m && h != k ==> m'[h] == m[h])
            && m'[k].failCount == m[k].failCount + Failures(rs)
            && (rs != [] ==>
                  var r := rs[|rs| - 1];
                  && m'[k].state == r.state && m'[k].lastSeen == r.now && m'[k].lastAttempt == r.now
                  && m'[k].nextEligible == if r.state == Failed && r.next == 0 then r.now + Backoff(m'[k].failCount) else r.next)
    decreases |rs|
  {
    hide Normal, Backoff;
    if rs != [] {
      FailuresAdd(m, host, k, rs[..|rs| - 1]);
    }
  }

  /** The delay doubles from five minutes and stops growing at a day. */
  lemma {:induction false} BackoffGrows(fails: nat)
    requires fails >= 1
    ensures Backoff(fails) <= Backoff(fails + 1) <= 2 * Backoff(fails)
    ensures fails >= 10 <==> Backoff(fails) == BACKOFF_MAX
  {
    if fails >= 10 {
      BackoffTen();
      BackoffStays(10, fails);
    } else {
      BackoffTen();
    }
  }

  lemma {:induction false} BackoffTen()
    ensures Backoff(10) == BACKOFF_MAX && Backoff(9) == 76800
    ensures forall n :: 1 <= n < 10 ==> Backoff(n) < BACKOFF_MAX
  {
    assert Backoff(2) == 600 && Backoff(3) == 1200 && Backoff(4) == 2400 && Backoff(5) == 4800;
    assert Backoff(6) == 9600 && Backoff(7) == 19200 && Backoff(8) == 38400;
  }
}
