/**
 Where a name's certificates live, and which names a handshake is served for:
 the store segment map, wildcard cover, and the gate in front of the cache.
 */
module ServeGate {
  import opened Bytes
  import opened HostName

  const WILDCARD_SEG := "_wildcard_."
  const IP6_SEG := "_ip6_"
  const IP6_SEG_LEN: nat := 5 + 8 * 4 + 7
  const SEG_MAX: nat := 288

  /** nginx's two address parsers: whether a string is an IPv4 literal, and the 16 bytes of an IPv6 one. */
  datatype Net = Net(inet4: string -> bool, inet6: string -> Option<seq<nat>>)

  /** What the parsers can be relied on for: the character set of each notation, four parts, 16 bytes. */
  ghost predicate Faithful(net: Net) {
    && (forall s: string :: net.inet4(s) ==>
          |s| >= 3 && forall i :: 0 <= i < |s| ==> IsDigit(s[i]) || s[i] == '.')
    && (forall s: string :: net.inet6(s).Some? ==>
          |net.inet6(s).value| == 16 && forall i :: 0 <= i < 16 ==> net.inet6(s).value[i] < 256)
    && (forall s: string :: net.inet6(s).Some? ==>
          |s| >= 2 && forall i :: 0 <= i < |s| ==> IsHex(s[i]) || s[i] == ':' || s[i] == '.')
  }

  predicate IsIpv6(net: Net, name: string) { !net.inet4(name) && net.inet6(name).Some? }

  predicate IsIp(net: Net, name: string) { net.inet4(name) || net.inet6(name).Some? }

  /** What configuration accepts as a name to issue for. */
  predicate Issuable(net: Net, name: string) { IsIp(net, name) || DnsName(name) }

  // ------------------------------------------------------------- the segment

  /** One group of an address as four hexadecimal digits. */
  function Group(v: nat): (s: string)
    requires v < 0x10000
    ensures |s| == 4
  {
    [HexDigit(v / 0x1000), HexDigit(v / 0x100 % 16), HexDigit(v / 0x10 % 16), HexDigit(v % 16)]
  }

  predicate Address(b: seq<nat>) { |b| == 16 && forall i :: 0 <= i < 16 ==> b[i] < 256 }

  function Word(b: seq<nat>, i: nat): (v: nat)
    requires Address(b) && i < 8
    ensures v < 0x10000
  {
    b[i * 2] * 256 + b[i * 2 + 1]
  }

  /** The first `n` groups, separated by hyphens. */
  function Groups(b: seq<nat>, n: nat): (s: string)
    requires Address(b) && n <= 8
    ensures |s| == if n == 0 then 0 else 5 * n - 1
  {
    if n == 0 then ""
    else if n == 1 then Group(Word(b, 0))
    else Groups(b, n - 1) + "-" + Group(Word(b, n - 1))
  }

  function Segment(net: Net, name: string): string
    requires Faithful(net)
  {
    if IsWildcard(name) then WILDCARD_SEG + name[2..]
    else if IsIpv6(net, name) then IP6_SEG + Groups(net.inet6(name).value, 8)
    else name
  }

  lemma {:induction false} Address6(net: Net, name: string)
    requires Faithful(net) && net.inet6(name).Some?
    ensures Address(net.inet6(name).value)
  {
  }

  /** Copies `s` into `buf` at `p`. */
  method Copy(buf: array<char>, p: nat, s: string) returns (q: nat)
    requires p + |s| <= buf.Length
    modifies buf
    ensures q == p + |s| && buf[..q] == old(buf[..p]) + s && buf[q..] == old(buf[q..])
  {
    forall k | 0 <= k < |s| {
      buf[p + k] := s[k];
    }
    q := p + |s|;
  }

  /** Writes the segment into the first `cap` bytes of `buf`; 0 when it does not fit. */
  method FsSegment(net: Net, name: string, buf: array<char>, cap: nat) returns (n: nat)
    requires Faithful(net) && cap <= buf.Length
    modifies buf
    ensures n == if |Segment(net, name)| <= cap then |Segment(net, name)| else 0
    ensures n != 0 ==> buf[..n] == Segment(net, name)
    ensures buf[cap..] == old(buf[cap..])
  {
    hide Groups, Faithful;
    if IsWildcard(name) {
      var need := |WILDCARD_SEG| + (|name| - 2);
      if need > cap {
        return 0;
      }
      var p := Copy(buf, 0, WILDCARD_SEG);
      p := Copy(buf, p, name[2..]);
      Later(buf[..], old(buf[..]), p, cap);
      return need;
    }
    if !net.inet4(name) && net.inet6(name).Some? {
      if IP6_SEG_LEN > cap {
        return 0;
      }
      Address6(net, name);
      n := Ip6Segment(net.inet6(name).value, buf);
      Later(buf[..], old(buf[..]), n, cap);
      return n;
    }
    if |name| > cap {
      return 0;
    }
    n := Copy(buf, 0, name);
    Later(buf[..], old(buf[..]), n, cap);
  }

  lemma {:induction false} Later(now: seq<char>, before: seq<char>, q: nat, cap: nat)
    requires |now| == |before| && q <= cap <= |now| && now[q..] == before[q..]
    ensures now[cap..] == before[cap..]
  {
    assert now[cap..] == now[q..][cap - q..] && before[cap..] == before[q..][cap - q..];
  }

  /** The eight groups of an address behind the prefix. */
  method Ip6Segment(b: seq<nat>, buf: array<char>) returns (n: nat)
    requires Address(b) && IP6_SEG_LEN <= buf.Length
    modifies buf
    ensures n == IP6_SEG_LEN && buf[..n] == IP6_SEG + Groups(b, 8) && buf[n..] == old(buf[n..])
  {
    hide Group, Word;
    var p := Copy(buf, 0, IP6_SEG);
    var i := 0;
    while i < 8
      invariant 0 <= i <= 8 && p == |IP6_SEG| + |Groups(b, i)|
      invariant buf[..p] == IP6_SEG + Groups(b, i)
      invariant buf[p..] == old(buf[p..])
    {
      ghost var before := buf[..];
      if i != 0 {
        p := Copy(buf, p, "-");
      }
      p := Copy(buf, p, Group(Word(b, i)));
      Later(before, old(buf[..]), |IP6_SEG| + |Groups(b, i)|, p);
      Later(before, before, |IP6_SEG| + |Groups(b, i)|, p);
      i := i + 1;
    }
    n := p;
  }

  // -------------------------------------------------------------- injectivity

  lemma {:induction false} SameEnds(a: string, x: string, b: string, y: string)
    requires a + x == b + y && |x| == |y|
    ensures a == b && x == y
  {
    assert |a| == |b|;
    assert a == (a + x)[..|a|] && b == (b + y)[..|b|];
    assert x == (a + x)[|a|..] && y == (b + y)[|b|..];
  }

  lemma {:induction false} GroupsSame(a: seq<nat>, b: seq<nat>, n: nat)
    requires Address(a) && Address(b) && n <= 8 && Groups(a, n) == Groups(b, n)
    ensures forall k :: 0 <= k < n ==> Word(a, k) == Word(b, k)
    decreases n
  {
    hide Group, Word;
    if n == 1 {
      GroupSame(Word(a, 0), Word(b, 0));
    } else if n > 1 {
      SameEnds(Groups(a, n - 1) + "-", Group(Word(a, n - 1)), Groups(b, n - 1) + "-", Group(Word(b, n - 1)));
      GroupSame(Word(a, n - 1), Word(b, n - 1));
      SameEnds(Groups(a, n - 1), "-", Groups(b, n - 1), "-");
      GroupsSame(a, b, n - 1);
    }
  }

  lemma {:induction false} WordsSame(a: seq<nat>, b: seq<nat>)
    requires Address(a) && Address(b) && forall k :: 0 <= k < 8 ==> Word(a, k) == Word(b, k)
    ensures a == b
  {
    forall i | 0 <= i < 16 ensures a[i] == b[i] {
      assert Word(a, i / 2) == Word(b, i / 2);
      assert i == i / 2 * 2 || i == i / 2 * 2 + 1;
    }
  }

  lemma {:induction false} GroupSame(v: nat, w: nat)
    requires v < 0x10000 && w < 0x10000 && Group(v) == Group(w)
    ensures v == w
  {
    GroupValue(v);
    GroupValue(w);
  }

  lemma {:induction false} GroupValue(v: nat)
    requires v < 0x10000
    ensures var s := Group(v); v == HexValue(s[0]) * 0x1000 + HexValue(s[1]) * 0x100 + HexValue(s[2]) * 0x10 + HexValue(s[3])
  {
    assert v / 0x10 == v / 0x100 * 0x10 + v / 0x10 % 16;
    assert v / 0x100 == v / 0x1000 * 0x10 + v / 0x100 % 16;
  }

  /** The three kinds of name give segments that cannot be confused. */
  lemma {:induction false} SegmentStart(net: Net, name: string)
    requires Faithful(net) && Issuable(net, name)
    ensures var s := Segment(net, name);
            if IsWildcard(name) then |s| > 1 && s[0] == '_' && s[1] == 'w' && !IsIp(net, name)
            else if IsIpv6(net, name) then |s| > 1 && s[0] == '_' && s[1] == 'i'
            else s == name && |s| > 0 && s[0] != '_' && (net.inet4(name) || Name(name))
  {
    hide Name, Groups;
    if !IsIp(net, name) && !IsWildcard(name) {
      NameBytes(name);
      NotWildcard(name);
    }
  }

  /** One directory per name: only spellings of the same IPv6 address share a segment. */
  lemma {:induction false} SegmentInjective(net: Net, a: string, b: string)
    requires Faithful(net) && Issuable(net, a) && Issuable(net, b)
    ensures Segment(net, a) == Segment(net, b) <==>
            a == b || (IsIpv6(net, a) && IsIpv6(net, b) && net.inet6(a) == net.inet6(b))
  {
    SegmentStart(net, a);
    SegmentStart(net, b);
    hide Issuable, Groups, Name;
    if Segment(net, a) == Segment(net, b) {
      if IsWildcard(a) {
        assert a[2..] == Segment(net, a)[|WILDCARD_SEG|..] && b[2..] == Segment(net, b)[|WILDCARD_SEG|..];
        assert a == "*." + a[2..] && b == "*." + b[2..];
      } else if IsIpv6(net, a) {
        var x, y := net.inet6(a).value, net.inet6(b).value;
        assert Groups(x, 8) == Segment(net, a)[|IP6_SEG|..] && Groups(y, 8) == Segment(net, b)[|IP6_SEG|..];
        GroupsSame(x, y, 8);
        WordsSame(x, y);
      }
    }
  }

  /** A path component that stays in its directory. */
  predicate SafeComponent(s: string) {
    s != "" && s != "." && s != ".." && forall i :: 0 <= i < |s| ==> s[i] != '/' && s[i] != 0 as char && s[i] != '\\'
  }

  /** Four hexadecimal digits spell the two bytes, the higher one first. */
  predicate Spells(s: string, high: nat, low: nat) {
    && |s| == 4 && IsHex(s[0]) && IsHex(s[1]) && IsHex(s[2]) && IsHex(s[3])
    && HexValue(s[0]) * 0x1000 + HexValue(s[1]) * 0x100 + HexValue(s[2]) * 0x10 + HexValue(s[3]) == 0x100 * high + low
  }

  lemma {:induction false} GroupSpells(b: seq<nat>, k: nat)
    requires Address(b) && k < 8
    ensures Spells(Group(Word(b, k)), b[2 * k], b[2 * k + 1])
  {
    GroupValue(Word(b, k));
  }

  lemma {:induction false} GroupsAt(b: seq<nat>, n: nat, k: nat)
    requires Address(b) && k < n <= 8
    ensures Groups(b, n)[5 * k..5 * k + 4] == Group(Word(b, k))
    ensures k + 1 < n ==> Groups(b, n)[5 * k + 4] == '-'
  {
    hide Group, Word;
    var g := Groups(b, n);
    if n == 1 {
      assert g[0..4] == g;
    } else {
      var front, last := Groups(b, n - 1), Group(Word(b, n - 1));
      assert g == front + "-" + last && |front| == 5 * n - 6;
      if k == n - 1 {
        assert g[5 * k..5 * k + 4] == last;
      } else {
        GroupsAt(b, n - 1, k);
        assert g[5 * k..5 * k + 4] == front[5 * k..5 * k + 4];
      }
    }
  }

  /** Where a name's files are: wildcards and IPv6 addresses are rewritten, all else stands for itself. */
  lemma {:induction false} SegmentSpells(net: Net, name: string)
    requires Faithful(net)
    ensures IsWildcard(name) ==> Segment(net, name) == "_wildcard_" + name[1..]
    ensures !IsWildcard(name) && !IsIpv6(net, name) ==> Segment(net, name) == name
    ensures !IsWildcard(name) && IsIpv6(net, name) ==>
              var b, s := net.inet6(name).value, Segment(net, name);
              && |s| == 44 && s[..5] == "_ip6_" && Address(b)
              && forall k :: 0 <= k < 8 ==> GroupIn(s, b, k)
  {
    if IsWildcard(name) {
      assert name[1..] == "." + name[2..];
    } else if IsIpv6(net, name) {
      Address6(net, name);
      Ip6Spells(net.inet6(name).value);
    }
    hide Groups, GroupIn, Faithful;
  }

  /** Group `k` of an IPv6 segment spells bytes 2k and 2k + 1, and a hyphen follows it unless it is the last. */
  predicate GroupIn(s: string, b: seq<nat>, k: nat)
    requires |s| == 44 && |b| == 16 && k < 8
  {
    Spells(s[5 + 5 * k..5 + 5 * k + 4], b[2 * k], b[2 * k + 1]) && (k < 7 ==> s[5 + 5 * k + 4] == '-')
  }

  lemma {:induction false} Ip6Spells(b: seq<nat>)
    requires Address(b)
    ensures |IP6_SEG + Groups(b, 8)| == 44 && (IP6_SEG + Groups(b, 8))[..5] == "_ip6_"
    ensures forall k :: 0 <= k < 8 ==> GroupIn(IP6_SEG + Groups(b, 8), b, k)
  {
    hide Group, Groups, Word, Spells;
    var s := IP6_SEG + Groups(b, 8);
    forall k | 0 <= k < 8
      ensures GroupIn(s, b, k)
    {
      GroupsAt(b, 8, k);
      GroupSpells(b, k);
      assert s[5 + 5 * k..5 + 5 * k + 4] == Groups(b, 8)[5 * k..5 * k + 4];
    }
  }

  lemma {:induction false} GroupsSafe(b: seq<nat>, n: nat)
    requires Address(b) && n <= 8
    ensures forall i :: 0 <= i < |Groups(b, n)| ==> IsHex(Groups(b, n)[i]) || Groups(b, n)[i] == '-'
    decreases n
  {
    hide Word;
    if n > 1 {
      GroupsSafe(b, n - 1);
    }
  }

  /** Every issuable name gets a segment that fits the callers' buffer and cannot leave the store. */
  lemma {:induction false} SegmentSafe(net: Net, name: string)
    requires Faithful(net) && Issuable(net, name) && |name| <= NAME_MAX
    ensures 0 < |Segment(net, name)| <= SEG_MAX && SafeComponent(Segment(net, name))
  {
    hide Name, Groups, Faithful, SafeComponent, DnsName, Group;
    if IsWildcard(name) {
      SegmentStart(net, name);
      WildcardSafe(net, name);
    } else if IsIpv6(net, name) {
      Address6(net, name);
      Ip6Safe(net.inet6(name).value);
    } else {
      PlainNameSafe(net, name);
    }
  }

  lemma {:induction false} WildcardSafe(net: Net, name: string)
    requires IsWildcard(name) && DnsName(name)
    ensures SafeComponent(WILDCARD_SEG + name[2..])
  {
    hide Name;
    assert Base(name) == name[2..];
    NameBytes(name[2..]);
    PlainSafe(name[2..]);
    JoinedSafe(WILDCARD_SEG, name[2..]);
  }

  lemma {:induction false} Ip6Safe(b: seq<nat>)
    requires Address(b)
    ensures SafeComponent(IP6_SEG + Groups(b, 8))
  {
    hide Groups;
    GroupsSafe(b, 8);
    PlainSafe(Groups(b, 8));
    JoinedSafe(IP6_SEG, Groups(b, 8));
  }

  lemma {:induction false} PlainNameSafe(net: Net, name: string)
    requires Faithful(net) && !IsWildcard(name) && (net.inet4(name) || DnsName(name))
    ensures name != "" && SafeComponent(name)
  {
    hide Name, Faithful;
    if net.inet4(name) {
      Address4(net, name);
    } else {
      NotWildcard(name);
      NameBytes(name);
    }
    PlainSafe(name);
  }

  /** No byte that means something in a path. */
  predicate Plain(s: string) {
    forall i :: 0 <= i < |s| ==> s[i] != '/' && s[i] != 0 as char && s[i] != '\\'
  }

  lemma {:induction false} PlainSafe(s: string)
    requires forall i :: 0 <= i < |s| ==> IsLdh(s[i]) || IsHex(s[i]) || s[i] == '-' || s[i] == '.'
    ensures Plain(s)
  {
  }

  lemma {:induction false} JoinedSafe(prefix: string, s: string)
    requires Plain(prefix) && Plain(s) && |prefix| > 2
    ensures SafeComponent(prefix + s)
  {
  }

  lemma {:induction false} Address4(net: Net, name: string)
    requires Faithful(net) && net.inet4(name)
    ensures |name| >= 3 && forall i :: 0 <= i < |name| ==> IsDigit(name[i]) || name[i] == '.'
  {
  }

  // ------------------------------------------------------------------- cover

  /** Whether configured name `name`, perhaps a wildcard, covers `host`. */
  function Covers(name: string, host: string): bool {
    if EqualFold(name, host) then true
    else if |name| <= 2 || !IsWildcard(name) then false
    else
      var d := FirstDot(host);
      if d == |host| || d == 0 then false
      else EqualFold(host[d + 1..], name[2..])
  }

  /** `name` is "*." and `rest`, and `host` has one label, `first`, in place of the star. */
  predicate Unfolds(name: string, host: string, first: string, rest: string) {
    first != "" && '.' !in first && rest != "" && host == first + ("." + rest) && EqualFold(name, "*." + rest)
  }

  /** A wildcard stands for exactly one non-empty label in front of a non-empty rest. */
  lemma {:induction false} CoversMeans(name: string, host: string)
    ensures Covers(name, host) <==>
            || EqualFold(name, host)
            || exists first, rest :: Unfolds(name, host, first, rest)
  {
    hide EqualFold;
    var d := FirstDot(host);
    if Covers(name, host) && !EqualFold(name, host) {
      var first, rest := host[..d], host[d + 1..];
      assert host == first + ("." + rest);
      FoldSize(rest, name[2..]);
      StarFold(name, rest);
      assert Unfolds(name, host, first, rest);
    }
    forall first, rest | Unfolds(name, host, first, rest)
      ensures Covers(name, host)
    {
      DotBehind(first, rest);
      StarFold(name, rest);
    }
  }

  lemma {:induction false} FoldSize(a: string, b: string)
    requires EqualFold(a, b)
    ensures |a| == |b|
  {
  }

  lemma {:induction false} DotBehind(first: string, rest: string)
    requires '.' !in first
    ensures var s := first + ("." + rest); FirstDot(s) == |first| && s[|first| + 1..] == rest
  {
    var s := first + ("." + rest);
    assert s[|first|] == '.';
    assert forall i :: 0 <= i < |first| ==> s[i] == first[i];
  }

  lemma {:induction false} StarFold(name: string, rest: string)
    ensures EqualFold(name, "*." + rest) <==> |name| == |rest| + 2 && IsWildcard(name) && EqualFold(rest, name[2..])
  {
    var w := "*." + rest;
    if |name| == |w| {
      StarLower(name[0], '*');
      StarLower(name[1], '.');
      assert forall i :: 2 <= i < |w| ==> w[i] == rest[i - 2];
      if EqualFold(name, w) {
        assert forall i :: 0 <= i < |rest| ==> name[2..][i] == name[i + 2] && Lower(name[i + 2]) == Lower(w[i + 2]);
      }
      if IsWildcard(name) && EqualFold(rest, name[2..]) {
        forall i | 2 <= i < |w| ensures Lower(name[i]) == Lower(w[i]) {
          assert Lower(rest[i - 2]) == Lower(name[2..][i - 2]);
        }
      }
    }
  }

  lemma {:induction false} StarLower(c: char, d: char)
    requires !('a' <= d <= 'z' || 'A' <= d <= 'Z')
    ensures Lower(c) == Lower(d) <==> c == d
  {
  }

  // -------------------------------------------------------------------- gate

  /** What the handshake does for a host: the directory it serves from, or the bootstrap certificate. */
  datatype Answer = Bootstrap | Serve(key: string)

  predicate IsLower(s: string) { LowerAll(s) == s }

  /** The one wildcard name that could cover a concrete host. */
  function Parent(host: string): Option<string> {
    var d := FirstDot(host);
    if 0 < d && d + 1 < |host| then Some("*." + host[d + 1..]) else None
  }

  /** A linear scan of the configured names. */
  method NameMatch(names: seq<string>, name: string) returns (found: bool)
    ensures found <==> name in names
  {
    var i := 0;
    while i < |names|
      invariant 0 <= i <= |names| && name !in names[..i]
    {
      if names[i] == name {
        return true;
      }
      i := i + 1;
    }
    found := false;
  }

  /** The gate, on a lower-cased server name; `issued` is the runtime registry's word on the host. */
  method Gate(net: Net, names: Option<seq<string>>, host: string, issued: bool, keyBuf: array<char>) returns (r: Answer)
    requires Faithful(net) && 0 < |host| <= 255 && keyBuf.Length == SEG_MAX
    modifies keyBuf
    ensures r == GateAnswer(net, names, host, issued)
  {
    hide Faithful, Segment;
    var store := host;
    SegmentSize(net, host);
    if net.inet4(host) || net.inet6(host).Some? {
      var n := FsSegment(net, host, keyBuf, keyBuf.Length);
      if n != 0 {
        store := keyBuf[..n];
      }
    }
    if names.Some? {
      var exact := NameMatch(names.value, host);
      if !exact {
        var matched := false;
        var dot := FirstDot(host);
        if dot < |host| && dot > 0 && dot + 1 < |host| {
          var wc := "*." + host[dot + 1..];
          if |wc| <= 256 {
            var found := NameMatch(names.value, wc);
            if found {
              SegmentSize(net, wc);
              var n := FsSegment(net, wc, keyBuf, keyBuf.Length);
              if n != 0 {
                store := keyBuf[..n];
                matched := true;
              }
            }
          }
        }
        if !matched && issued {
          matched := true;
        }
        if !matched {
          return Bootstrap;
        }
      }
    }
    r := Serve(store);
  }

  /** An address is served from its segment, any other host from its own name. */
  function OwnKey(net: Net, host: string): string
    requires Faithful(net)
  {
    if IsIp(net, host) then Segment(net, host) else host
  }

  function GateAnswer(net: Net, names: Option<seq<string>>, host: string, issued: bool): Answer
    requires Faithful(net)
  {
    if names.None? || host in names.value then Serve(OwnKey(net, host))
    else if Parent(host).Some? && Parent(host).value in names.value then Serve(Segment(net, Parent(host).value))
    else if issued then Serve(OwnKey(net, host))
    else Bootstrap
  }

  lemma {:induction false} SegmentSize(net: Net, name: string)
    requires Faithful(net) && 0 < |name| <= 257
    ensures 0 < |Segment(net, name)| <= SEG_MAX
  {
  }

  /** For lower-case names and a concrete lower-case host, covering is what the two lookups find. */
  lemma {:induction false} CoveredBy(name: string, host: string)
    requires IsLower(name) && IsLower(host) && !IsWildcard(host)
    ensures Covers(name, host) <==> name == host || Parent(host) == Some(name)
  {
    LowerSame(name, host);
    var d := FirstDot(host);
    if d + 1 < |host| && |name| > 2 {
      SliceLower(host, d + 1);
      SliceLower(name, 2);
      LowerSame(host[d + 1..], name[2..]);
      assert IsWildcard(name) ==> name == "*." + name[2..];
      assert ("*." + host[d + 1..])[2..] == host[d + 1..];
    }
  }

  lemma {:induction false} LowerSame(a: string, b: string)
    requires IsLower(a) && IsLower(b)
    ensures EqualFold(a, b) <==> a == b
  {
    if EqualFold(a, b) {
      assert forall i :: 0 <= i < |a| ==> a[i] == LowerAll(a)[i] == LowerAll(b)[i] == b[i];
    }
  }

  lemma {:induction false} SliceLower(s: string, i: nat)
    requires IsLower(s) && i <= |s|
    ensures IsLower(s[i..])
  {
    assert LowerAll(s[i..]) == LowerAll(s)[i..];
  }

  /**
   The gate serves a concrete host exactly when a configured name covers it, or
   the registry issued it; and from the directory of a name that covers it, the
   exact one first.
   */
  lemma {:induction false} GateServesCovered(net: Net, names: seq<string>, host: string, issued: bool)
    requires Faithful(net) && IsLower(host) && !IsWildcard(host)
    requires forall i :: 0 <= i < |names| ==> IsLower(names[i])
    ensures var r := GateAnswer(net, Some(names), host, issued);
            && (r.Serve? <==> issued || exists i :: 0 <= i < |names| && Covers(names[i], host))
            && ((exists i :: 0 <= i < |names| && Covers(names[i], host)) ==>
                  exists i :: 0 <= i < |names| && Covers(names[i], host) && r == Serve(Segment(net, names[i]))
                              && (host in names ==> names[i] == host))
  {
    hide Covers, Segment, Faithful, Parent, IsLower;
    forall i | 0 <= i < |names| ensures Covers(names[i], host) <==> names[i] == host || Parent(host) == Some(names[i]) {
      CoveredBy(names[i], host);
    }
    OwnSegment(net, host);
    if host in names {
      var i :| 0 <= i < |names| && names[i] == host;
      assert Covers(names[i], host);
    } else if Parent(host).Some? && Parent(host).value in names {
      var i :| 0 <= i < |names| && names[i] == Parent(host).value;
      assert Covers(names[i], host);
    }
  }

  lemma {:induction false} OwnSegment(net: Net, host: string)
    requires Faithful(net) && !IsWildcard(host)
    ensures OwnKey(net, host) == Segment(net, host)
  {
  }
}
