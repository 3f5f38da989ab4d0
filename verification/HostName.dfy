/**
 Host names: the grammar of a DNS name, the config-time validator, the
 normalizer of the runtime registry and the order's last check, and how the
 three agree.
 */
module HostName {
  import opened Bytes

  const NAME_MAX: nat := 253
  const LABEL_MAX: nat := 63

  // ----------------------------------------------------------------- grammar

  predicate IsLdh(c: char) {
    IsDigit(c) || 'a' <= c <= 'z' || 'A' <= c <= 'Z' || c == '-'
  }

  /** Section 2.3.1 of RFC 1035 with the digits of section 2.1 of RFC 1123. */
  predicate Label(l: string) {
    && 0 < |l| <= LABEL_MAX && l[0] != '-' && l[|l| - 1] != '-'
    && forall i :: 0 <= i < |l| ==> IsLdh(l[i])
  }

  /** Where the first dot stands; the length when there is none. */
  function FirstDot(s: string): (d: nat)
    ensures d <= |s| && (d < |s| ==> s[d] == '.')
    ensures forall i :: 0 <= i < d ==> s[i] != '.'
  {
    if s == "" || s[0] == '.' then 0 else 1 + FirstDot(s[1..])
  }

  /** Labels separated by single dots. */
  predicate Name(s: string)
    decreases |s|
  {
    var d := FirstDot(s);
    Label(s[..d]) && (d < |s| ==> Name(s[d + 1..]))
  }

  predicate IsWildcard(name: string) { |name| >= 2 && name[0] == '*' && name[1] == '.' }

  function Base(name: string): string { if IsWildcard(name) then name[2..] else name }

  /** An issuable name: at most 253 bytes in all, a leading "*." allowed. */
  predicate DnsName(name: string) { |name| <= NAME_MAX && Name(Base(name)) }

  /** One to three digits, at most 255. */
  predicate Octet(s: string) { 0 < |s| <= 3 && AllDigits(s) && DecimalValue(s) <= 255 }

  predicate Octets(s: string, n: nat)
    decreases n
  {
    var d := FirstDot(s);
    if n == 0 then false
    else if n == 1 then d == |s| && Octet(s)
    else d < |s| && Octet(s[..d]) && Octets(s[d + 1..], n - 1)
  }

  predicate DottedQuad(s: string) { Octets(s, 4) }

  /** The host names the runtime registry takes. */
  predicate Requestable(host: string) { |host| <= NAME_MAX && Name(host) && !DottedQuad(host) }

  // ------------------------------------------------------------ loop progress

  /** A label read so far: everything from `start` to `i`, no dot, nothing wrong with it yet. */
  predicate Partial(s: string, start: nat, i: nat) {
    && start <= i <= |s| && i - start <= LABEL_MAX
    && (start < i ==> s[start] != '-')
    && forall k :: start <= k < i ==> IsLdh(s[k])
  }

  lemma {:induction false} DotAt(s: string, start: nat, i: nat)
    requires start <= i <= |s| && (forall k :: start <= k < i ==> s[k] != '.') && (i == |s| || s[i] == '.')
    ensures FirstDot(s[start..]) == i - start
    decreases i - start
  {
    var t := s[start..];
    if start < i {
      assert t[0] == s[start] && t[1..] == s[start + 1..];
      DotAt(s, start + 1, i);
    } else if i < |s| {
      assert t[0] == s[i];
    }
  }

  /** At a dot, or at the end, the partial label decides. */
  lemma {:induction false} LabelEnds(s: string, start: nat, i: nat)
    requires Partial(s, start, i) && (i == |s| || s[i] == '.')
    ensures Name(s[start..]) <==> start < i && s[i - 1] != '-' && (i < |s| ==> Name(s[i + 1..]))
  {
    assert forall k :: start <= k < i ==> IsLdh(s[k]) && s[k] != '.';
    DotAt(s, start, i);
    var t := s[start..];
    assert t[..i - start] == s[start..i];
    if i < |s| {
      assert t[i - start + 1..] == s[i + 1..];
    }
  }

  /** A byte that cannot be in this label refuses the name. */
  lemma {:induction false} LabelBreaks(s: string, start: nat, i: nat)
    requires Partial(s, start, i) && i < |s| && s[i] != '.'
    requires !IsLdh(s[i]) || (i == start && s[i] == '-') || i - start == LABEL_MAX
    ensures !Name(s[start..])
  {
    var t := s[start..];
    var d := FirstDot(t);
    assert t[i - start] == s[i];
    assert forall k :: start <= k < i ==> t[k - start] == s[k] && IsLdh(s[k]);
    assert d < |t| ==> t[d] == s[start + d];
    assert d > i - start;
    assert t[..d][i - start] == s[i];
  }

  /** A byte that continues the label. */
  lemma {:induction false} LabelGoesOn(s: string, start: nat, i: nat)
    requires Partial(s, start, i) && i < |s|
    requires IsLdh(s[i]) && !(i == start && s[i] == '-') && i - start < LABEL_MAX
    ensures Partial(s, start, i + 1)
  {
  }

  lemma {:induction false} LabelStarts(s: string, i: nat)
    requires i <= |s|
    ensures Partial(s, i, i)
    ensures !Name("")
  {
  }

  // --------------------------------------------------------- config validator

  /** The config-time check of an issuable name. */
  method DnsNameValid(name: string) returns (ok: bool)
    ensures ok <==> DnsName(name)
  {
    hide Name, Partial, IsLdh;
    LabelStarts(name, 0);
    var p := if IsWildcard(name) then 2 else 0;
    LabelStarts(name, p);
    assert Base(name) == name[p..];
    if p >= |name| || |name| > NAME_MAX {
      return false;
    }
    var i, len: nat := p, 0;
    while i < |name|
      invariant p <= i <= |name| && len <= i - p && len <= LABEL_MAX && Partial(name, i - len, i)
      invariant Name(Base(name)) <==> Name(name[i - len..])
    {
      if name[i] == '.' {
        LabelEnds(name, i - len, i);
        if len == 0 || name[i - 1] == '-' {
          return false;
        }
        LabelStarts(name, i + 1);
        len := 0;
      } else {
        if !IsLdh(name[i]) || (name[i] == '-' && len == 0) || len == LABEL_MAX {
          LabelBreaks(name, i - len, i);
          return false;
        }
        LabelGoesOn(name, i - len, i);
        len := len + 1;
      }
      i := i + 1;
    }
    LabelEnds(name, i - len, i);
    return len != 0 && name[i - 1] != '-';
  }

  // -------------------------------------------------------------- dotted quad

  /** A part of a dotted quad read so far, and its value. */
  predicate PartialOctet(s: string, start: nat, i: nat, v: nat) {
    start <= i <= |s| && i - start <= 3 && AllDigits(s[start..i]) && DecimalValue(s[start..i]) == v <= 255
  }

  lemma {:induction false} OctetEnds(s: string, start: nat, i: nat, v: nat, n: nat)
    requires PartialOctet(s, start, i, v) && (i == |s| || s[i] == '.') && n > 0
    ensures Octets(s[start..], n) <==> start < i && if i == |s| then n == 1 else n > 1 && Octets(s[i + 1..], n - 1)
  {
    assert forall k :: start <= k < i ==> s[k] == s[start..i][k - start] && IsDigit(s[k]);
    DotAt(s, start, i);
    var t := s[start..];
    assert t[..i - start] == s[start..i];
    if i < |s| {
      assert t[i - start + 1..] == s[i + 1..];
    } else {
      assert t == s[start..i];
    }
  }

  lemma {:induction false} NotOctet(o: string, k: nat)
    requires k < |o| && AllDigits(o[..k])
    requires !IsDigit(o[k]) || k == 3 || 10 * DecimalValue(o[..k]) + DigitValue(o[k]) > 255
    ensures !Octet(o)
  {
    if AllDigits(o) {
      PrefixSmaller(o, k + 1);
      assert o[..k + 1][..k] == o[..k];
    }
  }

  /** A byte that cannot continue this part refuses the quad. */
  lemma {:induction false} OctetBreaks(s: string, start: nat, i: nat, v: nat, n: nat)
    requires PartialOctet(s, start, i, v) && i < |s| && s[i] != '.'
    requires !IsDigit(s[i]) || i - start == 3 || 10 * v + DigitValue(s[i]) > 255
    ensures !Octets(s[start..], n)
  {
    var t := s[start..];
    var d := FirstDot(t);
    var o := t[..d];
    assert forall k :: start <= k < i ==> s[k] == s[start..i][k - start] == t[k - start] && IsDigit(s[k]);
    assert t[i - start] == s[i];
    assert d < |t| ==> t[d] == s[start + d];
    assert d > i - start;
    assert o[i - start] == s[i] && o[..i - start] == s[start..i];
    NotOctet(o, i - start);
    assert d == |t| ==> o == t;
  }

  lemma {:induction false} OctetGoesOn(s: string, start: nat, i: nat, v: nat)
    requires PartialOctet(s, start, i, v) && i < |s| && IsDigit(s[i]) && i - start < 3 && 10 * v + DigitValue(s[i]) <= 255
    ensures PartialOctet(s, start, i + 1, 10 * v + DigitValue(s[i]))
  {
    var t := s[start..i + 1];
    assert t[..|t| - 1] == s[start..i] && t[|t| - 1] == s[i];
    assert forall k :: 0 <= k < i - start ==> t[k] == s[start..i][k];
  }

  lemma {:induction false} OctetStarts(s: string, i: nat)
    requires i <= |s|
    ensures PartialOctet(s, i, i, 0)
  {
    assert s[i..i] == "";
  }

  /** Whether a lower-cased name has the shape of an IPv4 address. */
  method IsIpv4(s: string) returns (ok: bool)
    ensures ok <==> DottedQuad(s)
  {
    hide Octets, PartialOctet;
    var octet: nat, digits: nat, dots: nat, i: nat := 0, 0, 0, 0;
    assert s[0..] == s;
    OctetStarts(s, 0);
    while i < |s|
      invariant i <= |s| && digits <= i && digits <= 3 && PartialOctet(s, i - digits, i, octet)
      invariant DottedQuad(s) <==> dots <= 3 && Octets(s[i - digits..], 4 - dots)
    {
      if s[i] == '.' {
        if dots <= 3 {
          OctetEnds(s, i - digits, i, octet, 4 - dots);
        }
        if digits == 0 {
          return false;
        }
        OctetStarts(s, i + 1);
        dots, octet, digits := dots + 1, 0, 0;
      } else {
        if !IsDigit(s[i]) {
          Refused(s, i - digits, i, octet, dots);
          return false;
        }
        if digits == 3 || octet * 10 + DigitValue(s[i]) > 255 {
          Refused(s, i - digits, i, octet, dots);
        } else {
          OctetGoesOn(s, i - digits, i, octet);
        }
        octet := octet * 10 + DigitValue(s[i]);
        digits := digits + 1;
        if digits > 3 || octet > 255 {
          return false;
        }
      }
      i := i + 1;
    }
    if dots <= 3 {
      OctetEnds(s, i - digits, i, octet, 4 - dots);
    }
    return dots == 3 && digits > 0;
  }

  lemma {:induction false} Refused(s: string, start: nat, i: nat, v: nat, dots: nat)
    requires PartialOctet(s, start, i, v) && i < |s| && s[i] != '.'
    requires !IsDigit(s[i]) || i - start == 3 || 10 * v + DigitValue(s[i]) > 255
    ensures !(dots <= 3 && Octets(s[start..], 4 - dots))
  {
    if dots <= 3 {
      OctetBreaks(s, start, i, v, 4 - dots);
    }
  }

  // --------------------------------------------------------------- normalizer

  /** The key a requested host is stored and looked up under. */
  function Normal(host: string): Option<string> {
    if Requestable(LowerAll(host)) then Some(LowerAll(host)) else None
  }

  /** Lower-casing commutes with everything the grammar looks at. */
  lemma {:induction false} LowerName(s: string)
    ensures Name(LowerAll(s)) <==> Name(s)
    decreases |s|
  {
    var t, d := LowerAll(s), FirstDot(s);
    LowerDot(s);
    assert t[..d] == LowerAll(s[..d]);
    LowerLabel(s[..d]);
    if d < |s| {
      LowerName(s[d + 1..]);
      assert t[d + 1..] == LowerAll(s[d + 1..]);
    }
  }

  lemma {:induction false} LowerDot(s: string)
    ensures FirstDot(LowerAll(s)) == FirstDot(s)
  {
    if s != "" && s[0] != '.' {
      LowerDot(s[1..]);
      assert LowerAll(s)[1..] == LowerAll(s[1..]);
    }
  }

  lemma {:induction false} LowerLabel(l: string)
    ensures Label(LowerAll(l)) <==> Label(l)
  {
    assert forall c :: IsLdh(Lower(c)) <==> IsLdh(c);
    var t := LowerAll(l);
    assert forall i :: 0 <= i < |l| ==> (IsLdh(t[i]) <==> IsLdh(l[i]));
    assert forall i :: 0 <= i < |l| ==> (t[i] == '-' <==> l[i] == '-');
  }

  lemma {:induction false} LowerTwice(s: string)
    ensures LowerAll(LowerAll(s)) == LowerAll(s)
  {
  }

  lemma {:induction false} LowerQuad(s: string, n: nat)
    ensures Octets(LowerAll(s), n) <==> Octets(s, n)
    decreases n
  {
    hide Octet, FirstDot, DottedQuad;
    var t, d := LowerAll(s), FirstDot(s);
    LowerDot(s);
    assert t[..d] == LowerAll(s[..d]);
    LowerOctet(s[..d]);
    if d == |s| {
      assert s[..d] == s && t[..d] == t;
    } else if n > 1 {
      LowerQuad(s[d + 1..], n - 1);
      assert t[d + 1..] == LowerAll(s[d + 1..]);
    }
  }

  lemma {:induction false} LowerOctet(o: string)
    ensures Octet(LowerAll(o)) <==> Octet(o)
  {
    var t := LowerAll(o);
    assert forall c :: IsDigit(Lower(c)) <==> IsDigit(c);
    if AllDigits(o) {
      assert t == o;
    } else {
      assert exists i :: 0 <= i < |o| && !IsDigit(o[i]) && !IsDigit(t[i]);
    }
  }

  /** The registry takes the issuable names without a wildcard, minus dotted quads, and no others. */
  lemma {:induction false} NormalAccepts(host: string)
    ensures Normal(host).Some? <==> DnsName(host) && !IsWildcard(host) && !DottedQuad(host)
  {
    LowerName(host);
    LowerQuad(host, 4);
    if Name(host) {
      NotWildcard(host);
    }
  }

  lemma {:induction false} NotWildcard(s: string)
    requires Name(s)
    ensures !IsWildcard(s) && |s| > 0
  {
    assert s[..FirstDot(s)][0] == s[0];
  }

  /** A key is its own key. */
  lemma {:induction false} NormalTwice(host: string)
    requires Normal(host).Some?
    ensures Normal(Normal(host).value) == Normal(host)
  {
    LowerTwice(host);
  }

  /** Two spellings share a key exactly when they differ in letter case alone. */
  lemma {:induction false} NormalSame(a: string, b: string)
    requires Normal(a).Some? && Normal(b).Some?
    ensures Normal(a) == Normal(b) <==> EqualFold(a, b)
  {
    if LowerAll(a) == LowerAll(b) {
      assert |a| == |b| && forall i :: 0 <= i < |a| ==> Lower(a[i]) == LowerAll(b)[i];
    }
  }

  /** Validates a requested host and writes its key into `buf`; 0 refuses it. */
  method Normalize(host: string, buf: array<char>) returns (n: nat)
    requires buf.Length >= NAME_MAX
    modifies buf
    ensures n != 0 <==> Normal(host).Some?
    ensures n != 0 ==> n == |host| && Normal(host) == Some(buf[..n])
    ensures forall k :: |host| <= k < buf.Length ==> buf[k] == old(buf[k])
  {
    hide Name, Partial, IsLdh, DottedQuad, LowerAll;
    var t := LowerAll(host);
    LabelStarts(t, 0);
    if |host| == 0 || |host| > NAME_MAX {
      return 0;
    }
    var i, len: nat := 0, 0;
    assert t[0..] == t;
    while i < |host|
      invariant 0 <= i <= |host| && len <= i && len <= LABEL_MAX && Partial(t, i - len, i)
      invariant forall k :: 0 <= k < i ==> buf[k] == t[k]
      invariant forall k :: i <= k < buf.Length ==> buf[k] == old(buf[k])
      invariant Name(t) <==> Name(t[i - len..])
    {
      var c := host[i];
      LdhLower(c);
      if c == '.' {
        LabelEnds(t, i - len, i);
        if len == 0 {
          return 0;
        }
        if buf[i - 1] == '-' {
          return 0;
        }
        LabelStarts(t, i + 1);
        len := 0;
        buf[i] := '.';
      } else {
        if 'A' <= c <= 'Z' {
          c := c - 'A' + 'a';
        } else if !('a' <= c <= 'z' || IsDigit(c) || c == '-') {
          LabelBreaks(t, i - len, i);
          return 0;
        }
        if (c == '-' && len == 0) || len == LABEL_MAX {
          LabelBreaks(t, i - len, i);
          if len != LABEL_MAX {
            return 0;
          }
        } else {
          LabelGoesOn(t, i - len, i);
        }
        buf[i] := c;
        len := len + 1;
        if len > LABEL_MAX {
          return 0;
        }
      }
      i := i + 1;
    }
    LabelEnds(t, i - len, i);
    if len == 0 {
      return 0;
    }
    if buf[|host| - 1] == '-' {
      return 0;
    }
    assert buf[..i] == t;
    var quad := IsIpv4(buf[..|host|]);
    if quad {
      return 0;
    }
    n := |host|;
  }

  lemma {:induction false} LdhLower(c: char)
    ensures IsLdh(Lower(c)) <==> 'A' <= c <= 'Z' || 'a' <= c <= 'z' || IsDigit(c) || c == '-'
  {
  }

  // --------------------------------------------------------- the order's check

  /** What an order accepts as identifier: an IP literal, or a lower-case name. `literal` says whether nginx parses it as an address. */
  method IdentifierSafe(domain: string, literal: bool) returns (ok: bool)
    ensures ok <==> 0 < |domain| <= NAME_MAX && (literal || LowerCharset(domain))
  {
    if |domain| == 0 || |domain| > NAME_MAX {
      return false;
    }
    if literal {
      return true;
    }
    var start := if IsWildcard(domain) then 2 else 0;
    if start >= |domain| || domain[start] == '.' || domain[|domain| - 1] == '.' {
      return false;
    }
    var i := start;
    assert Base(domain) == domain[start..];
    while i < |domain|
      invariant start <= i <= |domain|
      invariant forall k :: start <= k < i ==> LowerByte(domain[k])
    {
      var c := domain[i];
      if !('a' <= c <= 'z' || IsDigit(c) || c == '-' || c == '.') {
        assert !LowerByte(domain[start..][i - start]);
        return false;
      }
      i := i + 1;
    }
    ok := true;
  }

  predicate LowerByte(c: char) { 'a' <= c <= 'z' || IsDigit(c) || c == '-' || c == '.' }

  predicate LowerCharset(domain: string) {
    var b := Base(domain);
    |b| > 0 && b[0] != '.' && b[|b| - 1] != '.' && forall k :: 0 <= k < |b| ==> LowerByte(b[k])
  }

  lemma {:induction false} NameBytes(s: string)
    requires Name(s)
    ensures s[0] != '.' && s[|s| - 1] != '.'
    ensures forall k :: 0 <= k < |s| ==> IsLdh(s[k]) || s[k] == '.'
    decreases |s|
  {
    var d := FirstDot(s);
    assert forall k :: 0 <= k < d ==> s[k] == s[..d][k];
    if d < |s| {
      NameBytes(s[d + 1..]);
      assert forall k :: d < k < |s| ==> s[k] == s[d + 1..][k - d - 1];
    }
  }

  /** Every key the registry hands out passes the order's own check. */
  lemma {:induction false} NormalIsSafe(host: string)
    requires Normal(host).Some?
    ensures var k := Normal(host).value; 0 < |k| <= NAME_MAX && LowerCharset(k)
  {
    var k := Normal(host).value;
    NotWildcard(k);
    NameBytes(k);
    hide Name;
    forall i | 0 <= i < |k| ensures LowerByte(k[i]) {
      assert k[i] == Lower(host[i]);
    }
  }
}
