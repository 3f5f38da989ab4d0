/**
 The JSON reader: one cursor over a length-counted document, a depth counter,
 and string buffers sized by a scan ahead of the decoder. Proved equal to the
 functions of JsonParser.dfy, and to stay inside every buffer it allocates.
 */
module JsonReader {
  import opened Bytes
  import opened JsonGrammar
  import opened JsonParser

  // ------------------------------------------------- the scan and the decoder

  /** The closing quote as the scan ahead sees it: the first quote that no backslash escapes. */
  function Close(doc: string, p: nat): (r: Option<nat>)
    ensures r.Some? ==> p <= r.value < |doc| && doc[r.value] == '"'
    decreases |doc| - p
  {
    if p >= |doc| then None
    else if doc[p] == '"' then Some(p)
    else if doc[p] == '\\' then if p + 1 >= |doc| then None else Close(doc, p + 2)
    else Close(doc, p + 1)
  }

  lemma {:induction false} HexSkipped(doc: string, p: nat)
    requires ReadHex4(doc, p).Some?
    ensures Close(doc, p) == Close(doc, p + 4)
  {
    var h := doc[p..p + 4];
    assert h[0] == doc[p] && h[1] == doc[p + 1] && h[2] == doc[p + 2] && h[3] == doc[p + 3];
    assert Close(doc, p) == Close(doc, p + 1);
    assert Close(doc, p + 1) == Close(doc, p + 2);
    assert Close(doc, p + 2) == Close(doc, p + 3);
  }

  /** Whatever character the decoder takes, the scan passed over exactly those bytes. */
  lemma {:induction false} InStep(doc: string, p: nat)
    requires p < |doc| && doc[p] != '"' && ReadItem(doc, p).Some?
    ensures Close(doc, ReadItem(doc, p).value.1) == Close(doc, p)
  {
    if doc[p] == '\\' && !IsShort(doc[p + 1]) {
      HexSkipped(doc, p + 2);
      if IsHigh(ReadHex4(doc, p + 2).value) {
        assert Close(doc, p + 6) == Close(doc, p + 8);
        HexSkipped(doc, p + 8);
      }
    }
  }

  /** A string the decoder accepts ends at the quote the scan found; without one there is nothing to accept. */
  lemma {:induction false} ScanAgrees(doc: string, p: nat)
    requires p <= |doc| && ReadString(doc, p).Some?
    ensures Close(doc, p) == Some(ReadString(doc, p).value.1 - 1)
    decreases |doc| - p
  {
    if doc[p] != '"' {
      InStep(doc, p);
      hide ReadItem, Close;
      ScanAgrees(doc, ReadItem(doc, p).value.1);
    }
  }

  function Glue(done: string, r: Option<(string, nat)>): Option<(string, nat)> {
    match r
    case None => None
    case Some((rest, end)) => Some((done + rest, end))
  }

  lemma {:induction false} GlueNothing(r: Option<(string, nat)>)
    ensures Glue("", r) == r
  {
    if r.Some? {
      assert "" + r.value.0 == r.value.0;
    }
  }

  lemma {:induction false} StringEnds(doc: string, p: nat, done: string)
    requires p < |doc| && doc[p] == '"'
    ensures Glue(done, ReadString(doc, p)) == Some((done, p + 1))
  {
    assert done + "" == done;
  }

  lemma {:induction false} StringStep(doc: string, p: nat, done: string)
    requires p < |doc| && doc[p] != '"'
    ensures match ReadItem(doc, p)
            case None => Glue(done, ReadString(doc, p)) == None
            case Some((bytes, q)) => Glue(done, ReadString(doc, p)) == Glue(done + bytes, ReadString(doc, q))
  {
    hide ReadItem;
    match ReadItem(doc, p)
    case None =>
    case Some((bytes, q)) =>
      if ReadString(doc, q).Some? {
        assert done + (bytes + ReadString(doc, q).value.0) == done + bytes + ReadString(doc, q).value.0;
      }
  }

  function GlueAll<T>(done: seq<T>, r: Option<(seq<T>, nat)>): Option<(seq<T>, nat)> {
    match r
    case None => None
    case Some((rest, end)) => Some((done + rest, end))
  }

  lemma {:induction false} GlueAssoc<T>(done: seq<T>, x: T, r: Option<(seq<T>, nat)>)
    ensures match r
            case None => GlueAll(done, r) == None == GlueAll(done + [x], r)
            case Some((rest, end)) => GlueAll(done, Some(([x] + rest, end))) == GlueAll(done + [x], r)
    ensures GlueAll(done, None) == None
  {
    if r.Some? {
      assert done + ([x] + r.value.0) == done + [x] + r.value.0;
    }
  }

  lemma {:induction false} ElementsStep(doc: string, p: nat, depth: nat, done: seq<Value>)
    requires p <= |doc|
    ensures match ReadValue(doc, SkipSpace(doc, p), depth)
            case None => GlueAll(done, ReadElements(doc, p, depth)) == None
            case Some((v, b)) =>
              var c := SkipSpace(doc, b);
              if c < |doc| && doc[c] == ']' then GlueAll(done, ReadElements(doc, p, depth)) == Some((done + [v], c + 1))
              else if c < |doc| && doc[c] == ',' then
                GlueAll(done, ReadElements(doc, p, depth)) == GlueAll(done + [v], ReadElements(doc, c + 1, depth))
              else GlueAll(done, ReadElements(doc, p, depth)) == None
  {
    hide ReadValue, SkipSpace;
    match ReadValue(doc, SkipSpace(doc, p), depth)
    case None =>
    case Some((v, b)) =>
      var c := SkipSpace(doc, b);
      if c < |doc| && doc[c] == ',' && ReadElements(doc, c + 1, depth).Some? {
        var vs := ReadElements(doc, c + 1, depth).value.0;
        assert done + ([v] + vs) == done + [v] + vs;
      }
  }

  lemma {:induction false} MembersStep(doc: string, p: nat, depth: nat, done: seq<Member>, name: string, n: nat)
    requires p <= |doc| && n <= |doc| && ReadName(doc, p) == Some((name, n))
    ensures match ReadValue(doc, SkipSpace(doc, n), depth)
            case None => GlueAll(done, ReadMembers(doc, p, depth)) == None
            case Some((v, b)) =>
              var c := SkipSpace(doc, b);
              var m := Member(name, v);
              if c < |doc| && doc[c] == '}' then GlueAll(done, ReadMembers(doc, p, depth)) == Some((done + [m], c + 1))
              else if c < |doc| && doc[c] == ',' then
                GlueAll(done, ReadMembers(doc, p, depth)) == GlueAll(done + [m], ReadMembers(doc, c + 1, depth))
              else GlueAll(done, ReadMembers(doc, p, depth)) == None
  {
    hide ReadValue, SkipSpace, ReadMembers, ReadName;
    MembersFold(doc, p, depth, name, n);
    match ReadValue(doc, SkipSpace(doc, n), depth)
    case None =>
    case Some((v, b)) =>
      var c := SkipSpace(doc, b);
      if c < |doc| && doc[c] == ',' {
        GlueAssoc(done, Member(name, v), ReadMembers(doc, c + 1, depth));
        hide GlueAll;
      }
  }

  // --------------------------------------------------------------- the reader

  class Reader {
    const doc: string
    var p: nat
    var depth: nat
    var taken: nat  // bytes of string buffers taken from the pool

    /** The cursor is in the document, and the buffers so far cover only bytes already read. */
    ghost predicate Valid()
      reads this
    {
      taken <= p <= |doc|
    }

    constructor (doc: string)
      ensures this.doc == doc && p == 0 && depth == 0 && taken == 0 && Valid()
    {
      this.doc := doc;
      p, depth, taken := 0, 0, 0;
    }

    method SkipWs()
      requires Valid()
      modifies this`p
      ensures Valid() && p == SkipSpace(doc, old(p))
    {
      while p < |doc| && IsSpace(doc[p])
        invariant Valid() && SkipSpace(doc, p) == SkipSpace(doc, old(p))
        decreases |doc| - p
      {
        p := p + 1;
      }
    }

    method ReadHex() returns (r: Option<nat>)
      requires p <= |doc|
      modifies this`p
      ensures r == ReadHex4(doc, old(p)) && old(p) <= p <= |doc|
      ensures r.Some? ==> p == old(p) + 4
    {
      if |doc| - p < 4 {
        return None;
      }
      ghost var h := doc[p..p + 4];
      assert h[0] == doc[p] && h[1] == doc[p + 1] && h[2] == doc[p + 2] && h[3] == doc[p + 3];
      var v: nat, i: nat := 0, 0;
      while i < 4
        invariant i <= 4 && p == old(p) + i <= |doc|
        invariant forall k :: 0 <= k < i ==> IsHex(h[k])
        invariant i == 0 ==> v == 0
        invariant i == 1 ==> v == HexValue(h[0])
        invariant i == 2 ==> v == HexValue(h[0]) * 0x10 + HexValue(h[1])
        invariant i == 3 ==> v == HexValue(h[0]) * 0x100 + HexValue(h[1]) * 0x10 + HexValue(h[2])
        invariant i == 4 ==> v == Hex4(h)
      {
        var ch := doc[p];
        assert ch == h[i];
        p := p + 1;
        if !IsHex(ch) {
          return None;
        }
        v := v * 16 + HexValue(ch);
        i := i + 1;
      }
      r := Some(v);
    }

    /** Append one code point to the buffer. */
    method PutUtf8(dst: array<char>, n: nat, cp: nat) returns (m: nat)
      requires cp < 0x110000 && n + |Utf8(cp)| <= dst.Length
      modifies dst
      ensures m == n + |Utf8(cp)| && dst[..m] == old(dst[..n]) + Utf8(cp)
    {
      if cp < 0x80 {
        dst[n] := cp as char;
        m := n + 1;
      } else if cp < 0x800 {
        dst[n] := (0xc0 + cp / 0x40) as char;
        dst[n + 1] := (0x80 + cp % 0x40) as char;
        m := n + 2;
      } else if cp < 0x10000 {
        dst[n] := (0xe0 + cp / 0x1000) as char;
        dst[n + 1] := (0x80 + cp / 0x40 % 0x40) as char;
        dst[n + 2] := (0x80 + cp % 0x40) as char;
        m := n + 3;
      } else {
        dst[n] := (0xf0 + cp / 0x40000) as char;
        dst[n + 1] := (0x80 + cp / 0x1000 % 0x40) as char;
        dst[n + 2] := (0x80 + cp / 0x40 % 0x40) as char;
        dst[n + 3] := (0x80 + cp % 0x40) as char;
        m := n + 4;
      }
    }

    /** Append one byte to the buffer. */
    method Put(dst: array<char>, n: nat, c: char) returns (m: nat)
      requires n < dst.Length
      modifies dst
      ensures m == n + 1 && dst[..m] == old(dst[..n]) + [c]
    {
      dst[n] := c;
      m := n + 1;
    }

    /**
     The character at the cursor into the buffer at `n`. A character that turns
     out malformed writes nothing.
     */
    method DecodeItem(dst: array<char>, n: nat) returns (r: Option<nat>)
      requires p < |doc| && doc[p] != '"' && n <= dst.Length
      requires ReadItem(doc, p).Some? ==> n + |ReadItem(doc, p).value.0| <= dst.Length
      modifies this`p, dst
      ensures old(p) <= p <= |doc|
      ensures match ReadItem(doc, old(p))
              case None => r == None && dst[..] == old(dst[..])
              case Some((bytes, q)) => p == q && r == Some(n + |bytes|) && dst[..n + |bytes|] == old(dst[..n]) + bytes
    {
      hide Utf8, Unescape, ReadHex4, Hex4, Combine, IsShort;
      var ch := doc[p];
      p := p + 1;
      if ch < ' ' {
        return None;
      }
      if ch != '\\' {
        var m := Put(dst, n, ch);
        return Some(m);
      }
      if p >= |doc| {
        return None;
      }
      ch := doc[p];
      p := p + 1;
      if IsShort(ch) {
        var m := Put(dst, n, Unescape(ch));
        return Some(m);
      }
      if ch != 'u' {
        return None;
      }
      var cp := CodePoint();
      if cp.None? {
        return None;
      }
      var m := PutUtf8(dst, n, cp.value);
      r := Some(m);
    }

    /** The code point behind a \\u: one unit, or a surrogate pair. */
    method CodePoint() returns (r: Option<nat>)
      requires 2 <= p <= |doc| && doc[p - 2] == '\\' && doc[p - 1] == 'u'
      modifies this`p
      ensures old(p) <= p <= |doc|
      ensures r.Some? ==> r.value < 0x110000
      ensures ReadItem(doc, old(p) - 2) == if r.None? then None else Some((Utf8(r.value), p))
    {
      hide Utf8;
      var u := ReadHex();
      if u.None? {
        return None;
      }
      var cp := u.value;
      if IsHigh(cp) {
        if |doc| - p < 2 || doc[p] != '\\' || doc[p + 1] != 'u' {
          return None;
        }
        p := p + 2;
        var l := ReadHex();
        if l.None? || !IsLow(l.value) {
          return None;
        }
        cp := Combine(cp, l.value);
      } else if IsLow(cp) {
        return None;
      }
      r := Some(cp);
    }

    /** The scan ahead for the closing quote. */
    method FindClose() returns (r: Option<nat>)
      ensures r == Close(doc, p)
    {
      var scan := p;
      while true
        invariant Close(doc, p) == Close(doc, scan)
        decreases |doc| - scan
      {
        if scan >= |doc| {
          return None;
        }
        if doc[scan] == '"' {
          break;
        }
        if doc[scan] == '\\' {
          scan := scan + 1;
          if scan >= |doc| {
            return None;
          }
        }
        scan := scan + 1;
      }
      r := Some(scan);
    }

    /** A string from its opening quote: every byte written is inside the buffer the scan sized. */
    method StringRaw() returns (r: Option<string>)
      requires Valid() && p < |doc|
      modifies this`p, this`taken
      ensures taken <= |doc| && old(p) < p <= |doc|
      ensures match ReadString(doc, old(p) + 1)
              case None => r == None
              case Some((s, end)) => r == Some(s) && p == end && Valid()
    {
      hide ReadString;
      p := p + 1;
      var start := p;
      var close := FindClose();
      if ReadString(doc, start).Some? {
        ScanAgrees(doc, start);
      }
      if close.None? {
        return None;
      }
      var span := close.value - start;
      var dst := new char[span];
      taken := taken + span;
      r := DecodeSpan(dst, close.value);
    }

    /** The decoder, up to the quote the scan found, in a buffer of that span. */
    method DecodeSpan(dst: array<char>, ghost close: nat) returns (r: Option<string>)
      requires p <= |doc| && Close(doc, p) == Some(close) && dst.Length == close - p
      modifies this`p, dst
      ensures old(p) <= p <= |doc|
      ensures match ReadString(doc, old(p))
              case None => r == None
              case Some((s, end)) => r == Some(s) && p == end > old(p)
    {
      hide ReadItem, ReadString, Glue, Close;
      ghost var start := p;
      var n: nat := 0;
      assert dst[..0] == "";
      GlueNothing(ReadString(doc, p));
      while doc[p] != '"'
        invariant start <= p <= close < |doc| && Close(doc, p) == Some(close)
        invariant n <= p - start
        invariant Glue(dst[..n], ReadString(doc, p)) == ReadString(doc, start)
        decreases |doc| - p
      {
        StringStep(doc, p, dst[..n]);
        if ReadItem(doc, p).Some? {
          InStep(doc, p);
        }
        var next := DecodeItem(dst, n);
        if next.None? {
          return None;
        }
        n := next.value;
      }
      StringEnds(doc, p, dst[..n]);
      p := p + 1;
      r := Some(dst[..n]);
    }

    /** Moves over a run of digits and counts them. */
    method TakeDigits() returns (digits: nat)
      requires Valid()
      modifies this`p
      ensures Valid() && p == SkipDigits(doc, old(p)) && digits == p - old(p)
    {
      digits := 0;
      while p < |doc| && IsDigit(doc[p])
        invariant Valid() && p == old(p) + digits && SkipDigits(doc, p) == SkipDigits(doc, old(p))
        decreases |doc| - p
      {
        p := p + 1;
        digits := digits + 1;
      }
    }

    method TakeWhole() returns (ok: bool)
      requires Valid()
      modifies this`p
      ensures Valid() && old(p) <= p
      ensures match ReadWhole(doc, old(p)) case None => !ok case Some(end) => ok && p == end
    {
      if p >= |doc| {
        return false;
      }
      if doc[p] == '0' {
        p := p + 1;
      } else if '1' <= doc[p] <= '9' {
        var _ := TakeDigits();
      } else {
        return false;
      }
      ok := true;
    }

    method TakeFraction() returns (ok: bool)
      requires Valid()
      modifies this`p
      ensures Valid() && old(p) <= p
      ensures match ReadFraction(doc, old(p)) case None => !ok case Some(end) => ok && p == end
    {
      if p < |doc| && doc[p] == '.' {
        p := p + 1;
        var digits := TakeDigits();
        return digits != 0;
      }
      ok := true;
    }

    method TakeExponent() returns (ok: bool)
      requires Valid()
      modifies this`p
      ensures Valid() && old(p) <= p
      ensures match ReadExponent(doc, old(p)) case None => !ok case Some(end) => ok && p == end
    {
      if p < |doc| && (doc[p] == 'e' || doc[p] == 'E') {
        p := p + 1;
        if p < |doc| && (doc[p] == '+' || doc[p] == '-') {
          p := p + 1;
        }
        var digits := TakeDigits();
        return digits != 0;
      }
      ok := true;
    }

    method NumberRaw() returns (r: Option<Value>)
      requires Valid()
      modifies this`p
      ensures Valid() && old(p) <= p
      ensures match ReadNumber(doc, old(p))
              case None => r == None
              case Some(end) => p == end && r == Some(Number(doc[old(p)..end]))
    {
      hide ReadWhole, ReadFraction, ReadExponent;
      var start := p;
      if p < |doc| && doc[p] == '-' {
        p := p + 1;
      }
      var ok := TakeWhole();
      if !ok {
        return None;
      }
      ok := TakeFraction();
      if !ok {
        return None;
      }
      ok := TakeExponent();
      if !ok {
        return None;
      }
      r := Some(Number(doc[start..p]));
    }

    method Literal() returns (r: Option<Value>)
      requires Valid()
      modifies this`p
      ensures Valid() && old(p) <= p
      ensures match ReadWord(doc, old(p))
              case None => r == None
              case Some((v, end)) => r == Some(v) && p == end
    {
      if |doc| - p >= 4 && doc[p..p + 4] == "true" {
        p := p + 4;
        return Some(Bool(true));
      }
      if |doc| - p >= 5 && doc[p..p + 5] == "false" {
        p := p + 5;
        return Some(Bool(false));
      }
      if |doc| - p >= 4 && doc[p..p + 4] == "null" {
        p := p + 4;
        return Some(Null);
      }
      return None;
    }

    method ReadOne() returns (r: Option<Value>)
      requires Valid() && depth <= MAX_DEPTH
      modifies this
      ensures taken <= |doc| && old(p) <= p <= |doc|
      ensures match ReadValue(doc, old(p), old(depth))
              case None => r == None
              case Some((v, end)) => r == Some(v) && p == end && depth == old(depth) && Valid()
      decreases |doc| - p, 1
    {
      hide ReadArray, ReadObject, ReadString, ReadNumber, ReadWord;
      if p >= |doc| {
        return None;
      }
      var ch := doc[p];
      if ch == '{' {
        r := ReadObjectRaw();
      } else if ch == '[' {
        r := ReadArrayRaw();
      } else if ch == '"' {
        var s := StringRaw();
        r := if s.None? then None else Some(Text(s.value));
      } else if ch == '-' || '0' <= ch <= '9' {
        r := NumberRaw();
      } else if ch == 't' || ch == 'f' || ch == 'n' {
        r := Literal();
      } else {
        NoWord(doc, p);
        r := None;
      }
    }

    method ReadArrayRaw() returns (r: Option<Value>)
      requires Valid() && depth <= MAX_DEPTH && p < |doc|
      modifies this
      ensures taken <= |doc| && old(p) <= p <= |doc|
      ensures match ReadArray(doc, old(p), old(depth))
              case None => r == None
              case Some((v, end)) => r == Some(v) && p == end && depth == old(depth) && Valid()
      decreases |doc| - p, 0
    {
      hide ReadElements, ReadValue, SkipSpace;
      depth := depth + 1;
      if depth > MAX_DEPTH {
        return None;
      }
      p := p + 1;
      SkipWs();
      if p < |doc| && doc[p] == ']' {
        p := p + 1;
        depth := depth - 1;
        return Some(Array([]));
      }
      var items := ElementsRaw();
      if items.None? {
        return None;
      }
      depth := depth - 1;
      r := Some(Array(items.value));
    }

    /** The elements of a non-empty array and its closing bracket. */
    method ElementsRaw() returns (r: Option<seq<Value>>)
      requires Valid() && depth <= MAX_DEPTH
      modifies this
      ensures taken <= |doc| && old(p) <= p <= |doc|
      ensures match ReadElements(doc, old(p), old(depth))
              case None => r == None
              case Some((vs, end)) => r == Some(vs) && p == end && depth == old(depth) && Valid()
      decreases |doc| - p, 2
    {
      hide ReadElements, ReadValue, SkipSpace, GlueAll;
      ghost var first, d := p, depth;
      var items: seq<Value> := [];
      GlueNone(ReadElements(doc, first, d));
      while true
        invariant Valid() && old(p) <= p && depth == d
        invariant GlueAll(items, ReadElements(doc, p, d)) == ReadElements(doc, first, d)
        decreases |doc| - p
      {
        ElementsStep(doc, p, d, items);
        SkipWs();
        var v := ReadOne();
        if v.None? {
          return None;
        }
        items := items + [v.value];
        SkipWs();
        if p >= |doc| {
          return None;
        }
        if doc[p] == ',' {
          p := p + 1;
          continue;
        }
        if doc[p] == ']' {
          p := p + 1;
          return Some(items);
        }
        return None;
      }
    }

    /** A member's name and the colon behind it. */
    method NameRaw() returns (r: Option<string>)
      requires Valid()
      modifies this`p, this`taken
      ensures taken <= |doc| && old(p) <= p <= |doc|
      ensures match ReadName(doc, old(p))
              case None => r == None
              case Some((name, end)) => r == Some(name) && p == end && Valid()
    {
      hide ReadString, SkipSpace;
      SkipWs();
      if p >= |doc| || doc[p] != '"' {
        return None;
      }
      var name := StringRaw();
      if name.None? {
        return None;
      }
      SkipWs();
      if p >= |doc| || doc[p] != ':' {
        return None;
      }
      p := p + 1;
      r := name;
    }

    method ReadObjectRaw() returns (r: Option<Value>)
      requires Valid() && depth <= MAX_DEPTH && p < |doc|
      modifies this
      ensures taken <= |doc| && old(p) <= p <= |doc|
      ensures match ReadObject(doc, old(p), old(depth))
              case None => r == None
              case Some((v, end)) => r == Some(v) && p == end && depth == old(depth) && Valid()
      decreases |doc| - p, 0
    {
      hide ReadMembers, ReadName, ReadValue, SkipSpace, IsSpace;
      depth := depth + 1;
      if depth > MAX_DEPTH {
        return None;
      }
      p := p + 1;
      SkipWs();
      if p < |doc| && doc[p] == '}' {
        p := p + 1;
        depth := depth - 1;
        return Some(Object([]));
      }
      var members := MembersRaw();
      if members.None? {
        return None;
      }
      depth := depth - 1;
      r := Some(Object(members.value));
    }

    /** The members of a non-empty object and its closing brace. */
    method MembersRaw() returns (r: Option<seq<Member>>)
      requires Valid() && depth <= MAX_DEPTH
      modifies this
      ensures taken <= |doc| && old(p) <= p <= |doc|
      ensures match ReadMembers(doc, old(p), old(depth))
              case None => r == None
              case Some((ms, end)) => r == Some(ms) && p == end && depth == old(depth) && Valid()
      decreases |doc| - p, 2
    {
      hide ReadMembers, ReadName, ReadValue, SkipSpace, GlueAll;
      ghost var first, d := p, depth;
      var members: seq<Member> := [];
      GlueNone(ReadMembers(doc, first, d));
      while true
        invariant Valid() && old(p) <= p && depth == d
        invariant GlueAll(members, ReadMembers(doc, p, d)) == ReadMembers(doc, first, d)
        decreases |doc| - p
      {
        ghost var here := p;
        var name := NameRaw();
        if name.None? {
          NoMembers(doc, here, d, members);
          return None;
        }
        MembersStep(doc, here, d, members, name.value, p);
        SkipWs();
        var v := ReadOne();
        if v.None? {
          return None;
        }
        members := members + [Member(name.value, v.value)];
        SkipWs();
        if p >= |doc| {
          return None;
        }
        if doc[p] == ',' {
          p := p + 1;
          continue;
        }
        if doc[p] == '}' {
          p := p + 1;
          return Some(members);
        }
        return None;
      }
    }
  }

  lemma {:induction false} NoMembers(doc: string, p: nat, depth: nat, done: seq<Member>)
    requires p <= |doc| && ReadName(doc, p).None?
    ensures GlueAll(done, ReadMembers(doc, p, depth)) == None
  {
    MembersNone(doc, p, depth);
  }

  lemma {:induction false} GlueNone<T>(r: Option<(seq<T>, nat)>)
    ensures GlueAll([], r) == r
  {
    if r.Some? {
      assert [] + r.value.0 == r.value.0;
    }
  }

  lemma {:induction false} NoWord(doc: string, p: nat)
    requires p < |doc| && doc[p] != 't' && doc[p] != 'f' && doc[p] != 'n'
    ensures ReadWord(doc, p) == None
  {
    assert "true"[0] == 't' && "false"[0] == 'f' && "null"[0] == 'n';
    assert p + 4 <= |doc| ==> doc[p..p + 4][0] == doc[p];
    assert p + 5 <= |doc| ==> doc[p..p + 5][0] == doc[p];
  }

  /** Reads a whole document; `used` is what its string buffers took from the pool, never more than the document. */
  method ParseDocument(doc: string) returns (r: Option<Value>, used: nat)
    ensures r == Parse(doc)
    ensures used <= |doc|
  {
    used := 0;
    if |doc| == 0 {
      return None, 0;
    }
    var c := new Reader(doc);
    c.SkipWs();
    r := c.ReadOne();
    used := c.taken;
    if r.None? {
      return;
    }
    c.SkipWs();
    if c.p != |doc| {
      r := None;
    }
  }

  // --------------------------------------------------------------- accessors

  const MAX_INT: nat := 0x7FFF_FFFF_FFFF_FFFF

  /** A plain non-negative integer that fits the machine word, exactly; every other number is refused. */
  method NumberInt(v: Value) returns (r: Option<nat>)
    ensures r.Some? <==> v.Number? && v.text != "" && AllDigits(v.text) && DecimalValue(v.text) <= MAX_INT
    ensures r.Some? ==> r.value == DecimalValue(v.text)
  {
    if !v.Number? || v.text == "" {
      return None;
    }
    var text := v.text;
    var n: nat, i: nat := 0, 0;
    while i < |text|
      invariant i <= |text| && AllDigits(text[..i]) && n == DecimalValue(text[..i]) <= MAX_INT
    {
      if !IsDigit(text[i]) {
        return None;
      }
      assert text[..i + 1][..i] == text[..i];
      if n > (MAX_INT - DigitValue(text[i])) / 10 {
        if AllDigits(text) {
          PrefixSmaller(text, i + 1);
        }
        return None;
      }
      n := n * 10 + DigitValue(text[i]);
      i := i + 1;
    }
    assert text[..i] == text;
    r := Some(n);
  }

  /** The first member of that name wins. */
  method ObjectGet(v: Value, key: string) returns (r: Option<Value>)
    ensures r.None? ==> !v.Object? || forall i :: 0 <= i < |v.members| ==> v.members[i].name != key
    ensures r.Some? ==> v.Object? && exists i :: 0 <= i < |v.members| && v.members[i] == Member(key, r.value)
                                      && forall j :: 0 <= j < i ==> v.members[j].name != key
  {
    if !v.Object? {
      return None;
    }
    var i := 0;
    while i < |v.members|
      invariant 0 <= i <= |v.members|
      invariant forall j :: 0 <= j < i ==> v.members[j].name != key
    {
      if v.members[i].name == key {
        return Some(v.members[i].value);
      }
      i := i + 1;
    }
    r := None;
  }
}
