/**
 What the reader makes of a document, as functions of the document and a
 position, and the proof that this is exactly the grammar of JsonGrammar.dfy
 with at most 32 levels of nesting.
 */
module JsonParser {
  import opened Bytes
  import opened JsonGrammar

  const MAX_DEPTH: nat := 32

  function SkipSpace(doc: string, p: nat): (q: nat)
    requires p <= |doc|
    ensures p <= q <= |doc|
    decreases |doc| - p
  {
    if p < |doc| && IsSpace(doc[p]) then SkipSpace(doc, p + 1) else p
  }

  // ----------------------------------------------------------------- strings

  function ReadHex4(doc: string, p: nat): (r: Option<nat>)
    ensures r.Some? ==> p + 4 <= |doc| && r.value < 0x10000
  {
    if p + 4 <= |doc| && IsHex4(doc[p..p + 4]) then Some(Hex4(doc[p..p + 4])) else None
  }

  /** The character at `p`, its decoded bytes and where it ends. */
  function ReadItem(doc: string, p: nat): (r: Option<(string, nat)>)
    requires p < |doc|
    ensures r.Some? ==> p < r.value.1 <= |doc| && |r.value.0| <= r.value.1 - p
  {
    if doc[p] < ' ' then None
    else if doc[p] != '\\' then Some(([doc[p]], p + 1))
    else if p + 1 == |doc| then None
    else if IsShort(doc[p + 1]) then Some(([Unescape(doc[p + 1])], p + 2))
    else if doc[p + 1] != 'u' then None
    else
      match ReadHex4(doc, p + 2)
      case None => None
      case Some(u) =>
        if IsHigh(u) then
          if p + 8 <= |doc| && doc[p + 6] == '\\' && doc[p + 7] == 'u' then
            match ReadHex4(doc, p + 8)
            case None => None
            case Some(l) => if IsLow(l) then Some((Utf8(Combine(u, l)), p + 12)) else None
          else None
        else if IsLow(u) then None
        else Some((Utf8(u), p + 6))
  }

  /** The rest of a string, from inside the quotes: its decoded bytes and the position behind the closing quote. */
  function ReadString(doc: string, p: nat): (r: Option<(string, nat)>)
    requires p <= |doc|
    ensures r.Some? ==> p < r.value.1 <= |doc|
    decreases |doc| - p
  {
    if p == |doc| then None
    else if doc[p] == '"' then Some(("", p + 1))
    else
      match ReadItem(doc, p)
      case None => None
      case Some((bytes, q)) =>
        match ReadString(doc, q)
        case None => None
        case Some((rest, end)) => Some((bytes + rest, end))
  }

  // ----------------------------------------------------------------- numbers

  function SkipDigits(doc: string, p: nat): (q: nat)
    requires p <= |doc|
    ensures p <= q <= |doc|
    decreases |doc| - p
  {
    if p < |doc| && IsDigit(doc[p]) then SkipDigits(doc, p + 1) else p
  }

  function ReadWhole(doc: string, p: nat): (r: Option<nat>)
    requires p <= |doc|
    ensures r.Some? ==> p < r.value <= |doc|
  {
    if p == |doc| then None
    else if doc[p] == '0' then Some(p + 1)
    else if IsDigit(doc[p]) then Some(SkipDigits(doc, p + 1))
    else None
  }

  function SomeDigits(doc: string, p: nat): (r: Option<nat>)
    requires p <= |doc|
    ensures r.Some? ==> p < r.value <= |doc|
  {
    var q := SkipDigits(doc, p);
    if q == p then None else Some(q)
  }

  function ReadFraction(doc: string, p: nat): (r: Option<nat>)
    requires p <= |doc|
    ensures r.Some? ==> p <= r.value <= |doc|
  {
    if p < |doc| && doc[p] == '.' then SomeDigits(doc, p + 1) else Some(p)
  }

  function SkipSign(doc: string, p: nat): (q: nat)
    requires p <= |doc|
    ensures p <= q <= |doc|
  {
    if p < |doc| && (doc[p] == '+' || doc[p] == '-') then p + 1 else p
  }

  function ReadExponent(doc: string, p: nat): (r: Option<nat>)
    requires p <= |doc|
    ensures r.Some? ==> p <= r.value <= |doc|
  {
    if p < |doc| && (doc[p] == 'e' || doc[p] == 'E') then SomeDigits(doc, SkipSign(doc, p + 1)) else Some(p)
  }

  /** Where the number starting at `p` ends. */
  function ReadNumber(doc: string, p: nat): (r: Option<nat>)
    requires p <= |doc|
    ensures r.Some? ==> p < r.value <= |doc|
  {
    match ReadWhole(doc, if p < |doc| && doc[p] == '-' then p + 1 else p)
    case None => None
    case Some(a) =>
      match ReadFraction(doc, a)
      case None => None
      case Some(b) => ReadExponent(doc, b)
  }

  // ------------------------------------------------------------------ values

  function ReadWord(doc: string, p: nat): (r: Option<(Value, nat)>)
    ensures r.Some? ==> p < r.value.1 <= |doc|
  {
    if Occurs(doc, "true", p) then Some((Bool(true), p + 4))
    else if Occurs(doc, "false", p) then Some((Bool(false), p + 5))
    else if Occurs(doc, "null", p) then Some((Null, p + 4))
    else None
  }

  /** The value at `p` inside `depth` open arrays and objects, and where it ends. */
  function ReadValue(doc: string, p: nat, depth: nat): (r: Option<(Value, nat)>)
    requires p <= |doc|
    ensures r.Some? ==> p < r.value.1 <= |doc|
    decreases |doc| - p, 1
  {
    if p == |doc| then None
    else if doc[p] == '{' then ReadObject(doc, p, depth)
    else if doc[p] == '[' then ReadArray(doc, p, depth)
    else if doc[p] == '"' then
      match ReadString(doc, p + 1)
      case None => None
      case Some((s, end)) => Some((Text(s), end))
    else if doc[p] == '-' || IsDigit(doc[p]) then
      match ReadNumber(doc, p)
      case None => None
      case Some(end) => Some((Number(doc[p..end]), end))
    else ReadWord(doc, p)
  }

  function ReadObject(doc: string, p: nat, depth: nat): (r: Option<(Value, nat)>)
    requires p < |doc|
    ensures r.Some? ==> p < r.value.1 <= |doc|
    decreases |doc| - p, 0
  {
    if depth >= MAX_DEPTH then None
    else
      var q := SkipSpace(doc, p + 1);
      if q < |doc| && doc[q] == '}' then Some((Object([]), q + 1))
      else
        match ReadMembers(doc, q, depth + 1)
        case None => None
        case Some((ms, end)) => Some((Object(ms), end))
  }

  function ReadArray(doc: string, p: nat, depth: nat): (r: Option<(Value, nat)>)
    requires p < |doc|
    ensures r.Some? ==> p < r.value.1 <= |doc|
    decreases |doc| - p, 0
  {
    if depth >= MAX_DEPTH then None
    else
      var q := SkipSpace(doc, p + 1);
      if q < |doc| && doc[q] == ']' then Some((Array([]), q + 1))
      else
        match ReadElements(doc, q, depth + 1)
        case None => None
        case Some((vs, end)) => Some((Array(vs), end))
  }

  /** The elements of a non-empty array, from `p` to behind the bracket. */
  function ReadElements(doc: string, p: nat, depth: nat): (r: Option<(seq<Value>, nat)>)
    requires p <= |doc|
    ensures r.Some? ==> p < r.value.1 <= |doc|
    decreases |doc| - p, 2
  {
    match ReadValue(doc, SkipSpace(doc, p), depth)
    case None => None
    case Some((v, end)) =>
      var q := SkipSpace(doc, end);
      if q < |doc| && doc[q] == ']' then Some(([v], q + 1))
      else if q < |doc| && doc[q] == ',' then
        match ReadElements(doc, q + 1, depth)
        case None => None
        case Some((vs, last)) => Some(([v] + vs, last))
      else None
  }

  /** A member's name: the decoded bytes, and the position behind the colon. */
  function ReadName(doc: string, p: nat): (r: Option<(string, nat)>)
    requires p <= |doc|
    ensures r.Some? ==> p < r.value.1 <= |doc|
  {
    var q := SkipSpace(doc, p);
    if q == |doc| || doc[q] != '"' then None
    else
      match ReadString(doc, q + 1)
      case None => None
      case Some((name, end)) =>
        var c := SkipSpace(doc, end);
        if c < |doc| && doc[c] == ':' then Some((name, c + 1)) else None
  }

  /** The members of a non-empty object, from `p` to behind the brace. */
  function ReadMembers(doc: string, p: nat, depth: nat): (r: Option<(seq<Member>, nat)>)
    requires p <= |doc|
    ensures r.Some? ==> p < r.value.1 <= |doc|
    decreases |doc| - p, 2
  {
    match ReadName(doc, p)
    case None => None
    case Some((name, c)) =>
      match ReadValue(doc, SkipSpace(doc, c), depth)
      case None => None
      case Some((v, end)) =>
        var q := SkipSpace(doc, end);
        if q < |doc| && doc[q] == '}' then Some(([Member(name, v)], q + 1))
        else if q < |doc| && doc[q] == ',' then
          match ReadMembers(doc, q + 1, depth)
          case None => None
          case Some((ms, last)) => Some(([Member(name, v)] + ms, last))
        else None
  }

  /** A whole document: one value, white space around it, and nothing else. */
  function Parse(doc: string): Option<Value> {
    match ReadValue(doc, SkipSpace(doc, 0), 0)
    case None => None
    case Some((v, end)) => if SkipSpace(doc, end) == |doc| then Some(v) else None
  }

  // --------------------------------------------------- reading what is there

  lemma {:induction false} OccursConcat(s: string, a: string, b: string, i: nat)
    ensures Occurs(s, a + b, i) <==> Occurs(s, a, i) && Occurs(s, b, i + |a|)
  {
    if i + |a| + |b| <= |s| {
      var t := s[i..i + |a| + |b|];
      assert t[..|a|] == s[i..i + |a|] && t[|a|..] == s[i + |a|..i + |a| + |b|];
      assert (a + b)[..|a|] == a && (a + b)[|a|..] == b;
      assert t == t[..|a|] + t[|a|..];
    }
  }

  lemma {:induction false} Join(s: string, a: nat, b: nat, c: nat)
    requires a <= b <= c <= |s|
    ensures s[a..b] + s[b..c] == s[a..c]
  {
  }

  lemma {:induction false} OccursOne(s: string, c: char, i: nat)
    ensures Occurs(s, [c], i) <==> i < |s| && s[i] == c
  {
    if i < |s| {
      assert s[i..i + 1] == [s[i]];
    }
  }

  lemma {:induction false} SpaceSkipped(doc: string, p: nat, t: string)
    requires Occurs(doc, t, p) && Spaces(t)
    requires p + |t| < |doc| ==> !IsSpace(doc[p + |t|])
    ensures SkipSpace(doc, p) == p + |t|
    decreases |t|
  {
    if t != "" {
      assert doc[p] == doc[p..p + |t|][0] == t[0];
      assert doc[p + 1..p + 1 + |t[1..]|] == doc[p..p + |t|][1..] == t[1..];
      SpaceSkipped(doc, p + 1, t[1..]);
    }
  }

  lemma {:induction false} SpaceTaken(doc: string, p: nat)
    requires p <= |doc|
    ensures var q := SkipSpace(doc, p); Spaces(doc[p..q]) && (q < |doc| ==> !IsSpace(doc[q]))
    decreases |doc| - p
  {
    var q := SkipSpace(doc, p);
    if q > p {
      SpaceTaken(doc, p + 1);
      assert doc[p..q] == [doc[p]] + doc[p + 1..q];
    }
  }

  /** One character that is no surrogate escape. */
  lemma {:induction false} ItemRead(doc: string, p: nat, i: Item)
    requires ItemOk(i) && !HighUnit(i) && !LowUnit(i) && Occurs(doc, ItemText(i), p)
    ensures p < |doc| && doc[p] != '"' && ReadItem(doc, p) == Some((ItemBytes(i), p + |ItemText(i)|))
  {
    match i
    case Raw(c) => OccursOne(doc, c, p);
    case Short(c) =>
      assert doc[p] == doc[p..p + 2][0] && doc[p + 1] == doc[p..p + 2][1];
    case Unit(h) => EscapeAt(doc, p, h);
  }

  /** Both halves of a surrogate pair. */
  lemma {:induction false} PairRead(doc: string, p: nat, i: Item, j: Item)
    requires HighUnit(i) && LowUnit(j) && Occurs(doc, ItemText(i), p) && Occurs(doc, ItemText(j), p + 6)
    ensures p < |doc| && doc[p] != '"'
    ensures ReadItem(doc, p) == Some((Utf8(Combine(Hex4(i.hex), Hex4(j.hex))), p + 12))
  {
    EscapeAt(doc, p, i.hex);
    EscapeAt(doc, p + 6, j.hex);
  }

  /** A first half with anything but a second half behind it. */
  lemma {:induction false} HighRefused(doc: string, p: nat, i: Item, rest: seq<Item>)
    requires HighUnit(i) && ItemsOk(rest) && (rest == [] || !LowUnit(rest[0]))
    requires Occurs(doc, ItemText(i), p) && Occurs(doc, Closed(rest), p + 6)
    ensures p < |doc| && doc[p] != '"' && ReadItem(doc, p) == None
  {
    EscapeAt(doc, p, i.hex);
    if rest == [] {
      OccursOne(doc, '"', p + 6);
    } else {
      OccursConcat(doc, ItemText(rest[0]), Closed(rest[1..]), p + 6);
      match rest[0]
      case Raw(c) => OccursOne(doc, c, p + 6);
      case Short(c) =>
        assert doc[p + 6..p + 8][1] == c;
      case Unit(h) => EscapeAt(doc, p + 6, h);
    }
  }

  /** A second half with no first half in front of it. */
  lemma {:induction false} LowRefused(doc: string, p: nat, i: Item)
    requires LowUnit(i) && Occurs(doc, ItemText(i), p)
    ensures p < |doc| && doc[p] != '"' && ReadItem(doc, p) == None
  {
    EscapeAt(doc, p, i.hex);
  }

  lemma {:induction false} EscapeAt(doc: string, p: nat, h: string)
    requires |h| == 4
    ensures Occurs(doc, "\\u" + h, p) <==> p + 6 <= |doc| && doc[p] == '\\' && doc[p + 1] == 'u' && doc[p + 2..p + 6] == h
  {
    OccursConcat(doc, "\\u", h, p);
    if p + 2 <= |doc| {
      assert doc[p..p + 2] == [doc[p], doc[p + 1]];
    }
  }

  /** What the reader must return for a string written with these items. */
  function StringVerdict(items: seq<Item>, p: nat): Option<(string, nat)>
    requires ItemsOk(items)
  {
    if Paired(items) then Some((Decoded(items), p + |Closed(items)|)) else None
  }

  /** How the verdict on a string follows from that on its rest. */
  lemma {:induction false} VerdictStep(items: seq<Item>, p: nat)
    requires ItemsOk(items) && items != [] && !HighUnit(items[0]) && !LowUnit(items[0])
    ensures ItemsOk(items[1..]) && Closed(items) == ItemText(items[0]) + Closed(items[1..])
    ensures StringVerdict(items, p) ==
            match StringVerdict(items[1..], p + |ItemText(items[0])|)
            case None => None
            case Some((rest, end)) => Some((ItemBytes(items[0]) + rest, end))
  {
    hide ItemText, ItemBytes, HighUnit, LowUnit, ItemOk, Paired;
    PairedFront(items);
  }

  lemma {:induction false} VerdictPair(items: seq<Item>, p: nat)
    requires ItemsOk(items) && |items| > 1 && HighUnit(items[0]) && LowUnit(items[1])
    ensures ItemsOk(items[2..]) && Closed(items) == ItemText(items[0]) + (ItemText(items[1]) + Closed(items[2..]))
    ensures StringVerdict(items, p) ==
            match StringVerdict(items[2..], p + 12)
            case None => None
            case Some((rest, end)) => Some((Utf8(Combine(Hex4(items[0].hex), Hex4(items[1].hex))) + rest, end))
  {
    hide ItemBytes, ItemOk, Paired, Utf8, Combine, Hex4;
    PairedFront(items);
    assert items[1..][0] == items[1] && items[1..][1..] == items[2..];
  }

  lemma {:induction false} VerdictAlone(items: seq<Item>, p: nat)
    requires ItemsOk(items) && items != []
    requires LowUnit(items[0]) || (HighUnit(items[0]) && (|items| == 1 || !LowUnit(items[1])))
    ensures StringVerdict(items, p) == None
    ensures ItemsOk(items[1..]) && Closed(items) == ItemText(items[0]) + Closed(items[1..])
  {
    hide Decoded, Paired, Hex4;
    PairedFront(items);
  }

  /** A written string is decoded exactly when every surrogate escape in it is paired. */
  lemma {:induction false} StringRead(doc: string, p: nat, items: seq<Item>)
    requires ItemsOk(items) && Occurs(doc, Closed(items), p)
    ensures p < |doc| && ReadString(doc, p) == StringVerdict(items, p)
    decreases |items|
  {
    hide ReadItem, ItemText, ItemBytes, ItemOk, Occurs, StringVerdict, HighUnit, LowUnit, Hex4, Utf8, Combine, Paired, Closed, ItemsOk, Decoded;
    if items == [] {
      EmptyString(doc, p);
    } else if |items| > 1 && HighUnit(items[0]) && LowUnit(items[1]) {
      VerdictPair(items, p);
      var t := ItemText(items[1]) + Closed(items[2..]);
      OccursConcat(doc, ItemText(items[0]), t, p);
      UnitLength(items[0]);
      UnitLength(items[1]);
      OccursConcat(doc, ItemText(items[1]), Closed(items[2..]), p + 6);
      PairRead(doc, p, items[0], items[1]);
      StringRead(doc, p + 12, items[2..]);
    } else if LowUnit(items[0]) || HighUnit(items[0]) {
      VerdictAlone(items, p);
      OccursConcat(doc, ItemText(items[0]), Closed(items[1..]), p);
      UnitLength(items[0]);
      if LowUnit(items[0]) {
        LowRefused(doc, p, items[0]);
      } else {
        HighRefused(doc, p, items[0], items[1..]);
      }
    } else {
      VerdictStep(items, p);
      OccursConcat(doc, ItemText(items[0]), Closed(items[1..]), p);
      FirstOk(items);
      ItemRead(doc, p, items[0]);
      StringRead(doc, p + |ItemText(items[0])|, items[1..]);
    }
  }

  lemma {:induction false} EmptyString(doc: string, p: nat)
    requires Occurs(doc, Closed([]), p)
    ensures p < |doc| && doc[p] == '"' && StringVerdict([], p) == Some(("", p + 1))
  {
    OccursOne(doc, '"', p);
  }

  lemma {:induction false} UnitLength(i: Item)
    ensures HighUnit(i) || LowUnit(i) ==> |ItemText(i)| == 6
  {
  }

  lemma {:induction false} FirstOk(items: seq<Item>)
    requires ItemsOk(items) && items != []
    ensures ItemOk(items[0])
  {
  }

  /** The one or two items that were taken as one character. */
  lemma {:induction false} ItemTaken(doc: string, p: nat) returns (front: seq<Item>)
    requires p < |doc| && doc[p] != '"' && ReadItem(doc, p).Some?
    ensures ItemsOk(front) && 1 <= |front| <= 2
    ensures Occurs(doc, ItemText(front[0]), p)
    ensures var (bytes, q) := ReadItem(doc, p).value;
            if |front| == 1 then
              && !HighUnit(front[0]) && !LowUnit(front[0])
              && bytes == ItemBytes(front[0]) && q == p + |ItemText(front[0])|
            else
              && HighUnit(front[0]) && LowUnit(front[1]) && Occurs(doc, ItemText(front[1]), p + 6)
              && bytes == Utf8(Combine(Hex4(front[0].hex), Hex4(front[1].hex))) && q == p + 12
  {
    if doc[p] != '\\' {
      front := [Raw(doc[p])];
      OccursOne(doc, doc[p], p);
    } else if IsShort(doc[p + 1]) {
      front := [Short(doc[p + 1])];
      assert doc[p..p + 2] == [doc[p], doc[p + 1]];
    } else {
      var h := doc[p + 2..p + 6];
      EscapeAt(doc, p, h);
      if IsHigh(Hex4(h)) {
        var l := doc[p + 8..p + 12];
        EscapeAt(doc, p + 6, l);
        front := [Unit(h), Unit(l)];
      } else {
        front := [Unit(h)];
      }
    }
  }

  /** Whatever is decoded is a string with every surrogate escape paired. */
  lemma {:induction false} StringTaken(doc: string, p: nat) returns (items: seq<Item>)
    requires p <= |doc| && ReadString(doc, p).Some?
    ensures ItemsOk(items) && Paired(items) && Occurs(doc, Closed(items), p)
    ensures ReadString(doc, p) == Some((Decoded(items), p + |Closed(items)|))
    decreases |doc| - p
  {
    hide ReadItem, ItemText, ItemBytes, ItemOk, Occurs, Paired, Closed, Decoded, ItemsOk, HighUnit, LowUnit, Hex4, Utf8, Combine;
    if doc[p] == '"' {
      items := [];
      NoItems(doc, p);
    } else {
      assert ReadItem(doc, p).Some?;
      var front := ItemTaken(doc, p);
      var q := ReadItem(doc, p).value.1;
      var rest := StringTaken(doc, q);
      items := front + rest;
      StringVerdicts(doc, p, front, rest);
    }
  }

  lemma {:induction false} NoItems(doc: string, p: nat)
    requires p < |doc| && doc[p] == '"'
    ensures ItemsOk([]) && Paired([]) && Occurs(doc, Closed([]), p) && Decoded([]) == "" && |Closed([])| == 1
  {
    OccursOne(doc, '"', p);
  }

  /** The items of a character in front of those of the rest. */
  lemma {:induction false} StringVerdicts(doc: string, p: nat, front: seq<Item>, rest: seq<Item>)
    requires ItemsOk(front) && ItemsOk(rest) && Paired(rest) && 1 <= |front| <= 2
    requires Occurs(doc, ItemText(front[0]), p)
    requires |front| == 1 ==> !HighUnit(front[0]) && !LowUnit(front[0]) && Occurs(doc, Closed(rest), p + |ItemText(front[0])|)
    requires |front| == 2 ==>
               && HighUnit(front[0]) && LowUnit(front[1])
               && Occurs(doc, ItemText(front[1]), p + 6) && Occurs(doc, Closed(rest), p + 12)
    ensures var items := front + rest;
            && ItemsOk(items) && Paired(items) && Occurs(doc, Closed(items), p)
            && |Closed(items)| == (if |front| == 1 then |ItemText(front[0])| else 12) + |Closed(rest)|
            && Decoded(items) ==
               (if |front| == 1 then ItemBytes(front[0]) else Utf8(Combine(Hex4(front[0].hex), Hex4(front[1].hex)))) + Decoded(rest)
  {
    var items := front + rest;
    hide ItemText, ItemBytes, ItemOk, Occurs, Hex4, Utf8, Combine, Paired, HighUnit, LowUnit;
    PairedFront(items);
    if |front| == 1 {
      assert items[1..] == rest;
      OccursConcat(doc, ItemText(front[0]), Closed(rest), p);
    } else {
      assert items[2..] == rest && items[1..][1..] == rest && items[1..][0] == front[1];
      UnitLength(front[0]);
      UnitLength(front[1]);
      OccursConcat(doc, ItemText(front[1]), Closed(rest), p + 6);
      OccursConcat(doc, ItemText(front[0]), ItemText(front[1]) + Closed(rest), p);
    }
  }

  // ----------------------------------------------------------------- numbers

  lemma {:induction false} DigitsSkipped(doc: string, p: nat, t: string)
    requires Occurs(doc, t, p) && AllDigits(t)
    requires p + |t| < |doc| ==> !IsDigit(doc[p + |t|])
    ensures SkipDigits(doc, p) == p + |t|
    decreases |t|
  {
    if t != "" {
      assert doc[p] == doc[p..p + |t|][0] == t[0];
      assert doc[p + 1..p + 1 + |t[1..]|] == doc[p..p + |t|][1..] == t[1..];
      DigitsSkipped(doc, p + 1, t[1..]);
    }
  }

  lemma {:induction false} DigitsTaken(doc: string, p: nat)
    requires p <= |doc|
    ensures AllDigits(doc[p..SkipDigits(doc, p)])
    decreases |doc| - p
  {
    var q := SkipDigits(doc, p);
    if q > p {
      DigitsTaken(doc, p + 1);
      assert doc[p..q] == [doc[p]] + doc[p + 1..q];
    }
  }

  /** The byte behind a value inside a JSON text. */
  predicate Ends(doc: string, p: nat) {
    p == |doc| || (p < |doc| && (IsSpace(doc[p]) || doc[p] == ',' || doc[p] == ']' || doc[p] == '}'))
  }

  lemma {:induction false} ExponentRead(doc: string, p: nat, x: Option<Exponent>)
    requires x.Some? ==> (x.value.e == 'e' || x.value.e == 'E') && x.value.sign in ["", "+", "-"]
                         && |x.value.digits| > 0 && AllDigits(x.value.digits)
    requires Occurs(doc, ExponentText(x), p) && Ends(doc, p + |ExponentText(x)|)
    ensures ReadExponent(doc, p) == Some(p + |ExponentText(x)|)
  {
    hide Occurs;
    if x.Some? {
      var e := x.value;
      OccursConcat(doc, [e.e], e.sign + e.digits, p);
      OccursOne(doc, e.e, p);
      OccursConcat(doc, e.sign, e.digits, p + 1);
      var d := p + 1 + |e.sign|;
      OccursText(doc, e.digits, d);
      assert doc[d] == doc[d..d + |e.digits|][0] == e.digits[0];
      if e.sign != "" {
        OccursOne(doc, e.sign[0], p + 1);
        assert e.sign == [e.sign[0]];
      }
      DigitsSkipped(doc, d, e.digits);
    }
  }

  lemma {:induction false} FractionRead(doc: string, p: nat, f: Option<string>)
    requires f.Some? ==> |f.value| > 0 && AllDigits(f.value)
    requires Occurs(doc, FractionText(f), p)
    requires var q := p + |FractionText(f)|; q < |doc| ==> !IsDigit(doc[q]) && doc[q] != '.'
    ensures ReadFraction(doc, p) == Some(p + |FractionText(f)|)
  {
    if f.Some? {
      OccursConcat(doc, ".", f.value, p);
      OccursOne(doc, '.', p);
      DigitsSkipped(doc, p + 1, f.value);
    }
  }

  lemma {:induction false} WholeRead(doc: string, p: nat, t: string)
    requires |t| > 0 && AllDigits(t) && (t[0] == '0' ==> |t| == 1) && Occurs(doc, t, p)
    requires p + |t| < |doc| ==> !IsDigit(doc[p + |t|])
    ensures ReadWhole(doc, p) == Some(p + |t|)
    ensures IsDigit(doc[p])
  {
    assert doc[p] == doc[p..p + |t|][0] == t[0];
    DigitsSkipped(doc, p, t);
  }

  lemma {:induction false} NumberRead(doc: string, p: nat, n: Numeral)
    requires NumeralOk(n) && Occurs(doc, NumeralText(n), p) && Ends(doc, p + |NumeralText(n)|)
    ensures ReadNumber(doc, p) == Some(p + |NumeralText(n)|)
    ensures p < |doc| && (doc[p] == '-' || IsDigit(doc[p]))
  {
    hide Occurs, ReadWhole, ReadFraction, ReadExponent, AllDigits;
    var f, x := FractionText(n.fraction), ExponentText(n.exponent);
    var a := p + |Sign(n)|;
    var b := a + |n.whole|;
    var c := b + |f|;
    OccursConcat(doc, Sign(n), n.whole + (f + x), p);
    OccursConcat(doc, n.whole, f + x, a);
    OccursConcat(doc, f, x, b);
    ExponentRead(doc, c, n.exponent);
    if n.exponent.Some? {
      OccursConcat(doc, [n.exponent.value.e], n.exponent.value.sign + n.exponent.value.digits, c);
      OccursOne(doc, n.exponent.value.e, c);
    }
    FractionRead(doc, b, n.fraction);
    if n.fraction.Some? {
      OccursConcat(doc, ".", n.fraction.value, b);
      OccursOne(doc, '.', b);
    }
    WholeRead(doc, a, n.whole);
    if n.negative {
      OccursOne(doc, '-', p);
    }
  }

  lemma {:induction false} FractionTaken(doc: string, p: nat) returns (f: Option<string>)
    requires p <= |doc| && ReadFraction(doc, p).Some?
    ensures f.Some? ==> |f.value| > 0 && AllDigits(f.value)
    ensures FractionText(f) == doc[p..ReadFraction(doc, p).value]
  {
    var q := ReadFraction(doc, p).value;
    f := None;
    if q > p {
      DigitsTaken(doc, p + 1);
      f := Some(doc[p + 1..q]);
      assert doc[p..q] == [doc[p]] + doc[p + 1..q];
    }
  }

  lemma {:induction false} ExponentTaken(doc: string, p: nat) returns (x: Option<Exponent>)
    requires p <= |doc| && ReadExponent(doc, p).Some?
    ensures x.Some? ==> (x.value.e == 'e' || x.value.e == 'E') && x.value.sign in ["", "+", "-"]
                        && |x.value.digits| > 0 && AllDigits(x.value.digits)
    ensures ExponentText(x) == doc[p..ReadExponent(doc, p).value]
  {
    var q := ReadExponent(doc, p).value;
    x := None;
    if q > p {
      var s := SkipSign(doc, p + 1);
      DigitsTaken(doc, s);
      var sign, digits := doc[p + 1..s], doc[s..q];
      assert sign == if s == p + 1 then "" else [doc[p + 1]];
      x := Some(Exponent(doc[p], sign, digits));
      Join(doc, p + 1, s, q);
      Join(doc, p, p + 1, q);
      assert doc[p..p + 1] == [doc[p]];
    }
  }

  lemma {:induction false} NumberTaken(doc: string, p: nat) returns (n: Numeral)
    requires p <= |doc| && ReadNumber(doc, p).Some?
    ensures NumeralOk(n) && NumeralText(n) == doc[p..ReadNumber(doc, p).value]
  {
    hide ReadWhole, ReadFraction, ReadExponent, FractionText, ExponentText, AllDigits, SkipDigits;
    var a := if p < |doc| && doc[p] == '-' then p + 1 else p;
    var b := ReadWhole(doc, a).value;
    var c := ReadFraction(doc, b).value;
    var d := ReadExponent(doc, c).value;
    WholeTaken(doc, a);
    var fraction := FractionTaken(doc, b);
    var exponent := ExponentTaken(doc, c);
    n := Numeral(a > p, doc[a..b], fraction, exponent);
    assert Sign(n) == doc[p..a];
    Join(doc, b, c, d);
    Join(doc, a, b, d);
    Join(doc, p, a, d);
  }

  lemma {:induction false} WholeTaken(doc: string, p: nat)
    requires p <= |doc| && ReadWhole(doc, p).Some?
    ensures var t := doc[p..ReadWhole(doc, p).value]; AllDigits(t) && |t| > 0 && (t[0] == '0' ==> |t| == 1)
  {
    if doc[p] != '0' {
      DigitsTaken(doc, p + 1);
      var q := SkipDigits(doc, p + 1);
      assert doc[p..q] == [doc[p]] + doc[p + 1..q];
    }
  }

  // ------------------------------------------------------------ completeness

  /** What the reader must return for a value written as `x`. */
  function Verdict(x: Syntax, p: nat, depth: nat): Option<(Value, nat)>
    requires Ok(x)
  {
    if depth + Depth(x) <= MAX_DEPTH && WellPaired(x) then Some((Denote(x), p + |Spell(x)|)) else None
  }

  function ElementsVerdict(l: ElementList, p: nat, depth: nat): Option<(seq<Value>, nat)>
    requires ElementsOk(l)
  {
    if depth + DepthElements(l) <= MAX_DEPTH && ElementsPaired(l) then Some((DenoteElements(l), p + |SpellElements(l)|)) else None
  }

  function MembersVerdict(l: MemberList, p: nat, depth: nat): Option<(seq<Member>, nat)>
    requires MembersOk(l)
  {
    if depth + DepthMembers(l) <= MAX_DEPTH && MembersPaired(l) then Some((DenoteMembers(l), p + |SpellMembers(l)|)) else None
  }

  /** No value starts with a byte that ends one. */
  lemma {:induction false} FirstByte(doc: string, p: nat, x: Syntax)
    requires Ok(x) && Occurs(doc, Spell(x), p)
    ensures p < |doc| && !Ends(doc, p)
  {
    assert Spell(x) != "" && !Ends(Spell(x), 0) by {
      match x
      case Digits(n) =>
        if n.negative {
          assert NumeralText(n)[0] == '-';
        } else {
          assert NumeralText(n)[0] == n.whole[0] && IsDigit(n.whole[0]);
        }
      case _ =>
    }
    assert doc[p] == doc[p..p + |Spell(x)|][0] == Spell(x)[0];
  }

  lemma {:induction false} NotSpace(doc: string, p: nat)
    requires p < |doc| && !Ends(doc, p)
    ensures !IsSpace(doc[p]) && doc[p] != ']' && doc[p] != '}'
  {
  }

  lemma {:induction false} SkipTwice(doc: string, p: nat)
    requires p <= |doc|
    ensures SkipSpace(doc, SkipSpace(doc, p)) == SkipSpace(doc, p)
  {
    SpaceTaken(doc, p);
  }

  lemma {:induction false} WordRead(doc: string, p: nat, t: string, depth: nat)
    requires t in ["true", "false", "null"] && Occurs(doc, t, p)
    ensures ReadValue(doc, p, depth) == Some((if t == "null" then Null else Bool(t == "true"), p + |t|))
  {
    assert doc[p] == doc[p..p + |t|][0] == t[0];
    if t != "true" {
      assert !Occurs(doc, "true", p) by {
        assert "true"[0] == 't';
      }
    }
    if t == "null" {
      assert !Occurs(doc, "false", p) by {
        assert "false"[0] == 'f';
      }
    }
  }

  lemma {:induction false} EmptyRead(doc: string, p: nat, s: string, close: char)
    requires Spaces(s) && Occurs(doc, s + [close], p) && !IsSpace(close)
    ensures SkipSpace(doc, p) == p + |s| < |doc| && doc[p + |s|] == close
  {
    OccursConcat(doc, s, [close], p);
    OccursOne(doc, close, p + |s|);
    SpaceSkipped(doc, p, s);
  }

  /** The reader accepts a text of the grammar, with its value, exactly when it nests within the limit and pairs its surrogates. */
  lemma {:induction false} ValueRead(doc: string, p: nat, x: Syntax, depth: nat)
    requires Ok(x) && Occurs(doc, Spell(x), p) && Ends(doc, p + |Spell(x)|) && depth <= MAX_DEPTH
    ensures ReadValue(doc, p, depth) == Verdict(x, p, depth)
    decreases x, 1
  {
    hide Occurs, ReadNumber, ReadWord, ReadString, NumeralText, Ends, NumeralOk, ItemsOk, Closed, ReadElements, ReadMembers;
    hide Paired, Decoded;
    match x
    case Word(t) => WordRead(doc, p, t, depth);
    case Digits(n) =>
      NumberRead(doc, p, n);
      OccursText(doc, NumeralText(n), p);
    case Quoted(items) =>
      OccursConcat(doc, "\"", Closed(items), p);
      OccursOne(doc, '"', p);
      StringRead(doc, p + 1, items);
    case EmptyArray(s) =>
      OccursConcat(doc, "[", s + "]", p);
      OccursOne(doc, '[', p);
      EmptyRead(doc, p + 1, s, ']');
    case EmptyObject(s) =>
      OccursConcat(doc, "{", s + "}", p);
      OccursOne(doc, '{', p);
      EmptyRead(doc, p + 1, s, '}');
    case Elements(l) => ArrayRead(doc, p, l, depth);
    case Members(l) => ObjectRead(doc, p, l, depth);
  }

  lemma {:induction false} ArrayRead(doc: string, p: nat, l: ElementList, depth: nat)
    requires ElementsOk(l) && Occurs(doc, "[" + SpellElements(l), p) && depth <= MAX_DEPTH
    ensures p < |doc| && doc[p] == '[' && ReadArray(doc, p, depth) == Verdict(Elements(l), p, depth)
    decreases l, 1
  {
    hide Occurs, Ends, ReadElements, SpellElements, ElementsOk, DenoteElements, DepthElements, ElementsPaired, SkipSpace;
    OccursConcat(doc, "[", SpellElements(l), p);
    OccursOne(doc, '[', p);
    ElementsStart(doc, p + 1, l);
    NotSpace(doc, SkipSpace(doc, p + 1));
    if depth < MAX_DEPTH {
      ElementsRead(doc, p + 1, l, depth + 1);
      ElementsSkip(doc, p + 1, depth + 1);
    }
  }

  lemma {:induction false} ObjectRead(doc: string, p: nat, l: MemberList, depth: nat)
    requires MembersOk(l) && Occurs(doc, "{" + SpellMembers(l), p) && depth <= MAX_DEPTH
    ensures p < |doc| && doc[p] == '{' && ReadObject(doc, p, depth) == Verdict(Members(l), p, depth)
    decreases l, 1
  {
    hide Occurs, Ends, ReadMembers, SpellMembers, MembersOk, ReadName, Closed, DenoteMembers, DepthMembers, MembersPaired, SkipSpace, Paired, Decoded;
    OccursConcat(doc, "{", SpellMembers(l), p);
    OccursOne(doc, '{', p);
    MembersStart(doc, p + 1, l);
    if depth < MAX_DEPTH {
      MembersRead(doc, p + 1, l, depth + 1);
      MembersSkip(doc, p + 1, depth + 1);
    }
  }

  lemma {:induction false} OccursText(doc: string, t: string, p: nat)
    requires Occurs(doc, t, p)
    ensures p + |t| <= |doc| && doc[p..p + |t|] == t
  {
  }

  lemma {:induction false} ElementsSkip(doc: string, p: nat, depth: nat)
    requires p <= |doc|
    ensures ReadElements(doc, SkipSpace(doc, p), depth) == ReadElements(doc, p, depth)
  {
    SkipTwice(doc, p);
    hide ReadValue;
  }

  lemma {:induction false} MembersSkip(doc: string, p: nat, depth: nat)
    requires p <= |doc|
    ensures ReadMembers(doc, SkipSpace(doc, p), depth) == ReadMembers(doc, p, depth)
  {
    hide ReadValue, SkipSpace, ReadMembers;
    SkipTwice(doc, p);
    assert ReadName(doc, SkipSpace(doc, p)) == ReadName(doc, p);
    hide ReadName;
    match ReadName(doc, p)
    case None => MembersNone(doc, p, depth); MembersNone(doc, SkipSpace(doc, p), depth);
    case Some((name, n)) =>
      MembersFold(doc, p, depth, name, n);
      MembersFold(doc, SkipSpace(doc, p), depth, name, n);
  }

  /** The pieces of a list of elements, each where it stands. */
  lemma {:induction false} ElementsStart(doc: string, p: nat, l: ElementList)
    requires ElementsOk(l) && Occurs(doc, SpellElements(l), p)
    ensures var a := p + |l.before|;
            var b := a + |Spell(l.value)|;
            var c := b + |l.after|;
            && p <= |doc| && SkipSpace(doc, p) == a < |doc| && !Ends(doc, a) && Occurs(doc, Spell(l.value), a)
            && b <= |doc| && Ends(doc, b) && SkipSpace(doc, b) == c < |doc|
            && doc[c] == (if l.rest.None? then ']' else ',')
            && (l.rest.Some? ==> Occurs(doc, SpellElements(l.rest.value), c + 1))
            && p + |SpellElements(l)| == c + 1 + if l.rest.None? then 0 else |SpellElements(l.rest.value)|
  {
    hide Occurs, Ends, Spell, Spaces, SkipSpace;
    var rest := if l.rest.None? then "" else SpellElements(l.rest.value);
    ValuePlace(doc, p, l.before, l.value, l.after, if l.rest.None? then "]" else "," + rest, ']', rest);
  }

  /** White space, a value, white space and what closes or continues the list, each where it stands. */
  lemma {:induction false} ValuePlace(doc: string, p: nat, before: string, x: Syntax, after: string, end: string,
                                      close: char, rest: string)
    requires Spaces(before) && Ok(x) && Spaces(after) && Occurs(doc, before + (Spell(x) + (after + end)), p)
    requires (end == [close] || end == "," + rest) && (close == ']' || close == '}')
    ensures var a := p + |before|;
            var b := a + |Spell(x)|;
            var c := b + |after|;
            && p <= |doc| && SkipSpace(doc, p) == a < |doc| && !Ends(doc, a) && Occurs(doc, Spell(x), a)
            && b <= |doc| && Ends(doc, b) && SkipSpace(doc, b) == c < |doc| && doc[c] == end[0]
            && (end == "," + rest ==> Occurs(doc, rest, c + 1))
  {
    hide Occurs, Ends, Spell, Spaces;
    var a := p + |before|;
    var b := a + |Spell(x)|;
    OccursConcat(doc, before, Spell(x) + (after + end), p);
    OccursConcat(doc, Spell(x), after + end, a);
    OccursConcat(doc, after, end, b);
    FirstByte(doc, a, x);
    NotSpace(doc, a);
    SpaceSkipped(doc, p, before);
    ListEnd(doc, b, after, end, close, rest);
  }

  lemma {:induction false} ListEnd(doc: string, p: nat, space: string, end: string, close: char, rest: string)
    requires Occurs(doc, space, p) && Spaces(space) && Occurs(doc, end, p + |space|)
    requires end == [close] || end == "," + rest
    requires close == ']' || close == '}'
    ensures p <= |doc| && Ends(doc, p) && SkipSpace(doc, p) == p + |space| < |doc| && doc[p + |space|] == end[0]
    ensures end == "," + rest ==> Occurs(doc, rest, p + |space| + 1)
  {
    var c := p + |space|;
    assert doc[c] == doc[c..c + |end|][0] == end[0];
    if end == "," + rest {
      OccursConcat(doc, ",", rest, c);
    }
    SpaceSkipped(doc, p, space);
    if space != "" {
      assert doc[p] == doc[p..c][0] == space[0];
    }
  }

  lemma {:induction false} ElementsRead(doc: string, p: nat, l: ElementList, depth: nat)
    requires ElementsOk(l) && Occurs(doc, SpellElements(l), p) && depth <= MAX_DEPTH
    ensures p <= |doc| && ReadElements(doc, p, depth) == ElementsVerdict(l, p, depth)
    decreases l, 0
  {
    hide Occurs, Ends, ReadValue, Spell, Denote, Depth, WellPaired, SkipSpace;
    ElementsStart(doc, p, l);
    var a := p + |l.before|;
    ValueRead(doc, a, l.value, depth);
    if l.rest.Some? {
      ElementsRead(doc, a + |Spell(l.value)| + |l.after| + 1, l.rest.value, depth);
    } else if WellPaired(l.value) {
      assert DenoteElements(l) == [Denote(l.value)];
    }
  }

  lemma {:induction false} MembersStart(doc: string, p: nat, l: MemberList)
    requires MembersOk(l) && Occurs(doc, SpellMembers(l), p)
    ensures var n := p + |l.before| + 1 + |Closed(l.name)| + |l.colon| + 1;
            var a := n + |l.between|;
            var b := a + |Spell(l.value)|;
            var c := b + |l.after|;
            && p <= |doc| && SkipSpace(doc, p) == p + |l.before| < |doc| && doc[p + |l.before|] == '"'
            && n <= |doc| && ReadName(doc, p) == NameVerdict(l, n)
            && SkipSpace(doc, n) == a && Occurs(doc, Spell(l.value), a)
            && b <= |doc| && Ends(doc, b) && SkipSpace(doc, b) == c < |doc|
            && doc[c] == (if l.rest.None? then '}' else ',')
            && (l.rest.Some? ==> Occurs(doc, SpellMembers(l.rest.value), c + 1))
            && p + |SpellMembers(l)| == c + 1 + if l.rest.None? then 0 else |SpellMembers(l.rest.value)|
  {
    hide Occurs, Ends, ReadName, Closed, NameVerdict, Spaces, Spell, SkipSpace;
    var rest := if l.rest.None? then "" else SpellMembers(l.rest.value);
    var end := if l.rest.None? then "}" else "," + rest;
    NameStart(doc, p, l, Spell(l.value) + (l.after + end));
    var n := p + |l.before| + 1 + |Closed(l.name)| + |l.colon| + 1;
    ValuePlace(doc, n, l.between, l.value, l.after, end, '}', rest);
  }

  /** The name of a member, unless it holds an unpaired surrogate escape. */
  function NameVerdict(l: MemberList, n: nat): Option<(string, nat)>
    requires MembersOk(l)
  {
    if Paired(l.name) then Some((Decoded(l.name), n)) else None
  }

  lemma {:induction false} NameStart(doc: string, p: nat, l: MemberList, value: string)
    requires MembersOk(l)
    requires Occurs(doc, l.before + ("\"" + (Closed(l.name) + (l.colon + (":" + (l.between + value))))), p)
    ensures var n := p + |l.before| + 1 + |Closed(l.name)| + |l.colon| + 1;
            && p <= |doc| && SkipSpace(doc, p) == p + |l.before| < |doc| && doc[p + |l.before|] == '"'
            && n <= |doc| && ReadName(doc, p) == NameVerdict(l, n) && Occurs(doc, l.between + value, n)
  {
    hide Occurs, Closed, Decoded, ReadString, Spaces;
    var rest3 := l.between + value;
    var rest2 := l.colon + (":" + rest3);
    var q := p + |l.before|;
    var e := q + 1 + |Closed(l.name)|;
    var c := e + |l.colon|;
    OccursConcat(doc, l.before, "\"" + (Closed(l.name) + rest2), p);
    OccursConcat(doc, "\"", Closed(l.name) + rest2, q);
    OccursConcat(doc, Closed(l.name), rest2, q + 1);
    OccursConcat(doc, l.colon, ":" + rest3, e);
    OccursConcat(doc, ":", rest3, c);
    OccursOne(doc, '"', q);
    OccursOne(doc, ':', c);
    StringRead(doc, q + 1, l.name);
    SpaceSkipped(doc, p, l.before);
    SpaceSkipped(doc, e, l.colon);
  }

  lemma {:induction false} MembersNone(doc: string, p: nat, depth: nat)
    requires p <= |doc| && ReadName(doc, p).None?
    ensures ReadMembers(doc, p, depth) == None
  {
  }

  lemma {:induction false} MembersFold(doc: string, p: nat, depth: nat, name: string, n: nat)
    requires p <= |doc| && n <= |doc| && ReadName(doc, p) == Some((name, n))
    ensures match ReadValue(doc, SkipSpace(doc, n), depth)
            case None => ReadMembers(doc, p, depth) == None
            case Some((v, b)) =>
              var c := SkipSpace(doc, b);
              if c < |doc| && doc[c] == '}' then ReadMembers(doc, p, depth) == Some(([Member(name, v)], c + 1))
              else if c < |doc| && doc[c] == ',' then
                match ReadMembers(doc, c + 1, depth)
                case None => ReadMembers(doc, p, depth) == None
                case Some((ms, end)) => ReadMembers(doc, p, depth) == Some(([Member(name, v)] + ms, end))
              else ReadMembers(doc, p, depth) == None
  {
    hide ReadValue, ReadName;
  }

  lemma {:induction false} MembersRead(doc: string, p: nat, l: MemberList, depth: nat)
    requires MembersOk(l) && Occurs(doc, SpellMembers(l), p) && depth <= MAX_DEPTH
    ensures p <= |doc| && ReadMembers(doc, p, depth) == MembersVerdict(l, p, depth)
    decreases l, 0
  {
    hide Occurs, Ends, ReadValue, ReadName, Spell, Denote, Depth, Closed, Decoded, Paired, WellPaired, SkipSpace;
    hide ReadMembers, SpellMembers;
    MembersStart(doc, p, l);
    var n := p + |l.before| + 1 + |Closed(l.name)| + |l.colon| + 1;
    var a := n + |l.between|;
    if !Paired(l.name) {
      MembersNone(doc, p, depth);
    } else {
      MembersFold(doc, p, depth, Decoded(l.name), n);
      ValueRead(doc, a, l.value, depth);
      if l.rest.Some? {
        MembersRead(doc, a + |Spell(l.value)| + |l.after| + 1, l.rest.value, depth);
      } else if WellPaired(l.value) {
        assert DenoteMembers(l) == [Member(Decoded(l.name), Denote(l.value))];
      }
    }
  }

  // --------------------------------------------------------------- soundness

  lemma {:induction false} SpaceFound(doc: string, p: nat) returns (s: string)
    requires p <= |doc|
    ensures Spaces(s) && Occurs(doc, s, p) && SkipSpace(doc, p) == p + |s|
  {
    SpaceTaken(doc, p);
    s := doc[p..SkipSpace(doc, p)];
  }

  lemma {:induction false} Prefixed(doc: string, c: char, t: string, p: nat)
    requires p < |doc| && doc[p] == c && Occurs(doc, t, p + 1)
    ensures Occurs(doc, [c] + t, p)
  {
    OccursOne(doc, c, p);
    OccursConcat(doc, [c], t, p);
  }

  lemma {:induction false} Single(doc: string, c: char, p: nat)
    requires p < |doc| && doc[p] == c
    ensures Occurs(doc, [c], p)
  {
    OccursOne(doc, c, p);
  }

  lemma {:induction false} Appended(doc: string, a: string, b: string, p: nat)
    requires Occurs(doc, a, p) && Occurs(doc, b, p + |a|)
    ensures Occurs(doc, a + b, p)
  {
    OccursConcat(doc, a, b, p);
  }

  /** Whatever the reader accepts is a text of the grammar, nested within the limit, that denotes what it returns. */
  lemma {:induction false} ValueTaken(doc: string, p: nat, depth: nat) returns (x: Syntax)
    requires p <= |doc| && depth <= MAX_DEPTH && ReadValue(doc, p, depth).Some?
    ensures Ok(x) && WellPaired(x) && Occurs(doc, Spell(x), p) && depth + Depth(x) <= MAX_DEPTH
    ensures ReadValue(doc, p, depth) == Some((Denote(x), p + |Spell(x)|))
    decreases |doc| - p, 1
  {
    hide Occurs, ReadNumber, ReadString, NumeralText, NumeralOk, ItemsOk, Paired, Closed, Decoded, ReadArray, ReadObject;
    if doc[p] == '[' {
      x := ArrayTaken(doc, p, depth);
    } else if doc[p] == '{' {
      x := ObjectTaken(doc, p, depth);
    } else if doc[p] == '"' {
      var items := StringTaken(doc, p + 1);
      x := Quoted(items);
      Prefixed(doc, '"', Closed(items), p);
    } else if doc[p] == '-' || IsDigit(doc[p]) {
      var n := NumberTaken(doc, p);
      x := Digits(n);
      TextOccurs(doc, p, ReadNumber(doc, p).value);
    } else {
      x := Word(if Occurs(doc, "true", p) then "true" else if Occurs(doc, "false", p) then "false" else "null");
    }
  }

  lemma {:induction false} TextOccurs(doc: string, p: nat, q: nat)
    requires p <= q <= |doc|
    ensures Occurs(doc, doc[p..q], p)
  {
  }

  lemma {:induction false} EmptyMade(s: string)
    requires Spaces(s)
    ensures var x := EmptyArray(s);
            Ok(x) && WellPaired(x) && Spell(x) == "[" + (s + "]") && Denote(x) == Array([]) && Depth(x) == 1
    ensures var x := EmptyObject(s);
            Ok(x) && WellPaired(x) && Spell(x) == "{" + (s + "}") && Denote(x) == Object([]) && Depth(x) == 1
  {
  }

  lemma {:induction false} ElementsMade(l: ElementList)
    requires ElementsOk(l) && ElementsPaired(l)
    ensures var x := Elements(l);
            && Ok(x) && WellPaired(x) && Spell(x) == "[" + SpellElements(l)
            && Denote(x) == Array(DenoteElements(l)) && Depth(x) == 1 + DepthElements(l)
  {
  }

  lemma {:induction false} MembersMade(l: MemberList)
    requires MembersOk(l) && MembersPaired(l)
    ensures var x := Members(l);
            && Ok(x) && WellPaired(x) && Spell(x) == "{" + SpellMembers(l)
            && Denote(x) == Object(DenoteMembers(l)) && Depth(x) == 1 + DepthMembers(l)
  {
  }

  lemma {:induction false} ArrayTaken(doc: string, p: nat, depth: nat) returns (x: Syntax)
    requires p < |doc| && doc[p] == '[' && depth <= MAX_DEPTH && ReadArray(doc, p, depth).Some?
    ensures Ok(x) && WellPaired(x) && Occurs(doc, Spell(x), p) && depth + Depth(x) <= MAX_DEPTH
    ensures ReadArray(doc, p, depth) == Some((Denote(x), p + |Spell(x)|))
    decreases |doc| - p, 0
  {
    hide Occurs, ReadElements, Spaces, ElementsOk, ElementsPaired, SpellElements, DenoteElements, DepthElements;
    hide Ok, WellPaired, Spell, Denote, Depth, SkipSpace;
    var q := SkipSpace(doc, p + 1);
    if q < |doc| && doc[q] == ']' {
      var s := SpaceFound(doc, p + 1);
      Single(doc, ']', q);
      Appended(doc, s, "]", p + 1);
      Prefixed(doc, '[', s + "]", p);
      EmptyMade(s);
      x := EmptyArray(s);
    } else {
      ElementsSkip(doc, p + 1, depth + 1);
      var l := ElementsTaken(doc, p + 1, depth + 1);
      Prefixed(doc, '[', SpellElements(l), p);
      ElementsMade(l);
      x := Elements(l);
    }
  }

  lemma {:induction false} ObjectTaken(doc: string, p: nat, depth: nat) returns (x: Syntax)
    requires p < |doc| && doc[p] == '{' && depth <= MAX_DEPTH && ReadObject(doc, p, depth).Some?
    ensures Ok(x) && WellPaired(x) && Occurs(doc, Spell(x), p) && depth + Depth(x) <= MAX_DEPTH
    ensures ReadObject(doc, p, depth) == Some((Denote(x), p + |Spell(x)|))
    decreases |doc| - p, 0
  {
    hide Occurs, ReadMembers, Spaces, MembersOk, MembersPaired, SpellMembers, DenoteMembers, DepthMembers;
    hide Ok, WellPaired, Spell, Denote, Depth, SkipSpace;
    var q := SkipSpace(doc, p + 1);
    if q < |doc| && doc[q] == '}' {
      var s := SpaceFound(doc, p + 1);
      Single(doc, '}', q);
      Appended(doc, s, "}", p + 1);
      Prefixed(doc, '{', s + "}", p);
      EmptyMade(s);
      x := EmptyObject(s);
    } else {
      MembersSkip(doc, p + 1, depth + 1);
      var l := MembersTaken(doc, p + 1, depth + 1);
      Prefixed(doc, '{', SpellMembers(l), p);
      MembersMade(l);
      x := Members(l);
    }
  }

  /** A list of elements from its pieces. */
  lemma {:induction false} MakeElements(before: string, x: Syntax, after: string, rest: Option<ElementList>)
      returns (l: ElementList, end: string)
    requires Spaces(before) && Ok(x) && WellPaired(x) && Spaces(after)
    requires rest.Some? ==> ElementsOk(rest.value) && ElementsPaired(rest.value)
    ensures ElementsOk(l) && ElementsPaired(l) && SpellElements(l) == before + (Spell(x) + (after + end))
    ensures |SpellElements(l)| == |before| + |Spell(x)| + |after| + |end|
    ensures end == if rest.None? then "]" else [','] + SpellElements(rest.value)
    ensures DenoteElements(l) == if rest.None? then [Denote(x)] else [Denote(x)] + DenoteElements(rest.value)
    ensures DepthElements(l) == if rest.None? then Depth(x) else Max(Depth(x), DepthElements(rest.value))
  {
    hide Spell, Denote, Depth, Spaces, Ok, WellPaired;
    l := ElementList(before, x, after, rest);
    end := if rest.None? then "]" else [','] + SpellElements(rest.value);
    assert rest.None? ==> DenoteElements(l) == [Denote(x)];
  }

  lemma {:induction false} ElementsUnfold(doc: string, p: nat, depth: nat) returns (v: Value, b: nat, c: nat)
    requires p <= |doc| && ReadElements(doc, p, depth).Some?
    ensures ReadValue(doc, SkipSpace(doc, p), depth) == Some((v, b)) && b <= |doc| && c == SkipSpace(doc, b) < |doc|
    ensures SkipSpace(doc, p) < b
    ensures doc[c] == ']' ==> ReadElements(doc, p, depth) == Some(([v], c + 1))
    ensures doc[c] != ']' ==>
              var r := ReadElements(doc, c + 1, depth);
              doc[c] == ',' && r.Some? && ReadElements(doc, p, depth) == Some(([v] + r.value.0, r.value.1))
  {
    hide ReadValue;
    v, b := ReadValue(doc, SkipSpace(doc, p), depth).value.0, ReadValue(doc, SkipSpace(doc, p), depth).value.1;
    c := SkipSpace(doc, b);
  }

  lemma {:induction false} MaxWithin(depth: nat)
    ensures forall a, b :: depth + a <= MAX_DEPTH && depth + b <= MAX_DEPTH ==> depth + Max(a, b) <= MAX_DEPTH
  {
  }

  lemma {:induction false} ElementsTaken(doc: string, p: nat, depth: nat) returns (l: ElementList)
    requires p <= |doc| && depth <= MAX_DEPTH && ReadElements(doc, p, depth).Some?
    ensures ElementsOk(l) && ElementsPaired(l) && Occurs(doc, SpellElements(l), p) && depth + DepthElements(l) <= MAX_DEPTH
    ensures ReadElements(doc, p, depth) == Some((DenoteElements(l), p + |SpellElements(l)|))
    decreases |doc| - p, 2
  {
    hide Occurs, Spaces, ReadValue, Ok, Spell, Denote, Depth, ElementsOk, SpellElements, DenoteElements, DepthElements;
    hide ReadElements, SkipSpace, WellPaired, ElementsPaired;
    var v, b, c := ElementsUnfold(doc, p, depth);
    var before := SpaceFound(doc, p);
    var a := SkipSpace(doc, p);
    var x := ValueTaken(doc, a, depth);
    var after := SpaceFound(doc, b);
    hide Max;
    MaxWithin(depth);
    if doc[c] == ']' {
      var end;
      l, end := MakeElements(before, x, after, None);
      Single(doc, ']', c);
      ValueSpelt(doc, p, before, x, after, end);
    } else {
      var r := ElementsTaken(doc, c + 1, depth);
      var end;
      l, end := MakeElements(before, x, after, Some(r));
      Prefixed(doc, ',', SpellElements(r), c);
      ValueSpelt(doc, p, before, x, after, end);
    }
  }

  lemma {:induction false} NameTaken(doc: string, p: nat) returns (before: string, name: seq<Item>, colon: string)
    requires p <= |doc| && ReadName(doc, p).Some?
    ensures Spaces(before) && ItemsOk(name) && Paired(name) && Spaces(colon)
    ensures ReadName(doc, p) == Some((Decoded(name), p + |before| + 1 + |Closed(name)| + |colon| + 1))
    ensures var q := p + |before|; var e := q + 1 + |Closed(name)|;
            && Occurs(doc, before, p) && Occurs(doc, "\"", q) && Occurs(doc, Closed(name), q + 1)
            && Occurs(doc, colon, e) && Occurs(doc, ":", e + |colon|)
  {
    hide Occurs, Spaces, ItemsOk, Paired, Closed, Decoded, ReadString;
    before := SpaceFound(doc, p);
    var q := SkipSpace(doc, p);
    name := StringTaken(doc, q + 1);
    var e := q + 1 + |Closed(name)|;
    colon := SpaceFound(doc, e);
    Single(doc, '"', q);
    Single(doc, ':', SkipSpace(doc, e));
  }

  /** A list of members from its pieces. */
  lemma {:induction false} MakeMembers(before: string, name: seq<Item>, colon: string, between: string, x: Syntax,
                                       after: string, rest: Option<MemberList>)
      returns (l: MemberList, end: string)
    requires Spaces(before) && ItemsOk(name) && Paired(name) && Spaces(colon) && Spaces(between) && Ok(x) && WellPaired(x) && Spaces(after)
    requires rest.Some? ==> MembersOk(rest.value) && MembersPaired(rest.value)
    ensures MembersOk(l) && MembersPaired(l)
    ensures SpellMembers(l) == before + ("\"" + (Closed(name) + (colon + (":" + (between + (Spell(x) + (after + end)))))))
    ensures |SpellMembers(l)| == |before| + 1 + |Closed(name)| + |colon| + 1 + |between| + |Spell(x)| + |after| + |end|
    ensures end == if rest.None? then "}" else [','] + SpellMembers(rest.value)
    ensures var m := Member(Decoded(name), Denote(x));
            DenoteMembers(l) == if rest.None? then [m] else [m] + DenoteMembers(rest.value)
    ensures DepthMembers(l) == if rest.None? then Depth(x) else Max(Depth(x), DepthMembers(rest.value))
  {
    hide Spell, Denote, Depth, Spaces, Ok, WellPaired, ItemsOk, Paired, Closed, Decoded;
    l := MemberList(before, name, colon, between, x, after, rest);
    end := if rest.None? then "}" else [','] + SpellMembers(rest.value);
    assert rest.None? ==> DenoteMembers(l) == [Member(Decoded(name), Denote(x))];
  }

  lemma {:induction false} MembersUnfold(doc: string, p: nat, depth: nat) returns (name: string, n: nat, v: Value, b: nat, c: nat)
    requires p <= |doc| && ReadMembers(doc, p, depth).Some?
    ensures ReadName(doc, p) == Some((name, n)) && p < n <= |doc|
    ensures ReadValue(doc, SkipSpace(doc, n), depth) == Some((v, b)) && b <= |doc| && c == SkipSpace(doc, b) < |doc|
    ensures SkipSpace(doc, n) < b
    ensures doc[c] == '}' ==> ReadMembers(doc, p, depth) == Some(([Member(name, v)], c + 1))
    ensures doc[c] != '}' ==>
              var r := ReadMembers(doc, c + 1, depth);
              doc[c] == ',' && r.Some? && ReadMembers(doc, p, depth) == Some(([Member(name, v)] + r.value.0, r.value.1))
  {
    hide ReadValue, ReadName;
    name, n := ReadName(doc, p).value.0, ReadName(doc, p).value.1;
    v, b := ReadValue(doc, SkipSpace(doc, n), depth).value.0, ReadValue(doc, SkipSpace(doc, n), depth).value.1;
    c := SkipSpace(doc, b);
  }

  lemma {:induction false} MembersTaken(doc: string, p: nat, depth: nat) returns (l: MemberList)
    requires p <= |doc| && depth <= MAX_DEPTH && ReadMembers(doc, p, depth).Some?
    ensures MembersOk(l) && MembersPaired(l) && Occurs(doc, SpellMembers(l), p) && depth + DepthMembers(l) <= MAX_DEPTH
    ensures ReadMembers(doc, p, depth) == Some((DenoteMembers(l), p + |SpellMembers(l)|))
    decreases |doc| - p, 2
  {
    hide Occurs, Spaces, ReadName, ReadValue, Ok, Spell, Denote, Depth, ItemsOk, Closed, Decoded;
    hide MembersOk, SpellMembers, DenoteMembers, DepthMembers, ReadMembers, SkipSpace, Paired, WellPaired, MembersPaired;
    var key, n, v, b, c := MembersUnfold(doc, p, depth);
    var before, name, colon := NameTaken(doc, p);
    var between := SpaceFound(doc, n);
    var a := SkipSpace(doc, n);
    var x := ValueTaken(doc, a, depth);
    var after := SpaceFound(doc, b);
    hide Max;
    MaxWithin(depth);
    var end := "";
    if doc[c] == '}' {
      l, end := MakeMembers(before, name, colon, between, x, after, None);
      Single(doc, '}', c);
    } else {
      var r := MembersTaken(doc, c + 1, depth);
      l, end := MakeMembers(before, name, colon, between, x, after, Some(r));
      Prefixed(doc, ',', SpellMembers(r), c);
    }
    ValueSpelt(doc, n, between, x, after, end);
    MemberSpelt(doc, p, before, name, colon, between + (Spell(x) + (after + end)));
  }

  lemma {:induction false} ValueSpelt(doc: string, p: nat, before: string, x: Syntax, after: string, end: string)
    requires var a := p + |before|; var b := a + |Spell(x)|;
             Occurs(doc, before, p) && Occurs(doc, Spell(x), a) && Occurs(doc, after, b) && Occurs(doc, end, b + |after|)
    ensures Occurs(doc, before + (Spell(x) + (after + end)), p)
  {
    hide Occurs, Spell;
    var a := p + |before|;
    Appended(doc, after, end, a + |Spell(x)|);
    Appended(doc, Spell(x), after + end, a);
    Appended(doc, before, Spell(x) + (after + end), p);
  }

  lemma {:induction false} MemberSpelt(doc: string, p: nat, before: string, name: seq<Item>, colon: string, value: string)
    requires var q := p + |before|; var e := q + 1 + |Closed(name)|;
             && Occurs(doc, before, p) && Occurs(doc, "\"", q) && Occurs(doc, Closed(name), q + 1)
             && Occurs(doc, colon, e) && Occurs(doc, ":", e + |colon|) && Occurs(doc, value, e + |colon| + 1)
    ensures Occurs(doc, before + ("\"" + (Closed(name) + (colon + (":" + value)))), p)
  {
    hide Occurs, Closed;
    var q := p + |before|;
    var e := q + 1 + |Closed(name)|;
    Appended(doc, ":", value, e + |colon|);
    Appended(doc, colon, ":" + value, e);
    Appended(doc, Closed(name), colon + (":" + value), q + 1);
    Appended(doc, "\"", Closed(name) + (colon + (":" + value)), q);
    Appended(doc, before, "\"" + (Closed(name) + (colon + (":" + value))), p);
  }

  // --------------------------------------------------------- whole documents

  /** A document and one way to read it as white space, a value and white space. */
  predicate Document(doc: string, before: string, x: Syntax, after: string) {
    Spaces(before) && Ok(x) && Spaces(after) && doc == before + (Spell(x) + after)
  }

  /** The verdict on a document of the grammar: its value if it nests within the limit and pairs its surrogates, rejection otherwise. */
  lemma {:induction false} ParseGrammar(doc: string, before: string, x: Syntax, after: string)
    requires Document(doc, before, x, after)
    ensures Parse(doc) == if Depth(x) <= MAX_DEPTH && WellPaired(x) then Some(Denote(x)) else None
  {
    hide Spell, Ok, Denote, ReadValue, Depth, SkipSpace, WellPaired;
    assert Occurs(doc, before + (Spell(x) + after), 0);
    var a := |before|;
    var b := a + |Spell(x)|;
    OccursConcat(doc, before, Spell(x) + after, 0);
    OccursConcat(doc, Spell(x), after, a);
    FirstByte(doc, a, x);
    assert b + |after| == |doc|;
    SpaceSkipped(doc, 0, before);
    SpaceSkipped(doc, b, after);
    if after != "" {
      assert doc[b] == doc[b..b + |after|][0] == after[0];
    }
    ValueRead(doc, a, x, 0);
  }

  /** `x` reads `doc` within the depth limit, without unpaired surrogates, as `v`. */
  predicate Reads(doc: string, before: string, x: Syntax, after: string, v: Value) {
    Document(doc, before, x, after) && Depth(x) <= MAX_DEPTH && WellPaired(x) && Denote(x) == v
  }

  /**
   The parser accepts a document with a value exactly when the grammar derives
   it within 32 levels and without unpaired surrogate escapes, with that value.
   */
  lemma {:induction false} ParseExactly(doc: string, v: Value)
    ensures Parse(doc) == Some(v) <==> exists before, x, after :: Reads(doc, before, x, after, v)
  {
    hide Spell, Ok, Denote, ReadValue, Depth, Spaces, SkipSpace, WellPaired;
    if Parse(doc) == Some(v) {
      var before := SpaceFound(doc, 0);
      var x := ValueTaken(doc, |before|, 0);
      var b := |before| + |Spell(x)|;
      var after := SpaceFound(doc, b);
      Appended(doc, Spell(x), after, |before|);
      Appended(doc, before, Spell(x) + after, 0);
      assert doc == doc[0..|doc|];
      assert Reads(doc, before, x, after, v);
    }
    forall before, x, after | Reads(doc, before, x, after, v)
      ensures Parse(doc) == Some(v)
    {
      ParseGrammar(doc, before, x, after);
    }
  }

  /** A text of RFC 8259 that the parser refuses: a string that is one half of a surrogate pair. */
  lemma {:induction false} LoneSurrogateRefused()
    ensures Document("\"\\ud800\"", "", Quoted([Unit("d800")]), "") && Depth(Quoted([Unit("d800")])) == 0
    ensures Parse("\"\\ud800\"") == None
  {
    var u := Unit("d800");
    var doc, x := "\"\\ud800\"", Quoted([u]);
    assert Hex4("d800") == 0xd800;
    assert HighUnit(u);
    assert Closed([u]) == ItemText(u) + Closed([u][1..]);
    assert [u][1..] == [];
    assert doc == "" + (Spell(x) + "");
    assert Document(doc, "", x, "");
    assert !PairedAt([u], 0);
    ParseGrammar(doc, "", x, "");
  }

  /** No text of RFC 8259, which asks for UTF-8, yet accepted: a string of one byte that starts no UTF-8 sequence. */
  lemma {:induction false} IllFormedUtf8Accepted()
    ensures Parse(['"', 0xff as char, '"']) == Some(Text([0xff as char])) && FromUtf8([0xff as char]) == None
  {
    var c := 0xff as char;
    var r := Raw(c);
    var doc, x := ['"', c, '"'], Quoted([r]);
    assert [r][1..] == [];
    assert Closed([r]) == ItemText(r) + Closed([r][1..]);
    assert doc == "" + (Spell(x) + "");
    assert Document(doc, "", x, "");
    assert PairedAt([r], 0) && Paired([r]);
    assert !HighUnit([r][0]);
    assert Decoded([r]) == ItemBytes(r) + Decoded([r][1..]) == [c];
    ParseGrammar(doc, "", x, "");
  }
}
