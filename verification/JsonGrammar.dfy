/**
 JSON texts as section 2 to 7 of RFC 8259 write them down, byte by byte: a
 concrete syntax tree for every text, the text it spells and, unless one of its
 strings holds an unpaired surrogate escape, the value it denotes. Nothing here
 knows how a text is read.

 A string may hold any byte from 0x20 on, as it stands: that bytes at or above
 0x80 form valid UTF-8, as section 8.1 asks of a text, is not part of this
 grammar, so it derives every text of RFC 8259 and ill-formed ones besides.
 */
module JsonGrammar {
  import opened Bytes

  datatype Value =
    | Null
    | Bool(truth: bool)
    | Number(text: string)
    | Text(bytes: string)
    | Array(items: seq<Value>)
    | Object(members: seq<Member>)

  datatype Member = Member(name: string, value: Value)

  // ----------------------------------------------------------------- strings

  /** One character of a string literal, as written. */
  datatype Item = Raw(c: char) | Short(c: char) | Unit(hex: string)

  predicate IsShort(c: char) { c in "\"\\/bfnrt" }

  function Unescape(c: char): char {
    match c
    case 'b' => 8 as char
    case 'f' => 12 as char
    case 'n' => '\n'
    case 'r' => '\r'
    case 't' => '\t'
    case _ => c
  }

  /** The eight short escapes of section 7 of RFC 8259, by the codes they stand for. */
  lemma {:induction false} ShortEscapes()
    ensures forall c :: IsShort(c) <==> c in {'"', '\\', '/', 'b', 'f', 'n', 'r', 't'}
    ensures Unescape('"') as int == 0x22 && Unescape('\\') as int == 0x5c && Unescape('/') as int == 0x2f
    ensures Unescape('b') as int == 0x08 && Unescape('f') as int == 0x0c && Unescape('n') as int == 0x0a
    ensures Unescape('r') as int == 0x0d && Unescape('t') as int == 0x09
  {
    assert forall c :: IsShort(c) <==> exists i :: 0 <= i < 8 && "\"\\/bfnrt"[i] == c;
  }

  predicate IsHex4(h: string) {
    |h| == 4 && IsHex(h[0]) && IsHex(h[1]) && IsHex(h[2]) && IsHex(h[3])
  }

  function Hex4(h: string): (v: nat)
    requires IsHex4(h)
    ensures v < 0x10000
  {
    HexValue(h[0]) * 0x1000 + HexValue(h[1]) * 0x100 + HexValue(h[2]) * 0x10 + HexValue(h[3])
  }

  predicate IsHigh(u: nat) { 0xd800 <= u <= 0xdbff }

  predicate IsLow(u: nat) { 0xdc00 <= u <= 0xdfff }

  /** A Unicode scalar value. */
  predicate IsScalar(cp: nat) { cp < 0x110000 && !IsHigh(cp) && !IsLow(cp) }

  function Combine(high: nat, low: nat): (cp: nat)
    requires IsHigh(high) && IsLow(low)
    ensures IsScalar(cp) && cp >= 0x10000
  {
    0x10000 + (high - 0xd800) * 0x400 + (low - 0xdc00)
  }

  /** Every code point beyond the first plane is spelt by one surrogate pair, ten bits in each half. */
  lemma {:induction false} SurrogatePair(cp: nat, high: nat, low: nat)
    requires 0x10000 <= cp < 0x110000 && IsHigh(high) && IsLow(low)
    ensures Combine(high, low) == cp <==> high == 0xd800 + (cp - 0x10000) / 0x400 && low == 0xdc00 + (cp - 0x10000) % 0x400
  {
    var a, b, v := high - 0xd800, low - 0xdc00, cp - 0x10000;
    assert v == v / 0x400 * 0x400 + v % 0x400 && v % 0x400 < 0x400;
    if a * 0x400 + b == v {
      assert v / 0x400 == a && v % 0x400 == b;
    }
  }

  function Utf8(cp: nat): (bytes: string)
    requires cp < 0x110000
    ensures 1 <= |bytes| <= 4 && (cp < 0x10000 ==> |bytes| <= 3)
  {
    if cp < 0x80 then [cp as char]
    else if cp < 0x800 then [(0xc0 + cp / 0x40) as char, (0x80 + cp % 0x40) as char]
    else if cp < 0x10000 then
      [(0xe0 + cp / 0x1000) as char, (0x80 + cp / 0x40 % 0x40) as char, (0x80 + cp % 0x40) as char]
    else
      [(0xf0 + cp / 0x40000) as char, (0x80 + cp / 0x1000 % 0x40) as char,
       (0x80 + cp / 0x40 % 0x40) as char, (0x80 + cp % 0x40) as char]
  }

  /** Any \\u escape is well formed, a surrogate too. */
  predicate ItemOk(i: Item) {
    match i
    case Raw(c) => c >= ' ' && c != '"' && c != '\\'
    case Short(c) => IsShort(c)
    case Unit(h) => IsHex4(h)
  }

  function ItemText(i: Item): (t: string)
    ensures |t| >= 1
  {
    match i
    case Raw(c) => [c]
    case Short(c) => ['\\', c]
    case Unit(h) => "\\u" + h
  }

  /** The first and the second half of a surrogate pair. */
  predicate HighUnit(i: Item) { i.Unit? && IsHex4(i.hex) && IsHigh(Hex4(i.hex)) }

  predicate LowUnit(i: Item) { i.Unit? && IsHex4(i.hex) && IsLow(Hex4(i.hex)) }

  function ItemBytes(i: Item): string
    requires ItemOk(i) && !HighUnit(i) && !LowUnit(i)
  {
    match i
    case Raw(c) => [c]
    case Short(c) => [Unescape(c)]
    case Unit(h) => Utf8(Hex4(h))
  }

  predicate ItemsOk(items: seq<Item>) {
    forall i :: 0 <= i < |items| ==> ItemOk(items[i])
  }

  /** A surrogate escape stands next to its other half. */
  predicate PairedAt(items: seq<Item>, i: nat)
    requires i < |items|
  {
    && (HighUnit(items[i]) ==> i + 1 < |items| && LowUnit(items[i + 1]))
    && (LowUnit(items[i]) ==> i > 0 && HighUnit(items[i - 1]))
  }

  /** No surrogate escape is unpaired; section 8.2 of RFC 8259 is about strings where one is. */
  predicate Paired(items: seq<Item>) {
    forall i :: 0 <= i < |items| ==> PairedAt(items, i)
  }

  lemma {:induction false} PairedRest(items: seq<Item>, d: nat)
    requires 0 < d <= |items| && !HighUnit(items[d - 1])
    ensures Paired(items) ==> Paired(items[d..])
    ensures Paired(items[d..]) && (forall i :: 0 <= i < d ==> PairedAt(items, i)) ==> Paired(items)
  {
    var rest := items[d..];
    forall i | d <= i < |items| ensures PairedAt(items, i) <==> PairedAt(rest, i - d) {
      assert rest[i - d] == items[i];
      assert i + 1 < |items| ==> rest[i - d + 1] == items[i + 1];
      assert i > d ==> rest[i - d - 1] == items[i - 1];
    }
    if Paired(items) {
      forall j | 0 <= j < |rest| ensures PairedAt(rest, j) {
        assert PairedAt(items, j + d);
      }
    }
  }

  /** What pairing says of the front of a string and of the rest. */
  lemma {:induction false} PairedFront(items: seq<Item>)
    requires items != []
    ensures HighUnit(items[0]) && Paired(items) ==> |items| > 1 && LowUnit(items[1]) && Paired(items[2..])
    ensures HighUnit(items[0]) && |items| > 1 && LowUnit(items[1]) && Paired(items[2..]) ==> Paired(items)
    ensures LowUnit(items[0]) ==> !Paired(items)
    ensures !HighUnit(items[0]) && !LowUnit(items[0]) ==> (Paired(items) <==> Paired(items[1..]))
  {
    if Paired(items) {
      assert PairedAt(items, 0);
    }
    if HighUnit(items[0]) {
      if |items| > 1 && LowUnit(items[1]) {
        PairedRest(items, 2);
        assert PairedAt(items, 0) && PairedAt(items, 1);
      }
    } else {
      PairedRest(items, 1);
    }
  }

  /** The items and the closing quote. */
  function Closed(items: seq<Item>): string {
    if items == [] then "\"" else ItemText(items[0]) + Closed(items[1..])
  }

  function Decoded(items: seq<Item>): string
    requires ItemsOk(items) && Paired(items)
  {
    if items == [] then ""
    else
      PairedFront(items);
      if HighUnit(items[0]) then Utf8(Combine(Hex4(items[0].hex), Hex4(items[1].hex))) + Decoded(items[2..])
      else ItemBytes(items[0]) + Decoded(items[1..])
  }

  // ----------------------------------------------------------------- numbers

  datatype Exponent = Exponent(e: char, sign: string, digits: string)

  datatype Numeral = Numeral(negative: bool, whole: string, fraction: Option<string>, exponent: Option<Exponent>)

  predicate NumeralOk(n: Numeral) {
    && |n.whole| > 0 && AllDigits(n.whole) && (n.whole[0] == '0' ==> |n.whole| == 1)
    && (n.fraction.Some? ==> |n.fraction.value| > 0 && AllDigits(n.fraction.value))
    && (n.exponent.Some? ==>
          var x := n.exponent.value;
          (x.e == 'e' || x.e == 'E') && x.sign in ["", "+", "-"] && |x.digits| > 0 && AllDigits(x.digits))
  }

  function Sign(n: Numeral): string { if n.negative then "-" else "" }

  function FractionText(f: Option<string>): string { if f.None? then "" else "." + f.value }

  function ExponentText(x: Option<Exponent>): string {
    if x.None? then "" else [x.value.e] + (x.value.sign + x.value.digits)
  }

  function NumeralText(n: Numeral): string {
    Sign(n) + (n.whole + (FractionText(n.fraction) + ExponentText(n.exponent)))
  }

  // ------------------------------------------------------------------ values

  predicate IsSpace(c: char) { c == ' ' || c == '\t' || c == '\n' || c == '\r' }

  /** The four blanks of section 2 of RFC 8259. */
  lemma {:induction false} Blanks(c: char)
    ensures IsSpace(c) <==> c as int in {0x20, 0x09, 0x0a, 0x0d}
  {
  }

  predicate Spaces(s: string) {
    forall i :: 0 <= i < |s| ==> IsSpace(s[i])
  }

  /** A value as written. A list holds the white space around each of its values. */
  datatype Syntax =
    | Word(text: string)
    | Digits(numeral: Numeral)
    | Quoted(items: seq<Item>)
    | EmptyArray(space: string)
    | Elements(list: ElementList)
    | EmptyObject(space: string)
    | Members(fields: MemberList)

  datatype ElementList = ElementList(before: string, value: Syntax, after: string, rest: Option<ElementList>)

  datatype MemberList = MemberList(before: string, name: seq<Item>, colon: string, between: string,
                                   value: Syntax, after: string, rest: Option<MemberList>)

  predicate Ok(x: Syntax) {
    match x
    case Word(t) => t in ["true", "false", "null"]
    case Digits(n) => NumeralOk(n)
    case Quoted(items) => ItemsOk(items)
    case EmptyArray(s) => Spaces(s)
    case Elements(l) => ElementsOk(l)
    case EmptyObject(s) => Spaces(s)
    case Members(l) => MembersOk(l)
  }

  predicate ElementsOk(l: ElementList) {
    Spaces(l.before) && Spaces(l.after) && Ok(l.value) && (l.rest.Some? ==> ElementsOk(l.rest.value))
  }

  predicate MembersOk(l: MemberList) {
    && Spaces(l.before) && Spaces(l.colon) && Spaces(l.between) && Spaces(l.after)
    && ItemsOk(l.name) && Ok(l.value) && (l.rest.Some? ==> MembersOk(l.rest.value))
  }

  function Spell(x: Syntax): string {
    match x
    case Word(t) => t
    case Digits(n) => NumeralText(n)
    case Quoted(items) => "\"" + Closed(items)
    case EmptyArray(s) => "[" + (s + "]")
    case Elements(l) => "[" + SpellElements(l)
    case EmptyObject(s) => "{" + (s + "}")
    case Members(l) => "{" + SpellMembers(l)
  }

  function SpellElements(l: ElementList): string {
    l.before + (Spell(l.value) + (l.after + (if l.rest.None? then "]" else "," + SpellElements(l.rest.value))))
  }

  function SpellMembers(l: MemberList): string {
    l.before + ("\"" + (Closed(l.name) + (l.colon + (":" + (l.between + (Spell(l.value)
      + (l.after + (if l.rest.None? then "}" else "," + SpellMembers(l.rest.value)))))))))
  }

  /** No string of the text holds an unpaired surrogate escape. */
  predicate WellPaired(x: Syntax) {
    match x
    case Quoted(items) => Paired(items)
    case Elements(l) => ElementsPaired(l)
    case Members(l) => MembersPaired(l)
    case _ => true
  }

  predicate ElementsPaired(l: ElementList) {
    WellPaired(l.value) && (l.rest.Some? ==> ElementsPaired(l.rest.value))
  }

  predicate MembersPaired(l: MemberList) {
    Paired(l.name) && WellPaired(l.value) && (l.rest.Some? ==> MembersPaired(l.rest.value))
  }

  function Denote(x: Syntax): Value
    requires Ok(x) && WellPaired(x)
  {
    match x
    case Word(t) => if t == "null" then Null else Bool(t == "true")
    case Digits(n) => Number(NumeralText(n))
    case Quoted(items) => Text(Decoded(items))
    case EmptyArray(_) => Array([])
    case Elements(l) => Array(DenoteElements(l))
    case EmptyObject(_) => Object([])
    case Members(l) => Object(DenoteMembers(l))
  }

  function DenoteElements(l: ElementList): seq<Value>
    requires ElementsOk(l) && ElementsPaired(l)
  {
    [Denote(l.value)] + if l.rest.None? then [] else DenoteElements(l.rest.value)
  }

  function DenoteMembers(l: MemberList): seq<Member>
    requires MembersOk(l) && MembersPaired(l)
  {
    [Member(Decoded(l.name), Denote(l.value))] + if l.rest.None? then [] else DenoteMembers(l.rest.value)
  }

  function Max(a: nat, b: nat): nat { if a < b then b else a }

  /** How deep arrays and objects nest. */
  function Depth(x: Syntax): nat {
    match x
    case EmptyArray(_) => 1
    case Elements(l) => 1 + DepthElements(l)
    case EmptyObject(_) => 1
    case Members(l) => 1 + DepthMembers(l)
    case _ => 0
  }

  function DepthElements(l: ElementList): nat {
    Max(Depth(l.value), if l.rest.None? then 0 else DepthElements(l.rest.value))
  }

  function DepthMembers(l: MemberList): nat {
    Max(Depth(l.value), if l.rest.None? then 0 else DepthMembers(l.rest.value))
  }

  // ------------------------------------------------------------------- UTF-8

  function Continuation(c: char): (r: Option<nat>)
    ensures r.Some? ==> r.value < 0x40
  {
    if 0x80 <= c as int < 0xc0 then Some(c as int - 0x80) else None
  }

  /** Section 3 of RFC 3629, read backwards: the one scalar value a byte string spells, shortest form only. */
  function FromUtf8(s: string): Option<nat> {
    if |s| == 1 then
      if s[0] as int < 0x80 then Some(s[0] as int) else None
    else if |s| == 2 then
      match Continuation(s[1])
      case None => None
      case Some(b) =>
        if 0xc2 <= s[0] as int < 0xe0 then Some((s[0] as int - 0xc0) * 0x40 + b) else None
    else if |s| == 3 then
      match (Continuation(s[1]), Continuation(s[2]))
      case (Some(b), Some(c)) =>
        if 0xe0 <= s[0] as int < 0xf0 then
          var cp := (s[0] as int - 0xe0) * 0x1000 + b * 0x40 + c;
          if cp >= 0x800 && IsScalar(cp) then Some(cp) else None
        else None
      case _ => None
    else if |s| == 4 then
      match (Continuation(s[1]), Continuation(s[2]), Continuation(s[3]))
      case (Some(b), Some(c), Some(d)) =>
        if 0xf0 <= s[0] as int < 0xf5 then
          var cp := (s[0] as int - 0xf0) * 0x40000 + b * 0x1000 + c * 0x40 + d;
          if 0x10000 <= cp < 0x110000 then Some(cp) else None
        else None
      case _ => None
    else None
  }

  /** Two shifts by six bits, or three, one after the other. */
  lemma {:induction false} Shifts(cp: nat)
    ensures cp / 0x1000 == cp / 0x40 / 0x40
    ensures cp / 0x40000 == cp / 0x1000 / 0x40
  {
  }

  lemma {:induction false} LowSix(n: nat)
    ensures n == n / 0x40 * 0x40 + n % 0x40 && n % 0x40 < 0x40
  {
  }

  /** Every escaped character is written as its well-formed, shortest UTF-8. */
  lemma {:induction false} Utf8RoundTrip(cp: nat)
    requires IsScalar(cp)
    ensures FromUtf8(Utf8(cp)) == Some(cp)
  {
    if cp >= 0x800 {
      hide FromUtf8;
      Shifts(cp);
      LowSix(cp);
      LowSix(cp / 0x40);
      LowSix(cp / 0x1000);
      if cp < 0x10000 {
        ThreeBytes(cp / 0x1000, cp / 0x40 % 0x40, cp % 0x40);
      } else {
        FourBytes(cp / 0x40000, cp / 0x1000 % 0x40, cp / 0x40 % 0x40, cp % 0x40);
      }
    }
  }

  lemma {:induction false} ThreeBytes(a: nat, b: nat, c: nat)
    requires a < 0x10 && b < 0x40 && c < 0x40
    requires var cp := a * 0x1000 + b * 0x40 + c; cp >= 0x800 && IsScalar(cp)
    ensures FromUtf8([(0xe0 + a) as char, (0x80 + b) as char, (0x80 + c) as char]) == Some(a * 0x1000 + b * 0x40 + c)
  {
    var s := [(0xe0 + a) as char, (0x80 + b) as char, (0x80 + c) as char];
    assert Continuation(s[1]) == Some(b) && Continuation(s[2]) == Some(c);
  }

  lemma {:induction false} FourBytes(a: nat, b: nat, c: nat, d: nat)
    requires a < 5 && b < 0x40 && c < 0x40 && d < 0x40
    requires 0x10000 <= a * 0x40000 + b * 0x1000 + c * 0x40 + d < 0x110000
    ensures FromUtf8([(0xf0 + a) as char, (0x80 + b) as char, (0x80 + c) as char, (0x80 + d) as char])
            == Some(a * 0x40000 + b * 0x1000 + c * 0x40 + d)
  {
    var s := [(0xf0 + a) as char, (0x80 + b) as char, (0x80 + c) as char, (0x80 + d) as char];
    assert Continuation(s[1]) == Some(b) && Continuation(s[2]) == Some(c) && Continuation(s[3]) == Some(d);
  }
}
