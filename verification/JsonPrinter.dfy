/**
 A printer for JSON values, and the round trip through the parser: an
 independent check that a value in memory means what its text means.
 */
module JsonPrinter {
  import opened Bytes
  import opened JsonGrammar
  import opened JsonParser

  /** A value whose numbers are JSON numerals. */
  ghost predicate Printable(v: Value)
    decreases v
  {
    match v
    case Number(t) => exists n :: NumeralOk(n) && NumeralText(n) == t
    case Array(vs) => forall i :: 0 <= i < |vs| ==> Printable(vs[i])
    case Object(ms) => forall i :: 0 <= i < |ms| ==> Printable(ms[i].value)
    case _ => true
  }

  function Nesting(v: Value): nat
    decreases v
  {
    match v
    case Array(vs) => 1 + NestingAll(vs)
    case Object(ms) => 1 + NestingMembers(ms)
    case _ => 0
  }

  function NestingAll(vs: seq<Value>): nat
    decreases vs
  {
    if vs == [] then 0 else Max(Nesting(vs[0]), NestingAll(vs[1..]))
  }

  function NestingMembers(ms: seq<Member>): nat
    decreases ms
  {
    if ms == [] then 0 else Max(Nesting(ms[0].value), NestingMembers(ms[1..]))
  }

  /** The letter of the short escape of a byte, by section 7 of RFC 8259. */
  function ShortOf(c: char): Option<char> {
    match c as int
    case 0x22 => Some('"')
    case 0x5c => Some('\\')
    case 0x2f => Some('/')
    case 0x08 => Some('b')
    case 0x0c => Some('f')
    case 0x0a => Some('n')
    case 0x0d => Some('r')
    case 0x09 => Some('t')
    case _ => None
  }

  /** A byte with a short escape takes it, other control bytes take a \u escape, all else stands for itself. */
  function Escape(c: char): (i: Item)
    ensures ItemOk(i) && !HighUnit(i) && !LowUnit(i) && ItemBytes(i) == [c]
  {
    if ShortOf(c).Some? then Short(ShortOf(c).value)
    else if c >= ' ' then Raw(c)
    else
      var h := ['0', '0', HexDigit(c as int / 16), HexDigit(c as int % 16)];
      assert Hex4(h) == c as int;
      Unit(h)
  }

  function EscapeAll(s: string): (items: seq<Item>)
    ensures ItemsOk(items) && forall i :: 0 <= i < |items| ==> !HighUnit(items[i]) && !LowUnit(items[i])
  {
    if s == "" then [] else [Escape(s[0])] + EscapeAll(s[1..])
  }

  lemma {:induction false} EscapeDecoded(s: string)
    ensures Paired(EscapeAll(s)) && Decoded(EscapeAll(s)) == s
  {
    if s != "" {
      EscapeDecoded(s[1..]);
      assert EscapeAll(s)[1..] == EscapeAll(s[1..]);
      assert s == [s[0]] + s[1..];
    }
  }

  /** The plain way to write a value: no white space, and short escapes wherever there are any. */
  ghost function Plain(v: Value): Syntax
    requires Printable(v)
    decreases v
  {
    match v
    case Null => Word("null")
    case Bool(b) => Word(if b then "true" else "false")
    case Number(t) => var n :| NumeralOk(n) && NumeralText(n) == t; Digits(n)
    case Text(s) => Quoted(EscapeAll(s))
    case Array(vs) => if vs == [] then EmptyArray("") else Elements(PlainAll(vs))
    case Object(ms) => if ms == [] then EmptyObject("") else Members(PlainMembers(ms))
  }

  ghost function PlainAll(vs: seq<Value>): ElementList
    requires vs != [] && forall i :: 0 <= i < |vs| ==> Printable(vs[i])
    decreases vs
  {
    ElementList("", Plain(vs[0]), "", if |vs| == 1 then None else Some(PlainAll(vs[1..])))
  }

  ghost function PlainMembers(ms: seq<Member>): MemberList
    requires ms != [] && forall i :: 0 <= i < |ms| ==> Printable(ms[i].value)
    decreases ms
  {
    MemberList("", EscapeAll(ms[0].name), "", "", Plain(ms[0].value), "",
               if |ms| == 1 then None else Some(PlainMembers(ms[1..])))
  }

  lemma {:induction false} PlainDenotes(v: Value)
    requires Printable(v)
    ensures Ok(Plain(v)) && WellPaired(Plain(v)) && Denote(Plain(v)) == v && Depth(Plain(v)) == Nesting(v)
    decreases v
  {
    match v
    case Text(s) => EscapeDecoded(s);
    case Array(vs) =>
      if vs != [] {
        PlainAllDenotes(vs);
      }
    case Object(ms) =>
      if ms != [] {
        PlainMembersDenotes(ms);
      }
    case _ =>
  }

  lemma {:induction false} PlainAllDenotes(vs: seq<Value>)
    requires vs != [] && forall i :: 0 <= i < |vs| ==> Printable(vs[i])
    ensures ElementsOk(PlainAll(vs)) && ElementsPaired(PlainAll(vs)) && DenoteElements(PlainAll(vs)) == vs
    ensures DepthElements(PlainAll(vs)) == NestingAll(vs)
    decreases vs
  {
    PlainDenotes(vs[0]);
    hide Plain, Ok, WellPaired, Denote, Depth, Nesting, Printable;
    assert vs == [vs[0]] + vs[1..];
    if |vs| > 1 {
      PlainAllDenotes(vs[1..]);
    }
  }

  lemma {:induction false} PlainMembersDenotes(ms: seq<Member>)
    requires ms != [] && forall i :: 0 <= i < |ms| ==> Printable(ms[i].value)
    ensures MembersOk(PlainMembers(ms)) && MembersPaired(PlainMembers(ms)) && DenoteMembers(PlainMembers(ms)) == ms
    ensures DepthMembers(PlainMembers(ms)) == NestingMembers(ms)
    decreases ms
  {
    PlainDenotes(ms[0].value);
    EscapeDecoded(ms[0].name);
    hide Plain, Ok, WellPaired, Denote, Depth, Nesting, Printable, EscapeAll, Paired, Decoded;
    assert ms == [ms[0]] + ms[1..];
    if |ms| > 1 {
      PlainMembersDenotes(ms[1..]);
    }
  }

  /** Parsing a printed value gives the value back, unless it nests deeper than the reader allows. */
  lemma {:induction false} PrintParse(v: Value)
    requires Printable(v)
    ensures Parse(Spell(Plain(v))) == if Nesting(v) <= MAX_DEPTH then Some(v) else None
  {
    PlainDenotes(v);
    var x := Plain(v);
    assert Spell(x) == "" + (Spell(x) + "");
    ParseGrammar(Spell(x), "", x, "");
  }
}
