/**
 Byte strings as the C code sees them: a length-counted buffer, no terminator.
 A byte is a `char`; nothing below depends on it being smaller than 256.
 */
module Bytes {

  datatype Option<+T> = None | Some(value: T)

  const CRLF := "\r\n"
  const CRLFCRLF := "\r\n\r\n"

  /** The needle `pat` stands at offset `i` of `s`. */
  predicate Occurs(s: string, pat: string, i: nat) {
    i + |pat| <= |s| && s[i..i + |pat|] == pat
  }

  /** The first occurrence of `pat` at or after `from`. */
  function Find(s: string, pat: string, from: nat): (r: Option<nat>)
    ensures r.Some? ==> from <= r.value && Occurs(s, pat, r.value)
    decreases |s| - from
  {
    if from + |pat| > |s| then None
    else if Occurs(s, pat, from) then Some(from)
    else Find(s, pat, from + 1)
  }

  /** Nothing before the first occurrence, and nothing at all when there is none. */
  lemma {:induction false} FindSpec(s: string, pat: string, from: nat)
    ensures var r := Find(s, pat, from);
            forall j :: from <= j && (r.None? || j < r.value) ==> !Occurs(s, pat, j)
    decreases |s| - from
  {
    if from + |pat| <= |s| && !Occurs(s, pat, from) {
      FindSpec(s, pat, from + 1);
    }
  }

  /** The first occurrence is the only offset with that property. */
  lemma {:induction false} FindIs(s: string, pat: string, from: nat, r: Option<nat>)
    requires r.Some? ==> from <= r.value && Occurs(s, pat, r.value)
    requires forall j :: from <= j && (r.None? || j < r.value) ==> !Occurs(s, pat, j)
    ensures Find(s, pat, from) == r
  {
    FindSpec(s, pat, from);
  }

  /** An occurrence that is complete in `s` is an occurrence in every extension, and the other way round. */
  lemma {:induction false} OccursExtend(s: string, t: string, pat: string, i: nat)
    requires s <= t && i + |pat| <= |s|
    ensures Occurs(s, pat, i) == Occurs(t, pat, i)
  {
    assert t[i..i + |pat|] == s[i..i + |pat|];
  }

  /** What was found stays found when more bytes arrive. */
  lemma {:induction false} FindExtend(s: string, t: string, pat: string, from: nat)
    requires s <= t && Find(s, pat, from).Some?
    ensures Find(t, pat, from) == Find(s, pat, from)
  {
    var r := Find(s, pat, from).value;
    FindSpec(s, pat, from);
    OccursExtend(s, t, pat, r);
    forall j | from <= j < r
      ensures !Occurs(t, pat, j)
    {
      OccursExtend(s, t, pat, j);
    }
    FindIs(t, pat, from, Some(r));
  }

  /** A search may start at any later offset when no occurrence starts in between. */
  lemma {:induction false} FindSkip(s: string, pat: string, from: nat, to: nat)
    requires from <= to
    requires forall j :: from <= j < to ==> !Occurs(s, pat, j)
    ensures Find(s, pat, from) == Find(s, pat, to)
  {
    FindSpec(s, pat, to);
    FindIs(s, pat, from, Find(s, pat, to));
  }

  /** A failed search of `s` lets the search of an extension resume |pat| - 1 bytes before the end of `s`. */
  lemma {:induction false} FindResume(s: string, t: string, pat: string, from: nat, to: nat)
    requires s <= t && from <= to && (from == to || to + |pat| <= |s| + 1)
    requires Find(s, pat, from).None?
    ensures Find(t, pat, from) == Find(t, pat, to)
  {
    FindSpec(s, pat, from);
    forall j | from <= j < to
      ensures !Occurs(t, pat, j)
    {
      OccursExtend(s, t, pat, j);
    }
    FindSkip(t, pat, from, to);
  }

  function Lower(c: char): char {
    if 'A' <= c <= 'Z' then c - 'A' + 'a' else c
  }

  function LowerAll(s: string): (r: string)
    ensures |r| == |s|
    ensures forall i :: 0 <= i < |s| ==> r[i] == Lower(s[i])
  {
    seq(|s|, i requires 0 <= i < |s| => Lower(s[i]))
  }

  /** Case-insensitive equality of two byte strings of any length. */
  predicate EqualFold(a: string, b: string) {
    |a| == |b| && forall i :: 0 <= i < |a| ==> Lower(a[i]) == Lower(b[i])
  }

  predicate IsDigit(c: char) { '0' <= c <= '9' }

  function DigitValue(c: char): (d: nat)
    requires IsDigit(c)
    ensures d <= 9
  {
    c as int - '0' as int
  }

  predicate IsHex(c: char) {
    IsDigit(c) || 'a' <= c <= 'f' || 'A' <= c <= 'F'
  }

  function HexValue(c: char): (d: nat)
    requires IsHex(c)
    ensures d < 16
  {
    if IsDigit(c) then DigitValue(c)
    else if 'a' <= c <= 'f' then c as int - 'a' as int + 10
    else c as int - 'A' as int + 10
  }

  /** A lower-case hexadecimal digit. */
  function HexDigit(d: nat): (c: char)
    requires d < 16
    ensures IsHex(c) && HexValue(c) == d
  {
    if d < 10 then '0' + d as char else 'a' + (d - 10) as char
  }

  predicate AllDigits(s: string) {
    forall i :: 0 <= i < |s| ==> IsDigit(s[i])
  }

  /** The number a run of decimal digits spells. */
  function DecimalValue(s: string): nat
    requires AllDigits(s)
  {
    if s == "" then 0 else 10 * DecimalValue(s[..|s| - 1]) + DigitValue(s[|s| - 1])
  }

  lemma {:induction false} PrefixSmaller(s: string, i: nat)
    requires AllDigits(s) && i <= |s|
    ensures AllDigits(s[..i]) && DecimalValue(s[..i]) <= DecimalValue(s)
    decreases |s| - i
  {
    if i == |s| {
      assert s[..i] == s;
    } else {
      PrefixSmaller(s, i + 1);
      assert s[..i + 1][..i] == s[..i];
    }
  }

  lemma {:induction false} SubsetSize<T>(a: set<T>, b: set<T>)
    requires a <= b
    ensures |a| <= |b|
  {
    assert b == a + (b - a) && |a + (b - a)| == |a| + |b - a|;
  }
}
