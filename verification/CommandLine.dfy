/**
 Quoting for a Windows command line, and the splitter a child process applies
 to it: quoting is the exact inverse of splitting, and stays in its buffer.
 */
module CommandLine {

  const NUL: char := 0 as char

  function Slashes(n: nat): (s: string)
    ensures |s| == n
    ensures forall i :: 0 <= i < n ==> s[i] == '\\'
  {
    seq(n, _ => '\\')
  }

  // ------------------------------------------------------------ the splitter

  predicate Blank(c: char) { c == ' ' || c == '\t' }

  /**
   The arguments of a command line, from a gap between two of them. Some
   runtimes read a doubled quote inside quotes as one literal quote; `doubled`
   says whether this one does.
   */
  function Split(line: string, doubled: bool): seq<string>
    decreases |line|, 1
  {
    if line == "" then []
    else if Blank(line[0]) then Split(line[1..], doubled)
    else Argument(line, doubled, "", false, 0)
  }

  /** The rest of an argument of which `done` and `k` pending backslashes have been read. */
  function Argument(line: string, doubled: bool, done: string, quoted: bool, k: nat): seq<string>
    decreases |line|, 0
  {
    if line == "" then [done + Slashes(k)]
    else
      var c, rest := line[0], line[1..];
      if c == '\\' then Argument(rest, doubled, done, quoted, k + 1)
      else if c == '"' then
        if k % 2 == 1 then Argument(rest, doubled, done + Slashes(k / 2) + ['"'], quoted, 0)
        else if doubled && quoted && rest != "" && rest[0] == '"' then
          Argument(rest[1..], doubled, done + Slashes(k / 2) + ['"'], quoted, 0)
        else Argument(rest, doubled, done + Slashes(k / 2), !quoted, 0)
      else if Blank(c) && !quoted then [done + Slashes(k)] + Split(rest, doubled)
      else Argument(rest, doubled, done + Slashes(k) + [c], quoted, 0)
  }

  // -------------------------------------------------------------- the quoter

  /** The inside of the quotes for `arg` behind `k` pending backslashes. */
  function Inside(arg: string, k: nat): string {
    if arg == "" then Slashes(2 * k)
    else if arg[0] == '\\' then Inside(arg[1..], k + 1)
    else if arg[0] == '"' then Slashes(2 * k + 1) + (['"'] + Inside(arg[1..], 0))
    else Slashes(k) + ([arg[0]] + Inside(arg[1..], 0))
  }

  function Quote(arg: string): string { " \"" + (Inside(arg, 0) + "\"") }

  function QuoteAll(args: seq<string>): string {
    if args == [] then "" else QuoteAll(args[..|args| - 1]) + Quote(args[|args| - 1])
  }

  lemma {:induction false} InsideLength(arg: string, k: nat)
    ensures |Inside(arg, k)| <= 2 * k + 2 * |arg|
  {
    if arg != "" {
      InsideLength(arg[1..], if arg[0] == '\\' then k + 1 else 0);
    }
  }

  // -------------------------------------------------------------- round trip

  lemma {:induction false} TakeSlashes(n: nat, t: string, doubled: bool, done: string, quoted: bool, k: nat)
    ensures Argument(Slashes(n) + t, doubled, done, quoted, k) == Argument(t, doubled, done, quoted, k + n)
    decreases n
  {
    var line := Slashes(n) + t;
    if n == 0 {
      assert line == t;
    } else {
      assert line[0] == '\\' && line[1..] == Slashes(n - 1) + t;
      TakeSlashes(n - 1, t, doubled, done, quoted, k + 1);
    }
  }

  lemma {:induction false} TakeByte(c: char, t: string, doubled: bool, done: string, k: nat)
    requires c != '\\' && c != '"'
    ensures Argument([c] + t, doubled, done, true, k) == Argument(t, doubled, done + Slashes(k) + [c], true, 0)
  {
    assert ([c] + t)[1..] == t;
  }

  lemma {:induction false} TakeEscapedQuote(t: string, doubled: bool, done: string, quoted: bool, k: nat)
    ensures Argument(['"'] + t, doubled, done, quoted, 2 * k + 1) == Argument(t, doubled, done + Slashes(k) + ['"'], quoted, 0)
  {
    assert (['"'] + t)[1..] == t && (2 * k + 1) / 2 == k;
  }

  lemma {:induction false} TakeBareQuote(t: string, doubled: bool, done: string, quoted: bool, k: nat)
    requires quoted ==> t == "" || t[0] != '"'
    ensures Argument(['"'] + t, doubled, done, quoted, 2 * k) == Argument(t, doubled, done + Slashes(k), !quoted, 0)
  {
    assert (['"'] + t)[1..] == t && (2 * k) / 2 == k;
  }

  predicate NoQuoteNext(t: string) { t == "" || t[0] != '"' }

  lemma {:induction false} SlashesAdd(k: nat)
    ensures Slashes(0) == "" && Slashes(k + 1) == Slashes(k) + ['\\']
  {
  }

  /** From the opening quote on: the argument is read back and the quotes are closed. */
  lemma {:induction false} InsideRead(arg: string, k: nat, t: string, doubled: bool, done: string)
    requires NoQuoteNext(t)
    ensures Argument(Inside(arg, k) + (['"'] + t), doubled, done, true, 0) == Argument(t, doubled, done + Slashes(k) + arg, false, 0)
    decreases |arg|
  {
    hide Argument, Slashes;
    var end := ['"'] + t;
    SlashesAdd(k);
    if arg == "" {
      TakeSlashes(2 * k, end, doubled, done, true, 0);
      TakeBareQuote(t, doubled, done, true, k);
      assert done + Slashes(k) + arg == done + Slashes(k);
    } else if arg[0] == '\\' {
      InsideRead(arg[1..], k + 1, t, doubled, done);
      assert done + Slashes(k + 1) + arg[1..] == done + Slashes(k) + arg;
    } else if arg[0] == '"' {
      var rest := Inside(arg[1..], 0);
      assert Inside(arg, k) + end == Slashes(2 * k + 1) + (['"'] + (rest + end));
      TakeSlashes(2 * k + 1, ['"'] + (rest + end), doubled, done, true, 0);
      TakeEscapedQuote(rest + end, doubled, done, true, k);
      InsideRead(arg[1..], 0, t, doubled, done + Slashes(k) + ['"']);
      assert done + Slashes(k) + ['"'] + Slashes(0) + arg[1..] == done + Slashes(k) + arg;
    } else {
      var c, rest := arg[0], Inside(arg[1..], 0);
      assert Inside(arg, k) + end == Slashes(k) + ([c] + (rest + end));
      TakeSlashes(k, [c] + (rest + end), doubled, done, true, 0);
      TakeByte(c, rest + end, doubled, done, k);
      InsideRead(arg[1..], 0, t, doubled, done + Slashes(k) + [c]);
      assert done + Slashes(k) + [c] + Slashes(0) + arg[1..] == done + Slashes(k) + arg;
    }
  }

  /** One quoted argument in front of nothing or of a blank. */
  lemma {:induction false} QuoteRead(arg: string, t: string, doubled: bool)
    requires t == "" || t[0] == ' '
    ensures Split(Quote(arg) + t, doubled) == [arg] + Split(t, doubled)
  {
    var line := Quote(arg) + t;
    var inside := Inside(arg, 0) + (['"'] + t);
    assert line[0] == ' ' && line[1..] == ['"'] + inside;
    assert Split(line, doubled) == Argument(['"'] + inside, doubled, "", false, 0);
    hide Inside;
    TakeBareQuote(inside, doubled, "", false, 0);
    InsideRead(arg, 0, t, doubled, "" + Slashes(0));
    assert "" + Slashes(0) + Slashes(0) + arg == arg;
    assert arg + Slashes(0) == arg;
  }

  lemma {:induction false} QuoteStart(arg: string, t: string)
    ensures (Quote(arg) + t)[0] == ' '
  {
  }

  lemma {:induction false} Regroup(a: seq<string>, x: string, b: seq<string>)
    ensures a + ([x] + b) == (a + [x]) + b
  {
  }

  lemma {:induction false} QuoteAllRead(args: seq<string>, t: string, doubled: bool)
    requires t == "" || t[0] == ' '
    ensures Split(QuoteAll(args) + t, doubled) == args + Split(t, doubled)
    decreases |args|
  {
    hide Split, Quote;
    if args == [] {
      assert QuoteAll(args) + t == t;
      assert args + Split(t, doubled) == Split(t, doubled);
    } else {
      var before, last := args[..|args| - 1], args[|args| - 1];
      QuoteStart(last, t);
      QuoteRead(last, t, doubled);
      QuoteAllRead(before, Quote(last) + t, doubled);
      assert QuoteAll(args) == QuoteAll(before) + Quote(last);
      hide QuoteAll;
      assert QuoteAll(args) + t == QuoteAll(before) + (Quote(last) + t);
      assert args == before + [last];
      Regroup(before, last, Split(t, doubled));
    }
  }

  /** Splitting a line of quoted arguments gives back exactly those arguments. */
  lemma {:induction false} SplitQuoted(args: seq<string>, doubled: bool)
    ensures Split(QuoteAll(args), doubled) == args
  {
    QuoteAllRead(args, "", doubled);
    assert QuoteAll(args) + "" == QuoteAll(args);
    assert args + Split("", doubled) == args;
  }

  // --------------------------------------------------------------- in memory

  predicate NulFree(s: string) { NUL !in s }

  /** A C string in a buffer: the bytes before the first NUL. */
  function CString(buf: seq<char>): string {
    if buf == [] || buf[0] == NUL then "" else [buf[0]] + CString(buf[1..])
  }

  lemma {:induction false} CStringIs(buf: seq<char>, s: string)
    requires NulFree(s) && |s| < |buf| && buf[..|s|] == s && buf[|s|] == NUL
    ensures CString(buf) == s
    decreases |s|
  {
    if s != "" {
      assert buf[0] == buf[..|s|][0] == s[0] && s[0] in s;
      assert buf[1..][..|s[1..]|] == buf[..|s|][1..] == s[1..];
      CStringIs(buf[1..], s[1..]);
      assert s == [s[0]] + s[1..];
    }
  }

  lemma {:induction false} InsideNulFree(arg: string, k: nat)
    requires NulFree(arg)
    ensures NulFree(Inside(arg, k))
  {
    if arg != "" {
      assert arg[0] in arg && NulFree(arg[1..]);
      InsideNulFree(arg[1..], if arg[0] == '\\' then k + 1 else 0);
    }
  }

  lemma {:induction false} QuoteAllNulFree(args: seq<string>)
    requires forall i :: 0 <= i < |args| ==> NulFree(args[i])
    ensures NulFree(QuoteAll(args))
  {
    if args != [] {
      QuoteAllNulFree(args[..|args| - 1]);
      InsideNulFree(args[|args| - 1], 0);
      assert NulFree(Quote(args[|args| - 1]));
    }
  }

  /** `buf` with `piece` written at `at`, and every other byte as it was. */
  function Spliced(buf: seq<char>, at: nat, piece: string): (r: seq<char>)
    requires at + |piece| <= |buf|
    ensures |r| == |buf|
  {
    buf[..at] + piece + buf[at + |piece|..]
  }

  lemma {:induction false} SpliceTwice(buf: seq<char>, at: nat, p: string, q: string)
    requires at + |p| + |q| <= |buf|
    ensures Spliced(Spliced(buf, at, p), at + |p|, q) == Spliced(buf, at, p + q)
  {
    var b := Spliced(buf, at, p);
    assert b[..at + |p|] == buf[..at] + p;
    assert b[at + |p| + |q|..] == buf[at + |p| + |q|..];
  }

  method Put(out: array<char>, off: nat, c: char)
    requires off < out.Length
    modifies out
    ensures out[..] == Spliced(old(out[..]), off, [c])
  {
    out[off] := c;
  }

  /** `n` backslashes at `off`. */
  method PutSlashes(out: array<char>, off: nat, n: nat)
    requires off + n <= out.Length
    modifies out
    ensures out[..] == Spliced(old(out[..]), off, Slashes(n))
  {
    var at, left := off, n;
    while left > 0
      invariant 0 <= left <= n && at == off + n - left
      invariant forall j :: off <= j < at ==> out[j] == '\\'
      invariant forall j :: 0 <= j < out.Length && !(off <= j < at) ==> out[j] == old(out[j])
    {
      out[at] := '\\';
      at := at + 1;
      left := left - 1;
    }
  }

  /** How far the quoter has come: `done` stands at `off`, and what is left of the argument completes it. */
  predicate Progress(before: seq<char>, now: seq<char>, off: nat, done: string, arg: string, i: nat, k: nat) {
    && i <= |arg| && off + |done| <= |before|
    && now == Spliced(before, off, done)
    && " \"" + Inside(arg, 0) == done + Inside(arg[i..], k)
  }

  /** Writing the next piece of what is left keeps the progress. */
  lemma {:induction false} Advance(before: seq<char>, now: seq<char>, off: nat, done: string,
                                   piece: string, arg: string, i: nat, k: nat, j: nat, l: nat)
    requires Progress(before, now, off, done, arg, i, k) && j <= |arg|
    requires Inside(arg[i..], k) == piece + Inside(arg[j..], l)
    requires off + |done| + |piece| <= |before| == |now|
    ensures Progress(before, Spliced(now, off + |done|, piece), off, done + piece, arg, j, l)
  {
    hide Inside;
    SpliceTwice(before, off, done, piece);
    assert done + (piece + Inside(arg[j..], l)) == done + piece + Inside(arg[j..], l);
  }

  /** The bytes still to be written fit. */
  lemma {:induction false} Fits(before: seq<char>, now: seq<char>, off: nat, done: string, arg: string, i: nat, k: nat)
    requires Progress(before, now, off, done, arg, i, k) && off + 2 * |arg| + 4 <= |before|
    ensures off + |done| + |Inside(arg[i..], k)| + 2 <= |before|
  {
    InsideLength(arg, 0);
    hide Inside;
    assert |" \"" + Inside(arg, 0)| == |done| + |Inside(arg[i..], k)|;
  }

  /** What the next byte of the argument turns into. */
  lemma {:induction false} InsideStep(arg: string, i: nat, k: nat)
    requires i < |arg|
    ensures var rest := arg[i + 1..];
            Inside(arg[i..], k) ==
            if arg[i] == '\\' then "" + Inside(rest, k + 1)
            else if arg[i] == '"' then (Slashes(2 * k + 1) + ['"']) + Inside(rest, 0)
            else (Slashes(k) + [arg[i]]) + Inside(rest, 0)
  {
    assert arg[i..][0] == arg[i] && arg[i..][1..] == arg[i + 1..];
    var rest := arg[i + 1..];
    assert "" + Inside(rest, k + 1) == Inside(rest, k + 1);
    assert (Slashes(2 * k + 1) + ['"']) + Inside(rest, 0) == Slashes(2 * k + 1) + (['"'] + Inside(rest, 0));
    assert (Slashes(k) + [arg[i]]) + Inside(rest, 0) == Slashes(k) + ([arg[i]] + Inside(rest, 0));
  }

  /** One turn of the quoter's loop. */
  method QuoteByte(arg: string, out: array<char>, ghost off: nat, o: nat, i: nat, k: nat,
                   ghost before: seq<char>, ghost done: string)
      returns (o': nat, k': nat, ghost done': string)
    requires i < |arg| && o == off + |done| && off + 2 * |arg| + 4 <= |before| == out.Length
    requires Progress(before, out[..], off, done, arg, i, k)
    modifies out
    ensures o' == off + |done'| && Progress(before, out[..], off, done', arg, i + 1, k')
  {
    hide Inside, Progress, Spliced;
    ghost var now := out[..];
    InsideStep(arg, i, k);
    Fits(before, now, off, done, arg, i, k);
    if arg[i] == '\\' {
      o', k', done' := o, k + 1, done + "";
      assert Spliced(now, o, "") == now by {
        SpliceNothing(now, o);
      }
      Advance(before, now, off, done, "", arg, i, k, i + 1, k');
    } else if arg[i] == '"' {
      PutSlashes(out, o, 2 * k + 1);
      Put(out, o + 2 * k + 1, '"');
      SpliceTwice(now, o, Slashes(2 * k + 1), ['"']);
      ghost var piece := Slashes(2 * k + 1) + ['"'];
      o', k', done' := o + 2 * k + 2, 0, done + piece;
      Advance(before, now, off, done, piece, arg, i, k, i + 1, 0);
    } else {
      PutSlashes(out, o, k);
      Put(out, o + k, arg[i]);
      SpliceTwice(now, o, Slashes(k), [arg[i]]);
      ghost var piece := Slashes(k) + [arg[i]];
      o', k', done' := o + k + 1, 0, done + piece;
      Advance(before, now, off, done, piece, arg, i, k, i + 1, 0);
    }
  }

  lemma {:induction false} SpliceNothing(buf: seq<char>, at: nat)
    requires at <= |buf|
    ensures Spliced(buf, at, "") == buf
  {
  }

  /**
   Quotes one argument into `out` from `off` on. It refuses exactly when its
   bound says the result might not fit, and then writes nothing; otherwise it
   writes the quoted argument and a NUL, inside the buffer, and nothing else.
   */
  method QuoteArg(arg: string, out: array<char>, off: nat) returns (r: int)
    modifies out
    ensures r == -1 <==> off + 2 * |arg| + 4 > out.Length
    ensures r == -1 ==> out[..] == old(out[..])
    ensures r != -1 ==> r == off + |Quote(arg)| && r < out.Length
                        && out[..] == Spliced(old(out[..]), off, Quote(arg) + [NUL])
  {
    if off + 1 + 1 + 2 * |arg| + 1 + 1 > out.Length {
      return -1;
    }
    hide Inside, Progress, Spliced, Quote;
    ghost var before := out[..];
    Put(out, off, ' ');
    Put(out, off + 1, '"');
    SpliceTwice(before, off, " ", "\"");
    ghost var done := " \"";
    assert " " + "\"" == done;
    var o, backslashes: nat, i := off + 2, 0, 0;
    Opened(before, off, arg);
    while i < |arg|
      invariant 0 <= i <= |arg| && o == off + |done|
      invariant Progress(before, out[..], off, done, arg, i, backslashes)
    {
      o, backslashes, done := QuoteByte(arg, out, off, o, i, backslashes, before, done);
      i := i + 1;
    }
    ghost var now := out[..];
    Closing(before, now, off, done, arg, backslashes);
    PutSlashes(out, o, 2 * backslashes);
    o := o + 2 * backslashes;
    Put(out, o, '"');
    SpliceTwice(before, off, done + Slashes(2 * backslashes), ['"']);
    o := o + 1;
    Put(out, o, NUL);
    SpliceTwice(before, off, Quote(arg), [NUL]);
    r := o;
  }

  lemma {:induction false} Opened(before: seq<char>, off: nat, arg: string)
    requires off + 2 <= |before|
    ensures Progress(before, Spliced(before, off, " \""), off, " \"", arg, 0, 0)
  {
    assert arg[0..] == arg;
  }

  lemma {:induction false} Closing(before: seq<char>, now: seq<char>, off: nat, done: string, arg: string, k: nat)
    requires Progress(before, now, off, done, arg, |arg|, k) && off + 2 * |arg| + 4 <= |before|
    ensures off + |done| + 2 * k + 2 <= |before| == |now|
    ensures Quote(arg) == done + Slashes(2 * k) + ['"']
    ensures Spliced(now, off + |done|, Slashes(2 * k)) == Spliced(before, off, done + Slashes(2 * k))
  {
    Fits(before, now, off, done, arg, |arg|, k);
    assert arg[|arg|..] == "";
    assert Inside("", k) == Slashes(2 * k);
    hide Inside;
    SpliceTwice(before, off, done, Slashes(2 * k));
    assert Quote(arg) == (" \"" + Inside(arg, 0)) + ['"'];
  }

  /** Room for the worst case of every argument. */
  function Room(args: seq<string>): nat {
    if args == [] then 0 else Room(args[..|args| - 1]) + 2 * |args[|args| - 1]| + 3
  }

  lemma {:induction false} RoomPrefix(args: seq<string>, i: nat)
    requires i <= |args|
    ensures Room(args[..i]) <= Room(args)
    decreases |args| - i
  {
    if i == |args| {
      assert args[..i] == args;
    } else {
      RoomPrefix(args, i + 1);
      assert args[..i + 1][..i] == args[..i];
    }
  }

  /** The hook's command line, argument after argument: what the child splits it into is what was passed. */
  method BuildCommandLine(args: seq<string>, out: array<char>, doubled: bool) returns (ok: bool)
    requires forall i :: 0 <= i < |args| ==> NulFree(args[i])
    requires out.Length > 0
    modifies out
    ensures ok ==> Split(CString(out[..]), doubled) == args
    ensures Room(args) < out.Length ==> ok
  {
    hide Quote, Inside;
    var off, i: nat := 0, 0;
    out[0] := NUL;
    while i < |args|
      invariant i <= |args| && 0 <= off < out.Length && off <= Room(args[..i])
      invariant out[..off] == QuoteAll(args[..i]) && out[off] == NUL
    {
      RoomPrefix(args, i + 1);
      QuoteLength(args[i]);
      assert args[..i + 1][..i] == args[..i];
      off := QuoteArg(args[i], out, off);
      if off < 0 {
        return false;
      }
      i := i + 1;
    }
    assert args[..i] == args;
    QuoteAllNulFree(args);
    CStringIs(out[..], QuoteAll(args));
    SplitQuoted(args, doubled);
    ok := true;
  }

  lemma {:induction false} QuoteLength(arg: string)
    ensures |Quote(arg)| <= 2 * |arg| + 3
  {
    InsideLength(arg, 0);
  }
}
