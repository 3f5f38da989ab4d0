/**
 What one HTTP response means, as functions of the bytes received so far.

 These are the simple forms: `Parse` looks at the whole buffer every time and
 keeps nothing between calls, and `Chunks` is the recursive reading of the
 chunked coding of section 4.1 of RFC 7230. The incremental client in
 HttpRequest.dfy is proved equal to them.
 */
module HttpFraming {
  import opened Bytes

  /** nginx's largest size_t and off_t value on a 64-bit build. */
  const MAX_SIZE: nat := 0x7FFF_FFFF_FFFF_FFFF

  const RECV_INIT: nat := 16 * 1024
  const RECV_MAX: nat := 256 * 1024

  datatype Header = Header(name: string, value: string)

  /** The part of the header block the client interprets; `length` is None while no Content-Length was seen. */
  datatype Head = Head(status: nat, headers: seq<Header>, length: Option<nat>, chunked: bool)

  datatype Verdict = Again | Error | Done(status: nat, headers: seq<Header>, body: string)

  // ---------------------------------------------------------------- numbers

  /** An unsigned decimal that fits an off_t; anything else is None. */
  function Decimal(s: string): Option<nat> {
    if s == "" then None
    else if !IsDigit(s[|s| - 1]) then None
    else
      var d := DigitValue(s[|s| - 1]);
      if |s| == 1 then Some(d)
      else
        match Decimal(s[..|s| - 1])
        case None => None
        case Some(v) => if 10 * v + d <= MAX_SIZE then Some(10 * v + d) else None
  }

  /** The value of a run of hexadecimal digits; any other byte counts as 0. */
  function HexNumber(s: string): nat {
    if s == "" then 0
    else 16 * HexNumber(s[..|s| - 1]) + if IsHex(s[|s| - 1]) then HexValue(s[|s| - 1]) else 0
  }

  predicate IsSizeEnd(c: char) { c == ';' || c == ' ' || c == '\t' }

  /** How many leading bytes of `s` are hexadecimal digits. */
  function HexRun(s: string): (n: nat)
    ensures n <= |s|
  {
    if s != "" && IsHex(s[0]) then 1 + HexRun(s[1..]) else 0
  }

  lemma {:induction false} HexRunIs(line: string, n: nat)
    requires n <= |line| && (forall i :: 0 <= i < n ==> IsHex(line[i])) && (n < |line| ==> !IsHex(line[n]))
    ensures HexRun(line) == n
  {
    if n > 0 {
      HexRunIs(line[1..], n - 1);
    }
  }

  /**
   The size on a chunk-size line: a non-empty run of hexadecimal digits, then
   the end of the line or an extension or padding. A size that size_t cannot
   hold is refused.
   */
  function ChunkSize(line: string): Option<nat> {
    var n := HexRun(line);
    if n == 0 || (n < |line| && !IsSizeEnd(line[n])) then None
    else
      var v := HexNumber(line[..n]);
      if v <= MAX_SIZE then Some(v) else None
  }

  // ------------------------------------------------------ the header block

  predicate IsLws(c: char) { c == ' ' || c == '\t' }

  function SkipLws(s: string): (r: string) {
    if s != "" && IsLws(s[0]) then SkipLws(s[1..]) else s
  }

  function DropLws(s: string): (r: string) {
    if s != "" && IsLws(s[|s| - 1]) then DropLws(s[..|s| - 1]) else s
  }

  function Trim(s: string): string { DropLws(SkipLws(s)) }

  const CONTENT_LENGTH := "Content-Length:"
  const TRANSFER_ENCODING := "Transfer-Encoding:"

  /** A line longer than the field name it starts with, letter case aside. */
  predicate IsField(line: string, field: string) {
    |line| > |field| && EqualFold(line[..|field|], field)
  }

  /** The header captured from a line, if it has a colon after a non-empty name. */
  function Captured(line: string): seq<Header> {
    match Find(line, ":", 0)
    case Some(c) =>
      if c > 0 then [Header(line[..c], Trim(line[c + 1..]))] else []
    case None => []
  }

  /** One header line folded into what is known; None is a framing error. */
  function AddLine(h: Head, line: string): Option<Head> {
    var h1 := h.(headers := h.headers + Captured(line));
    if IsField(line, CONTENT_LENGTH) then
      match Decimal(SkipLws(line[|CONTENT_LENGTH|..]))
      case None => None
      case Some(n) =>
        if h.length.Some? && h.length.value != n then None
        else Some(h1.(length := Some(n)))
    else if IsField(line, TRANSFER_ENCODING) then
      if EqualFold(SkipLws(line[|TRANSFER_ENCODING|..]), "chunked") then Some(h1.(chunked := true))
      else None
    else Some(h1)
  }

  /** Where the line that starts at `line` ends. */
  function LineEnd(s: string, line: nat): (e: nat)
    requires line <= |s|
    ensures line <= e <= |s|
  {
    match Find(s, CRLF, line) case Some(e) => e case None => |s|
  }

  /** The header lines of `s` from offset `line`; `s` ends just before the CRLF of the empty line. */
  function ScanLines(s: string, line: nat, h: Head): Option<Head>
    decreases |s| - line
  {
    if line >= |s| then Some(h)
    else
      var eol := LineEnd(s, line);
      match AddLine(h, s[line..eol])
      case None => None
      case Some(h1) => ScanLines(s, eol + 2, h1)
  }

  /** The status code of a status line "HTTP/1.x SSS ...". */
  function StatusCode(line: string): Option<nat> {
    if |line| < 12 || line[..7] != "HTTP/1." || (line[7] != '0' && line[7] != '1') || line[8] != ' ' then None
    else
      match Decimal(line[9..12])
      case None => None
      case Some(code) => if 100 <= code <= 599 then Some(code) else None
  }

  /** The header block `s`, CRLFCRLF included. None is a malformed response. */
  function ParseHead(s: string): Option<Head>
    requires |s| >= 4 && s[|s| - 4..] == CRLFCRLF
  {
    match Find(s, CRLF, 0)
    case None => None
    case Some(eol) =>
      match StatusCode(s[..eol])
      case None => None
      case Some(code) =>
        match ScanLines(s[..|s| - 2], eol + 2, Head(code, [], None, false))
        case None => None
        case Some(h) => if h.chunked && h.length.Some? then None else Some(h)
  }

  // ----------------------------------------------------- the chunked coding

  /** `Full(data, end)`: the message body is `data` and its coding ends at offset `end`. */
  datatype Decoded = More | Bad | Full(data: string, end: nat)

  /** The offset just past the empty line that ends the trailers starting at `p`. */
  function Trailers(s: string, p: nat): Option<nat>
    decreases |s| - p
  {
    match Find(s, CRLF, p)
    case None => None
    case Some(e) => if e == p then Some(e + 2) else Trailers(s, e + 2)
  }

  /** What stands at a chunk boundary `p`: a whole chunk, the zero chunk's size line, or neither. */
  datatype Boundary = Short | Malformed | Last(trailers: nat) | Chunk(data: string, next: nat)

  function ChunkAt(s: string, p: nat): (b: Boundary)
    ensures b.Last? ==> p < b.trailers <= |s|
    ensures b.Chunk? ==> b.data != "" && p + |b.data| < b.next <= |s|
  {
    match Find(s, CRLF, p)
    case None => Short
    case Some(e) =>
      match ChunkSize(s[p..e])
      case None => Malformed
      case Some(size) =>
        if size == 0 then Last(e + 2)
        else if e + 2 + size + 2 > |s| then Short
        else if !Occurs(s, CRLF, e + 2 + size) then Malformed
        else Chunk(s[e + 2..e + 2 + size], e + 2 + size + 2)
  }

  /** The chunked coding of `s` from offset `p`, chunk by chunk. */
  function Chunks(s: string, p: nat): Decoded
    decreases |s| - p
  {
    match ChunkAt(s, p)
    case Short => More
    case Malformed => Bad
    case Last(q) => Finish("", Trailers(s, q))
    case Chunk(data, q) => Prepend(data, Chunks(s, q))
  }

  function Finish(data: string, end: Option<nat>): Decoded {
    match end case None => More case Some(e) => Full(data, e)
  }

  function Prepend(data: string, d: Decoded): Decoded {
    match d case Full(rest, e) => Full(data + rest, e) case _ => d
  }

  // ------------------------------------------------------ the whole message

  /** One parse of everything received so far. */
  function Parse(s: string): Verdict {
    match Find(s, CRLFCRLF, 0)
    case None => Again
    case Some(i) =>
      match ParseHead(s[..i + 4])
      case None => Error
      case Some(h) => ParseBody(s, i + 4, h)
  }

  function ParseBody(s: string, off: nat, h: Head): Verdict
    requires off <= |s|
  {
    if h.chunked then
      match Chunks(s, off)
      case More => Again
      case Bad => Error
      case Full(data, _) => Done(h.status, h.headers, data)
    else if h.length.Some? then
      if |s| - off >= h.length.value then Done(h.status, h.headers, s[off..off + h.length.value]) else Again
    else Again
  }

  /** What the peer's close means when `s` did not complete a response. */
  function AtClose(s: string): Verdict {
    match Find(s, CRLFCRLF, 0)
    case None => Error
    case Some(i) =>
      match ParseHead(s[..i + 4])
      case None => Error
      case Some(h) =>
        if h.chunked || h.length.Some? then Error
        else Done(h.status, h.headers, s[i + 4..])
  }

  /**
   The outcome of a response whose bytes are `t`, then close: one parse of
   the bytes that fit the receive cap, the cap itself, or the close.
   */
  function Outcome(t: string): Verdict {
    var u := if |t| <= RECV_MAX then t else t[..RECV_MAX];
    if Parse(u) != Again then Parse(u)
    else if |t| >= RECV_MAX then Error
    else AtClose(t)
  }

  // ------------------------------------------- verdicts survive extension

  lemma {:induction false} TrailersExtend(s: string, t: string, p: nat)
    requires s <= t && Trailers(s, p).Some?
    ensures Trailers(t, p) == Trailers(s, p)
    decreases |s| - p
  {
    FindExtend(s, t, CRLF, p);
    var e := Find(s, CRLF, p).value;
    if e != p {
      TrailersExtend(s, t, e + 2);
    }
  }

  lemma {:induction false} ChunkAtExtend(s: string, t: string, p: nat)
    requires s <= t && ChunkAt(s, p) != Short
    ensures ChunkAt(t, p) == ChunkAt(s, p)
  {
    hide Find, ChunkSize;
    FindExtend(s, t, CRLF, p);
    var e := Find(s, CRLF, p).value;
    assert t[p..e] == s[p..e];
    if ChunkSize(s[p..e]).Some? {
      var size := ChunkSize(s[p..e]).value;
      if size > 0 {
        OccursExtend(s, t, CRLF, e + 2 + size);
        assert t[e + 2..e + 2 + size] == s[e + 2..e + 2 + size];
      }
    }
  }

  lemma {:induction false} ChunksExtend(s: string, t: string, p: nat)
    requires s <= t && Chunks(s, p) != More
    ensures Chunks(t, p) == Chunks(s, p)
    decreases |s| - p
  {
    ChunkAtExtend(s, t, p);
    match ChunkAt(s, p)
    case Malformed =>
    case Last(q) => TrailersExtend(s, t, q);
    case Chunk(_, q) => ChunksExtend(s, t, q);
  }

  lemma {:induction false} ParseBodyExtend(s: string, t: string, off: nat, h: Head)
    requires s <= t && off <= |s| && ParseBody(s, off, h) != Again
    ensures ParseBody(t, off, h) == ParseBody(s, off, h)
  {
    if h.chunked {
      ChunksExtend(s, t, off);
    } else {
      assert t[off..off + h.length.value] == s[off..off + h.length.value];
    }
  }

  /** A verdict other than "read more" never changes, whatever bytes follow. */
  lemma {:induction false} ParseExtend(s: string, t: string)
    requires s <= t && Parse(s) != Again
    ensures Parse(t) == Parse(s)
  {
    hide ParseHead, ParseBody;
    FindExtend(s, t, CRLFCRLF, 0);
    var i := Find(s, CRLFCRLF, 0).value;
    assert t[..i + 4] == s[..i + 4];
    if ParseHead(s[..i + 4]).Some? {
      ParseBodyExtend(s, t, i + 4, ParseHead(s[..i + 4]).value);
    }
  }

  /** The response is settled by the bytes up to the first verdict, the cap included. */
  lemma {:induction false} OutcomeSettled(s: string, t: string)
    requires s <= t && |s| <= RECV_MAX && Parse(s) != Again
    ensures Outcome(t) == Parse(s)
  {
    hide Parse, AtClose;
    var u := if |t| <= RECV_MAX then t else t[..RECV_MAX];
    assert s <= u;
    ParseExtend(s, u);
  }

  lemma {:induction false} OutcomeAtClose(s: string)
    requires |s| <= RECV_MAX && Parse(s) == Again
    ensures Outcome(s) == if |s| == RECV_MAX then Error else AtClose(s)
  {
    hide Parse, AtClose;
  }

  /** A response that fills the cap without a verdict is refused. */
  lemma {:induction false} OutcomeCapped(s: string, t: string)
    requires s <= t && |s| == RECV_MAX && Parse(s) == Again
    ensures Outcome(t) == Error
  {
    hide Parse;
    assert t[..RECV_MAX] == s;
    assert |t| == RECV_MAX ==> t == s;
  }
}
