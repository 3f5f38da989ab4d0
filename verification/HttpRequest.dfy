/**
 The incremental response reader: a receive buffer that grows once, a header
 scan and a chunk decoder that resume where the last read stopped, and the read
 loop that drives them. Every cursor is there for speed only, and the
 contracts say so: they speak of `Parse` and `Outcome` of the bytes received.
 */
module HttpRequest {
  import opened Bytes
  import opened HttpFraming

  datatype Rc = RcAgain | RcError | RcDone

  /** NONEMPTY: the current trailer line has a byte that rules it out as the empty line. */
  datatype DechunkState = InChunks | TrailerStart | TrailerNonEmpty

  // ------------------------------------------------- what a cursor stands for

  /** The end of the trailers, from inside a line that is known not to be empty. */
  function TrailerTail(t: string, p: nat): Option<nat> {
    match Find(t, CRLF, p)
    case None => None
    case Some(e) => Trailers(t, e + 2)
  }

  /** The decoding of `t` continued from a cursor, `done` being the data before it. */
  function Resume(t: string, p: nat, done: string, st: DechunkState): Decoded {
    match st
    case InChunks => Prepend(done, Chunks(t, p))
    case TrailerStart => Finish(done, Trailers(t, p))
    case TrailerNonEmpty => Finish(done, TrailerTail(t, p))
  }

  /** Whatever follows `s`, decoding from the cursor gives what decoding from the start of the body gives. */
  ghost predicate Resumes(s: string, body: nat, p: nat, done: string, st: DechunkState) {
    && p <= |s|
    && forall t: string :: s <= t ==> Chunks(t, body) == Resume(t, p, done, st)
  }

  lemma {:induction false} ResumesStart(s: string, body: nat)
    requires body <= |s|
    ensures Resumes(s, body, body, "", InChunks)
  {
    forall t: string | s <= t
      ensures Chunks(t, body) == Resume(t, body, "", InChunks)
    {
      var d := Chunks(t, body);
      if d.Full? {
        assert "" + d.data == d.data;
      }
    }
  }

  lemma {:induction false} ResumesExtend(s: string, u: string, body: nat, p: nat, done: string, st: DechunkState)
    requires Resumes(s, body, p, done, st) && s <= u
    ensures Resumes(u, body, p, done, st)
  {
    forall t: string | u <= t
      ensures Chunks(t, body) == Resume(t, p, done, st)
    {
      assert s <= t;
    }
  }

  lemma {:induction false} AfterChunk(s: string, body: nat, p: nat, done: string)
    requires Resumes(s, body, p, done, InChunks) && ChunkAt(s, p).Chunk?
    ensures Resumes(s, body, ChunkAt(s, p).next, done + ChunkAt(s, p).data, InChunks)
  {
    var Chunk(data, q) := ChunkAt(s, p);
    forall t: string | s <= t
      ensures Chunks(t, body) == Resume(t, q, done + data, InChunks)
    {
      ChunkAtExtend(s, t, p);
      var d := Chunks(t, q);
      if d.Full? {
        assert done + (data + d.data) == done + data + d.data;
      }
    }
  }

  lemma {:induction false} AfterLast(s: string, body: nat, p: nat, done: string)
    requires Resumes(s, body, p, done, InChunks) && ChunkAt(s, p).Last?
    ensures Resumes(s, body, ChunkAt(s, p).trailers, done, TrailerStart)
  {
    var q := ChunkAt(s, p).trailers;
    forall t: string | s <= t
      ensures Chunks(t, body) == Resume(t, q, done, TrailerStart)
    {
      ChunkAtExtend(s, t, p);
      assert done + "" == done;
    }
  }

  /** A finished trailer line that is not the empty line moves the cursor to the next one. */
  lemma {:induction false} AfterTrailerLine(s: string, body: nat, p: nat, done: string, st: DechunkState)
    requires Resumes(s, body, p, done, st) && st != InChunks
    requires Find(s, CRLF, p).Some? && !(st == TrailerStart && Find(s, CRLF, p).value == p)
    ensures Resumes(s, body, Find(s, CRLF, p).value + 2, done, TrailerStart)
  {
    var e := Find(s, CRLF, p).value;
    forall t: string | s <= t
      ensures Chunks(t, body) == Resume(t, e + 2, done, TrailerStart)
    {
      FindExtend(s, t, CRLF, p);
    }
  }

  /** Where the scan of an unfinished, non-empty trailer line resumes: only a final CR can start a split CRLF. */
  function ScanEnd(s: string): nat
    requires s != ""
  {
    if s[|s| - 1] == '\r' then |s| - 1 else |s|
  }

  lemma {:induction false} ScanEndIs(s: string)
    requires s != ""
    ensures |s| - 1 <= ScanEnd(s) <= |s| && (ScanEnd(s) == |s| - 1 <==> s[|s| - 1] == '\r')
  {
  }

  lemma {:induction false} UnfinishedAt(s: string, t: string, p: nat, j: nat)
    requires s <= t && s != "" && Find(s, CRLF, p).None? && p <= j < ScanEnd(s)
    ensures !Occurs(t, CRLF, j)
  {
    FindSpec(s, CRLF, p);
    if j + 2 <= |s| {
      OccursExtend(s, t, CRLF, j);
    } else {
      assert t[j] == s[j] && s[j] != CRLF[0];
    }
  }

  lemma {:induction false} PartialLineAt(s: string, t: string, p: nat, done: string, st: DechunkState)
    requires s <= t && st != InChunks
    requires Find(s, CRLF, p).None? && p < |s|
    requires !(st == TrailerStart && |s| - p == 1 && s[p] == '\r')
    ensures Resume(t, p, done, st) == Resume(t, ScanEnd(s), done, TrailerNonEmpty)
  {
    hide Find, Occurs, ScanEnd, Chunks;
    ScanEndIs(s);
    forall j | p <= j < ScanEnd(s)
      ensures !Occurs(t, CRLF, j)
    {
      UnfinishedAt(s, t, p, j);
    }
    FindSkip(t, CRLF, p, ScanEnd(s));
  }

  lemma {:induction false} PartialLine(s: string, body: nat, p: nat, done: string, st: DechunkState)
    requires Resumes(s, body, p, done, st) && st != InChunks
    requires Find(s, CRLF, p).None? && p < |s|
    requires !(st == TrailerStart && |s| - p == 1 && s[p] == '\r')
    ensures Resumes(s, body, ScanEnd(s), done, TrailerNonEmpty)
  {
    forall t: string | s <= t
      ensures Chunks(t, body) == Resume(t, ScanEnd(s), done, TrailerNonEmpty)
    {
      PartialLineAt(s, t, p, done, st);
    }
  }

  // ------------------------------------------------------- the byte scanners

  /** The first occurrence of `pat` in s[p..end], without a terminator; `visits` counts the offsets compared. */
  method Memmem(s: string, p: nat, end: nat, pat: string) returns (r: Option<nat>, ghost visits: nat)
    requires p <= end <= |s| && pat != ""
    ensures r == Find(s[..end], pat, p)
    ensures visits == if r.Some? then r.value - p + 1 else if end - p < |pat| then 0 else end - p - |pat| + 1
  {
    visits := 0;
    if end - p < |pat| {
      return None, 0;
    }
    var q := p;
    while q <= end - |pat|
      invariant p <= q <= end - |pat| + 1
      invariant visits == q - p
      invariant forall j :: p <= j < q ==> !Occurs(s[..end], pat, j)
    {
      visits := visits + 1;
      assert s[q..q + |pat|] == s[..end][q..q + |pat|];
      if s[q..q + |pat|] == pat {
        FindIs(s[..end], pat, p, Some(q));
        return Some(q), visits;
      }
      q := q + 1;
    }
    FindIs(s[..end], pat, p, None);
    r := None;
  }

  /** The end of the line that starts at `p`. */
  method FindEol(s: string, p: nat) returns (r: Option<nat>, ghost visits: nat)
    requires p <= |s|
    ensures r == Find(s, CRLF, p) && (r.Some? ==> p <= r.value && r.value + 2 <= |s|)
    ensures visits == if r.Some? then r.value - p + 1 else if |s| - p < 2 then 0 else |s| - p - 1
  {
    assert s[..|s|] == s;
    r, visits := Memmem(s, p, |s|, CRLF);
  }

  /** The end-of-headers search resumed at `scanPos`, backing off the three bytes a split marker may have left. */
  method FindHeaderEnd(s: string, scanPos: nat) returns (r: Option<nat>)
    requires scanPos <= |s| && Find(s[..scanPos], CRLFCRLF, 0).None?
    ensures r == Find(s, CRLFCRLF, 0)
    ensures r.Some? ==> r.value + 4 <= |s| && s[..r.value + 4][r.value..] == CRLFCRLF
  {
    var scanFrom := if scanPos > 3 then scanPos - 3 else 0;
    FindResume(s[..scanPos], s, CRLFCRLF, 0, scanFrom);
    assert s[..|s|] == s;
    var hdrEnd, _ := Memmem(s, scanFrom, |s|, CRLFCRLF);
    r := hdrEnd;
  }

  lemma {:induction false} HexRunSpec(line: string)
    ensures forall i :: 0 <= i < HexRun(line) ==> IsHex(line[i])
    ensures HexRun(line) < |line| ==> !IsHex(line[HexRun(line)])
  {
    if line != "" && IsHex(line[0]) {
      HexRunSpec(line[1..]);
      forall i | 0 <= i < HexRun(line)
        ensures IsHex(line[i])
      {
        if i > 0 {
          assert line[i] == line[1..][i - 1];
        }
      }
    }
  }

  lemma {:induction false} HexNumberGrows(line: string, k: nat, n: nat)
    requires k <= n <= |line|
    ensures HexNumber(line[..k]) <= HexNumber(line[..n])
  {
    if k < n {
      assert line[..n][..n - 1] == line[..n - 1];
      HexNumberGrows(line, k, n - 1);
    }
  }

  /** The size token of a chunk-size line, digit by digit, refusing a size that would overflow. */
  method ParseChunkSize(line: string) returns (r: Option<nat>)
    ensures r == ChunkSize(line)
  {
    if line == "" {
      return None;
    }
    var size, q := 0, 0;
    while q < |line|
      invariant q <= |line|
      invariant forall i :: 0 <= i < q ==> IsHex(line[i])
      invariant size == HexNumber(line[..q]) <= MAX_SIZE
    {
      var c := line[q];
      if !IsHex(c) {
        if IsSizeEnd(c) {
          break;
        }
        HexRunIs(line, q);
        return None;
      }
      assert line[..q + 1][..q] == line[..q];
      if size > MAX_SIZE / 16 {
        var n := HexRun(line);
        HexRunSpec(line);
        assert n >= q + 1;
        HexNumberGrows(line, q + 1, n);
        return None;
      }
      size := 16 * size + HexValue(c);
      q := q + 1;
    }
    HexRunIs(line, q);
    r := if q == 0 then None else Some(size);
  }

  /** The header lines of a block that ends at `limit`, captured one by one; `s` is the block up to `limit`. */
  method ScanHeaders(s: string, start: nat, code: nat) returns (r: Option<Head>)
    ensures r == ScanLines(s, start, Head(code, [], None, false))
  {
    hide Find, AddLine;
    var h := Head(code, [], None, false);
    var line := start;
    while line < |s|
      invariant ScanLines(s, line, h) == ScanLines(s, start, Head(code, [], None, false))
    {
      var eol, _ := FindEol(s, line);
      var e := if eol.Some? then eol.value else |s|;
      assert e == LineEnd(s, line);
      match AddLine(h, s[line..e]) {
        case None => return None;
        case Some(h1) => h := h1;
      }
      line := e + 2;
    }
    r := Some(h);
  }

  /** The header block `s`, CRLFCRLF included. */
  method ReadHead(s: string) returns (r: Option<Head>)
    requires |s| >= 4 && s[|s| - 4..] == CRLFCRLF
    ensures r == ParseHead(s)
  {
    var eol, _ := FindEol(s, 0);
    if eol.None? {
      return None;
    }
    var code := StatusCode(s[..eol.value]);
    if code.None? {
      return None;
    }
    r := ScanHeaders(s[..|s| - 2], eol.value + 2, code.value);
    if r.Some? && r.value.chunked && r.value.length.Some? {
      r := None;
    }
  }

  /** The data of the chunk at `p` written to `out` at `o`. */
  method CopyChunk(s: string, q: nat, size: nat, out: array<char>, o: nat)
    requires q + size <= |s| && o + size <= out.Length
    modifies out
    ensures out[..o + size] == old(out[..o]) + s[q..q + size]
  {
    forall i | 0 <= i < size {
      out[o + i] := s[q + i];
    }
  }

  /** The size line of a boundary that pass one accepted: where its data starts and how long it is. */
  method NextChunk(s: string, p: nat) returns (q: nat, size: nat)
    requires ChunkAt(s, p).Last? || ChunkAt(s, p).Chunk?
    ensures size == 0 ==> ChunkAt(s, p) == Last(q)
    ensures size > 0 ==> q + size + 2 <= |s| && ChunkAt(s, p) == Chunk(s[q..q + size], q + size + 2)
  {
    var eol, _ := FindEol(s, p);
    var n := ParseChunkSize(s[p..eol.value]);
    q, size := eol.value + 2, n.value;
  }

  /**
   Pass two: copy the chunk data of a body whose framing was validated into a
   buffer of exactly the size pass one counted.
   */
  method CopyBody(s: string, body: nat, total: nat) returns (out: array<char>)
    requires Chunks(s, body).Full? && |Chunks(s, body).data| == total
    ensures fresh(out) && out[..] == Chunks(s, body).data
  {
    hide ChunkAt, Find, ChunkSize;
    out := new char[total];
    var p: nat, o: nat := body, 0;
    var q: nat, size: nat := NextChunk(s, p);
    while size != 0
      invariant o <= out.Length == total
      invariant Chunks(s, p).Full? && Chunks(s, body).data == out[..o] + Chunks(s, p).data
      invariant size == 0 ==> ChunkAt(s, p) == Last(q)
      invariant size > 0 ==> q + size + 2 <= |s| && ChunkAt(s, p) == Chunk(s[q..q + size], q + size + 2)
      decreases |s| - p
    {
      p := q + size + 2;
      ConcatAssoc(out[..o], s[q..q + size], Chunks(s, p).data);
      CopyChunk(s, q, size, out, o);
      o := o + size;
      q, size := NextChunk(s, p);
    }
    assert out[..o] == out[..];
  }

  lemma {:induction false} ConcatAssoc(a: string, b: string, c: string)
    ensures a + (b + c) == a + b + c
  {
    assert a + (b + c) == a + b + c;
  }

  // --------------------------------------------------- pass one, by value

  /** The chunk part of pass one: from the cursor to the zero chunk or the end of the input. */
  method WalkChunks(s: string, body: nat, pos: nat, total: nat, ghost done: string)
    returns (rc: Rc, pos': nat, total': nat, ghost done': string)
    requires Resumes(s, body, pos, done, InChunks) && total == |done|
    ensures pos <= pos' && total' == |done'|
    ensures rc == RcAgain ==> Resumes(s, body, pos', done', InChunks) && Chunks(s, body) == More
    ensures rc == RcError ==> Chunks(s, body) == Bad
    ensures rc == RcDone ==> Resumes(s, body, pos', done', TrailerStart)
  {
    hide Find, ChunkSize;
    pos', total', done' := pos, total, done;
    while true
      invariant pos <= pos' && total' == |done'|
      invariant Resumes(s, body, pos', done', InChunks)
      decreases |s| - pos'
    {
      assert Chunks(s, body) == Resume(s, pos', done', InChunks);
      var eol, _ := FindEol(s, pos');
      if eol.None? {
        return RcAgain, pos', total', done';
      }
      var size := ParseChunkSize(s[pos'..eol.value]);
      if size.None? {
        return RcError, pos', total', done';
      }
      var q := eol.value + 2;
      if size.value == 0 {
        assert ChunkAt(s, pos') == Last(q);
        AfterLast(s, body, pos', done');
        return RcDone, q, total', done';
      }
      if |s| - q < 2 || size.value > |s| - q - 2 {
        return RcAgain, pos', total', done';
      }
      if s[q + size.value..q + size.value + 2] != CRLF {
        return RcError, pos', total', done';
      }
      assert ChunkAt(s, pos') == Chunk(s[q..q + size.value], q + size.value + 2);
      AfterChunk(s, body, pos', done');
      done' := done' + s[q..q + size.value];
      pos' := q + size.value + 2;
      total' := total' + size.value;
    }
  }

  /**
   The trailer part: only a genuinely empty line ends the message. `probes`
   counts the comparisons made at trailer offsets, and never outgrows the
   distance the cursor moved: no trailer offset is compared twice.
   */
  method WalkTrailers(s: string, body: nat, pos: nat, st: DechunkState, ghost done: string)
    returns (rc: Rc, pos': nat, st': DechunkState, ghost probes: nat)
    requires Resumes(s, body, pos, done, st) && st != InChunks
    ensures rc == RcAgain ==> Resumes(s, body, pos', done, st') && st' != InChunks && Chunks(s, body) == More
    ensures rc == RcDone ==> Chunks(s, body).Full? && Chunks(s, body).data == done
    ensures rc != RcError
    ensures pos <= pos' <= |s| && probes <= pos' - pos
  {
    hide Find, Occurs, ChunkAt;
    pos', st', probes := pos, st, 0;
    while true
      invariant pos <= pos' && probes <= pos' - pos && st' != InChunks
      invariant Resumes(s, body, pos', done, st')
      decreases |s| - pos'
    {
      assert Chunks(s, body) == Resume(s, pos', done, st');
      var eol, visits := FindEol(s, pos');
      if eol.None? {
        var pending := |s| - pos';
        if pending != 0 && !(st' == TrailerStart && pending == 1 && s[pos'] == '\r') {
          PartialLine(s, body, pos', done, st');
          st' := TrailerNonEmpty;
          pos' := |s| - (if s[|s| - 1] == '\r' then 1 else 0);
        }
        return RcAgain, pos', st', probes + visits;
      }
      if st' == TrailerStart && eol.value == pos' {
        return RcDone, eol.value + 2, st', probes + visits;
      }
      AfterTrailerLine(s, body, pos', done, st');
      pos' := eol.value + 2;
      st' := TrailerStart;
      probes := probes + visits;
    }
  }

  /**
   A decoder cursor that can be resumed on `s`: position 0 is a decoder that
   has not started. At trailer offsets no more comparisons were made than the
   cursor has passed bytes, so each trailer byte was looked at twice at most.
   */
  ghost predicate Cursor(s: string, body: nat, pos: nat, total: nat, st: DechunkState,
                         done: string, from: nat, probes: nat)
  {
    if pos == 0 then st == InChunks && probes == 0
    else
      && |done| == total
      && Resumes(s, body, pos, done, st)
      && (st == InChunks ==> probes == 0)
      && (st != InChunks ==> from <= pos <= |s| && probes <= pos - from)
  }

  lemma {:induction false} CursorExtend(s: string, t: string, body: nat, pos: nat, total: nat, st: DechunkState,
                                        done: string, from: nat, probes: nat)
    requires Cursor(s, body, pos, total, st, done, from, probes) && s <= t
    ensures Cursor(t, body, pos, total, st, done, from, probes)
  {
    if pos != 0 {
      ResumesExtend(s, t, body, pos, done, st);
    }
  }

  /** Pass one from a cursor: the verdict on all of `s`, and the cursor for the next call. */
  method WalkBody(s: string, body: nat, pos: nat, total: nat, st: DechunkState,
                  ghost done: string, ghost from: nat, ghost probes: nat)
    returns (rc: Rc, pos': nat, total': nat, st': DechunkState,
             ghost done': string, ghost from': nat, ghost probes': nat)
    requires 0 < body <= |s| && Cursor(s, body, pos, total, st, done, from, probes)
    ensures Chunks(s, body) == More ==> rc == RcAgain && Cursor(s, body, pos', total', st', done', from', probes')
    ensures Chunks(s, body) == Bad ==> rc == RcError
    ensures Chunks(s, body).Full? ==> rc == RcDone && |Chunks(s, body).data| == total'
    ensures probes' == 0 || from' + probes' <= |s|
  {
    hide Find, Resumes, Chunks;
    pos', total', st', done', from', probes' := pos, total, st, done, from, probes;
    if pos == 0 {
      pos', total', done' := body, 0, "";
      ResumesStart(s, body);
    }
    rc := RcDone;
    if st' == InChunks {
      rc, pos', total', done' := WalkChunks(s, body, pos', total', done');
      if rc == RcDone {
        st', from' := TrailerStart, pos';
      }
    }
    if rc == RcDone {
      ghost var more;
      rc, pos', st', more := WalkTrailers(s, body, pos', st', done');
      probes' := probes' + more;
    }
  }

  // ------------------------------------------------------------- the request

  class Request {
    var buf: array<char>
    var last: nat

    var headersDone: bool
    var status: nat
    var headers: seq<Header>
    var contentLength: Option<nat>
    var chunked: bool
    var bodyOffset: nat
    var hdrScanPos: nat
    var dechunkPos: nat
    var dechunkTotal: nat
    var dechunkState: DechunkState
    var bodyOut: string

    ghost var decoded: string      // data of the chunks before the cursor
    ghost var trailerAt: nat       // where the trailers start, once the zero chunk was seen
    ghost var probes: nat          // CRLF comparisons made at trailer offsets, over all calls

    function Response(): Verdict
      reads this
    {
      Done(status, headers, bodyOut)
    }

    /** The cursors agree with the bytes `s` received so far. */
    ghost predicate StateOk(s: string)
      reads this
    {
      if !headersDone then
        && hdrScanPos <= |s| && Find(s[..hdrScanPos], CRLFCRLF, 0).None?
        && CursorOk(s) && dechunkPos == 0
      else
        && 4 <= bodyOffset <= |s| && Find(s, CRLFCRLF, 0) == Some(bodyOffset - 4)
        && ParseHead(s[..bodyOffset]) == Some(Head(status, headers, contentLength, chunked))
        && (if chunked then CursorOk(s) else probes == 0)
    }

    ghost predicate CursorOk(s: string)
      reads this
    {
      Cursor(s, bodyOffset, dechunkPos, dechunkTotal, dechunkState, decoded, trailerAt, probes)
    }

    ghost predicate Valid()
      reads this, buf
    {
      && (buf.Length == RECV_INIT || buf.Length == RECV_MAX)
      && last <= buf.Length
      && StateOk(buf[..last])
    }

    /** Over all calls, no more comparisons at trailer offsets than bytes received after the zero chunk. */
    ghost predicate Linear()
      reads this
    {
      probes == 0 || trailerAt + probes <= last
    }

    /** Every byte received was parsed, and more are needed. */
    ghost predicate Waiting()
      reads this, buf
    {
      && Valid() && Parse(buf[..last]) == Again
      && (!headersDone ==> Find(buf[..last], CRLFCRLF, 0).None?)
    }

    lemma {:induction false} StateOkExtend(s: string, t: string)
      requires StateOk(s) && s <= t
      ensures StateOk(t)
    {
      if headersDone {
        FindExtend(s, t, CRLFCRLF, 0);
        assert t[..bodyOffset] == s[..bodyOffset];
        if chunked {
          CursorExtend(s, t, bodyOffset, dechunkPos, dechunkTotal, dechunkState, decoded, trailerAt, probes);
        }
      } else {
        assert t[..hdrScanPos] == s[..hdrScanPos];
      }
    }

    lemma {:induction false} ValidLinear()
      requires Valid()
      ensures Linear()
    {
      hide Find, ParseHead, Resumes;
    }

    constructor ()
      ensures Waiting() && buf[..last] == "" && fresh(buf)
    {
      buf := new char[RECV_INIT];
      last := 0;
      headersDone := false;
      status := 0;
      headers := [];
      contentLength := None;
      chunked := false;
      bodyOffset := 0;
      hdrScanPos := 0;
      dechunkPos := 0;
      dechunkTotal := 0;
      dechunkState := InChunks;
      bodyOut := "";
      decoded := "";
      trailerAt := 0;
      probes := 0;
    }

    /**
     The resumable chunk decoder: the same verdict and body as decoding
     everything from the start, and the trailers searched in linear time over
     all calls, the last one included.
     */
    method Dechunk() returns (rc: Rc)
      requires Valid() && headersDone && chunked
      modifies this`dechunkPos, this`dechunkTotal, this`dechunkState, this`bodyOut, this`decoded, this`trailerAt, this`probes
      ensures Chunks(buf[..last], bodyOffset) == More ==> rc == RcAgain && Valid()
      ensures Chunks(buf[..last], bodyOffset) == Bad ==> rc == RcError
      ensures Chunks(buf[..last], bodyOffset).Full? ==> rc == RcDone && bodyOut == Chunks(buf[..last], bodyOffset).data
      ensures Linear()
    {
      hide Find, ParseHead, Chunks, Cursor;
      var s := buf[..last];
      ghost var from, count;
      rc, dechunkPos, dechunkTotal, dechunkState, decoded, from, count :=
        WalkBody(s, bodyOffset, dechunkPos, dechunkTotal, dechunkState, decoded, trailerAt, probes);
      trailerAt, probes := from, count;
      if rc == RcDone {
        var out := CopyBody(s, bodyOffset, dechunkTotal);
        bodyOut := out[..];
      }
    }

    /** The resumed search for the end of the headers, then the header block itself. */
    method ParseHeaders() returns (rc: Rc)
      requires Valid() && !headersDone
      modifies this
      ensures buf == old(buf) && last == old(last)
      ensures rc == RcAgain ==> Valid() && !headersDone && Find(buf[..last], CRLFCRLF, 0).None?
      ensures rc == RcError ==> Parse(buf[..last]) == Error
      ensures rc == RcDone ==> Valid() && headersDone
      ensures Linear()
    {
      hide Find, ParseHead, ParseBody, Resumes;
      var s := buf[..last];
      var hdrEnd := FindHeaderEnd(s, hdrScanPos);
      assert s[..last] == s;
      if hdrEnd.None? {
        hdrScanPos := last;
        return RcAgain;
      }
      bodyOffset := hdrEnd.value + 4;
      var head := ReadHead(s[..bodyOffset]);
      if head.None? {
        return RcError;
      }
      status, headers := head.value.status, head.value.headers;
      contentLength, chunked := head.value.length, head.value.chunked;
      headersDone := true;
      return RcDone;
    }

    /** The verdict on the body, once the headers are known. */
    method ParseBodyStep() returns (rc: Rc)
      requires Valid() && headersDone
      modifies this`dechunkPos, this`dechunkTotal, this`dechunkState, this`bodyOut, this`decoded, this`trailerAt, this`probes
      ensures var v := ParseBody(buf[..last], bodyOffset, Head(status, headers, contentLength, chunked));
              && (v == Again ==> rc == RcAgain && Valid())
              && (v == Error ==> rc == RcError)
              && (v.Done? ==> rc == RcDone && Response() == v)
      ensures Linear()
    {
      hide ParseHead, Chunks, Cursor;
      if chunked {
        rc := Dechunk();
        return;
      }
      if contentLength.Some? {
        var have := last - bodyOffset;
        if have >= contentLength.value {
          bodyOut := buf[..last][bodyOffset..bodyOffset + contentLength.value];
          return RcDone;
        }
      }
      return RcAgain;
    }

    /** One incremental parse step: the verdict of parsing the whole buffer. */
    method ParseResponse() returns (rc: Rc)
      requires Valid()
      modifies this
      ensures buf == old(buf) && last == old(last)
      ensures Parse(buf[..last]) == Again ==> rc == RcAgain && Waiting()
      ensures Parse(buf[..last]) == Error ==> rc == RcError
      ensures Parse(buf[..last]).Done? ==> rc == RcDone && Response() == Parse(buf[..last])
      ensures Linear()
    {
      hide ParseHead, Cursor, ParseBody;
      if !headersDone {
        rc := ParseHeaders();
        if rc != RcDone {
          return;
        }
      }
      rc := ParseBodyStep();
    }

    /** Make room for the next read: one jump from the initial size to the cap, then refuse. */
    method Reserve() returns (ok: bool)
      requires Valid()
      modifies this`buf
      ensures Valid() && buf[..last] == old(buf[..last])
      ensures ok <==> last < RECV_MAX
      ensures ok ==> last < buf.Length
      ensures buf == old(buf) || fresh(buf)
    {
      hide Find, ParseHead, Cursor;
      if last == buf.Length {
        if RECV_MAX <= buf.Length {
          return false;
        }
        var nb := new char[RECV_MAX];
        ghost var s := buf[..last];
        CopyChunk(buf[..last], 0, last, nb, 0);
        assert nb[..last] == s;
        buf := nb;
        assert StateOk(buf[..last]);
      }
      ok := true;
    }

    /** A successful read of `n` more bytes of the stream. */
    method Receive(stream: string, n: nat)
      requires Valid() && last + n <= buf.Length && last + n <= |stream| && buf[..last] == stream[..last]
      modifies this`last, buf
      ensures Valid() && last == old(last) + n && buf[..last] == stream[..last]
    {
      hide Find, ParseHead, Cursor;
      CopyChunk(stream, last, n, buf, last);
      assert buf[..last + n] == stream[..last + n];
      last := last + n;
      StateOkExtend(stream[..last - n], stream[..last]);
    }

    /**
     One readable event, with the first `ready` bytes of the peer's stream at
     hand. Each read takes any number of bytes that fit the room left, and a
     parse follows it. With nothing left to read the handler waits.
     */
    method ReadHandler(stream: string, ready: nat) returns (rc: Rc)
      requires Waiting() && last <= ready <= |stream| && buf[..last] == stream[..last]
      modifies this, buf
      ensures buf == old(buf) || fresh(buf)
      ensures rc == RcAgain ==> Waiting() && last == ready < RECV_MAX && buf[..last] == stream[..last]
      ensures rc == RcError ==> Outcome(stream) == Error
      ensures rc == RcDone ==> Outcome(stream) == Response()
      ensures Linear() && last <= ready
    {
      hide Parse, ParseHead, Cursor;
      while true
        invariant Waiting() && last <= ready && buf[..last] == stream[..last]
        invariant buf == old(buf) || fresh(buf)
        decreases ready - last
      {
        ValidLinear();
        var ok := Reserve();
        if !ok {
          OutcomeCapped(stream[..last], stream);
          return RcError;
        }
        if last == ready {
          return RcAgain;
        }
        var n: nat :| 1 <= n <= buf.Length - last && n <= ready - last;
        Receive(stream, n);
        ghost var s := stream[..last];
        rc := ParseResponse();
        if rc != RcAgain {
          OutcomeSettled(s, stream);
          return;
        }
      }
    }

    lemma {:induction false} AtCloseIs(s: string)
      requires StateOk(s) && Parse(s) == Again && (!headersDone ==> Find(s, CRLFCRLF, 0).None?)
      ensures headersDone ==> bodyOffset <= |s|
      ensures AtClose(s) ==
                if !headersDone || chunked || contentLength.Some? then Error
                else Done(status, headers, s[bodyOffset..])
      ensures headersDone && !chunked && contentLength.Some? ==> |s| - bodyOffset < contentLength.value
    {
      hide Find, ParseHead, Chunks, Cursor;
    }

    /** The peer closed: decide what the bytes received so far amount to. */
    method Close() returns (rc: Rc)
      requires Waiting()
      modifies this`buf, this`bodyOut
      ensures rc == RcError ==> Outcome(old(buf[..last])) == Error
      ensures rc == RcDone ==> Outcome(old(buf[..last])) == Response()
      ensures rc != RcAgain
    {
      hide Parse, ParseHead, Chunks, Cursor, StateOk, Outcome, AtClose;
      ghost var s := buf[..last];
      OutcomeAtClose(s);
      AtCloseIs(s);
      var ok := Reserve();
      if !ok {
        return RcError;
      }
      if !headersDone {
        return RcError;
      }
      if chunked {
        return RcError;
      }
      if contentLength.Some? && last - bodyOffset < contentLength.value {
        return RcError;
      }
      bodyOut := buf[..last][bodyOffset..];
      return RcDone;
    }
  }

  /**
   A whole exchange: the peer's bytes arrive in any number of readable events,
   each read in any split, then the peer closes. The result is that of one
   parse of the whole stream, and `probes`, the comparisons made at trailer
   offsets, stays within the length of the stream, however it was split.
   */
  method Exchange(stream: string) returns (v: Verdict, ghost probes: nat)
    ensures v == Outcome(stream)
    ensures probes <= |stream|
  {
    var r := new Request();
    var ready := 0;
    while ready < |stream|
      invariant fresh(r) && fresh(r.buf) && r.Waiting()
      invariant r.last == ready <= |stream| && r.buf[..r.last] == stream[..ready]
      decreases |stream| - ready
    {
      ready :| r.last < ready <= |stream|;
      var rc := r.ReadHandler(stream, ready);
      if rc == RcError {
        return Error, r.probes;
      } else if rc == RcDone {
        return r.Response(), r.probes;
      }
    }
    assert stream[..ready] == stream;
    var rc := r.Close();
    v, probes := if rc == RcError then Error else r.Response(), r.probes;
  }
}
