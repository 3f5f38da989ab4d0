/**
 The chunked coding as a grammar: a message is a list of chunks, a last chunk
 and trailer lines, and `Wire` writes it out. The decoder `Chunks` accepts
 exactly the written messages, each with its own data. They form a larger
 class than that of section 4.1 of RFC 7230: `StandardTaken` and `Looser`
 compare the two.
 */
module ChunkedGrammar {
  import opened Bytes
  import opened HttpFraming

  datatype Piece = Piece(line: string, data: string)

  datatype Message = Message(pieces: seq<Piece>, last: string, trailers: seq<string>)

  /** A line: no CRLF inside it. */
  predicate IsLine(s: string) { Find(s, CRLF, 0).None? }

  predicate IsPiece(c: Piece) {
    IsLine(c.line) && c.data != "" && ChunkSize(c.line) == Some(|c.data|)
  }

  /**
   After the size and a ";" or a blank a size line may go on with any bytes,
   and any line that is not empty is a trailer.
   */
  predicate IsMessage(m: Message) {
    && (forall i :: 0 <= i < |m.pieces| ==> IsPiece(m.pieces[i]))
    && IsLine(m.last) && ChunkSize(m.last) == Some(0)
    && (forall i :: 0 <= i < |m.trailers| ==> IsLine(m.trailers[i]) && m.trailers[i] != "")
  }

  function WirePiece(c: Piece): string { c.line + CRLF + c.data + CRLF }

  function WireTrailers(ts: seq<string>): string {
    if ts == [] then CRLF else ts[0] + CRLF + WireTrailers(ts[1..])
  }

  function Wire(m: Message): string
    decreases |m.pieces|
  {
    if m.pieces == [] then m.last + CRLF + WireTrailers(m.trailers)
    else WirePiece(m.pieces[0]) + Wire(m.(pieces := m.pieces[1..]))
  }

  function Data(pieces: seq<Piece>): string {
    if pieces == [] then "" else pieces[0].data + Data(pieces[1..])
  }

  // -------------------------------------------------------------- lines

  /** An occurrence of a concatenation is an occurrence of each part. */
  lemma {:induction false} OccursSplit(s: string, a: string, b: string, p: nat)
    requires Occurs(s, a + b, p)
    ensures Occurs(s, a, p) && Occurs(s, b, p + |a|)
  {
    var w := s[p..p + |a + b|];
    assert w[..|a|] == a && w[|a|..] == b;
    assert s[p..p + |a|] == w[..|a|];
    assert s[p + |a|..p + |a| + |b|] == w[|a|..];
  }

  lemma {:induction false} OccursJoin(s: string, a: string, b: string, p: nat)
    requires Occurs(s, a, p) && Occurs(s, b, p + |a|)
    ensures Occurs(s, a + b, p)
  {
    assert s[p..p + |a + b|] == s[p..p + |a|] + s[p + |a|..p + |a| + |b|];
  }

  /** A line written at `p` ends where it was ended. */
  lemma {:induction false} LineFound(s: string, p: nat, line: string)
    requires IsLine(line) && Occurs(s, line, p) && Occurs(s, CRLF, p + |line|)
    ensures Find(s, CRLF, p) == Some(p + |line|)
  {
    FindSpec(line, CRLF, 0);
    forall j | p <= j < p + |line|
      ensures !Occurs(s, CRLF, j)
    {
      var k, after := j - p, p + |line|;
      assert forall i :: 0 <= i < |line| ==> line[i] == s[p..after][i] == s[p + i];
      if k + 2 <= |line| {
        assert line[k..k + 2] == s[j..j + 2];
        assert !Occurs(line, CRLF, k);
      } else {
        assert j + 1 == after && s[after] == s[after..after + 2][0] == '\r';
        assert s[j..j + 2][1] == s[after];
        assert s[j..j + 2] != CRLF;
      }
    }
    FindIs(s, CRLF, p, Some(p + |line|));
  }

  /** The line that ends at the first CRLF holds no CRLF. */
  lemma {:induction false} LineTaken(s: string, p: nat, e: nat)
    requires Find(s, CRLF, p) == Some(e)
    ensures IsLine(s[p..e]) && Occurs(s, s[p..e], p)
  {
    FindSpec(s, CRLF, p);
    forall j: nat
      ensures !Occurs(s[p..e], CRLF, j)
    {
      if j + 2 <= e - p {
        assert s[p + j..p + j + 2] == s[p..e][j..j + 2];
        assert !Occurs(s, CRLF, p + j);
      }
    }
    FindIs(s[p..e], CRLF, 0, None);
  }

  // ------------------------------------------------------- completeness

  lemma {:induction false} TrailersComplete(ts: seq<string>, s: string, p: nat)
    requires forall i :: 0 <= i < |ts| ==> IsLine(ts[i]) && ts[i] != ""
    requires Occurs(s, WireTrailers(ts), p)
    ensures Trailers(s, p) == Some(p + |WireTrailers(ts)|)
    decreases |ts|
  {
    hide Occurs;
    if ts == [] {
      EmptyLine(s, p);
    } else {
      hide Find, IsLine;
      var line, rest := ts[0], ts[1..];
      OccursSplit(s, line + CRLF, WireTrailers(rest), p);
      OccursSplit(s, line, CRLF, p);
      LineFound(s, p, line);
      TrailersComplete(rest, s, p + |line| + 2);
      assert |WireTrailers(ts)| == |line| + 2 + |WireTrailers(rest)|;
    }
  }

  lemma {:induction false} EmptyLine(s: string, p: nat)
    requires Occurs(s, CRLF, p)
    ensures Find(s, CRLF, p) == Some(p)
  {
  }

  /** Every written message is decoded to its data, and the decoding ends where the message ends. */
  lemma {:induction false} DecodeWire(m: Message, s: string, p: nat)
    requires IsMessage(m) && Occurs(s, Wire(m), p)
    ensures Chunks(s, p) == Full(Data(m.pieces), p + |Wire(m)|)
    decreases |m.pieces|
  {
    hide Find, Occurs, ChunkSize, IsLine;
    if m.pieces == [] {
      OccursSplit(s, m.last + CRLF, WireTrailers(m.trailers), p);
      LastAt(m.last, s, p);
      TrailersComplete(m.trailers, s, p + |m.last| + 2);
    } else {
      hide ChunkAt, WirePiece;
      var c := m.pieces[0];
      var rest := m.(pieces := m.pieces[1..]);
      OccursSplit(s, WirePiece(c), Wire(rest), p);
      PieceAt(c, s, p);
      DecodeWire(rest, s, p + |WirePiece(c)|);
    }
  }

  lemma {:induction false} LastAt(line: string, s: string, p: nat)
    requires IsLine(line) && ChunkSize(line) == Some(0) && Occurs(s, line + CRLF, p)
    ensures ChunkAt(s, p) == Last(p + |line| + 2)
  {
    hide Find, ChunkSize, IsLine;
    OccursSplit(s, line, CRLF, p);
    LineFound(s, p, line);
  }

  lemma {:induction false} PieceAt(c: Piece, s: string, p: nat)
    requires IsPiece(c) && Occurs(s, WirePiece(c), p)
    ensures ChunkAt(s, p) == Chunk(c.data, p + |WirePiece(c)|)
  {
    hide Find, ChunkSize, IsLine;
    OccursSplit(s, c.line + CRLF + c.data, CRLF, p);
    OccursSplit(s, c.line + CRLF, c.data, p);
    OccursSplit(s, c.line, CRLF, p);
    LineFound(s, p, c.line);
  }

  // ---------------------------------------------------------- soundness

  lemma {:induction false} TrailersSound(s: string, p: nat) returns (ts: seq<string>)
    requires Trailers(s, p).Some?
    ensures forall i :: 0 <= i < |ts| ==> IsLine(ts[i]) && ts[i] != ""
    ensures Occurs(s, WireTrailers(ts), p) && Trailers(s, p) == Some(p + |WireTrailers(ts)|)
    decreases |s| - p
  {
    hide IsLine, Occurs;
    var e := Find(s, CRLF, p).value;
    if e == p {
      ts := [];
    } else {
      var rest := TrailersSound(s, e + 2);
      LineTaken(s, p, e);
      ts := [s[p..e]] + rest;
      OccursJoin(s, s[p..e], CRLF, p);
      OccursJoin(s, s[p..e] + CRLF, WireTrailers(rest), p);
      assert ts[1..] == rest;
    }
  }

  lemma {:induction false} PieceSound(s: string, p: nat) returns (c: Piece)
    requires ChunkAt(s, p).Chunk?
    ensures IsPiece(c) && Occurs(s, WirePiece(c), p)
    ensures ChunkAt(s, p) == Chunk(c.data, p + |WirePiece(c)|)
  {
    hide Find, ChunkSize, IsLine;
    var e := Find(s, CRLF, p).value;
    LineTaken(s, p, e);
    c := Piece(s[p..e], ChunkAt(s, p).data);
    OccursJoin(s, c.line, CRLF, p);
    OccursJoin(s, c.line + CRLF, c.data, p);
    OccursJoin(s, c.line + CRLF + c.data, CRLF, p);
  }

  /** Whatever the decoder accepts is a written message with that data. */
  lemma {:induction false} DecodeSound(s: string, p: nat) returns (m: Message)
    requires Chunks(s, p).Full?
    ensures IsMessage(m) && Data(m.pieces) == Chunks(s, p).data
    ensures Occurs(s, Wire(m), p) && Chunks(s, p).end == p + |Wire(m)|
    decreases |s| - p
  {
    hide Find, Occurs, ChunkSize, IsLine;
    match ChunkAt(s, p)
    case Last(q) =>
      var e := Find(s, CRLF, p).value;
      LineTaken(s, p, e);
      var ts := TrailersSound(s, q);
      m := Message([], s[p..e], ts);
      OccursJoin(s, s[p..e], CRLF, p);
      OccursJoin(s, s[p..e] + CRLF, WireTrailers(ts), p);
    case Chunk(data, q) =>
      hide ChunkAt, IsPiece, WirePiece;
      var c := PieceSound(s, p);
      var rest := DecodeSound(s, q);
      m := rest.(pieces := [c] + rest.pieces);
      OccursJoin(s, WirePiece(c), Wire(rest), p);
      assert m.pieces[1..] == rest.pieces;
      assert m.(pieces := m.pieces[1..]) == rest;
  }

  // ------------------------------------------------ the standard's messages

  /** A character of a token (section 3.2.6 of RFC 7230). */
  predicate IsTokenChar(c: char) {
    IsDigit(c) || 'a' <= c <= 'z' || 'A' <= c <= 'Z' || c in "!#$%&'*+-.^_`|~"
  }

  predicate IsToken(s: string) { s != "" && forall i :: 0 <= i < |s| ==> IsTokenChar(s[i]) }

  /** Blanks, visible characters and bytes from 0x80 on. */
  predicate IsText(c: char) { c == '\t' || ' ' <= c <= '~' || c as int >= 0x80 }

  predicate AllText(s: string) { forall i :: 0 <= i < |s| ==> IsText(s[i]) }

  /** What may stand between the quotes of a quoted string. */
  predicate QuotedText(s: string) {
    || s == ""
    || (IsText(s[0]) && s[0] != '"' && s[0] != '\\' && QuotedText(s[1..]))
    || (s[0] == '\\' && |s| > 1 && IsText(s[1]) && QuotedText(s[2..]))
  }

  predicate IsQuoted(s: string) {
    |s| >= 2 && s[0] == '"' && s[|s| - 1] == '"' && QuotedText(s[1..|s| - 1])
  }

  /** A chunk extension: a name and perhaps a value. */
  datatype Extension = Extension(name: string, value: Option<string>)

  predicate IsExtension(x: Extension) {
    IsToken(x.name) && (x.value.Some? ==> IsToken(x.value.value) || IsQuoted(x.value.value))
  }

  function WireExtension(x: Extension): string {
    ";" + x.name + if x.value.Some? then "=" + x.value.value else ""
  }

  function WireExtensions(xs: seq<Extension>): string {
    if xs == [] then "" else WireExtension(xs[0]) + WireExtensions(xs[1..])
  }

  function SizeLine(digits: string, xs: seq<Extension>): string { digits + WireExtensions(xs) }

  /** A size line as section 4.1 of RFC 7230 has it, for a chunk of `size` bytes. */
  ghost predicate IsSizeLine(line: string, size: nat) {
    exists digits, xs ::
      && line == SizeLine(digits, xs)
      && digits != "" && (forall i :: 0 <= i < |digits| ==> IsHex(digits[i])) && HexNumber(digits) == size
      && forall i :: 0 <= i < |xs| ==> IsExtension(xs[i])
  }

  /** A header field: a name, a colon and text. */
  predicate IsFieldLine(line: string) {
    AllText(line) && exists k :: 0 < k < |line| && line[k] == ':' && IsToken(line[..k])
  }

  /** The continuation of a folded field. */
  predicate IsFold(line: string) {
    AllText(line) && line != "" && (line[0] == ' ' || line[0] == '\t')
  }

  /** The messages of section 4.1 of RFC 7230. */
  ghost predicate IsStandard(m: Message) {
    && (forall i :: 0 <= i < |m.pieces| ==> m.pieces[i].data != "" && IsSizeLine(m.pieces[i].line, |m.pieces[i].data|))
    && IsSizeLine(m.last, 0)
    && (forall i :: 0 <= i < |m.trailers| ==> IsFieldLine(m.trailers[i]) || (i > 0 && IsFold(m.trailers[i])))
  }

  lemma {:induction false} TextIsLine(s: string)
    requires AllText(s)
    ensures IsLine(s)
  {
    forall j: nat
      ensures !Occurs(s, CRLF, j)
    {
      assert j + 2 <= |s| ==> s[j] == s[j..j + 2][0];
    }
    FindIs(s, CRLF, 0, None);
  }

  lemma {:induction false} QuotedIsText(s: string)
    requires QuotedText(s)
    ensures AllText(s)
  {
    if s != "" {
      var k := if s[0] == '\\' then 2 else 1;
      QuotedIsText(s[k..]);
      assert forall i :: k <= i < |s| ==> s[i] == s[k..][i - k];
    }
  }

  lemma {:induction false} TokenIsText(s: string)
    requires IsToken(s)
    ensures AllText(s)
  {
  }

  lemma {:induction false} ValueIsText(v: string)
    requires IsQuoted(v)
    ensures AllText(v)
  {
    hide QuotedText;
    QuotedIsText(v[1..|v| - 1]);
    assert forall i :: 0 < i < |v| - 1 ==> v[i] == v[1..|v| - 1][i - 1];
  }

  lemma {:induction false} ExtensionIsText(x: Extension)
    requires IsExtension(x)
    ensures AllText(WireExtension(x)) && WireExtension(x) != "" && WireExtension(x)[0] == ';'
  {
    hide IsQuoted, IsToken;
    TokenIsText(x.name);
    if x.value.Some? {
      var v := x.value.value;
      if IsQuoted(v) {
        ValueIsText(v);
      } else {
        TokenIsText(v);
      }
    }
  }

  lemma {:induction false} ExtensionsAreText(xs: seq<Extension>)
    requires forall i :: 0 <= i < |xs| ==> IsExtension(xs[i])
    ensures AllText(WireExtensions(xs)) && (xs != [] ==> WireExtensions(xs) != "" && WireExtensions(xs)[0] == ';')
  {
    hide WireExtension, IsExtension, IsText;
    if xs != [] {
      ExtensionIsText(xs[0]);
      ExtensionsAreText(xs[1..]);
    }
  }

  lemma {:induction false} SizeLineTaken(line: string, size: nat)
    requires IsSizeLine(line, size) && size <= MAX_SIZE
    ensures IsLine(line) && ChunkSize(line) == Some(size)
  {
    hide HexRun, HexNumber, IsExtension, WireExtensions;
    var digits, xs :| line == SizeLine(digits, xs)
                      && digits != "" && (forall i :: 0 <= i < |digits| ==> IsHex(digits[i])) && HexNumber(digits) == size
                      && forall i :: 0 <= i < |xs| ==> IsExtension(xs[i]);
    ExtensionsAreText(xs);
    NoExtensions();
    assert forall i :: 0 <= i < |digits| ==> line[i] == digits[i];
    assert |line| > |digits| ==> line[|digits|] == WireExtensions(xs)[0];
    TextIsLine(line);
    HexRunIs(line, |digits|);
    assert line[..|digits|] == digits;
  }

  lemma {:induction false} NoExtensions()
    ensures WireExtensions([]) == ""
  {
  }

  /** A size is over at the end of the line, at a ";" or at a blank; any other byte behind its digits refuses it. */
  lemma {:induction false} SizeToken(digits: string, tail: string)
    requires digits != "" && (forall i :: 0 <= i < |digits| ==> IsHex(digits[i])) && (tail != "" ==> !IsHex(tail[0]))
    ensures ChunkSize(digits + tail) ==
            if (tail == "" || tail[0] in {';', ' ', '\t'}) && HexNumber(digits) <= MAX_SIZE then Some(HexNumber(digits)) else None
    ensures ChunkSize(tail) == None
  {
    var line := digits + tail;
    HexRunIs(line, |digits|);
    HexRunIs(tail, 0);
    assert line[..|digits|] == digits;
  }

  /** Every message of the standard whose chunk sizes fit the word is one the decoder takes. */
  lemma {:induction false} StandardTaken(m: Message)
    requires IsStandard(m) && forall i :: 0 <= i < |m.pieces| ==> |m.pieces[i].data| <= MAX_SIZE
    ensures IsMessage(m)
  {
    hide IsSizeLine, IsLine, ChunkSize;
    SizeLineTaken(m.last, 0);
    forall i | 0 <= i < |m.pieces|
      ensures IsPiece(m.pieces[i])
    {
      SizeLineTaken(m.pieces[i].line, |m.pieces[i].data|);
    }
    forall i | 0 <= i < |m.trailers|
      ensures IsLine(m.trailers[i])
    {
      TextIsLine(m.trailers[i]);
    }
  }

  /** The decoder takes more: here a trailer line without a colon. */
  lemma {:induction false} Looser()
    ensures var m := Message([], "0", ["x"]);
            !IsStandard(m) && IsMessage(m) && Chunks(Wire(m), 0) == Full("", |Wire(m)|)
  {
    var m := Message([], "0", ["x"]);
    assert !IsFieldLine(m.trailers[0]);
    HexRunIs("0", 1);
    hide IsStandard;
    DecodeWire(m, Wire(m), 0);
  }
}
