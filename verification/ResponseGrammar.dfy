/**
 A response as it stands on the wire: a status line, header lines and a body.
 What the client delivers is stated from these texts alone, the framing fields
 and the captured headers by what they spell, and `Outcome` is proved to be that.
 */
module ResponseGrammar {
  import opened Bytes
  import opened HttpFraming
  import opened ChunkedGrammar

  // ------------------------------------------------------------- the lines

  predicate IsBlank(c: char) { c == ' ' || c == '\t' }

  predicate AllBlank(s: string) { forall i :: 0 <= i < |s| ==> IsBlank(s[i]) }

  function StatusLine(minor: string, digits: string, reason: string): string {
    "HTTP/1." + minor + " " + digits + reason
  }

  /** A status line of version 1.0 or 1.1 whose three digits spell `code`. */
  ghost predicate IsStatus(line: string, code: nat) {
    exists minor, digits, reason ::
      && line == StatusLine(minor, digits, reason) && (minor == "0" || minor == "1")
      && |digits| == 3 && AllDigits(digits) && DecimalValue(digits) == code && 100 <= code <= 599
  }

  function FieldLine(name: string, blanks: string, value: string): string { name + ":" + blanks + value }

  /** A line of the named field, in any letter case, with anything behind the colon. */
  ghost predicate Names(line: string, field: string) {
    exists name, rest :: line == FieldLine(name, "", rest) && EqualFold(name, field) && rest != ""
  }

  /** A Content-Length line that spells `n`. */
  ghost predicate IsLength(line: string, n: nat) {
    exists name, blanks, digits ::
      && line == FieldLine(name, blanks, digits) && EqualFold(name, "Content-Length") && AllBlank(blanks)
      && digits != "" && AllDigits(digits) && DecimalValue(digits) == n
  }

  /** A Transfer-Encoding line that spells "chunked". */
  ghost predicate IsCoding(line: string) {
    exists name, blanks, coding ::
      && line == FieldLine(name, blanks, coding) && EqualFold(name, "Transfer-Encoding") && AllBlank(blanks)
      && EqualFold(coding, "chunked")
  }

  /** A framing field that spells neither a length the word holds nor the one known coding. */
  ghost predicate Misspelt(line: string) {
    || (Names(line, "Content-Length") && forall n: nat :: IsLength(line, n) ==> n > MAX_SIZE)
    || (Names(line, "Transfer-Encoding") && !IsCoding(line))
  }

  ghost predicate Sized(fields: seq<string>, n: nat) {
    exists i :: 0 <= i < |fields| && IsLength(fields[i], n)
  }

  ghost predicate Coded(fields: seq<string>) {
    exists i :: 0 <= i < |fields| && IsCoding(fields[i])
  }

  /** The fields leave no doubt about the body: nothing misspelt, one length at most, and not a coding as well. */
  ghost predicate Framed(fields: seq<string>) {
    && (forall i :: 0 <= i < |fields| ==> !Misspelt(fields[i]))
    && (forall n: nat, m: nat :: Sized(fields, n) && Sized(fields, m) ==> n == m)
    && (Coded(fields) ==> forall n: nat :: !Sized(fields, n))
  }

  /** A line with a name in front of its first colon. */
  predicate HasName(line: string) {
    line != "" && line[0] != ':' && ':' in line
  }

  /** The header a line spells: what stands before the first colon, and what stands behind it without the blanks around. */
  ghost predicate Spells(line: string, h: Header) {
    && h.name != "" && ':' !in h.name
    && (h.value != "" ==> !IsBlank(h.value[0]) && !IsBlank(h.value[|h.value| - 1]))
    && exists before, behind ::
         line == FieldLine(h.name, before, h.value) + behind && AllBlank(before) && AllBlank(behind)
  }

  /** The headers of the lines that have a name, in order. */
  ghost predicate SpellAll(fields: seq<string>, hs: seq<Header>) {
    if fields == [] then hs == []
    else if !HasName(fields[0]) then SpellAll(fields[1..], hs)
    else hs != [] && Spells(fields[0], hs[0]) && SpellAll(fields[1..], hs[1..])
  }

  function WireFields(fields: seq<string>): string {
    if fields == [] then "" else fields[0] + CRLF + WireFields(fields[1..])
  }

  /** The head on the wire, its empty line included. */
  function WireHead(status: string, fields: seq<string>): string {
    status + CRLF + WireFields(fields) + CRLF
  }

  /** Lines without a CRLF in them; only a status line may be empty. */
  predicate AreLines(status: string, fields: seq<string>) {
    IsLine(status) && forall i :: 0 <= i < |fields| ==> IsLine(fields[i]) && fields[i] != ""
  }

  // --------------------------------------------------------------- numbers

  /** The decimal reader takes exactly the digit strings whose value the word holds. */
  lemma {:induction false} DecimalIs(s: string)
    ensures Decimal(s) == if s != "" && AllDigits(s) && DecimalValue(s) <= MAX_SIZE then Some(DecimalValue(s)) else None
    decreases |s|
  {
    if s != "" {
      var rest := s[..|s| - 1];
      DecimalIs(rest);
      if AllDigits(s) {
        PrefixSmaller(s, |s| - 1);
      } else if AllDigits(rest) {
        assert forall i :: 0 <= i < |rest| ==> s[i] == rest[i];
      }
    }
  }

  // ---------------------------------------------------------------- blanks

  lemma {:induction false} SkipIs(blanks: string, s: string)
    requires AllBlank(blanks) && (s != "" ==> !IsBlank(s[0]))
    ensures SkipLws(blanks + s) == s
  {
    if blanks == "" {
      assert blanks + s == s;
    } else {
      assert (blanks + s)[1..] == blanks[1..] + s;
      SkipIs(blanks[1..], s);
    }
  }

  lemma {:induction false} SkipFinds(s: string) returns (blanks: string)
    ensures AllBlank(blanks) && s == blanks + SkipLws(s)
    ensures SkipLws(s) != "" ==> !IsBlank(SkipLws(s)[0])
  {
    if s != "" && IsLws(s[0]) {
      var rest := SkipFinds(s[1..]);
      blanks := [s[0]] + rest;
    } else {
      blanks := "";
    }
  }

  lemma {:induction false} DropFinds(s: string) returns (blanks: string)
    ensures AllBlank(blanks) && s == DropLws(s) + blanks
    ensures DropLws(s) != "" ==> !IsBlank(DropLws(s)[|DropLws(s)| - 1])
    decreases |s|
  {
    if s != "" && IsLws(s[|s| - 1]) {
      var rest := DropFinds(s[..|s| - 1]);
      blanks := rest + [s[|s| - 1]];
    } else {
      blanks := "";
    }
  }

  // ------------------------------------------------------- one header line

  lemma {:induction false} FieldTaken(line: string, field: string)
    requires IsField(line, field + ":")
    ensures Names(line, field) && line[|field|] == ':'
  {
    var f := field + ":";
    var name, rest := line[..|field|], line[|f|..];
    forall i | 0 <= i < |f|
      ensures Lower(line[i]) == Lower(f[i])
    {
      assert line[..|f|][i] == line[i];
    }
    assert Lower(line[|field|]) == Lower(':');
    forall i | 0 <= i < |field|
      ensures Lower(name[i]) == Lower(field[i])
    {
      assert f[i] == field[i];
    }
    assert line == FieldLine(name, "", rest);
  }

  lemma {:induction false} FieldNamed(line: string, field: string)
    ensures Names(line, field) <==> IsField(line, field + ":")
    ensures IsField(line, field + ":") ==> line[|field|] == ':'
  {
    if IsField(line, field + ":") {
      FieldTaken(line, field);
    }
    if Names(line, field) {
      var name, rest :| line == FieldLine(name, "", rest) && EqualFold(name, field) && rest != "";
      assert line[..|field| + 1] == name + ":";
    }
  }

  /** The text behind the colon of a field line, blanks skipped. */
  lemma {:induction false} FieldValue(line: string, field: string, name: string, blanks: string, value: string)
    requires line == FieldLine(name, blanks, value) && EqualFold(name, field) && AllBlank(blanks)
    requires value != "" && !IsBlank(value[0])
    ensures Names(line, field) && |line| > |field| && SkipLws(line[|field| + 1..]) == value
  {
    assert line == FieldLine(name, "", blanks + value);
    assert line[|field| + 1..] == blanks + value;
    SkipIs(blanks, value);
  }

  lemma {:induction false} LengthRead(line: string, n: nat)
    requires IsLength(line, n)
    ensures Names(line, "Content-Length") && IsField(line, CONTENT_LENGTH)
    ensures Decimal(SkipLws(line[|CONTENT_LENGTH|..])) == if n <= MAX_SIZE then Some(n) else None
  {
    var name, blanks, digits :| line == FieldLine(name, blanks, digits) && EqualFold(name, "Content-Length") && AllBlank(blanks)
                                && digits != "" && AllDigits(digits) && DecimalValue(digits) == n;
    assert IsDigit(digits[0]);
    FieldValue(line, "Content-Length", name, blanks, digits);
    FieldNamed(line, "Content-Length");
    assert "Content-Length" + ":" == CONTENT_LENGTH;
    DecimalIs(digits);
  }

  lemma {:induction false} LengthTaken(line: string)
    requires IsField(line, CONTENT_LENGTH) && Decimal(SkipLws(line[|CONTENT_LENGTH|..])).Some?
    ensures IsLength(line, Decimal(SkipLws(line[|CONTENT_LENGTH|..])).value)
  {
    assert "Content-Length" + ":" == CONTENT_LENGTH;
    FieldNamed(line, "Content-Length");
    var name, rest :| line == FieldLine(name, "", rest) && EqualFold(name, "Content-Length") && rest != "";
    assert line[|CONTENT_LENGTH|..] == rest;
    var blanks := SkipFinds(rest);
    DecimalIs(SkipLws(rest));
    assert line == FieldLine(name, blanks, SkipLws(rest));
  }

  lemma {:induction false} CodingRead(line: string)
    requires IsCoding(line)
    ensures IsField(line, TRANSFER_ENCODING) && EqualFold(SkipLws(line[|TRANSFER_ENCODING|..]), "chunked")
  {
    assert "Transfer-Encoding" + ":" == TRANSFER_ENCODING;
    var name, blanks, coding :| line == FieldLine(name, blanks, coding) && EqualFold(name, "Transfer-Encoding")
                                && AllBlank(blanks) && EqualFold(coding, "chunked");
    assert Lower(coding[0]) == 'c';
    FieldValue(line, "Transfer-Encoding", name, blanks, coding);
    hide FieldLine, Names, AllBlank, SkipLws, IsField, EqualFold;
    FieldNamed(line, "Transfer-Encoding");
  }

  lemma {:induction false} CodingTaken(line: string)
    requires IsField(line, TRANSFER_ENCODING) && EqualFold(SkipLws(line[|TRANSFER_ENCODING|..]), "chunked")
    ensures IsCoding(line)
  {
    hide EqualFold, IsField, SkipLws;
    assert "Transfer-Encoding" + ":" == TRANSFER_ENCODING;
    FieldNamed(line, "Transfer-Encoding");
    var name, rest :| line == FieldLine(name, "", rest) && EqualFold(name, "Transfer-Encoding") && rest != "";
    SameLength(name, "Transfer-Encoding");
    assert line[|TRANSFER_ENCODING|..] == rest;
    var blanks := SkipFinds(rest);
    assert line == FieldLine(name, blanks, SkipLws(rest));
  }

  lemma {:induction false} SameLength(a: string, b: string)
    requires EqualFold(a, b)
    ensures |a| == |b|
  {
  }

  /** The two framing fields start with different letters. */
  lemma {:induction false} Initial(line: string)
    ensures IsField(line, CONTENT_LENGTH) ==> Lower(line[0]) == 'c'
    ensures IsField(line, TRANSFER_ENCODING) ==> Lower(line[0]) == 't'
  {
    if IsField(line, CONTENT_LENGTH) {
      assert Lower(line[..|CONTENT_LENGTH|][0]) == Lower(CONTENT_LENGTH[0]);
    }
    if IsField(line, TRANSFER_ENCODING) {
      assert Lower(line[..|TRANSFER_ENCODING|][0]) == Lower(TRANSFER_ENCODING[0]);
    }
  }

  lemma {:induction false} ColonFound(line: string)
    ensures HasName(line) ==>
              Find(line, ":", 0).Some? && var c := Find(line, ":", 0).value; 0 < c < |line| && line[c] == ':' && ':' !in line[..c]
    ensures !HasName(line) ==> Find(line, ":", 0).None? || Find(line, ":", 0).value == 0
  {
    FindSpec(line, ":", 0);
    forall i | 0 <= i < |line|
      ensures Occurs(line, ":", i) <==> line[i] == ':'
    {
      assert line[i..i + 1] == [line[i]];
    }
    hide Find;
  }

  lemma {:induction false} TrimFinds(text: string) returns (before: string, behind: string)
    ensures AllBlank(before) && AllBlank(behind) && text == before + Trim(text) + behind
    ensures var v := Trim(text); v != "" ==> !IsBlank(v[0]) && !IsBlank(v[|v| - 1])
  {
    before := SkipFinds(text);
    behind := DropFinds(SkipLws(text));
    hide SkipLws, DropLws;
    var v := Trim(text);
    assert v != "" ==> v[0] == SkipLws(text)[0];
  }

  lemma {:induction false} CapturedIs(line: string)
    ensures HasName(line) ==> |Captured(line)| == 1 && Spells(line, Captured(line)[0])
    ensures !HasName(line) ==> Captured(line) == []
  {
    hide Find, Trim, AllBlank;
    ColonFound(line);
    if HasName(line) {
      var c := Find(line, ":", 0).value;
      var before, behind := TrimFinds(line[c + 1..]);
      var h := Header(line[..c], Trim(line[c + 1..]));
      assert line == FieldLine(h.name, before, h.value) + behind;
      assert Captured(line) == [h];
    }
  }

  /** What a line adds to the head, from what it spells. */
  lemma {:induction false} LineMeans(h: Head, line: string)
    ensures var h1 := h.(headers := h.headers + Captured(line));
            var r := AddLine(h, line);
            && (Misspelt(line) ==> r == None)
            && (IsCoding(line) ==> r == Some(h1.(chunked := true)))
            && (forall n: nat :: IsLength(line, n) && n <= MAX_SIZE ==>
                  r == if h.length.Some? && h.length.value != n then None else Some(h1.(length := Some(n))))
            && (!Misspelt(line) && !IsCoding(line) && (forall n: nat :: !IsLength(line, n)) ==> r == Some(h1))
    ensures forall n: nat :: IsLength(line, n) ==> !IsCoding(line) && (!Misspelt(line) ==> n <= MAX_SIZE)
    ensures forall n: nat, m: nat :: IsLength(line, n) && IsLength(line, m) && !Misspelt(line) ==> n == m
  {
    assert "Content-Length" + ":" == CONTENT_LENGTH && "Transfer-Encoding" + ":" == TRANSFER_ENCODING;
    FieldNamed(line, "Content-Length");
    FieldNamed(line, "Transfer-Encoding");
    Initial(line);
    if IsCoding(line) {
      CodingRead(line);
    }
    if IsField(line, TRANSFER_ENCODING) && EqualFold(SkipLws(line[|TRANSFER_ENCODING|..]), "chunked") {
      CodingTaken(line);
    }
    forall n: nat | IsLength(line, n)
      ensures IsField(line, CONTENT_LENGTH) && Names(line, "Content-Length")
      ensures Decimal(SkipLws(line[|CONTENT_LENGTH|..])) == if n <= MAX_SIZE then Some(n) else None
    {
      LengthRead(line, n);
    }
    if IsField(line, CONTENT_LENGTH) && Decimal(SkipLws(line[|CONTENT_LENGTH|..])).Some? {
      LengthTaken(line);
      DecimalIs(SkipLws(line[|CONTENT_LENGTH|..]));
    }
    hide IsField, Decimal, SkipLws, IsLength, IsCoding, Names, Captured;
  }

  // ------------------------------------------------------ all header lines

  /** The lines folded into a head one after the other. */
  function FoldLines(h: Head, fields: seq<string>): Option<Head>
    decreases |fields|
  {
    if fields == [] then Some(h)
    else
      match AddLine(h, fields[0])
      case None => None
      case Some(h1) => FoldLines(h1, fields[1..])
  }

  /** Nothing misspelt, and all lengths are the same, one known before included. */
  ghost predicate Consistent(length: Option<nat>, fields: seq<string>) {
    && (forall i :: 0 <= i < |fields| ==> !Misspelt(fields[i]))
    && (forall n: nat :: Sized(fields, n) && length.Some? ==> n == length.value)
    && (forall n: nat, m: nat :: Sized(fields, n) && Sized(fields, m) ==> n == m)
  }

  lemma {:induction false} SizedStep(fields: seq<string>)
    requires fields != []
    ensures forall n: nat :: Sized(fields, n) <==> IsLength(fields[0], n) || Sized(fields[1..], n)
    ensures Coded(fields) <==> IsCoding(fields[0]) || Coded(fields[1..])
    ensures (forall i :: 0 <= i < |fields| ==> !Misspelt(fields[i]))
            <==> !Misspelt(fields[0]) && forall i :: 0 <= i < |fields[1..]| ==> !Misspelt(fields[1..][i])
  {
    hide IsLength, IsCoding, Misspelt;
    var rest := fields[1..];
    assert fields == [fields[0]] + rest;
    forall n: nat
      ensures Sized(fields, n) <==> IsLength(fields[0], n) || Sized(rest, n)
    {
      if Sized(rest, n) {
        var i :| 0 <= i < |rest| && IsLength(rest[i], n);
        assert IsLength(fields[i + 1], n);
      }
    }
    if Coded(rest) {
      var i :| 0 <= i < |rest| && IsCoding(rest[i]);
      assert IsCoding(fields[i + 1]);
    }
    forall i | 0 <= i < |fields|
      ensures i > 0 ==> fields[i] == rest[i - 1]
    {
    }
    forall i | 0 <= i < |rest|
      ensures rest[i] == fields[i + 1]
    {
    }
  }

  lemma {:induction false} Nothing(length: Option<nat>)
    ensures Consistent(length, []) && !Coded([]) && (forall n: nat :: !Sized([], n)) && SpellAll([], [])
  {
  }

  lemma {:induction false} SameLengths(length: Option<nat>, fields: seq<string>)
    requires Consistent(length, fields)
    ensures forall n: nat :: Sized(fields, n) && length.Some? ==> n == length.value
    ensures forall n: nat, m: nat :: Sized(fields, n) && Sized(fields, m) ==> n == m
  {
  }

  lemma {:induction false} ConsistentStep(length: Option<nat>, fields: seq<string>, next: Option<nat>)
    requires fields != []
    requires forall n: nat :: IsLength(fields[0], n) && !Misspelt(fields[0]) ==> next == Some(n)
    requires (forall n: nat :: !IsLength(fields[0], n)) ==> next == length
    ensures Consistent(length, fields) <==>
              && !Misspelt(fields[0]) && (forall n: nat :: IsLength(fields[0], n) && length.Some? ==> n == length.value)
              && Consistent(next, fields[1..])
  {
    hide IsLength, Misspelt, Sized, Coded;
    SizedStep(fields);
  }

  lemma {:induction false} SpellStep(fields: seq<string>, rest: seq<Header>) returns (hs: seq<Header>)
    requires fields != [] && SpellAll(fields[1..], rest)
    ensures hs == Captured(fields[0]) + rest && SpellAll(fields, hs)
  {
    hide HasName, Spells, Captured;
    CapturedIs(fields[0]);
    hs := Captured(fields[0]) + rest;
    if HasName(fields[0]) {
      assert hs[0] == Captured(fields[0])[0] && hs[1..] == rest;
    } else {
      assert hs == rest;
    }
  }

  lemma {:induction false} FoldMeans(h: Head, fields: seq<string>) returns (hs: seq<Header>)
    ensures SpellAll(fields, hs)
    ensures FoldLines(h, fields).Some? <==> Consistent(h.length, fields)
    ensures Consistent(h.length, fields) ==>
              var r := FoldLines(h, fields).value;
              && r.status == h.status && r.headers == h.headers + hs && (r.chunked <==> h.chunked || Coded(fields))
              && (forall n: nat :: Sized(fields, n) ==> r.length == Some(n))
              && ((forall n: nat :: !Sized(fields, n)) ==> r.length == h.length)
    decreases |fields|
  {
    hide IsLength, IsCoding, Misspelt, Sized, Coded, Consistent, AddLine, HasName, Spells, Captured, SpellAll;
    if fields == [] {
      Nothing(h.length);
      hs := [];
    } else {
      var line := fields[0];
      LineMeans(h, line);
      SizedStep(fields);
      var length := NextLength(h, line);
      ConsistentStep(h.length, fields, length);
      var h1 := Head(h.status, h.headers + Captured(line), length, h.chunked || IsCoding(line));
      var rest := FoldMeans(h1, fields[1..]);
      hs := SpellStep(fields, rest);
      assert h.headers + hs == h1.headers + rest;
      if Consistent(h.length, fields) {
        SameLengths(h.length, fields);
        SameLengths(length, fields[1..]);
      }
      if AddLine(h, line).Some? {
        assert AddLine(h, line) == Some(h1);
      }
    }
  }

  /** The length known after a line. */
  lemma {:induction false} NextLength(h: Head, line: string) returns (length: Option<nat>)
    ensures forall n: nat :: IsLength(line, n) && !Misspelt(line) ==> length == Some(n)
    ensures (forall n: nat :: !IsLength(line, n)) ==> length == h.length
  {
    LineMeans(h, line);
    hide IsLength, Misspelt, AddLine, IsCoding;
    if n: nat :| IsLength(line, n) {
      length := Some(n);
    } else {
      length := h.length;
    }
  }

  // ------------------------------------------------------- the whole head

  lemma {:induction false} StatusTaken(line: string, code: nat)
    requires IsStatus(line, code)
    ensures StatusCode(line) == Some(code)
  {
    var minor, digits, reason :| line == StatusLine(minor, digits, reason) && (minor == "0" || minor == "1")
                                 && |digits| == 3 && AllDigits(digits) && DecimalValue(digits) == code && 100 <= code <= 599;
    hide AllDigits, DecimalValue, Decimal;
    assert line[..7] == "HTTP/1." && line[7] == minor[0] && line[8] == ' ' && line[9..12] == digits;
    DecimalIs(digits);
  }

  lemma {:induction false} StatusRead(line: string, code: nat)
    ensures IsStatus(line, code) <==> StatusCode(line) == Some(code)
  {
    hide Decimal, AllDigits, DecimalValue;
    if StatusCode(line) == Some(code) {
      DecimalIs(line[9..12]);
      assert line == StatusLine(line[7..8], line[9..12], line[12..]);
    }
    if IsStatus(line, code) {
      StatusTaken(line, code);
    }
  }

  /** The lines of a block that ends with its last line's CRLF. */
  lemma {:induction false} ScanIs(s: string, p: nat, fields: seq<string>, h: Head)
    requires p <= |s| && s[p..] == WireFields(fields)
    requires forall i :: 0 <= i < |fields| ==> IsLine(fields[i])
    ensures ScanLines(s, p, h) == FoldLines(h, fields)
    decreases |fields|
  {
    hide AddLine, Find, IsLine;
    if fields != [] {
      var line, rest := fields[0], WireFields(fields[1..]);
      var e := p + |line|;
      assert s[p..] == line + CRLF + rest;
      assert s[p..e] == s[p..][..|line|] == line;
      assert s[e..e + 2] == s[p..][|line|..|line| + 2] == CRLF;
      assert s[e + 2..] == s[p..][|line| + 2..] == rest;
      LineFound(s, p, line);
      match AddLine(h, line)
      case None =>
      case Some(h1) => ScanIs(s, e + 2, fields[1..], h1);
    }
  }

  lemma {:induction false} HeadShape(status: string, fields: seq<string>)
    ensures var w := WireHead(status, fields);
            && |w| == |status| + 4 + |WireFields(fields)|
            && Occurs(w, status, 0) && Occurs(w, CRLF, |status|) && w[|w| - 2..] == CRLF
            && w[|status| + 2..|w| - 2] == WireFields(fields)
            && w[..|w| - 2][|status| + 2..] == WireFields(fields)
  {
  }

  /** The block of lines ends in a CRLF, the empty block in that of the status line. */
  lemma {:induction false} FieldsEnd(fields: seq<string>)
    ensures fields != [] ==> |WireFields(fields)| >= 2 && WireFields(fields)[|WireFields(fields)| - 2..] == CRLF
    decreases |fields|
  {
    if |fields| > 1 {
      FieldsEnd(fields[1..]);
    } else if fields != [] {
      assert WireFields(fields[1..]) == "";
      assert WireFields(fields) == fields[0] + CRLF;
    }
  }

  lemma {:induction false} HeadEnd(status: string, fields: seq<string>)
    ensures var w := WireHead(status, fields); |w| >= 4 && w[|w| - 4..] == CRLFCRLF
  {
    var w := WireHead(status, fields);
    HeadShape(status, fields);
    FieldsEnd(fields);
    if fields == [] {
      assert w == status + CRLF + CRLF;
    } else {
      var f := WireFields(fields);
      assert w == status + CRLF + f[..|f| - 2] + CRLF + CRLF;
    }
  }

  /** What the head says, from what its lines spell. */
  lemma {:induction false} HeadMeans(status: string, fields: seq<string>, code: nat) returns (hs: seq<Header>)
    requires AreLines(status, fields) && IsStatus(status, code)
    ensures SpellAll(fields, hs) && |WireHead(status, fields)| >= 4
    ensures WireHead(status, fields)[|WireHead(status, fields)| - 4..] == CRLFCRLF
    ensures var r := ParseHead(WireHead(status, fields));
            && (r.Some? <==> Framed(fields))
            && (r.Some? ==>
                  && r.value.status == code && r.value.headers == hs && (r.value.chunked <==> Coded(fields))
                  && (forall n: nat :: Sized(fields, n) ==> r.value.length == Some(n))
                  && ((forall n: nat :: !Sized(fields, n)) ==> r.value.length == None))
  {
    hide Find, StatusCode, IsStatus, IsLine, Misspelt, Sized, Coded, WireHead, WireFields, FoldLines, ScanLines, AddLine, SpellAll;
    var w := WireHead(status, fields);
    HeadEnd(status, fields);
    HeadShape(status, fields);
    LineFound(w, 0, status);
    StatusRead(status, code);
    assert w[..|status|] == status;
    ScanIs(w[..|w| - 2], |status| + 2, fields, Head(code, [], None, false));
    hs := FoldMeans(Head(code, [], None, false), fields);
    assert [] + hs == hs;
  }

  lemma {:induction false} BadStatus(status: string, fields: seq<string>)
    requires AreLines(status, fields) && forall code: nat :: !IsStatus(status, code)
    ensures |WireHead(status, fields)| >= 4 && WireHead(status, fields)[|WireHead(status, fields)| - 4..] == CRLFCRLF
    ensures ParseHead(WireHead(status, fields)) == None
  {
    hide Find, StatusCode, IsStatus, IsLine, WireHead, WireFields, ScanLines;
    var w := WireHead(status, fields);
    HeadEnd(status, fields);
    HeadShape(status, fields);
    LineFound(w, 0, status);
    assert w[..|status|] == status;
    if StatusCode(status).Some? {
      StatusRead(status, StatusCode(status).value);
    }
  }

  lemma {:induction false} PairNeedsBoth(t: string, j: nat)
    requires Occurs(t, CRLFCRLF, j)
    ensures Occurs(t, CRLF, j) && Occurs(t, CRLF, j + 2)
  {
    assert CRLFCRLF == CRLF + CRLF;
    OccursSplit(t, CRLF, CRLF, j);
  }

  lemma {:induction false} NoneInside(t: string, p: nat, line: string)
    requires IsLine(line) && Occurs(t, line, p) && Occurs(t, CRLF, p + |line|)
    ensures forall j :: p <= j < p + |line| ==> !Occurs(t, CRLFCRLF, j)
  {
    hide IsLine;
    LineFound(t, p, line);
    FindSpec(t, CRLF, p);
    hide Find;
    forall j | p <= j < p + |line|
      ensures !Occurs(t, CRLFCRLF, j)
    {
      if Occurs(t, CRLFCRLF, j) {
        PairNeedsBoth(t, j);
      }
    }
  }

  lemma {:induction false} NextBlock(line: string, fields: seq<string>)
    requires fields != []
    ensures line + CRLF + WireFields(fields) + CRLF == (line + CRLF) + (fields[0] + CRLF + WireFields(fields[1..]) + CRLF)
    ensures |WireFields(fields)| == |fields[0]| + 2 + |WireFields(fields[1..])|
  {
  }

  /** The first empty line is the one that ends the head, whatever stands behind it. */
  lemma {:induction false} EmptyLineAt(t: string, p: nat, line: string, fields: seq<string>)
    requires IsLine(line) && forall i :: 0 <= i < |fields| ==> IsLine(fields[i]) && fields[i] != ""
    requires Occurs(t, line + CRLF + WireFields(fields) + CRLF, p)
    ensures Find(t, CRLFCRLF, p) == Some(p + |line| + |WireFields(fields)|)
    decreases |fields|
  {
    hide Find, IsLine, Occurs, WireFields;
    var e, block := p + |line|, WireFields(fields);
    OccursSplit(t, line + CRLF + block, CRLF, p);
    OccursSplit(t, line + CRLF, block, p);
    OccursSplit(t, line, CRLF, p);
    NoneInside(t, p, line);
    if fields == [] {
      NoFields();
      OccursJoin(t, CRLF, CRLF, e);
      FindIs(t, CRLFCRLF, p, Some(e));
    } else {
      NextBlock(line, fields);
      OccursSplit(t, line + CRLF, fields[0] + CRLF + WireFields(fields[1..]) + CRLF, p);
      EmptyLineAt(t, e + 2, fields[0], fields[1..]);
      NextLine(t, e, fields[0], fields[1..]);
      FindSkip(t, CRLFCRLF, p, e + 2);
    }
  }

  lemma {:induction false} NoFields()
    ensures WireFields([]) == "" && CRLF + CRLF == CRLFCRLF
  {
  }

  /** No empty line starts at the end of a line that a non-empty one follows. */
  lemma {:induction false} NextLine(t: string, e: nat, line: string, fields: seq<string>)
    requires IsLine(line) && line != "" && Occurs(t, CRLF, e)
    requires Occurs(t, line + CRLF + WireFields(fields) + CRLF, e + 2)
    ensures !Occurs(t, CRLFCRLF, e) && !Occurs(t, CRLFCRLF, e + 1)
  {
    hide IsLine;
    var block := WireFields(fields);
    OccursSplit(t, line + CRLF + block, CRLF, e + 2);
    OccursSplit(t, line + CRLF, block, e + 2);
    OccursSplit(t, line, CRLF, e + 2);
    LineFound(t, e + 2, line);
    FindSpec(t, CRLF, e + 2);
    hide Find;
    assert !Occurs(t, CRLF, e + 2);
    assert t[e + 1] == t[e..e + 2][1] != CRLF[0];
    if Occurs(t, CRLFCRLF, e) {
      PairNeedsBoth(t, e);
    }
    assert e + 5 <= |t| ==> t[e + 1..e + 5][0] == t[e + 1];
  }

  lemma {:induction false} HeadFirst(status: string, fields: seq<string>, rest: string)
    requires AreLines(status, fields)
    ensures Find(WireHead(status, fields) + rest, CRLFCRLF, 0) == Some(|WireHead(status, fields)| - 4)
  {
    hide IsLine, Find;
    var w := WireHead(status, fields);
    assert (w + rest)[0..|w|] == w;
    EmptyLineAt(w + rest, 0, status, fields);
  }

  // ------------------------------------------------------------ the body

  function Least(a: nat, b: nat): nat { if a < b then a else b }

  /** A head within the cap is read before anything else; one beyond it is an error. */
  lemma {:induction false} Heard(status: string, fields: seq<string>, body: string) returns (part: string)
    requires AreLines(status, fields)
    ensures var w := WireHead(status, fields);
            var t := w + body;
            && |w| >= 4 && w[|w| - 4..] == CRLFCRLF
            && (|w| > RECV_MAX ==> Outcome(t) == Error)
            && (|w| <= RECV_MAX ==> part <= body && |w| + |part| == Least(|t|, RECV_MAX))
            && (|w| <= RECV_MAX ==>
                  match ParseHead(w)
                  case None => Outcome(t) == Error
                  case Some(h) =>
                    var v := ParseBody(w + part, |w|, h);
                    Outcome(t) == if v != Again then v
                                  else if |t| >= RECV_MAX || h.chunked || h.length.Some? then Error
                                  else Done(h.status, h.headers, body))
  {
    hide ParseHead, ParseBody, WireHead, AreLines, Find;
    var w := WireHead(status, fields);
    var t := w + body;
    HeadEnd(status, fields);
    HeadFirst(status, fields, body);
    var u := if |t| <= RECV_MAX then t else t[..RECV_MAX];
    part := "";
    if |w| > RECV_MAX {
      if Find(u, CRLFCRLF, 0).Some? {
        FindExtend(u, t, CRLFCRLF, 0);
      }
    } else {
      part := if |t| <= RECV_MAX then body else body[..RECV_MAX - |w|];
      assert u == w + part;
      HeadFirst(status, fields, part);
      assert u[..|w|] == w && t[..|w|] == w && t[|w|..] == body;
    }
  }

  /** A response whose head is malformed or leaves its framing in doubt is an error, whatever follows. */
  lemma {:induction false} RefusedHead(status: string, fields: seq<string>, body: string)
    requires AreLines(status, fields)
    requires (forall code: nat :: !IsStatus(status, code)) || !Framed(fields)
    ensures Outcome(WireHead(status, fields) + body) == Error
  {
    hide Outcome, ParseHead, WireHead, IsStatus, Framed, AreLines, SpellAll, Sized, Coded, Find;
    var _ := Heard(status, fields, body);
    if code: nat :| IsStatus(status, code) {
      var _ := HeadMeans(status, fields, code);
    } else {
      BadStatus(status, fields);
    }
  }

  /** A length: that many bytes of the body, if they came within the cap. */
  lemma {:induction false} SizedBody(status: string, fields: seq<string>, body: string, code: nat, n: nat)
    returns (hs: seq<Header>)
    requires AreLines(status, fields) && IsStatus(status, code) && Framed(fields) && Sized(fields, n)
    ensures SpellAll(fields, hs)
    ensures var w := WireHead(status, fields);
            Outcome(w + body) == if |w| + n <= Least(|w + body|, RECV_MAX) then Done(code, hs, body[..n]) else Error
  {
    hide Outcome, ParseHead, WireHead, IsStatus, AreLines, SpellAll, Sized, Coded, Misspelt;
    var w := WireHead(status, fields);
    var part := Heard(status, fields, body);
    hs := HeadMeans(status, fields, code);
    if |w| + n <= Least(|w + body|, RECV_MAX) {
      assert (w + part)[|w|..|w| + n] == part[..n] == body[..n];
    }
  }

  /** Neither a length nor a coding: everything up to the close, if it stays below the cap. */
  lemma {:induction false} OpenBody(status: string, fields: seq<string>, body: string, code: nat)
    returns (hs: seq<Header>)
    requires AreLines(status, fields) && IsStatus(status, code) && Framed(fields)
    requires !Coded(fields) && forall n: nat :: !Sized(fields, n)
    ensures SpellAll(fields, hs)
    ensures var w := WireHead(status, fields);
            Outcome(w + body) == if |w + body| < RECV_MAX then Done(code, hs, body) else Error
  {
    hide Outcome, ParseHead, WireHead, IsStatus, AreLines, SpellAll, Sized, Coded, Misspelt;
    var _ := Heard(status, fields, body);
    hs := HeadMeans(status, fields, code);
  }

  /** A chunked message with data `data` stands at the front of the body and ends within the cap. */
  ghost predicate Carries(head: nat, body: string, data: string) {
    exists m :: IsMessage(m) && Data(m.pieces) == data && Wire(m) <= body && head + |Wire(m)| <= RECV_MAX
  }

  lemma {:induction false} CarriesDecoded(w: string, body: string, part: string)
    requires |w| <= RECV_MAX && part <= body && |w| + |part| == Least(|w + body|, RECV_MAX)
    ensures forall data :: Carries(|w|, body, data) <==> Chunks(w + part, |w|).Full? && Chunks(w + part, |w|).data == data
  {
    hide IsMessage, Data, Wire;
    var s := w + part;
    forall data | Carries(|w|, body, data)
      ensures Chunks(s, |w|).Full? && Chunks(s, |w|).data == data
    {
      var m :| IsMessage(m) && Data(m.pieces) == data && Wire(m) <= body && |w| + |Wire(m)| <= RECV_MAX;
      assert s[|w|..|w| + |Wire(m)|] == body[..|Wire(m)|] == Wire(m);
      DecodeWire(m, s, |w|);
    }
    if Chunks(s, |w|).Full? {
      var m := DecodeSound(s, |w|);
      var k := |Wire(m)|;
      assert s[|w|..|w| + k] == part[..k] == body[..k] == Wire(m);
      assert Carries(|w|, body, Data(m.pieces));
    }
  }

  /** The chunked coding: the data of the message, exactly when one is there within the cap. */
  lemma {:induction false} ChunkedBody(status: string, fields: seq<string>, body: string, code: nat)
    returns (hs: seq<Header>)
    requires AreLines(status, fields) && IsStatus(status, code) && Framed(fields) && Coded(fields)
    ensures SpellAll(fields, hs)
    ensures var w := WireHead(status, fields);
            && (forall data :: Outcome(w + body) == Done(code, hs, data) <==> Carries(|w|, body, data))
            && ((forall data :: !Carries(|w|, body, data)) ==> Outcome(w + body) == Error)
  {
    hide Outcome, ParseHead, WireHead, IsStatus, AreLines, SpellAll, Sized, Coded, Misspelt, Carries, Chunks;
    var w := WireHead(status, fields);
    var part := Heard(status, fields, body);
    hs := HeadMeans(status, fields, code);
    if |w| <= RECV_MAX {
      CarriesDecoded(w, body, part);
    } else {
      TooFar(w, body);
    }
  }

  lemma {:induction false} TooFar(w: string, body: string)
    requires |w| > RECV_MAX
    ensures forall data :: !Carries(|w|, body, data)
  {
  }

  /** Without an empty line there is no response. */
  lemma {:induction false} NoHead(t: string)
    requires Find(t, CRLFCRLF, 0).None?
    ensures Outcome(t) == Error
  {
    var u := if |t| <= RECV_MAX then t else t[..RECV_MAX];
    if Find(u, CRLFCRLF, 0).Some? {
      FindExtend(u, t, CRLFCRLF, 0);
    }
    hide Find;
  }

  lemma {:induction false} InSuffix(s: string, k: nat, pat: string, j: nat)
    requires k <= |s|
    ensures Occurs(s[k..], pat, j) <==> Occurs(s, pat, k + j)
  {
    if k + j + |pat| <= |s| {
      assert s[k..][j..j + |pat|] == s[k + j..k + j + |pat|];
    }
  }

  lemma {:induction false} NoneInSuffix(s: string, k: nat, pat: string)
    requires k <= |s| && forall j :: 0 <= j ==> !Occurs(s, pat, j)
    ensures forall j :: 0 <= j ==> !Occurs(s[k..], pat, j)
  {
    forall j | 0 <= j
      ensures !Occurs(s[k..], pat, j)
    {
      InSuffix(s, k, pat, j);
    }
  }

  /** Whole lines, none of them empty, up to the end. */
  ghost predicate Lined(s: string) {
    && (forall j :: 0 <= j ==> !Occurs(s, CRLFCRLF, j))
    && (s != "" ==> |s| >= 2 && Occurs(s, CRLF, |s| - 2) && !Occurs(s, CRLF, 0))
  }

  /** What follows the first line is whole lines again. */
  lemma {:induction false} AfterLine(s: string, e: nat)
    requires |s| >= 2 && Occurs(s, CRLF, |s| - 2) && Occurs(s, CRLF, e)
    requires forall j :: 0 <= j ==> !Occurs(s, CRLFCRLF, j)
    ensures e + 2 <= |s| && Lined(s[e + 2..])
    ensures s == s[0..e] + CRLF + s[e + 2..]
  {
    var rest := s[e + 2..];
    NoneInSuffix(s, e + 2, CRLFCRLF);
    assert s[e + 1] == s[e..e + 2][1] == '\n';
    assert s[|s| - 2] == s[|s| - 2..|s|][0] == '\r';
    InSuffix(s, e + 2, CRLF, 0);
    if |rest| >= 2 {
      InSuffix(s, e + 2, CRLF, |rest| - 2);
    }
    if Occurs(s, CRLF, e + 2) {
      assert CRLF + CRLF == CRLFCRLF;
      OccursJoin(s, CRLF, CRLF, e);
    }
  }

  lemma {:induction false} FirstLine(s: string) returns (e: nat)
    requires |s| >= 2 && Occurs(s, CRLF, |s| - 2)
    ensures Find(s, CRLF, 0) == Some(e) && e + 2 <= |s| && Occurs(s, CRLF, e) && IsLine(s[0..e])
  {
    FindSpec(s, CRLF, 0);
    e := Find(s, CRLF, 0).value;
    LineTaken(s, 0, e);
  }

  lemma {:induction false} LinesFound(s: string) returns (fields: seq<string>)
    requires Lined(s)
    ensures s == WireFields(fields) && forall i :: 0 <= i < |fields| ==> IsLine(fields[i]) && fields[i] != ""
    decreases |s|
  {
    hide IsLine, Find, Occurs;
    if s == "" {
      fields := [];
    } else {
      var e := FirstLine(s);
      AfterLine(s, e);
      hide Lined;
      var more := LinesFound(s[e + 2..]);
      fields := [s[0..e]] + more;
      assert fields[1..] == more;
    }
  }

  /** Every text with an empty line in it is a head and a body. */
  lemma {:induction false} HeadFound(t: string) returns (status: string, fields: seq<string>, body: string)
    requires Find(t, CRLFCRLF, 0).Some?
    ensures AreLines(status, fields) && t == WireHead(status, fields) + body
  {
    hide IsLine, Find, Occurs, WireFields;
    var i := Find(t, CRLFCRLF, 0).value;
    var w := BeforeEmpty(t, i);
    var e := FirstLine(w);
    AfterLine(w, e);
    fields := LinesFound(w[e + 2..]);
    status, body := w[0..e], t[i + 4..];
  }

  /** The text up to the first empty line, the CRLF in front of it included. */
  lemma {:induction false} BeforeEmpty(t: string, i: nat) returns (w: string)
    requires Find(t, CRLFCRLF, 0) == Some(i)
    ensures |w| >= 2 && Occurs(w, CRLF, |w| - 2) && forall j :: 0 <= j ==> !Occurs(w, CRLFCRLF, j)
    ensures i + 4 <= |t| && t == w + CRLF + t[i + 4..]
  {
    w := t[..i + 2];
    FindSpec(t, CRLFCRLF, 0);
    hide Find;
    assert t[i..i + 4] == CRLFCRLF;
    assert w[i..i + 2] == t[i..i + 4][..2] && t[i + 2..i + 4] == t[i..i + 4][2..];
    forall j | 0 <= j
      ensures !Occurs(w, CRLFCRLF, j)
    {
      if j + 4 <= |w| {
        OccursExtend(w, t, CRLFCRLF, j);
      }
    }
  }
}
