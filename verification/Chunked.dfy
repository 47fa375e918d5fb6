/**
 The PHP SDK's decoder for chunked HTTP bodies (section 7.1 of RFC 9112).

 The scan over chunk boundaries is stated for any reading of size lines; the
 reading `decodeChunked` uses is `ChunkSize.SizeOf`.
 */
module ChunkScan {
  import opened Common

  datatype Result = Body(text: string) | Malformed

  /** How the text of a size line is turned into a number. */
  type SizeReader = string -> nat

  const CRLF: string := "\r\n"

  predicate CrlfAt(s: string, i: nat) {
    i + 1 < |s| && s[i] == '\r' && s[i + 1] == '\n'
  }

  predicate NoCrlf(s: string) {
    forall i: nat | i < |s| :: !CrlfAt(s, i)
  }

  /** `strpos(s, "\r\n", from)`. */
  function FindCrlf(s: string, from: nat): (r: Option<nat>)
    requires from <= |s|
    ensures r.Some? ==> from <= r.value && r.value + 2 <= |s|
    decreases |s| - from
  {
    if from == |s| then None else if CrlfAt(s, from) then Some(from) else FindCrlf(s, from + 1)
  }

  /** It finds the first line break at or after `from`, and fails exactly when there is none. */
  lemma {:induction false} FindsFirst(s: string, from: nat, at: nat)
    requires from <= at <= |s| && forall i | from <= i < at :: !CrlfAt(s, i)
    ensures CrlfAt(s, at) ==> FindCrlf(s, from) == Some(at)
    ensures at == |s| ==> FindCrlf(s, from) == None
    decreases at - from
  {
    if from == at {
    } else {
      FindsFirst(s, from + 1, at);
    }
  }

  function Prepend(front: string, r: Result): Result {
    if r.Body? then Body(front + r.text) else r
  }

  /** What stands at a chunk boundary: nothing legible, the terminal chunk, or data in `[start, end)`. */
  datatype Head = Bad | Terminal | Data(start: nat, end: nat)

  function HeadAt(data: string, pos: nat, sizeOf: SizeReader): (h: Head)
    requires pos <= |data|
    ensures h.Data? ==> pos < h.start < h.end && h.end + 2 <= |data|
  {
    var lineEnd := FindCrlf(data, pos);
    if lineEnd.None? then Bad
    else
      var size := sizeOf(data[pos..lineEnd.value]);
      var start := lineEnd.value + 2;
      if size == 0 then Terminal
      else if start + size + 2 > |data| then Bad
      else Data(start, start + size)
  }

  /** What the decoder makes of the input from the chunk boundary at `pos` on. */
  function Scan(data: string, pos: nat, sizeOf: SizeReader): Result
    requires pos <= |data|
    decreases |data| - pos
  {
    match HeadAt(data, pos, sizeOf)
    case Bad => Malformed
    case Terminal => Body([])
    case Data(start, end) => Prepend(data[start..end], Scan(data, end + 2, sizeOf))
  }

  lemma PrependTwice(a: string, b: string, r: Result)
    ensures Prepend(a, Prepend(b, r)) == Prepend(a + b, r)
  {
    if r.Body? {
      assert a + (b + r.text) == (a + b) + r.text;
    }
  }

  /** `decodeChunked`; each turn moves the scan position strictly forward. */
  method DecodeChunked(data: string, sizeOf: SizeReader) returns (r: Result)
    ensures r == Scan(data, 0, sizeOf)
  {
    var decoded := "";
    var pos := 0;
    while true
      invariant pos <= |data|
      invariant Scan(data, 0, sizeOf) == Prepend(decoded, Scan(data, pos, sizeOf))
      decreases |data| - pos
    {
      var head := HeadAt(data, pos, sizeOf);
      if head.Bad? {
        return Malformed;
      }
      if head.Terminal? {
        return Body(decoded);
      }
      PrependTwice(decoded, data[head.start..head.end], Scan(data, head.end + 2, sizeOf));
      decoded := decoded + data[head.start..head.end];
      pos := head.end + 2;
    }
  }

  // ---- Encodings ----

  /** A chunk as written: its size line without the line break, and its data. */
  datatype Chunk = Chunk(line: string, data: string)

  predicate IsChunk(c: Chunk, sizeOf: SizeReader) {
    NoCrlf(c.line) && c.data != [] && sizeOf(c.line) == |c.data|
  }

  predicate AreChunks(chunks: seq<Chunk>, sizeOf: SizeReader) {
    forall i | 0 <= i < |chunks| :: IsChunk(chunks[i], sizeOf)
  }

  function Write(c: Chunk): string {
    c.line + CRLF + c.data + CRLF
  }

  function WriteAll(chunks: seq<Chunk>): string {
    if chunks == [] then [] else Write(chunks[0]) + WriteAll(chunks[1..])
  }

  function Payload(chunks: seq<Chunk>): string {
    if chunks == [] then [] else chunks[0].data + Payload(chunks[1..])
  }

  /** `s` stands complete in `data` at `pos`; whatever follows it is free. */
  predicate Stands(data: string, pos: nat, s: string) {
    pos + |s| <= |data| && data[pos..pos + |s|] == s
  }

  /** `data` ends inside `s`, begun at `pos`. */
  predicate EndsInside(data: string, pos: nat, s: string) {
    pos <= |data| < pos + |s| && data[pos..] == s[..|data| - pos]
  }

  lemma StandsSplit(data: string, pos: nat, a: string, b: string)
    requires Stands(data, pos, a + b)
    ensures Stands(data, pos, a) && Stands(data, pos + |a|, b)
  {
    var s := data[pos..pos + |a + b|];
    assert a == s[..|a|] && b == s[|a|..];
  }

  lemma EndsInsideSplit(data: string, pos: nat, a: string, b: string)
    requires EndsInside(data, pos, a + b)
    ensures |data| < pos + |a| ==> EndsInside(data, pos, a)
    ensures |data| >= pos + |a| ==> Stands(data, pos, a) && EndsInside(data, pos + |a|, b)
  {
    var k := |data| - pos;
    var s := data[pos..];
    if k < |a| {
      assert (a + b)[..k] == a[..k];
    } else {
      assert (a + b)[..k] == a + b[..k - |a|];
      assert s[..|a|] == a && s[|a|..] == b[..k - |a|];
      assert data[pos..pos + |a|] == s[..|a|] && data[pos + |a|..] == s[|a|..];
    }
  }

  /** A complete size line is found where it ends; an incomplete one is not found at all. */
  lemma LineEnds(data: string, pos: nat, line: string)
    requires NoCrlf(line) && Stands(data, pos, line + CRLF)
    ensures FindCrlf(data, pos) == Some(pos + |line|) && data[pos..pos + |line|] == line
  {
    StandsSplit(data, pos, line, CRLF);
    assert data[pos + |line|] == '\r' && data[pos + |line| + 1] == '\n';
    assert CrlfAt(data, pos + |line|);
    forall i | pos <= i < pos + |line| ensures !CrlfAt(data, i) {
      assert data[i] == line[i - pos] && !CrlfAt(line, i - pos);
      assert i + 1 < pos + |line| ==> data[i + 1] == line[i + 1 - pos];
    }
    FindsFirst(data, pos, pos + |line|);
  }

  lemma LineUnfinished(data: string, pos: nat, line: string)
    requires NoCrlf(line) && EndsInside(data, pos, line + CRLF)
    ensures FindCrlf(data, pos) == None
  {
    forall i | pos <= i < |data| ensures !CrlfAt(data, i) {
      var s := line + CRLF;
      assert data[i] == data[pos..][i - pos] == s[i - pos];
      if i + 1 < |data| {
        assert data[i + 1] == data[pos..][i + 1 - pos] == s[i + 1 - pos];
        assert i - pos < |line| && !CrlfAt(line, i - pos);
      }
    }
    FindsFirst(data, pos, |data|);
  }

  /** The layout of a complete chunk: where its size line ends, and where its data stands. */
  lemma ChunkLayout(data: string, pos: nat, c: Chunk)
    requires NoCrlf(c.line) && Stands(data, pos, Write(c))
    ensures pos + |Write(c)| == pos + |c.line| + |c.data| + 4 <= |data|
    ensures FindCrlf(data, pos) == Some(pos + |c.line|) && data[pos..pos + |c.line|] == c.line
    ensures data[pos + |c.line| + 2..pos + |c.line| + 2 + |c.data|] == c.data
  {
    StandsSplit(data, pos, c.line + CRLF + c.data, CRLF);
    StandsSplit(data, pos, c.line + CRLF, c.data);
    LineEnds(data, pos, c.line);
  }

  lemma ChunkStep(data: string, pos: nat, c: Chunk, sizeOf: SizeReader)
    requires IsChunk(c, sizeOf) && Stands(data, pos, Write(c))
    ensures Scan(data, pos, sizeOf) == Prepend(c.data, Scan(data, pos + |Write(c)|, sizeOf))
  {
    ChunkLayout(data, pos, c);
  }

  lemma WriteSplit(chunks: seq<Chunk>, tail: string)
    requires chunks != []
    ensures WriteAll(chunks) + tail == Write(chunks[0]) + (WriteAll(chunks[1..]) + tail)
  {
  }

  /** Every valid encoding decodes to the concatenation of its chunks, whatever trailers follow. */
  lemma {:induction false} RoundTrip(data: string, pos: nat, chunks: seq<Chunk>, last: string, sizeOf: SizeReader)
    requires AreChunks(chunks, sizeOf) && NoCrlf(last) && sizeOf(last) == 0
    requires Stands(data, pos, WriteAll(chunks) + (last + CRLF))
    ensures Scan(data, pos, sizeOf) == Body(Payload(chunks))
    decreases |chunks|
  {
    if chunks == [] {
      assert WriteAll(chunks) + (last + CRLF) == last + CRLF;
      LineEnds(data, pos, last);
    } else {
      var first, more := Write(chunks[0]), WriteAll(chunks[1..]) + (last + CRLF);
      WriteSplit(chunks, last + CRLF);
      StandsSplit(data, pos, first, more);
      ChunkStep(data, pos, chunks[0], sizeOf);
      RoundTrip(data, pos + |first|, chunks[1..], last, sizeOf);
    }
  }

  lemma ChunkCutShort(data: string, pos: nat, c: Chunk, sizeOf: SizeReader)
    requires IsChunk(c, sizeOf) && EndsInside(data, pos, Write(c))
    ensures Scan(data, pos, sizeOf) == Malformed
  {
    assert Write(c) == (c.line + CRLF) + (c.data + CRLF);
    EndsInsideSplit(data, pos, c.line + CRLF, c.data + CRLF);
    if |data| < pos + |c.line| + 2 {
      LineUnfinished(data, pos, c.line);
    } else {
      LineEnds(data, pos, c.line);
    }
  }

  /** Cut anywhere before its terminal size line completes, a body is rejected, never shortened. */
  lemma {:induction false} TruncationRejected(data: string, pos: nat, chunks: seq<Chunk>, last: string,
                                              sizeOf: SizeReader)
    requires AreChunks(chunks, sizeOf) && NoCrlf(last)
    requires EndsInside(data, pos, WriteAll(chunks) + (last + CRLF))
    ensures Scan(data, pos, sizeOf) == Malformed
    decreases |chunks|
  {
    if chunks == [] {
      assert WriteAll(chunks) + (last + CRLF) == last + CRLF;
      LineUnfinished(data, pos, last);
    } else {
      var first, more := Write(chunks[0]), WriteAll(chunks[1..]) + (last + CRLF);
      WriteSplit(chunks, last + CRLF);
      EndsInsideSplit(data, pos, first, more);
      if |data| < pos + |first| {
        ChunkCutShort(data, pos, chunks[0], sizeOf);
      } else {
        TruncationRejected(data, pos + |first|, chunks[1..], last, sizeOf);
        ChunkStep(data, pos, chunks[0], sizeOf);
      }
    }
  }
}

/** Size lines as PHP reads them: `trim`, cut at the first semicolon, then `hexdec`, which skips every
    character that is not a hex digit. */
module ChunkSize {
  import opened ChunkScan

  predicate Blank(c: char) {
    c == ' ' || c == '\t' || c == '\n' || c == '\r' || c == '\0' || c == '\U{0B}'
  }

  function TrimLeft(s: string): string {
    if s != [] && Blank(s[0]) then TrimLeft(s[1..]) else s
  }

  function TrimRight(s: string): string {
    if s != [] && Blank(s[|s| - 1]) then TrimRight(s[..|s| - 1]) else s
  }

  /** `explode(';', s, 2)[0]`. */
  function BeforeSemicolon(s: string): string {
    if s == [] || s[0] == ';' then [] else [s[0]] + BeforeSemicolon(s[1..])
  }

  /** The value of a hex digit in either case; 16 for any other character. */
  function HexDigit(c: char): nat {
    if '0' <= c <= '9' then c as int - '0' as int
    else if 'a' <= c <= 'f' then c as int - 'a' as int + 10
    else if 'A' <= c <= 'F' then c as int - 'A' as int + 10
    else 16
  }

  /** The sixteen digits count in either case, and no other character does. */
  lemma BothCases(d: nat, c: char)
    requires d < 16
    ensures HexDigit("0123456789abcdef"[d]) == d && HexDigit("0123456789ABCDEF"[d]) == d
    ensures HexDigit(c) < 16 <==> '0' <= c <= '9' || 'a' <= c <= 'f' || 'A' <= c <= 'F'
  {
  }

  function HexDec(s: string): nat {
    if s == [] then 0
    else if HexDigit(s[|s| - 1]) == 16 then HexDec(s[..|s| - 1])
    else HexDec(s[..|s| - 1]) * 16 + HexDigit(s[|s| - 1])
  }

  function SizeOf(line: string): nat {
    HexDec(BeforeSemicolon(TrimRight(TrimLeft(line))))
  }

  predicate AllHex(s: string) {
    forall i | 0 <= i < |s| :: HexDigit(s[i]) < 16
  }

  predicate AllBlank(s: string) {
    forall i | 0 <= i < |s| :: s[i] == ' ' || s[i] == '\t'
  }

  /** A size line of the grammar: hex digits in either case, blanks, then nothing or an extension that begins with a
      semicolon. */
  predicate IsLine(digits: string, blanks: string, ext: string) {
    digits != [] && AllHex(digits) && AllBlank(blanks) && (ext == [] || ext[0] == ';')
  }

  /** Trimming takes blanks off the end and never reaches the digits. */
  lemma {:induction false} TrimKeepsDigits(digits: string, blanks: string, ext: string)
    returns (between: string, kept: string)
    requires IsLine(digits, blanks, ext)
    ensures IsLine(digits, between, kept) && TrimRight(digits + blanks + ext) == digits + between + kept
    decreases |blanks| + |ext|
  {
    var s := digits + blanks + ext;
    if ext == [] && blanks == [] {
      assert s == digits && HexDigit(digits[|digits| - 1]) < 16;
      between, kept := [], [];
    } else if ext == [] {
      assert s == digits + blanks && Blank(s[|s| - 1]);
      assert s[..|s| - 1] == digits + blanks[..|blanks| - 1] + ext;
      between, kept := TrimKeepsDigits(digits, blanks[..|blanks| - 1], ext);
    } else if Blank(ext[|ext| - 1]) {
      assert s[..|s| - 1] == digits + blanks + ext[..|ext| - 1];
      between, kept := TrimKeepsDigits(digits, blanks, ext[..|ext| - 1]);
    } else {
      assert s[|s| - 1] == ext[|ext| - 1];
      between, kept := blanks, ext;
    }
  }

  lemma {:induction false} CutAtSemicolon(front: string, ext: string)
    requires ';' !in front && (ext == [] || ext[0] == ';')
    ensures BeforeSemicolon(front + ext) == front
    decreases |front|
  {
    if front == [] {
      assert front + ext == ext;
    } else {
      assert (front + ext)[1..] == front[1..] + ext;
      CutAtSemicolon(front[1..], ext);
    }
  }

  lemma {:induction false} BlanksCountNothing(digits: string, blanks: string)
    requires AllBlank(blanks)
    ensures HexDec(digits + blanks) == HexDec(digits)
    decreases |blanks|
  {
    var s := digits + blanks;
    if blanks == [] {
      assert s == digits;
    } else {
      assert s[|s| - 1] == blanks[|blanks| - 1] && HexDigit(s[|s| - 1]) == 16;
      assert s[..|s| - 1] == digits + blanks[..|blanks| - 1];
      BlanksCountNothing(digits, blanks[..|blanks| - 1]);
    }
  }

  lemma NoSemicolon(digits: string, blanks: string)
    requires AllHex(digits) && AllBlank(blanks)
    ensures ';' !in digits + blanks
  {
    assert forall i | 0 <= i < |digits| :: HexDigit(digits[i]) < 16;
  }

  /** Blanks and extensions never change the size. */
  lemma LineSize(digits: string, blanks: string, ext: string)
    requires IsLine(digits, blanks, ext)
    ensures SizeOf(digits + blanks + ext) == HexDec(digits)
  {
    assert (digits + blanks + ext)[0] == digits[0] && HexDigit(digits[0]) < 16;
    var between, kept := TrimKeepsDigits(digits, blanks, ext);
    NoSemicolon(digits, between);
    CutAtSemicolon(digits + between, kept);
    BlanksCountNothing(digits, between);
  }

  // ---- The whole grammar ----

  /** A chunk as the grammar has it: size digits with any leading zeros, blanks, extension, and the data. */
  datatype Piece = Piece(digits: string, blanks: string, ext: string, data: string)

  function LineOf(p: Piece): string {
    p.digits + p.blanks + p.ext
  }

  predicate IsPiece(p: Piece) {
    IsLine(p.digits, p.blanks, p.ext) && NoCrlf(LineOf(p)) && p.data != [] && HexDec(p.digits) == |p.data|
  }

  function Chunks(pieces: seq<Piece>): (chunks: seq<Chunk>)
    ensures |chunks| == |pieces|
  {
    if pieces == [] then [] else [Chunk(LineOf(pieces[0]), pieces[0].data)] + Chunks(pieces[1..])
  }

  function DataOf(pieces: seq<Piece>): string {
    if pieces == [] then [] else pieces[0].data + DataOf(pieces[1..])
  }

  lemma {:induction false} PiecesAreChunks(pieces: seq<Piece>)
    requires forall i | 0 <= i < |pieces| :: IsPiece(pieces[i])
    ensures AreChunks(Chunks(pieces), SizeOf) && Payload(Chunks(pieces)) == DataOf(pieces)
  {
    if pieces == [] {
    } else {
      LineSize(pieces[0].digits, pieces[0].blanks, pieces[0].ext);
      PiecesAreChunks(pieces[1..]);
      assert Chunks(pieces)[1..] == Chunks(pieces[1..]);
    }
  }

  /** Any number of zeros is a terminal size. */
  lemma {:induction false} ZerosAreZero(zeros: string)
    requires forall i | 0 <= i < |zeros| :: zeros[i] == '0'
    ensures HexDec(zeros) == 0 && AllHex(zeros)
  {
    if zeros == [] {
    } else {
      ZerosAreZero(zeros[..|zeros| - 1]);
    }
  }

  /** A body of the grammar up to its terminal size line: the chunks, then zeros with blanks and an extension. */
  function Encoding(pieces: seq<Piece>, zeros: string, blanks: string, ext: string): string {
    WriteAll(Chunks(pieces)) + (zeros + blanks + ext + CRLF)
  }

  /** Every encoding the grammar allows decodes to the concatenation of its data, whatever trailers follow, and cut
      anywhere before its terminal size line completes it is rejected. */
  lemma GrammarRoundTrip(pieces: seq<Piece>, zeros: string, blanks: string, ext: string, trailers: string, n: nat)
    requires forall i | 0 <= i < |pieces| :: IsPiece(pieces[i])
    requires zeros != [] && forall i | 0 <= i < |zeros| :: zeros[i] == '0'
    requires AllBlank(blanks) && (ext == [] || ext[0] == ';') && NoCrlf(zeros + blanks + ext)
    ensures Scan(Encoding(pieces, zeros, blanks, ext) + trailers, 0, SizeOf) == Body(DataOf(pieces))
    ensures n < |Encoding(pieces, zeros, blanks, ext)| ==>
              Scan(Encoding(pieces, zeros, blanks, ext)[..n], 0, SizeOf) == Malformed
  {
    var whole := Encoding(pieces, zeros, blanks, ext);
    var last := zeros + blanks + ext;
    PiecesAreChunks(pieces);
    ZerosAreZero(zeros);
    LineSize(zeros, blanks, ext);
    assert Stands(whole + trailers, 0, whole);
    RoundTrip(whole + trailers, 0, Chunks(pieces), last, SizeOf);
    if n < |whole| {
      assert whole[..n][0..] == whole[..n];
      TruncationRejected(whole[..n], 0, Chunks(pieces), last, SizeOf);
    }
  }

  // ---- Every body has valid encodings ----

  function HexChar(d: nat): char
    requires d < 16
  {
    if d < 10 then ('0' as int + d) as char else ('a' as int + d - 10) as char
  }

  function ToHex(n: nat): (s: string)
    ensures s != [] && AllHex(s)
  {
    if n < 16 then [HexChar(n)] else ToHex(n / 16) + [HexChar(n % 16)]
  }

  lemma {:induction false} HexRoundTrip(n: nat)
    ensures HexDec(ToHex(n)) == n
  {
    var s := ToHex(n);
    if n < 16 {
      assert s[..0] == [];
    } else {
      assert s[..|s| - 1] == ToHex(n / 16);
      HexRoundTrip(n / 16);
    }
  }

  lemma HexHasNoCrlf(digits: string)
    requires AllHex(digits)
    ensures NoCrlf(digits)
  {
    forall i: nat | i < |digits| ensures !CrlfAt(digits, i) {
      assert HexDigit(digits[i]) < 16;
    }
  }

  /** Any data under its own hex length, with any blanks and extension, is a piece of the grammar. */
  lemma EncodedPiece(data: string, blanks: string, ext: string)
    requires data != [] && AllBlank(blanks) && (ext == [] || ext[0] == ';') && NoCrlf(ToHex(|data|) + blanks + ext)
    ensures IsPiece(Piece(ToHex(|data|), blanks, ext, data))
  {
    HexRoundTrip(|data|);
  }

  function Plain(bodies: seq<string>): (pieces: seq<Piece>)
    ensures |pieces| == |bodies|
  {
    if bodies == [] then [] else [Piece(ToHex(|bodies[0]|), [], [], bodies[0])] + Plain(bodies[1..])
  }

  function Concat(bodies: seq<string>): string {
    if bodies == [] then [] else bodies[0] + Concat(bodies[1..])
  }

  lemma {:induction false} PlainIsValid(bodies: seq<string>)
    requires forall i | 0 <= i < |bodies| :: bodies[i] != []
    ensures (forall i | 0 <= i < |bodies| :: IsPiece(Plain(bodies)[i])) && DataOf(Plain(bodies)) == Concat(bodies)
  {
    if bodies == [] {
    } else {
      var digits := ToHex(|bodies[0]|);
      HexHasNoCrlf(digits);
      assert digits + [] + [] == digits;
      EncodedPiece(bodies[0], [], []);
      PlainIsValid(bodies[1..]);
      assert Plain(bodies)[1..] == Plain(bodies[1..]);
    }
  }

  /** So every list of non-empty pieces has an encoding: their plain one decodes to their concatenation, and no proper
      prefix that ends before the terminal size line does decodes at all. */
  lemma PlainRoundTrip(bodies: seq<string>, trailers: string, n: nat)
    requires forall i | 0 <= i < |bodies| :: bodies[i] != []
    ensures Scan(Encoding(Plain(bodies), "0", "", "") + trailers, 0, SizeOf) == Body(Concat(bodies))
    ensures n < |Encoding(Plain(bodies), "0", "", "")| ==>
              Scan(Encoding(Plain(bodies), "0", "", "")[..n], 0, SizeOf) == Malformed
  {
    PlainIsValid(bodies);
    HexHasNoCrlf("0");
    assert "0" + "" + "" == "0";
    GrammarRoundTrip(Plain(bodies), "0", "", "", trailers, n);
  }
}
