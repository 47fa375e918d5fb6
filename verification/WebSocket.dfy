/**
 The SDK's RFC 6455 framer (sections 5.2 and 5.3) and message reassembly
 (sections 5.4, 5.5.2 and 5.5.3). Bytes are bit vectors; a connection is the
 bytes still to be read and the frames written so far.
 */
module WebSocket {
  import opened Common

  type Byte = bv8
  type Bytes = seq<Byte>
  type Key = k: Bytes | |k| == 4 witness [0, 0, 0, 0]

  const MAX_MESSAGE: nat := 0x10_0000

  const CONTINUATION: Byte := 0x0
  const TEXT: Byte := 0x1
  const BINARY: Byte := 0x2
  const CLOSE: Byte := 0x8
  const PING: Byte := 0x9
  const PONG: Byte := 0xA

  // ---- Numbers on the wire ----

  function BigEndian(n: nat, width: nat): (b: Bytes)
    ensures |b| == width
  {
    if width == 0 then [] else BigEndian(n / 256, width - 1) + [(n % 256) as Byte]
  }

  function FromBigEndian(b: Bytes): nat {
    if b == [] then 0 else FromBigEndian(b[..|b| - 1]) * 256 + b[|b| - 1] as nat
  }

  function Pow256(width: nat): nat {
    if width == 0 then 1 else 256 * Pow256(width - 1)
  }

  lemma {:induction false} BigEndianRoundTrip(n: nat, width: nat)
    requires n < Pow256(width)
    ensures FromBigEndian(BigEndian(n, width)) == n
  {
    if width == 0 {
    } else {
      BelowPow(n, Pow256(width - 1));
      BigEndianRoundTrip(n / 256, width - 1);
      LastByte(BigEndian(n / 256, width - 1), n % 256);
    }
  }

  lemma BelowPow(n: nat, p: nat)
    requires n < 256 * p
    ensures n / 256 < p
  {
  }

  lemma LastByte(front: Bytes, last: nat)
    requires last < 256
    ensures FromBigEndian(front + [last as Byte]) == FromBigEndian(front) * 256 + last
  {
    assert (front + [last as Byte])[..|front|] == front;
    ByteOfNat(last);
  }

  lemma Widths()
    ensures Pow256(2) == 0x1_0000 && Pow256(8) == 0x1_0000_0000_0000_0000
  {
    assert Pow256(4) == 256 * (256 * Pow256(2));
    assert Pow256(6) == 256 * (256 * Pow256(4));
    assert Pow256(8) == 256 * (256 * Pow256(6));
  }

  // ---- Masking ----

  function Masked(payload: Bytes, key: Key): (m: Bytes)
    ensures |m| == |payload|
  {
    seq(|payload|, i requires 0 <= i < |payload| => payload[i] ^ key[i % 4])
  }

  lemma MaskTwice(payload: Bytes, key: Key)
    ensures Masked(Masked(payload, key), key) == payload
  {
    forall i | 0 <= i < |payload| ensures Masked(Masked(payload, key), key)[i] == payload[i] {
      assert (payload[i] ^ key[i % 4]) ^ key[i % 4] == payload[i];
    }
  }

  // ---- Frames ----

  datatype Frame = Frame(fin: bool, opcode: Byte, key: Option<Key>, payload: Bytes)

  predicate Sendable(f: Frame) {
    f.opcode < 16 && |f.payload| <= MAX_MESSAGE
  }

  /** The shortest length form: 7 bits, 16 bits or 64 bits. */
  function LengthCode(length: nat): Byte
    requires length <= MAX_MESSAGE
  {
    if length < 126 then length as Byte else if length <= 0xFFFF then 126 else 127
  }

  function ExtendedLength(length: nat): Bytes {
    if length < 126 then [] else if length <= 0xFFFF then BigEndian(length, 2) else BigEndian(length, 8)
  }

  function KeyBytes(key: Option<Key>): Bytes {
    if key.Some? then key.value else []
  }

  function Head(f: Frame): Bytes
    requires Sendable(f)
  {
    [(if f.fin then 0x80 | f.opcode else f.opcode),
     (if f.key.Some? then 0x80 | LengthCode(|f.payload|) else LengthCode(|f.payload|))]
  }

  function Body(f: Frame): Bytes {
    if f.key.Some? then Masked(f.payload, f.key.value) else f.payload
  }

  function Encode(f: Frame): (b: Bytes)
    requires Sendable(f)
    ensures |b| == 2 + |ExtendedLength(|f.payload|)| + |KeyBytes(f.key)| + |f.payload|
  {
    Head(f) + ExtendedLength(|f.payload|) + KeyBytes(f.key) + Body(f)
  }

  datatype Read = Got(opcode: Byte, fin: bool, payload: Bytes, rest: Bytes) | Eof | FrameTooLarge

  /** How many extension bytes a length code announces. */
  function ExtensionSize(code: Byte): nat {
    if code == 126 then 2 else if code == 127 then 8 else 0
  }

  function AnnouncedLength(s: Bytes): nat
    requires |s| >= 2 && |s| >= 2 + ExtensionSize(s[1] & 0x7f)
  {
    var ext := ExtensionSize(s[1] & 0x7f);
    if ext == 0 then (s[1] & 0x7f) as nat else FromBigEndian(s[2..2 + ext])
  }

  /** `readFrame`: header, extended length, size check, mask key, payload; a short read anywhere is an error. */
  function Decode(s: Bytes): (r: Read)
    ensures r.Got? ==> |r.rest| < |s| && |r.payload| <= MAX_MESSAGE
  {
    if |s| < 2 then Eof
    else
      var ext := ExtensionSize(s[1] & 0x7f);
      if |s| < 2 + ext then Eof
      else
        var length := AnnouncedLength(s);
        var keySize := if s[1] & 0x80 != 0 then 4 else 0;
        var start := 2 + ext + keySize;
        if length > MAX_MESSAGE then FrameTooLarge
        else if |s| < start + length then Eof
        else
          var data := s[start..start + length];
          var payload := if keySize == 4 then Masked(data, s[2 + ext..start]) else data;
          Got(s[0] & 0x0f, s[0] & 0x80 != 0, payload, s[start + length..])
  }

  lemma FirstByte(fin: bool, opcode: Byte)
    requires opcode < 16
    ensures var b := if fin then 0x80 | opcode else opcode; b & 0x0f == opcode && (b & 0x80 != 0 <==> fin)
  {
  }

  lemma SecondByte(masked: bool, length: nat)
    requires length <= MAX_MESSAGE
    ensures var b := if masked then 0x80 | LengthCode(length) else LengthCode(length);
            b & 0x7f == LengthCode(length) && (b & 0x80 != 0 <==> masked)
    ensures ExtensionSize(LengthCode(length)) == |ExtendedLength(length)|
    ensures length < 126 ==> LengthCode(length) as nat == length
  {
    if length < 126 {
      SmallCode(length);
    }
    CodeBits(LengthCode(length));
  }

  lemma SmallCode(length: nat)
    requires length < 126
    ensures (length as Byte) as nat == length && length as Byte < 126
  {
    ByteOfNat(length);
    ByteBelow(length as Byte);
  }

  lemma ByteOfNat(n: nat)
    requires n < 256
    ensures (n as Byte) as nat == n
  {
    ByteInRow(n, n / 4);
  }

  lemma ByteInRow(n: nat, row: nat)
    requires row < 64 && 4 * row <= n < 4 * row + 4
    ensures (n as Byte) as nat == n
  {
  }

  lemma ByteBelow(code: Byte)
    requires code as nat < 126
    ensures code < 126
  {
  }

  lemma CodeBits(code: Byte)
    requires code < 128
    ensures (0x80 | code) & 0x7f == code && (0x80 | code) & 0x80 != 0 && code & 0x80 == 0 && code & 0x7f == code
  {
  }

  lemma ExtendedReads(n: nat)
    requires 126 <= n <= MAX_MESSAGE
    ensures FromBigEndian(ExtendedLength(n)) == n
  {
    Widths();
    if n <= 0xFFFF {
      BigEndianRoundTrip(n, 2);
    } else {
      BigEndianRoundTrip(n, 8);
    }
  }

  /** The first two bytes carry the opcode, the flags and the length code. */
  lemma HeadReads(f: Frame, s: Bytes)
    requires Sendable(f) && |s| >= 2 && s[0] == Head(f)[0] && s[1] == Head(f)[1]
    ensures ExtensionSize(s[1] & 0x7f) == |ExtendedLength(|f.payload|)| && s[1] & 0x7f == LengthCode(|f.payload|)
    ensures s[0] & 0x0f == f.opcode && (s[0] & 0x80 != 0 <==> f.fin) && (s[1] & 0x80 != 0 <==> f.key.Some?)
  {
    FirstByte(f.fin, f.opcode);
    SecondByte(f.key.Some?, |f.payload|);
  }

  /** The header of an encoded frame announces exactly its payload's length. */
  lemma LengthReads(f: Frame, s: Bytes)
    requires Sendable(f) && |s| >= 2 + |ExtendedLength(|f.payload|)|
    requires s[0] == Head(f)[0] && s[1] == Head(f)[1]
    requires s[2..2 + |ExtendedLength(|f.payload|)|] == ExtendedLength(|f.payload|)
    ensures ExtensionSize(s[1] & 0x7f) == |ExtendedLength(|f.payload|)| && AnnouncedLength(s) == |f.payload|
  {
    HeadReads(f, s);
    SecondByte(f.key.Some?, |f.payload|);
    if |f.payload| >= 126 {
      ExtendedReads(|f.payload|);
    }
  }

  lemma {:induction false} FromBigEndianBelow(b: Bytes)
    ensures FromBigEndian(b) < Pow256(|b|)
  {
    if b == [] {
    } else {
      FromBigEndianBelow(b[..|b| - 1]);
    }
  }

  lemma ShortCode(b: Byte)
    requires b & 0x7f != 126 && b & 0x7f != 127
    ensures (b & 0x7f) as nat < 126
  {
  }

  /** No header that announces the same length is shorter: whatever stream is read, its extension is at least as
      long as the one the writer uses. */
  lemma ShortestForm(s: Bytes)
    requires |s| >= 2 && |s| >= 2 + ExtensionSize(s[1] & 0x7f)
    ensures |ExtendedLength(AnnouncedLength(s))| <= ExtensionSize(s[1] & 0x7f)
  {
    var ext := ExtensionSize(s[1] & 0x7f);
    if ext == 0 {
      ShortCode(s[1]);
    } else if ext == 2 {
      FromBigEndianBelow(s[2..4]);
      Widths();
    }
  }

  lemma Cut<T>(a: seq<T>, b: seq<T>, c: seq<T>)
    ensures (a + b + c)[|a|..|a| + |b|] == b && (a + b + c)[|a| + |b|..] == c
  {
  }

  /** Where the parts of an encoded frame lie on the stream. */
  lemma Layout(f: Frame, rest: Bytes)
    requires Sendable(f)
    ensures var s := Encode(f) + rest; var ext := |ExtendedLength(|f.payload|)|; var key := |KeyBytes(f.key)|;
            && s[0] == Head(f)[0] && s[1] == Head(f)[1] && s[2..2 + ext] == ExtendedLength(|f.payload|)
            && s[2 + ext..2 + ext + key] == KeyBytes(f.key)
            && s[2 + ext + key..2 + ext + key + |f.payload|] == Body(f)
            && s[2 + ext + key + |f.payload|..] == rest
  {
    var s := Encode(f) + rest;
    var head, ext, key, body := Head(f), ExtendedLength(|f.payload|), KeyBytes(f.key), Body(f);
    assert s == head + ext + (key + body + rest);
    Cut(head, ext, key + body + rest);
    assert s == (head + ext) + key + (body + rest);
    Cut(head + ext, key, body + rest);
    assert s == (head + ext + key) + body + rest;
    Cut(head + ext + key, body, rest);
  }

  /** Frame round trip: whatever follows it on the stream, an encoded frame reads back as itself, and the
      following bytes are left untouched. */
  lemma FrameRoundTrip(f: Frame, rest: Bytes)
    requires Sendable(f)
    ensures Decode(Encode(f) + rest) == Got(f.opcode, f.fin, f.payload, rest)
  {
    var s := Encode(f) + rest;
    Layout(f, rest);
    HeadReads(f, s);
    LengthReads(f, s);
    if f.key.Some? {
      MaskTwice(f.payload, f.key.value);
    }
  }

  lemma CutInHeader(f: Frame, s: Bytes)
    requires Sendable(f) && 2 <= |s| < 2 + |ExtendedLength(|f.payload|)| && s[0] == Head(f)[0] && s[1] == Head(f)[1]
    ensures Decode(s) == Eof
  {
    HeadReads(f, s);
  }

  lemma CutAfterHeader(f: Frame, s: Bytes)
    requires Sendable(f) && 2 + |ExtendedLength(|f.payload|)| <= |s| < |Encode(f)|
    requires s[0] == Head(f)[0] && s[1] == Head(f)[1]
    requires s[2..2 + |ExtendedLength(|f.payload|)|] == ExtendedLength(|f.payload|)
    ensures Decode(s) == Eof
  {
    HeadReads(f, s);
    LengthReads(f, s);
  }

  lemma PrefixSlice<T>(s: seq<T>, n: nat, i: nat, j: nat)
    requires i <= j <= n <= |s|
    ensures s[..n][i..j] == s[i..j]
  {
  }

  /** A frame cut short anywhere is reported as such, never misread. */
  lemma TruncatedFrame(f: Frame, n: nat)
    requires Sendable(f) && n < |Encode(f)|
    ensures Decode(Encode(f)[..n]) == Eof
  {
    var ext := |ExtendedLength(|f.payload|)|;
    Layout(f, []);
    assert Encode(f) + [] == Encode(f);
    if n >= 2 + ext {
      PrefixSlice(Encode(f), n, 2, 2 + ext);
      CutAfterHeader(f, Encode(f)[..n]);
    } else if n >= 2 {
      CutInHeader(f, Encode(f)[..n]);
    }
  }

  function EncodeAll(frames: seq<Frame>): Bytes
    requires forall i | 0 <= i < |frames| :: Sendable(frames[i])
  {
    if frames == [] then [] else Encode(frames[0]) + EncodeAll(frames[1..])
  }

  /** What a reader sees of a frame. */
  datatype Seen = Seen(opcode: Byte, fin: bool, payload: Bytes)

  function Sight(frames: seq<Frame>): seq<Seen> {
    if frames == [] then []
    else [Seen(frames[0].opcode, frames[0].fin, frames[0].payload)] + Sight(frames[1..])
  }

  /** Read n frames off a stream. */
  function DecodeMany(s: Bytes, n: nat): Option<(seq<Seen>, Bytes)> {
    if n == 0 then Some(([], s))
    else
      var r := Decode(s);
      if !r.Got? then None
      else
        var more := DecodeMany(r.rest, n - 1);
        if more.None? then None else Some(([Seen(r.opcode, r.fin, r.payload)] + more.value.0, more.value.1))
  }

  /** Any sequence of written frames reads back in order, with nothing left over and nothing swallowed. */
  lemma {:induction false} StreamRoundTrip(frames: seq<Frame>, rest: Bytes)
    requires forall i | 0 <= i < |frames| :: Sendable(frames[i])
    ensures DecodeMany(EncodeAll(frames) + rest, |frames|) == Some((Sight(frames), rest))
  {
    if frames == [] {
      assert EncodeAll(frames) + rest == rest;
    } else {
      var more := EncodeAll(frames[1..]) + rest;
      assert EncodeAll(frames) + rest == Encode(frames[0]) + more;
      FrameRoundTrip(frames[0], more);
      StreamRoundTrip(frames[1..], rest);
      DecodeOneMore(EncodeAll(frames) + rest, |frames|);
    }
  }

  lemma DecodeOneMore(s: Bytes, n: nat)
    requires n > 0 && Decode(s).Got? && DecodeMany(Decode(s).rest, n - 1).Some?
    ensures var r := Decode(s); var more := DecodeMany(r.rest, n - 1).value;
            DecodeMany(s, n) == Some(([Seen(r.opcode, r.fin, r.payload)] + more.0, more.1))
  {
  }

  // ---- Reassembly ----

  /** A frame handed to the writer: its opcode and payload. */
  type Written = (Byte, Bytes)

  datatype TextRead =
    | Message(text: Bytes, rest: Bytes, out: seq<Written>)
    | Closed(out: seq<Written>)
    | Failed(out: seq<Written>)
    | MessageTooLarge(out: seq<Written>)
    | BadOpcode(out: seq<Written>)

  /** `readText` from the middle of its loop: `message`, `kind` and `open` are its variables, `out` what it wrote. */
  function ReadText(s: Bytes, message: Bytes, kind: Byte, open: bool, out: seq<Written>): TextRead
    decreases |s|
  {
    var r := Decode(s);
    if !r.Got? then Failed(out)
    else if r.opcode == PING then ReadText(r.rest, message, kind, open, out + [(PONG, r.payload)])
    else if r.opcode == PONG then ReadText(r.rest, message, kind, open, out)
    else if r.opcode == CLOSE then Closed(out + [(CLOSE, [])])
    else if r.opcode == CONTINUATION && !open then ReadText(r.rest, message, kind, open, out)
    else if r.opcode != TEXT && r.opcode != BINARY && r.opcode != CONTINUATION then BadOpcode(out)
    else
      var longer := if r.opcode == CONTINUATION then message + r.payload else r.payload;
      var sort := if r.opcode == CONTINUATION then kind else r.opcode;
      if |longer| > MAX_MESSAGE then MessageTooLarge(out)
      else if !r.fin then ReadText(r.rest, longer, sort, true, out)
      else if sort == BINARY then ReadText(r.rest, longer, sort, false, out)
      else Message(longer, r.rest, out)
  }

  /** One element of a message in flight: a fragment, or a control frame between fragments. */
  datatype Part =
    | Fragment(key: Option<Key>, data: Bytes)
    | Ping(key: Option<Key>, data: Bytes)
    | Pong(key: Option<Key>, data: Bytes)

  /** A whole message: its last part is its last fragment, and every frame fits the frame cap. */
  predicate WellFormed(parts: seq<Part>) {
    && parts != [] && parts[|parts| - 1].Fragment?
    && forall i | 0 <= i < |parts| :: |parts[i].data| <= MAX_MESSAGE
  }

  function Data(parts: seq<Part>): Bytes {
    if parts == [] then []
    else if parts[0].Fragment? then parts[0].data + Data(parts[1..]) else Data(parts[1..])
  }

  function Pings(parts: seq<Part>): seq<Written> {
    if parts == [] then []
    else if parts[0].Ping? then [(PONG, parts[0].data)] + Pings(parts[1..]) else Pings(parts[1..])
  }

  function PartFrame(p: Part, kind: Byte, first: bool, last: bool): Frame {
    match p
    case Ping(key, data) => Frame(true, PING, key, data)
    case Pong(key, data) => Frame(true, PONG, key, data)
    case Fragment(key, data) => Frame(last, if first then kind else CONTINUATION, key, data)
  }

  /** The bytes of a message of the given kind; `first` says whether its first fragment is still to come. */
  function Wire(parts: seq<Part>, kind: Byte, first: bool): Bytes
    requires kind < 16 && forall i | 0 <= i < |parts| :: |parts[i].data| <= MAX_MESSAGE
  {
    if parts == [] then []
    else Encode(PartFrame(parts[0], kind, first, |parts| == 1)) + Wire(parts[1..], kind, first && !parts[0].Fragment?)
  }

  /** What reading one whole message comes to: text is returned, binary is skipped, and an oversized message
      of either kind is refused. */
  ghost predicate ReadsAs(r: TextRead, parts: seq<Part>, kind: Byte, before: Bytes, rest: Bytes, out: seq<Written>) {
    var whole := before + Data(parts);
    if |whole| > MAX_MESSAGE then r.MessageTooLarge?
    else if kind == TEXT then r == Message(whole, rest, out + Pings(parts))
    else r == ReadText(rest, whole, BINARY, false, out + Pings(parts))
  }

  /** What has been written once a control frame is dealt with. */
  function Answered(p: Part, out: seq<Written>): seq<Written> {
    if p.Ping? then out + [(PONG, p.data)] else out
  }

  lemma PingIsAnswered(s: Bytes, data: Bytes, more: Bytes, message: Bytes, sort: Byte, open: bool, out: seq<Written>)
    requires Decode(s) == Got(PING, true, data, more)
    ensures ReadText(s, message, sort, open, out) == ReadText(more, message, sort, open, out + [(PONG, data)])
  {
  }

  lemma PongIsSkipped(s: Bytes, data: Bytes, more: Bytes, message: Bytes, sort: Byte, open: bool, out: seq<Written>)
    requires Decode(s) == Got(PONG, true, data, more)
    ensures ReadText(s, message, sort, open, out) == ReadText(more, message, sort, open, out)
  {
  }

  /** A data frame extends (or starts) the message, which is then refused, continued, skipped or returned. */
  lemma DataIsGathered(s: Bytes, opcode: Byte, fin: bool, data: Bytes, more: Bytes,
                       message: Bytes, sort: Byte, open: bool, out: seq<Written>, before: Bytes, kind: Byte)
    requires Decode(s) == Got(opcode, fin, data, more) && (kind == TEXT || kind == BINARY)
    requires (opcode == kind && before == []) || (opcode == CONTINUATION && open && sort == kind && before == message)
    ensures ReadText(s, message, sort, open, out) ==
            if |before + data| > MAX_MESSAGE then MessageTooLarge(out)
            else if !fin then ReadText(more, before + data, kind, true, out)
            else if kind == BINARY then ReadText(more, before + data, kind, false, out)
            else Message(before + data, more, out)
  {
    assert before == [] ==> before + data == data;
  }

  /** The other frames a reader can meet: a close is answered with an empty close and ends the reading, a continuation
      of nothing is skipped, and an opcode the protocol reserves ends it; a read that fails ends it too. */
  lemma OtherFrames(s: Bytes, message: Bytes, sort: Byte, open: bool, out: seq<Written>)
    ensures var r := Decode(s); var t := ReadText(s, message, sort, open, out);
            && (!r.Got? ==> t == Failed(out))
            && (r.Got? && r.opcode == 0x8 ==> t == Closed(out + [(0x8, [])]))
            && (r.Got? && r.opcode == 0x0 && !open ==> t == ReadText(r.rest, message, sort, open, out))
            && (r.Got? && (0x3 <= r.opcode <= 0x7 || 0xB <= r.opcode) ==> t == BadOpcode(out))
  {
  }

  /** A header that announces more than a mebibyte is refused before any payload is read. */
  lemma OversizedFrame(s: Bytes)
    requires |s| >= 2 && |s| >= 2 + ExtensionSize(s[1] & 0x7f)
    ensures Decode(s) == FrameTooLarge <==> AnnouncedLength(s) > 0x10_0000
  {
  }

  lemma Associative<T>(a: seq<T>, b: seq<T>, c: seq<T>)
    ensures a + (b + c) == (a + b) + c
  {
  }

  lemma NothingAfter(parts: seq<Part>)
    requires |parts| == 1
    ensures Data(parts[1..]) == [] && Pings(parts[1..]) == []
  {
  }

  /** The head of a script is the head of its wire form. */
  lemma WireFirst(parts: seq<Part>, kind: Byte, first: bool, rest: Bytes)
    requires WellFormed(parts) && kind < 16
    ensures var p := parts[0]; var frame := PartFrame(p, kind, first, |parts| == 1);
            Decode(Wire(parts, kind, first) + rest)
            == Got(frame.opcode, frame.fin, p.data, Wire(parts[1..], kind, first && !p.Fragment?) + rest)
  {
    var frame := PartFrame(parts[0], kind, first, |parts| == 1);
    var more := Wire(parts[1..], kind, first && !parts[0].Fragment?) + rest;
    assert Wire(parts, kind, first) + rest == Encode(frame) + more;
    FrameRoundTrip(frame, more);
  }

  lemma ControlStep(parts: seq<Part>, kind: Byte, before: Bytes, rest: Bytes, out: seq<Written>, r: TextRead)
    requires parts != [] && !parts[0].Fragment?
    requires ReadsAs(r, parts[1..], kind, before, rest, Answered(parts[0], out))
    ensures ReadsAs(r, parts, kind, before, rest, out)
  {
    if parts[0].Ping? {
      Associative(out, [(PONG, parts[0].data)], Pings(parts[1..]));
    }
  }

  lemma FragmentStep(parts: seq<Part>, kind: Byte, before: Bytes, rest: Bytes, out: seq<Written>, r: TextRead)
    requires |parts| > 1 && parts[0].Fragment?
    requires if |before + parts[0].data| > MAX_MESSAGE then r.MessageTooLarge?
             else ReadsAs(r, parts[1..], kind, before + parts[0].data, rest, out)
    ensures ReadsAs(r, parts, kind, before, rest, out)
  {
    Associative(before, parts[0].data, Data(parts[1..]));
  }

  lemma LastFragment(parts: seq<Part>, kind: Byte, before: Bytes, rest: Bytes, out: seq<Written>, r: TextRead)
    requires |parts| == 1 && parts[0].Fragment? && (kind == TEXT || kind == BINARY)
    requires var whole := before + parts[0].data;
             r == if |whole| > MAX_MESSAGE then MessageTooLarge(out)
                  else if kind == BINARY then ReadText(rest, whole, kind, false, out) else Message(whole, rest, out)
    ensures ReadsAs(r, parts, kind, before, rest, out)
  {
    NothingAfter(parts);
    assert parts[0].data + [] == parts[0].data && out + [] == out;
  }

  /** Reading past a leading control frame only answers it. */
  lemma ControlFirst(parts: seq<Part>, kind: Byte, first: bool, rest: Bytes,
                     message: Bytes, sort: Byte, open: bool, out: seq<Written>)
    requires WellFormed(parts) && kind < 16 && !parts[0].Fragment?
    ensures ReadText(Wire(parts, kind, first) + rest, message, sort, open, out)
            == ReadText(Wire(parts[1..], kind, first) + rest, message, sort, open, Answered(parts[0], out))
  {
    WireFirst(parts, kind, first, rest);
    var s, more := Wire(parts, kind, first) + rest, Wire(parts[1..], kind, first) + rest;
    if parts[0].Ping? {
      PingIsAnswered(s, parts[0].data, more, message, sort, open, out);
    } else {
      PongIsSkipped(s, parts[0].data, more, message, sort, open, out);
    }
  }

  lemma {:induction false} ControlReads(parts: seq<Part>, kind: Byte, first: bool, rest: Bytes,
                                        message: Bytes, sort: Byte, open: bool, out: seq<Written>)
    requires WellFormed(parts) && (kind == TEXT || kind == BINARY) && !parts[0].Fragment?
    requires !first ==> open && sort == kind && |message| <= MAX_MESSAGE
    ensures ReadsAs(ReadText(Wire(parts, kind, first) + rest, message, sort, open, out), parts, kind,
                    if first then [] else message, rest, out)
    decreases |parts|, 0
  {
    ControlFirst(parts, kind, first, rest, message, sort, open, out);
    MessageReads(parts[1..], kind, first, rest, message, sort, open, Answered(parts[0], out));
    ControlStep(parts, kind, if first then [] else message, rest, out,
                ReadText(Wire(parts, kind, first) + rest, message, sort, open, out));
  }

  lemma {:induction false} FragmentReads(parts: seq<Part>, kind: Byte, first: bool, rest: Bytes,
                                         message: Bytes, sort: Byte, open: bool, out: seq<Written>)
    requires WellFormed(parts) && (kind == TEXT || kind == BINARY) && parts[0].Fragment?
    requires !first ==> open && sort == kind && |message| <= MAX_MESSAGE
    ensures ReadsAs(ReadText(Wire(parts, kind, first) + rest, message, sort, open, out), parts, kind,
                    if first then [] else message, rest, out)
    decreases |parts|, 0
  {
    var data := parts[0].data;
    var s := Wire(parts, kind, first) + rest;
    var more := Wire(parts[1..], kind, false) + rest;
    var before := if first then [] else message;
    var r := ReadText(s, message, sort, open, out);
    WireFirst(parts, kind, first, rest);
    DataIsGathered(s, if first then kind else CONTINUATION, |parts| == 1, data, more,
                   message, sort, open, out, before, kind);
    if |parts| == 1 {
      assert more == rest;
      LastFragment(parts, kind, before, rest, out, r);
    } else {
      if |before + data| <= MAX_MESSAGE {
        MessageReads(parts[1..], kind, false, rest, before + data, kind, true, out);
      }
      FragmentStep(parts, kind, before, rest, out, r);
    }
  }

  lemma {:induction false} MessageReads(parts: seq<Part>, kind: Byte, first: bool, rest: Bytes,
                                        message: Bytes, sort: Byte, open: bool, out: seq<Written>)
    requires WellFormed(parts) && (kind == TEXT || kind == BINARY)
    requires !first ==> open && sort == kind && |message| <= MAX_MESSAGE
    ensures ReadsAs(ReadText(Wire(parts, kind, first) + rest, message, sort, open, out), parts, kind,
                    if first then [] else message, rest, out)
    decreases |parts|, 1
  {
    if parts[0].Fragment? {
      FragmentReads(parts, kind, first, rest, message, sort, open, out);
    } else {
      ControlReads(parts, kind, first, rest, message, sort, open, out);
    }
  }

  // ---- Whole conversations on one connection ----

  predicate Fits(parts: seq<Part>) {
    |Data(parts)| <= MAX_MESSAGE
  }

  function WireAll(binaries: seq<seq<Part>>): Bytes
    requires forall i | 0 <= i < |binaries| :: WellFormed(binaries[i])
  {
    if binaries == [] then []
    else
      assert WellFormed(binaries[0]);
      Wire(binaries[0], BINARY, true) + WireAll(binaries[1..])
  }

  function PingsAll(binaries: seq<seq<Part>>): seq<Written> {
    if binaries == [] then [] else Pings(binaries[0]) + PingsAll(binaries[1..])
  }

  ghost predicate AllFit(binaries: seq<seq<Part>>) {
    forall i | 0 <= i < |binaries| :: Fits(binaries[i])
  }

  lemma AllFitSplit(binaries: seq<seq<Part>>)
    requires binaries != []
    ensures AllFit(binaries) <==> Fits(binaries[0]) && AllFit(binaries[1..])
  {
    assert AllFit(binaries) ==> forall i | 0 <= i < |binaries| - 1 :: Fits(binaries[1..][i]);
  }

  /** Reassembly: after any whole binary messages, any fragmentation of a text message with any control frames in
      between is returned as the exact concatenation, every ping is answered with its payload in order, and the
      bytes after the message stay unread; this holds exactly when every message fits the cap. */
  lemma {:induction false} Reassembly(binaries: seq<seq<Part>>, text: seq<Part>, rest: Bytes,
                                      message: Bytes, sort: Byte, out: seq<Written>)
    requires WellFormed(text) && forall i | 0 <= i < |binaries| :: WellFormed(binaries[i])
    ensures var r := ReadText(WireAll(binaries) + (Wire(text, TEXT, true) + rest), message, sort, false, out);
            if Fits(text) && AllFit(binaries)
            then r == Message(Data(text), rest, out + PingsAll(binaries) + Pings(text))
            else r.MessageTooLarge?
    decreases |binaries|
  {
    var last := Wire(text, TEXT, true) + rest;
    if binaries == [] {
      assert WireAll(binaries) + last == last;
      MessageReads(text, TEXT, true, rest, message, sort, false, out);
      assert [] + Data(text) == Data(text) && out + PingsAll(binaries) == out;
    } else {
      assert WellFormed(binaries[0]);
      Associative(Wire(binaries[0], BINARY, true), WireAll(binaries[1..]), last);
      BinaryIsSkipped(binaries[0], WireAll(binaries[1..]) + last, message, sort, out);
      AllFitSplit(binaries);
      if Fits(binaries[0]) {
        Reassembly(binaries[1..], text, rest, Data(binaries[0]), BINARY, out + Pings(binaries[0]));
        Associative(out, Pings(binaries[0]), PingsAll(binaries[1..]));
      }
    }
  }

  lemma BinaryIsSkipped(binary: seq<Part>, more: Bytes, message: Bytes, sort: Byte, out: seq<Written>)
    requires WellFormed(binary)
    ensures var r := ReadText(Wire(binary, BINARY, true) + more, message, sort, false, out);
            if Fits(binary) then r == ReadText(more, Data(binary), BINARY, false, out + Pings(binary))
            else r.MessageTooLarge?
  {
    MessageReads(binary, BINARY, true, more, message, sort, false, out);
    assert [] + Data(binary) == Data(binary);
  }
}
