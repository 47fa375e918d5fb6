/** The connection itself: the header array filled by index, the masking loops, and the read loop. */
module WsConnection {
  import opened Common
  import opened WebSocket

  /** `binary.BigEndian.PutUint16/64`: most significant byte first. */
  method PutBigEndian(a: array<Byte>, at: nat, width: nat, n: nat)
    requires at + width <= a.Length
    modifies a
    ensures a[at..at + width] == BigEndian(n, width)
    ensures a[..at] == old(a[..at]) && a[at + width..] == old(a[at + width..])
  {
    var v := n;
    var i := width;
    assert BigEndian(n, width) == BigEndian(v, i) + a[at + i..at + width];
    while i > 0
      invariant 0 <= i <= width
      invariant BigEndian(n, width) == BigEndian(v, i) + a[at + i..at + width]
      invariant a[..at] == old(a[..at]) && a[at + width..] == old(a[at + width..])
    {
      ghost var tail := a[at + i..at + width];
      i := i - 1;
      a[at + i] := (v % 256) as Byte;
      assert a[at + i..at + width] == [(v % 256) as Byte] + tail;
      assert BigEndian(v, i + 1) + tail == BigEndian(v / 256, i) + ([(v % 256) as Byte] + tail);
      v := v / 256;
    }
  }

  method MaskInto(payload: Bytes, key: Key) returns (masked: array<Byte>)
    ensures fresh(masked) && masked[..] == Masked(payload, key)
  {
    masked := new Byte[|payload|];
    for i := 0 to |payload|
      invariant forall j | 0 <= j < i :: masked[j] == payload[j] ^ key[j % 4]
    {
      masked[i] := payload[i] ^ key[i % 4];
    }
  }

  class WsConn {
    var input: Bytes
    var wire: Bytes
    var written: seq<Written>

    constructor (stream: Bytes)
      ensures input == stream && wire == [] && written == []
    {
      input, wire, written := stream, [], [];
    }

    /** The header of `writeFrame`, as a prefix of a 14-byte array. */
    method FillHeader(opcode: Byte, key: Key, length: nat) returns (header: array<Byte>, index: nat)
      requires opcode < 16 && length <= MAX_MESSAGE
      ensures fresh(header) && index <= header.Length
      ensures header[..index] ==
              [0x80 | opcode, 0x80 | LengthCode(length)] + ExtendedLength(length) + key
    {
      header := new Byte[14];
      header[0] := 0x80 | opcode;
      index := 2;
      if length < 126 {
        header[1] := 0x80 | (length as Byte);
        assert header[2..2] == ExtendedLength(length);
      } else if length <= 0xFFFF {
        header[1] := 0x80 | 126;
        PutBigEndian(header, 2, 2, length);
        index := 4;
      } else {
        header[1] := 0x80 | 127;
        PutBigEndian(header, 2, 8, length);
        index := 10;
      }
      assert header[..2] == [0x80 | opcode, 0x80 | LengthCode(length)];
      assert header[2..index] == ExtendedLength(length);
      ghost var done := header[..index];
      assert done == header[..2] + header[2..index];
      header[index], header[index + 1], header[index + 2], header[index + 3] := key[0], key[1], key[2], key[3];
      assert header[..index] == done;
      index := index + 4;
      assert header[..index] == done + key;
    }

    /** `writeFrame`: one masked frame in one write, refused when too large. */
    method WriteFrame(opcode: Byte, key: Key, payload: Bytes) returns (ok: bool)
      requires opcode < 16
      modifies this`wire, this`written
      ensures ok <==> |payload| <= MAX_MESSAGE
      ensures ok ==> wire == old(wire) + Encode(Frame(true, opcode, Some(key), payload))
      ensures written == if ok then old(written) + [(opcode, payload)] else old(written)
      ensures !ok ==> wire == old(wire)
    {
      if |payload| > MAX_MESSAGE {
        return false;
      }
      var header, index := FillHeader(opcode, key, |payload|);
      var masked := MaskInto(payload, key);
      ghost var frame := Frame(true, opcode, Some(key), payload);
      assert header[..index] + masked[..] == Encode(frame);
      wire := wire + (header[..index] + masked[..]);
      written := written + [(opcode, payload)];
      return true;
    }

    /** `readFrame`: every read is all-or-error; a frame once read is consumed. */
    method ReadFrame() returns (r: Read)
      modifies this`input
      ensures r == Decode(old(input))
      ensures r.Got? ==> input == r.rest
    {
      if |input| < 2 {
        return Eof;
      }
      var fin, opcode := input[0] & 0x80 != 0, input[0] & 0x0f;
      var masked, code := input[1] & 0x80 != 0, input[1] & 0x7f;
      var ext := ExtensionSize(code);
      if |input| < 2 + ext {
        return Eof;
      }
      var length := if ext == 0 then code as nat else FromBigEndian(input[2..2 + ext]);
      if length > MAX_MESSAGE {
        return FrameTooLarge;
      }
      var start := 2 + ext + if masked then 4 else 0;
      if |input| < start + length {
        return Eof;
      }
      var payload := input[start..start + length];
      if masked {
        var plain := MaskInto(payload, input[2 + ext..start]);
        payload := plain[..];
      }
      input := input[start + length..];
      return Got(opcode, fin, payload, input);
    }

    /** `readText`: gather fragments until a text message is complete, answering pings on the way. */
    method NextText() returns (r: TextRead)
      modifies this
      ensures r == ReadText(old(input), [], TEXT, false, old(written))
      ensures written == r.out
      ensures r.Message? ==> input == r.rest
    {
      var message: Bytes := [];
      var kind, open := TEXT, false;
      while true
        invariant ReadText(old(input), [], TEXT, false, old(written)) == ReadText(input, message, kind, open, written)
        decreases |input|
      {
        var f := ReadFrame();
        if !f.Got? {
          return Failed(written);
        }
        if f.opcode == PING {
          var key: Key := *;
          var _ := WriteFrame(PONG, key, f.payload);
        } else if f.opcode == PONG {
        } else if f.opcode == CLOSE {
          var key: Key := *;
          var _ := WriteFrame(CLOSE, key, []);
          return Closed(written);
        } else if f.opcode == TEXT || f.opcode == BINARY || f.opcode == CONTINUATION {
          if f.opcode != CONTINUATION || open {
            if f.opcode != CONTINUATION {
              message, kind, open := f.payload, f.opcode, true;
            } else {
              message := message + f.payload;
            }
            if |message| > MAX_MESSAGE {
              return MessageTooLarge(written);
            }
            if f.fin {
              if kind != BINARY {
                return Message(message, input, written);
              }
              open := false;
            }
          }
        } else {
          return BadOpcode(written);
        }
      }
    }
  }
}
