/** Bytes, and the facts about their bits. */
module Octets {

  type Byte = bv8

  lemma {:induction false} ByteOfInt(n: nat)
    requires n < 256
    ensures (n as Byte) as int == n
  {
    if n > 0 {
      ByteOfInt(n - 1);
      var b := (n - 1) as Byte;
      assert b as int == n - 1;
      assert b != 255;
      NextByte(b);
      assert (b + 1) as int == n;
    }
  }

  lemma NextByte(b: Byte)
    requires b != 255
    ensures (b + 1) as int == b as int + 1
  {
  }

  lemma ShortLengthBits(b: Byte)
    requires b <= 125
    ensures (0x80 | b) & 0x7F == b && (0x80 | b) & 0x80 != 0
  {
  }
}

/** How a client's WebSocket frame is laid out in bytes, and how it is read back. */
module WebSocket {
  import opened Text
  import opened Octets

  type Bytes = seq<Byte>

  const OPCODE_CONTINUATION: Byte := 0x0
  const OPCODE_TEXT: Byte := 0x1
  const OPCODE_BINARY: Byte := 0x2
  const OPCODE_CLOSE: Byte := 0x8
  const OPCODE_PING: Byte := 0x9
  const OPCODE_PONG: Byte := 0xA
  const RESERVED_BITS: Byte := 0x70
  const MASK_BYTES := 4
  const SHORT_LENGTH_LIMIT := 125
  const TWO_BYTE_LENGTH_LIMIT := 65535
  const TWO_BYTE_LENGTH_MARKER: Byte := 126
  const EIGHT_BYTE_LENGTH_MARKER: Byte := 127

  // ----- lengths, in network order -----

  function Power256(k: nat): (p: nat)
    ensures p > 0
  {
    if k == 0 then 1 else 256 * Power256(k - 1)
  }

  function Pack(n: nat, k: nat): (r: Bytes)
    ensures |r| == k
  {
    if k == 0 then [] else Pack(n / 256, k - 1) + [(n % 256) as Byte]
  }

  function Unpack(raw: Bytes): (n: nat) {
    if raw == [] then 0 else Unpack(raw[..|raw| - 1]) * 256 + raw[|raw| - 1] as int
  }

  lemma {:induction false} UnpackPack(n: nat, k: nat)
    requires n < Power256(k)
    ensures Unpack(Pack(n, k)) == n
  {
    if k == 0 {
    } else {
      UnpackPack(n / 256, k - 1);
      LastByte(Pack(n / 256, k - 1), n % 256);
    }
  }

  lemma LastByte(raw: Bytes, n: nat)
    requires n < 256
    ensures Unpack(raw + [n as Byte]) == Unpack(raw) * 256 + n
  {
    assert (raw + [n as Byte])[..|raw|] == raw;
    ByteOfInt(n);
  }

  lemma {:induction false} UnpackBound(raw: Bytes)
    ensures Unpack(raw) < Power256(|raw|)
  {
    if raw != [] {
      UnpackBound(raw[..|raw| - 1]);
    }
  }

  lemma Powers()
    ensures Power256(2) == 0x1_0000 && Power256(8) == 0x1_0000_0000_0000_0000
  {
  }

  // ----- the pieces of a frame -----

  datatype FramePrefix = FramePrefix(
    opcode: Byte, final: bool, masked: bool, reserved: bool, length: nat, extendedLengthBytes: nat)

  function ReadPrefix(first: Byte, second: Byte): FramePrefix {
    var length := second & 0x7F;
    var extended := if length == TWO_BYTE_LENGTH_MARKER then 2 else if length == EIGHT_BYTE_LENGTH_MARKER then 8 else 0;
    FramePrefix(first & 0x0F, first & 0x80 != 0, second & 0x80 != 0, first & RESERVED_BITS != 0,
                if extended == 0 then length as int else 0, extended)
  }

  /** Two or eight bytes; any other number of them is an error. */
  function ExtendedLength(raw: Bytes): Option<nat> {
    if |raw| == 2 || |raw| == 8 then Some(Unpack(raw)) else None
  }

  function Unmask(payload: Bytes, mask: Bytes): (r: Bytes)
    requires |mask| == MASK_BYTES
    ensures |r| == |payload|
    ensures forall i :: 0 <= i < |r| ==> r[i] == payload[i] ^ mask[i % MASK_BYTES]
  {
    seq(|payload|, i requires 0 <= i < |payload| => payload[i] ^ mask[i % MASK_BYTES])
  }

  /** The mask is its own inverse. */
  lemma UnmaskTwice(payload: Bytes, mask: Bytes)
    requires |mask| == MASK_BYTES
    ensures Unmask(Unmask(payload, mask), mask) == payload
  {
  }

  predicate Representable(length: nat) {
    length < 0x1_0000_0000_0000_0000
  }

  /** The second byte of the header, and the length bytes after it. */
  function LengthBytes(length: nat): Bytes
    requires Representable(length)
  {
    if length <= SHORT_LENGTH_LIMIT then [0x80 | (length as Byte)]
    else if length <= TWO_BYTE_LENGTH_LIMIT then [0x80 | TWO_BYTE_LENGTH_MARKER] + Pack(length, 2)
    else [0x80 | EIGHT_BYTE_LENGTH_MARKER] + Pack(length, 8)
  }

  function FrameOf(payload: Bytes, opcode: Byte, mask: Bytes): Bytes
    requires |mask| == MASK_BYTES && Representable(|payload|)
  {
    [0x80 | opcode] + LengthBytes(|payload|) + mask + Unmask(payload, mask)
  }

  /** The mask is the caller's, in place of random bytes; a length that eight bytes cannot hold
      is an error. */
  method ClientFrame(payload: Bytes, opcode: Byte, mask: Bytes) returns (frame: Option<Bytes>)
    requires |mask| == MASK_BYTES
    ensures frame == if Representable(|payload|) then Some(FrameOf(payload, opcode, mask)) else None
  {
    var length := |payload|;
    var header := [0x80 | opcode];
    if length <= SHORT_LENGTH_LIMIT {
      header := header + [0x80 | (length as Byte)];
    } else if length <= TWO_BYTE_LENGTH_LIMIT {
      header := header + [0x80 | TWO_BYTE_LENGTH_MARKER];
      header := header + Pack(length, 2);
    } else if Representable(length) {
      header := header + [0x80 | EIGHT_BYTE_LENGTH_MARKER];
      header := header + Pack(length, 8);
    } else {
      return None;
    }
    assert Representable(length);
    assert header == [0x80 | opcode] + LengthBytes(length);
    return Some(header + mask + Unmask(payload, mask));
  }

  // ----- reading frames -----

  datatype Frame = Frame(prefix: FramePrefix, payload: Bytes)

  datatype Reading = Short | Read(frame: Frame, rest: Bytes)

  /** What a read loop makes of the bytes so far: the two bytes, the length bytes that the
      prefix still owes, the mask if there is one, the payload. */
  function ReadFrame(s: Bytes): Reading {
    if |s| < 2 then Short
    else
      var prefix := ReadPrefix(s[0], s[1]);
      var owed := prefix.extendedLengthBytes;
      if |s| < 2 + owed then Short
      else
        var length := if owed == 0 then prefix.length else ExtendedLength(s[2..2 + owed]).value;
        ReadBody(prefix, length, s[2 + owed..])
  }

  function ReadBody(prefix: FramePrefix, length: nat, s: Bytes): Reading {
    var mask := if prefix.masked then MASK_BYTES else 0;
    if |s| < mask + length then Short
    else
      var payload := s[mask..mask + length];
      Read(Frame(prefix, if prefix.masked then Unmask(payload, s[..mask]) else payload), s[mask + length..])
  }

  lemma ReadFrameShrinks(s: Bytes)
    requires ReadFrame(s).Read?
    ensures |ReadFrame(s).rest| < |s|
  {
  }

  function ReadAll(s: Bytes): (Bytes, seq<Frame>)
    decreases |s|
  {
    match ReadFrame(s)
    case Short => (s, [])
    case Read(frame, rest) =>
      ReadFrameShrinks(s);
      var (left, frames) := ReadAll(rest);
      (left, [frame] + frames)
  }

  // ----- what is written is what is read -----

  /** How many length bytes follow the two, in the shortest form. */
  function ShortestForm(length: nat): nat {
    if length <= SHORT_LENGTH_LIMIT then 0 else if length <= TWO_BYTE_LENGTH_LIMIT then 2 else 8
  }

  /** What a client frame reads back as: final, masked, the opcode's four bits, unreserved
      unless the opcode had more, its length in the shortest form. */
  function ClientPrefix(opcode: Byte, length: nat): FramePrefix {
    var form := ShortestForm(length);
    FramePrefix(opcode & 0x0F, true, true, opcode & RESERVED_BITS != 0, if form == 0 then length else 0, form)
  }

  lemma FirstByte(opcode: Byte)
    ensures (0x80 | opcode) & 0x0F == opcode & 0x0F
    ensures (0x80 | opcode) & 0x80 != 0
    ensures (0x80 | opcode) & RESERVED_BITS == opcode & RESERVED_BITS
  {
  }

  lemma ShortLength(length: nat)
    requires length <= SHORT_LENGTH_LIMIT
    ensures var second := 0x80 | (length as Byte);
            && (second & 0x7F) as int == length && second & 0x80 != 0
            && second & 0x7F != TWO_BYTE_LENGTH_MARKER && second & 0x7F != EIGHT_BYTE_LENGTH_MARKER
  {
    ByteOfInt(length);
    ShortLengthBits(length as Byte);
  }

  lemma Markers()
    ensures (0x80 | TWO_BYTE_LENGTH_MARKER) & 0x7F == TWO_BYTE_LENGTH_MARKER
    ensures (0x80 | EIGHT_BYTE_LENGTH_MARKER) & 0x7F == EIGHT_BYTE_LENGTH_MARKER
    ensures (0x80 | TWO_BYTE_LENGTH_MARKER) & 0x80 != 0 && (0x80 | EIGHT_BYTE_LENGTH_MARKER) & 0x80 != 0
  {
  }

  lemma ReadsInParts(first: Byte, second: Byte, raw: Bytes, body: Bytes)
    requires |raw| == ReadPrefix(first, second).extendedLengthBytes
    ensures ReadFrame([first, second] + raw + body) ==
            ReadBody(ReadPrefix(first, second),
                     if raw == [] then ReadPrefix(first, second).length else Unpack(raw), body)
  {
  }

  /** The second byte says the length, or how many bytes say it. */
  lemma PrefixReadsBack(opcode: Byte, length: nat)
    requires Representable(length)
    ensures var bytes := LengthBytes(length);
            && ReadPrefix(0x80 | opcode, bytes[0]) == ClientPrefix(opcode, length)
            && |bytes| == 1 + ShortestForm(length)
            && (|bytes| > 1 ==> bytes[1..] == Pack(length, ShortestForm(length)))
  {
    FirstByte(opcode);
    if length <= SHORT_LENGTH_LIMIT {
      ShortLength(length);
    } else {
      Markers();
    }
  }

  /** The header comes back, and no byte of what follows it is touched. */
  lemma HeaderReadsBack(opcode: Byte, length: nat, body: Bytes)
    requires Representable(length)
    ensures ReadFrame([0x80 | opcode] + LengthBytes(length) + body) ==
            ReadBody(ClientPrefix(opcode, length), length, body)
  {
    var bytes := LengthBytes(length);
    PrefixReadsBack(opcode, length);
    ReadsInParts(0x80 | opcode, bytes[0], bytes[1..], body);
    assert [0x80 | opcode] + bytes + body == [0x80 | opcode, bytes[0]] + bytes[1..] + body;
    if |bytes| > 1 {
      PackedLength(length);
    }
  }

  lemma PackedLength(length: nat)
    requires Representable(length) && length > SHORT_LENGTH_LIMIT
    ensures Unpack(Pack(length, ShortestForm(length))) == length
  {
    Powers();
    UnpackPack(length, ShortestForm(length));
  }

  lemma BodyReadsBack(prefix: FramePrefix, payload: Bytes, mask: Bytes, rest: Bytes)
    requires prefix.masked && |mask| == MASK_BYTES
    ensures ReadBody(prefix, |payload|, mask + Unmask(payload, mask) + rest) == Read(Frame(prefix, payload), rest)
  {
  }

  /** A client frame, whatever follows it, is read back whole, and exactly it is consumed. */
  lemma FrameReadsBack(payload: Bytes, opcode: Byte, mask: Bytes, rest: Bytes)
    requires |mask| == MASK_BYTES && Representable(|payload|)
    ensures ReadFrame(FrameOf(payload, opcode, mask) + rest) ==
            Read(Frame(ClientPrefix(opcode, |payload|), payload), rest)
  {
    var body := mask + Unmask(payload, mask) + rest;
    assert FrameOf(payload, opcode, mask) + rest == [0x80 | opcode] + LengthBytes(|payload|) + body;
    HeaderReadsBack(opcode, |payload|, body);
    BodyReadsBack(ClientPrefix(opcode, |payload|), payload, mask, rest);
  }

  /** The opcode survives exactly when it has four bits. */
  lemma OpcodeSurvives(opcode: Byte, length: nat)
    ensures (ClientPrefix(opcode, length).opcode == opcode) <==> opcode < 16
    ensures opcode < 16 ==> !ClientPrefix(opcode, length).reserved
  {
  }

  /** No shorter form could have said the length. */
  lemma FormIsShortest(first: Byte, second: Byte, raw: Bytes)
    requires var prefix := ReadPrefix(first, second); |raw| == prefix.extendedLengthBytes
    ensures var length := if raw == [] then ReadPrefix(first, second).length else Unpack(raw);
            ShortestForm(length) <= |raw|
  {
    if |raw| == 2 {
      UnpackBound(raw);
      Powers();
    } else if raw == [] {
      SevenBits(second);
    }
  }

  lemma SevenBits(second: Byte)
    requires second & 0x7F != TWO_BYTE_LENGTH_MARKER && second & 0x7F != EIGHT_BYTE_LENGTH_MARKER
    ensures (second & 0x7F) as int <= SHORT_LENGTH_LIMIT
  {
  }

  // ----- whole streams of frames -----

  datatype Sent = Sent(opcode: Byte, payload: Bytes, mask: Bytes)

  predicate Sendable(f: Sent) {
    |f.mask| == MASK_BYTES && Representable(|f.payload|) && f.opcode < 16
  }

  predicate AllSendable(frames: seq<Sent>) {
    forall i :: 0 <= i < |frames| ==> Sendable(frames[i])
  }

  function Written(frames: seq<Sent>): Bytes
    requires AllSendable(frames)
  {
    if frames == [] then []
    else FrameOf(frames[0].payload, frames[0].opcode, frames[0].mask) + Written(frames[1..])
  }

  function AsRead(f: Sent): Frame {
    var form := ShortestForm(|f.payload|);
    Frame(FramePrefix(f.opcode, true, true, false, if form == 0 then |f.payload| else 0, form), f.payload)
  }

  function AllAsRead(frames: seq<Sent>): (r: seq<Frame>)
    ensures |r| == |frames|
    ensures forall i :: 0 <= i < |r| ==> r[i] == AsRead(frames[i])
  {
    if frames == [] then [] else [AsRead(frames[0])] + AllAsRead(frames[1..])
  }

  /** Any list of client frames, whatever their masks, comes back as that list: every opcode,
      every payload, each frame final, masked, unreserved and in its shortest form, with no
      byte left over. */
  lemma {:induction false} StreamReadsBack(frames: seq<Sent>)
    requires AllSendable(frames)
    ensures ReadAll(Written(frames)) == ([], AllAsRead(frames))
    decreases |frames|
  {
    if frames == [] {
    } else {
      var f := frames[0];
      FrameReadsBack(f.payload, f.opcode, f.mask, Written(frames[1..]));
      OpcodeSurvives(f.opcode, |f.payload|);
      StreamReadsBack(frames[1..]);
    }
  }

  // ----- a frame cut short -----

  lemma BodyThenMore(prefix: FramePrefix, length: nat, s: Bytes, more: Bytes)
    requires ReadBody(prefix, length, s).Read?
    ensures ReadBody(prefix, length, s + more) ==
            Read(ReadBody(prefix, length, s).frame, ReadBody(prefix, length, s).rest + more)
  {
    var mask := if prefix.masked then MASK_BYTES else 0;
    SlicesOfMore(s, more, mask, mask + length);
  }

  lemma SlicesOfMore(s: Bytes, more: Bytes, i: nat, j: nat)
    requires i <= j <= |s|
    ensures (s + more)[..i] == s[..i] && (s + more)[i..j] == s[i..j] && (s + more)[j..] == s[j..] + more
  {
  }

  /** More bytes never change a frame that was already whole. */
  lemma ReadThenMore(s: Bytes, more: Bytes)
    requires ReadFrame(s).Read?
    ensures ReadFrame(s + more) == Read(ReadFrame(s).frame, ReadFrame(s).rest + more)
  {
    var owed := ReadPrefix(s[0], s[1]).extendedLengthBytes;
    var raw, body := s[2..2 + owed], s[2 + owed..];
    assert s == [s[0], s[1]] + raw + body && s + more == [s[0], s[1]] + raw + (body + more);
    ReadsInParts(s[0], s[1], raw, body);
    ReadsInParts(s[0], s[1], raw, body + more);
    BodyThenMore(ReadPrefix(s[0], s[1]), if raw == [] then ReadPrefix(s[0], s[1]).length else Unpack(raw), body, more);
  }

  /** A client frame cut anywhere short of its end is never taken for a frame. */
  lemma CutFrameIsShort(payload: Bytes, opcode: Byte, mask: Bytes, k: nat)
    requires |mask| == MASK_BYTES && Representable(|payload|) && k < |FrameOf(payload, opcode, mask)|
    ensures ReadFrame(FrameOf(payload, opcode, mask)[..k]).Short?
  {
    var frame := FrameOf(payload, opcode, mask);
    FrameReadsBack(payload, opcode, mask, []);
    assert frame + [] == frame && frame[..k] + frame[k..] == frame;
    if ReadFrame(frame[..k]).Read? {
      ReadThenMore(frame[..k], frame[k..]);
    }
  }
}
