/** The bytes of a frame in the numbers of RFC 6455, sections 5.2, 5.3 and 11.8, beside the names
    and the bit operations that make and read them. */
module WireLayout {
  import opened Text
  import opened Octets
  import opened WebSocket
  import opened Reassembly

  // ----- what is written -----

  /** How many bytes stand before the mask. */
  function HeaderSize(length: nat): nat {
    if length < 126 then 2 else if length < 65536 then 4 else 10
  }

  /** The number that bytes stand for, the most significant first. */
  function TwoBytes(b: Bytes): nat
    requires |b| == 2
  {
    b[0] as int * 256 + b[1] as int
  }

  function EightBytes(b: Bytes): nat
    requires |b| == 8
  {
    ((((((b[0] as int * 256 + b[1] as int) * 256 + b[2] as int) * 256 + b[3] as int) * 256 + b[4] as int) * 256
      + b[5] as int) * 256 + b[6] as int) * 256 + b[7] as int
  }

  lemma TwoAreUnpacked(b: Bytes)
    requires |b| == 2
    ensures Unpack(b) == TwoBytes(b)
  {
    assert b[..1][..0] == [];
    assert Unpack(b[..1]) == b[0] as int;
  }

  lemma FourAreUnpacked(b: Bytes)
    requires |b| == 4
    ensures Unpack(b) == ((b[0] as int * 256 + b[1] as int) * 256 + b[2] as int) * 256 + b[3] as int
  {
    TwoAreUnpacked(b[..2]);
    assert b[..3][..2] == b[..2];
    assert Unpack(b[..3]) == Unpack(b[..2]) * 256 + b[2] as int;
  }

  lemma SixAreUnpacked(b: Bytes)
    requires |b| == 6
    ensures Unpack(b) == (((((b[0] as int * 256 + b[1] as int) * 256 + b[2] as int) * 256 + b[3] as int) * 256
                           + b[4] as int) * 256 + b[5] as int)
  {
    FourAreUnpacked(b[..4]);
    assert b[..5][..4] == b[..4];
    assert Unpack(b[..5]) == Unpack(b[..4]) * 256 + b[4] as int;
  }

  lemma EightAreUnpacked(b: Bytes)
    requires |b| == 8
    ensures Unpack(b) == EightBytes(b)
  {
    SixAreUnpacked(b[..6]);
    assert b[..7][..6] == b[..6];
    assert Unpack(b[..7]) == Unpack(b[..6]) * 256 + b[6] as int;
  }

  lemma HighBit(b: Byte)
    requires b < 128
    ensures 0x80 | b == 128 + b && (128 + b) as int == 128 + b as int
  {
  }

  /** The second byte, and the length in the bytes after it where it does not fit. */
  predicate SaysLength(header: Bytes, length: nat)
    requires |header| == HeaderSize(length)
  {
    if length < 126 then header[1] as int == 128 + length
    else if length < 65536 then header[1] == 254 && TwoBytes(header[2..4]) == length
    else header[1] == 255 && EightBytes(header[2..10]) == length
  }

  lemma LengthLayout(first: Byte, length: nat, header: Bytes)
    requires Representable(length) && header == [first] + LengthBytes(length)
    ensures |header| == HeaderSize(length) && SaysLength(header, length)
  {
    if length < 126 {
      ByteOfInt(length);
      HighBit(length as Byte);
    } else if length < 65536 {
      PackedLength(length);
      assert header[2..4] == Pack(length, 2);
      TwoAreUnpacked(header[2..4]);
    } else {
      PackedLength(length);
      assert header[2..10] == Pack(length, 8);
      EightAreUnpacked(header[2..10]);
    }
  }

  /** A client frame: its first byte 128 and the opcode, its length in the shortest form with 128
      for the mask, the mask, and the payload under it. */
  lemma ClientLayout(payload: Bytes, opcode: Byte, mask: Bytes)
    requires |mask| == 4 && Representable(|payload|) && opcode < 16
    ensures var frame := FrameOf(payload, opcode, mask); var h := HeaderSize(|payload|);
            && |frame| == h + 4 + |payload|
            && frame[0] == 128 + opcode && SaysLength(frame[..h], |payload|)
            && frame[h..h + 4] == mask
            && forall i :: 0 <= i < |payload| ==> frame[h + 4 + i] == payload[i] ^ mask[i % 4]
  {
    var frame := FrameOf(payload, opcode, mask);
    var header := [0x80 | opcode] + LengthBytes(|payload|);
    LengthLayout(0x80 | opcode, |payload|, header);
    assert frame == header + mask + Unmask(payload, mask);
    assert frame[..|header|] == header;
    HighBit(opcode);
  }

  // ----- what is read -----

  lemma Bits(b: Byte)
    ensures b & 0x0F == b % 16 && b & 0x7F == b % 128
    ensures b & 0x80 != 0 <==> b >= 128
    ensures b & 0x70 != 0 <==> b % 128 >= 16
  {
  }

  /** The two bytes every frame starts with, and the length bytes still owed. */
  lemma PrefixLayout(first: Byte, second: Byte)
    ensures var prefix := ReadPrefix(first, second);
            && prefix.opcode == first % 16 && (prefix.final <==> first >= 128)
            && (prefix.reserved <==> first % 128 >= 16) && (prefix.masked <==> second >= 128)
            && (second % 128 < 126 ==> prefix.length == (second % 128) as int && prefix.extendedLengthBytes == 0)
            && (second % 128 == 126 ==> prefix.extendedLengthBytes == 2 && prefix.length == 0)
            && (second % 128 == 127 ==> prefix.extendedLengthBytes == 8 && prefix.length == 0)
  {
    Bits(first);
    Bits(second);
  }

  /** Two or eight bytes say a length in network order. */
  lemma ExtendedLayout(raw: Bytes)
    ensures |raw| == 2 ==> ExtendedLength(raw) == Some(TwoBytes(raw))
    ensures |raw| == 8 ==> ExtendedLength(raw) == Some(EightBytes(raw))
  {
    if |raw| == 2 {
      TwoAreUnpacked(raw);
    } else if |raw| == 8 {
      EightAreUnpacked(raw);
    }
  }

  // ----- what the opcodes mean -----

  /** 1 and 2 begin a message, 0 goes on with one. */
  predicate MayCarry(started: bool, opcode: Byte) {
    if started then opcode == 0 else opcode == 1 || opcode == 2
  }

  /** 8 closes, 9 asks for a pong and 10 is one; what carries the message is gathered, and any
      other frame is refused. */
  lemma OpcodesMean(g: Gathering, limit: int, f: Incoming)
    requires Arrived(f)
    ensures var (after, step) := Took(g, limit, f);
            if f.opcode == 8 then after == g && step == Refused(ClosedTheWebSocket)
            else if f.opcode == 9 then
              && after == g && step.message == None && step.refuse == None && step.pongWith.Some?
              && step.pongWith.value != [] && step.pongWith.value[0] == 138
            else if f.opcode == 10 then after == g && step == MORE
            else if MayCarry(g.started, f.opcode) then
              && after == Gathering(g.fragments + f.payload, true) && step.pongWith == None
              && (step.refuse == Some(PastTheLimit) <==> |g.fragments| + |f.payload| > limit)
              && (step.message.Some? <==> f.final && step.refuse == None)
            else after == g && step == Refused(UnexpectedOpcode(f.opcode))
  {
    if f.opcode == 9 {
      ClientLayout(f.payload, 10, f.mask);
    }
  }
}
