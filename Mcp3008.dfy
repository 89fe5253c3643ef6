/** Facts about single bytes used by the frame codec. */
module Bytes {

  type Byte = bv8

  /** Converting a value below 256 to a byte and back gives the value. */
  lemma ByteValue(x: int)
    requires 0 <= x < 256
    ensures (x as Byte) as int == x
  {
  }

  /** An integer equal to a byte's value converts back to that byte. */
  lemma ByteFromValue(x: int, b: Byte)
    requires x == b as int
    ensures x as Byte == b
  {
  }

  /** A byte is its bits 7..2 together with its bits 1..0. */
  lemma ByteSplit(b: Byte)
    ensures (b & 0xFC) | (b & 3) == b
  {
  }

  /** Or-ing a value below 4 into a byte whose two low bits are clear keeps
      that value in the low bits. */
  lemma HighBitsKept(junk: Byte, h: Byte)
    requires h <= 3
    ensures ((junk & 0xFC) | h) & 3 == h
  {
  }
}

/**
 * The three-byte SPI exchange with the MCP3008 analog-to-digital converter
 * performed by get_a2d_val: the request frame the host clocks out, the
 * in-place overwrite of the buffer by the full-duplex transfer, and the
 * merge of the reply into a 10-bit count.
 */
module Mcp3008 {

  import Bytes

  type Byte = Bytes.Byte

  datatype Option<T> = None | Some(value: T)

  /** Byte 0 of a request: seven leading zeros, then the start bit. */
  const START: Byte := 0x01
  /** Bit 7 of byte 1: the SGL/DIFF bit, set for a single-ended conversion. */
  const SINGLE_ENDED: Byte := 0x80
  /** The largest count a 10-bit conversion can produce. */
  const MAX_COUNT: int := 1023

  /** The channel number D2..D0. C's `Channel & 7` on a two's-complement int
      keeps the residue modulo 8, which is Dafny's Euclidean `%`. */
  function ChannelBits(channel: int): (d: int)
    ensures 0 <= d < 8
    ensures (channel - d) % 8 == 0
  {
    channel % 8
  }

  /** The request get_a2d_val writes into its buffer before the transfer. */
  function RequestFrame(channel: int): (tx: seq<Byte>)
    ensures |tx| == 3
  {
    [START, SINGLE_ENDED | ((ChannelBits(channel) as Byte) << 4), 0]
  }

  /** What the converter reads from a request: the configuration bits that
      follow the start bit. The low nibble of byte 1 and byte 2 are clocked
      while the conversion runs and carry no meaning for the device. */
  datatype Request = Request(singleEnded: bool, channel: int)

  function ParseRequest(tx: seq<Byte>): (r: Option<Request>)
    ensures r.Some? ==> |tx| == 3 && tx[0] == START
    ensures r.Some? ==> 0 <= r.value.channel < 8
  {
    if |tx| != 3 || tx[0] != START then None
    else Some(Request(tx[1] & SINGLE_ENDED != 0, ((tx[1] >> 4) & 7) as int))
  }

  /** The request frame has the start bit alone in byte 0, bit 7 of byte 1
      set, the channel modulo 8 in bits 6..4, bits 3..0 clear and byte 2 zero. */
  lemma RequestLayout(channel: int)
    ensures RequestFrame(channel)[0] == 1 && RequestFrame(channel)[2] == 0
    ensures RequestFrame(channel)[1] & 0x80 == 0x80
    ensures ((RequestFrame(channel)[1] >> 4) & 7) as int == channel % 8
    ensures RequestFrame(channel)[1] & 0x0F == 0
  {
    var d := ChannelBits(channel);
    assert d == 0 || d == 1 || d == 2 || d == 3 || d == 4 || d == 5 || d == 6 || d == 7;
  }

  /** Channels that agree modulo 8 produce the same frame. */
  lemma RequestAliasing(channel: int)
    ensures RequestFrame(channel + 8) == RequestFrame(channel)
  {
    assert ChannelBits(channel + 8) == ChannelBits(channel);
  }

  /** The converter reads back a single-ended conversion of channel mod 8. */
  lemma RequestRoundTrip(channel: int)
    ensures ParseRequest(RequestFrame(channel)) == Some(Request(true, channel % 8))
  {
    RequestLayout(channel);
  }

  /** Conversely, every single-ended request whose meaningless bits are clear
      is the frame get_a2d_val builds for its channel. */
  lemma RequestFrameUnique(tx: seq<Byte>)
    requires ParseRequest(tx).Some? && ParseRequest(tx).value.singleEnded
    requires tx[1] & 0x0F == 0 && tx[2] == 0
    ensures RequestFrame(ParseRequest(tx).value.channel) == tx
  {
    var c := ParseRequest(tx).value.channel;
    RequestLayout(c);
    var b := tx[1];
    assert b & 0x80 == 0x80;
    assert ((b >> 4) & 7) as int == c;
    assert b == 0x80 | (((b >> 4) & 7) << 4);
    assert RequestFrame(c)[1] == b;
  }

  /** The count get_a2d_val merges from the reply: bits 1..0 of byte 1 become
      bits 9..8, byte 2 gives bits 7..0; everything else is discarded. */
  function DecodeResponse(rx: seq<Byte>): (count: int)
    requires |rx| == 3
    ensures 0 <= count <= MAX_COUNT
  {
    var merged: bv32 := (((rx[1] as bv32) << 8) & 0x300) | ((rx[2] as bv32) & 0xFF);
    assert merged <= 0x3FF;
    merged as int
  }

  /** A reply carrying `count`, with arbitrary bits where the converter sends
      nothing meaningful (byte 0 and bits 7..2 of byte 1). */
  function EncodeResponse(count: int, junk0: Byte, junk1: Byte): (rx: seq<Byte>)
    requires 0 <= count <= MAX_COUNT
    ensures |rx| == 3
  {
    [junk0, (junk1 & 0xFC) | ((count / 256) as Byte), (count % 256) as Byte]
  }

  /** The decoded count as arithmetic on the two meaningful fields. */
  lemma DecodeValue(rx: seq<Byte>)
    requires |rx| == 3
    ensures DecodeResponse(rx) == ((rx[1] & 3) as int) * 256 + rx[2] as int
  {
    var hi := rx[1] & 3;
    var merged: bv32 := (((rx[1] as bv32) << 8) & 0x300) | ((rx[2] as bv32) & 0xFF);
    assert merged == (hi as bv32) * 256 + rx[2] as bv32;
    assert hi as bv32 as int == hi as int;
  }

  /** Byte 0 and bits 7..2 of byte 1 do not affect the count. */
  lemma DecodeIgnoresJunk(rx: seq<Byte>, rx': seq<Byte>)
    requires |rx| == 3 && |rx'| == 3
    requires rx[1] & 3 == rx'[1] & 3 && rx[2] == rx'[2]
    ensures DecodeResponse(rx) == DecodeResponse(rx')
  {
    DecodeValue(rx);
    DecodeValue(rx');
  }

  /** Every 10-bit count survives the trip through a reply, whatever the junk. */
  lemma DecodeEncode(count: int, junk0: Byte, junk1: Byte)
    requires 0 <= count <= MAX_COUNT
    ensures DecodeResponse(EncodeResponse(count, junk0, junk1)) == count
  {
    var rx := EncodeResponse(count, junk0, junk1);
    DecodeValue(rx);
    var hi, lo := count / 256, count % 256;
    Bytes.ByteValue(hi);
    Bytes.ByteValue(lo);
    Bytes.HighBitsKept(junk1, hi as Byte);
  }

  /** Every reply is the encoding of its own count with its own junk bits. */
  lemma EncodeDecode(rx: seq<Byte>)
    requires |rx| == 3
    ensures EncodeResponse(DecodeResponse(rx), rx[0], rx[1]) == rx
  {
    DecodeValue(rx);
    EncodeFields(rx, DecodeResponse(rx));
  }

  /** Encoding the count held in a reply's meaningful bits, with the reply's
      own junk bits, rebuilds the reply. */
  lemma EncodeFields(rx: seq<Byte>, count: int)
    requires |rx| == 3
    requires count == ((rx[1] & 3) as int) * 256 + rx[2] as int
    ensures 0 <= count <= MAX_COUNT
    ensures EncodeResponse(count, rx[0], rx[1]) == rx
  {
    CountHighByte(rx[1], rx[2], count);
    CountLowByte(rx[1], rx[2], count);
    Bytes.ByteSplit(rx[1]);
  }

  /** A count made of bits 1..0 of byte 1 and byte 2 gives back bits 1..0
      as its high byte. */
  lemma CountHighByte(b1: Byte, b2: Byte, count: int)
    requires count == ((b1 & 3) as int) * 256 + b2 as int
    ensures (count / 256) as Byte == b1 & 3
  {
    CountFields((b1 & 3) as int, b2 as int);
    Bytes.ByteFromValue(count / 256, b1 & 3);
  }

  /** A count made of bits 1..0 of byte 1 and byte 2 gives back byte 2 as
      its low byte. */
  lemma CountLowByte(b1: Byte, b2: Byte, count: int)
    requires count == ((b1 & 3) as int) * 256 + b2 as int
    ensures (count % 256) as Byte == b2
  {
    CountFields((b1 & 3) as int, b2 as int);
    Bytes.ByteFromValue(count % 256, b2);
  }

  /** A count written as hi * 256 + lo, with lo below 256, splits back into
      hi and lo. */
  lemma CountFields(hi: int, lo: int)
    requires 0 <= hi && 0 <= lo < 256
    ensures (hi * 256 + lo) / 256 == hi && (hi * 256 + lo) % 256 == lo
  {
  }

  /** mcp3008Spi::spiWriteRead: each byte of the buffer is clocked out and
      replaced by the byte clocked in at the same time. The converter's
      answer is the parameter `reply`. */
  method SpiWriteRead(data: array<Byte>, reply: seq<Byte>) returns (sent: seq<Byte>)
    requires data.Length == |reply|
    modifies data
    ensures sent == old(data[..])
    ensures data[..] == reply
  {
    sent := data[..];
    for i := 0 to data.Length
      invariant data[..i] == reply[..i]
      invariant data[i..] == sent[i..]
    {
      data[i] := reply[i];
    }
  }

  /** get_a2d_val: build the request for `channel` in a three-byte buffer,
      exchange it in place, and merge the reply into the count. Returns the
      count and the bytes that went out on the bus. */
  method GetA2dVal(channel: int, reply: seq<Byte>) returns (count: int, sent: seq<Byte>)
    requires |reply| == 3
    ensures sent == RequestFrame(channel)
    ensures ParseRequest(sent) == Some(Request(true, channel % 8))
    ensures count == DecodeResponse(reply)
    ensures 0 <= count <= MAX_COUNT
    ensures reply == EncodeResponse(count, reply[0], reply[1])
  {
    var data := new Byte[3];
    data[0] := START;
    data[1] := SINGLE_ENDED | ((ChannelBits(channel) as Byte) << 4);
    data[2] := 0;
    sent := SpiWriteRead(data, reply);
    var merged: bv32 := ((data[1] as bv32) << 8) & 0x300;
    merged := merged | ((data[2] as bv32) & 0xFF);
    count := merged as int;
    RequestRoundTrip(channel);
    EncodeDecode(reply);
  }
}
