/** The admin message in memory and on the System V queue: allocation, framing, parsing and the
    deallocation check, over byte buffers of a little-endian machine with 8-byte longs. */
module AdminMessages {
  import opened QueueMachine

  type byte = x: int | 0 <= x < 256

  const PREAMBLE: nat := 16
  const MSGNO_SIZE: nat := 4
  const ENDPOINT: byte := 0xAA
  const LONG: nat := 8
  const ID_DEFAULT: nat := 0xFFFF_FFFF
  const FLAG_DEFAULT: nat := 0
  const TX_MSGNO: nat := 1

  /** `size` counts the message number and the payload. */
  datatype Message = Message(sender: nat, receiver: nat, flags: nat, size: nat, msgno: nat, payload: seq<byte>, endpoint: byte)

  datatype Option<+T> = None | Some(value: T)

  // ---------------------------------------------------------------- layout

  function U32(w: nat): (s: seq<byte>)
    requires w < WORD
    ensures |s| == 4
  {
    [w % 256, w / 0x100 % 256, w / 0x1_0000 % 256, w / 0x100_0000]
  }

  function Get32(s: seq<byte>, at: nat): (w: nat)
    requires at + 4 <= |s|
    ensures w < WORD
  {
    (s[at] as int) + 0x100 * (s[at + 1] as int) + 0x1_0000 * (s[at + 2] as int) + 0x100_0000 * (s[at + 3] as int)
  }

  lemma Get32OfU32(w: nat, a: seq<byte>, b: seq<byte>)
    requires w < WORD
    ensures Get32(a + U32(w) + b, |a|) == w
  {
    var s := a + U32(w) + b;
    assert s[|a|] == U32(w)[0] && s[|a| + 1] == U32(w)[1] && s[|a| + 2] == U32(w)[2] && s[|a| + 3] == U32(w)[3];
    BytesOf(w);
  }

  lemma BytesOf(w: nat)
    ensures w % 256 + 0x100 * (w / 0x100 % 256) + 0x1_0000 * (w / 0x1_0000 % 256) + 0x100_0000 * (w / 0x100_0000) == w
  {
    assert w / 0x1_0000 == w / 0x100 / 0x100 && w / 0x100_0000 == w / 0x100 / 0x100 / 0x100;
  }

  predicate Fits(m: Message) {
    && m.sender < WORD && m.receiver < WORD && m.flags < WORD && m.msgno < WORD
    && m.size == MSGNO_SIZE + |m.payload| < WORD
  }

  function Encode(m: Message): (s: seq<byte>)
    requires Fits(m)
    ensures |s| == PREAMBLE + m.size + 1
  {
    U32(m.sender) + U32(m.receiver) + U32(m.flags) + U32(m.size) + U32(m.msgno) + m.payload + [m.endpoint]
  }

  function SizeField(s: seq<byte>): nat
    requires |s| >= PREAMBLE
  {
    Get32(s, 12)
  }

  lemma SizeOfEncoded(m: Message)
    requires Fits(m)
    ensures SizeField(Encode(m)) == m.size
    ensures Encode(m)[PREAMBLE + m.size] == m.endpoint
    ensures Get32(Encode(m), 8) == m.flags
  {
    var front := U32(m.sender) + U32(m.receiver) + U32(m.flags);
    var back := U32(m.msgno) + m.payload + [m.endpoint];
    assert Encode(m) == front + U32(m.size) + back;
    Get32OfU32(m.size, front, back);
    var head := U32(m.sender) + U32(m.receiver);
    assert Encode(m) == head + U32(m.flags) + (U32(m.size) + back);
    Get32OfU32(m.flags, head, U32(m.size) + back);
  }

  /** What `deallocate` accepts. */
  predicate Deallocatable(s: seq<byte>)
    requires |s| >= PREAMBLE && PREAMBLE + SizeField(s) < |s|
  {
    Get32(s, 8) % 2 == 0 && s[PREAMBLE + SizeField(s)] == ENDPOINT
  }

  // ---------------------------------------------------------------- framing and parsing

  const TxHeader: seq<byte> := U32(TX_MSGNO) + U32(0)

  /** What `send` makes of a message: the buffer for msgsnd, an allocation that throws, or a
      buffer too small for the long that is stored into it. */
  datatype Framing = Framed(bytes: seq<byte>) | Throws | Overruns

  /** The byte count is an int32_t. A negative one below -8 asks for almost 2^64 bytes; from -8
      on the buffer gets `8 + size` bytes, fewer than the message type occupies. */
  function Frame(s: seq<byte>): Framing
    requires |s| >= PREAMBLE && Signed(Word(PREAMBLE + SizeField(s) + 1)) <= |s|
  {
    var size := Signed(Word(PREAMBLE + SizeField(s) + 1));
    if size + LONG < 0 then Throws
    else if size < 0 then Overruns
    else Framed(TxHeader + s[..size])
  }

  /** The buffer has room for a header, and the size in it, which is read before the length is
      checked, is one that `parseAndForwardMessage` can handle: large enough for a message
      number and without 32-bit wrap-around. */
  predicate Readable(rx: seq<byte>, length: nat) {
    && LONG <= length <= |rx| && LONG + PREAMBLE <= |rx|
    && MSGNO_SIZE <= Get32(rx, LONG + 12) && PREAMBLE + Get32(rx, LONG + 12) + 1 < WORD
  }

  /** The forwarded message: the bytes received with the flags reset. */
  function Parse(rx: seq<byte>, length: nat): (r: Option<seq<byte>>)
    requires Readable(rx, length)
    ensures r.Some? ==> |r.value| == PREAMBLE + Get32(rx, LONG + 12) + 1
  {
    var size := Get32(rx, LONG + 12);
    if Get32(rx, 0) != TX_MSGNO || Get32(rx, 4) != 0 then None
    else if length - LONG < PREAMBLE + size + 1 then None
    else if rx[LONG + PREAMBLE + size] != ENDPOINT then None
    else
      var msg := rx[LONG..LONG + PREAMBLE + size + 1];
      Some(msg[..8] + U32(FLAG_DEFAULT) + msg[12..])
  }

  lemma FrameHeader(s: seq<byte>, rx: seq<byte>)
    requires rx == TxHeader + s
    ensures Get32(rx, 0) == TX_MSGNO && Get32(rx, 4) == 0
    ensures forall at: nat :: at + 4 <= |s| ==> Get32(rx, LONG + at) == Get32(s, at)
    ensures rx[LONG..] == s
  {
    assert rx == [] + U32(TX_MSGNO) + (U32(0) + s);
    Get32OfU32(TX_MSGNO, [], U32(0) + s);
    assert rx == U32(TX_MSGNO) + U32(0) + s;
    Get32OfU32(0, U32(TX_MSGNO), s);
  }

  /** What the parser makes of a framed message. */
  lemma FrameParses(m: Message, s: seq<byte>, tx: seq<byte>)
    requires Fits(m) && m.endpoint == ENDPOINT && PREAMBLE + m.size + 1 < WORD
    requires s == Encode(m) && tx == TxHeader + s
    ensures Readable(tx, |tx|) && Parse(tx, |tx|) == Some(s[..8] + U32(FLAG_DEFAULT) + s[12..])
  {
    SizeOfEncoded(m);
    FrameHeader(s, tx);
    assert tx[LONG + PREAMBLE + m.size] == s[PREAMBLE + m.size];
    assert tx[LONG..LONG + PREAMBLE + m.size + 1] == s;
  }

  lemma FramedBytes(s: seq<byte>)
    requires |s| >= PREAMBLE && |s| == PREAMBLE + SizeField(s) + 1 < WORD
    ensures Frame(s) == if |s| < HALF then Framed(TxHeader + s) else if |s| < WORD - LONG then Throws else Overruns
  {
    assert s[..|s|] == s;
  }

  lemma FlagsReset(m: Message)
    requires Fits(m)
    ensures Encode(m)[..8] + U32(FLAG_DEFAULT) + Encode(m)[12..] == Encode(m.(flags := FLAG_DEFAULT))
  {
  }

  /** Sending fails exactly for messages of 2^31 bytes and more; every other message with a
      sound endpoint arrives as it was sent, payload and all, except that its flags are reset,
      and the receiver can deallocate it. */
  lemma FrameRoundTrip(m: Message)
    requires Fits(m) && m.endpoint == ENDPOINT && PREAMBLE + m.size + 1 < WORD
    ensures SizeField(Encode(m)) == m.size
    ensures Frame(Encode(m)).Throws? <==> HALF <= PREAMBLE + m.size + 1 < WORD - LONG
    ensures Frame(Encode(m)).Overruns? <==> WORD - LONG <= PREAMBLE + m.size + 1
    ensures PREAMBLE + m.size + 1 < HALF ==>
              var tx := Frame(Encode(m)).bytes;
              && |tx| == LONG + PREAMBLE + m.size + 1 && Readable(tx, |tx|)
              && Parse(tx, |tx|) == Some(Encode(m.(flags := FLAG_DEFAULT)))
  {
    var s := Encode(m);
    SizeOfEncoded(m);
    FramedBytes(s);
    FrameParses(m, s, TxHeader + s);
    FlagsReset(m);
  }

  /** Whatever the parser accepts, `deallocate` accepts later. */
  lemma ParsedDeallocates(rx: seq<byte>, length: nat)
    requires Readable(rx, length) && Parse(rx, length).Some?
    ensures var s := Parse(rx, length).value;
            && |s| >= PREAMBLE && SizeField(s) == Get32(rx, LONG + 12) && PREAMBLE + SizeField(s) < |s|
            && Deallocatable(s)
  {
    var size := Get32(rx, LONG + 12);
    var msg := rx[LONG..LONG + PREAMBLE + size + 1];
    var s := msg[..8] + U32(FLAG_DEFAULT) + msg[12..];
    Get32OfU32(FLAG_DEFAULT, msg[..8], msg[12..]);
    assert s[12] == rx[20] && s[13] == rx[21] && s[14] == rx[22] && s[15] == rx[23];
    assert s[PREAMBLE + size] == rx[LONG + PREAMBLE + size];
  }

  /** A frame cut short anywhere behind the message type, or with its endpoint byte changed, is
      rejected; `rest` is what the buffer holds behind the frame. */
  lemma DamagedFrameRejected(m: Message, length: nat, endpoint: byte, rest: seq<byte>)
    requires Fits(m) && m.endpoint == ENDPOINT && PREAMBLE + m.size + 1 < HALF
    requires LONG <= length <= LONG + PREAMBLE + m.size + 1
    requires length < LONG + PREAMBLE + m.size + 1 || endpoint != ENDPOINT
    ensures var rx := TxHeader + (Encode(m.(endpoint := endpoint)) + rest);
            Readable(rx, length) && Parse(rx, length).None?
  {
    var s := Encode(m.(endpoint := endpoint)) + rest;
    SizeOfEncoded(m.(endpoint := endpoint));
    FrameHeader(s, TxHeader + s);
  }

  /** The size is read before the length is checked: in a frame cut inside its header it comes
      from what the buffer held before. Whatever that is, within what the parser can handle,
      a frame too short for header, message number and endpoint is rejected. */
  lemma ShortFrameRejected(rx: seq<byte>, length: nat)
    requires Readable(rx, length) && length < LONG + PREAMBLE + MSGNO_SIZE + 1
    ensures Parse(rx, length).None?
  {
  }
}
