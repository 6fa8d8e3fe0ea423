/** The byte format of admin messages as a code: what is written can be read back field by field,
    and the parser accepts the frames of sound messages and nothing else. */
module MessageCodec {
  import opened Bits
  import opened QueueMachine
  import opened AdminMessages

  const IN_RX_QUEUE: nat := 1

  /** The bytes hold a whole message. */
  predicate Whole(s: seq<byte>) {
    |s| >= PREAMBLE + MSGNO_SIZE + 1 && SizeField(s) >= MSGNO_SIZE && |s| == PREAMBLE + SizeField(s) + 1
  }

  /** Reading every field at its offset. */
  function Decode(s: seq<byte>): (m: Message)
    requires Whole(s)
    ensures Fits(m)
  {
    Message(Get32(s, 0), Get32(s, 4), Get32(s, 8), Get32(s, 12), Get32(s, 16), s[20..|s| - 1], s[|s| - 1])
  }

  lemma FieldAt(w: nat, front: seq<byte>, back: seq<byte>, s: seq<byte>, at: nat)
    requires w < WORD && s == front + U32(w) + back && at == |front|
    ensures Get32(s, at) == w
  {
    Get32OfU32(w, front, back);
  }

  /** What is written is read back. */
  lemma DecodeOfEncode(m: Message)
    requires Fits(m)
    ensures Whole(Encode(m)) && Decode(Encode(m)) == m
  {
    var s := Encode(m);
    var a, b, c, d, e := U32(m.sender), U32(m.receiver), U32(m.flags), U32(m.size), U32(m.msgno);
    var rest := m.payload + [m.endpoint];
    FieldAt(m.sender, [], b + c + d + e + rest, s, 0) by { assert s == [] + a + (b + c + d + e + rest); }
    FieldAt(m.receiver, a, c + d + e + rest, s, 4) by { assert s == a + b + (c + d + e + rest); }
    FieldAt(m.flags, a + b, d + e + rest, s, 8) by { assert s == (a + b) + c + (d + e + rest); }
    FieldAt(m.size, a + b + c, e + rest, s, 12) by { assert s == (a + b + c) + d + (e + rest); }
    FieldAt(m.msgno, a + b + c + d, rest, s, 16) by { assert s == (a + b + c + d) + e + rest; }
    assert s[20..|s| - 1] == m.payload;
  }

  lemma Digits(a: int, b: int, c: int, d: int, w: nat)
    requires 0 <= a < 256 && 0 <= b < 256 && 0 <= c < 256 && 0 <= d < 256
    requires w == a + 0x100 * b + 0x1_0000 * c + 0x100_0000 * d
    ensures w % 256 == a && w / 0x100 % 256 == b && w / 0x1_0000 % 256 == c && w / 0x100_0000 == d
  {
  }

  lemma WordAt(s: seq<byte>, at: nat)
    requires at + 4 <= |s|
    ensures U32(Get32(s, at)) == s[at..at + 4]
  {
    Digits(s[at], s[at + 1], s[at + 2], s[at + 3], Get32(s, at));
  }

  lemma Cut(s: seq<byte>, last: nat)
    requires 20 <= last && |s| == last + 1
    ensures s == s[0..4] + s[4..8] + s[8..12] + s[12..16] + s[16..20] + s[20..last] + [s[last]]
  {
  }

  lemma FieldsMakeBytes(m: Message, s: seq<byte>, last: nat)
    requires Fits(m) && 20 <= last && |s| == last + 1
    requires U32(m.sender) == s[0..4] && U32(m.receiver) == s[4..8] && U32(m.flags) == s[8..12]
    requires U32(m.size) == s[12..16] && U32(m.msgno) == s[16..20] && m.payload == s[20..last] && m.endpoint == s[last]
    ensures Encode(m) == s
  {
    Cut(s, last);
  }

  /** What is read was written so. */
  lemma EncodeOfDecode(s: seq<byte>)
    requires Whole(s)
    ensures Encode(Decode(s)) == s
  {
    WordAt(s, 0);
    WordAt(s, 4);
    WordAt(s, 8);
    WordAt(s, 12);
    WordAt(s, 16);
    FieldsMakeBytes(Decode(s), s, |s| - 1);
  }

  lemma FlagBit(x: nat)
    ensures And(x, 1) == x % 2
  {
    AndHalves(x, 1);
    AndZero(x / 2);
  }

  /** `deallocate` accepts a message exactly if the receive-queue flag is clear, whatever the other
      flags, and the endpoint is sound. */
  lemma DeallocatesIff(m: Message)
    requires Fits(m)
    ensures |Encode(m)| >= PREAMBLE && PREAMBLE + SizeField(Encode(m)) < |Encode(m)|
    ensures Deallocatable(Encode(m)) <==> And(m.flags, IN_RX_QUEUE) == 0 && m.endpoint == ENDPOINT
  {
    SizeOfEncoded(m);
    FlagBit(m.flags);
  }

  // ---------------------------------------------------------------- the parser

  /** The received bytes begin with the frame of message m, all of it within the length. */
  ghost predicate FrameOf(rx: seq<byte>, length: nat, m: Message) {
    && Fits(m) && m.endpoint == ENDPOINT && PREAMBLE + m.size + 1 < WORD
    && LONG + PREAMBLE + m.size + 1 <= length <= |rx|
    && rx[..LONG + PREAMBLE + m.size + 1] == TxHeader + Encode(m)
  }

  /** Frames of sound messages are accepted, and forwarded with the flags reset. */
  lemma FramesAreAccepted(rx: seq<byte>, length: nat, m: Message)
    requires FrameOf(rx, length, m)
    ensures Readable(rx, length) && Parse(rx, length) == Some(Encode(m.(flags := FLAG_DEFAULT)))
  {
    var n := LONG + PREAMBLE + m.size + 1;
    var s := Encode(m);
    SizeOfEncoded(m);
    FrameHeader(s, rx[..n]);
    SameWords(rx, n);
    assert rx[LONG + PREAMBLE + m.size] == rx[..n][LONG + PREAMBLE + m.size] == s[PREAMBLE + m.size];
    assert rx[LONG..n] == rx[..n][LONG..] == s;
    FlagsReset(m);
  }

  lemma SameWords(rx: seq<byte>, n: nat)
    requires LONG + PREAMBLE <= n <= |rx|
    ensures Get32(rx[..n], 0) == Get32(rx, 0) && Get32(rx[..n], 4) == Get32(rx, 4)
    ensures Get32(rx[..n], LONG + 12) == Get32(rx, LONG + 12)
  {
  }

  lemma HeaderThenRest(rx: seq<byte>, n: nat, s: seq<byte>)
    requires 8 <= n <= |rx| && s == rx[8..n]
    ensures rx[..n] == rx[0..4] + rx[4..8] + s
  {
  }

  /** Whatever is accepted is the frame of a sound message. */
  lemma AcceptedIsFrame(rx: seq<byte>, length: nat) returns (m: Message)
    requires Readable(rx, length) && Parse(rx, length).Some?
    ensures FrameOf(rx, length, m)
  {
    var n := LONG + PREAMBLE + Get32(rx, LONG + 12) + 1;
    var s := rx[LONG..n];
    assert Get32(s, 12) == Get32(rx, LONG + 12);
    m := Decode(s);
    EncodeOfDecode(s);
    WordAt(rx, 0);
    WordAt(rx, 4);
    HeaderThenRest(rx, n, s);
  }

  /** So the parser accepts exactly the frames of sound messages: no other message type, no cut
      frame, no damaged endpoint. */
  lemma ParserAcceptsExactly(rx: seq<byte>, length: nat)
    requires Readable(rx, length)
    ensures Parse(rx, length).Some? <==> exists m :: FrameOf(rx, length, m)
    ensures rx[..LONG] != TxHeader ==> Parse(rx, length).None?
  {
    if Parse(rx, length).Some? {
      var m := AcceptedIsFrame(rx, length);
      assert rx[..LONG] == rx[..LONG + PREAMBLE + m.size + 1][..LONG] == TxHeader;
    }
    if m :| FrameOf(rx, length, m) {
      FramesAreAccepted(rx, length, m);
    }
  }
}
