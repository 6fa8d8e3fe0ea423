/** The same operations on byte buffers written in place. */
module AdminMessageBuffers {
  import opened QueueMachine
  import opened AdminMessages

  /** `memcpy` between two different buffers. */
  method Memcpy(dst: array<byte>, to: nat, src: array<byte>, from: nat, n: nat)
    requires dst != src && to + n <= dst.Length && from + n <= src.Length
    modifies dst
    ensures dst[..] == old(dst[..])[..to] + src[from..from + n] + old(dst[..])[to + n..]
  {
    ghost var was := dst[..];
    for i := 0 to n
      invariant dst[..] == was[..to] + src[from..from + i] + was[to + i..]
    {
      dst[to + i] := src[from + i];
      assert src[from..from + i + 1] == src[from..from + i] + [src[from + i]];
    }
  }

  /** The four bytes at a position are those of w. */
  predicate Holds(s: seq<byte>, at: nat, w: nat)
    requires w < WORD && at + 4 <= |s|
  {
    s[at..at + 4] == U32(w)
  }

  /** The bytes with one word replaced. */
  function Stored(s: seq<byte>, at: nat, w: nat): (s': seq<byte>)
    requires at + 4 <= |s| && w < WORD
    ensures |s'| == |s|
  {
    s[..at] + U32(w) + s[at + 4..]
  }

  /** Writing one word of the header in place. */
  method Store32(buf: array<byte>, at: nat, w: nat)
    requires at + 4 <= buf.Length && w < WORD
    modifies buf
    ensures buf[..] == Stored(old(buf[..]), at, w)
  {
    ghost var was := buf[..];
    buf[at], buf[at + 1] := w % 256, w / 0x100 % 256;
    buf[at + 2], buf[at + 3] := w / 0x1_0000 % 256, w / 0x100_0000;
    assert buf[..] == Stored(was, at, w);
  }

  lemma StoreHolds(s: seq<byte>, at: nat, w: nat)
    requires at + 4 <= |s| && w < WORD
    ensures Holds(Stored(s, at, w), at, w)
  {
  }

  lemma StoreKeeps(s: seq<byte>, at: nat, w: nat, other: nat, v: nat)
    requires at + 4 <= |s| && w < WORD && other + 4 <= |s| && v < WORD
    requires (other + 4 <= at || at + 4 <= other) && Holds(s, other, v)
    ensures Holds(Stored(s, at, w), other, v)
  {
    assert Stored(s, at, w)[other..other + 4] == s[other..other + 4];
  }

  /** Five words stored at five places do not disturb each other. */
  lemma HeaderStored(s: seq<byte>, a: seq<byte>, b: seq<byte>, c: seq<byte>, d: seq<byte>, msgno: nat, size: nat)
    requires |s| >= PREAMBLE + MSGNO_SIZE && msgno < WORD && size < WORD
    requires a == Stored(s, 16, msgno) && b == Stored(a, 0, ID_DEFAULT)
    requires c == Stored(b, 4, ID_DEFAULT) && d == Stored(c, 12, size)
    ensures var e := Stored(d, 8, FLAG_DEFAULT);
            && Holds(e, 0, ID_DEFAULT) && Holds(e, 4, ID_DEFAULT) && Holds(e, 8, FLAG_DEFAULT)
            && Holds(e, 12, size) && Holds(e, 16, msgno)
  {
    StoreHolds(s, 16, msgno);
    StoreKeeps(a, 0, ID_DEFAULT, 16, msgno);
    StoreHolds(a, 0, ID_DEFAULT);
    StoreKeeps(b, 4, ID_DEFAULT, 16, msgno);
    StoreKeeps(b, 4, ID_DEFAULT, 0, ID_DEFAULT);
    StoreHolds(b, 4, ID_DEFAULT);
    StoreKeeps(c, 12, size, 16, msgno);
    StoreKeeps(c, 12, size, 0, ID_DEFAULT);
    StoreKeeps(c, 12, size, 4, ID_DEFAULT);
    StoreHolds(c, 12, size);
    StoreKeeps(d, 8, FLAG_DEFAULT, 16, msgno);
    StoreKeeps(d, 8, FLAG_DEFAULT, 0, ID_DEFAULT);
    StoreKeeps(d, 8, FLAG_DEFAULT, 4, ID_DEFAULT);
    StoreKeeps(d, 8, FLAG_DEFAULT, 12, size);
    StoreHolds(d, 8, FLAG_DEFAULT);
  }

  /** The header as `allocate` writes it, field by field. */
  method WriteHeader(buf: array<byte>, msgno: nat, size: nat)
    requires buf.Length >= PREAMBLE + MSGNO_SIZE && msgno < WORD
    modifies buf
    ensures Holds(buf[..], 0, ID_DEFAULT) && Holds(buf[..], 4, ID_DEFAULT) && Holds(buf[..], 8, FLAG_DEFAULT)
    ensures Holds(buf[..], 12, Word(size)) && Holds(buf[..], 16, msgno)
  {
    ghost var s := buf[..];
    Store32(buf, 16, msgno);
    ghost var a := buf[..];
    Store32(buf, 0, ID_DEFAULT);
    ghost var b := buf[..];
    Store32(buf, 4, ID_DEFAULT);
    ghost var c := buf[..];
    Store32(buf, 12, Word(size));
    HeaderStored(s, a, b, c, buf[..], msgno, Word(size));
    Store32(buf, 8, FLAG_DEFAULT);
  }

  lemma HeaderOf(s: seq<byte>, size: nat, msgno: nat)
    requires msgno < WORD && MSGNO_SIZE <= size < WORD && |s| == PREAMBLE + size + 1
    requires Holds(s, 0, ID_DEFAULT) && Holds(s, 4, ID_DEFAULT) && Holds(s, 8, FLAG_DEFAULT)
    requires Holds(s, 12, size) && Holds(s, 16, msgno)
    ensures s[PREAMBLE + size := ENDPOINT] == Encode(Message(ID_DEFAULT, ID_DEFAULT, FLAG_DEFAULT, size, msgno, s[20..16 + size], ENDPOINT))
  {
    assert s[PREAMBLE + size := ENDPOINT]
        == s[0..4] + s[4..8] + s[8..12] + s[12..16] + s[16..20] + s[20..16 + size] + [ENDPOINT];
  }

  /** `allocate`: null for a size without room for the message number; otherwise a message with
      default header, the payload bytes being whatever the memory held. */
  method Allocate(msgno: nat, size: nat) returns (buf: array?<byte>)
    requires msgno < WORD
    ensures buf == null <==> size < MSGNO_SIZE
    ensures buf != null ==> fresh(buf) && buf.Length == PREAMBLE + size + 1
    ensures buf != null && size < WORD ==>
              buf[..] == Encode(Message(ID_DEFAULT, ID_DEFAULT, FLAG_DEFAULT, size, msgno, buf[20..16 + size], ENDPOINT))
  {
    if size < MSGNO_SIZE {
      return null;
    }
    buf := new byte[PREAMBLE + size + 1];
    WriteHeader(buf, msgno, size);
    ghost var s := buf[..];
    buf[PREAMBLE + size] := ENDPOINT;
    assert buf[..] == s[PREAMBLE + size := ENDPOINT];
    if size < WORD {
      HeaderOf(s, size, msgno);
    }
  }

  /** `deallocate`: refuses a message that is in a receive queue or has a damaged endpoint. */
  method Deallocate(buf: array?<byte>) returns (ok: bool)
    requires buf != null ==> buf.Length >= PREAMBLE && PREAMBLE + SizeField(buf[..]) < buf.Length
    ensures ok <==> buf == null || Deallocatable(buf[..])
  {
    if buf == null {
      return true;
    }
    var s := buf[..];
    if Get32(s, 8) % 2 == 1 {
      return false;
    }
    ok := buf[PREAMBLE + Get32(s, 12)] == ENDPOINT;
  }

  /** The framing part of `send`; null stands for an allocation that throws, or, with `overrun`,
      for a buffer that is overrun. */
  method BuildFrame(msg: array<byte>) returns (tx: array?<byte>, overrun: bool)
    requires msg.Length >= PREAMBLE && Signed(Word(PREAMBLE + SizeField(msg[..]) + 1)) <= msg.Length
    ensures tx == null && !overrun <==> Frame(msg[..]).Throws?
    ensures overrun <==> Frame(msg[..]).Overruns?
    ensures tx != null ==> fresh(tx) && Frame(msg[..]) == Framed(tx[..])
  {
    var size := Signed(Word(PREAMBLE + Get32(msg[..], 12) + 1));
    if size < 0 {
      return null, size + LONG >= 0;
    }
    tx := new byte[LONG + size];
    Store32(tx, 0, TX_MSGNO);
    Store32(tx, 4, 0);
    Memcpy(tx, LONG, msg, 0, size);
    assert tx[..] == TxHeader + msg[..size];
    overrun := false;
  }

  /** The new message of `parseAndForwardMessage`: the received bytes with its own flags. */
  method CopyReceived(rx: array<byte>, size: nat) returns (msg: array<byte>)
    requires MSGNO_SIZE <= size && PREAMBLE + size + 1 < WORD && LONG + PREAMBLE + size + 1 <= rx.Length
    ensures fresh(msg)
    ensures var m := rx[LONG..LONG + PREAMBLE + size + 1]; msg[..] == m[..8] + U32(FLAG_DEFAULT) + m[12..]
  {
    var msgno := Get32(rx[..], LONG + PREAMBLE);
    msg := Allocate(msgno, size);
    var storedFlags := Get32(msg[..], 8);
    SizeOfEncoded(Message(ID_DEFAULT, ID_DEFAULT, FLAG_DEFAULT, size, msgno, msg[20..16 + size], ENDPOINT));
    Memcpy(msg, 0, rx, LONG, PREAMBLE + size + 1);
    assert msg[..] == rx[LONG..LONG + PREAMBLE + size + 1];
    Store32(msg, 8, storedFlags);
  }

  /** `parseAndForwardMessage` up to the hand-over to the local transport. */
  method ParseMessage(rx: array<byte>, length: nat) returns (msg: array?<byte>)
    requires Readable(rx[..], length)
    ensures msg == null <==> Parse(rx[..], length).None?
    ensures msg != null ==> fresh(msg) && Parse(rx[..], length) == Some(msg[..])
  {
    var s := rx[..];
    if Get32(s, 0) != TX_MSGNO || Get32(s, 4) != 0 {
      return null;
    }
    var size := Get32(s, LONG + 12);
    if length - LONG < Word(PREAMBLE + size + 1) {
      return null;
    }
    if rx[LONG + PREAMBLE + size] != ENDPOINT {
      return null;
    }
    msg := CopyReceived(rx, size);
    assert rx[LONG..LONG + PREAMBLE + size + 1] == s[LONG..LONG + PREAMBLE + size + 1];
  }
}
