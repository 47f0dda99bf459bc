/** Cutting a peer's byte stream into messages: a 24-byte header announces the size of the payload. */
module NetFraming {

  type Byte = b: nat | b < 256

  const HEADER_SIZE := 24
  const MAX_SIZE := 0x0200_0000
  const MAX_PROTOCOL_MESSAGE_LENGTH := 4_000_000
  const AHEAD := 256 * 1024

  /** The little-endian size field: after four magic bytes and twelve bytes of command. */
  function SizeOf(header: seq<Byte>): nat
    requires |header| == HEADER_SIZE
  {
    header[16] as int + 0x100 * header[17] as int + 0x1_0000 * header[18] as int + 0x100_0000 * header[19] as int
  }

  // ----- What a stream contains

  datatype Message = Message(header: seq<Byte>, payload: seq<Byte>)

  /** The complete messages, the bytes after them, and whether those begin with a header that is refused. */
  datatype Parsed = Parsed(messages: seq<Message>, rest: seq<Byte>, rejected: bool)

  predicate Refused(s: seq<Byte>) {
    |s| >= HEADER_SIZE && SizeOf(s[..HEADER_SIZE]) > MAX_PROTOCOL_MESSAGE_LENGTH
  }

  /** The length of the first message, if it is all there. */
  predicate StartsWhole(s: seq<Byte>) {
    |s| >= HEADER_SIZE && !Refused(s) && |s| >= HEADER_SIZE + SizeOf(s[..HEADER_SIZE])
  }

  function First(s: seq<Byte>): Message
    requires StartsWhole(s)
  {
    Message(s[..HEADER_SIZE], s[HEADER_SIZE..HEADER_SIZE + SizeOf(s[..HEADER_SIZE])])
  }

  function After(s: seq<Byte>): (r: seq<Byte>)
    requires StartsWhole(s)
    ensures |r| < |s|
  {
    s[HEADER_SIZE + SizeOf(s[..HEADER_SIZE])..]
  }

  function Parse(s: seq<Byte>): Parsed
    decreases |s|
  {
    if StartsWhole(s) then Prefixed([First(s)], Parse(After(s))) else Parsed([], s, Refused(s))
  }

  function Prefixed(ms: seq<Message>, p: Parsed): Parsed {
    p.(messages := ms + p.messages)
  }

  /** More bytes do not change the messages already there, nor a refusal. */
  lemma {:induction false} ParseAppend(a: seq<Byte>, b: seq<Byte>)
    ensures Parse(a).rejected ==> Parse(a + b).rejected && Parse(a + b).messages == Parse(a).messages
    ensures !Parse(a).rejected ==> Parse(a + b) == Prefixed(Parse(a).messages, Parse(Parse(a).rest + b))
    decreases |a|
  {
    hide *;
    SamePrefix(a, b);
    ParseCases(a);
    ParseCases(a + b);
    if StartsWhole(a) {
      ParseAppend(After(a), b);
      PrefixTwice([First(a)], Parse(After(a)).messages, Parse(Parse(After(a)).rest + b));
    } else {
      PrefixTwice([], [], Parse(a + b));
    }
  }

  lemma SamePrefix(a: seq<Byte>, b: seq<Byte>)
    ensures Refused(a) ==> Refused(a + b) && !StartsWhole(a + b)
    ensures StartsWhole(a) ==> StartsWhole(a + b) && First(a + b) == First(a) && After(a + b) == After(a) + b
  {
    if |a| >= HEADER_SIZE {
      assert (a + b)[..HEADER_SIZE] == a[..HEADER_SIZE];
    }
    hide SizeOf;
  }

  lemma ParseCases(s: seq<Byte>)
    ensures StartsWhole(s) ==> Parse(s) == Prefixed([First(s)], Parse(After(s)))
    ensures StartsWhole(s) ==> Parse(s).messages == [First(s)] + Parse(After(s)).messages && Parse(s).rest == Parse(After(s)).rest
    ensures StartsWhole(s) ==> Parse(s).rejected == Parse(After(s)).rejected
    ensures !StartsWhole(s) ==> Parse(s) == Parsed([], s, Refused(s))
  {
  }

  lemma PrefixTwice(a: seq<Message>, b: seq<Message>, p: Parsed)
    ensures Prefixed(a, Prefixed(b, p)) == Prefixed(a + b, p) && Prefixed([], p) == p
  {
    assert a + (b + p.messages) == (a + b) + p.messages;
    assert [] + p.messages == p.messages;
  }

  // ----- Chunks

  function Joined(chunks: seq<seq<Byte>>): seq<Byte> {
    if chunks == [] then [] else Joined(chunks[..|chunks| - 1]) + chunks[|chunks| - 1]
  }

  /** Chunk by chunk, carrying over the incomplete message, until a header is refused. */
  function ParseChunks(chunks: seq<seq<Byte>>): Parsed {
    if chunks == [] then Parsed([], [], false) else
      var before := ParseChunks(chunks[..|chunks| - 1]);
      if before.rejected then before
      else Prefixed(before.messages, Parse(before.rest + chunks[|chunks| - 1]))
  }

  /** However a stream is cut, the same messages come out, and it is refused at the same place. */
  lemma {:induction false} ChunkingIrrelevant(chunks: seq<seq<Byte>>)
    ensures var p, q := ParseChunks(chunks), Parse(Joined(chunks));
            && p.messages == q.messages && p.rejected == q.rejected && (!p.rejected ==> p.rest == q.rest)
  {
    if chunks != [] {
      var init, last := chunks[..|chunks| - 1], chunks[|chunks| - 1];
      ChunkingIrrelevant(init);
      ParseAppend(Joined(init), last);
      hide Parse;
    }
  }

  // ----- The sender

  /** A message as it is sent: network magic, command, payload and checksum. */
  datatype Sent = Sent(magic: seq<Byte>, command: seq<Byte>, payload: seq<Byte>, checksum: seq<Byte>)

  predicate Sendable(m: Sent) {
    |m.magic| == 4 && |m.command| == 12 && |m.checksum| == 4 && |m.payload| < 0x1_0000_0000
  }

  /** Four digits in base 256, the least first. */
  function FourDigits(n: nat): (r: seq<Byte>)
    requires n < 0x1_0000_0000
    ensures |r| == 4
  {
    [n % 0x100, n / 0x100 % 0x100, n / 0x1_0000 % 0x100, n / 0x100_0000]
  }

  function Header(m: Sent): (r: seq<Byte>)
    requires Sendable(m)
    ensures |r| == HEADER_SIZE
  {
    m.magic + m.command + FourDigits(|m.payload|) + m.checksum
  }

  function Frame(m: Sent): (r: seq<Byte>)
    requires Sendable(m)
    ensures |r| == HEADER_SIZE + |m.payload|
  {
    Header(m) + m.payload
  }

  function Frames(ms: seq<Sent>): seq<Byte>
    requires forall m :: m in ms ==> Sendable(m)
  {
    if ms == [] then [] else Frame(ms[0]) + Frames(ms[1..])
  }

  /** What arrives of the messages sent. */
  function Arriving(ms: seq<Sent>): (r: seq<Message>)
    requires forall m :: m in ms ==> Sendable(m)
    ensures |r| == |ms| && forall i :: 0 <= i < |ms| ==> r[i] == Message(Header(ms[i]), ms[i].payload)
  {
    seq(|ms|, i requires 0 <= i < |ms| => Message(Header(ms[i]), ms[i].payload))
  }

  lemma DigitsAdd(n: nat)
    ensures n == n % 0x100 + 0x100 * (n / 0x100 % 0x100) + 0x1_0000 * (n / 0x1_0000 % 0x100) + 0x100_0000 * (n / 0x100_0000)
  {
    assert n / 0x100 / 0x100 == n / 0x1_0000;
    assert n / 0x1_0000 / 0x100 == n / 0x100_0000;
  }

  lemma SizeIsSent(m: Sent)
    requires Sendable(m)
    ensures SizeOf(Header(m)) == |m.payload|
  {
    var h := Header(m);
    var d := FourDigits(|m.payload|);
    assert h[16] == d[0] && h[17] == d[1] && h[18] == d[2] && h[19] == d[3];
    DigitsAdd(|m.payload|);
  }

  lemma FrameParsed(m: Sent, rest: seq<Byte>)
    requires Sendable(m)
    ensures |m.payload| <= MAX_PROTOCOL_MESSAGE_LENGTH ==>
              Parse(Frame(m) + rest) == Prefixed([Message(Header(m), m.payload)], Parse(rest))
    ensures |m.payload| > MAX_PROTOCOL_MESSAGE_LENGTH ==> Parse(Frame(m) + rest) == Parsed([], Frame(m) + rest, true)
  {
    var s := Frame(m) + rest;
    SizeIsSent(m);
    assert s[..HEADER_SIZE] == Header(m);
    hide Header;
    hide SizeOf;
    assert s[HEADER_SIZE..HEADER_SIZE + |m.payload|] == m.payload;
    assert s[HEADER_SIZE + |m.payload|..] == rest;
    ParseCases(s);
    hide Parse;
  }

  lemma FramesFirst(ms: seq<Sent>)
    requires ms != [] && forall m :: m in ms ==> Sendable(m)
    ensures Frames(ms) == Frame(ms[0]) + Frames(ms[1..])
    ensures Arriving(ms) == [Message(Header(ms[0]), ms[0].payload)] + Arriving(ms[1..])
  {
  }

  /** The messages sent arrive in order, with their headers and payloads, and what follows is read as if it stood alone. */
  lemma {:induction false} FramesArrive(ms: seq<Sent>, rest: seq<Byte>)
    requires forall m :: m in ms ==> Sendable(m) && |m.payload| <= MAX_PROTOCOL_MESSAGE_LENGTH
    ensures Parse(Frames(ms) + rest) == Prefixed(Arriving(ms), Parse(rest))
  {
    if ms == [] {
      assert Frames(ms) + rest == rest;
      PrefixTwice([], [], Parse(rest));
    } else {
      hide Parse;
      hide Sendable;
      FramesFirst(ms);
      hide Frames;
      assert Frame(ms[0]) + Frames(ms[1..]) + rest == Frame(ms[0]) + (Frames(ms[1..]) + rest);
      FrameParsed(ms[0], Frames(ms[1..]) + rest);
      FramesArrive(ms[1..], rest);
      PrefixTwice([Message(Header(ms[0]), ms[0].payload)], Arriving(ms[1..]), Parse(rest));
    }
  }

  /** However the stream of a sender is cut, a peer receives exactly what was sent. */
  lemma SentIsReceived(ms: seq<Sent>, chunks: seq<seq<Byte>>)
    requires forall m :: m in ms ==> Sendable(m) && |m.payload| <= MAX_PROTOCOL_MESSAGE_LENGTH
    requires Joined(chunks) == Frames(ms)
    ensures ParseChunks(chunks) == Parsed(Arriving(ms), [], false)
  {
    hide Joined;
    hide ParseChunks;
    hide Sendable;
    ChunkingIrrelevant(chunks);
    FramesArrive(ms, []);
    assert Frames(ms) + [] == Frames(ms);
    assert Arriving(ms) + [] == Arriving(ms);
    hide Frames;
    ParseCases([]);
    hide Parse;
  }

  /** A message announced as longer than the limit is refused, whatever it holds, after what came before it. */
  lemma TooLongIsRefused(ms: seq<Sent>, big: Sent, rest: seq<Byte>)
    requires forall m :: m in ms ==> Sendable(m) && |m.payload| <= MAX_PROTOCOL_MESSAGE_LENGTH
    requires Sendable(big) && |big.payload| > MAX_PROTOCOL_MESSAGE_LENGTH
    ensures var p := Parse(Frames(ms) + (Frame(big) + rest)); p.rejected && p.messages == Arriving(ms)
  {
    hide Parse;
    hide Sendable;
    hide Frames;
    FramesArrive(ms, Frame(big) + rest);
    FrameParsed(big, rest);
    assert Arriving(ms) + [] == Arriving(ms);
  }

  // ----- One message being received

  class CNetMessage {
    var inData: bool
    var hdrbuf: seq<Byte>
    var nHdrPos: nat
    var nMessageSize: nat
    var vRecv: seq<Byte>
    var nDataPos: nat

    ghost predicate Valid()
      reads this
    {
      && |hdrbuf| == HEADER_SIZE && nHdrPos <= HEADER_SIZE && nDataPos <= |vRecv|
      && (inData ==> nHdrPos == HEADER_SIZE && nMessageSize == SizeOf(hdrbuf) && |vRecv| <= nMessageSize)
      && (!inData ==> vRecv == [])
    }

    /** The bytes received so far. */
    ghost function Taken(): seq<Byte>
      requires Valid()
      reads this
    {
      hdrbuf[..nHdrPos] + vRecv[..nDataPos]
    }

    predicate Complete()
      reads this
    {
      inData && nMessageSize == nDataPos
    }

    constructor ()
      ensures Valid() && Taken() == [] && !inData && !Complete()
    {
      inData, nHdrPos, nMessageSize, nDataPos := false, 0, 0, 0;
      hdrbuf := seq(HEADER_SIZE, (i: nat) => 0);
      vRecv := [];
    }

    method ReadHeader(pch: seq<Byte>) returns (handled: int)
      requires Valid() && !inData && nHdrPos < HEADER_SIZE
      modifies this
      ensures Valid()
      ensures var n := if HEADER_SIZE - old(nHdrPos) <= |pch| then HEADER_SIZE - old(nHdrPos) else |pch|;
              && Taken() == old(Taken()) + pch[..n]
              && (handled == n || (handled == -1 && |Taken()| == HEADER_SIZE && SizeOf(Taken()) > MAX_SIZE))
              && (inData <==> handled == n && |Taken()| >= HEADER_SIZE)
              && (handled == n && inData ==> nDataPos == 0 && nMessageSize <= MAX_SIZE)
              && (!inData && handled == n ==> nHdrPos < HEADER_SIZE)
    {
      var nRemaining := HEADER_SIZE - nHdrPos;
      var nCopy := if nRemaining <= |pch| then nRemaining else |pch|;
      hdrbuf := hdrbuf[..nHdrPos] + pch[..nCopy] + hdrbuf[nHdrPos + nCopy..];
      nHdrPos := nHdrPos + nCopy;
      assert hdrbuf[..nHdrPos] == old(hdrbuf[..nHdrPos]) + pch[..nCopy];
      if nHdrPos < HEADER_SIZE {
        return nCopy;
      }
      assert hdrbuf[..nHdrPos] == hdrbuf;
      assert Taken() == hdrbuf;
      nMessageSize := SizeOf(hdrbuf);
      if nMessageSize > MAX_SIZE {
        return -1;
      }
      inData := true;
      return nCopy;
    }

    /** Memory grows with the data, some way ahead of it, but never beyond the announced size. */
    method ReadData(pch: seq<Byte>) returns (handled: nat)
      requires Valid() && inData && nDataPos <= nMessageSize
      modifies this`vRecv, this`nDataPos
      ensures Valid() && inData
      ensures handled == if nMessageSize - old(nDataPos) <= |pch| then nMessageSize - old(nDataPos) else |pch|
      ensures Taken() == old(Taken()) + pch[..handled] && nDataPos == old(nDataPos) + handled
    {
      hide SizeOf;
      var nRemaining := nMessageSize - nDataPos;
      handled := if nRemaining <= |pch| then nRemaining else |pch|;
      if |vRecv| < nDataPos + handled {
        var ahead := nDataPos + handled + AHEAD;
        var size := if nMessageSize <= ahead then nMessageSize else ahead;
        vRecv := vRecv + seq(size - |vRecv|, (i: nat) => 0);
      }
      ghost var before := vRecv;
      vRecv := vRecv[..nDataPos] + pch[..handled] + vRecv[nDataPos + handled..];
      nDataPos := nDataPos + handled;
      assert vRecv[..nDataPos] == old(vRecv[..nDataPos]) + pch[..handled];
    }

    /** Header or data, then the check on the announced size. */
    method Take(pch: seq<Byte>) returns (ok: bool, handled: nat)
      requires Receiving(this) && pch != []
      modifies this
      ensures Valid()
      ensures !ok ==> Refused(old(Taken()) + pch) && !Complete()
      ensures ok ==> 0 < handled <= |pch| && Taken() == old(Taken()) + pch[..handled]
      ensures ok ==> if Complete() then nMessageSize <= MAX_PROTOCOL_MESSAGE_LENGTH else Receiving(this)
    {
      hide SizeOf;
      ghost var before := Taken();
      var n: int;
      if !inData {
        n := ReadHeader(pch);
      } else {
        n := ReadData(pch);
      }
      ReceivedSoFar(this);
      if n < 0 {
        assert Taken()[..HEADER_SIZE] == Taken();
        RefusedEarly(before, pch, Taken());
        return false, 0;
      }
      if inData && nMessageSize > MAX_PROTOCOL_MESSAGE_LENGTH {
        RefusedEarly(before, pch, Taken());
        return false, 0;
      }
      ok, handled := true, n;
    }
  }

  // ----- The connection

  class CNode {
    var vRecvMsg: seq<CNetMessage>
    /** What the complete entries hold. */
    ghost var done: seq<Message>

    ghost predicate Open()
      reads this, vRecvMsg
    {
      vRecvMsg != [] && !vRecvMsg[|vRecvMsg| - 1].Complete()
    }

    ghost function Finished(): nat
      reads this, vRecvMsg
    {
      if Open() then |vRecvMsg| - 1 else |vRecvMsg|
    }

    /** Entries are distinct; the complete ones hold exactly their payload. */
    ghost predicate Kept()
      reads this, vRecvMsg
    {
      && (forall i, j :: 0 <= i < j < |vRecvMsg| ==> vRecvMsg[i] != vRecvMsg[j])
      && |done| <= |vRecvMsg|
      && (forall i :: 0 <= i < |vRecvMsg| ==> vRecvMsg[i].Valid())
      && (forall i :: 0 <= i < |done| ==> HoldsMessage(vRecvMsg[i], done[i]))
    }

    /** Besides, all but possibly the last are complete, and the last is on its way to being so. */
    ghost predicate Valid()
      reads this, vRecvMsg
    {
      Kept() && |done| == Finished() && (Open() ==> Receiving(vRecvMsg[|vRecvMsg| - 1]))
    }

    /** The bytes of the message that is not complete. */
    ghost function Pending(): seq<Byte>
      requires Valid()
      reads this, vRecvMsg
    {
      if Open() then vRecvMsg[|vRecvMsg| - 1].Taken() else []
    }

    constructor ()
      ensures Valid() && done == [] && Pending() == []
    {
      vRecvMsg, done := [], [];
    }

    /** Make sure that the last entry is one that wants bytes. */
    method Begin()
      requires Valid()
      modifies this`vRecvMsg
      ensures Valid() && Open() && Pending() == old(Pending())
      ensures fresh(set m | m in vRecvMsg && m !in old(vRecvMsg))
    {
      if vRecvMsg == [] || vRecvMsg[|vRecvMsg| - 1].Complete() {
        var msg := new CNetMessage();
        vRecvMsg := vRecvMsg + [msg];
      }
    }

    /** Give the last entry as many bytes as it takes. */
    method Absorb(pch: seq<Byte>) returns (ok: bool, handled: nat)
      requires Valid() && Open() && pch != []
      modifies this`done, vRecvMsg[|vRecvMsg| - 1]
      ensures Kept()
      ensures !ok ==> Refused(old(Pending()) + pch) && done == old(done)
      ensures ok ==> Valid() && 0 < handled <= |pch|
      ensures ok ==>
                var t := old(Pending()) + pch[..handled];
                if Open() then done == old(done) && Pending() == t
                else StartsWhole(t) && After(t) == [] && done == old(done) + [First(t)]
    {
      hide SizeOf;
      hide Refused;
      hide StartsWhole;
      hide First;
      hide After;
      var msg := vRecvMsg[|vRecvMsg| - 1];
      ok, handled := msg.Take(pch);
      if ok && msg.Complete() {
        ReceivedSoFar(msg);
        done := done + [Message(msg.hdrbuf, msg.vRecv)];
      }
    }

    /** One turn of the receiving loop. */
    method ReceiveSome(pch: seq<Byte>) returns (ok: bool, handled: nat, whole: bool)
      requires Valid() && pch != []
      modifies this, vRecvMsg
      ensures Kept() && fresh(set m | m in vRecvMsg && m !in old(vRecvMsg))
      ensures !ok ==> Refused(old(Pending()) + pch) && done == old(done)
      ensures ok ==> Valid() && 0 < handled <= |pch|
      ensures ok ==>
                var t := old(Pending()) + pch[..handled];
                if !whole then done == old(done) && Pending() == t
                else StartsWhole(t) && After(t) == [] && done == old(done) + [First(t)] && Pending() == []
    {
      hide SizeOf;
      hide Refused;
      hide StartsWhole;
      hide First;
      hide After;
      Begin();
      ok, handled := Absorb(pch);
      whole := vRecvMsg[|vRecvMsg| - 1].Complete();
    }

    method ReceiveMsgBytes(pch: seq<Byte>) returns (ok: bool, complete: bool)
      requires Valid()
      modifies this, vRecvMsg
      ensures Kept()
      ensures var p := Parse(old(Pending()) + pch);
              && ok == !p.rejected && done == old(done) + p.messages && complete == (p.messages != [])
              && (ok ==> Valid() && Pending() == p.rest)
    {
      hide SizeOf;
      hide Refused;
      hide StartsWhole;
      hide First;
      hide After;
      hide Parse;
      hide Prefixed;
      hide Kept;
      hide Valid;
      hide Pending;
      complete := false;
      ghost var all := Pending() + pch;
      ghost var got: seq<Message> := [];
      var i := 0;
      PrefixTwice([], [], Parse(all));
      assert pch[0..] == pch;
      while i < |pch|
        invariant 0 <= i <= |pch| && Valid()
        invariant done == old(done) + got && complete == (got != [])
        invariant Parse(all) == Prefixed(got, Parse(Pending() + pch[i..]))
        invariant fresh(set m | m in vRecvMsg && m !in old(vRecvMsg))
      {
        ghost var t, rem := Pending(), pch[i..];
        var fine, handled, whole := ReceiveSome(pch[i..]);
        if !fine {
          StopsAtRefusal(got, t + rem, all);
          return false, complete;
        }
        ghost var taken := t + rem[..handled];
        assert t + rem == taken + rem[handled..];
        assert rem[handled..] == pch[i + handled..];
        if whole {
          TakesOne(got, taken, rem[handled..], all);
          got := got + [First(taken)];
          complete := true;
        }
        i := i + handled;
      }
      assert pch[i..] == [];
      NothingLeft(got, all);
      return true, complete;
    }

    lemma NothingLeft(got: seq<Message>, all: seq<Byte>)
      requires Valid() && Parse(all) == Prefixed(got, Parse(Pending() + []))
      ensures Kept() && Parse(all) == Parsed(got, Pending(), false)
    {
      assert Pending() + [] == Pending();
      if Open() {
        ReceivedSoFar(vRecvMsg[|vRecvMsg| - 1]);
      }
      ParseCases(Pending());
      assert got + [] == got;
    }
  }

  ghost predicate HoldsMessage(m: CNetMessage, content: Message)
    reads m
  {
    m.Complete() && m.hdrbuf == content.header && m.vRecv == content.payload
  }

  /** A message that still wants bytes. */
  ghost predicate Receiving(m: CNetMessage)
    reads m
  {
    && m.Valid()
    && (!m.inData ==> m.nHdrPos < HEADER_SIZE)
    && (m.inData ==> m.nDataPos < m.nMessageSize <= MAX_PROTOCOL_MESSAGE_LENGTH)
  }

  /** What the bytes received so far say about a message. */
  lemma ReceivedSoFar(m: CNetMessage)
    requires m.Valid()
    ensures |m.Taken()| == m.nHdrPos + m.nDataPos
    ensures m.nHdrPos == HEADER_SIZE ==> m.Taken()[..HEADER_SIZE] == m.hdrbuf
    ensures Receiving(m) ==> !StartsWhole(m.Taken()) && !Refused(m.Taken())
    ensures m.Complete() && m.nMessageSize <= MAX_PROTOCOL_MESSAGE_LENGTH ==>
              && StartsWhole(m.Taken()) && After(m.Taken()) == [] && First(m.Taken()) == Message(m.hdrbuf, m.vRecv)
  {
    hide SizeOf;
    if m.nHdrPos == HEADER_SIZE {
      assert m.hdrbuf[..m.nHdrPos] == m.hdrbuf;
      assert m.Taken()[..HEADER_SIZE] == m.hdrbuf;
    }
    if m.Complete() {
      assert m.vRecv[..m.nDataPos] == m.vRecv;
    }
  }

  /** A header that is refused is refused whatever follows. */
  lemma RefusedEarly(before: seq<Byte>, pch: seq<Byte>, taken: seq<Byte>)
    requires |taken| >= HEADER_SIZE && SizeOf(taken[..HEADER_SIZE]) > MAX_PROTOCOL_MESSAGE_LENGTH && taken <= before + pch
    ensures Refused(before + pch)
  {
    hide SizeOf;
    assert (before + pch)[..HEADER_SIZE] == taken[..HEADER_SIZE];
  }

  lemma StopsAtRefusal(got: seq<Message>, s: seq<Byte>, all: seq<Byte>)
    requires Refused(s) && Parse(all) == Prefixed(got, Parse(s))
    ensures Parse(all).rejected && Parse(all).messages == got
  {
    assert Parse(s) == Parsed([], s, true);
  }

  lemma TakesOne(got: seq<Message>, whole: seq<Byte>, rem: seq<Byte>, all: seq<Byte>)
    requires StartsWhole(whole) && After(whole) == [] && Parse(all) == Prefixed(got, Parse(whole + rem))
    ensures Parse(all) == Prefixed(got + [First(whole)], Parse([] + rem))
  {
    hide *;
    SamePrefix(whole, rem);
    ParseCases(whole + rem);
    PrefixTwice(got, [First(whole)], Parse([] + rem));
  }
}
