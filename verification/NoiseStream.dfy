/** The encrypted session stream: two poll state machines over one inner stream. */
module NoiseSession {
  import opened Bytes
  import opened Io
  import opened Records

  /** What has been read of the record under way. Both buffers are filled from the front. */
  datatype ReadState =
    | Len(buf: seq<byte>, filled: nat)
    | Body(buf: seq<byte>, filled: nat)

  const FRESH := Len([0, 0], 0)

  predicate WellShaped(s: ReadState) {
    s.filled <= |s.buf| && if s.Len? then |s.buf| == 2 && s.filled < 2 else |s.buf| <= MAX_MESSAGE
  }

  /** The bytes a read state stands for: a header, then a body, as far as they are in. */
  ghost function Held(s: ReadState): seq<byte>
    requires WellShaped(s)
  {
    match s
    case Len(buf, filled) => buf[..filled]
    case Body(buf, filled) => U16ToBe(|buf|) + buf[..filled]
  }

  /** A state that may be stored when a poll returns: something of the record is still missing. */
  predicate AtRest(s: ReadState) {
    WellShaped(s) && s.filled < |s.buf|
  }

  lemma HeldIsPart(a: Aead, nonce: nat, s: ReadState)
    requires AtRest(s)
    ensures FrontOf(a, nonce, Held(s)) == Part
  {
    if s.Body? {
      U16RoundTrip(|s.buf|);
      assert Held(s)[..2] == U16ToBe(|s.buf|);
    }
  }

  lemma HeldIsWhole(a: Aead, nonce: nat, body: seq<byte>)
    requires |body| <= MAX_MESSAGE
    ensures var held := U16ToBe(|body|) + body;
            Parse(a, nonce, held) == match Open(a, nonce, body)
                                     case None => Parsed([], held, false)
                                     case Some(p) => Parsed([p], [], true)
  {
    var held := U16ToBe(|body|) + body;
    U16RoundTrip(|body|);
    assert held[..2] == U16ToBe(|body|);
    assert held[2..|held|] == body && held[|held|..] == [];
    if Open(a, nonce, body).Some? {
      assert FrontOf(a, nonce, held) == Record(Open(a, nonce, body).value, |held|);
      assert Parse(a, nonce + 1, []) == Parsed([], [], true);
    }
  }

  lemma Suspended(a: Aead, first: nat, seen: seq<byte>, decoded: seq<seq<byte>>, s: ReadState)
    requires AtRest(s)
    requires Parse(a, first, seen) == Prepend(decoded, Parse(a, first + |decoded|, Held(s)))
    ensures Parse(a, first, seen) == Parsed(decoded, Held(s), true)
  {
    HeldIsPart(a, first + |decoded|, s);
    PrependToNothing(decoded, Held(s));
  }

  /** Feeding `got` to a parser suspended in state `s` after `decoded`. */
  lemma Feed(a: Aead, first: nat, seen: seq<byte>, decoded: seq<seq<byte>>, s: ReadState, got: seq<byte>)
    requires AtRest(s)
    requires Parse(a, first, seen) == Prepend(decoded, Parse(a, first + |decoded|, Held(s)))
    ensures Parse(a, first, seen + got)
         == Prepend(decoded, Parse(a, first + |decoded|, Held(s) + got))
  {
    hide Parse, FrontOf, Held;
    Suspended(a, first, seen, decoded, s);
    ParseResumeAt(a, first, seen, got, first + |decoded|, Held(s) + got);
  }

  /** The header buffer after `bytes` came in behind what it held; a full one opens a zero-filled body. */
  function FeedHeader(s: ReadState, bytes: seq<byte>): (t: ReadState)
    requires s.Len? && WellShaped(s) && bytes != [] && |bytes| <= 2 - s.filled
    ensures WellShaped(t) && (t.Body? ==> t.filled == 0)
  {
    var filled := s.filled + |bytes|;
    var buf := s.buf[..s.filled] + bytes + s.buf[filled..];
    if filled == 2 then Body(seq(U16FromBe(buf), _ => 0), 0) else Len(buf, filled)
  }

  lemma FeedHeaderHolds(s: ReadState, bytes: seq<byte>)
    requires s.Len? && WellShaped(s) && bytes != [] && |bytes| <= 2 - s.filled
    ensures Held(FeedHeader(s, bytes)) == Held(s) + bytes
  {
    var filled := s.filled + |bytes|;
    var buf := s.buf[..s.filled] + bytes + s.buf[filled..];
    assert buf[..filled] == Held(s) + bytes;
    if filled == 2 {
      U16FromBeInjective(buf);
      assert buf[..2] == buf;
    }
  }

  function FeedBody(s: ReadState, bytes: seq<byte>): (t: ReadState)
    requires s.Body? && WellShaped(s) && |bytes| <= |s.buf| - s.filled
    ensures WellShaped(t) && t.Body? && |t.buf| == |s.buf|
  {
    var filled := s.filled + |bytes|;
    Body(s.buf[..s.filled] + bytes + s.buf[filled..], filled)
  }

  lemma FeedBodyHolds(s: ReadState, bytes: seq<byte>)
    requires s.Body? && WellShaped(s) && |bytes| <= |s.buf| - s.filled
    ensures Held(FeedBody(s, bytes)) == Held(s) + bytes
  {
    var filled := s.filled + |bytes|;
    assert FeedBody(s, bytes).buf[..filled] == s.buf[..s.filled] + bytes;
  }

  /**
    What one read may report, given `p`, the meaning of all bytes taken so far
    in this epoch, and the last event of the inner stream during the call.
   */
  ghost predicate ReadOutcome(r: Poll<seq<byte>>, max: nat, p: Parsed, event: Event) {
    match r
    case Pending => p.ok && event == SawPending
    case Failed(Inner) => p.ok && event == SawError
    case Failed(UnexpectedEof) => p.ok && event == SawEof && p.rest != []
    case Failed(InvalidData) => !p.ok && event == Moved
    case Failed(_) => false
    case Ready(bytes) =>
      && p.ok
      && |bytes| <= max
      && if event == SawEof then bytes == [] && p.rest == []
         else (event == Untouched || event == Moved) && (max > 0 ==> bytes != [])
  }

  /** Moving bytes from a buffer onto the pipe changes neither the bytes nor their order. */
  lemma MoveOver(content: seq<byte>, base: nat, buffer: seq<byte>, n: nat)
    requires base <= |content| && n <= |buffer|
    ensures (content + buffer[..n])[base..] + buffer[n..] == content[base..] + buffer
  {
    assert buffer == buffer[..n] + buffer[n..];
    assert (content + buffer[..n])[base..] == content[base..] + buffer[..n];
  }

  class NoiseStream {
    const send: Aead
    const recv: Aead
    const inn: Pipe
    const out: Pipe

    var sendNonce: nat
    var writeBuf: seq<byte>
    var writePos: nat

    var recvNonce: nat
    var readState: ReadState
    var plaintext: seq<byte>
    var plaintextPos: nat

    /** Chunks sealed so far, and where their records begin on the pipe. */
    ghost var committed: seq<seq<byte>>
    ghost const outBase: nat

    /**
      An epoch of reading ends when partial state is dropped: at an unexpected
      end of stream, and when a record does not open. Within an epoch, `decoded`
      are the records opened and `delivered` the bytes handed to the caller.
     */
    ghost var epoch: nat
    ghost var base: nat
    ghost var baseNonce: nat
    ghost var decoded: seq<seq<byte>>
    ghost var delivered: seq<byte>

    /** Bytes on the wire, then bytes still buffered: the records of the committed chunks, nothing else. */
    ghost predicate WriterInv()
      reads `sendNonce, `writeBuf, `writePos, `committed, out`content, out`taken
    {
      && out.Valid()
      && sendNonce == |committed|
      && Sealable(0, committed)
      && (forall i :: 0 <= i < |committed| ==> committed[i] != [])
      && writePos <= |writeBuf|
      && outBase <= |out.content|
      && out.content[outBase..] + writeBuf[writePos..] == Wire(send, 0, committed)
      && (writeBuf != [] ==> BufferedLast())
    }

    /** No more than one record is ever buffered: the last one sealed. */
    ghost predicate BufferedLast()
      requires Sealable(0, committed)
      reads `writeBuf, `committed
    {
      |committed| > 0 && writeBuf == Frame(send, |committed| - 1, committed[|committed| - 1])
    }

    /** Bytes taken from the inner stream in this epoch. */
    ghost function Seen(): seq<byte>
      requires inn.Valid() && base <= inn.taken
      reads `base, inn`content, inn`taken
    {
      inn.content[base..inn.taken]
    }

    ghost predicate ReaderInvIn(s: ReadState)
      reads `recvNonce, `plaintext, `plaintextPos, `base, `baseNonce, `decoded, `delivered
      reads inn`content, inn`taken
    {
      && inn.Valid() && base <= inn.taken
      && WellShaped(s)
      && plaintextPos <= |plaintext|
      && recvNonce == baseNonce + |decoded|
      && delivered + plaintext[plaintextPos..] == Flatten(decoded)
      && Parse(recv, baseNonce, Seen()) == Prepend(decoded, Parse(recv, recvNonce, Held(s)))
    }

    ghost predicate Valid()
      reads this, inn, out
    {
      inn != out && WriterInv() && ReaderInvIn(readState) && AtRest(readState)
    }

    constructor (send: Aead, recv: Aead, inn: Pipe, out: Pipe)
      requires inn != out && inn.Valid() && out.Valid()
      ensures Valid()
      ensures this.send == send && this.recv == recv && this.inn == inn && this.out == out
      ensures committed == [] && writeBuf == [] && outBase == |out.content|
      ensures epoch == 0 && base == inn.taken && baseNonce == 0 && decoded == [] && delivered == []
    {
      this.send, this.recv, this.inn, this.out := send, recv, inn, out;
      sendNonce, writeBuf, writePos := 0, [], 0;
      recvNonce, readState, plaintext, plaintextPos := 0, FRESH, [], 0;
      committed, outBase := [], |out.content|;
      epoch, base, baseNonce, decoded, delivered := 0, inn.taken, 0, [], [];
      new;
      assert Seen() == [] && Held(readState) == [];
      PrependNothing(Parse(recv, 0, []));
    }

    // ---- write side ----

    /** Flush framed ciphertext still pending on the inner stream. */
    method PollDrain() returns (r: Poll<()>)
      requires WriterInv()
      modifies `writeBuf, `writePos, out`content, out`writeEvent
      ensures WriterInv()
      ensures old(out.content) <= out.content
      ensures r.Ready? ==> writeBuf == [] && writePos == 0
      ensures !r.Ready? ==> writeBuf == old(writeBuf) && writePos < |writeBuf|
      ensures r.Pending? ==> out.writeEvent == SawPending
      ensures r.Failed? ==>
                || (r.error == Inner && out.writeEvent == SawError)
                || (r.error == WriteZero && out.writeEvent == Moved)
    {
      hide Wire, Frame, BufferedLast;
      while writePos < |writeBuf|
        invariant WriterInv()
        invariant writeBuf == old(writeBuf)
        invariant old(out.content) <= out.content
        decreases |writeBuf| - writePos
      {
        ghost var before := out.content;
        var rest := writeBuf[writePos..];
        var w := out.PollWrite(rest);
        match w {
          case Pending =>
            return Pending;
          case Failed(e) =>
            return Failed(e);
          case Ready(n) =>
            MoveOver(before, outBase, rest, n);
            assert rest[n..] == writeBuf[writePos + n..];
            writePos := writePos + n;
            if n == 0 {
              return Failed(WriteZero);
            }
        }
      }
      writeBuf, writePos := [], 0;
      r := Ready(());
    }

    /** Put the record of `chunk` into the drained write buffer. */
    method Seal(chunk: seq<byte>)
      requires WriterInv() && writeBuf == [] && sendNonce < NONCE_MAX
      requires chunk != [] && |chunk| <= MAX_PLAINTEXT
      modifies `writeBuf, `writePos, `sendNonce, `committed
      ensures WriterInv()
      ensures committed == old(committed) + [chunk]
    {
      hide Wire, Frame;
      var sealed := send.seal(sendNonce, chunk);
      CastIsLossless(send, sendNonce, chunk);
      WireSnoc(send, 0, committed, chunk);
      assert out.content[outBase..] + [] == out.content[outBase..];
      writeBuf, writePos := U16ToBe(AsU16(|sealed|)) + sealed, 0;
      committed, sendNonce := committed + [chunk], sendNonce + 1;
      assert writeBuf[0..] == writeBuf;
    }

    /** Accept at most one record's worth of `src`. */
    method PollWrite(src: seq<byte>) returns (r: Poll<nat>)
      requires WriterInv()
      modifies `writeBuf, `writePos, `sendNonce, `committed, out`content, out`writeEvent
      ensures WriterInv()
      ensures old(out.content) <= out.content
      ensures r.Pending? ==> committed == old(committed) && out.writeEvent == SawPending
      ensures r.Ready? ==>
                && r.value == Min(|src|, MAX_PLAINTEXT)
                && committed == old(committed) + (if src == [] then [] else [src[..r.value]])
                && (writeBuf == [] || out.writeEvent == SawPending)
      ensures r.Failed? ==>
                || committed == old(committed)
                || (src != [] && writeBuf != [] && r.error != Exhausted
                    && committed == old(committed) + [src[..Min(|src|, MAX_PLAINTEXT)]])
      ensures r.Failed? && r.error == Exhausted ==>
                && |committed| == 0xFFFF_FFFF_FFFF_FFFF && committed == old(committed)
                && src != [] && writeBuf == []
      ensures r.Failed? && r.error != Exhausted ==>
                || (r.error == Inner && out.writeEvent == SawError)
                || (r.error == WriteZero && out.writeEvent == Moved)
    {
      hide Wire, Frame, BufferedLast;
      out.writeEvent := Untouched;
      var drained := PollDrain();
      match drained {
        case Pending => return Pending;
        case Failed(e) => return Failed(e);
        case Ready(_) =>
      }
      if src == [] {
        return Ready(0);
      }
      var chunk := src[..Min(|src|, MAX_PLAINTEXT)];
      if sendNonce >= NONCE_MAX {
        return Failed(Exhausted);
      }
      Seal(chunk);
      drained := PollDrain();
      if drained.Failed? {
        return Failed(drained.error);
      }
      r := Ready(|chunk|);
    }

    method PollFlush() returns (r: Poll<()>)
      requires WriterInv()
      modifies `writeBuf, `writePos, out`content, out`writeEvent, out`flushed
      ensures WriterInv()
      ensures old(out.content) <= out.content
      ensures r.Ready? ==> out.content[outBase..] == Wire(send, 0, committed) && out.flushed == |out.content|
      ensures r.Pending? ==> out.writeEvent == SawPending
      ensures r.Failed? ==>
                || (r.error == Inner && out.writeEvent == SawError)
                || (r.error == WriteZero && out.writeEvent == Moved)
    {
      out.writeEvent := Untouched;
      var drained := PollDrain();
      match drained {
        case Pending => return Pending;
        case Failed(e) => return Failed(e);
        case Ready(_) =>
      }
      assert out.content[outBase..] + [] == out.content[outBase..];
      r := out.PollFlush();
    }

    /** The stream below is only told to shut down once every record is on it. */
    method PollShutdown() returns (r: Poll<()>)
      requires WriterInv()
      modifies `writeBuf, `writePos, out`content, out`writeEvent, out`flushed, out`closed
      ensures WriterInv()
      ensures r.Ready? ==> out.closed && out.flushed == |out.content|
      ensures out.closed && !old(out.closed) ==> out.content[outBase..] == Wire(send, 0, committed)
      ensures r.Pending? ==> out.writeEvent == SawPending
      ensures r.Failed? ==>
                || (r.error == Inner && out.writeEvent == SawError)
                || (r.error == WriteZero && out.writeEvent == Moved)
    {
      out.writeEvent := Untouched;
      var drained := PollDrain();
      match drained {
        case Pending => return Pending;
        case Failed(e) => return Failed(e);
        case Ready(_) =>
      }
      assert out.content[outBase..] + [] == out.content[outBase..];
      r := out.PollShutdown();
    }

    // ---- read side ----

    /** Forget what was read of the current record: the reader starts over where the stream now is. */
    ghost method NewEpoch()
      requires inn.Valid() && readState == FRESH && plaintextPos == |plaintext|
      modifies `epoch, `base, `baseNonce, `decoded, `delivered
      ensures ReaderInvIn(readState)
      ensures epoch == old(epoch) + 1
    {
      epoch, base, baseNonce, decoded, delivered := epoch + 1, inn.taken, recvNonce, [], [];
      assert Seen() == [] && Held(readState) == [];
      PrependNothing(Parse(recv, recvNonce, []));
    }

    /** The `Len` arm of the read loop; `None` means go round again. */
    method ReadHeader(s: ReadState, max: nat) returns (r: Option<Poll<seq<byte>>>)
      requires s.Len? && ReaderInvIn(s)
      requires readState == FRESH && plaintextPos == |plaintext|
      modifies `readState, `epoch, `base, `baseNonce, `decoded, `delivered, inn`taken, inn`readEvent
      ensures ReaderInvIn(readState)
      ensures r.None? ==> inn.readEvent == Moved && inn.taken > old(inn.taken)
      ensures r.None? ==> AtRest(readState) || (readState.Body? && readState.buf == [])
      ensures r.Some? ==>
                && AtRest(readState)
                && inn.taken >= old(inn.taken)
                && ReadOutcome(r.value, max,
                     Parse(recv, old(baseNonce), inn.content[old(base)..inn.taken]), inn.readEvent)
                && (r.value.Ready? ==> r.value.value == [])
                && plaintextPos == |plaintext|
      ensures epoch == old(epoch) + if r.Some? && r.value.Failed? && r.value.error != Inner then 1 else 0
      ensures epoch == old(epoch) ==>
                && base == old(base) && baseNonce == old(baseNonce)
                && decoded == old(decoded) && delivered == old(delivered)
    {
      hide Parse, FrontOf;
      ghost var seen, held := Seen(), Held(s);
      Suspended(recv, baseNonce, seen, decoded, s);
      var got := inn.PollRead(2 - s.filled);
      match got {
        case Pending =>
          readState := s;
          r := Some(Pending);
        case Failed(e) =>
          readState := s;
          r := Some(Failed(e));
        case Ready(bytes) =>
          if |bytes| == 0 {
            assert Seen() == seen && |held| == s.filled;
            if s.filled == 0 {
              assert held == Held(FRESH);
              r := Some(Ready([]));
            } else {
              NewEpoch();
              r := Some(Failed(UnexpectedEof));
            }
          } else {
            Feed(recv, baseNonce, seen, decoded, s, bytes);
            FeedHeaderHolds(s, bytes);
            SliceJoin(inn.content, base, old(inn.taken), inn.taken);
            readState := FeedHeader(s, bytes);
            r := None;
          }
      }
    }

    /** A whole ciphertext is in: open it under the next receive nonce. */
    method OpenRecord(s: ReadState) returns (r: Option<Poll<seq<byte>>>)
      requires s.Body? && s.filled == |s.buf| && ReaderInvIn(s)
      requires readState == FRESH && plaintextPos == |plaintext| && inn.readEvent == Moved
      modifies `recvNonce, `plaintext, `plaintextPos, `epoch, `base, `baseNonce, `decoded, `delivered
      ensures ReaderInvIn(readState)
      ensures recvNonce == old(recvNonce) + if r.None? then 1 else 0
      ensures r.None? ==> old(recvNonce) < 0xFFFF_FFFF_FFFF_FFFF
      ensures r.None? ==> |s.buf| >= TAG
      ensures r.None? ==>
                && epoch == old(epoch) && base == old(base) && baseNonce == old(baseNonce)
                && delivered == old(delivered)
      ensures r.Some? ==>
                && epoch == old(epoch) + 1
                && r.value == Failed(InvalidData)
                && !Parse(recv, old(baseNonce), old(Seen())).ok
                && Parse(recv, old(baseNonce), old(Seen())).records == old(decoded)
    {
      hide Parse, FrontOf, Flatten;
      assert s.buf[..s.filled] == s.buf;
      HeldIsWhole(recv, recvNonce, s.buf);
      match Open(recv, recvNonce, s.buf) {
        case None =>
          NewEpoch();
          r := Some(Failed(InvalidData));
        case Some(p) =>
          FlattenSnoc(decoded, p);
          plaintext, plaintextPos := p, 0;
          decoded, recvNonce := decoded + [p], recvNonce + 1;
          assert Held(readState) == [];
          ParseNothing(recv, recvNonce);
          PrependToNothing(decoded, []);
          assert delivered + [] == delivered;
          r := None;
      }
    }

    /** The `Body` arm of the read loop; `None` means go round again. */
    method ReadBody(s: ReadState, max: nat) returns (r: Option<Poll<seq<byte>>>)
      requires s.Body? && ReaderInvIn(s)
      requires readState == FRESH && plaintextPos == |plaintext|
      requires AtRest(s) || (s.buf == [] && inn.readEvent == Moved)
      modifies `readState, `recvNonce, `plaintext, `plaintextPos
      modifies `epoch, `base, `baseNonce, `decoded, `delivered, inn`taken, inn`readEvent
      ensures ReaderInvIn(readState)
      ensures r.None? ==> inn.readEvent == Moved && AtRest(readState) && inn.taken > old(inn.taken)
      ensures r.Some? ==>
                && AtRest(readState)
                && inn.taken >= old(inn.taken)
                && ReadOutcome(r.value, max,
                     Parse(recv, old(baseNonce), inn.content[old(base)..inn.taken]), inn.readEvent)
                && !r.value.Ready?
      ensures epoch == old(epoch) + if r.Some? && r.value.Failed? && r.value.error != Inner then 1 else 0
      ensures epoch == old(epoch) ==>
                base == old(base) && baseNonce == old(baseNonce) && delivered == old(delivered)
    {
      hide Parse, FrontOf;
      var t := s;
      if s.filled < |s.buf| {
        ghost var seen := Seen();
        Suspended(recv, baseNonce, seen, decoded, s);
        var got := inn.PollRead(|s.buf| - s.filled);
        match got {
          case Pending =>
            readState := s;
            return Some(Pending);
          case Failed(e) =>
            readState := s;
            return Some(Failed(e));
          case Ready(bytes) =>
            if |bytes| == 0 {
              assert Seen() == seen;
              NewEpoch();
              return Some(Failed(UnexpectedEof));
            }
            Feed(recv, baseNonce, seen, decoded, s, bytes);
            FeedBodyHolds(s, bytes);
            SliceJoin(inn.content, base, old(inn.taken), inn.taken);
            t := FeedBody(s, bytes);
        }
      }
      if t.filled == |t.buf| {
        r := OpenRecord(t);
      } else {
        readState := t;
        r := None;
      }
    }

    /** Hand over buffered plaintext. */
    method Deliver(max: nat) returns (bytes: seq<byte>)
      requires ReaderInvIn(readState) && AtRest(readState) && plaintextPos < |plaintext|
      requires inn.readEvent == Untouched || inn.readEvent == Moved
      modifies `plaintextPos, `delivered
      ensures ReaderInvIn(readState)
      ensures ReadOutcome(Ready(bytes), max, Parse(recv, baseNonce, inn.content[base..inn.taken]), inn.readEvent)
      ensures |bytes| < max ==> plaintextPos == |plaintext|
      ensures delivered == old(delivered) + bytes
    {
      hide Parse, FrontOf, Flatten;
      Suspended(recv, baseNonce, Seen(), decoded, readState);
      var n := Min(|plaintext| - plaintextPos, max);
      bytes := plaintext[plaintextPos..plaintextPos + n];
      assert plaintext[plaintextPos..] == bytes + plaintext[plaintextPos + n..];
      delivered, plaintextPos := delivered + bytes, plaintextPos + n;
    }

    method PollRead(max: nat) returns (r: Poll<seq<byte>>)
      requires Valid()
      modifies `readState, `recvNonce, `plaintext, `plaintextPos
      modifies `epoch, `base, `baseNonce, `decoded, `delivered, inn`taken, inn`readEvent
      ensures Valid()
      ensures inn.taken >= old(inn.taken)
      ensures ReadOutcome(r, max,
                Parse(recv, old(baseNonce), inn.content[old(base)..inn.taken]), inn.readEvent)
      ensures epoch == old(epoch) + if r.Failed? && r.error != Inner then 1 else 0
      ensures epoch == old(epoch) ==>
                && base == old(base) && baseNonce == old(baseNonce)
                && delivered == old(delivered) + if r.Ready? then r.value else []
      ensures r.Ready? && |r.value| < max ==> plaintextPos == |plaintext|
    {
      hide Parse, FrontOf, Held, ReadOutcome, WriterInv;
      inn.readEvent := Untouched;
      while true
        invariant inn != out && WriterInv() && ReaderInvIn(readState)
        invariant inn.readEvent == Untouched || inn.readEvent == Moved
        invariant AtRest(readState)
               || (readState.Body? && readState.buf == [] && inn.readEvent == Moved && plaintextPos == |plaintext|)
        invariant inn.taken >= old(inn.taken)
        invariant epoch == old(epoch) && base == old(base) && baseNonce == old(baseNonce)
        invariant delivered == old(delivered)
        decreases |inn.content| - inn.taken
      {
        if plaintextPos < |plaintext| {
          var bytes := Deliver(max);
          return Ready(bytes);
        }
        var state := readState;
        readState := FRESH;
        var done: Option<Poll<seq<byte>>>;
        match state {
          case Len(_, _) => done := ReadHeader(state, max);
          case Body(_, _) => done := ReadBody(state, max);
        }
        if done.Some? {
          return done.value;
        }
      }
    }
  }
}
