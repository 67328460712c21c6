/** Bytes through WebSocket messages: the same FIFO contract as a plain pipe. */
module WsAdapter {
  import opened Bytes
  import opened Io

  /** `Other` is a ping, a pong or text: nothing of it reaches the byte stream. */
  datatype Message = Binary(data: seq<byte>) | Close | Other

  datatype Next = NotYet | Ended | Broken | Got(message: Message)

  /** The bytes a list of messages stands for. */
  function Payload(messages: seq<Message>): seq<byte> {
    if messages == [] then [] else DataOf(messages[0]) + Payload(messages[1..])
  }

  function DataOf(m: Message): seq<byte> {
    if m.Binary? then m.data else []
  }

  lemma {:induction false} PayloadAppend(a: seq<Message>, b: seq<Message>)
    ensures Payload(a + b) == Payload(a) + Payload(b)
  {
    if a == [] {
      assert a + b == b;
    } else {
      assert (a + b)[1..] == a[1..] + b;
      PayloadAppend(a[1..], b);
    }
  }

  lemma PayloadTake(messages: seq<Message>, n: nat)
    requires n < |messages|
    ensures Payload(messages[..n + 1]) == Payload(messages[..n]) + DataOf(messages[n])
  {
    assert messages[..n + 1] == messages[..n] + [messages[n]];
    PayloadAppend(messages[..n], [messages[n]]);
    assert [messages[n]][1..] == [];
  }

  lemma PayloadPrefix(messages: seq<Message>, n: nat)
    requires n <= |messages|
    ensures Payload(messages[..n]) <= Payload(messages)
  {
    assert messages == messages[..n] + messages[n..];
    PayloadAppend(messages[..n], messages[n..]);
  }

  /** One direction of a WebSocket connection. */
  class MessagePipe {
    var sent: seq<Message>
    var next: nat
    ghost var last: Next        // what the reader's last poll of the connection gave
    ghost var sendEvent: Event  // how the writer's last attempt to send or flush went
    ghost var flushed: nat      // how many messages the last flush pushed out

    ghost predicate Valid()
      reads `sent, `next
    {
      next <= |sent|
    }

    constructor ()
      ensures Valid() && sent == [] && next == 0
    {
      sent, next := [], 0;
    }

    method PollNext() returns (r: Next)
      requires Valid()
      modifies `next, `last
      ensures Valid() && last == r
      ensures if r.Got? then old(next) < |sent| && next == old(next) + 1 && r.message == sent[old(next)]
              else next == old(next)
    {
      if * {
        r := NotYet;
      } else if * {
        r := Broken;
      } else if * {
        r := Ended;
      } else if next < |sent| {
        r, next := Got(sent[next]), next + 1;
      } else {
        r := NotYet;
      }
      last := r;
    }

    /** Wait for room, then send. */
    method PollReady() returns (r: Poll<()>)
      modifies `sendEvent
      ensures r.Pending? ==> sendEvent == SawPending
      ensures r.Failed? ==> sendEvent == SawError && r.error == Inner
    {
      if * {
        r, sendEvent := Pending, SawPending;
      } else if * {
        r, sendEvent := Failed(Inner), SawError;
      } else {
        r := Ready(());
      }
    }

    method PollFlush() returns (r: Poll<()>)
      modifies `sendEvent, `flushed
      ensures flushed == if r.Ready? then |sent| else old(flushed)
      ensures r.Pending? ==> sendEvent == SawPending
      ensures r.Failed? ==> sendEvent == SawError && r.error == Inner
      ensures r.Ready? ==> sendEvent == Moved
    {
      if * {
        r, sendEvent := Pending, SawPending;
      } else if * {
        r, sendEvent := Failed(Inner), SawError;
      } else {
        r, sendEvent, flushed := Ready(()), Moved, |sent|;
      }
    }

    method StartSend(m: Message) returns (ok: bool)
      requires Valid()
      modifies `sent, `sendEvent
      ensures Valid()
      ensures sent == if ok then old(sent) + [m] else old(sent)
      ensures sendEvent == if ok then Moved else SawError
    {
      if * {
        ok, sendEvent := false, SawError;
      } else {
        ok, sent, sendEvent := true, sent + [m], Moved;
      }
    }
  }

  class WsStream {
    const rx: MessagePipe
    const tx: MessagePipe
    var readBuf: seq<byte>
    var readPos: nat
    ghost var taken: nat  // bytes handed to the caller
    ghost var readEvent: Event
    ghost var writeEvent: Event

    ghost predicate Valid()
      reads this, rx, tx
    {
      && rx != tx && rx.Valid() && tx.Valid()
      && readPos <= |readBuf|
      && taken <= |Payload(rx.sent[..rx.next])|
      && readBuf[readPos..] == Payload(rx.sent[..rx.next])[taken..]
    }

    constructor (rx: MessagePipe, tx: MessagePipe)
      requires rx != tx && rx.Valid() && tx.Valid() && rx.next == 0
      ensures Valid() && this.rx == rx && this.tx == tx && taken == 0
    {
      this.rx, this.tx := rx, tx;
      readBuf, readPos, taken := [], 0, 0;
    }

    /** Hand over buffered bytes. */
    method Deliver(max: nat) returns (bytes: seq<byte>)
      requires Valid() && readPos < |readBuf|
      modifies `readPos, `taken
      ensures Valid()
      ensures taken == old(taken) + |bytes| && |bytes| <= max && (max > 0 ==> bytes != [])
      ensures |bytes| < max ==> readPos == |readBuf|
      ensures taken <= |Payload(rx.sent)| && bytes == Payload(rx.sent)[old(taken)..taken]
    {
      hide Payload;
      PayloadPrefix(rx.sent, rx.next);
      var n := Min(|readBuf| - readPos, max);
      bytes := readBuf[readPos..readPos + n];
      assert bytes == readBuf[readPos..][..n];
      assert readBuf[readPos + n..] == readBuf[readPos..][n..];
      readPos, taken := readPos + n, taken + n;
    }

    /** A byte read from the FIFO of all payload bytes; only a close or the end of the connection ends it. */
    method PollRead(max: nat) returns (r: Poll<seq<byte>>)
      requires Valid()
      modifies `readBuf, `readPos, `taken, `readEvent, rx`next, rx`last
      ensures Valid()
      ensures ReadStep(Payload(rx.sent), old(taken), taken, max, r, readEvent)
      ensures readEvent == SawEof ==> rx.last == Ended || rx.last == Got(Close)
      ensures readEvent == SawError ==> rx.last == Broken
      ensures r.Pending? <==> rx.last == NotYet && readEvent == SawPending
      ensures r.Ready? && |r.value| < max ==> readPos == |readBuf|
    {
      hide Payload;
      readEvent := Untouched;
      while true
        invariant Valid() && taken == old(taken)
        decreases |rx.sent| - rx.next
      {
        if readPos < |readBuf| {
          var bytes := Deliver(max);
          readEvent := Moved;
          return Ready(bytes);
        }
        PayloadPrefix(rx.sent, rx.next);
        assert taken == |Payload(rx.sent[..rx.next])| by {
          assert readBuf[readPos..] == [];
        }
        var next := rx.PollNext();
        match next {
          case NotYet =>
            readEvent := SawPending;
            return Pending;
          case Ended =>
            readEvent := SawEof;
            return Ready([]);
          case Broken =>
            readEvent := SawError;
            return Failed(Inner);
          case Got(message) =>
            PayloadTake(rx.sent, rx.next - 1);
            PayloadPrefix(rx.sent, rx.next);
            match message {
              case Binary(data) =>
                readBuf, readPos := data, 0;
                assert readBuf[readPos..] == data;
              case Close =>
                readEvent := SawEof;
                return Ready([]);
              case Other =>
                continue;
            }
        }
      }
    }

    /** The whole buffer travels as one binary message. */
    method PollWrite(buf: seq<byte>) returns (r: Poll<nat>)
      requires Valid()
      modifies tx`sent, tx`sendEvent, `writeEvent
      ensures Valid() && writeEvent == tx.sendEvent
      ensures WriteStep(old(Payload(tx.sent)), Payload(tx.sent), buf, r, writeEvent)
      ensures r.Ready? ==> r.value == |buf|
      ensures tx.sent == old(tx.sent) + if r.Ready? then [Binary(buf)] else []
    {
      hide Payload;
      var ready := tx.PollReady();
      match ready {
        case Pending =>
          writeEvent := SawPending;
          return Pending;
        case Failed(e) =>
          writeEvent := SawError;
          return Failed(e);
        case Ready(_) =>
      }
      PayloadTake(tx.sent + [Binary(buf)], |tx.sent|);
      assert (tx.sent + [Binary(buf)])[..|tx.sent|] == tx.sent;
      var all := (tx.sent + [Binary(buf)])[..|tx.sent| + 1];
      assert all == tx.sent + [Binary(buf)];
      var ok := tx.StartSend(Binary(buf));
      if ok {
        writeEvent := Moved;
        r := Ready(|buf|);
      } else {
        writeEvent := SawError;
        r := Failed(Inner);
      }
    }

    /** Ready only when every message sent has been pushed out. */
    method PollFlush() returns (r: Poll<()>)
      requires Valid()
      modifies tx`sendEvent, tx`flushed, `writeEvent
      ensures Valid() && writeEvent == tx.sendEvent
      ensures tx.flushed == if r.Ready? then |tx.sent| else old(tx.flushed)
      ensures r.Pending? ==> writeEvent == SawPending
      ensures r.Failed? ==> writeEvent == SawError && r.error == Inner
    {
      r := tx.PollFlush();
      writeEvent := tx.sendEvent;
    }
  }

  /** `p` is the byte pipe that a WebSocket connection from `w` to `v` amounts to. */
  ghost predicate Carries(p: Pipe, w: WsStream, v: WsStream)
    reads p, w, v, w.rx, w.tx, v.rx, v.tx
  {
    && p.Valid() && w.Valid() && v.Valid() && w != v && w.tx == v.rx
    && p.content == Payload(w.tx.sent)
    && p.taken == v.taken
  }

  /** Writing through the WebSocket meets the contract of writing to the pipe, and they stay the same thing. */
  method WriteVia(p: Pipe, w: WsStream, ghost v: WsStream, src: seq<byte>) returns (r: Poll<nat>)
    requires Carries(p, w, v)
    modifies p`content, p`writeEvent, w.tx`sent, w.tx`sendEvent, w`writeEvent
    ensures Carries(p, w, v)
    ensures WriteStep(old(p.content), p.content, src, r, p.writeEvent)
  {
    hide Payload;
    ghost var arrived := v.rx.sent[..v.rx.next];
    r := w.PollWrite(src);
    if r.Ready? {
      assert src[..|src|] == src;
      p.content := p.content + src[..r.value];
    }
    p.writeEvent := w.writeEvent;
    assert v.rx.sent[..v.rx.next] == arrived;
    PayloadPrefix(v.rx.sent, v.rx.next);
  }

  /** Flushing the WebSocket pushes out every byte of the pipe. */
  method FlushVia(p: Pipe, w: WsStream, ghost v: WsStream) returns (r: Poll<()>)
    requires Carries(p, w, v)
    modifies p`writeEvent, p`flushed, w.tx`sendEvent, w.tx`flushed, w`writeEvent
    ensures Carries(p, w, v)
    ensures p.flushed == if r.Ready? then |p.content| else old(p.flushed)
    ensures r.Ready? ==> w.tx.flushed == |w.tx.sent|
    ensures r.Pending? ==> p.writeEvent == SawPending
    ensures r.Failed? ==> p.writeEvent == SawError && r.error == Inner
  {
    hide Payload;
    ghost var arrived := v.rx.sent[..v.rx.next];
    r := w.PollFlush();
    p.writeEvent := w.writeEvent;
    if r.Ready? {
      p.flushed := |p.content|;
    }
    assert v.rx.sent[..v.rx.next] == arrived;
  }

  /** And so does reading. */
  method ReadVia(p: Pipe, ghost w: WsStream, v: WsStream, max: nat) returns (r: Poll<seq<byte>>)
    requires Carries(p, w, v)
    modifies p`taken, p`readEvent, v`readBuf, v`readPos, v`taken, v`readEvent, v.rx`next, v.rx`last
    ensures Carries(p, w, v)
    ensures ReadStep(p.content, old(p.taken), p.taken, max, r, p.readEvent)
  {
    hide Payload;
    r := v.PollRead(max);
    if r.Ready? {
      p.taken := p.taken + |r.value|;
    }
    p.readEvent := v.readEvent;
  }
}
