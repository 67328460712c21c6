/** Two ends of one session: what arrives is what was accepted, over any schedule of polls. */
module Session {
  import opened Bytes
  import opened Io
  import opened Records
  import opened NoiseSession

  /** `b` reads, from its first byte on and under the same key, what `a` seals. */
  ghost predicate Linked(a: NoiseStream, b: NoiseStream)
    reads a, b, a.inn, a.out, b.inn, b.out
  {
    && a.Valid() && b.Valid()
    && a.out == b.inn && a.send == b.recv
    && (b.epoch == 0 ==> b.base == a.outBase && b.baseNonce == 0)
  }

  /** Everything accepted by `a` has been handed to the caller of `b`. */
  predicate Drained(a: NoiseStream, b: NoiseStream)
    reads a, b, b.inn
  {
    a.writeBuf == [] && b.inn.taken == |b.inn.content| && b.plaintextPos == |b.plaintext|
  }

  lemma ReaderRefinesParser(b: NoiseStream)
    requires b.Valid()
    ensures Parse(b.recv, b.baseNonce, b.Seen()) == Parsed(b.decoded, Held(b.readState), true)
    ensures b.recvNonce == b.baseNonce + |b.decoded|
    ensures b.delivered + b.plaintext[b.plaintextPos..] == Flatten(b.decoded)
  {
    hide Parse;
    Suspended(b.recv, b.baseNonce, b.Seen(), b.decoded, b.readState);
  }

  lemma SeenIsOnWire(a: NoiseStream, b: NoiseStream)
    requires Linked(a, b) && b.epoch == 0
    ensures b.Seen() <= Wire(a.send, 0, a.committed)
    ensures Drained(a, b) ==> b.Seen() == Wire(a.send, 0, a.committed)
  {
    hide Parse, Wire;
    var onPipe := a.out.content[a.outBase..];
    assert b.Seen() <= onPipe;
    if Drained(a, b) {
      assert b.Seen() == onPipe;
      assert onPipe + a.writeBuf[a.writePos..] == onPipe;
    }
  }

  /** Safety: only what was accepted, in order. Completeness: all of it, once both ends are drained. */
  lemma DeliveredIsPrefixOfCommitted(a: NoiseStream, b: NoiseStream)
    requires Linked(a, b) && b.epoch == 0
    ensures b.delivered <= Flatten(a.committed)
    ensures b.decoded <= a.committed
    ensures Drained(a, b) ==> b.delivered == Flatten(a.committed) && b.readState.Len? && b.readState.filled == 0
  {
    hide Parse, Wire, Flatten;
    SeenIsOnWire(a, b);
    ReaderRefinesParser(b);
    ParseOfWirePrefix(a.send, 0, a.committed, b.Seen());
    FlattenPrefix(b.decoded, a.committed);
    if Drained(a, b) {
      assert b.plaintext[b.plaintextPos..] == [];
      assert Held(b.readState) == [];
    }
  }

  /** On an honest pipe every record opens. */
  lemma HonestWireOpens(a: NoiseStream, b: NoiseStream)
    requires Linked(a, b) && b.epoch == 0
    ensures forall t :: b.inn.taken <= t <= |b.inn.content| ==>
              Parse(b.recv, b.baseNonce, b.inn.content[b.base..t]).ok
  {
    hide Parse, Wire;
    forall t | b.inn.taken <= t <= |b.inn.content|
      ensures Parse(b.recv, b.baseNonce, b.inn.content[b.base..t]).ok
    {
      var seen := b.inn.content[b.base..t];
      assert seen <= a.out.content[a.outBase..] <= Wire(a.send, 0, a.committed);
      ParseOfWirePrefix(a.send, 0, a.committed, seen);
    }
  }

  // ---- writing a whole buffer ----

  /** The records a buffer is cut into. */
  function Split(src: seq<byte>): seq<seq<byte>> {
    if src == [] then [] else
      var n := Min(|src|, MAX_PLAINTEXT);
      [src[..n]] + Split(src[n..])
  }

  /** Every byte once, in order, in the least number of records. */
  lemma {:induction false} SplitCarriesOnce(src: seq<byte>)
    ensures Flatten(Split(src)) == src
    ensures |Split(src)| == (|src| + 65518) / 65519
  {
    if src != [] {
      var n := Min(|src|, MAX_PLAINTEXT);
      SplitCarriesOnce(src[n..]);
      assert ([src[..n]] + Split(src[n..]))[1..] == Split(src[n..]);
      assert src[..n] + src[n..] == src;
    }
  }

  /** A failing write has its cause below, or the transport has used up its nonces. */
  ghost predicate Fails(s: NoiseStream, e: IoError)
    reads s`committed, s.out`writeEvent
  {
    || (e == Inner && s.out.writeEvent == SawError)
    || (e == WriteZero && s.out.writeEvent == Moved)
    || (e == Exhausted && |s.committed| == 0xFFFF_FFFF_FFFF_FFFF)
  }

  /**
    A write-all loop that gives up after `polls` polls, of which `suspended` were
    Pending: it stops between records, or behind the one whose write failed.
   */
  method WriteAll(s: NoiseStream, src: seq<byte>, polls: nat)
    returns (rest: seq<byte>, failed: Option<IoError>, suspended: nat)
    requires s.WriterInv()
    modifies s`writeBuf, s`writePos, s`sendNonce, s`committed, s.out`content, s.out`writeEvent
    ensures s.WriterInv()
    ensures exists sent :: sent + Split(rest) == Split(src) && (
              || s.committed == old(s.committed) + sent
              || (failed.Some? && rest != []
                  && s.committed == old(s.committed) + sent + [rest[..Min(|rest|, MAX_PLAINTEXT)]]))
    ensures failed.Some? ==> Fails(s, failed.value)
    ensures failed == None && rest != [] ==> |s.committed| - |old(s.committed)| + suspended == polls
    ensures failed == None && rest == [] ==> s.committed == old(s.committed) + Split(src)
  {
    hide Wire, NoiseStream.WriterInv;
    rest, failed, suspended := src, None, 0;
    ghost var sent: seq<seq<byte>> := [];
    assert old(s.committed) + sent == s.committed && sent + Split(rest) == Split(src);
    for i := 0 to polls
      invariant s.WriterInv()
      invariant s.committed == old(s.committed) + sent
      invariant sent + Split(rest) == Split(src)
      invariant |sent| + suspended == i
    {
      if rest == [] {
        break;
      }
      var r := s.PollWrite(rest);
      match r {
        case Failed(e) =>
          return rest, Some(e), suspended;
        case Pending =>
          suspended := suspended + 1;
        case Ready(n) =>
          assert sent + ([rest[..n]] + Split(rest[n..])) == (sent + [rest[..n]]) + Split(rest[n..]);
          sent, rest := sent + [rest[..n]], rest[n..];
      }
    }
    if rest == [] {
      assert sent + Split(rest) == sent;
    }
  }

  // ---- whole runs ----

  datatype End = Client | Server

  datatype Op =
    | Write(end: End, data: seq<byte>)
    | Flush(end: End)
    | Read(end: End, max: nat)

  /** A call of the writer, and what it was told. */
  datatype Attempt = Attempt(data: seq<byte>, outcome: Poll<nat>)

  /** One direction of a run as its two callers saw it. */
  datatype Transcript = Transcript(writes: seq<Attempt>, polls: seq<Poll<seq<byte>>>)

  const SILENT := Transcript([], [])

  /** The bytes that reads returned. */
  function Got(polls: seq<Poll<seq<byte>>>): seq<byte> {
    if polls == [] then [] else
      var r := polls[|polls| - 1];
      Got(polls[..|polls| - 1]) + if r.Ready? then r.value else []
  }

  lemma GotSnoc(polls: seq<Poll<seq<byte>>>, r: Poll<seq<byte>>)
    ensures Got(polls + [r]) == Got(polls) + if r.Ready? then r.value else []
  {
    assert (polls + [r])[..|polls|] == polls;
  }

  /** The reader has been told of an end inside a record, or of a record that does not open. */
  predicate Stopped(polls: seq<Poll<seq<byte>>>) {
    exists r <- polls :: r.Failed? && r.error != Inner
  }

  /** What a write may have put on its way: the bytes reported, and after an error nothing or one record's worth. */
  ghost predicate Adds(w: Attempt, x: seq<byte>) {
    var chunk := w.data[..Min(|w.data|, MAX_PLAINTEXT)];
    match w.outcome
    case Pending => x == []
    case Ready(n) => x == chunk && n == |chunk|
    case Failed(e) => x == [] || (x == chunk && e != Exhausted)
  }

  ghost predicate AllAdd(writes: seq<Attempt>, added: seq<seq<byte>>) {
    |added| == |writes| && forall i :: 0 <= i < |writes| ==> Adds(writes[i], added[i])
  }

  /** The bytes a writer was told are taken. */
  function Accepted(writes: seq<Attempt>): seq<byte> {
    if writes == [] then [] else
      var w := writes[|writes| - 1];
      Accepted(writes[..|writes| - 1])
      + if w.outcome.Ready? then w.data[..Min(w.outcome.value, |w.data|)] else []
  }

  /** Without a failed write the bytes on their way are the bytes reported. */
  lemma {:induction false} AcceptedIsAdded(writes: seq<Attempt>, added: seq<seq<byte>>)
    requires AllAdd(writes, added)
    requires forall w <- writes :: !w.outcome.Failed?
    ensures Flatten(added) == Accepted(writes)
  {
    hide Flatten;
    if writes == [] {
      FlattenNothing<byte>();
    } else {
      var n := |writes| - 1;
      assert forall w <- writes[..n] :: w in writes;
      AcceptedIsAdded(writes[..n], added[..n]);
      FlattenSnoc(added[..n], added[n]);
      assert added == added[..n] + [added[n]];
      assert writes[n] in writes;
    }
  }

  /** What an end was asked to write by a schedule, call by call. */
  function Offered(schedule: seq<Op>, end: End): seq<seq<byte>> {
    if schedule == [] then [] else Offered(schedule[..|schedule| - 1], end) + Offer(schedule[|schedule| - 1], end)
  }

  function Offer(op: Op, end: End): seq<seq<byte>> {
    if op.Write? && op.end == end then [op.data] else []
  }

  /** How many reads a schedule asks an end for. */
  function Asked(schedule: seq<Op>, end: End): nat {
    if schedule == [] then 0 else Asked(schedule[..|schedule| - 1], end) + Asks(schedule[|schedule| - 1], end)
  }

  function Asks(op: Op, end: End): nat {
    if op.Read? && op.end == end then 1 else 0
  }

  function Data(writes: seq<Attempt>): seq<seq<byte>> {
    seq(|writes|, i requires 0 <= i < |writes| => writes[i].data)
  }

  ghost predicate Duplex(c: NoiseStream, s: NoiseStream)
    reads c, s, c.inn, c.out, s.inn, s.out
  {
    c != s && c.out != s.out && c.out == s.inn && s.out == c.inn && Linked(c, s) && Linked(s, c)
  }

  /** A transcript tells the truth about the direction from `a` to `b`. */
  ghost predicate Recorded(t: Transcript, added: seq<seq<byte>>, a: NoiseStream, b: NoiseStream)
    reads a`committed, b`epoch, b`delivered
  {
    && AllAdd(t.writes, added) && Flatten(added) == Flatten(a.committed)
    && Got(t.polls) <= Flatten(a.committed)
    && (!Stopped(t.polls) ==> b.epoch == 0 && Got(t.polls) == b.delivered)
    && Failed(InvalidData) !in t.polls
  }

  method StepWrite(a: NoiseStream, ghost b: NoiseStream, data: seq<byte>, t: Transcript, ghost added: seq<seq<byte>>)
    returns (u: Transcript, ghost more: seq<seq<byte>>)
    requires Duplex(a, b) && Recorded(t, added, a, b)
    modifies a`writeBuf, a`writePos, a`sendNonce, a`committed, a.out`content, a.out`writeEvent
    ensures Duplex(a, b) && Recorded(u, more, a, b)
    ensures Data(u.writes) == Data(t.writes) + [data] && u.polls == t.polls
  {
    hide Parse, Wire, Flatten, Prepend, Held, NoiseStream.WriterInv;
    ghost var seen, committed := b.Seen(), a.committed;
    var r := a.PollWrite(data);
    assert b.Seen() == seen;
    u := t.(writes := t.writes + [Attempt(data, r)]);
    ghost var x := if a.committed == committed then [] else data[..Min(|data|, MAX_PLAINTEXT)];
    more := added + [x];
    Sealed(committed, a.committed, added, x, Got(t.polls));
  }

  /** The bytes on their way after one more chunk, or none. */
  lemma Sealed(before: seq<seq<byte>>, after: seq<seq<byte>>, added: seq<seq<byte>>, x: seq<byte>, got: seq<byte>)
    requires Flatten(added) == Flatten(before) && got <= Flatten(before)
    requires after == before + [x] || (after == before && x == [])
    ensures Flatten(added + [x]) == Flatten(after) && got <= Flatten(after)
  {
    hide Flatten;
    FlattenSnoc(added, x);
    FlattenSnoc(before, x);
    assert Flatten(before) + [] == Flatten(before);
  }

  method StepFlush(a: NoiseStream, ghost b: NoiseStream)
    requires Duplex(a, b)
    modifies a`writeBuf, a`writePos, a.out`content, a.out`writeEvent, a.out`flushed
    ensures Duplex(a, b)
  {
    hide Parse, Wire, Flatten, Prepend, Held, NoiseStream.WriterInv;
    ghost var seen := b.Seen();
    var _ := a.PollFlush();
    assert b.Seen() == seen;
  }

  /** A read on an honest pipe: the ends stay joined, and what comes is the next of what was committed. */
  method HonestRead(ghost a: NoiseStream, b: NoiseStream, max: nat) returns (r: Poll<seq<byte>>)
    requires Duplex(a, b) && b.epoch == 0
    modifies b`readState, b`recvNonce, b`plaintext, b`plaintextPos
    modifies b`epoch, b`base, b`baseNonce, b`decoded, b`delivered, b.inn`taken, b.inn`readEvent
    ensures Duplex(a, b) && r != Failed(InvalidData)
    ensures b.epoch == if r.Failed? && r.error != Inner then 1 else 0
    ensures b.epoch == 0 ==> b.delivered == old(b.delivered) + if r.Ready? then r.value else []
    ensures b.epoch == 0 ==> b.delivered <= Flatten(a.committed)
  {
    hide Parse, Wire, Flatten, Held;
    HonestWireOpens(a, b);
    r := b.PollRead(max);
    if b.epoch == 0 {
      DeliveredIsPrefixOfCommitted(a, b);
    }
  }

  method StepRead(a: NoiseStream, b: NoiseStream, max: nat, t: Transcript, ghost added: seq<seq<byte>>)
    returns (u: Transcript)
    requires Duplex(a, b) && Recorded(t, added, a, b)
    modifies b`readState, b`recvNonce, b`plaintext, b`plaintextPos
    modifies b`epoch, b`base, b`baseNonce, b`decoded, b`delivered, b.inn`taken, b.inn`readEvent
    ensures Duplex(a, b) && Recorded(u, added, a, b)
    ensures u.writes == t.writes
    ensures t.polls <= u.polls && |u.polls| == |t.polls| + if Stopped(t.polls) then 0 else 1
  {
    hide Duplex, Flatten, Got, Stopped, AllAdd;
    if Stopped(t.polls) {
      return t;  // callers do not read past a fatal error
    }
    var r := HonestRead(a, b, max);
    u := t.(polls := t.polls + [r]);
    GotSnoc(t.polls, r);
    StoppedSnoc(t.polls, r);
    assert Got(t.polls) + [] == Got(t.polls);
  }

  lemma StoppedSnoc(polls: seq<Poll<seq<byte>>>, r: Poll<seq<byte>>)
    ensures Stopped(polls + [r]) <==> Stopped(polls) || (r.Failed? && r.error != Inner)
  {
    var more := polls + [r];
    assert more[|polls|] == r;
    assert forall x <- polls :: x in more;
  }

  method Step(c: NoiseStream, s: NoiseStream, op: Op, t: Transcript, u: Transcript,
              ghost tAdded: seq<seq<byte>>, ghost uAdded: seq<seq<byte>>)
    returns (up: Transcript, down: Transcript, ghost upAdded: seq<seq<byte>>, ghost downAdded: seq<seq<byte>>)
    requires Duplex(c, s) && Recorded(t, tAdded, c, s) && Recorded(u, uAdded, s, c)
    modifies c, s, c.inn, c.out
    ensures Duplex(c, s) && Recorded(up, upAdded, c, s) && Recorded(down, downAdded, s, c)
    ensures Data(up.writes) == Data(t.writes) + Offer(op, Client)
    ensures Data(down.writes) == Data(u.writes) + Offer(op, Server)
    ensures !Stopped(up.polls) ==> !Stopped(t.polls) && |up.polls| == |t.polls| + Asks(op, Server)
    ensures !Stopped(down.polls) ==> !Stopped(u.polls) && |down.polls| == |u.polls| + Asks(op, Client)
  {
    hide Linked, Recorded;
    up, down, upAdded, downAdded := t, u, tAdded, uAdded;
    match op {
      case Write(Client, data) => up, upAdded := StepWrite(c, s, data, t, tAdded);
      case Write(Server, data) => down, downAdded := StepWrite(s, c, data, u, uAdded);
      case Flush(Client) => StepFlush(c, s);
      case Flush(Server) => StepFlush(s, c);
      case Read(Client, max) => down := StepRead(s, c, max, u, uAdded);
      case Read(Server, max) => up := StepRead(c, s, max, t, tAdded);
    }
  }

  /** Two fresh ends over two fresh pipes. */
  method Connect(clientKey: Aead, serverKey: Aead) returns (c: NoiseStream, s: NoiseStream)
    ensures Duplex(c, s) && fresh({c, s}) && fresh({c.inn, c.out})
    ensures Recorded(SILENT, [], c, s) && Recorded(SILENT, [], s, c)
  {
    hide Parse, Wire, NoiseStream.Valid;
    var p := new Pipe();
    var q := new Pipe();
    c := new NoiseStream(clientKey, serverKey, q, p);
    s := new NoiseStream(serverKey, clientKey, p, q);
    FlattenNothing<byte>();
  }

  lemma Concluded(t: Transcript, added: seq<seq<byte>>, a: NoiseStream, b: NoiseStream)
    requires Duplex(a, b) && Recorded(t, added, a, b)
    ensures Failed(InvalidData) !in t.polls && AllAdd(t.writes, added) && Got(t.polls) <= Flatten(added)
    ensures !Stopped(t.polls) && Drained(a, b) ==> Got(t.polls) == Flatten(added)
  {
    hide Flatten, Got, Stopped;
    if !Stopped(t.polls) {
      DeliveredIsPrefixOfCommitted(a, b);
    }
  }

  /** A schedule carried out by two ends: transcripts stay true, and reach completeness when drained. */
  method Play(c: NoiseStream, s: NoiseStream, schedule: seq<Op>)
    returns (up: Transcript, down: Transcript, ghost upAdded: seq<seq<byte>>, ghost downAdded: seq<seq<byte>>)
    requires Duplex(c, s) && Recorded(SILENT, [], c, s) && Recorded(SILENT, [], s, c)
    modifies c, s, c.inn, c.out
    ensures Duplex(c, s) && Recorded(up, upAdded, c, s) && Recorded(down, downAdded, s, c)
    ensures !Stopped(up.polls) && Drained(c, s) ==> Got(up.polls) == Flatten(upAdded)
    ensures !Stopped(down.polls) && Drained(s, c) ==> Got(down.polls) == Flatten(downAdded)
    ensures Data(up.writes) == Offered(schedule, Client) && Data(down.writes) == Offered(schedule, Server)
    ensures !Stopped(up.polls) ==> |up.polls| == Asked(schedule, Server)
    ensures !Stopped(down.polls) ==> |down.polls| == Asked(schedule, Client)
  {
    hide Linked, Recorded, Drained, Offer, Asks, Got, Stopped;
    up, down, upAdded, downAdded := SILENT, SILENT, [], [];
    for i := 0 to |schedule|
      invariant Duplex(c, s)
      invariant Recorded(up, upAdded, c, s) && Recorded(down, downAdded, s, c)
      invariant Data(up.writes) == Offered(schedule[..i], Client)
      invariant Data(down.writes) == Offered(schedule[..i], Server)
      invariant !Stopped(up.polls) ==> |up.polls| == Asked(schedule[..i], Server)
      invariant !Stopped(down.polls) ==> |down.polls| == Asked(schedule[..i], Client)
    {
      up, down, upAdded, downAdded := Step(c, s, schedule[i], up, down, upAdded, downAdded);
      assert schedule[..i + 1][..i] == schedule[..i];
    }
    assert schedule[..|schedule|] == schedule;
    Concluded(up, upAdded, c, s);
    Concluded(down, downAdded, s, c);
  }

  /**
    Any interleaving of writes, flushes and reads by the two ends, over pipes
    that may shorten, suspend, fail or end any poll. `upAdded` is what each write
    put on its way; `upDone` says whether the direction was drained at the end.
   */
  method Run(clientKey: Aead, serverKey: Aead, schedule: seq<Op>)
    returns (up: Transcript, down: Transcript, upDone: bool, downDone: bool,
             ghost upAdded: seq<seq<byte>>, ghost downAdded: seq<seq<byte>>)
    ensures Data(up.writes) == Offered(schedule, Client) && Data(down.writes) == Offered(schedule, Server)
    ensures !Stopped(up.polls) ==> |up.polls| == Asked(schedule, Server)
    ensures !Stopped(down.polls) ==> |down.polls| == Asked(schedule, Client)
    ensures Failed(InvalidData) !in up.polls && Failed(InvalidData) !in down.polls
    ensures AllAdd(up.writes, upAdded) && AllAdd(down.writes, downAdded)
    ensures Got(up.polls) <= Flatten(upAdded) && Got(down.polls) <= Flatten(downAdded)
    ensures upDone && !Stopped(up.polls) ==> Got(up.polls) == Flatten(upAdded)
    ensures downDone && !Stopped(down.polls) ==> Got(down.polls) == Flatten(downAdded)
    ensures (forall w <- up.writes :: !w.outcome.Failed?) ==> Flatten(upAdded) == Accepted(up.writes)
    ensures (forall w <- down.writes :: !w.outcome.Failed?) ==> Flatten(downAdded) == Accepted(down.writes)
  {
    hide Linked, Drained, Flatten, Offered, Asked, Accepted, Adds, Got, Stopped;
    var c, s := Connect(clientKey, serverKey);
    up, down, upAdded, downAdded := Play(c, s, schedule);
    upDone, downDone := Drained(c, s), Drained(s, c);
    Concluded(up, upAdded, c, s);
    Concluded(down, downAdded, s, c);
    if forall w <- up.writes :: !w.outcome.Failed? {
      AcceptedIsAdded(up.writes, upAdded);
    }
    if forall w <- down.writes :: !w.outcome.Failed? {
      AcceptedIsAdded(down.writes, downAdded);
    }
  }
}
