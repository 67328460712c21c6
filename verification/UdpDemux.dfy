/** One public UDP port: received datagrams are sorted by source into sessions, each with its own substream. */
module UdpDemux {
  import opened Bytes
  import opened UdpPath
  import Proto

  const UDP_BUF := 64 * 1024

  type Address = nat
  type Datagram = seq<byte>

  /** A session's queue and the bytes its writer has put into the substream. */
  datatype Channel = Channel(
    src: Address,
    queued: seq<Datagram>,  // everything ever sent to the queue
    live: bool,             // the receiving end still exists
    headSent: bool,
    written: nat,           // datagrams taken from the queue and written whole
    wire: seq<byte>)

  /** What became of a received datagram. */
  datatype Arrival = Arrival(src: Address, data: Datagram, kept: bool)

  function QueuedFor(channels: seq<Channel>, src: Address): seq<Datagram> {
    if channels == [] then [] else
      var last := channels[|channels| - 1];
      QueuedFor(channels[..|channels| - 1], src) + if last.src == src then last.queued else []
  }

  function KeptFor(log: seq<Arrival>, src: Address): seq<Datagram> {
    if log == [] then [] else
      var last := log[|log| - 1];
      KeptFor(log[..|log| - 1], src) + if last.src == src && last.kept then [last.data] else []
  }

  lemma QueuedSnoc(channels: seq<Channel>, c: Channel, src: Address)
    ensures QueuedFor(channels + [c], src) == QueuedFor(channels, src) + if c.src == src then c.queued else []
  {
    assert (channels + [c])[..|channels|] == channels;
  }

  lemma KeptSnoc(log: seq<Arrival>, a: Arrival, src: Address)
    ensures KeptFor(log + [a], src) == KeptFor(log, src) + if a.src == src && a.kept then [a.data] else []
  {
    assert (log + [a])[..|log|] == log;
  }

  /** Replacing a channel by one of the same source only matters to that source, and only by its queue. */
  lemma {:induction false} QueuedUpdate(channels: seq<Channel>, k: nat, c: Channel, more: seq<Datagram>, src: Address)
    requires k < |channels| && c.src == channels[k].src && c.queued == channels[k].queued + more
    requires more == [] || forall j :: k < j < |channels| ==> channels[j].src != c.src
    ensures QueuedFor(channels[k := c], src) == QueuedFor(channels, src) + if c.src == src then more else []
    decreases |channels|
  {
    var n := |channels| - 1;
    var updated := channels[k := c];
    if k == n {
      assert updated[..n] == channels[..n];
      var before := QueuedFor(channels[..n], src);
      assert before + (channels[k].queued + more) == (before + channels[k].queued) + more;
    } else {
      assert updated[..n] == channels[..n][k := c];
      QueuedUpdate(channels[..n], k, c, more, src);
    }
  }

  /** Whatever part of the substream is read, it says the head and the first datagrams of the queue. */
  ghost predicate ReadsBack(codec: Proto.Codec, head: Proto.DataHead, c: Channel) {
    forall seen | seen <= c.wire :: Faithful(Read(codec, seen), head, c.queued)
  }

  class UdpProxy {
    const codec: Proto.Codec
    const head: Proto.DataHead
    var sessions: map<Address, nat>         // source to its channel
    var channels: seq<Channel>              // in the order they were created
    var opening: Option<(Address, Datagram)> // the loop waits for a substream for this datagram
    var bytesIn: nat
    ghost var received: seq<(Address, Datagram)>
    ghost var log: seq<Arrival>

    function HeadFrame(): seq<byte> {
      Proto.Prefixed(codec.encode(head))
    }

    /** A live session has written its head and first datagrams whole; a dead one may have stopped inside a frame. */
    ghost predicate WellWritten(c: Channel) {
      && c.written <= |c.queued| && Proto.Framable(c.queued)
      && (!c.headSent ==> c.written == 0)
      && (c.live ==> c.wire == (if c.headSent then HeadFrame() else []) + Proto.Stream(c.queued[..c.written]))
      && c.wire <= HeadFrame() + Proto.Stream(c.queued)
    }

    /** The table leads to the newest channel of a source; a live receiver is always in the table. */
    ghost predicate TableOk()
      reads `sessions, `channels
    {
      && (forall src <- sessions ::
            && sessions[src] < |channels| && channels[sessions[src]].src == src
            && forall k :: sessions[src] < k < |channels| ==> channels[k].src != src)
      && (forall k :: 0 <= k < |channels| && channels[k].live ==>
            channels[k].src in sessions && sessions[channels[k].src] == k)
    }

    /** Every datagram has exactly one fate, in order; the kept ones are what their source's queues hold. */
    ghost predicate Accounted()
      reads `channels, `opening, `log, `received
    {
      && |received| == |log| + (if opening.Some? then 1 else 0)
      && (forall i :: 0 <= i < |log| ==> received[i] == (log[i].src, log[i].data))
      && (opening.Some? ==> received[|log|] == opening.value)
      && (forall src :: QueuedFor(channels, src) == KeptFor(log, src))
    }

    ghost predicate Valid()
      reads this
    {
      && TableOk() && Accounted()
      && (opening.Some? ==> opening.value.0 !in sessions && |opening.value.1| <= UDP_BUF)
      && forall k :: 0 <= k < |channels| ==> WellWritten(channels[k])
    }

    constructor (codec: Proto.Codec, head: Proto.DataHead)
      ensures Valid() && channels == [] && log == [] && received == [] && opening == None && bytesIn == 0
      ensures this.codec == codec && this.head == head
    {
      this.codec, this.head := codec, head;
      sessions, channels, opening, bytesIn := map[], [], None, 0;
      received, log := [], [];
    }

    /** Put a datagram into the queue of a channel whose receiver lives. */
    method Enqueue(k: nat, data: Datagram)
      requires Valid() && opening == None && k < |channels| && channels[k].live && |data| <= UDP_BUF
      modifies `channels, `log, `received
      ensures Valid()
      ensures channels == old(channels)[k := old(channels)[k].(queued := old(channels)[k].queued + [data])]
      ensures log == old(log) + [Arrival(old(channels)[k].src, data, true)]
      ensures received == old(received) + [(old(channels)[k].src, data)]
    {
      hide Proto.Stream, Proto.Prefixed, QueuedFor, KeptFor;
      ghost var was, oldLog := channels, log;
      var c := channels[k].(queued := channels[k].queued + [data]);
      assert c.queued[..c.written] == was[k].queued[..c.written];
      Proto.StreamAppend(was[k].queued, [data]);
      channels := channels[k := c];
      log, received := log + [Arrival(c.src, data, true)], received + [(c.src, data)];
      forall src
        ensures QueuedFor(channels, src) == KeptFor(log, src)
      {
        QueuedUpdate(was, k, c, [data], src);
        KeptSnoc(oldLog, Arrival(c.src, data, true), src);
      }
    }

    /** A datagram comes in; the loop either queues it or starts opening a substream for it. */
    method Receive(src: Address, packet: Datagram)
      requires Valid() && opening == None
      modifies `sessions, `channels, `opening, `bytesIn, `received, `log
      ensures Valid()
      ensures var data := packet[..Min(|packet|, UDP_BUF)];
              && (|packet| <= 65527 ==> data == packet)
              && bytesIn == old(bytesIn) + |data|
              && received == old(received) + [(src, data)]
              && if src in old(sessions) && old(channels[sessions[src]].live) then
                   && sessions == old(sessions) && opening == None && log == old(log) + [Arrival(src, data, true)]
                   && |channels| == |old(channels)|
                   && channels[old(sessions)[src]].queued == old(channels[sessions[src]].queued) + [data]
                 else
                   && sessions == old(sessions) - {src} && opening == Some((src, data))
                   && log == old(log) && channels == old(channels)
    {
      hide WellWritten, QueuedFor, KeptFor;
      var data := packet[..Min(|packet|, UDP_BUF)];
      bytesIn := bytesIn + |data|;
      if src in sessions && channels[sessions[src]].live {
        Enqueue(sessions[src], data);
        return;
      }
      sessions := sessions - {src};
      opening := Some((src, data));
      received := received + [(src, data)];
    }

    /** The substream is open: a new session starts with the datagram that caused it. */
    method Opened()
      requires Valid() && opening.Some?
      modifies `sessions, `channels, `opening, `log
      ensures Valid() && opening == None
      ensures var (src, data) := old(opening).value;
              && channels == old(channels) + [Channel(src, [data], true, false, 0, [])]
              && log == old(log) + [Arrival(src, data, true)]
              && sessions == old(sessions)[src := |old(channels)|]
    {
      hide Proto.Stream, Proto.Prefixed, QueuedFor, KeptFor;
      var (src, data) := opening.value;
      ghost var was, oldLog := channels, log;
      var c := Channel(src, [data], true, false, 0, []);
      Proto.StreamNothing();
      assert c.queued[..0] == [];
      channels := channels + [c];
      sessions, opening := sessions[src := |channels| - 1], None;
      log := log + [Arrival(src, data, true)];
      forall s
        ensures QueuedFor(channels, s) == KeptFor(log, s)
      {
        QueuedSnoc(was, c, s);
        KeptSnoc(oldLog, Arrival(src, data, true), s);
      }
    }

    /** Opening failed: this datagram is dropped, and the loop goes on. */
    method OpenFailed()
      requires Valid() && opening.Some?
      modifies `opening, `log
      ensures Valid() && opening == None
      ensures log == old(log) + [Arrival(old(opening).value.0, old(opening).value.1, false)]
    {
      ghost var oldLog := log;
      ghost var a := Arrival(opening.value.0, opening.value.1, false);
      log, opening := log + [a], None;
      forall s
        ensures QueuedFor(channels, s) == KeptFor(log, s)
      {
        KeptSnoc(oldLog, a, s);
      }
    }

    /** Change a channel in anything but its source and queue; a dead one stays dead. */
    method Progress(k: nat, c: Channel)
      requires Valid() && k < |channels| && WellWritten(c)
      requires c.src == channels[k].src && c.queued == channels[k].queued && (c.live ==> channels[k].live)
      modifies `channels
      ensures Valid() && channels == old(channels)[k := c]
    {
      hide Proto.Stream, Proto.Prefixed, QueuedFor, KeptFor;
      ghost var was := channels;
      channels := channels[k := c];
      forall s
        ensures QueuedFor(channels, s) == QueuedFor(was, s)
      {
        QueuedUpdate(was, k, c, [], s);
      }
    }

    /** The session ends: idle, closed, aborted or failed. */
    method EndSession(k: nat)
      requires Valid() && k < |channels|
      modifies `channels
      ensures Valid() && channels == old(channels)[k := old(channels)[k].(live := false)]
    {
      Progress(k, channels[k].(live := false));
    }

    /**
      The next write of the session's tunnel side: the head, then one queued
      datagram after the other. A failing write leaves `cut` bytes of its frame
      in the substream and ends the session.
     */
    method Write(k: nat, fails: bool, cut: nat)
      requires Valid() && k < |channels| && channels[k].live
      modifies `channels
      ensures Valid()
      ensures |channels| == |old(channels)| && channels[k].queued == old(channels[k].queued)
      ensures forall j :: 0 <= j < |channels| && j != k ==> channels[j] == old(channels)[j]
      ensures !fails && |codec.encode(head)| <= 65536 ==> channels[k].live && channels[k].headSent
      ensures |codec.encode(head)| > 65536 && !old(channels[k].headSent) ==>
                !channels[k].live && channels[k].wire == old(channels[k].wire)
      ensures fails && old(channels[k].written) < |channels[k].queued| ==> !channels[k].live
      ensures !fails && channels[k].live && old(channels[k].headSent) && old(channels[k].written) < |channels[k].queued|
          ==> channels[k].written == old(channels[k].written) + 1
    {
      hide Proto.Stream, Proto.Prefixed, QueuedFor, KeptFor, TableOk, Accounted;
      Proto.StreamNothing();
      var c := channels[k];
      if !c.headSent {
        if |codec.encode(head)| > Proto.MAX_FRAME {
          Progress(k, c.(live := false));
        } else if fails {
          var part := HeadFrame()[..Min(cut, |HeadFrame()|)];
          Progress(k, c.(live := false, wire := c.wire + part));
        } else {
          assert c.queued[..0] == [];
          Progress(k, c.(headSent := true, wire := HeadFrame()));
        }
      } else if c.written < |c.queued| {
        var frame := Proto.Prefixed(c.queued[c.written]);
        Proto.StreamNext(c.queued, c.written);
        assert c.wire + frame == HeadFrame() + (Proto.Stream(c.queued[..c.written]) + frame);
        if fails {
          var part := frame[..Min(cut, |frame|)];
          assert c.wire + part <= c.wire + frame;
          Progress(k, c.(live := false, wire := c.wire + part));
        } else {
          Progress(k, c.(written := c.written + 1, wire := c.wire + frame));
        }
      }
    }

    lemma Waiting()
      requires Valid()
      ensures |received| == |log| + if opening.Some? then 1 else 0
    {
    }

    lemma Concluded()
      requires Valid()
      ensures |received| == |log| + if opening.Some? then 1 else 0
      ensures forall i :: 0 <= i < |log| ==> received[i] == (log[i].src, log[i].data)
      ensures forall src :: QueuedFor(channels, src) == KeptFor(log, src)
      ensures SingleReceivers(channels)
    {
      hide WellWritten, QueuedFor, KeptFor;
    }

    lemma SessionReads(k: nat)
      requires Valid() && k < |channels|
      requires |codec.encode(head)| <= Proto.MAX_FRAME
      ensures ReadsBack(codec, head, channels[k])
    {
      forall seen | seen <= channels[k].wire
        ensures Faithful(Read(codec, seen), head, channels[k].queued)
      {
        ReadOfPrefix(codec, head, channels[k].queued, seen);
      }
    }
  }

  // ---- whole runs ----

  datatype Move =
    | Packet(src: Address, data: Datagram)
    | OpenDone(ok: bool)
    | SessionOver(k: nat)
    | SessionWrite(k: nat, fails: bool, cut: nat)

  /** What a move of a session has just come to: it is over, or has its head in the substream. */
  predicate Done(channels: seq<Channel>, m: Move, headFits: bool) {
    match m
    case SessionOver(k) => k < |channels| ==> !channels[k].live
    case SessionWrite(k, fails, _) =>
      k < |channels| && channels[k].live && !fails && headFits ==> channels[k].headSent
    case _ => true
  }

  predicate SingleReceivers(channels: seq<Channel>) {
    forall j, k :: 0 <= j < k < |channels| && channels[j].live && channels[k].live ==>
      channels[j].src != channels[k].src
  }

  /** What the loop reads of a datagram: its buffer cuts it off. */
  function Cut(packet: Datagram): Datagram {
    packet[..Min(|packet|, UDP_BUF)]
  }

  /** The datagrams that come in at the socket, as the loop reads them. */
  function Packets(moves: seq<Move>): seq<(Address, Datagram)> {
    if moves == [] then [] else Packets(moves[..|moves| - 1]) + Heard(moves[|moves| - 1])
  }

  function Heard(m: Move): seq<(Address, Datagram)> {
    if m.Packet? then [(m.src, Cut(m.data))] else []
  }

  /**
    Nothing that UDP can carry is cut off: its 16-bit length counts a header of 8
    bytes, which leaves 65527. What the buffer holds fits the substream.
   */
  lemma NothingIsCut(packet: Datagram)
    ensures Cut(packet) == packet <==> |packet| <= 65536
    ensures |Cut(packet)| <= 65536
  {
  }

  /** The datagrams sent to the public port, whole. */
  function Sent(moves: seq<Move>): seq<(Address, Datagram)> {
    if moves == [] then [] else
      var m := moves[|moves| - 1];
      Sent(moves[..|moves| - 1]) + if m.Packet? then [(m.src, m.data)] else []
  }

  /** All datagrams are ones that UDP can carry. */
  predicate Carried(moves: seq<Move>) {
    forall m <- moves :: m.Packet? ==> |m.data| <= 65527
  }

  lemma {:induction false} PacketsAreSent(moves: seq<Move>)
    ensures Carried(moves) ==> Packets(moves) == Sent(moves)
  {
    if moves != [] && Carried(moves) {
      var n := |moves| - 1;
      assert moves[n] in moves && forall m <- moves[..n] :: m in moves;
      PacketsAreSent(moves[..n]);
      if moves[n].Packet? {
        NothingIsCut(moves[n].data);
      }
    }
  }

  lemma PacketsNext(moves: seq<Move>, k: nat)
    requires k < |moves|
    ensures Packets(moves[..k + 1]) == Packets(moves[..k]) + Heard(moves[k])
  {
    assert moves[..k + 1][..k] == moves[..k];
  }

  lemma NoPackets()
    ensures Packets([]) == []
  {
  }

  predicate Short(packets: seq<(Address, Datagram)>) {
    forall p <- packets :: |p.1| <= UDP_BUF
  }

  /** What a caller of the loop would have seen of it. */
  ghost predicate Seen(u: UdpProxy, taken: seq<(Address, Datagram)>, fates: seq<Arrival>)
    reads u
  {
    u.Valid() && taken == u.received && fates == u.log
  }

  /**
    The loop takes what the socket holds until it is empty or a substream has to
    be opened. A loop that lags behind amounts to datagrams that come in later.
   */
  method Drain(u: UdpProxy, unread: seq<(Address, Datagram)>, taken: seq<(Address, Datagram)>, fates: seq<Arrival>)
    returns (rest: seq<(Address, Datagram)>, took: seq<(Address, Datagram)>, told: seq<Arrival>)
    requires Seen(u, taken, fates) && Short(unread)
    modifies u
    ensures Seen(u, took, told) && Short(rest) && took + rest == taken + unread
    ensures rest != [] ==> u.opening.Some?
    ensures fates <= told && forall j :: |fates| <= j < |told| ==> told[j].kept
  {
    hide UdpProxy.Valid;
    rest, took, told := unread, taken, fates;
    while rest != [] && u.opening == None
      invariant Seen(u, took, told) && Short(rest) && took + rest == taken + unread
      invariant fates <= told && forall j :: |fates| <= j < |told| ==> told[j].kept
      decreases |rest|
    {
      var (src, data) := rest[0];
      assert rest[0] in rest && data[..Min(|data|, UDP_BUF)] == data;
      u.Receive(src, data);
      assert took + [(src, data)] + rest[1..] == took + rest;
      rest, took := rest[1..], took + [(src, data)];
      if u.opening == None {
        told := told + [Arrival(src, data, true)];
      }
    }
  }

  /** The open the loop waited for has come to an end. */
  method FinishOpen(u: UdpProxy, ok: bool, ghost taken: seq<(Address, Datagram)>, fates: seq<Arrival>)
    returns (told: seq<Arrival>)
    requires Seen(u, taken, fates) && u.opening.Some?
    modifies u
    ensures Seen(u, taken, told) && u.opening == None
    ensures |told| == |fates| + 1 && fates <= told && told[|fates|].kept == ok
  {
    hide UdpProxy.Valid;
    var (src, data) := u.opening.value;
    told := fates + [Arrival(src, data, ok)];
    if ok { u.Opened(); } else { u.OpenFailed(); }
  }

  /**
    Move i finishes the open that a datagram waits for: more have come in before
    it than have had their fates settled.
   */
  ghost predicate Decides(moves: seq<Move>, i: nat, settled: nat)
    requires i < |moves|
  {
    moves[i].OpenDone? && settled < |Packets(moves[..i])|
  }

  /**
    `at` counts the fates settled before each of the first `n` moves. A datagram
    waited for is kept or dropped as its open succeeds or fails, by the very move
    that finishes it; nothing else is ever dropped.
   */
  ghost predicate Settled(moves: seq<Move>, n: nat, fates: seq<Arrival>, at: seq<nat>)
    requires n <= |moves|
  {
    && |at| == n + 1 && at[0] == 0 && at[n] == |fates|
    && (forall i :: 0 <= i < n ==> at[i] <= at[i + 1])
    && (forall i :: 0 <= i < n ==> at[i] <= |fates|)
    && (forall i: nat :: i < n && Decides(moves, i, at[i]) ==>
          at[i] < at[i + 1] && at[i] < |fates| && fates[at[i]].kept == moves[i].ok)
    && (forall j: nat :: j < |fates| && !fates[j].kept ==>
          exists i: nat :: i < n && Decides(moves, i, at[i]) && at[i] == j)
  }

  lemma AtLast(moves: seq<Move>, n: nat, fates: seq<Arrival>, at: seq<nat>)
    requires n <= |moves| && Settled(moves, n, fates, at)
    ensures |at| == n + 1 && at[n] == |fates|
  {
  }

  lemma NothingSettled(moves: seq<Move>)
    ensures Settled(moves, 0, [], [0])
  {
  }

  lemma SettledNext(moves: seq<Move>, n: nat, fates: seq<Arrival>, told: seq<Arrival>, at: seq<nat>)
    requires n < |moves| && Settled(moves, n, fates, at) && fates <= told
    requires Decides(moves, n, |fates|) ==> |fates| < |told| && told[|fates|].kept == moves[n].ok
    requires forall j :: |fates| <= j < |told| && (j > |fates| || !Decides(moves, n, |fates|)) ==> told[j].kept
    ensures Settled(moves, n + 1, told, at + [|told|])
  {
    hide Decides;
    var later := at + [|told|];
    forall j: nat | j < |told| && !told[j].kept
      ensures exists i: nat :: i < n + 1 && Decides(moves, i, later[i]) && later[i] == j
    {
      if j < |fates| {
        var i: nat :| i < n && Decides(moves, i, at[i]) && at[i] == j;
        assert Decides(moves, i, later[i]) && later[i] == j;
      } else {
        assert Decides(moves, n, later[n]) && later[n] == j;
      }
    }
  }

  /** One move: only a finished open can drop a datagram, the one that waited for it. */
  method Act(u: UdpProxy, m: Move, unread: seq<(Address, Datagram)>,
             taken: seq<(Address, Datagram)>, fates: seq<Arrival>)
    returns (rest: seq<(Address, Datagram)>, took: seq<(Address, Datagram)>, told: seq<Arrival>)
    requires Seen(u, taken, fates) && Short(unread) && (unread != [] ==> u.opening.Some?)
    modifies u
    ensures Seen(u, took, told) && Short(rest) && (rest != [] ==> u.opening.Some?)
    ensures took + rest == taken + unread + Heard(m)
    ensures fates <= told && Done(u.channels, m, |u.codec.encode(u.head)| <= 65536)
    ensures var decides := m.OpenDone? && old(u.opening).Some?;
            && (decides ==> |fates| < |told| && told[|fates|].kept == m.ok)
            && forall j :: |fates| <= j < |told| && (j > |fates| || !decides) ==> told[j].kept
  {
    hide UdpProxy.Valid;
    rest, took, told := unread, taken, fates;
    match m {
      case Packet(src, packet) =>
        assert taken + (unread + [(src, Cut(packet))]) == taken + unread + Heard(m);
        rest, took, told := Drain(u, unread + [(src, Cut(packet))], taken, fates);
      case OpenDone(ok) =>
        if u.opening.Some? {
          told := FinishOpen(u, ok, taken, fates);
          rest, took, told := Drain(u, unread, taken, told);
        }
      case SessionOver(k) =>
        if k < |u.channels| { u.EndSession(k); }
      case SessionWrite(k, fails, cut) =>
        if k < |u.channels| && u.channels[k].live { u.Write(k, fails, cut); }
    }
  }

  /**
    Any interleaving of arrivals, finished opens, session ends and session
    writes. Every datagram that comes in is `taken` in order or, while the loop
    waits for a substream, still `unread` in the socket; `fates` says of each
    one taken that it was queued, once and to its own source, or dropped because
    the substream opened for it failed.
   */
  method Run(codec: Proto.Codec, head: Proto.DataHead, moves: seq<Move>)
    returns (channels: seq<Channel>, taken: seq<(Address, Datagram)>, unread: seq<(Address, Datagram)>,
             fates: seq<Arrival>, ghost at: seq<nat>)
    ensures taken + unread == Packets(moves)
    ensures Carried(moves) ==> taken + unread == Sent(moves)
    ensures |fates| <= |taken| <= |fates| + 1 && (unread != [] ==> |taken| == |fates| + 1)
    ensures forall i :: 0 <= i < |fates| ==> taken[i] == (fates[i].src, fates[i].data)
    ensures Settled(moves, |moves|, fates, at)
    ensures moves != [] ==> Done(channels, moves[|moves| - 1], |codec.encode(head)| <= 65536)
    ensures forall src :: QueuedFor(channels, src) == KeptFor(fates, src)
    ensures SingleReceivers(channels)
    ensures |codec.encode(head)| <= Proto.MAX_FRAME ==> forall c <- channels :: ReadsBack(codec, head, c)
  {
    hide QueuedFor, KeptFor, Read, Faithful, ReadsBack, UdpProxy.Valid, Packets, Sent, Carried, Settled;
    var u := new UdpProxy(codec, head);
    taken, unread, fates, at := [], [], [], [0];
    NoPackets();
    NothingSettled(moves);
    for i := 0 to |moves|
      invariant fresh(u) && Seen(u, taken, fates) && u.codec == codec && u.head == head
      invariant taken + unread == Packets(moves[..i]) && Short(unread)
      invariant unread != [] ==> u.opening.Some?
      invariant Settled(moves, i, fates, at)
      invariant i > 0 ==> Done(u.channels, moves[i - 1], |codec.encode(head)| <= 65536)
    {
      PacketsNext(moves, i);
      u.Waiting();
      AtLast(moves, i, fates, at);
      ghost var before := fates;
      unread, taken, fates := Act(u, moves[i], unread, taken, fates);
      SettledNext(moves, i, before, fates, at);
      at := at + [|fates|];
    }
    assert moves[..|moves|] == moves;
    PacketsAreSent(moves);
    u.Concluded();
    channels := u.channels;
    if |codec.encode(head)| <= Proto.MAX_FRAME {
      forall c <- channels
        ensures ReadsBack(codec, head, c)
      {
        var k :| 0 <= k < |channels| && channels[k] == c;
        u.SessionReads(k);
      }
    }
  }
}
