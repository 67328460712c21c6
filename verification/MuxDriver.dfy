/** The task that owns the yamux connection: it opens substreams on request and forwards inbound ones. */
module MuxDriver {
  import opened Bytes
  import opened Io

  datatype Inbound = Arrived(stream: nat) | Over | NotYet

  /** What a request for a substream comes to: the connection opens one or refuses, or the task is gone. */
  datatype Outcome = Opened(stream: nat) | Refused | BrokenPipe

  /** How a pass of the driver loop ends. */
  datatype Step = Again | Suspend | Stop

  function UpTo(n: nat): seq<nat> {
    seq(n, i => i)
  }

  /** The substreams handed out, in the order they were. */
  function Streams(outcomes: seq<Outcome>): seq<nat> {
    if outcomes == [] then [] else
      var last := outcomes[|outcomes| - 1];
      Streams(outcomes[..|outcomes| - 1]) + if last.Opened? then [last.stream] else []
  }

  lemma StreamsSnoc(outcomes: seq<Outcome>, o: Outcome)
    ensures Streams(outcomes + [o]) == Streams(outcomes) + if o.Opened? then [o.stream] else []
  {
    assert (outcomes + [o])[..|outcomes|] == outcomes;
  }

  /** The connection as an oracle: `inbound` are the substreams its peer opens, outbound ones are numbered. */
  class Yamux {
    const inbound: seq<nat>
    var next: nat
    var made: nat
    ghost var answers: seq<Outcome>  // what outbound polls came to, but for Pending ones
    ghost var outboundEvent: Event
    ghost var inboundEvent: Event

    ghost predicate Valid()
      reads `next, `made, `answers
    {
      next <= |inbound| && Streams(answers) == UpTo(made) && BrokenPipe !in answers
    }

    constructor (inbound: seq<nat>)
      ensures Valid() && this.inbound == inbound && next == 0 && answers == []
    {
      this.inbound, next, made, answers := inbound, 0, 0, [];
    }

    method PollNewOutbound() returns (r: Poll<nat>)
      requires Valid()
      modifies `made, `answers, `outboundEvent
      ensures Valid()
      ensures outboundEvent == if r.Pending? then SawPending else Moved
      ensures answers == old(answers) + match r
                                        case Pending => []
                                        case Ready(s) => [Opened(s)]
                                        case Failed(_) => [Refused]
    {
      hide Streams;
      if * {
        r, outboundEvent := Pending, SawPending;
      } else if * {
        StreamsSnoc(answers, Refused);
        r, outboundEvent, answers := Failed(Inner), Moved, answers + [Refused];
      } else {
        StreamsSnoc(answers, Opened(made));
        r, outboundEvent, answers, made := Ready(made), Moved, answers + [Opened(made)], made + 1;
      }
    }

    method PollNextInbound() returns (r: Inbound)
      requires Valid()
      modifies `next, `inboundEvent
      ensures Valid()
      ensures match r
              case Arrived(s) =>
                && old(next) < |inbound| && s == inbound[old(next)]
                && next == old(next) + 1 && inboundEvent == Moved
              case Over => next == old(next) && inboundEvent == SawEof
              case NotYet => next == old(next) && inboundEvent == SawPending
    {
      if * {
        r, inboundEvent := Over, SawEof;
      } else if next < |inbound| {
        r, inboundEvent, next := Arrived(inbound[next]), Moved, next + 1;
      } else {
        r, inboundEvent := NotYet, SawPending;
      }
    }
  }

  datatype Reply = Reply(request: nat, outcome: Outcome)

  /** `Closing` until the connection has closed; then `Gone`, with the task's locals dropped. */
  datatype Phase = Running | Closing | Gone

  /**
    Those answered, the one in flight and those queued are all requests in the
    order they were made: request number i has the i-th reply or none yet.
   */
  predicate InOrder(replies: seq<Reply>, pending: Option<nat>, queue: seq<nat>, requests: nat) {
    var busy := if pending.Some? then 1 else 0;
    && |replies| + busy + |queue| == requests
    && (forall i :: 0 <= i < |replies| ==> replies[i].request == i)
    && (pending.Some? ==> pending.value == |replies|)
    && (forall j :: 0 <= j < |queue| ==> queue[j] == |replies| + busy + j)
  }

  /** Replies pass on what the connection said, one by one; the rest were told that the task is gone. */
  ghost predicate PassedOn(replies: seq<Reply>, answers: seq<Outcome>) {
    && |answers| <= |replies|
    && (forall i :: 0 <= i < |answers| ==> replies[i].outcome == answers[i])
    && (forall i :: |answers| <= i < |replies| ==> replies[i].outcome == BrokenPipe)
  }

  class Driver {
    const conn: Yamux
    var pending: Option<nat>  // the open request in flight
    var queue: seq<nat>       // the open requests not yet picked up
    var handleAlive: bool     // the `Mux` handle: request sender and inbound receiver
    var phase: Phase
    var requests: nat         // requests ever made; each is known by its number
    var replies: seq<Reply>   // what requesters have been told, in order
    var forwarded: seq<nat>   // inbound substreams handed to the handle
    ghost var queueEvent: Event

    /** Every answer of the connection went to one request, every inbound substream to the handle. */
    ghost predicate Valid()
      reads this, conn
    {
      && conn.Valid()
      && InOrder(replies, pending, queue, requests)
      && PassedOn(replies, conn.answers)
      && (phase == Running ==> |replies| == |conn.answers|)
      && |forwarded| <= conn.next && forwarded == conn.inbound[..|forwarded|]
      && (phase == Running ==> |forwarded| == conn.next)
      && conn.next <= |forwarded| + 1
      && (phase == Gone ==> pending == None && queue == [])
    }

    constructor (conn: Yamux)
      requires conn.Valid() && conn.next == 0 && conn.answers == []
      ensures Valid() && this.conn == conn && phase == Running && requests == 0 && replies == []
      ensures pending == None && queue == [] && handleAlive && forwarded == []
    {
      this.conn, pending, queue, handleAlive, phase := conn, None, [], true, Running;
      requests, replies, forwarded := 0, [], [];
    }

    /** Tell the requester in flight. */
    method Answer(outcome: Outcome)
      requires pending.Some? && InOrder(replies, pending, queue, requests)
      modifies `pending, `replies
      ensures pending == None && InOrder(replies, pending, queue, requests)
      ensures replies == old(replies) + [Reply(old(pending).value, outcome)]
    {
      replies, pending := replies + [Reply(pending.value, outcome)], None;
    }

    /** `Mux::open` up to the wait: the request goes into the channel, or fails if the task is gone. */
    method Open() returns (request: nat)
      requires Valid()
      modifies `queue, `replies, `requests
      ensures Valid()
      ensures request == old(requests) && requests == old(requests) + 1
      ensures if phase == Gone then queue == [] && replies == old(replies) + [Reply(request, BrokenPipe)]
              else queue == old(queue) + [request] && replies == old(replies)
    {
      hide Streams;
      request := requests;
      requests := requests + 1;
      if phase == Gone {
        replies := replies + [Reply(request, BrokenPipe)];
      } else {
        queue := queue + [request];
      }
    }

    /** Service the open request in flight, if there is one. */
    method ServePending()
      requires Valid() && phase == Running
      modifies `pending, `replies, conn`made, conn`answers, conn`outboundEvent
      ensures Valid()
      ensures old(replies) <= replies && old(conn.answers) <= conn.answers
      ensures pending == None || (pending == old(pending) && conn.outboundEvent == SawPending)
    {
      hide Streams;
      if pending.Some? {
        var r := conn.PollNewOutbound();
        match r {
          case Ready(s) => Answer(Opened(s));
          case Failed(_) => Answer(Refused);
          case Pending =>
        }
      }
    }

    /**
      One poll of the driver loop. Suspended, it has just seen the inbound side
      Pending, and either the outbound side (with a request in flight) or the
      empty queue: whatever can move next will wake it.
     */
    method Poll() returns (done: bool)
      requires Valid() && phase == Running
      modifies `pending, `queue, `replies, `forwarded, `phase, `queueEvent
      modifies conn`next, conn`made, conn`answers, conn`outboundEvent, conn`inboundEvent
      ensures Valid() && done == (phase == Closing)
      ensures old(replies) <= replies && old(forwarded) <= forwarded && old(conn.answers) <= conn.answers
      ensures !done ==>
                && phase == Running
                && conn.inboundEvent == SawPending
                && (pending.Some? ==> conn.outboundEvent == SawPending)
                && (pending.None? ==> queueEvent == SawPending && queue == [] && handleAlive)
      ensures done ==> !handleAlive || conn.inboundEvent == SawEof
      ensures !handleAlive ==> forwarded == old(forwarded)
      ensures done && conn.inboundEvent != SawEof && |forwarded| == conn.next ==> pending == None && queue == []
    {
      hide Streams, PassedOn, InOrder, UpTo;
      while true
        invariant Valid() && phase == Running
        invariant old(replies) <= replies && old(forwarded) <= forwarded && old(conn.answers) <= conn.answers
        invariant !handleAlive ==> forwarded == old(forwarded)
        decreases |queue| + |conn.inbound| - conn.next
      {
        // what was armed in an earlier pass does not count
        conn.outboundEvent, conn.inboundEvent, queueEvent := Untouched, Untouched, Untouched;
        ServePending();
        if pending.None? {
          if queue != [] {
            PickUp();
            continue;
          } else if !handleAlive {
            phase := Closing;
            return true;
          } else {
            queueEvent := SawPending;
          }
        }
        var step := DriveInbound();
        match step {
          case Again => continue;
          case Stop => return true;
          case Suspend => return false;
        }
      }
    }

    /** The next open request is in flight. */
    method PickUp()
      requires Valid() && pending == None && queue != []
      modifies `pending, `queue
      ensures Valid() && pending == Some(old(queue)[0]) && queue == old(queue)[1..]
    {
      hide Streams, PassedOn, UpTo;
      pending, queue := Some(queue[0]), queue[1..];
    }

    /** Take an inbound substream, if there is one, and hand it on. */
    method DriveInbound() returns (step: Step)
      requires Valid() && phase == Running
      modifies `forwarded, `phase, conn`next, conn`inboundEvent
      ensures Valid()
      ensures old(forwarded) <= forwarded
      ensures !handleAlive ==> step != Again && forwarded == old(forwarded)
      ensures match step
              case Again => phase == Running && conn.next == old(conn.next) + 1
              case Suspend => phase == Running && conn.inboundEvent == SawPending
              case Stop =>
                && phase == Closing
                && (conn.inboundEvent == SawEof || (!handleAlive && |forwarded| < conn.next))
    {
      hide Streams, PassedOn, InOrder, UpTo;
      var inbound := conn.PollNextInbound();
      match inbound {
        case Arrived(s) =>
          if !handleAlive {
            phase := Closing;
            return Stop;
          }
          forwarded := forwarded + [s];
          step := Again;
        case Over =>
          phase := Closing;
          step := Stop;
        case NotYet =>
          step := Suspend;
      }
    }

    /** The connection has closed: dropping the unanswered requests tells their senders. */
    method Finish()
      requires Valid() && phase == Closing
      modifies `pending, `queue, `replies, `phase
      ensures Valid() && phase == Gone
      ensures old(replies) <= replies
      ensures forall i :: |old(replies)| <= i < |replies| ==> replies[i].outcome == BrokenPipe
      ensures |replies| == requests
    {
      hide Streams;
      if pending.Some? {
        Answer(BrokenPipe);
      }
      while queue != []
        invariant Valid() && phase == Closing && pending == None
        invariant old(replies) <= replies
        invariant forall i :: |old(replies)| <= i < |replies| ==> replies[i].outcome == BrokenPipe
        decreases |queue|
      {
        pending, queue := Some(queue[0]), queue[1..];
        Answer(BrokenPipe);
      }
      phase := Gone;
    }
  }

  // ---- whole runs ----

  datatype Move = Request | DropHandle | Wake | Closed

  function Requests(moves: seq<Move>): nat {
    if moves == [] then 0
    else Requests(moves[..|moves| - 1]) + if moves[|moves| - 1] == Request then 1 else 0
  }

  /** Nothing is left to do: every request has its reply, or the first one without it waits for the connection. */
  ghost predicate AtRest(d: Driver)
    reads d, d.conn
  {
    && d.conn.inboundEvent == SawPending
    && (d.pending == None ==> |d.replies| == d.requests && d.queueEvent == SawPending)
    && (d.pending.Some? ==> d.conn.outboundEvent == SawPending)
  }

  /**
    Any run of the driver against any connection: request number i has the i-th
    reply or none yet, and that is the i-th answer of the connection, word for
    word, or a broken pipe once the task had ended. It ends only because the
    handle is gone or the connection is over. While it runs, a poll leaves no
    request without a reply unless the connection keeps one waiting; when it is
    gone no request is left without a reply. No two got the same substream.
   */
  method Run(inbound: seq<nat>, moves: seq<Move>) returns (d: Driver)
    ensures d.Valid() && d.conn.inbound == inbound && d.requests == Requests(moves)
    ensures |d.replies| <= d.requests && (d.phase == Gone ==> |d.replies| == d.requests)
    ensures forall i :: 0 <= i < |d.replies| ==> d.replies[i].request == i
    ensures PassedOn(d.replies, d.conn.answers) && (d.phase == Running ==> |d.replies| == |d.conn.answers|)
    ensures Streams(d.conn.answers) == UpTo(d.conn.made)
    ensures d.forwarded <= inbound
    ensures d.phase != Running ==> DropHandle in moves || d.conn.inboundEvent == SawEof
    ensures d.phase == Gone ==> Closed in moves
    ensures moves != [] && moves[|moves| - 1] == Closed ==> d.phase != Closing
    ensures d.handleAlive <==> DropHandle !in moves
    ensures moves != [] && moves[|moves| - 1] == Wake && d.phase == Running ==> AtRest(d)
  {
    hide Streams, Requests;
    var conn := new Yamux(inbound);
    d := new Driver(conn);
    NoRequests();
    for k := 0 to |moves|
      invariant d.Valid() && fresh(d) && fresh(conn) && d.conn == conn && conn.inbound == inbound
      invariant d.requests == Requests(moves[..k])
      invariant d.handleAlive <==> DropHandle !in moves[..k]
      invariant k > 0 && moves[k - 1] == Closed ==> d.phase != Closing
      invariant d.phase != Running ==> DropHandle in moves || conn.inboundEvent == SawEof
      invariant d.phase == Gone ==> Closed in moves
      invariant k > 0 && moves[k - 1] == Wake && d.phase == Running ==> AtRest(d)
    {
      RequestsNext(moves, k);
      assert moves[..k + 1] == moves[..k] + [moves[k]];
      match moves[k] {
        case Request => var _ := d.Open();
        case DropHandle => d.handleAlive := false;
        case Wake => if d.phase == Running { var _ := d.Poll(); }
        case Closed => if d.phase == Closing { d.Finish(); }
      }
    }
    assert moves[..|moves|] == moves;
  }

  lemma NoRequests()
    ensures Requests([]) == 0
  {
  }

  lemma RequestsNext(moves: seq<Move>, k: nat)
    requires k < |moves|
    ensures Requests(moves[..k + 1]) == Requests(moves[..k]) + if moves[k] == Request then 1 else 0
  {
    assert moves[..k + 1][..k] == moves[..k];
  }
}
