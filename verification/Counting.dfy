/** Per-proxy accounting: all connections of a proxy share its counters. */
module Counting {
  import opened Bytes
  import opened Io

  /** A connection guard between its two additions, alive, and gone. */
  datatype Guard = Counted | Live | Dropped

  function LiveCount(guards: seq<Guard>): (n: nat)
    ensures n <= |guards|
  {
    if guards == [] then 0
    else LiveCount(guards[..|guards| - 1]) + if guards[|guards| - 1] == Live then 1 else 0
  }

  lemma {:induction false} LiveCountUpdate(guards: seq<Guard>, g: nat, to: Guard)
    requires g < |guards|
    ensures LiveCount(guards[g := to]) + (if guards[g] == Live then 1 else 0)
         == LiveCount(guards) + if to == Live then 1 else 0
  {
    var n := |guards| - 1;
    if g == n {
      assert guards[g := to][..n] == guards[..n];
    } else {
      LiveCountUpdate(guards[..n], g, to);
      assert guards[g := to][..n] == guards[..n][g := to];
    }
  }

  /** A wrapped counter goes down by one where its exact value is positive. */
  lemma U64Down(exact: nat)
    requires exact > 0
    ensures U64(U64(exact) + (WRAP - 1)) == U64(exact - 1)
  {
    U64Up(exact, WRAP - 1);
  }

  class Counters {
    var bytesIn: nat
    var bytesOut: nat
    var conns: nat
    var active: nat
    ghost var totalIn: nat        // bytes ever added
    ghost var totalOut: nat
    ghost var guards: seq<Guard>  // every guard begun, in order

    ghost predicate Valid()
      reads this
    {
      && bytesIn == U64(totalIn) && bytesOut == U64(totalOut)
      && conns == U64(|guards|) && active == U64(LiveCount(guards))
    }

    constructor ()
      ensures Valid() && totalIn == 0 && totalOut == 0 && guards == []
    {
      bytesIn, bytesOut, conns, active := 0, 0, 0, 0;
      totalIn, totalOut, guards := 0, 0, [];
    }

    method AddIn(n: nat)
      requires Valid()
      modifies `bytesIn, `totalIn
      ensures Valid() && totalIn == old(totalIn) + n
    {
      U64Up(totalIn, n);
      bytesIn, totalIn := U64(bytesIn + n), totalIn + n;
    }

    method AddOut(n: nat)
      requires Valid()
      modifies `bytesOut, `totalOut
      ensures Valid() && totalOut == old(totalOut) + n
    {
      U64Up(totalOut, n);
      bytesOut, totalOut := U64(bytesOut + n), totalOut + n;
    }

    /** First addition of `ConnGuard::new`. */
    method CountConn() returns (ghost g: nat)
      requires Valid()
      modifies `conns, `guards
      ensures Valid() && g == |old(guards)| && guards == old(guards) + [Counted]
    {
      g := |guards|;
      U64Up(|guards|, 1);
      assert (guards + [Counted])[..g] == guards;
      conns, guards := U64(conns + 1), guards + [Counted];
    }

    /** Its second addition; other connections may have moved the counters in between. */
    method CountActive(ghost g: nat)
      requires Valid() && g < |guards| && guards[g] == Counted
      modifies `active, `guards
      ensures Valid() && guards == old(guards)[g := Live]
    {
      U64Up(LiveCount(guards), 1);
      LiveCountUpdate(guards, g, Live);
      active, guards := U64(active + 1), guards[g := Live];
    }

    /** `active` shows how many guards are alive, and the subtraction is from a positive value below the wrap. */
    method Drop(ghost g: nat)
      requires Valid() && g < |guards| && guards[g] == Live
      modifies `active, `guards
      ensures Valid() && guards == old(guards)[g := Dropped]
      ensures |guards| < WRAP ==> old(active) > 0 && active == old(active) - 1
    {
      LiveCountUpdate(guards, g, Dropped);
      U64Down(LiveCount(guards));
      active, guards := U64(active + (WRAP - 1)), guards[g := Dropped];
    }
  }

  /** A public connection: `from` are the bytes its peer sends, `to` those sent to it. */
  class CountingStream {
    const from: Pipe
    const to: Pipe
    const counters: Counters

    constructor (from: Pipe, to: Pipe, counters: Counters)
      ensures this.from == from && this.to == to && this.counters == counters
    {
      this.from, this.to, this.counters := from, to, counters;
    }

    /** `poll_read`: the inner poll, then the addition of what it delivered. */
    method PollRead(max: nat) returns (r: Poll<seq<byte>>)
      requires from.Valid() && counters.Valid()
      modifies counters`bytesIn, counters`totalIn, from`taken, from`readEvent
      ensures from.Valid() && counters.Valid()
      ensures ReadStep(from.content, old(from.taken), from.taken, max, r, from.readEvent)
      ensures counters.totalIn == old(counters.totalIn) + from.taken - old(from.taken)
    {
      r := InnerRead(max);
      if r.Ready? {
        CountRead(|r.value|);
      }
    }

    method InnerRead(max: nat) returns (r: Poll<seq<byte>>)
      requires from.Valid()
      modifies from`taken, from`readEvent
      ensures from.Valid()
      ensures ReadStep(from.content, old(from.taken), from.taken, max, r, from.readEvent)
    {
      r := from.PollRead(max);
    }

    method CountRead(n: nat)
      requires counters.Valid()
      modifies counters`bytesIn, counters`totalIn
      ensures counters.Valid() && counters.totalIn == old(counters.totalIn) + n
    {
      counters.AddIn(n);
    }

    /** `poll_write`: the inner poll, then the addition of what it accepted. */
    method PollWrite(buf: seq<byte>) returns (r: Poll<nat>)
      requires to.Valid() && counters.Valid()
      modifies counters`bytesOut, counters`totalOut, to`content, to`writeEvent
      ensures to.Valid() && counters.Valid()
      ensures WriteStep(old(to.content), to.content, buf, r, to.writeEvent)
      ensures counters.totalOut == old(counters.totalOut) + |to.content| - |old(to.content)|
    {
      r := InnerWrite(buf);
      if r.Ready? {
        CountWritten(r.value);
      }
    }

    method InnerWrite(buf: seq<byte>) returns (r: Poll<nat>)
      requires to.Valid()
      modifies to`content, to`writeEvent
      ensures to.Valid()
      ensures WriteStep(old(to.content), to.content, buf, r, to.writeEvent)
    {
      r := to.PollWrite(buf);
    }

    method CountWritten(n: nat)
      requires counters.Valid()
      modifies counters`bytesOut, counters`totalOut
      ensures counters.Valid() && counters.totalOut == old(counters.totalOut) + n
    {
      counters.AddOut(n);
    }
  }

  // ---- all connections of a proxy at once ----

  function Sum(s: seq<nat>): nat {
    if s == [] then 0 else Sum(s[..|s| - 1]) + s[|s| - 1]
  }

  lemma SumSnoc(s: seq<nat>, n: nat)
    ensures Sum(s + [n]) == Sum(s) + n
  {
    assert (s + [n])[..|s|] == s;
  }

  lemma {:induction false} SumUpdate(s: seq<nat>, i: nat, n: nat)
    requires i < |s|
    ensures Sum(s[i := s[i] + n]) == Sum(s) + n
  {
    var last := |s| - 1;
    if i == last {
      assert s[i := s[i] + n][..last] == s[..last];
    } else {
      SumUpdate(s[..last], i, n);
      assert s[i := s[i] + n][..last] == s[..last][i := s[i] + n];
    }
  }

  /** A poll whose inner stream has answered while its addition is still to come. */
  datatype Pending = Idle | Read(n: nat) | Written(n: nat) {
    function In(): nat { if Read? then n else 0 }
    function Out(): nat { if Written? then n else 0 }
  }

  /** The connections of one proxy, and how far the poll of each has got. */
  class Port {
    const counters: Counters
    var streams: seq<CountingStream>
    var pending: seq<Pending>
    var guards: seq<Guard>
    ghost var countedIn: seq<nat>   // per stream, what its polls have added so far
    ghost var countedOut: seq<nat>
    ghost var pipes: set<Pipe>

    ghost predicate Apart()
      reads this
    {
      && (forall i :: 0 <= i < |streams| ==>
            && streams[i].counters == counters && streams[i].from in pipes && streams[i].to in pipes)
      && (forall i, j :: 0 <= i < |streams| && 0 <= j < |streams| ==> streams[i].from != streams[j].to)
      && (forall i, j :: 0 <= i < j < |streams| ==>
            streams[i].from != streams[j].from && streams[i].to != streams[j].to)
    }

    /** Every stream has moved what its polls have added, and what the poll it is in has still to add. */
    ghost predicate Valid()
      reads this, counters, pipes
    {
      && Apart() && counters.Valid()
      && |pending| == |countedIn| == |countedOut| == |streams|
      && guards == counters.guards
      && (forall i :: 0 <= i < |streams| ==>
            && streams[i].from.Valid() && streams[i].to.Valid()
            && streams[i].from.taken == countedIn[i] + pending[i].In()
            && |streams[i].to.content| == countedOut[i] + pending[i].Out())
      && counters.totalIn == Sum(countedIn)
      && counters.totalOut == Sum(countedOut)
    }

    constructor ()
      ensures Valid() && fresh(counters) && streams == [] && pipes == {} && guards == []
    {
      counters := new Counters();
      guards, streams, pending, countedIn, countedOut, pipes := [], [], [], [], [], {};
    }

    /** One more public connection. */
    method Accept()
      requires Valid()
      modifies `streams, `pending, `countedIn, `countedOut, `pipes
      ensures Valid() && fresh(pipes - old(pipes))
      ensures |streams| == |old(streams)| + 1 && streams[..|old(streams)|] == old(streams)
      ensures pending == old(pending) + [Idle]
      ensures var s := streams[|old(streams)|];
              s.from.taken == 0 && s.to.content == []
    {
      hide Sum;
      var from := new Pipe();
      var to := new Pipe();
      var s := new CountingStream(from, to, counters);
      SumSnoc(countedIn, 0);
      SumSnoc(countedOut, 0);
      streams, pending := streams + [s], pending + [Idle];
      countedIn, countedOut, pipes := countedIn + [0], countedOut + [0], pipes + {from, to};
    }

    /** The peer of a connection sends. */
    method Arrive(i: nat, data: seq<byte>)
      requires Valid() && i < |streams|
      modifies streams[i].from`content, streams[i].from`writeEvent
      ensures Valid()
    {
      hide Sum;
      var _ := streams[i].from.PollWrite(data);
    }

    /** The connections are as described. */
    ghost predicate Runs(lanes: seq<Lane>)
      reads this, set s <- streams :: s.from, set s <- streams :: s.to
    {
      && |lanes| == |streams| == |pending|
      && forall i :: 0 <= i < |streams| ==>
           lanes[i] == Lane(streams[i].from.taken, |streams[i].to.content|, pending[i])
    }

    /** No poll of this stream is under way: a poll borrows its stream. */
    predicate Free(i: nat)
      reads `pending, `streams
    {
      i < |streams| && i < |pending| && pending[i] == Idle
    }

    /** How much each stream has moved, and what the counters show of it. */
    method Tallies() returns (delivered: seq<nat>, accepted: seq<nat>)
      requires Valid()
      ensures |delivered| == |accepted| == |pending| == |streams|
      ensures forall i :: 0 <= i < |streams| ==>
                delivered[i] == streams[i].from.taken && accepted[i] == |streams[i].to.content|
      ensures Sum(delivered) == counters.totalIn + Owed(pending).0
      ensures Sum(accepted) == counters.totalOut + Owed(pending).1
      ensures counters.bytesIn == U64(counters.totalIn) && counters.bytesOut == U64(counters.totalOut)
      ensures counters.conns == U64(|guards|) && counters.active == U64(LiveCount(guards))
    {
      hide Sum, LiveCount, U64;
      delivered, accepted := [], [];
      for i := 0 to |streams|
        invariant |delivered| == |accepted| == i
        invariant forall k :: 0 <= k < i ==>
                    delivered[k] == streams[k].from.taken && accepted[k] == |streams[k].to.content|
      {
        delivered := delivered + [streams[i].from.taken];
        accepted := accepted + [|streams[i].to.content|];
      }
      SumSplit(delivered, countedIn, pending, true);
      SumSplit(accepted, countedOut, pending, false);
    }

    /** First half of a stream's `PollRead`: the inner poll has answered. */
    method StartRead(i: nat, max: nat) returns (r: Poll<seq<byte>>)
      requires Valid() && i < |streams| && pending[i] == Idle
      modifies `pending, streams[i].from`taken, streams[i].from`readEvent
      ensures Valid()
      ensures var from := streams[i].from;
              ReadStep(from.content, old(from.taken), from.taken, max, r, from.readEvent)
      ensures pending == old(pending)[i := if r.Ready? then Read(|r.value|) else Idle]
    {
      hide Sum;
      r := streams[i].InnerRead(max);
      pending := pending[i := if r.Ready? then Read(|r.value|) else Idle];
    }

    /** First half of a stream's `PollWrite`. */
    method StartWrite(i: nat, buf: seq<byte>) returns (r: Poll<nat>)
      requires Valid() && i < |streams| && pending[i] == Idle
      modifies `pending, streams[i].to`content, streams[i].to`writeEvent
      ensures Valid()
      ensures var to := streams[i].to;
              WriteStep(old(to.content), to.content, buf, r, to.writeEvent)
      ensures pending == old(pending)[i := if r.Ready? then Written(r.value) else Idle]
    {
      hide Sum;
      r := streams[i].InnerWrite(buf);
      pending := pending[i := if r.Ready? then Written(r.value) else Idle];
    }

    /** Second half of either: the addition. */
    method Finish(i: nat)
      requires Valid() && i < |streams|
      modifies `pending, `countedIn, `countedOut
      modifies counters`bytesIn, counters`bytesOut, counters`totalIn, counters`totalOut
      ensures Valid() && pending == old(pending)[i := Idle]
    {
      match pending[i] {
        case Idle =>
        case Read(_) => FinishRead(i);
        case Written(_) => FinishWrite(i);
      }
    }

    method FinishRead(i: nat)
      requires Valid() && i < |streams| && pending[i].Read?
      modifies `pending, `countedIn, counters`bytesIn, counters`totalIn
      ensures Valid() && pending == old(pending)[i := Idle]
    {
      hide Sum, U64, LiveCount;
      var n := pending[i].n;
      streams[i].CountRead(n);
      SumUpdate(countedIn, i, n);
      countedIn, pending := countedIn[i := countedIn[i] + n], pending[i := Idle];
    }

    method FinishWrite(i: nat)
      requires Valid() && i < |streams| && pending[i].Written?
      modifies `pending, `countedOut, counters`bytesOut, counters`totalOut
      ensures Valid() && pending == old(pending)[i := Idle]
    {
      hide Sum, U64, LiveCount;
      var n := pending[i].n;
      streams[i].CountWritten(n);
      SumUpdate(countedOut, i, n);
      countedOut, pending := countedOut[i := countedOut[i] + n], pending[i := Idle];
    }
  }

  datatype Move =
    | Counts                       // the first addition of a new guard
    | Activates(g: nat)            // its second
    | Drops(g: nat)
    | Accepts
    | Arrives(i: nat, data: seq<byte>)
    | Reads(i: nat, max: nat)
    | Writes(i: nat, data: seq<byte>)
    | Finishes(i: nat)

  function GuardStep(guards: seq<Guard>, m: Move): seq<Guard> {
    match m
    case Counts => guards + [Counted]
    case Activates(g) => if g < |guards| && guards[g] == Counted then guards[g := Live] else guards
    case Drops(g) => if g < |guards| && guards[g] == Live then guards[g := Dropped] else guards
    case _ => guards
  }

  /** What has become of the guards after a history. */
  function Guards(moves: seq<Move>): seq<Guard> {
    if moves == [] then [] else GuardStep(Guards(moves[..|moves| - 1]), moves[|moves| - 1])
  }

  method ActOnGuards(port: Port, m: Move)
    requires port.Valid() && (m.Counts? || m.Activates? || m.Drops?)
    modifies port`guards, port.counters`conns, port.counters`active, port.counters`guards
    ensures port.Valid() && port.guards == GuardStep(old(port.guards), m)
  {
    hide Sum, LiveCount, U64;
    match m {
      case Counts =>
        var _ := port.counters.CountConn();
        port.guards := port.guards + [Counted];
      case Activates(g) =>
        if g < |port.guards| && port.guards[g] == Counted {
          port.counters.CountActive(g);
          port.guards := port.guards[g := Live];
        }
      case Drops(g) =>
        if g < |port.guards| && port.guards[g] == Live {
          port.counters.Drop(g);
          port.guards := port.guards[g := Dropped];
        }
    }
  }

  // ---- what the polls reported ----

  /** What the inner poll of a move came back with. */
  datatype Report = NoPoll | Got(bytes: Poll<seq<byte>>) | Took(count: Poll<nat>)

  /** A connection by what it has delivered and accepted, and how far its poll has got. */
  datatype Lane = Lane(delivered: nat, accepted: nat, pending: Pending)

  predicate Open(lanes: seq<Lane>, i: nat) {
    i < |lanes| && lanes[i].pending == Idle
  }

  /** A stream is polled exactly when its last poll is over, and reports no more than it was asked for. */
  predicate Fits(lanes: seq<Lane>, m: Move, report: Report) {
    match m
    case Reads(i, max) =>
      if Open(lanes, i) then report.Got? && (report.bytes.Ready? ==> |report.bytes.value| <= max) else report == NoPoll
    case Writes(i, buf) =>
      if Open(lanes, i) then report.Took? && (report.count.Ready? ==> report.count.value <= |buf|) else report == NoPoll
    case _ => report == NoPoll
  }

  /** What a move does to the connections, given what its poll reported. */
  function LaneStep(lanes: seq<Lane>, m: Move, report: Report): seq<Lane> {
    match m
    case Accepts => lanes + [Lane(0, 0, Idle)]
    case Reads(i, _) =>
      if Open(lanes, i) && report.Got? && report.bytes.Ready? then
        var n := |report.bytes.value|;
        lanes[i := Lane(lanes[i].delivered + n, lanes[i].accepted, Read(n))]
      else lanes
    case Writes(i, _) =>
      if Open(lanes, i) && report.Took? && report.count.Ready? then
        var n := report.count.value;
        lanes[i := Lane(lanes[i].delivered, lanes[i].accepted + n, Written(n))]
      else lanes
    case Finishes(i) => if i < |lanes| then lanes[i := lanes[i].(pending := Idle)] else lanes
    case _ => lanes
  }

  function Lanes(moves: seq<Move>, reports: seq<Report>): seq<Lane>
    requires |moves| == |reports|
  {
    if moves == [] then [] else
      var n := |moves| - 1;
      LaneStep(Lanes(moves[..n], reports[..n]), moves[n], reports[n])
  }

  /** Every report fits the connections at its time. */
  predicate AllFit(moves: seq<Move>, reports: seq<Report>)
    requires |moves| == |reports|
  {
    moves == [] ||
    var n := |moves| - 1;
    AllFit(moves[..n], reports[..n]) && Fits(Lanes(moves[..n], reports[..n]), moves[n], reports[n])
  }

  lemma LanesNext(moves: seq<Move>, k: nat, reports: seq<Report>, report: Report)
    requires k < |moves| && |reports| == k && AllFit(moves[..k], reports)
    requires Fits(Lanes(moves[..k], reports), moves[k], report)
    ensures AllFit(moves[..k + 1], reports + [report])
    ensures Lanes(moves[..k + 1], reports + [report]) == LaneStep(Lanes(moves[..k], reports), moves[k], report)
  {
    hide Fits, LaneStep;
    var longer, more := moves[..k + 1], reports + [report];
    assert longer[..k] == moves[..k] && more[..k] == reports;
  }

  method ActOnReads(port: Port, i: nat, max: nat, ghost lanes: seq<Lane>) returns (report: Report)
    requires port.Valid() && port.Runs(lanes)
    modifies port`pending, port.pipes
    ensures port.Valid() && Fits(lanes, Reads(i, max), report)
    ensures port.Runs(LaneStep(lanes, Reads(i, max), report))
  {
    hide Sum, Owed, U64, LiveCount;
    report := NoPoll;
    if port.Free(i) {
      var r := port.StartRead(i, max);
      report := Got(r);
    }
  }

  method ActOnWrites(port: Port, i: nat, buf: seq<byte>, ghost lanes: seq<Lane>) returns (report: Report)
    requires port.Valid() && port.Runs(lanes)
    modifies port`pending, port.pipes
    ensures port.Valid() && Fits(lanes, Writes(i, buf), report)
    ensures port.Runs(LaneStep(lanes, Writes(i, buf), report))
  {
    hide Sum, Owed, U64, LiveCount;
    report := NoPoll;
    if port.Free(i) {
      var r := port.StartWrite(i, buf);
      report := Took(r);
    }
  }

  /** Moves without an inner poll. */
  method ActOnOthers(port: Port, m: Move, ghost lanes: seq<Lane>)
    requires port.Valid() && port.Runs(lanes) && (m.Accepts? || m.Arrives? || m.Finishes?)
    modifies port, port.counters, port.pipes
    ensures port.Valid() && fresh(port.pipes - old(port.pipes)) && port.guards == old(port.guards)
    ensures port.Runs(LaneStep(lanes, m, NoPoll))
  {
    hide Sum, Owed, U64, LiveCount;
    match m {
      case Accepts => port.Accept();
      case Arrives(i, data) => if i < |port.streams| { port.Arrive(i, data); }
      case Finishes(i) => if i < |port.streams| { port.Finish(i); }
    }
  }

  /** One move of the connections of a proxy. */
  method Act(port: Port, m: Move, ghost lanes: seq<Lane>) returns (report: Report)
    requires port.Valid() && port.Runs(lanes)
    modifies port, port.counters, port.pipes
    ensures port.Valid() && fresh(port.pipes - old(port.pipes))
    ensures port.guards == GuardStep(old(port.guards), m)
    ensures Fits(lanes, m, report) && port.Runs(LaneStep(lanes, m, report))
  {
    hide Port.Valid;
    report := NoPoll;
    match m {
      case Reads(i, max) => report := ActOnReads(port, i, max, lanes);
      case Writes(i, buf) => report := ActOnWrites(port, i, buf, lanes);
      case Accepts => ActOnOthers(port, m, lanes);
      case Arrives(_, _) => ActOnOthers(port, m, lanes);
      case Finishes(_) => ActOnOthers(port, m, lanes);
      case _ => ActOnGuards(port, m);
    }
  }

  /** What the unfinished polls have still to add. */
  function Owed(pending: seq<Pending>): (nat, nat) {
    if pending == [] then (0, 0) else
      var n := |pending| - 1;
      var owed := Owed(pending[..n]);
      (owed.0 + pending[n].In(), owed.1 + pending[n].Out())
  }

  lemma {:induction false} SumSplit(moved: seq<nat>, counted: seq<nat>, pending: seq<Pending>, read: bool)
    requires |moved| == |counted| == |pending|
    requires forall i :: 0 <= i < |moved| ==>
               moved[i] == counted[i] + if read then pending[i].In() else pending[i].Out()
    ensures Sum(moved) == Sum(counted) + if read then Owed(pending).0 else Owed(pending).1
  {
    if moved != [] {
      var n := |moved| - 1;
      SumSplit(moved[..n], counted[..n], pending[..n], read);
    }
  }

  lemma {:induction false} NothingOwed(pending: seq<Pending>)
    requires forall p <- pending :: p == Idle
    ensures Owed(pending) == (0, 0)
  {
    if pending != [] {
      var n := |pending| - 1;
      assert forall p <- pending[..n] :: p in pending;
      assert pending[n] in pending;
      NothingOwed(pending[..n]);
    }
  }

  /**
    Any history of a proxy's connections, with the additions of guards and polls
    as separate steps between which others may come: each stream has delivered
    and accepted what its polls reported, the byte counters show what all streams
    together have, but for polls not yet finished, and `active` shows the live
    guards. Histories may stop anywhere, so this is what one look at all four
    counters shows at any time.
   */
  method Run(moves: seq<Move>)
    returns (port: Port, reports: seq<Report>, delivered: seq<nat>, accepted: seq<nat>)
    ensures port.Valid() && port.guards == Guards(moves)
    ensures |reports| == |moves| && AllFit(moves, reports) && port.Runs(Lanes(moves, reports))
    ensures |delivered| == |accepted| == |port.streams|
    ensures forall i :: 0 <= i < |port.streams| ==>
              delivered[i] == port.streams[i].from.taken && accepted[i] == |port.streams[i].to.content|
    ensures var c, owed := port.counters, Owed(port.pending);
            && owed.0 <= Sum(delivered) && c.bytesIn == U64(Sum(delivered) - owed.0)
            && owed.1 <= Sum(accepted) && c.bytesOut == U64(Sum(accepted) - owed.1)
            && c.conns == U64(|Guards(moves)|) && c.active == U64(LiveCount(Guards(moves)))
            && (|Guards(moves)| < WRAP ==> c.active <= c.conns)
    ensures (forall p <- port.pending :: p == Idle) ==>
              port.counters.bytesIn == U64(Sum(delivered)) && port.counters.bytesOut == U64(Sum(accepted))
  {
    hide Port.Valid, Guards, Lanes, AllFit, U64, Sum, LiveCount, Owed;
    port := new Port();
    reports := [];
    NoMoves();
    assert moves[..0] == [];
    for k := 0 to |moves|
      invariant fresh(port) && fresh(port.counters) && fresh(port.pipes) && port.Valid()
      invariant port.guards == Guards(moves[..k])
      invariant |reports| == k && AllFit(moves[..k], reports)
      invariant port.Runs(Lanes(moves[..k], reports))
    {
      var report := Act(port, moves[k], Lanes(moves[..k], reports));
      MovesSnoc(moves, k);
      LanesNext(moves, k, reports, report);
      reports := reports + [report];
    }
    assert moves[..|moves|] == moves;
    delivered, accepted := port.Tallies();
    ActiveAtMostConns(Guards(moves));
    if forall p <- port.pending :: p == Idle {
      NothingOwed(port.pending);
    }
  }

  lemma ActiveAtMostConns(guards: seq<Guard>)
    ensures |guards| < WRAP ==> U64(LiveCount(guards)) <= U64(|guards|)
  {
    hide LiveCount, U64;
    if |guards| < WRAP {
      U64Small(|guards|);
      U64Small(LiveCount(guards));
    }
  }

  function Begun(moves: seq<Move>): nat {
    if moves == [] then 0
    else Begun(moves[..|moves| - 1]) + if moves[|moves| - 1] == Counts then 1 else 0
  }

  lemma {:induction false} GuardsGrow(first: seq<Move>, more: seq<Move>)
    ensures |Guards(first + more)| == |Guards(first)| + Begun(more)
  {
    if more == [] {
      assert first + more == first;
    } else {
      var n := |more| - 1;
      assert (first + more)[..|first| + n] == first + more[..n];
      GuardsGrow(first, more[..n]);
    }
  }

  /**
    A reader loads the counters one after the other: when it comes to `active`, this
    may exceed the `conns` it has loaded, but by no more than the guards begun since.
   */
  lemma ReaderSees(first: seq<Move>, more: seq<Move>)
    ensures LiveCount(Guards(first + more)) <= |Guards(first)| + Begun(more)
  {
    hide LiveCount;
    GuardsGrow(first, more);
  }

  /** And it does exceed it. */
  lemma ReaderMaySeeMore()
    ensures var first, more := [Counts, Activates(0)], [Counts, Activates(1)];
            LiveCount(Guards(first + more)) == 2 && |Guards(first)| == 1
  {
    var first := [Counts, Activates(0)];
    var all := first + [Counts, Activates(1)];
    var a, b, c := all[..1], all[..2], all[..3];
    assert all[..0] == [] && a[..0] == [] && b[..1] == a && c[..2] == b && all[..3] == c && b == first;
    assert Guards(a) == [Counted];
    assert Guards(b) == [Live];
    assert Guards(c) == [Live, Counted];
    assert Guards(all) == [Live, Live];
    assert [Live, Live][..1] == [Live] && [Live][..0] == [];
  }

  lemma NoMoves()
    ensures Guards([]) == [] && Lanes([], []) == [] && AllFit([], [])
  {
  }

  lemma MovesSnoc(moves: seq<Move>, k: nat)
    requires k < |moves|
    ensures Guards(moves[..k + 1]) == GuardStep(Guards(moves[..k]), moves[k])
  {
    assert moves[..k + 1][..k] == moves[..k];
  }
}
