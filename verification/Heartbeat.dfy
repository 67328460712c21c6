/** Keep-alive timing. Times are milliseconds since the client took its first `last_pong`. */
module Heartbeat {
  const INTERVAL := 15000
  const TIMEOUT := 45000      // client: age of the last Pong
  const CONTROL_IDLE := 45000 // server: silence on the control stream

  /** The k-th tick of the client's timer; Ping k leaves then, and the age check follows. */
  function Tick(k: nat): nat {
    k * INTERVAL
  }

  /** When the client reads the Pong of each Ping; Pongs come in order. */
  ghost predicate Ordered(arrival: nat -> nat) {
    && (forall k :: Tick(k) <= arrival(k))
    && (forall j, k :: j <= k ==> arrival(j) <= arrival(k))
  }

  /** At time `now`, `last` is when the newest Pong was read, or 0. A Pong of this very instant counts if `eager`. */
  ghost predicate LastPong(arrival: nat -> nat, now: nat, eager: bool, last: nat) {
    && (last == 0 || exists j :: arrival(j) == last && Seen(last, now, eager))
    && forall j :: Seen(arrival(j), now, eager) ==> arrival(j) <= last
  }

  predicate Seen(t: nat, now: nat, eager: bool) {
    t < now || (eager && t == now)
  }

  /** The check after Ping k declares the tunnel dead. */
  ghost predicate Trips(arrival: nat -> nat, k: nat, eager: bool) {
    exists last: nat :: LastPong(arrival, Tick(k), eager, last) && Tick(k) > last + TIMEOUT
  }

  /** There is always a newest Pong to speak of. */
  lemma LastPongExists(arrival: nat -> nat, k: nat, eager: bool) returns (last: nat)
    requires Ordered(arrival)
    ensures LastPong(arrival, Tick(k), eager, last)
  {
    var n: nat := k + 1;
    while n > 0 && !Seen(arrival(n - 1), Tick(k), eager)
      invariant forall j :: n <= j ==> !Seen(arrival(j), Tick(k), eager)
    {
      n := n - 1;
    }
    last := if n == 0 then 0 else arrival(n - 1);
  }

  /** The client trips at a tick exactly if the tick is late enough and no Pong was read in the 45 s before it. */
  lemma TripsExactly(arrival: nat -> nat, k: nat, eager: bool)
    requires Ordered(arrival)
    ensures Trips(arrival, k, eager) <==>
              Tick(k) > TIMEOUT && forall j :: Seen(arrival(j), Tick(k), eager) ==> arrival(j) + TIMEOUT < Tick(k)
  {
    var last := LastPongExists(arrival, k, eager);
    forall other | LastPong(arrival, Tick(k), eager, other)
      ensures other == last
    {
      LastPongUnique(arrival, Tick(k), eager, last, other);
    }
  }

  lemma LastPongUnique(arrival: nat -> nat, now: nat, eager: bool, a: nat, b: nat)
    requires LastPong(arrival, now, eager, a) && LastPong(arrival, now, eager, b)
    ensures a == b
  {
  }

  /** Round trips under 45 s never trip the client; nor of 45 s, if a Pong read at a tick still counts for it. */
  lemma PromptPongsNeverTrip(arrival: nat -> nat, k: nat, eager: bool)
    requires Ordered(arrival)
    requires forall j :: arrival(j) - Tick(j) < TIMEOUT || (eager && arrival(j) - Tick(j) == TIMEOUT)
    ensures !Trips(arrival, k, eager)
  {
    TripsExactly(arrival, k, eager);
    if Tick(k) > TIMEOUT {
      assert k >= 4;
      assert Tick(k - 3) + TIMEOUT == Tick(k);
      assert Seen(arrival(k - 3), Tick(k), eager);
    }
  }

  /** The bound is tight either way: one millisecond more can trip it. */
  lemma SlowerPongsMayTrip(eager: bool)
    ensures exists arrival: nat -> nat :: Ordered(arrival) && arrival(0) == 0
              && (forall j :: arrival(j) - Tick(j) <= 45000 + if eager then 1 else 0)
              && Trips(arrival, 4, eager)
  {
    var late := TIMEOUT + Tie(eager);
    var arrival := (j: nat) => if j == 0 then 0 else Tick(j) + late;
    assert Ordered(arrival);
    TripsExactly(arrival, 4, eager);
  }

  /** Once Pongs stop, the client gives up within 60 s of the last one. */
  lemma SilenceIsNoticed(arrival: nat -> nat, last: nat, eager: bool) returns (k: nat)
    requires Ordered(arrival)
    requires forall j :: arrival(j) <= last || arrival(j) > last + TIMEOUT + INTERVAL
    ensures last + TIMEOUT < Tick(k) <= last + TIMEOUT + INTERVAL
    ensures Trips(arrival, k, eager)
  {
    k := (last + TIMEOUT) / INTERVAL + 1;
    TripsExactly(arrival, k, eager);
  }

  // ---- both ends over a network ----

  /**
    Delays of the k-th Ping and of its Pong. The server sent its last
    registration reply `replied` before time 0; the reply took that long.
   */
  datatype Network = Network(up: nat -> nat, down: nat -> nat, replied: nat) {
    function PingRead(k: nat): nat {
      Tick(k) + up(k)
    }

    /** The server answers a Ping at once. */
    function PongRead(k: nat): nat {
      PingRead(k) + down(k)
    }

    /** When the server starts to wait for Ping k. */
    function WaitsSince(k: nat): int {
      if k == 0 then -(replied as int) else PingRead(k - 1) as int
    }

    /** The server gives up waiting for Ping k. One that can be read at the very deadline counts if `eager`. */
    predicate ServerTrips(k: nat, eager: bool) {
      PingRead(k) - WaitsSince(k) >= CONTROL_IDLE + Tie(eager)
    }

    ghost predicate Fifo() {
      && (forall j, k :: j <= k ==> PingRead(j) <= PingRead(k))
      && (forall j, k :: j <= k ==> PongRead(j) <= PongRead(k))
    }
  }

  /** The millisecond that a tie settled for the message is worth. */
  function Tie(eager: bool): nat {
    if eager then 1 else 0
  }

  /**
    With every round trip under 45 s and every Ping under 30 s, neither end ever
    gives up, however ties are settled.
   */
  lemma NeitherEndTrips(n: Network, k: nat, clientEager: bool, serverEager: bool)
    requires n.Fifo()
    requires forall j :: n.up(j) < 30000 && n.PongRead(j) - Tick(j) < TIMEOUT
    requires n.replied + n.up(0) < CONTROL_IDLE
    ensures !n.ServerTrips(k, serverEager)
    ensures !Trips((j: nat) => n.PongRead(j), k, clientEager)
  {
    var arrival := (j: nat) => n.PongRead(j);
    assert forall j :: arrival(j) == n.PongRead(j);
    PromptPongsNeverTrip(arrival, k, clientEager);
    if k > 0 {
      assert Tick(k) == Tick(k - 1) + INTERVAL;
    }
  }

  /**
    Over any network the server never gives up exactly if the first wait is short
    and no Ping is 30 s slower than the one before.
   */
  lemma ServerSurvives(n: Network, eager: bool)
    ensures (forall k: nat :: !n.ServerTrips(k, eager))
       <==> && (if eager then n.replied + n.up(0) <= 45000 else n.replied + n.up(0) < 45000)
            && forall k: nat :: if eager then n.up(k + 1) <= n.up(k) + 30000 else n.up(k + 1) < n.up(k) + 30000
  {
    assert n.ServerTrips(0, eager) <==> n.replied + n.up(0) >= CONTROL_IDLE + Tie(eager);
    forall k: nat
      ensures n.ServerTrips(k + 1, eager) <==> n.up(k + 1) >= n.up(k) + 30000 + Tie(eager)
    {
      assert Tick(k + 1) == Tick(k) + INTERVAL;
    }
    assert forall k: nat :: k > 0 ==> n.ServerTrips(k, eager) == n.ServerTrips(k - 1 + 1, eager);
  }

  /** With Pings under 30 s it all hangs on the wait from the last registration reply to the first Ping. */
  lemma FirstWaitDecides(n: Network, eager: bool)
    requires forall k :: n.up(k) < 30000
    ensures (forall k: nat :: !n.ServerTrips(k, eager))
       <==> if eager then n.replied + n.up(0) <= 45000 else n.replied + n.up(0) < 45000
  {
    ServerSurvives(n, eager);
  }

  /** So one-way delays under 30 s alone are not enough for the server... */
  lemma OneWayBoundIsNotEnough(eager: bool)
    ensures exists n: Network :: n.Fifo() && n.replied < 30000
              && (forall k :: n.up(k) < 30000 && n.down(k) < 30000) && n.ServerTrips(0, eager)
  {
    var n := Network((k: nat) => 29999, (k: nat) => 0, 29999);
    assert n.Fifo() && n.ServerTrips(0, eager);
  }

  /** ... and delays of 30 s are too much between two Pings, or of a millisecond more if ties go to the Ping. */
  lemma SlowerPingsMayTrip(eager: bool)
    ensures exists n: Network :: n.Fifo() && n.replied == 0
              && (forall k :: n.up(k) <= 30000 + if eager then 1 else 0) && n.ServerTrips(1, eager)
  {
    var late := 30000 + Tie(eager);
    var n := Network((k: nat) => if k == 0 then 0 else late, (k: nat) => 0, 0);
    assert n.PingRead(0) == 0 && n.PingRead(1) == INTERVAL + late;
    assert n.Fifo() && n.ServerTrips(1, eager);
  }
}
