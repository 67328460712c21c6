/**
  The traffic registry. The registry itself is guarded by a lock; the counters
  are not: bytes may be added to any of them between any two loads of a walk.
 */
module Metrics {
  import opened Bytes

  const HISTORY_CAP := 2048

  /** Counters are known by handles; a handle list is summed in list order. */
  function SumOf(handles: seq<nat>, value: seq<nat>): nat {
    if handles == [] then 0
    else (if handles[0] < |value| then value[handles[0]] else 0) + SumOf(handles[1..], value)
  }

  lemma {:induction false} SumAppend(a: seq<nat>, b: seq<nat>, value: seq<nat>)
    ensures SumOf(a + b, value) == SumOf(a, value) + SumOf(b, value)
  {
    if a == [] {
      assert a + b == b;
    } else {
      assert (a + b)[1..] == a[1..] + b;
      SumAppend(a[1..], b, value);
    }
  }

  lemma SumSnoc(a: seq<nat>, h: nat, value: seq<nat>)
    requires h < |value|
    ensures SumOf(a + [h], value) == SumOf(a, value) + value[h]
  {
    SumAppend(a, [h], value);
    var one := [h];
    assert one[1..] == [];
  }

  predicate Grown(before: seq<nat>, after: seq<nat>) {
    |before| == |after| && forall h :: 0 <= h < |before| ==> before[h] <= after[h]
  }

  lemma {:induction false} SumGrows(handles: seq<nat>, before: seq<nat>, after: seq<nat>)
    requires Grown(before, after)
    ensures SumOf(handles, before) <= SumOf(handles, after)
  {
    if handles != [] {
      SumGrows(handles[1..], before, after);
    }
  }

  /** An addition to one counter shows in a sum as often as the counter is listed. */
  lemma {:induction false} SumAdd(handles: seq<nat>, value: seq<nat>, h: nat, n: nat)
    requires h < |value| && multiset(handles)[h] <= 1
    ensures SumOf(handles, value[h := value[h] + n])
         == SumOf(handles, value) + if multiset(handles)[h] == 1 then n else 0
  {
    if handles != [] {
      assert handles == [handles[0]] + handles[1..];
      SumAdd(handles[1..], value, h, n);
    }
  }

  lemma {:induction false} SumAlloc(handles: seq<nat>, value: seq<nat>)
    ensures SumOf(handles, value + [0]) == SumOf(handles, value)
  {
    if handles != [] {
      SumAlloc(handles[1..], value);
    }
  }

  /** The handles of all tunnels with an id below `hi`, in id order. */
  function Visit(tunnels: map<nat, seq<nat>>, hi: nat): seq<nat> {
    if hi == 0 then [] else
      Visit(tunnels, hi - 1) + if hi - 1 in tunnels then tunnels[hi - 1] else []
  }

  lemma VisitNothing(tunnels: map<nat, seq<nat>>, value: seq<nat>)
    ensures Visit(tunnels, 0) == [] && SumOf([], value) == 0
  {
  }

  lemma VisitNext(tunnels: map<nat, seq<nat>>, id: nat)
    ensures Visit(tunnels, id + 1) == Visit(tunnels, id) + if id in tunnels then tunnels[id] else []
  {
  }

  lemma {:induction false} VisitSame(s: map<nat, seq<nat>>, t: map<nat, seq<nat>>, hi: nat)
    requires forall id :: 0 <= id < hi ==> (id in s <==> id in t) && (id in s ==> s[id] == t[id])
    ensures Visit(s, hi) == Visit(t, hi)
  {
    if hi > 0 {
      VisitSame(s, t, hi - 1);
    }
  }

  /** Changing one tunnel's list changes the visit in one place. */
  lemma {:induction false} VisitSplit(s: map<nat, seq<nat>>, t: map<nat, seq<nat>>, id: nat, hi: nat)
    returns (front: seq<nat>, back: seq<nat>)
    requires id < hi
    requires forall k :: 0 <= k < hi && k != id ==> (k in s <==> k in t) && (k in s ==> s[k] == t[k])
    ensures Visit(s, hi) == front + (if id in s then s[id] else []) + back
    ensures Visit(t, hi) == front + (if id in t then t[id] else []) + back
  {
    if hi == id + 1 {
      VisitSame(s, t, id);
      front, back := Visit(s, id), [];
    } else {
      front, back := VisitSplit(s, t, id, hi - 1);
      back := back + if hi - 1 in s then s[hi - 1] else [];
    }
  }

  /** A fresh counter entered under a tunnel adds itself to the visit and nothing to the sum. */
  lemma Pushed(s: map<nat, seq<nat>>, t: map<nat, seq<nat>>, id: nat, h: nat, hi: nat, value: seq<nat>)
    requires id < hi && id in s && t == s[id := s[id] + [h]]
    requires h < |value| && value[h] == 0
    ensures SumOf(Visit(t, hi), value) == SumOf(Visit(s, hi), value)
    ensures multiset(Visit(t, hi)) == multiset(Visit(s, hi)) + multiset{h}
  {
    hide SumOf, Visit;
    var front, back := VisitSplit(s, t, id, hi);
    var list := s[id];
    SumSnoc(front + list, h, value);
    assert front + (list + [h]) == front + list + [h];
    SumAppend(front + list + [h], back, value);
    SumAppend(front + list, back, value);
  }

  /** `sum` was collected along `path` while the counters grew from `before` to `now`. */
  predicate Between(path: seq<nat>, before: seq<nat>, now: seq<nat>, sum: nat) {
    SumOf(path, before) <= sum <= SumOf(path, now)
  }

  lemma BetweenStep(path: seq<nat>, h: nat, before: seq<nat>, now: seq<nat>, sum: nat)
    requires Grown(before, now) && h < |now|
    requires Between(path, before, now, sum)
    ensures Between(path + [h], before, now, sum + now[h])
  {
    SumSnoc(path, h, before);
    SumSnoc(path, h, now);
  }

  lemma BetweenGrows(path: seq<nat>, before: seq<nat>, now: seq<nat>, later: seq<nat>, sum: nat)
    requires Between(path, before, now, sum) && Grown(now, later)
    ensures Between(path, before, later, sum)
  {
    SumGrows(path, now, later);
  }

  lemma TailToFront(front: seq<nat>, list: seq<nat>, back: seq<nat>, value: seq<nat>)
    ensures SumOf(front + list + back, value) == SumOf(front + back + list, value)
    ensures multiset(front + list + back) == multiset(front + back + list)
  {
    SumAppend(front + list, back, value);
    SumAppend(front, list, value);
    SumAppend(front + back, list, value);
    SumAppend(front, back, value);
  }

  /** The visit without tunnel `id`; its own counters may as well have come last. */
  lemma Removed(t: map<nat, seq<nat>>, id: nat, hi: nat, v: seq<nat>, w: seq<nat>) returns (rest: seq<nat>)
    requires id < hi && id in t
    ensures Visit(t - {id}, hi) == rest
    ensures multiset(Visit(t, hi)) == multiset(rest + t[id])
    ensures SumOf(Visit(t, hi), v) == SumOf(rest + t[id], v)
    ensures SumOf(Visit(t, hi), w) == SumOf(rest + t[id], w)
  {
    hide SumOf, Visit;
    var front, back := VisitSplit(t, t - {id}, id, hi);
    rest := front + back;
    assert front + [] + back == rest;
    TailToFront(front, t[id], back, v);
    TailToFront(front, t[id], back, w);
  }

  lemma TakeOut(rest: seq<nat>, h: nat, tail: seq<nat>, value: seq<nat>)
    requires h < |value|
    ensures SumOf(rest + ([h] + tail), value) == SumOf(rest + tail, value) + value[h]
    ensures multiset(rest + ([h] + tail)) == multiset(rest + tail) + multiset{h}
  {
    SumAppend(rest, [h] + tail, value);
    SumAppend([h], tail, value);
    SumSnoc([], h, value);
    assert [] + [h] == [h];
    SumAppend(rest, tail, value);
  }

  lemma WithoutOne(all: set<nat>, gone: set<nat>, h: nat, left: seq<nat>)
    requires multiset(left) + multiset{h} == multiset(all - gone)
    ensures h in all && multiset(left) == multiset(all - (gone + {h}))
  {
    var live, fewer := multiset(all - gone), multiset(all - (gone + {h}));
    assert live[h] == multiset(left)[h] + 1;
    forall x
      ensures multiset(left)[x] == fewer[x]
    {
      assert live[x] == multiset(left)[x] + if x == h then 1 else 0;
    }
  }

  /** What 64-bit counters show. */
  function Shown(value: seq<nat>): seq<nat> {
    seq(|value|, h requires 0 <= h < |value| => U64(value[h]))
  }

  lemma ZeroIsShown()
    ensures U64(0) == 0
  {
  }

  /** One kind of byte counter of all proxies: 64-bit cells, and beside them all bytes ever added. */
  class Bank {
    const idle: bool  // its connections relay nothing of their own accord
    var cells: seq<nat>
    ghost var value: seq<nat>
    ghost var registered: set<nat>  // counters of proxies that were entered in the registry
    ghost var gone: set<nat>        // those already rolled into the retired total
    ghost var counted: nat          // bytes ever added to registered counters
    ghost var late: nat             // bytes added to counters after they were rolled in

    ghost predicate Owns(live: seq<nat>)
      reads this
    {
      && cells == Shown(value)
      && gone <= registered
      && (forall h <- registered :: h < |value|)
      && multiset(live) == multiset(registered - gone)
    }

    /** Nothing is lost: retired, live and late bytes are all the bytes counted. */
    ghost predicate Books(live: seq<nat>, retired: nat)
      reads this
    {
      counted == retired + SumOf(live, value) + late
    }

    constructor (idle: bool)
      ensures this.idle == idle
      ensures value == [] && cells == [] && registered == {} && gone == {} && counted == 0 && late == 0
    {
      this.idle := idle;
      cells, value, registered, gone, counted, late := [], [], {}, {}, 0, 0;
    }

    /** A fresh counter, known to no one yet. */
    method Alloc(ghost live: seq<nat>) returns (h: nat)
      requires Owns(live)
      modifies `cells, `value
      ensures Owns(live) && h == |old(value)| && value == old(value) + [0]
      ensures SumOf(live, value) == old(SumOf(live, value))
      ensures h !in registered
    {
      h := |cells|;
      SumAlloc(live, value);
      cells, value := cells + [0], value + [0];
    }

    ghost method Enter(h: nat, live: seq<nat>, longer: seq<nat>)
      requires Owns(live) && h < |value| && h !in registered
      requires multiset(longer) == multiset(live) + multiset{h}
      modifies `registered
      ensures Owns(longer) && registered == old(registered) + {h}
    {
      assert registered + {h} - gone == (registered - gone) + {h};
      registered := registered + {h};
    }

    /** An atomic addition by a connection that holds the counter. */
    method Add(h: nat, n: nat, ghost live: seq<nat>)
      requires Owns(live) && h < |value|
      modifies `cells, `value, `counted, `late
      ensures Owns(live) && value == old(value)[h := old(value)[h] + n]
      ensures counted + old(SumOf(live, value)) + old(late) == old(counted) + SumOf(live, value) + late
    {
      SumAdd(live, value, h, n);
      U64Up(value[h], n);
      cells, value := cells[h := U64(cells[h] + n)], value[h := value[h] + n];
      if h in registered {
        counted := counted + n;
      }
      if h in gone {
        late := late + n;
      }
    }

    /** Any number of additions by connections, while somebody else holds the lock or nobody does. */
    method Interfere(ghost live: seq<nat>)
      requires Owns(live)
      modifies `cells, `value, `counted, `late
      ensures Owns(live) && Grown(old(value), value)
      ensures SumOf(live, value) >= old(SumOf(live, value))
      ensures counted + old(SumOf(live, value)) + old(late) == old(counted) + SumOf(live, value) + late
      ensures idle ==> value == old(value)
    {
      if idle {
        return;
      }
      ghost var before := value;
      var rounds: nat :| 0 <= rounds;
      for i := 0 to rounds
        invariant Owns(live) && Grown(old(value), value)
        invariant counted + old(SumOf(live, value)) + old(late) == old(counted) + SumOf(live, value) + late
      {
        var h: nat :| 0 <= h;
        var n: nat :| 0 <= n;
        if h < |cells| {
          Add(h, n, live);
        }
      }
      SumGrows(live, before, value);
    }

    lemma Lives(h: nat, live: seq<nat>)
      requires Owns(live) && h in live
      ensures h < |value|
    {
      assert h in multiset(live);
    }

    /** An atomic load. */
    method Load(h: nat, ghost live: seq<nat>) returns (n: nat)
      requires Owns(live) && h < |value|
      ensures n == U64(value[h])
    {
      n := cells[h];
    }

    /** From its load on, a counter being rolled in belongs to the retired bytes. */
    ghost method Retire(h: nat, rest: seq<nat>, tail: seq<nat>, retired: nat)
      requires Owns(rest + ([h] + tail)) && Books(rest + ([h] + tail), retired)
      modifies `gone
      ensures h < |value|
      ensures Owns(rest + tail) && Books(rest + tail, retired + value[h])
      ensures SumOf(rest + tail, value) + value[h] == SumOf(rest + ([h] + tail), value)
    {
      hide SumOf;
      assert multiset(rest + ([h] + tail))[h] > 0;
      TakeOut(rest, h, tail, value);
      WithoutOne(registered, gone, h, rest + tail);
      gone := gone + {h};
    }
  }

  /** The newest `n` entries of a history, or all of them. */
  function Newest<T>(entries: seq<T>, n: nat): seq<T> {
    if |entries| <= n then entries else entries[|entries| - n..]
  }

  lemma NewestAgain<T>(a: seq<T>, x: T, n: nat)
    requires n > 0
    ensures Newest(Newest(a, n) + [x], n) == Newest(a + [x], n)
  {
  }

  datatype Sample = Sample(t: nat, totalIn: nat, totalOut: nat)

  /** Bytes counted without wrapping, by direction. */
  datatype Exact = Exact(totalIn: nat, totalOut: nat) {
    predicate AtMost(other: Exact) {
      totalIn <= other.totalIn && totalOut <= other.totalOut
    }
  }

  /** A sample, what its walk added up, and the registry's totals when it took the lock and when it let go. */
  datatype Walk = Walk(sample: Sample, locked: Exact, exact: Exact, released: Exact) {
    predicate Fair() {
      && locked.AtMost(exact) && exact.AtMost(released)
      && sample.totalIn == U64(exact.totalIn) && sample.totalOut == U64(exact.totalOut)
    }
  }

  /** Each walk is fair, and they follow each other up to totals of `most`. */
  ghost predicate Shows(walks: seq<Walk>, most: Exact) {
    && (forall i :: 0 <= i < |walks| ==> walks[i].Fair() && walks[i].released.AtMost(most))
    && (forall i, j :: 0 <= i < j < |walks| ==> walks[i].released.AtMost(walks[j].locked))
  }

  class Registry {
    const ins: Bank
    const outs: Bank
    var nextId: nat
    var tunnels: map<nat, seq<nat>>  // tunnel id to the counters of its proxies
    var retiredIn: nat
    var retiredOut: nat
    var history: seq<Sample>
    ghost var rolledIn: nat  // the retired bytes, not wrapped
    ghost var rolledOut: nat
    ghost var walks: seq<Walk>

    ghost function Live(): seq<nat>
      reads `nextId, `tunnels
    {
      Visit(tunnels, nextId)
    }

    ghost function TotalIn(): nat
      reads `nextId, `tunnels, `rolledIn, ins`value
    {
      rolledIn + SumOf(Live(), ins.value)
    }

    ghost function TotalOut(): nat
      reads `nextId, `tunnels, `rolledOut, outs`value
    {
      rolledOut + SumOf(Live(), outs.value)
    }

    /** Ids are below `nextId`; both banks know the same counters. */
    ghost predicate Shape()
      reads `nextId, `tunnels, `retiredIn, `retiredOut, `rolledIn, `rolledOut, ins, outs
    {
      && ins != outs
      && (forall id <- tunnels :: 1 <= id < nextId)
      && |ins.value| == |outs.value|
      && ins.registered == outs.registered
      && retiredIn == U64(rolledIn) && retiredOut == U64(rolledOut)
    }

    ghost predicate Balanced(live: seq<nat>)
      reads `rolledIn, `rolledOut, ins, outs
    {
      && ins.Owns(live) && outs.Owns(live)
      && ins.Books(live, rolledIn) && outs.Books(live, rolledOut)
    }

    /** The state whenever nobody holds the lock. */
    ghost predicate Valid()
      reads `nextId, `tunnels, `retiredIn, `retiredOut, `rolledIn, `rolledOut, ins, outs
    {
      Shape() && nextId >= 1 && Balanced(Live())
    }

    constructor (loaded: seq<Sample>, idle: bool)
      ensures Valid() && fresh(ins) && fresh(outs)
      ensures ins.idle == outs.idle == idle && ins.gone == {} && walks == [] && Reached() == Exact(0, 0)
      ensures history == loaded && nextId == 1 && tunnels == map[] && ins.value == []
    {
      ins := new Bank(idle);
      outs := new Bank(idle);
      nextId, tunnels, retiredIn, retiredOut, history := 1, map[], 0, 0, loaded;
      rolledIn, rolledOut, walks := 0, 0, [];
      new;
      assert Visit(tunnels, 1) == Visit(tunnels, 0) == [];
    }

    /** Connections relay traffic, whoever holds the lock. */
    method Traffic(ghost liveIn: seq<nat>, ghost liveOut: seq<nat>)
      requires Shape() && ins.Owns(liveIn) && outs.Owns(liveOut)
      modifies ins`cells, ins`value, ins`counted, ins`late, outs`cells, outs`value, outs`counted, outs`late
      ensures Shape() && ins.Owns(liveIn) && outs.Owns(liveOut)
      ensures Grown(old(ins.value), ins.value) && Grown(old(outs.value), outs.value)
      ensures SumOf(liveIn, ins.value) >= old(SumOf(liveIn, ins.value))
      ensures SumOf(liveOut, outs.value) >= old(SumOf(liveOut, outs.value))
      ensures forall retired :: old(ins.Books(liveIn, retired)) ==> ins.Books(liveIn, retired)
      ensures forall retired :: old(outs.Books(liveOut, retired)) ==> outs.Books(liveOut, retired)
      ensures (ins.idle ==> ins.value == old(ins.value)) && (outs.idle ==> outs.value == old(outs.value))
    {
      hide SumOf, Bank.Owns;
      ins.Interfere(liveIn);
      outs.Interfere(liveOut);
    }

    ghost function Entries(): Listing
      reads `nextId, `tunnels
    {
      Listing(nextId, Sizes(tunnels))
    }

    ghost function Reached(): Exact
      reads `nextId, `tunnels, `rolledIn, `rolledOut, ins`value, outs`value
    {
      Exact(TotalIn(), TotalOut())
    }

    /** The bytes ever added to registered counters. */
    ghost function Moved(): Exact
      reads ins`counted, outs`counted
    {
      Exact(ins.counted, outs.counted)
    }

    /** Nothing is counted twice: the totals stay within the bytes moved. */
    lemma ReachedIsMoved()
      requires Valid()
      ensures Reached().AtMost(Moved())
    {
      hide SumOf, Visit, Bank.Owns;
    }

    /** A connection receives bytes and counts them. */
    method Receive(h: nat, n: nat)
      requires Valid() && h < |ins.value|
      modifies ins`cells, ins`value, ins`counted, ins`late
      ensures Valid() && TotalOut() == old(TotalOut()) && ins.value == old(ins.value)[h := old(ins.value)[h] + n]
      ensures TotalIn() == old(TotalIn()) + if h in ins.registered && h !in ins.gone then n else 0
    {
      hide SumOf, Visit;
      SumAdd(Live(), ins.value, h, n);
      assert multiset(Live())[h] == if h in ins.registered && h !in ins.gone then 1 else 0;
      ins.Add(h, n, Live());
    }

    /** Traffic while nobody holds the lock. */
    method Relay()
      requires Valid()
      modifies ins`cells, ins`value, ins`counted, ins`late, outs`cells, outs`value, outs`counted, outs`late
      ensures Valid()
      ensures TotalIn() >= old(TotalIn()) && TotalOut() >= old(TotalOut())
    {
      hide SumOf, Visit, Bank.Owns, Bank.Books;
      Traffic(Live(), Live());
    }

    method RegisterTunnel() returns (id: nat)
      requires Valid()
      modifies `nextId, `tunnels
      ensures Valid()
      ensures id == old(nextId) && nextId == id + 1 && id !in old(tunnels)
      ensures tunnels == old(tunnels)[id := []]
      ensures TotalIn() == old(TotalIn()) && TotalOut() == old(TotalOut())
    {
      hide SumOf, Visit, Bank.Owns, Bank.Books, U64;
      ghost var was := tunnels;
      id := nextId;
      nextId := nextId + 1;
      tunnels := tunnels[id := []];
      VisitSame(was, tunnels, id);
      VisitNext(tunnels, id);
      assert Visit(was, id) + [] == Visit(was, id);
    }

    /** Counters are handed out in any case; they count towards the totals if the tunnel is still there. */
    method RegisterProxy(id: nat) returns (h: nat)
      requires Valid()
      modifies `tunnels, ins`cells, ins`value, ins`registered, outs`cells, outs`value, outs`registered
      ensures Valid()
      ensures h == |old(ins.value)|
      ensures ins.value == old(ins.value) + [0] && outs.value == old(outs.value) + [0]
      ensures tunnels == if id in old(tunnels) then old(tunnels)[id := old(tunnels)[id] + [h]] else old(tunnels)
      ensures h in ins.registered <==> id in old(tunnels)
      ensures TotalIn() == old(TotalIn()) && TotalOut() == old(TotalOut())
    {
      hide SumOf, Visit, Bank.Owns;
      h := ins.Alloc(Live());
      var _ := outs.Alloc(Live());
      if id in tunnels {
        Push(id, h);
      }
    }

    /** Enter a fresh counter under a tunnel. */
    method Push(id: nat, h: nat)
      requires Valid() && id in tunnels
      requires h < |ins.value| && h !in ins.registered && ins.value[h] == 0 && outs.value[h] == 0
      modifies `tunnels, ins`registered, outs`registered
      ensures Valid()
      ensures tunnels == old(tunnels)[id := old(tunnels)[id] + [h]]
      ensures ins.registered == old(ins.registered) + {h}
      ensures TotalIn() == old(TotalIn()) && TotalOut() == old(TotalOut())
    {
      hide SumOf, Visit, Bank.Owns;
      ghost var was, live := tunnels, Live();
      tunnels := tunnels[id := tunnels[id] + [h]];
      Pushed(was, tunnels, id, h, nextId, ins.value);
      Pushed(was, tunnels, id, h, nextId, outs.value);
      ins.Enter(h, live, Live());
      outs.Enter(h, live, Live());
    }

    /** Cumulative totals: a walk under the lock that takes no snapshot. */
    method Totals() returns (totalIn: nat, totalOut: nat, ghost exact: Exact)
      requires Valid()
      modifies ins`cells, ins`value, ins`counted, ins`late, outs`cells, outs`value, outs`counted, outs`late
      ensures Valid()
      ensures old(Reached()).AtMost(exact) && exact.AtMost(Reached())
      ensures totalIn == U64(exact.totalIn) && totalOut == U64(exact.totalOut)
      ensures (ins.idle ==> ins.value == old(ins.value)) && (outs.idle ==> outs.value == old(outs.value))
    {
      hide SumOf, Visit, Bank.Owns, Bank.Books, U64;
      totalIn, totalOut := retiredIn, retiredOut;
      ghost var exactIn, exactOut := rolledIn, rolledOut;
      ghost var in0, out0, live := ins.value, outs.value, Live();
      VisitNothing(tunnels, in0);
      VisitNothing(tunnels, out0);
      for id := 0 to nextId
        invariant Shape() && Balanced(live)
        invariant Walked(Visit(tunnels, id), in0, out0, exactIn, exactOut)
        invariant totalIn == U64(exactIn) && totalOut == U64(exactOut)
      {
        VisitNext(tunnels, id);
        if id in tunnels {
          ghost var front, back := VisitSplit(tunnels, tunnels, id, nextId);
          totalIn, totalOut, exactIn, exactOut :=
            WalkTunnel(tunnels[id], Visit(tunnels, id), live, in0, out0, totalIn, totalOut, exactIn, exactOut);
        } else {
          assert Visit(tunnels, id) + [] == Visit(tunnels, id);
        }
      }
      Mingle(live, Visit(tunnels, nextId), Visit(tunnels, nextId), in0, out0, exactIn, exactOut);
      exact := Exact(exactIn, exactOut);
    }

    ghost predicate Walked(path: seq<nat>, in0: seq<nat>, out0: seq<nat>, exactIn: nat, exactOut: nat)
      reads `rolledIn, `rolledOut, ins`value, outs`value
    {
      WalkedIn(path, in0, exactIn) && WalkedOut(path, out0, exactOut)
    }

    ghost predicate WalkedIn(path: seq<nat>, in0: seq<nat>, exactIn: nat)
      reads `rolledIn, ins`value
    {
      && Grown(in0, ins.value) && (ins.idle ==> ins.value == in0)
      && exactIn >= rolledIn && Between(path, in0, ins.value, exactIn - rolledIn)
    }

    ghost predicate WalkedOut(path: seq<nat>, out0: seq<nat>, exactOut: nat)
      reads `rolledOut, outs`value
    {
      && Grown(out0, outs.value) && (outs.idle ==> outs.value == out0)
      && exactOut >= rolledOut && Between(path, out0, outs.value, exactOut - rolledOut)
    }

    /** Traffic in the middle of a walk. */
    method Mingle(ghost live: seq<nat>, ghost pathIn: seq<nat>, ghost pathOut: seq<nat>,
                  ghost in0: seq<nat>, ghost out0: seq<nat>, ghost exactIn: nat, ghost exactOut: nat)
      requires Shape() && Balanced(live)
      requires WalkedIn(pathIn, in0, exactIn) && WalkedOut(pathOut, out0, exactOut)
      modifies ins`cells, ins`value, ins`counted, ins`late, outs`cells, outs`value, outs`counted, outs`late
      ensures Shape() && Balanced(live)
      ensures WalkedIn(pathIn, in0, exactIn) && WalkedOut(pathOut, out0, exactOut)
      ensures Grown(old(ins.value), ins.value) && Grown(old(outs.value), outs.value)
    {
      hide SumOf, Bank.Owns, Bank.Books, Between;
      ghost var in1, out1 := ins.value, outs.value;
      Traffic(live, live);
      BetweenGrows(pathIn, in0, in1, ins.value, exactIn - rolledIn);
      BetweenGrows(pathOut, out0, out1, outs.value, exactOut - rolledOut);
    }

    /** Add one proxy's counters to the running totals; traffic goes on before either load. */
    method WalkProxy(h: nat, ghost path: seq<nat>, ghost live: seq<nat>, ghost in0: seq<nat>, ghost out0: seq<nat>,
                     sumIn: nat, sumOut: nat, ghost atIn: nat, ghost atOut: nat)
      returns (totalIn: nat, totalOut: nat, ghost exactIn: nat, ghost exactOut: nat)
      requires Shape() && Balanced(live) && Walked(path, in0, out0, atIn, atOut) && h in live
      requires sumIn == U64(atIn) && sumOut == U64(atOut)
      modifies ins`cells, ins`value, ins`counted, ins`late, outs`cells, outs`value, outs`counted, outs`late
      ensures Shape() && Balanced(live) && Walked(path + [h], in0, out0, exactIn, exactOut)
      ensures totalIn == U64(exactIn) && totalOut == U64(exactOut)
    {
      hide SumOf, Bank.Owns, Bank.Books, Between, U64;
      Mingle(live, path, path, in0, out0, atIn, atOut);
      ins.Lives(h, live);
      var i := ins.Load(h, live);
      exactIn := atIn + ins.value[h];
      U64Up(atIn, ins.value[h]);
      totalIn := U64(sumIn + i);
      BetweenStep(path, h, in0, ins.value, atIn - rolledIn);
      Mingle(live, path + [h], path, in0, out0, exactIn, atOut);
      outs.Lives(h, live);
      var o := outs.Load(h, live);
      exactOut := atOut + outs.value[h];
      U64Up(atOut, outs.value[h]);
      totalOut := U64(sumOut + o);
      BetweenStep(path, h, out0, outs.value, atOut - rolledOut);
    }

    method WalkTunnel(list: seq<nat>, ghost path: seq<nat>, ghost live: seq<nat>,
                      ghost in0: seq<nat>, ghost out0: seq<nat>,
                      sumIn: nat, sumOut: nat, ghost atIn: nat, ghost atOut: nat)
      returns (totalIn: nat, totalOut: nat, ghost exactIn: nat, ghost exactOut: nat)
      requires Shape() && Balanced(live) && Walked(path, in0, out0, atIn, atOut)
      requires sumIn == U64(atIn) && sumOut == U64(atOut)
      requires forall h <- list :: h in live
      modifies ins`cells, ins`value, ins`counted, ins`late, outs`cells, outs`value, outs`counted, outs`late
      ensures Shape() && Balanced(live) && Walked(path + list, in0, out0, exactIn, exactOut)
      ensures totalIn == U64(exactIn) && totalOut == U64(exactOut)
    {
      hide SumOf, Visit, Bank.Owns, Bank.Books, U64, Registry.WalkedIn, Registry.WalkedOut;
      totalIn, totalOut, exactIn, exactOut := sumIn, sumOut, atIn, atOut;
      assert path + list[..0] == path;
      for j := 0 to |list|
        invariant Shape() && Balanced(live) && Walked(path + list[..j], in0, out0, exactIn, exactOut)
        invariant totalIn == U64(exactIn) && totalOut == U64(exactOut)
      {
        ghost var here := path + list[..j];
        totalIn, totalOut, exactIn, exactOut :=
          WalkProxy(list[j], here, live, in0, out0, totalIn, totalOut, exactIn, exactOut);
        assert here + [list[j]] == path + list[..j + 1];
      }
      assert list[..|list|] == list;
    }

    lemma Rearranged(live: seq<nat>, other: seq<nat>)
      requires Balanced(live) && multiset(other) == multiset(live)
      requires SumOf(live, ins.value) == SumOf(other, ins.value)
      requires SumOf(live, outs.value) == SumOf(other, outs.value)
      ensures Balanced(other)
    {
      hide SumOf;
    }

    /** Take a tunnel out and add its bytes to the retired ones. The totals never go down. */
    method UnregisterTunnel(id: nat)
      requires Valid()
      modifies `tunnels, `retiredIn, `retiredOut, `rolledIn, `rolledOut
      modifies ins`cells, ins`value, ins`counted, ins`late, ins`gone
      modifies outs`cells, outs`value, outs`counted, outs`late, outs`gone
      ensures Valid()
      ensures tunnels == old(tunnels) - {id}
      ensures TotalIn() >= old(TotalIn()) && TotalOut() >= old(TotalOut())
    {
      hide SumOf, Visit, Bank.Owns, Bank.Books, U64;
      if id in tunnels {
        var list := tunnels[id];
        ghost var rest := Removed(tunnels, id, nextId, ins.value, outs.value);
        Rearranged(Live(), rest + list);
        tunnels := tunnels - {id};
        RollTunnel(list, rest);
      }
    }

    /** In the middle of rolling in: `live` are the counters not yet retired, and nothing has gone under `floor`. */
    ghost predicate RollingIn(live: seq<nat>, exactIn: nat, floor: nat)
      reads `rolledIn, ins
    {
      && ins.Owns(live) && ins.Books(live, rolledIn + exactIn)
      && floor <= rolledIn + exactIn + SumOf(live, ins.value)
    }

    ghost predicate RollingOut(live: seq<nat>, exactOut: nat, floor: nat)
      reads `rolledOut, outs
    {
      && outs.Owns(live) && outs.Books(live, rolledOut + exactOut)
      && floor <= rolledOut + exactOut + SumOf(live, outs.value)
    }

    method RollProxy(h: nat, ghost tail: seq<nat>, ghost rest: seq<nat>, ghost floorIn: nat, ghost floorOut: nat,
                     sumIn: nat, sumOut: nat, ghost atIn: nat, ghost atOut: nat)
      returns (ri: nat, ro: nat, ghost exactIn: nat, ghost exactOut: nat)
      requires Shape()
      requires RollingIn(rest + ([h] + tail), atIn, floorIn) && RollingOut(rest + ([h] + tail), atOut, floorOut)
      requires sumIn == U64(atIn) && sumOut == U64(atOut)
      modifies ins`cells, ins`value, ins`counted, ins`late, ins`gone
      modifies outs`cells, outs`value, outs`counted, outs`late, outs`gone
      ensures Shape() && RollingIn(rest + tail, exactIn, floorIn) && RollingOut(rest + tail, exactOut, floorOut)
      ensures ri == U64(exactIn) && ro == U64(exactOut)
    {
      hide SumOf, Bank.Owns, Bank.Books, U64;
      ghost var both := rest + ([h] + tail);
      assert h in both;
      Traffic(both, both);
      ins.Lives(h, both);
      var i := ins.Load(h, both);
      exactIn := atIn + ins.value[h];
      U64Up(atIn, ins.value[h]);
      ri := U64(sumIn + i);
      ins.Retire(h, rest, tail, rolledIn + atIn);
      Traffic(rest + tail, both);
      outs.Lives(h, both);
      var o := outs.Load(h, both);
      exactOut := atOut + outs.value[h];
      U64Up(atOut, outs.value[h]);
      ro := U64(sumOut + o);
      outs.Retire(h, rest, tail, rolledOut + atOut);
    }

    /** The tunnel's counters one by one; `rest` are the counters of all other tunnels. */
    method RollTunnel(list: seq<nat>, ghost rest: seq<nat>)
      requires Shape() && Balanced(rest + list)
      modifies `retiredIn, `retiredOut, `rolledIn, `rolledOut
      modifies ins`cells, ins`value, ins`counted, ins`late, ins`gone
      modifies outs`cells, outs`value, outs`counted, outs`late, outs`gone
      ensures Shape() && Balanced(rest)
      ensures rolledIn + SumOf(rest, ins.value) >= old(rolledIn + SumOf(rest + list, ins.value))
      ensures rolledOut + SumOf(rest, outs.value) >= old(rolledOut + SumOf(rest + list, outs.value))
    {
      hide SumOf, Bank.Owns, Bank.Books, U64;
      var ri, ro := 0, 0;
      ghost var exactIn, exactOut := 0, 0;
      ZeroIsShown();
      ghost var floorIn := rolledIn + SumOf(rest + list, ins.value);
      ghost var floorOut := rolledOut + SumOf(rest + list, outs.value);
      assert list[0..] == list;
      for j := 0 to |list|
        modifies ins`cells, ins`value, ins`counted, ins`late, ins`gone
        modifies outs`cells, outs`value, outs`counted, outs`late, outs`gone
        invariant Shape() && ri == U64(exactIn) && ro == U64(exactOut)
        invariant RollingIn(rest + list[j..], exactIn, floorIn)
        invariant RollingOut(rest + list[j..], exactOut, floorOut)
      {
        assert list[j..] == [list[j]] + list[j + 1..];
        ri, ro, exactIn, exactOut :=
          RollProxy(list[j], list[j + 1..], rest, floorIn, floorOut, ri, ro, exactIn, exactOut);
      }
      assert rest + list[|list|..] == rest;
      Traffic(rest, rest);
      U64Up(rolledIn, exactIn);
      U64Up(rolledOut, exactOut);
      retiredIn, retiredOut := U64(retiredIn + ri), U64(retiredOut + ro);
      rolledIn, rolledOut := rolledIn + exactIn, rolledOut + exactOut;
    }

    /** A sample at the end of the history; the oldest ones over the cap go. */
    method TakeSample(now: nat) returns (s: Sample)
      requires Valid()
      modifies ins`cells, ins`value, ins`counted, ins`late, outs`cells, outs`value, outs`counted, outs`late
      modifies `history, `walks
      ensures Valid() && s.t == now
      ensures history == Newest(old(history) + [s], 2048)
      ensures |walks| == |old(walks)| + 1 && walks[..|old(walks)|] == old(walks)
      ensures var w := walks[|old(walks)|];
              w.Fair() && w.sample == s && w.locked == old(Reached()) && w.released == Reached()
      ensures (ins.idle ==> ins.value == old(ins.value)) && (outs.idle ==> outs.value == old(outs.value))
    {
      hide SumOf, Visit, U64, Registry.Shape, Registry.Balanced;
      ghost var locked := Reached();
      var totalIn, totalOut;
      ghost var exact;
      totalIn, totalOut, exact := Totals();
      s := Sample(now, totalIn, totalOut);
      walks := walks + [Walk(s, locked, exact, Reached())];
      history := history + [s];
      ghost var pushed := history;
      while |history| > HISTORY_CAP
        modifies `history
        invariant |Newest(pushed, HISTORY_CAP)| <= |history| <= |pushed|
        invariant history == pushed[|pushed| - |history|..]
      {
        history := history[1..];
      }
    }
  }

  // ---- whole runs ----

  datatype Move =
    | Connect
    | AddProxy(id: nat)
    | Disconnect(id: nat)
    | Relay
    | Poll(now: nat)

  function Sizes(tunnels: map<nat, seq<nat>>): map<nat, nat> {
    map id | id in tunnels :: |tunnels[id]|
  }

  lemma SizesPut(tunnels: map<nat, seq<nat>>, id: nat, list: seq<nat>)
    ensures Sizes(tunnels[id := list]) == Sizes(tunnels)[id := |list|]
  {
  }

  lemma SizesWithout(tunnels: map<nat, seq<nat>>, id: nat)
    ensures Sizes(tunnels - {id}) == Sizes(tunnels) - {id}
  {
  }

  lemma SizesAt(tunnels: map<nat, seq<nat>>, id: nat)
    ensures id in Sizes(tunnels) <==> id in tunnels
    ensures id in tunnels ==> Sizes(tunnels)[id] == |tunnels[id]|
    ensures Sizes(map[]) == map[]
  {
  }

  /** The next tunnel id, and the number of proxies of every live tunnel. */
  datatype Listing = Listing(next: nat, sizes: map<nat, nat>) {
    function After(m: Move): Listing {
      match m
      case Connect => Listing(next + 1, sizes[next := 0])
      case AddProxy(id) => if id in sizes then Listing(next, sizes[id := sizes[id] + 1]) else this
      case Disconnect(id) => Listing(next, sizes - {id})
      case _ => this
    }
  }

  /** What is registered after a history. */
  function Listed(moves: seq<Move>): Listing {
    if moves == [] then Listing(1, map[]) else Listed(moves[..|moves| - 1]).After(moves[|moves| - 1])
  }

  /** The samples a history asks for. */
  function Polls(moves: seq<Move>): seq<nat> {
    if moves == [] then [] else Polls(moves[..|moves| - 1]) + Asked(moves[|moves| - 1])
  }

  function Asked(m: Move): seq<nat> {
    if m.Poll? then [m.now] else []
  }

  function Samples(walks: seq<Walk>): seq<Sample> {
    seq(|walks|, i requires 0 <= i < |walks| => walks[i].sample)
  }

  function Times(samples: seq<Sample>): seq<nat> {
    seq(|samples|, i requires 0 <= i < |samples| => samples[i].t)
  }

  lemma ShowsMore(walks: seq<Walk>, w: Walk, before: Exact)
    requires Shows(walks, before) && w.Fair() && before.AtMost(w.locked)
    ensures Shows(walks + [w], w.released)
  {
    hide U64;
  }

  lemma ShowsStill(walks: seq<Walk>, before: Exact, now: Exact)
    requires Shows(walks, before) && before.AtMost(now)
    ensures Shows(walks, now)
  {
    hide U64;
  }

  /** Two samples with less than 2^64 bytes between them are in order exactly if no wrap lies between them. */
  lemma SamplesInOrderExactly(walks: seq<Walk>, most: Exact, i: nat, j: nat)
    requires Shows(walks, most) && i < j < |walks|
    ensures var a, b := walks[i].exact.totalIn, walks[j].exact.totalIn;
            b < a + WRAP ==> (walks[i].sample.totalIn <= walks[j].sample.totalIn <==> a / WRAP == b / WRAP)
    ensures var a, b := walks[i].exact.totalOut, walks[j].exact.totalOut;
            b < a + WRAP ==> (walks[i].sample.totalOut <= walks[j].sample.totalOut <==> a / WRAP == b / WRAP)
  {
    hide U64;
    var a, b := walks[i].exact, walks[j].exact;
    if b.totalIn < a.totalIn + WRAP {
      WrappedOrder(a.totalIn, b.totalIn);
    }
    if b.totalOut < a.totalOut + WRAP {
      WrappedOrder(a.totalOut, b.totalOut);
    }
  }

  lemma WrappedOrder(first: nat, second: nat)
    requires first <= second < first + WRAP
    ensures U64(first) <= U64(second) <==> first / WRAP == second / WRAP
  {
  }

  lemma U64AtWrap()
    ensures U64(WRAP) == 0
  {
  }

  /** In an idle registry a sample shows what has been received, to the byte. */
  method ReceiveAndSample(r: Registry, h: nat, n: nat, now: nat) returns (s: Sample)
    requires r.Valid() && r.ins.idle && h < |r.ins.value| && h in r.ins.registered && h !in r.ins.gone
    modifies r.ins`cells, r.ins`value, r.ins`counted, r.ins`late
    modifies r.outs`cells, r.outs`value, r.outs`counted, r.outs`late, r`history, r`walks
    ensures r.Valid() && r.TotalIn() == old(r.TotalIn()) + n && |r.ins.value| == |old(r.ins.value)|
    ensures |r.walks| == |old(r.walks)| + 1 && r.walks[..|old(r.walks)|] == old(r.walks)
    ensures var w := r.walks[|old(r.walks)|];
            w.sample == s && w.exact.totalIn == r.TotalIn() && s.totalIn == U64(r.TotalIn())
  {
    hide SumOf, Visit, Newest, Registry.Valid, Registry.TotalOut, Registry.Live, U64, Grown;
    r.Receive(h, n);
    s := r.TakeSample(now);
  }

  /** It happens: the byte that brings the total of a registry to 2^64 makes its next sample go down. */
  method SamplesGoDown() returns (r: Registry, first: Sample, second: Sample)
    ensures r.Valid() && |r.walks| == 2 && r.walks[0].sample == first && r.walks[1].sample == second
    ensures r.walks[0].exact.totalIn == WRAP - 1 && r.walks[1].exact.totalIn == WRAP
    ensures first.totalIn == 0xFFFF_FFFF_FFFF_FFFF && second.totalIn == 0
  {
    hide SumOf, Visit, Registry.Valid, Registry.TotalIn, Registry.TotalOut, U64;
    U64Small(WRAP - 1);
    U64AtWrap();
    r := new Registry([], true);
    var id := r.RegisterTunnel();
    var h := r.RegisterProxy(id);
    first := ReceiveAndSample(r, h, WRAP - 1, 0);
    ghost var w := r.walks[0];
    second := ReceiveAndSample(r, h, 1, 10);
    assert r.walks[0] == r.walks[..1][0] == w;
  }

  /**
    Whatever connects, disconnects and relays in between: one sample is taken per
    poll, each shows, wrapped to 64 bits, a total between those of the registry at
    lock and at release, and the totals never go down and never exceed the bytes
    moved through the registry's counters. As long as those are below 2^64 the
    samples themselves are in order.
   */
  method Run(loaded: seq<Sample>, moves: seq<Move>) returns (r: Registry, samples: seq<Sample>)
    ensures r.Valid() && r.Entries() == Listed(moves)
    ensures samples == Samples(r.walks) && Times(samples) == Polls(moves)
    ensures Shows(r.walks, r.Reached()) && r.Reached().AtMost(r.Moved())
    ensures r.Moved().totalIn < WRAP && r.Moved().totalOut < WRAP ==>
              forall i, j :: 0 <= i < j < |samples| ==>
                samples[i].totalIn <= samples[j].totalIn && samples[i].totalOut <= samples[j].totalOut
    ensures samples != [] ==> r.history == Newest(loaded + samples, 2048)
  {
    hide SumOf, Visit, Bank.Owns, Registry.Valid, Newest, Shows, Times, Polls, Samples, Listed, Sizes;
    hide Registry.TotalIn, Registry.TotalOut;
    r := new Registry(loaded, false);
    samples := [];
    NothingShown(r.Reached());
    assert moves[..0] == [];
    SizesAt(map[], 0);
    for k := 0 to |moves|
      invariant fresh(r) && fresh(r.ins) && fresh(r.outs) && r.Valid()
      invariant Shows(r.walks, r.Reached())
      invariant samples == Samples(r.walks) && Times(samples) == Polls(moves[..k])
      invariant r.Entries() == Listed(moves[..k])
      invariant r.history == if samples == [] then loaded else Newest(loaded + samples, HISTORY_CAP)
    {
      ghost var walks := r.walks;
      var s := Act(r, moves[k]);
      PollsNext(moves, k);
      if s.Some? {
        assert samples == [] ==> loaded + samples == loaded;
        NewestAgain(loaded + samples, s.value, HISTORY_CAP);
        assert loaded + samples + [s.value] == loaded + (samples + [s.value]);
        TimesNext(samples, s.value);
        SamplesNext(walks, r.walks[|walks|]);
        assert r.walks == walks + [r.walks[|walks|]];
        samples := samples + [s.value];
      }
    }
    assert moves[..|moves|] == moves;
    r.ReachedIsMoved();
    InOrder(r.walks, r.Reached());
    SamplesAt(r.walks);
  }

  lemma PollsNext(moves: seq<Move>, k: nat)
    requires k < |moves|
    ensures Polls(moves[..k + 1]) == Polls(moves[..k]) + Asked(moves[k])
    ensures Listed(moves[..k + 1]) == Listed(moves[..k]).After(moves[k])
  {
    assert moves[..k + 1][..k] == moves[..k];
  }

  lemma TimesNext(samples: seq<Sample>, s: Sample)
    ensures Times(samples + [s]) == Times(samples) + [s.t]
  {
  }

  lemma SamplesNext(walks: seq<Walk>, w: Walk)
    ensures Samples(walks + [w]) == Samples(walks) + [w.sample]
  {
  }

  lemma SamplesAt(walks: seq<Walk>)
    ensures |Samples(walks)| == |walks| && forall i :: 0 <= i < |walks| ==> Samples(walks)[i] == walks[i].sample
  {
  }

  lemma NothingShown(most: Exact)
    ensures Shows([], most) && Samples([]) == [] && Times([]) == Polls([])
    ensures Listed([]) == Listing(1, map[])
  {
  }

  lemma InOrder(walks: seq<Walk>, most: Exact)
    requires Shows(walks, most)
    ensures most.totalIn < WRAP && most.totalOut < WRAP ==>
              forall i, j :: 0 <= i < j < |walks| ==>
                && walks[i].sample.totalIn <= walks[j].sample.totalIn
                && walks[i].sample.totalOut <= walks[j].sample.totalOut
  {
  }

  /** One move; a poll gives a sample. */
  method Act(r: Registry, m: Move) returns (s: Option<Sample>)
    requires r.Valid() && Shows(r.walks, r.Reached())
    modifies r, r.ins, r.outs
    ensures r.Valid() && Shows(r.walks, r.Reached())
    ensures r.Entries() == old(r.Entries()).After(m)
    ensures Asked(m) == if s.Some? then [s.value.t] else []
    ensures s.None? ==> r.history == old(r.history) && r.walks == old(r.walks)
    ensures s.Some? ==>
              && r.history == Newest(old(r.history) + [s.value], HISTORY_CAP)
              && |r.walks| == |old(r.walks)| + 1 && r.walks[..|old(r.walks)|] == old(r.walks)
              && r.walks[|old(r.walks)|].sample == s.value
  {
    hide SumOf, Visit, Bank.Owns, Registry.Valid, Registry.TotalIn, Registry.TotalOut;
    hide Newest, Shows, U64, Sizes, Walk.Fair;
    ghost var before, walks, tunnels := r.Reached(), r.walks, r.tunnels;
    s := None;
    match m {
      case Connect =>
        SizesPut(tunnels, r.nextId, []);
        var _ := r.RegisterTunnel();
      case AddProxy(id) =>
        SizesAt(tunnels, id);
        if id in tunnels {
          SizesPut(tunnels, id, tunnels[id] + [|r.ins.value|]);
        }
        var _ := r.RegisterProxy(id);
      case Disconnect(id) =>
        SizesWithout(tunnels, id);
        r.UnregisterTunnel(id);
      case Relay => r.Relay();
      case Poll(now) =>
        var sample := r.TakeSample(now);
        s := Some(sample);
        ShowsMore(walks, r.walks[|walks|], before);
        assert r.walks == walks + [r.walks[|walks|]];
    }
    if s == None {
      ShowsStill(walks, before, r.Reached());
    }
  }
}
