/**
  Hot reload and the port gate: dashboard edits replace the shared
  configuration while tunnels keep the snapshot they logged in with.
 */
module Dashboard {
  import opened Bytes
  import opened Config
  import PortRange

  /** A tunnel from its handshake on. `bound` are the public ports opened for it. */
  datatype Tunnel = Tunnel(snapshot: ServerConfig, user: Option<User>, bound: seq<nat>)

  datatype Status = Accepted | BadRequest | NotFound

  predicate IsWhite(c: char) {
    var n := c as int;
    || 0x9 <= n <= 0xD || n == 0x20 || n == 0x85 || n == 0xA0 || n == 0x1680
    || 0x2000 <= n <= 0x200A || n == 0x2028 || n == 0x2029 || n == 0x202F || n == 0x205F || n == 0x3000
  }

  /** `s.trim().is_empty()` */
  predicate IsBlank(s: string) {
    forall c <- s :: IsWhite(c)
  }

  /** The 25 characters that Unicode calls white space; nothing else makes a name blank. */
  lemma WhiteExactly(c: char)
    ensures IsWhite(c) <==>
              c as int in {0x9, 0xA, 0xB, 0xC, 0xD, 0x20, 0x85, 0xA0, 0x1680, 0x2000, 0x2001, 0x2002, 0x2003, 0x2004,
                           0x2005, 0x2006, 0x2007, 0x2008, 0x2009, 0x200A, 0x2028, 0x2029, 0x202F, 0x205F, 0x3000}
    ensures forall s: string :: IsBlank(s) <==> !exists d <- s :: !IsWhite(d)
  {
  }

  /** Every port opened for the tunnel lies in the ranges its user had at login. */
  ghost predicate Gated(t: Tunnel) {
    && ValidConfig(t.snapshot)
    && (t.user.Some? ==> t.user.value in t.snapshot.users && PortsParse(t.user.value))
    && (t.user.None? ==> t.bound == [])
    && forall port <- t.bound :: Covers(t.user.value.ports, port)
  }

  method Acceptable(u: User) returns (fine: bool)
    ensures fine <==> !IsBlank(u.name) && !IsBlank(u.token) && PortsParse(u)
  {
    if IsBlank(u.name) || IsBlank(u.token) {
      return false;
    }
    for i := 0 to |u.ports|
      invariant forall j :: 0 <= j < i ==> PortRange.Parse(u.ports[j]).Valid?
    {
      if !PortRange.Parse(u.ports[i]).Valid? {
        return false;
      }
    }
    fine := true;
  }

  // ---- which edit an entry comes from ----

  /** An edit that was swapped in, made on a copy of configuration number `base`. */
  datatype Swap = Swap(edit: Edit, base: nat)

  /** All configurations that were ever shared, and the edits that made them. */
  datatype History = History(past: seq<ServerConfig>, log: seq<Swap>) {
    ghost predicate Valid() {
      && |past| == |log| + 1
      && forall k :: 0 <= k < |log| ==> log[k].base <= k && past[k + 1] == Perform(past[log[k].base], log[k].edit)
    }

    /** The edit that a user's entry in configuration `i` goes back to. */
    ghost function Origin(i: nat, name: string): (j: Option<nat>)
      requires Valid() && i < |past|
      ensures j.Some? ==> j.value < i && log[j.value].edit.Target() == name
    {
      if i == 0 then None
      else if log[i - 1].edit.Target() == name then Some(i - 1)
      else Origin(log[i - 1].base, name)
    }

    lemma OriginStep(k: nat, name: string)
      requires Valid() && k < |log|
      ensures Origin(k + 1, name)
           == if log[k].edit.Target() == name then Some(k) else Origin(log[k].base, name)
    {
    }

    /** An entry is what its edit wrote, or what was there at the start. */
    lemma {:induction false} OriginWrote(i: nat, name: string)
      requires Valid() && i < |past|
      ensures Entry(past[i].users, name)
           == match Origin(i, name)
              case Some(j) => log[j].edit.Written()
              case None => Entry(past[0].users, name)
    {
      if i > 0 {
        var swap := log[i - 1];
        EntryAfter(past[swap.base], swap.edit, name);
        if swap.edit.Target() != name {
          OriginWrote(swap.base, name);
        }
      }
    }

    /** Edit `j` is still in effect in configuration `i`. */
    ghost predicate Stands(j: nat, i: nat)
      requires Valid() && j < |log| && i < |past|
    {
      Origin(i, log[j].edit.Target()) == Some(j)
    }

    /**
      An edit in effect from its own swap up to swap `k` is undone by swap `k`
      exactly if that is an edit of the same user, or of another one on a copy
      taken before.
     */
    lemma UndoneExactly(j: nat, k: nat)
      requires Valid() && j < k < |log|
      requires forall i :: j < i <= k ==> Stands(j, i)
      ensures !Stands(j, k + 1) <==> log[k].edit.Target() == log[j].edit.Target() || log[k].base <= j
    {
      hide Origin, Perform;
      OriginStep(k, log[j].edit.Target());
      assert log[k].base > j ==> Stands(j, log[k].base);
    }

    /** No swap takes away another user's entry. */
    ghost predicate NothingLost()
      requires Valid()
    {
      forall k: nat, name: string :: k < |log| && name != log[k].edit.Target() ==>
        Origin(k + 1, name) == Origin(k, name)
    }

    /** Two edits of different users overlap: the later one's copy misses the earlier one. */
    ghost predicate Overlaps(j: nat, k: nat) {
      && j < k < |log|
      && log[k].base <= j && log[j].edit.Target() != log[k].edit.Target()
    }

    /** Edits of different users that do not overlap lose nothing: between copy and swap only this user changed. */
    lemma {:induction false} Unmoved(k: nat, name: string, i: nat)
      requires Valid() && k < |log| && name != log[k].edit.Target()
      requires log[k].base <= i <= k
      requires forall j: nat, k: nat :: !Overlaps(j, k)
      ensures Origin(i, name) == Origin(log[k].base, name)
      decreases k, i
    {
      hide Origin, Perform;
      if i > log[k].base {
        assert !Overlaps(i - 1, k);
        OriginStep(i - 1, name);
        Unmoved(k, name, i - 1);
        Unmoved(i - 1, name, i - 1);
      }
    }

    /** From its swap on, as long as nothing is lost, a user's entry never goes back to an earlier edit. */
    lemma {:induction false} NeverBack(j: nat, i: nat)
      requires Valid() && NothingLost() && j < i < |past|
      ensures var o := Origin(i, log[j].edit.Target()); o.Some? && o.value >= j
    {
      hide Origin, Perform;
      OriginStep(i - 1, log[j].edit.Target());
      if i > j + 1 {
        NeverBack(j, i - 1);
        assert log[j].edit.Target() != log[i - 1].edit.Target() ==>
            Origin(i - 1 + 1, log[j].edit.Target()) == Origin(i - 1, log[j].edit.Target());
      }
    }

    /** Over whole histories: no edit is lost to another user's exactly if no two edits of different users overlap. */
    lemma NothingLostExactly()
      requires Valid()
      ensures NothingLost() <==> forall j: nat, k: nat :: !Overlaps(j, k)
    {
      hide Origin, Perform;
      if forall j: nat, k: nat :: !Overlaps(j, k) {
        forall k: nat, name: string | k < |log| && name != log[k].edit.Target()
          ensures Origin(k + 1, name) == Origin(k, name)
        {
          OriginStep(k, name);
          Unmoved(k, name, k);
        }
      }
      if NothingLost() {
        forall j: nat, k: nat
          ensures !Overlaps(j, k)
        {
          if Overlaps(j, k) {
            OriginStep(k, log[j].edit.Target());
            NeverBack(j, k);
          }
        }
      }
    }
  }

  class Service {
    var shared: ServerConfig
    var edits: seq<ServerConfig>  // edited copies not yet written back
    var tunnels: seq<Tunnel>
    ghost var history: History
    ghost var origins: seq<Swap>  // how each of the copies was made

    ghost predicate Valid()
      reads this
    {
      && ValidConfig(shared)
      && (forall e <- edits :: ValidConfig(e))
      && (forall t <- tunnels :: Gated(t))
      && Traced()
    }

    /** Every configuration about is explained by the history. */
    ghost predicate Traced()
      reads `shared, `edits, `tunnels, `history, `origins
    {
      && history.Valid() && shared == history.past[|history.log|]
      && |origins| == |edits|
      && (forall k :: 0 <= k < |edits| ==>
            && origins[k].base < |history.past|
            && edits[k] == Perform(history.past[origins[k].base], origins[k].edit))
      && (forall t <- tunnels :: t.snapshot in history.past)
    }

    ghost function View(): World
      reads `history, `origins, `tunnels
    {
      World(history, origins, tunnels)
    }

    lemma ViewIsGood()
      requires Valid()
      ensures View().Good() && View().Shared() == shared && |origins| == |edits|
      ensures forall k :: 0 <= k < |edits| ==> edits[k] == Perform(history.past[origins[k].base], origins[k].edit)
    {
    }

    lemma Explained()
      requires Valid()
      ensures ValidConfig(shared) && history.Valid() && history.past[|history.log|] == shared
      ensures forall t <- tunnels :: Gated(t) && t.snapshot in history.past
    {
    }

    constructor (initial: ServerConfig)
      requires ValidConfig(initial)
      ensures Valid() && shared == initial && edits == [] && tunnels == []
      ensures history == History([initial], []) && origins == []
    {
      shared, edits, tunnels := initial, [], [];
      history, origins := History([initial], []), [];
    }

    /** One more edited copy of the current configuration. */
    method Edited(copy: ServerConfig, ghost swap: Swap)
      requires Valid() && ValidConfig(copy)
      requires swap.base == |history.log| && copy == Perform(shared, swap.edit)
      modifies `edits, `origins
      ensures Valid() && edits == old(edits) + [copy] && origins == old(origins) + [swap]
    {
      hide ValidConfig, Perform, Gated;
      edits, origins := edits + [copy], origins + [swap];
    }

    /** Check the payload, then edit a copy of the configuration of this moment. */
    method RequestUpsert(u: User) returns (status: Status)
      requires Valid()
      modifies `edits, `origins
      ensures Valid()
      ensures status == Accepted <==> !IsBlank(u.name) && !IsBlank(u.token) && PortsParse(u)
      ensures edits == old(edits) + if status == Accepted then [Upsert(shared, u)] else []
      ensures origins == old(origins) + if status == Accepted then [Swap(Put(u), |history.log|)] else []
    {
      hide IsBlank, PortsParse, ValidConfig, Upsert, Gated, Service.Traced;
      var fine := Acceptable(u);
      if !fine {
        return BadRequest;
      }
      UpsertKeepsValid(shared, u);
      Edited(Upsert(shared, u), Swap(Put(u), |history.log|));
      status := Accepted;
    }

    method RequestDelete(name: string) returns (status: Status)
      requires Valid()
      modifies `edits, `origins
      ensures Valid()
      ensures status == Accepted <==> exists u <- shared.users :: u.name == name
      ensures edits == old(edits) + if status == Accepted then [Delete(shared, name)] else []
      ensures origins == old(origins) + if status == Accepted then [Swap(Remove(name), |history.log|)] else []
    {
      DeleteKeepsValid(shared, name);
      WithoutCounts(shared.users, name);
      if |Without(shared.users, name)| == |shared.users| {
        return NotFound;
      }
      Edited(Delete(shared, name), Swap(Remove(name), |history.log|));
      status := Accepted;
    }

    /** Write an edited copy to disk; only if that works does it become the shared configuration. */
    method Apply(k: nat, written: bool)
      requires Valid() && k < |edits|
      modifies `shared, `edits, `history, `origins
      ensures Valid()
      ensures shared == if written then old(edits)[k] else old(shared)
      ensures edits == old(edits)[..k] + old(edits)[k + 1..]
      ensures origins == old(origins)[..k] + old(origins)[k + 1..]
      ensures history == if written then History(old(history.past) + [shared], old(history.log) + [old(origins)[k]])
                         else old(history)
    {
      hide ValidConfig, Perform, Gated;
      if written {
        shared := edits[k];
        history := History(history.past + [shared], history.log + [origins[k]]);
      }
      edits, origins := edits[..k] + edits[k + 1..], origins[..k] + origins[k + 1..];
    }

    /** A control stream opens: the tunnel takes its snapshot before it reads the login. */
    method Accept()
      requires Valid()
      modifies `tunnels
      ensures Valid() && tunnels == old(tunnels) + [Tunnel(shared, None, [])]
    {
      tunnels := tunnels + [Tunnel(shared, None, [])];
    }

    method Login(t: nat, name: string, token: string) returns (ok: bool)
      requires Valid() && t < |tunnels| && tunnels[t].user == None
      modifies `tunnels
      ensures Valid()
      ensures ok <==> exists u <- old(tunnels)[t].snapshot.users :: u.name == name && u.token == token
      ensures var was := old(tunnels)[t];
              tunnels == old(tunnels)[t := was.(user := FindUser(was.snapshot.users, name, token))]
    {
      var tunnel := tunnels[t];
      assert tunnel in tunnels;
      var found := FindUser(tunnel.snapshot.users, name, token);
      assert Gated(tunnel.(user := found));
      tunnels := tunnels[t := tunnel.(user := found)];
      ok := found.Some?;
    }

    /** Binding is tried only for a permitted port. */
    method Register(t: nat, port: nat, bindable: bool) returns (ok: bool)
      requires Valid() && t < |tunnels| && tunnels[t].user.Some?
      modifies `tunnels
      ensures Valid()
      ensures ok <==> bindable && Covers(old(tunnels)[t].user.value.ports, port)
      ensures tunnels == if ok then old(tunnels)[t := old(tunnels)[t].(bound := old(tunnels)[t].bound + [port])]
                         else old(tunnels)
    {
      var tunnel := tunnels[t];
      assert tunnel in tunnels;
      ok := PortAllowed(tunnel.user.value, port) && bindable;
      if ok {
        assert Gated(tunnel.(bound := tunnel.bound + [port]));
        tunnels := tunnels[t := tunnel.(bound := tunnel.bound + [port])];
      }
    }
  }

  lemma {:induction false} WithoutCounts(users: seq<User>, name: string)
    ensures |Without(users, name)| == |users| <==> forall u <- users :: u.name != name
  {
    if users != [] {
      WithoutCounts(users[1..], name);
      assert users[0] in users;
      assert forall u :: u in users <==> u == users[0] || u in users[1..];
    }
  }

  // ---- whole runs ----

  datatype Move =
    | Upserting(u: User)
    | Deleting(name: string)
    | Applying(k: nat, written: bool)
    | Accepting
    | LoggingIn(t: nat, name: string, token: string)
    | Registering(t: nat, port: nat, bindable: bool)

  /** The request an edit comes from. */
  function Request(e: Edit): Move {
    match e
    case Put(u) => Upserting(u)
    case Remove(name) => Deleting(name)
  }

  /** What edits and connections amount to: the history, the edits not yet swapped in, and the tunnels. */
  datatype World = World(history: History, pending: seq<Swap>, tunnels: seq<Tunnel>) {
    ghost predicate Good() {
      history.Valid() && forall swap <- pending :: swap.base < |history.past|
    }

    ghost function Shared(): ServerConfig
      requires Good()
    {
      history.past[|history.log|]
    }

    /** The edit a request asks for, if it is accepted. */
    ghost function Asked(m: Move): seq<Swap>
      requires Good()
    {
      match m
      case Upserting(u) =>
        if !IsBlank(u.name) && !IsBlank(u.token) && PortsParse(u) then [Swap(Put(u), |history.log|)] else []
      case Deleting(name) =>
        if exists u <- Shared().users :: u.name == name then [Swap(Remove(name), |history.log|)] else []
      case _ => []
    }

    /** The history with one more edit written and swapped in. */
    ghost function Swapped(swap: Swap): (h: History)
      requires Good() && swap.base < |history.past|
      ensures h.Valid()
    {
      History(history.past + [Perform(history.past[swap.base], swap.edit)], history.log + [swap])
    }

    ghost function Connected(m: Move): seq<Tunnel>
      requires Good()
    {
      match m
      case Accepting => tunnels + [Tunnel(Shared(), None, [])]
      case LoggingIn(t, name, token) =>
        if t < |tunnels| && tunnels[t].user == None
        then tunnels[t := tunnels[t].(user := FindUser(tunnels[t].snapshot.users, name, token))]
        else tunnels
      case Registering(t, port, bindable) =>
        if t < |tunnels| && tunnels[t].user.Some? && bindable && Covers(tunnels[t].user.value.ports, port)
        then tunnels[t := tunnels[t].(bound := tunnels[t].bound + [port])]
        else tunnels
      case _ => tunnels
    }

    ghost function Next(m: Move): (w: World)
      requires Good()
      ensures w.Good()
    {
      match m
      case Applying(k, written) =>
        if k >= |pending| then this else
          World(if written then Swapped(pending[k]) else history, pending[..k] + pending[k + 1..], tunnels)
      case _ => World(history, pending + Asked(m), Connected(m))
    }
  }

  /** What a history of moves makes of a configuration. */
  ghost function After(loaded: ServerConfig, moves: seq<Move>): (w: World)
    ensures w.Good()
  {
    if moves == [] then World(History([loaded], []), [], [])
    else After(loaded, moves[..|moves| - 1]).Next(moves[|moves| - 1])
  }

  lemma AfterNext(loaded: ServerConfig, moves: seq<Move>, k: nat)
    requires k < |moves|
    ensures After(loaded, moves[..k + 1]) == After(loaded, moves[..k]).Next(moves[k])
  {
    assert moves[..k + 1][..k] == moves[..k];
  }

  lemma AfterNothing(loaded: ServerConfig)
    ensures After(loaded, []) == World(History([loaded], []), [], [])
  {
  }

  /**
    Overlapping edits do lose each other: both requests are accepted and written,
    but afterwards the first user cannot log in.
   */
  method LostUpsert(loaded: ServerConfig, u: User, v: User) returns (replies: seq<Status>, first: bool, second: bool)
    requires ValidConfig(loaded) && (forall w <- loaded.users :: w.name != u.name) && u.name != v.name
    requires forall w <- [u, v] :: !IsBlank(w.name) && !IsBlank(w.token) && PortsParse(w)
    ensures replies == [Accepted, Accepted] && !first && second
  {
    hide IsBlank, PortsParse, ValidConfig, Without, FindUser, Service.Valid;
    var s := new Service(loaded);
    var a := s.RequestUpsert(u);
    var b := s.RequestUpsert(v);
    s.Apply(0, true);
    s.Apply(0, true);
    assert v in s.shared.users;
    s.Accept();
    s.Accept();
    first := s.Login(0, u.name, u.token);
    second := s.Login(1, v.name, v.token);
    replies := [a, b];
  }

  /** Likewise a deleted user is back after an overlapping edit of somebody else. */
  method LostDelete(loaded: ServerConfig, u: User, v: User) returns (replies: seq<Status>, back: bool)
    requires ValidConfig(loaded) && u in loaded.users && u.name != v.name
    requires !IsBlank(v.name) && !IsBlank(v.token) && PortsParse(v)
    ensures replies == [Accepted, Accepted] && back
  {
    hide IsBlank, PortsParse, ValidConfig, Without, FindUser, Service.Valid;
    var s := new Service(loaded);
    var a := s.RequestDelete(u.name);
    var b := s.RequestUpsert(v);
    s.Apply(0, true);
    s.Apply(0, true);
    assert u in s.shared.users;
    s.Accept();
    back := s.Login(0, u.name, u.token);
    replies := [a, b];
  }

  /**
    From a configuration that passes validation, whatever edits overlap and
    whoever connects: configurations and tunnels become what the moves make of
    them, step by step; the shared configuration passes validation, every edit in
    its history was requested, every tunnel has the snapshot of a configuration
    that was shared at some time, and no port outside its user's ranges in it.
   */
  method Run(loaded: ServerConfig, moves: seq<Move>)
    returns (started: bool, shared: ServerConfig, tunnels: seq<Tunnel>, ghost history: History)
    ensures started <==> ValidConfig(loaded)
    ensures started ==> history == After(loaded, moves).history && tunnels == After(loaded, moves).tunnels
    ensures started ==> ValidConfig(shared)
    ensures started ==> history.Valid() && history.past[0] == loaded && history.past[|history.log|] == shared
    ensures started ==> forall swap <- history.log :: Request(swap.edit) in moves
    ensures started ==> forall t <- tunnels :: Gated(t) && t.snapshot in history.past
  {
    hide ValidConfig, Gated, Service.Valid, After, World.Next;
    var verdict := Validate(loaded);
    started, shared, tunnels, history := verdict == Fine, loaded, [], History([loaded], []);
    if !started {
      return;
    }
    var s := new Service(loaded);
    AfterNothing(loaded);
    assert moves[..0] == [];
    for i := 0 to |moves|
      invariant fresh(s) && s.Valid() && [loaded] <= s.history.past
      invariant forall swap <- s.origins :: Request(swap.edit) in moves
      invariant forall swap <- s.history.log :: Request(swap.edit) in moves
      invariant s.View() == After(loaded, moves[..i])
    {
      Act(s, moves[i]);
      AfterNext(loaded, moves, i);
    }
    assert moves[..|moves|] == moves;
    s.Explained();
    shared, tunnels, history := s.shared, s.tunnels, s.history;
  }

  method Act(s: Service, m: Move)
    requires s.Valid()
    modifies s
    ensures s.Valid() && old(s.history.past) <= s.history.past
    ensures forall swap <- s.origins :: swap in old(s.origins) || Request(swap.edit) == m
    ensures forall swap <- s.history.log :: swap in old(s.history.log) || swap in old(s.origins)
    ensures old(s.View()).Good() && s.View() == old(s.View()).Next(m)
  {
    hide Service.Valid, Service.Traced, History.Valid, ValidConfig, Gated;
    hide PortsParse, IsBlank, Perform, Covers, FindUser;
    s.ViewIsGood();
    ghost var w := s.View();
    match m {
      case Upserting(u) => var _ := s.RequestUpsert(u);
      case Deleting(name) => var _ := s.RequestDelete(name);
      case Applying(k, written) => Finish(s, k, written);
      case Accepting => s.Accept();
      case LoggingIn(t, name, token) =>
        if t < |s.tunnels| && s.tunnels[t].user == None { var _ := s.Login(t, name, token); }
      case Registering(t, port, bindable) =>
        if t < |s.tunnels| && s.tunnels[t].user.Some? { var _ := s.Register(t, port, bindable); }
    }
    assert s.origins == w.pending + w.Asked(m) || m.Applying?;
  }

  method Finish(s: Service, k: nat, written: bool)
    requires s.Valid()
    modifies s
    ensures s.Valid() && old(s.history.past) <= s.history.past
    ensures forall swap <- s.origins :: swap in old(s.origins)
    ensures forall swap <- s.history.log :: swap in old(s.history.log) || swap in old(s.origins)
    ensures old(s.View()).Good() && s.View() == old(s.View()).Next(Applying(k, written))
  {
    hide Service.Valid, Service.Traced, History.Valid, ValidConfig, Gated, Perform;
    s.ViewIsGood();
    if k < |s.edits| {
      assert s.origins[k] in s.origins;
      s.Apply(k, written);
    }
  }
}
