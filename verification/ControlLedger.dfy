/** Exact books of the control protocol over whole runs: replies, bound ports, keep-alives and refusals. */
module ControlLedger {
  import opened Bytes
  import opened Config
  import opened Control

  // ---- registrations ----

  /** The server handles a registration in this step. */
  predicate Handles(s: System, a: Action) {
    a.ServerReads? && s.server.Loop? && s.up != [] && s.up[0].RegisterProxy?
  }

  /** Whether the port could be bound, for each registration the server has handled, in order. */
  function Tries(s: System, run: seq<Action>): seq<bool> {
    if run == [] then [] else
      var n := |run| - 1;
      Tries(s, run[..n]) + if Handles(Exec(s, run[..n]), run[n]) then [run[n].binds] else []
  }

  /** The registrations among some messages. */
  function Regs(up: seq<Msg>): seq<Proxy> {
    if up == [] then [] else (if up[0].RegisterProxy? then [up[0].proxy] else []) + Regs(up[1..])
  }

  lemma RegsCons(up: seq<Msg>)
    requires up != []
    ensures Regs(up) == (if up[0].RegisterProxy? then [up[0].proxy] else []) + Regs(up[1..])
  {
  }

  lemma {:induction false} RegsSnoc(up: seq<Msg>, m: Msg)
    ensures Regs(up + [m]) == Regs(up) + if m.RegisterProxy? then [m.proxy] else []
  {
    hide Regs;
    RegsOfOne(m);
    if up == [] {
      assert [] + [m] == [m];
    } else {
      RegsCons(up);
      RegsCons(up + [m]);
      assert (up + [m])[1..] == up[1..] + [m];
      RegsSnoc(up[1..], m);
    }
  }

  lemma RegsOfOne(m: Msg)
    ensures Regs([]) == [] && Regs([m]) == if m.RegisterProxy? then [m.proxy] else []
  {
    assert [m][1..] == [];
  }

  lemma {:induction false} NoRegs(up: seq<Msg>)
    requires forall m <- up :: !m.RegisterProxy?
    ensures Regs(up) == []
  {
    if up != [] {
      assert up[0] in up && forall m <- up[1..] :: m in up;
      NoRegs(up[1..]);
    }
  }

  /** The proxies whose port is permitted and could be bound. */
  function Bound(user: Option<User>, listed: seq<Proxy>, tries: seq<bool>): seq<Proxy>
    requires |listed| == |tries|
  {
    if listed == [] then [] else
      var n := |listed| - 1;
      Bound(user, listed[..n], tries[..n])
      + if user.Some? && PortAllowed(user.value, listed[n].port) && tries[n] then [listed[n]] else []
  }

  lemma BoundSnoc(user: Option<User>, listed: seq<Proxy>, tries: seq<bool>, p: Proxy, binds: bool)
    requires |listed| == |tries|
    ensures Bound(user, listed + [p], tries + [binds])
         == Bound(user, listed, tries)
            + if user.Some? && PortAllowed(user.value, p.port) && binds then [p] else []
  {
    assert (listed + [p])[..|listed|] == listed && (tries + [binds])[..|tries|] == tries;
  }

  /** How many registrations the server has handled and has still to read, as far as the client has got. */
  ghost predicate Counted(s: System) {
    match s.client
    case Start => s.listed == [] && Regs(s.up) == []
    case AwaitLogin => s.listed == [] && Regs(s.up) == []
    case Next(i) => |s.listed| == i && Regs(s.up) == []
    case AwaitReply(i) => |s.listed| + |Regs(s.up)| == i + 1 && (s.down != [] ==> |s.listed| == i + 1)
    case Serving => |s.listed| == |s.proxies| && Regs(s.up) == []
    case Over(_) => true
  }

  /** Proxies are handled in the client's order, and bound exactly as permitted and possible. */
  ghost predicate Booked(s: System, tries: seq<bool>, user: Option<User>) {
    && |tries| == |s.listed|
    && s.listed + Regs(s.up) <= s.proxies
    && s.granted == Bound(user, s.listed, tries)
  }

  /** Replies read, and one on its way, are the verdicts. */
  ghost predicate Judged(s: System, tries: seq<bool>, user: Option<User>) {
    && |s.answers| <= |tries| <= |s.proxies|
    && (tries != [] ==> user.Some?)
    && (forall k :: 0 <= k < |s.answers| ==> s.answers[k].1 == Control.Verdict(user.value, s.proxies[k], tries[k]))
    && (s.client.AwaitReply? && s.down != [] ==>
          |tries| == s.client.i + 1
          && s.down[0] == Control.Verdict(user.value, s.proxies[s.client.i], tries[s.client.i]))
  }

  ghost predicate Ledger(s: System, tries: seq<bool>, user: Option<User>) {
    Counted(s) && Booked(s, tries, user) && Judged(s, tries, user)
  }

  function More(s: System, a: Action): seq<bool> {
    if Handles(s, a) then [a.binds] else []
  }

  // ---- the client's steps ----

  lemma LoginLedger(s: System, tries: seq<bool>, user: Option<User>)
    requires Inv(s) && Ledger(s, tries, user) && s.client == Start
    ensures Ledger(ClientStep(s), tries, user)
  {
    hide FindUser, Covers, PortAllowed, ServerOk, Answered, Bound, Regs, Control.Verdict;
    RegsOfOne(Login(s.login.0, s.login.1));
    assert ClientStep(s).up == [Login(s.login.0, s.login.1)];
  }

  lemma RegistrationLedger(s: System, tries: seq<bool>, user: Option<User>, i: nat)
    requires Inv(s) && Ledger(s, tries, user) && s.client == Next(i) && i < |s.proxies|
    ensures Ledger(ClientStep(s), tries, user)
  {
    hide FindUser, Covers, PortAllowed, ServerOk, Answered, Bound, Regs, Control.Verdict;
    RegsOfOne(RegisterProxy(s.proxies[i]));
    assert ClientStep(s).up == [RegisterProxy(s.proxies[i])];
    assert s.listed + [] == s.listed;
    assert s.listed + [s.proxies[i]] <= s.proxies;
  }

  lemma ClientSendsLedger(s: System, tries: seq<bool>, user: Option<User>)
    requires Inv(s) && Ledger(s, tries, user)
    ensures Ledger(ClientStep(s), tries, user)
  {
    hide FindUser, Covers, PortAllowed, ServerOk, Answered, Booked, Judged, Regs, Control.Verdict;
    match s.client
    case Start => LoginLedger(s, tries, user);
    case Next(i) =>
      if i < |s.proxies| {
        RegistrationLedger(s, tries, user, i);
      } else {
        ServingLedger(s, tries, user);
      }
    case _ =>
  }

  lemma ServingLedger(s: System, tries: seq<bool>, user: Option<User>)
    requires Inv(s) && Ledger(s, tries, user) && s.client == Next(|s.proxies|)
    ensures Ledger(ClientStep(s), tries, user)
  {
    hide FindUser, Covers, PortAllowed, ServerOk, Answered, Bound, Regs, Control.Verdict;
  }

  /** Reading leaves what the server has done alone. */
  lemma ClientReadsBooked(s: System, tries: seq<bool>, user: Option<User>)
    requires Inv(s) && Counted(s) && Booked(s, tries, user)
    ensures Counted(ClientRead(s)) && Booked(ClientRead(s), tries, user)
  {
    hide FindUser, Covers, ServerOk, Answered, Bound, Regs;
    RegsOfOne(Ping);
  }

  lemma ClientReadsLedger(s: System, tries: seq<bool>, user: Option<User>)
    requires Inv(s) && Ledger(s, tries, user)
    ensures Ledger(ClientRead(s), tries, user)
  {
    hide FindUser, Covers, InStep, ServerOk, Regs, Bound, Booked, Counted, Control.Verdict, Answers;
    ClientReadsBooked(s, tries, user);
    ClientReadKeepsConfig(s);
    var t := ClientRead(s);
    if t.answers != s.answers {
      assert t.answers == s.answers + [(s.proxies[s.client.i], s.down[0])];
    }
  }

  lemma ClientPingsLedger(s: System, tries: seq<bool>, user: Option<User>)
    requires Inv(s) && Ledger(s, tries, user) && s.client == Serving
    ensures Ledger(Step(s, ClientPings), tries, user)
  {
    hide FindUser, Covers, PortAllowed, ServerOk, Bound, Regs, Control.Verdict;
    RegsSnoc(s.up, Ping);
    assert Regs(s.up) + [] == Regs(s.up);
  }

  // ---- the server's step ----

  lemma ServerReadsLedger(s: System, tries: seq<bool>, user: Option<User>, binds: bool, sends: bool)
    requires Inv(s) && Ledger(s, tries, user) && user == FindUser(s.users, s.login.0, s.login.1)
    ensures Ledger(ServerRead(s, binds, sends), tries + More(s, ServerReads(binds, sends)), user)
  {
    hide FindUser, Ledger, Inv;
    assert tries + [] == tries;
    if Handles(s, ServerReads(binds, sends)) {
      HandlesLedger(s, tries, user, binds, sends);
    } else if s.up != [] && !s.server.Left? {
      OthersLedger(s, tries, user, binds, sends);
    }
  }

  /** Any other message: nothing is registered, and the client is not waiting for a verdict. */
  lemma OthersChange(s: System, binds: bool, sends: bool)
    requires Inv(s) && s.up != [] && !s.server.Left? && !Handles(s, ServerReads(binds, sends))
    ensures var t := ServerRead(s, binds, sends);
            && t.client == s.client && t.proxies == s.proxies && t.answers == s.answers
            && t.listed == s.listed && t.granted == s.granted && t.up == s.up[1..]
    ensures !s.up[0].RegisterProxy? && !s.client.AwaitReply?
  {
    hide FindUser, Covers, Answered, PortAllowed, Answers;
    assert s.up[0] in s.up;
  }

  lemma OthersLedger(s: System, tries: seq<bool>, user: Option<User>, binds: bool, sends: bool)
    requires Inv(s) && Ledger(s, tries, user) && s.up != [] && !s.server.Left?
    requires !Handles(s, ServerReads(binds, sends))
    ensures Ledger(ServerRead(s, binds, sends), tries, user)
  {
    hide Inv, ServerRead, Bound, Control.Verdict;
    OthersChange(s, binds, sends);
    assert Regs(s.up[1..]) == Regs(s.up);
  }

  lemma HandlesLedger(s: System, tries: seq<bool>, user: Option<User>, binds: bool, sends: bool)
    requires Inv(s) && Ledger(s, tries, user) && user == FindUser(s.users, s.login.0, s.login.1)
    requires Handles(s, ServerReads(binds, sends))
    ensures Ledger(ServerRead(s, binds, sends), tries + [binds], user)
  {
    hide FindUser, Covers, Answered, Bound;
    var t, p := ServerRead(s, binds, sends), s.up[0].proxy;
    ServerReadGrows(s, binds, sends);
    BoundSnoc(user, s.listed, tries, p, binds);
    assert s.listed + ([p] + Regs(s.up[1..])) == (s.listed + [p]) + Regs(s.up[1..]);
  }

  // ---- whole runs ----

  lemma StepLedger(s: System, tries: seq<bool>, user: Option<User>, a: Action)
    requires Inv(s) && Ledger(s, tries, user) && user == FindUser(s.users, s.login.0, s.login.1)
    ensures Ledger(Step(s, a), tries + More(s, a), user)
  {
    hide FindUser, Inv, Ledger, ClientStep, ClientRead, ServerRead;
    assert tries + [] == tries;
    match a
    case ClientSends => ClientSendsLedger(s, tries, user);
    case ClientReads => ClientReadsLedger(s, tries, user);
    case ClientPings => if s.client == Serving { ClientPingsLedger(s, tries, user); }
    case ServerReads(binds, sends) => ServerReadsLedger(s, tries, user, binds, sends);
    case ClientBreaks => BreaksLedger(s, tries, user);
    case ServerLeaves => LeavesLedger(s, tries, user);
  }

  lemma BreaksLedger(s: System, tries: seq<bool>, user: Option<User>)
    requires Ledger(s, tries, user)
    ensures Ledger(Step(s, ClientBreaks), tries, user)
  {
    hide Regs, Bound, Control.Verdict;
  }

  lemma LeavesLedger(s: System, tries: seq<bool>, user: Option<User>)
    requires Ledger(s, tries, user)
    ensures Ledger(Step(s, ServerLeaves), tries, user)
  {
    hide Regs, Bound, Control.Verdict;
  }

  lemma {:induction false} RunLedger(login: (string, string), proxies: seq<Proxy>, users: seq<User>, run: seq<Action>)
    ensures var first := Init(login, proxies, users);
            Ledger(Exec(first, run), Tries(first, run), FindUser(users, login.0, login.1))
  {
    hide Inv, Ledger, Step, FindUser;
    var first, user := Init(login, proxies, users), FindUser(users, login.0, login.1);
    if run == [] {
      FirstLedger(login, proxies, users, user);
    } else {
      var n := |run| - 1;
      RunLedger(login, proxies, users, run[..n]);
      RunKeeps(login, proxies, users, run[..n]);
      RunKeepsConfig(login, proxies, users, run[..n]);
      StepLedger(Exec(first, run[..n]), Tries(first, run[..n]), user, run[n]);
    }
  }

  lemma FirstLedger(login: (string, string), proxies: seq<Proxy>, users: seq<User>, user: Option<User>)
    ensures Ledger(Init(login, proxies, users), [], user)
  {
  }

  /**
    Over every run: the server handles the client's proxies in order, each once;
    a public port has been bound exactly for those that are permitted and could be
    bound when they were handled; and each reply read says just that of its proxy.
   */
  lemma EveryReplyIsTheVerdict(login: (string, string), proxies: seq<Proxy>, users: seq<User>, run: seq<Action>)
    ensures var first := Init(login, proxies, users);
            var s, tries, user := Exec(first, run), Tries(first, run), FindUser(users, login.0, login.1);
            && |s.answers| <= |tries| <= |proxies|
            && s.listed == proxies[..|tries|]
            && s.granted == Bound(user, proxies[..|tries|], tries)
            && forall k :: 0 <= k < |s.answers| ==>
                 user.Some? && s.answers[k] == (proxies[k], Control.Verdict(user.value, proxies[k], tries[k]))
  {
    hide Step, FindUser, Inv, Bound, Tries, Regs, Control.Verdict;
    RunLedger(login, proxies, users, run);
    ProtocolSafety(login, proxies, users, run);
    RunKeepsConfig(login, proxies, users, run);
  }

  // ---- keep-alives ----

  /** Pings the client has been made to send. */
  function PingSteps(s: System, run: seq<Action>): nat {
    if run == [] then 0 else
      var n := |run| - 1;
      PingSteps(s, run[..n]) + if run[n] == ClientPings && Exec(s, run[..n]).client == Serving then 1 else 0
  }

  /** While both ends serve, every Ping is on its way up, or its Pong on its way down or counted. */
  ghost predicate Beats(s: System) {
    && (s.client == Serving && s.server.Loop? ==> s.pings == s.pongs + |s.down| + |s.up|)
    && (s.client != Serving && !s.client.Over? ==> s.pings == 0 && s.pongs == 0)
  }

  lemma StepBeats(s: System, a: Action)
    requires Inv(s) && Beats(s)
    ensures Beats(Step(s, a))
    ensures Step(s, a).pings == s.pings + if a == ClientPings && s.client == Serving then 1 else 0
  {
    hide FindUser, Covers, ServerOk, Answered, Answers, PortAllowed, ServerRead;
    if s.down != [] {
      assert s.down[0] in s.down;
    }
    if a.ServerReads? {
      ServerReadGrows(s, a.binds, a.sends);
      ServerReadBeats(s, a.binds, a.sends);
    }
  }

  lemma ServerReadBeats(s: System, binds: bool, sends: bool)
    requires Inv(s) && Beats(s)
    ensures Beats(ServerRead(s, binds, sends))
  {
    hide FindUser, Covers, Answered, Answers, PortAllowed;
    ServerReadGrows(s, binds, sends);
    if s.up != [] {
      assert s.up[0] in s.up;
    }
  }

  /** Over every run no keep-alive is lost, made up or left unanswered while both ends serve. */
  lemma {:induction false} KeepAlivesAreExact(login: (string, string), proxies: seq<Proxy>, users: seq<User>,
                                              run: seq<Action>)
    ensures var first := Init(login, proxies, users);
            var s := Exec(first, run);
            Beats(s) && s.pings == PingSteps(first, run)
  {
    hide Inv, Step, Beats;
    var first := Init(login, proxies, users);
    if run == [] {
      FirstBeats(login, proxies, users);
    } else {
      var n := |run| - 1;
      KeepAlivesAreExact(login, proxies, users, run[..n]);
      RunKeeps(login, proxies, users, run[..n]);
      StepBeats(Exec(first, run[..n]), run[n]);
    }
  }

  lemma FirstBeats(login: (string, string), proxies: seq<Proxy>, users: seq<User>)
    ensures Beats(Init(login, proxies, users))
  {
  }

  // ---- refused logins ----

  /** Only an unknown user is ever refused. */
  ghost predicate Refusals(s: System, user: Option<User>) {
    && (s.client == Over(Rejected) ==> user == None)
    && (s.client == AwaitLogin && s.down != [] && s.down[0] == LoginErr ==> user == None)
  }

  /** An unknown user's login is on its way, or its refusal is, or the client has been told. */
  ghost predicate Told(s: System) {
    || (s.client == Start && s.server == WaitLogin && s.up == [] && s.down == [])
    || (s.client == AwaitLogin && s.server == WaitLogin && s.up == [Login(s.login.0, s.login.1)] && s.down == [])
    || (s.client == AwaitLogin && s.server.Left? && s.up == [] && s.down == [LoginErr])
    || (s.client == Over(Rejected) && s.server.Left?)
  }

  lemma StepRefusals(s: System, a: Action, user: Option<User>)
    requires Inv(s) && Refusals(s, user) && user == FindUser(s.users, s.login.0, s.login.1)
    ensures Refusals(Step(s, a), user)
  {
    hide FindUser, Covers, Answered, Answers, PortAllowed, ServerRead;
    if a.ServerReads? {
      ServerReadRefusals(s, a.binds, a.sends, user);
    }
  }

  lemma ServerReadRefusals(s: System, binds: bool, sends: bool, user: Option<User>)
    requires Inv(s) && Refusals(s, user) && user == FindUser(s.users, s.login.0, s.login.1)
    ensures Refusals(ServerRead(s, binds, sends), user)
  {
    hide Covers, Answered, Answers, PortAllowed;
    var t := ServerRead(s, binds, sends);
    ServerReadGrows(s, binds, sends);
    if s.client == AwaitLogin && s.up != [] && s.server == WaitLogin {
      assert s.up == [Login(s.login.0, s.login.1)] && s.down == [];
      assert user.Some? && sends ==> t.down == [LoginOk];
    }
  }

  predicate Undisturbed(a: Action) {
    a != ClientBreaks && a != ServerLeaves && (a.ServerReads? ==> a.sends)
  }

  lemma StepTold(s: System, a: Action)
    requires Told(s) && FindUser(s.users, s.login.0, s.login.1) == None && Undisturbed(a)
    ensures Told(Step(s, a))
  {
    hide FindUser, PortAllowed;
  }

  /** A client ends as rejected only if its login is unknown; and if it is, an undisturbed run tells it so. */
  lemma {:induction false} RefusedExactly(login: (string, string), proxies: seq<Proxy>, users: seq<User>,
                                          run: seq<Action>)
    ensures var s, user := Exec(Init(login, proxies, users), run), FindUser(users, login.0, login.1);
            && Refusals(s, user)
            && (user == None && (forall a <- run :: Undisturbed(a)) ==> Told(s))
  {
    hide Inv, Step, FindUser, Told, Refusals, Undisturbed;
    var first, user := Init(login, proxies, users), FindUser(users, login.0, login.1);
    if run == [] {
      FirstTold(login, proxies, users, user);
    } else {
      var n := |run| - 1;
      var s := Exec(first, run[..n]);
      RefusedExactly(login, proxies, users, run[..n]);
      RunKeeps(login, proxies, users, run[..n]);
      RunKeepsConfig(login, proxies, users, run[..n]);
      StepRefusals(s, run[n], user);
      if user == None && forall a <- run :: Undisturbed(a) {
        assert run[n] in run && forall a <- run[..n] :: a in run;
        StepTold(s, run[n]);
      }
    }
  }

  lemma FirstTold(login: (string, string), proxies: seq<Proxy>, users: seq<User>, user: Option<User>)
    ensures Told(Init(login, proxies, users)) && Refusals(Init(login, proxies, users), user)
  {
  }

  /** Three steps are enough. */
  lemma RefusedAtOnce(login: (string, string), proxies: seq<Proxy>, users: seq<User>, binds: bool)
    requires FindUser(users, login.0, login.1) == None
    ensures Exec(Init(login, proxies, users), [ClientSends, ServerReads(binds, true), ClientReads]).client
         == Over(Rejected)
  {
    hide FindUser, Exec;
    var a := Init(login, proxies, users);
    var b := Step(a, ClientSends);
    assert b.up == [Login(login.0, login.1)];
    var c := Step(b, ServerReads(binds, true));
    assert c.down == [LoginErr];
    ExecOne(c, ClientReads);
    ExecCons(b, ServerReads(binds, true), [ClientReads]);
    ExecCons(a, ClientSends, [ServerReads(binds, true)] + [ClientReads]);
    assert [ClientSends] + ([ServerReads(binds, true)] + [ClientReads])
        == [ClientSends, ServerReads(binds, true), ClientReads];
  }

  // ---- how either side ends ----

  /** The message at hand asks for a reply. */
  predicate Due(s: System) {
    && s.up != []
    && ((s.server == WaitLogin && s.up[0].Login?)
        || (s.server.Loop? && (s.up[0].RegisterProxy? || s.up[0] == Ping)))
  }

  /** The server says exactly one thing to a message that asks for a reply, or, if it cannot, nothing ever again. */
  lemma OneReplyOrNone(s: System, binds: bool, sends: bool)
    ensures var t := ServerRead(s, binds, sends);
            && (Due(s) && sends ==> |t.down| == |s.down| + 1 && t.down[..|s.down|] == s.down)
            && (Due(s) && !sends ==> t.down == s.down && t.server.Left?)
            && (!Due(s) ==> t.down == s.down)
  {
    hide FindUser, PortAllowed;
    var t := ServerRead(s, binds, sends);
    assert Due(s) && sends ==> t.down == s.down + [t.down[|s.down|]];
  }

  /** Messages out of turn, which no run brings about: the client ends or ignores them, the server leaves. */
  lemma OddMessages(s: System, binds: bool, sends: bool)
    ensures s.down != [] && s.client == AwaitLogin && s.down[0] != LoginOk && s.down[0] != LoginErr ==>
              ClientRead(s).client == Over(Unexpected)
    ensures s.down != [] && s.client.AwaitReply? && !s.down[0].RegisterOk? && !s.down[0].RegisterErr? ==>
              ClientRead(s).client == Over(Unexpected)
    ensures s.down != [] && s.client == Serving && s.down[0] != Pong ==>
              ClientRead(s) == s.(down := s.down[1..])
    ensures s.up != [] && s.server == WaitLogin && !s.up[0].Login? ==>
              ServerRead(s, binds, sends).server.Left? && ServerRead(s, binds, sends).down == s.down
    ensures s.up != [] && s.server.Loop? && !Due(s) ==>
              ServerRead(s, binds, sends) == s.(up := s.up[1..])
  {
    hide FindUser, PortAllowed;
  }

  /** Nothing moves a side that has ended; leaving the loop closes every port. */
  lemma EndsAreFinal(s: System, a: Action)
    ensures s.client.Over? ==> Step(s, a).client == s.client
    ensures s.server.Left? ==> Step(s, a).server == s.server
    ensures !s.server.Left? ==> Step(s, ServerLeaves).server.Left?
    ensures s.server.Loop? ==> Step(s, ServerLeaves).listening == []
  {
    hide FindUser, PortAllowed;
  }

  predicate Waiting(s: System) {
    s.client == AwaitLogin || s.client.AwaitReply? || s.client == Serving
  }

  function Reads(n: nat): seq<Action> {
    seq(n, _ => ClientReads)
  }

  lemma ReadsNext(s: System, n: nat)
    ensures Exec(s, Reads(n + 1)) == Exec(ClientRead(s), Reads(n))
    ensures Exec(s, Reads(0)) == s
  {
    hide Exec, ClientRead;
    assert Reads(n + 1) == [ClientReads] + Reads(n);
    ExecCons(s, ClientReads, Reads(n));
    assert Reads(0) == [];
    ExecNothing(s);
  }

  lemma ExecNothing(s: System)
    ensures Exec(s, []) == s
  {
  }

  lemma {:induction false} ReadsOut(s: System, n: nat)
    requires !Waiting(s)
    ensures Exec(s, Reads(n)) == s
  {
    hide Exec;
    ReadsNext(s, if n > 0 then n - 1 else 0);
    if n > 0 {
      ReadsOut(s, n - 1);
    }
  }

  /** A client whose server has gone does not wait for it: it reads what is still on its way, and ends. */
  lemma {:induction false} EndIsNoticed(s: System, n: nat)
    requires s.server.Left? && n > |s.down|
    ensures !Waiting(Exec(s, Reads(n)))
    decreases n
  {
    hide Exec;
    ReadsNext(s, n - 1);
    var t := ClientRead(s);
    if !Waiting(t) {
      ReadsOut(t, n - 1);
    } else {
      assert s.down != [] && t.down == s.down[1..];
      EndIsNoticed(t, n - 1);
    }
  }
}
