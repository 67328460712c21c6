/**
  The control stream: client and server as two state machines joined by two
  message queues, either of which may break at any moment.
 */
module Control {
  import opened Bytes
  import opened Config

  datatype Kind = Tcp | Udp

  datatype Proxy = Proxy(name: string, kind: Kind, port: nat)

  datatype Msg =
    | Login(name: string, token: string)
    | LoginOk
    | LoginErr
    | RegisterProxy(proxy: Proxy)
    | RegisterOk(name: string, port: nat)
    | RegisterErr(name: string)
    | Ping
    | Pong

  datatype Ending = Rejected | Unexpected | Broken

  datatype Client =
    | Start
    | AwaitLogin
    | Next(i: nat)       // about to register proxy `i`, or to start serving
    | AwaitReply(i: nat)
    | Serving
    | Over(why: Ending)

  /** `Left` by a `break` closes the public ports; `Left` by a failed write does not. */
  datatype Server =
    | WaitLogin
    | Loop(user: User)
    | Left(clean: bool)

  datatype System = System(
    login: (string, string),
    proxies: seq<Proxy>,       // what the client is configured to register
    users: seq<User>,          // the server's configuration snapshot
    client: Client,
    server: Server,
    up: seq<Msg>,              // client to server
    down: seq<Msg>,
    // what has happened so far
    welcomed: bool,            // LoginOk was sent
    listed: seq<Proxy>,        // entered in the metrics, valid or not
    granted: seq<Proxy>,       // public ports ever bound
    listening: seq<Proxy>,     // public ports bound now
    answers: seq<(Proxy, Msg)>, // each reply read, with the proxy it was read for
    pings: nat,
    pongs: nat)

  function Init(login: (string, string), proxies: seq<Proxy>, users: seq<User>): System {
    System(login, proxies, users, Start, WaitLogin, [], [], false, [], [], [], [], 0, 0)
  }

  /** `binds`: the port can be bound; `sends`: the server's reply can be written. */
  datatype Action =
    | ClientSends
    | ClientReads
    | ClientPings
    | ClientBreaks
    | ServerReads(binds: bool, sends: bool)
    | ServerLeaves

  function Say(s: System, m: Msg): System {
    s.(up := s.up + [m])
  }

  function ClientStep(s: System): System {
    match s.client
    case Start => Say(s, Login(s.login.0, s.login.1)).(client := AwaitLogin)
    case Next(i) =>
      if i < |s.proxies| then Say(s, RegisterProxy(s.proxies[i])).(client := AwaitReply(i))
      else s.(client := Serving)
    case _ => s
  }

  /** The client takes one message; at the end of the stream it gives up. */
  function ClientRead(s: System): System {
    if s.down == [] then
      if s.server.Left? && s.client != Start && !s.client.Next? && !s.client.Over? then s.(client := Over(Broken))
      else s
    else
      var m := s.down[0];
      var t := s.(down := s.down[1..]);
      match s.client
      case AwaitLogin =>
        (match m
         case LoginOk => t.(client := Next(0))
         case LoginErr => t.(client := Over(Rejected))
         case _ => t.(client := Over(Unexpected)))
      case AwaitReply(i) =>
        if m.RegisterOk? || m.RegisterErr? then
          t.(client := Next(i + 1),
             answers := if i < |s.proxies| then s.answers + [(s.proxies[i], m)] else s.answers)
        else t.(client := Over(Unexpected))
      case Serving => if m == Pong then t.(pongs := s.pongs + 1) else t
      case _ => s  // not reading
  }

  /** Answer, or leave by the failed write. */
  function Reply(s: System, m: Msg, sends: bool): System {
    if sends then s.(down := s.down + [m]) else s.(server := Left(false))
  }

  /** `break`: the accept loops of all registered proxies are aborted. */
  function Leave(s: System): System {
    s.(server := Left(true), listening := [])
  }

  /** The first message has to be a login. */
  function Admit(s: System, m: Msg, sends: bool): System {
    match m
    case Login(name, token) =>
      (match FindUser(s.users, name, token)
       case Some(u) =>
         if sends then s.(server := Loop(u), welcomed := true, down := s.down + [LoginOk])
         else s.(server := Left(false))
       case None => Reply(s, LoginErr, sends).(server := Left(sends)))
    case _ => s.(server := Left(false))
  }

  /** The control loop's match. A proxy enters the metrics before it is looked at. */
  function Handle(s: System, u: User, m: Msg, binds: bool, sends: bool): System {
    match m
    case RegisterProxy(p) =>
      if PortAllowed(u, p.port) && binds then
        Reply(s.(listed := s.listed + [p], granted := s.granted + [p], listening := s.listening + [p]),
              RegisterOk(p.name, p.port), sends)
      else
        Reply(s.(listed := s.listed + [p]), RegisterErr(p.name), sends)
    case Ping => Reply(s, Pong, sends)
    case _ => s
  }

  function ServerRead(s: System, binds: bool, sends: bool): System {
    if s.up == [] || s.server.Left? then s
    else
      var m := s.up[0];
      var t := s.(up := s.up[1..]);
      match s.server
      case WaitLogin => Admit(t, m, sends)
      case Loop(u) => Handle(t, u, m, binds, sends)
  }

  function Step(s: System, a: Action): System {
    match a
    case ClientSends => ClientStep(s)
    case ClientReads => ClientRead(s)
    case ClientPings => if s.client == Serving then Say(s, Ping).(pings := s.pings + 1) else s
    case ClientBreaks => if s.client.Over? then s else s.(client := Over(Broken))
    case ServerReads(binds, sends) => ServerRead(s, binds, sends)
    case ServerLeaves =>
      if s.server.Loop? then Leave(s) else if s.server == WaitLogin then s.(server := Left(false)) else s
  }

  function Exec(s: System, run: seq<Action>): System {
    if run == [] then s else Step(Exec(s, run[..|run| - 1]), run[|run| - 1])
  }

  // ---- what every state of every run satisfies ----

  predicate Answers(m: Msg, p: Proxy) {
    m == RegisterOk(p.name, p.port) || m == RegisterErr(p.name)
  }

  /** One exchange is under way: the question is on its way up, or its answer on its way down, or lost. */
  ghost predicate Exchange(s: System, question: Msg, ok: Msg -> bool) {
    || (s.up == [question] && s.down == [])
    || (s.up == [] && |s.down| == 1 && ok(s.down[0]))
    || (s.up == [] && s.down == [] && s.server.Left?)
  }

  /** While the client has not given up, the queues hold nothing it does not wait for. */
  ghost predicate InStep(s: System) {
    match s.client
    case Start => s.up == [] && s.down == [] && !s.server.Loop?
    case AwaitLogin =>
      && Exchange(s, Login(s.login.0, s.login.1), m => m == LoginOk || m == LoginErr)
      && (s.up != [] ==> !s.server.Loop?)
      && (s.down != [] && s.down[0] == LoginOk ==> s.welcomed)
      && (s.down != [] && s.down[0] == LoginErr ==> s.server.Left?)
    case Next(i) => i <= |s.proxies| && s.up == [] && s.down == [] && s.welcomed
    case AwaitReply(i) =>
      && i < |s.proxies| && s.welcomed
      && Exchange(s, RegisterProxy(s.proxies[i]), m => Answers(m, s.proxies[i]))
      && (s.down != [] && s.down[0].RegisterOk? ==> s.proxies[i] in s.granted)
    case Serving =>
      && s.welcomed
      && (forall m <- s.up :: m == Ping)
      && (forall m <- s.down :: m == Pong)
      && s.pongs + |s.down| + |s.up| <= s.pings
    case Over(why) => why != Unexpected
  }

  /** What the server has done, whatever became of the client. */
  ghost predicate ServerOk(s: System) {
    && (!s.welcomed ==> s.listed == [] && s.granted == [])
    && (s.server == WaitLogin ==> !s.welcomed)
    && (s.server.Loop? ==> s.welcomed && FindUser(s.users, s.login.0, s.login.1) == Some(s.server.user))
    && (s.welcomed ==> FindUser(s.users, s.login.0, s.login.1).Some?)
    && (forall p <- s.granted :: p in s.listed && Covers(FindUser(s.users, s.login.0, s.login.1).value.ports, p.port))
    && (s.server != Left(true) ==> s.listening == s.granted)
    && (s.server == Left(true) ==> s.listening == [])
    && (s.server == WaitLogin ==> forall m <- s.up :: m == Login(s.login.0, s.login.1))
  }

  /** Every reply read answers the proxy just sent, in configuration order, and an Ok was meant. */
  ghost predicate Answered(s: System) {
    && |s.answers| <= |s.proxies|
    && (s.client.Next? ==> |s.answers| == s.client.i)
    && (s.client.AwaitReply? ==> |s.answers| == s.client.i)
    && (s.client == Start || s.client == AwaitLogin ==> s.answers == [])
    && (s.client == Serving ==> |s.answers| == |s.proxies|)
    && s.pongs <= s.pings
    && forall k :: 0 <= k < |s.answers| ==>
         && s.answers[k].0 == s.proxies[k]
         && Answers(s.answers[k].1, s.proxies[k])
         && (s.answers[k].1.RegisterOk? ==> s.proxies[k] in s.granted)
  }

  ghost predicate Inv(s: System) {
    InStep(s) && ServerOk(s) && Answered(s)
  }

  lemma InitInv(login: (string, string), proxies: seq<Proxy>, users: seq<User>)
    ensures Inv(Init(login, proxies, users))
  {
  }

  lemma ClientKeeps(s: System)
    requires Inv(s)
    ensures Inv(ClientStep(s))
  {
  }

  lemma ClientReadKeeps(s: System)
    requires Inv(s)
    ensures Inv(ClientRead(s))
  {
    hide FindUser, Covers, InStep, ServerOk, Answered;
    ClientReadInStep(s);
    ClientReadServerOk(s);
    ClientReadAnswered(s);
  }

  lemma ClientReadInStep(s: System)
    requires Inv(s)
    ensures InStep(ClientRead(s))
  {
    hide FindUser, Covers, ServerOk, Answered;
    if s.down != [] {
      assert s.down[0] in s.down;
      assert forall m <- s.down[1..] :: m in s.down;
    }
  }

  lemma ClientReadServerOk(s: System)
    requires Inv(s)
    ensures ServerOk(ClientRead(s))
  {
    hide FindUser, Covers, InStep, Answered;
  }

  lemma ClientReadAnswered(s: System)
    requires Inv(s)
    ensures Answered(ClientRead(s))
  {
    hide FindUser, Covers, ServerOk;
  }

  lemma ServerReadKeeps(s: System, binds: bool, sends: bool)
    requires Inv(s)
    ensures Inv(ServerRead(s, binds, sends))
  {
    hide FindUser, Covers, InStep, ServerOk, Answered;
    ServerReadInStep(s, binds, sends);
    ServerReadServerOk(s, binds, sends);
    ServerReadAnswered(s, binds, sends);
  }

  lemma ServerReadInStep(s: System, binds: bool, sends: bool)
    requires Inv(s)
    ensures InStep(ServerRead(s, binds, sends))
  {
    hide FindUser, PortAllowed, Covers, InStep, Answered;
    if s.server == WaitLogin {
      AdmitInStep(s, binds, sends);
    } else if s.server.Loop? {
      LoopInStep(s, binds, sends);
    }
  }

  lemma AdmitInStep(s: System, binds: bool, sends: bool)
    requires InStep(s) && s.server == WaitLogin && !s.welcomed
    ensures InStep(ServerRead(s, binds, sends))
  {
    hide FindUser, PortAllowed;
  }

  lemma LoopInStep(s: System, binds: bool, sends: bool)
    requires InStep(s) && s.server.Loop? && s.welcomed
    ensures InStep(ServerRead(s, binds, sends))
  {
    hide FindUser, PortAllowed;
    if s.up != [] {
      assert s.up[0] in s.up;
      assert forall m <- s.up[1..] :: m in s.up;
    }
  }

  lemma ServerReadServerOk(s: System, binds: bool, sends: bool)
    requires Inv(s)
    ensures ServerOk(ServerRead(s, binds, sends))
  {
    hide FindUser, PortAllowed, Covers, InStep, Answered;
    if s.up != [] {
      assert s.up[0] in s.up;
      assert forall m <- s.up[1..] :: m in s.up;
    }
  }

  lemma ServerReadAnswered(s: System, binds: bool, sends: bool)
    requires Inv(s)
    ensures Answered(ServerRead(s, binds, sends))
  {
    hide FindUser, PortAllowed, Covers, InStep, ServerOk, Answered, Answers;
    ServerReadGrows(s, binds, sends);
    AnsweredStays(s, ServerRead(s, binds, sends));
  }

  /** A server step does not touch what the client has read, and takes no grant back. */
  predicate Grows(s: System, t: System) {
    && t.client == s.client && SameConfig(s, t) && t.answers == s.answers
    && t.pings == s.pings && t.pongs == s.pongs && s.granted <= t.granted
  }

  predicate SameConfig(s: System, t: System) {
    t.proxies == s.proxies && t.users == s.users && t.login == s.login
  }

  lemma AdmitGrows(s: System, m: Msg, sends: bool)
    ensures Grows(s, Admit(s, m, sends))
  {
    hide FindUser;
  }

  lemma HandleGrows(s: System, u: User, m: Msg, binds: bool, sends: bool)
    ensures Grows(s, Handle(s, u, m, binds, sends))
  {
    hide PortAllowed;
  }

  lemma ServerReadGrows(s: System, binds: bool, sends: bool)
    ensures Grows(s, ServerRead(s, binds, sends))
  {
    hide Admit, Handle;
    if s.up != [] {
      var t := s.(up := s.up[1..]);
      AdmitGrows(t, s.up[0], sends);
      if s.server.Loop? {
        HandleGrows(t, s.server.user, s.up[0], binds, sends);
      }
    }
  }

  lemma AnsweredStays(s: System, t: System)
    requires Answered(s) && Grows(s, t)
    ensures Answered(t)
  {
    assert forall p <- s.granted :: p in t.granted;
  }

  lemma StepKeeps(s: System, a: Action)
    requires Inv(s)
    ensures Inv(Step(s, a))
  {
    match a
    case ClientSends => ClientKeeps(s);
    case ClientReads => ClientReadKeeps(s);
    case ServerReads(binds, sends) => ServerReadKeeps(s, binds, sends);
    case _ =>
  }

  lemma {:induction false} RunKeeps(login: (string, string), proxies: seq<Proxy>, users: seq<User>, run: seq<Action>)
    ensures Inv(Exec(Init(login, proxies, users), run))
  {
    hide Inv, Step;
    if run == [] {
      InitInv(login, proxies, users);
    } else {
      RunKeeps(login, proxies, users, run[..|run| - 1]);
      StepKeeps(Exec(Init(login, proxies, users), run[..|run| - 1]), run[|run| - 1]);
    }
  }

  /**
    Over every run: no reply is ever unexpected; the k-th reply read answers the
    k-th proxy, and an Ok means its port was bound; nothing is registered before
    LoginOk; only permitted ports are bound; Pongs never outnumber Pings.
   */
  lemma ProtocolSafety(login: (string, string), proxies: seq<Proxy>, users: seq<User>, run: seq<Action>)
    ensures var s := Exec(Init(login, proxies, users), run);
            && s.client != Over(Unexpected)
            && |s.answers| <= |s.proxies| == |proxies|
            && (forall k :: 0 <= k < |s.answers| ==>
                  && s.answers[k].0 == s.proxies[k] && Answers(s.answers[k].1, s.proxies[k])
                  && (s.answers[k].1.RegisterOk? ==> s.proxies[k] in s.granted))
            && (!s.welcomed ==> s.listed == [] && s.granted == [])
            && (s.granted != [] ==> FindUser(s.users, s.login.0, s.login.1).Some?)
            && (forall p <- s.granted ::
                  p in s.listed && Covers(FindUser(s.users, s.login.0, s.login.1).value.ports, p.port))
            && s.pongs <= s.pings
  {
    hide Step, FindUser, Covers;
    RunKeeps(login, proxies, users, run);
    RunKeepsConfig(login, proxies, users, run);
  }

  lemma {:induction false} RunKeepsConfig(login: (string, string), proxies: seq<Proxy>, users: seq<User>,
                                          run: seq<Action>)
    ensures var s := Exec(Init(login, proxies, users), run);
            s.proxies == proxies && s.users == users && s.login == login
  {
    hide Step;
    if run != [] {
      RunKeepsConfig(login, proxies, users, run[..|run| - 1]);
      StepKeepsConfig(Exec(Init(login, proxies, users), run[..|run| - 1]), run[|run| - 1]);
    }
  }

  lemma StepKeepsConfig(s: System, a: Action)
    ensures SameConfig(s, Step(s, a))
  {
    hide ClientRead, ServerRead;
    ClientReadKeepsConfig(s);
    if a.ServerReads? {
      ServerReadGrows(s, a.binds, a.sends);
    }
  }

  lemma ClientReadKeepsConfig(s: System)
    ensures SameConfig(s, ClientRead(s))
  {
  }

  // ---- ports after a tunnel has ended ----

  /** The write of a reply fails while the tunnel has a public port. */
  predicate ReplyFails(s: System, a: Action) {
    && a.ServerReads? && !a.sends
    && s.server.Loop? && s.up != [] && (s.up[0].RegisterProxy? || s.up[0] == Ping)
    && Step(s, a).granted != []
  }

  ghost predicate SomeReplyFails(s: System, run: seq<Action>) {
    exists i :: 0 <= i < |run| && ReplyFails(Exec(s, run[..i]), run[i])
  }

  lemma LeavingStep(s: System, a: Action)
    requires Inv(s) && !s.server.Left?
    ensures var t := Step(s, a);
            if t.server.Left? then t.listening != [] <==> ReplyFails(s, a) else !ReplyFails(s, a)
  {
    hide FindUser, Covers, PortAllowed, InStep, Answered, ClientRead;
    ClientReadLeavesServer(s);
    StepKeeps(s, a);
  }

  lemma ClientReadLeavesServer(s: System)
    ensures ClientRead(s).server == s.server && ClientRead(s).listening == s.listening
  {
  }

  lemma LeftStays(s: System, a: Action)
    requires s.server.Left?
    ensures Step(s, a).server.Left? && Step(s, a).listening == s.listening
  {
    hide ClientRead;
    ClientReadLeavesServer(s);
  }

  lemma SomeReplyFailsSnoc(s: System, run: seq<Action>)
    requires run != []
    ensures var n := |run| - 1;
            SomeReplyFails(s, run) <==> SomeReplyFails(s, run[..n]) || ReplyFails(Exec(s, run[..n]), run[n])
  {
    hide Exec, ReplyFails;
    var front := run[..|run| - 1];
    assert forall i :: 0 <= i < |front| ==> front[..i] == run[..i] && front[i] == run[i];
  }

  /**
    A tunnel that has ended still holds public ports exactly if the write of a
    reply failed while it had one; every other way out closes them.
   */
  lemma {:induction false} PortsAfterLeaving(login: (string, string), proxies: seq<Proxy>, users: seq<User>,
                                             run: seq<Action>)
    ensures var first := Init(login, proxies, users);
            var s := Exec(first, run);
            if s.server.Left? then s.listening != [] <==> SomeReplyFails(first, run)
            else !SomeReplyFails(first, run)
  {
    hide Step, Inv, ReplyFails, SomeReplyFails;
    var first := Init(login, proxies, users);
    if run == [] {
      NothingFails(first);
    } else {
      var n := |run| - 1;
      var s := Exec(first, run[..n]);
      PortsAfterLeaving(login, proxies, users, run[..n]);
      SomeReplyFailsSnoc(first, run);
      if s.server.Left? {
        LeftStays(s, run[n]);
        NoReplyOnceLeft(s, run[n]);
      } else {
        RunKeeps(login, proxies, users, run[..n]);
        LeavingStep(s, run[n]);
      }
    }
  }

  lemma NothingFails(s: System)
    ensures !SomeReplyFails(s, [])
  {
  }

  lemma NoReplyOnceLeft(s: System, a: Action)
    requires s.server.Left?
    ensures !ReplyFails(s, a)
  {
  }

  /** It happens: any permitted port is left open if the client vanishes before the answer is written. */
  lemma LeftOpen(login: (string, string), p: Proxy, users: seq<User>)
    requires var u := FindUser(users, login.0, login.1); u.Some? && PortAllowed(u.value, p.port)
    ensures var run := [ClientSends, ServerReads(true, true), ClientReads, ClientSends, ServerReads(true, false)];
            var s := Exec(Init(login, [p], users), run);
            s.server == Left(false) && s.listening == [p]
  {
    hide FindUser, PortAllowed, Exec;
    var u := FindUser(users, login.0, login.1).value;
    var a := Init(login, [p], users);
    var b := Step(a, ClientSends);
    assert b.up == [Login(login.0, login.1)];
    var c := Step(b, ServerReads(true, true));
    assert c.server == Loop(u) && c.up == [] && c.down == [LoginOk];
    var d := Step(c, ClientReads);
    assert d.client == Next(0) && d.up == [];
    var e := Step(d, ClientSends);
    assert e.up == [RegisterProxy(p)] && e.server == Loop(u);
    var run := [ServerReads(true, false)];
    ExecOne(e, run[0]);
    ExecCons(d, ClientSends, run);
    ExecCons(c, ClientReads, [ClientSends] + run);
    ExecCons(b, ServerReads(true, true), [ClientReads] + ([ClientSends] + run));
    ExecCons(a, ClientSends, [ServerReads(true, true)] + ([ClientReads] + ([ClientSends] + run)));
    assert [ClientSends] + ([ServerReads(true, true)] + ([ClientReads] + ([ClientSends] + run)))
        == [ClientSends, ServerReads(true, true), ClientReads, ClientSends, ServerReads(true, false)];
  }

  /** The reply to a registration: Ok exactly for a permitted port that can be bound. */
  function Verdict(u: User, p: Proxy, binds: bool): Msg {
    if PortAllowed(u, p.port) && binds then RegisterOk(p.name, p.port) else RegisterErr(p.name)
  }

  lemma StartsServing(s: System)
    requires s.client == Next(|s.proxies|)
    ensures Step(s, ClientSends) == s.(client := Serving)
  {
  }

  lemma RegistersOne(s: System, u: User, i: nat) returns (a: System, b: System, c: System)
    requires s.client == Next(i) && i < |s.proxies| && s.server == Loop(u) && s.up == [] && s.down == []
    ensures a == Step(s, ClientSends) && b == Step(a, ServerReads(true, true)) && c == Step(b, ClientReads)
    ensures c.client == Next(i + 1) && c.server == Loop(u) && c.up == [] && c.down == [] && c.proxies == s.proxies
    ensures c.answers == s.answers + [(s.proxies[i], Verdict(u, s.proxies[i], true))]
  {
    hide PortAllowed, FindUser;
    a := Step(s, ClientSends);
    assert a.up == [RegisterProxy(s.proxies[i])];
    b := Step(a, ServerReads(true, true));
    assert b.down == [Verdict(u, s.proxies[i], true)];
    c := Step(b, ClientReads);
  }

  /** From any registration on, an undisturbed run can get the remaining proxies their verdicts, and then serves. */
  lemma {:induction false} RegistersFrom(s: System, u: User, i: nat) returns (run: seq<Action>, t: System)
    requires s.client == Next(i) && i <= |s.proxies| && s.server == Loop(u) && s.up == [] && s.down == []
    ensures t == Exec(s, run) && t.client == Serving && t.server == Loop(u)
    ensures |t.answers| == |s.answers| + |s.proxies| - i && t.answers[..|s.answers|] == s.answers
    ensures forall k :: i <= k < |s.proxies| ==>
              t.answers[|s.answers| + k - i] == (s.proxies[k], Verdict(u, s.proxies[k], true))
    decreases |s.proxies| - i
  {
    hide Exec, Step, Verdict;
    if i == |s.proxies| {
      StartsServing(s);
      run, t := [ClientSends], Step(s, ClientSends);
      ExecOne(s, ClientSends);
      return;
    }
    var a, b, c := RegistersOne(s, u, i);
    run, t := RegistersFrom(c, u, i + 1);
    ExecCons(b, ClientReads, run);
    run := [ClientReads] + run;
    ExecCons(a, ServerReads(true, true), run);
    run := [ServerReads(true, true)] + run;
    ExecCons(s, ClientSends, run);
    run := [ClientSends] + run;
  }

  /** A user who may log in can get every proxy its verdict, in order, and then serve. */
  lemma RegistersAll(login: (string, string), proxies: seq<Proxy>, users: seq<User>)
    returns (run: seq<Action>, t: System)
    requires FindUser(users, login.0, login.1).Some?
    ensures t == Exec(Init(login, proxies, users), run)
    ensures t.client == Serving && t.server.Loop? && |t.answers| == |proxies|
    ensures var u := FindUser(users, login.0, login.1).value;
            forall k :: 0 <= k < |proxies| ==> t.answers[k] == (proxies[k], Verdict(u, proxies[k], true))
  {
    hide FindUser, Exec, Verdict;
    var u := FindUser(users, login.0, login.1).value;
    var a := Init(login, proxies, users);
    var b := Step(a, ClientSends);
    assert b.up == [Login(login.0, login.1)];
    var c := Step(b, ServerReads(true, true));
    assert c.server == Loop(u) && c.up == [] && c.down == [LoginOk];
    var d := Step(c, ClientReads);
    assert d.client == Next(0) && d.up == [] && d.down == [];
    run, t := RegistersFrom(d, u, 0);
    ExecCons(c, ClientReads, run);
    run := [ClientReads] + run;
    ExecCons(b, ServerReads(true, true), run);
    run := [ServerReads(true, true)] + run;
    ExecCons(a, ClientSends, run);
    run := [ClientSends] + run;
  }

  lemma ExecOne(s: System, a: Action)
    ensures Exec(s, [a]) == Step(s, a)
  {
    hide Step;
    assert [a][..0] == [];
  }

  lemma ExecCons(s: System, a: Action, run: seq<Action>)
    ensures Exec(s, [a] + run) == Exec(Step(s, a), run)
  {
    hide Step, Exec;
    ExecOne(s, a);
    ExecAppend(s, [a], run);
  }

  lemma {:induction false} ExecAppend(s: System, a: seq<Action>, b: seq<Action>)
    ensures Exec(s, a + b) == Exec(Exec(s, a), b)
  {
    hide Step;
    if b == [] {
      assert a + b == a;
    } else {
      assert (a + b)[..|a + b| - 1] == a + b[..|b| - 1];
      ExecAppend(s, a, b[..|b| - 1]);
    }
  }
}
