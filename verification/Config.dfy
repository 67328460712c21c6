/** The server configuration: what a valid one is, who may bind which port. */
module Config {
  import opened Bytes
  import PortRange

  datatype User = User(name: string, token: string, ports: seq<string>)

  /** `tcp`, `quic` and `wss`: whether the listener is present and enabled. */
  datatype ServerConfig = ServerConfig(
    tcp: Option<bool>, quic: Option<bool>, wss: Option<bool>,
    secret: string,
    users: seq<User>)

  datatype Verdict =
    | Fine
    | NoTransport
    | EmptySecret
    | DuplicateUser(name: string)
    | BadPorts(user: string, entry: string)

  predicate Enabled(listener: Option<bool>) {
    listener == Some(true)
  }

  predicate AnyTransport(cfg: ServerConfig) {
    Enabled(cfg.tcp) || Enabled(cfg.quic) || Enabled(cfg.wss)
  }

  predicate UniqueNames(users: seq<User>) {
    forall i, j :: 0 <= i < j < |users| ==> users[i].name != users[j].name
  }

  predicate PortsParse(u: User) {
    forall entry <- u.ports :: PortRange.Parse(entry).Valid?
  }

  predicate ValidConfig(cfg: ServerConfig) {
    && AnyTransport(cfg)
    && cfg.secret != ""
    && UniqueNames(cfg.users)
    && forall u <- cfg.users :: PortsParse(u)
  }

  /** The first fault found, in the order the checks are made. */
  method Validate(cfg: ServerConfig) returns (v: Verdict)
    ensures v == Fine <==> ValidConfig(cfg)
    ensures v == NoTransport <==> cfg.tcp != Some(true) && cfg.quic != Some(true) && cfg.wss != Some(true)
    ensures v == EmptySecret <==> AnyTransport(cfg) && cfg.secret == ""
    ensures v.DuplicateUser? <==> AnyTransport(cfg) && cfg.secret != "" && !UniqueNames(cfg.users)
    ensures v.DuplicateUser? ==>
              exists i, j :: 0 <= i < j < |cfg.users| && cfg.users[i].name == cfg.users[j].name == v.name
                          && UniqueNames(cfg.users[..j])
    ensures v.BadPorts? ==>
              exists u <- cfg.users :: u.name == v.user && v.entry in u.ports && !PortRange.Parse(v.entry).Valid?
  {
    hide PortRange.Parse;
    if !AnyTransport(cfg) {
      return NoTransport;
    }
    if cfg.secret == "" {
      return EmptySecret;
    }
    var seen: set<string> := {};
    for j := 0 to |cfg.users|
      invariant seen == set u <- cfg.users[..j] :: u.name
      invariant UniqueNames(cfg.users[..j])
    {
      var name := cfg.users[j].name;
      if name in seen {
        var i :| 0 <= i < j && cfg.users[..j][i].name == name;
        assert cfg.users[i].name == cfg.users[j].name == name;
        return DuplicateUser(name);
      }
      assert forall i :: 0 <= i < j ==> cfg.users[..j][i].name in seen;
      assert cfg.users[..j + 1] == cfg.users[..j] + [cfg.users[j]];
      seen := seen + {name};
    }
    assert cfg.users[..|cfg.users|] == cfg.users;
    for j := 0 to |cfg.users|
      invariant forall i :: 0 <= i < j ==> PortsParse(cfg.users[i])
    {
      var u := cfg.users[j];
      for k := 0 to |u.ports|
        invariant forall i :: 0 <= i < k ==> PortRange.Parse(u.ports[i]).Valid?
      {
        if !PortRange.Parse(u.ports[k]).Valid? {
          assert u in cfg.users;
          return BadPorts(u.name, u.ports[k]);
        }
      }
    }
    v := Fine;
  }

  /** The ports a user's entries stand for; an entry that does not parse stands for none. */
  ghost predicate Covers(ports: seq<string>, port: nat) {
    exists entry <- ports ::
      PortRange.Parse(entry).Valid? && PortRange.Parse(entry).range.lo <= port <= PortRange.Parse(entry).range.hi
  }

  function PortAllowed(u: User, port: nat): (r: bool)
    ensures r <==> Covers(u.ports, port)
  {
    exists entry <- u.ports ::
      match PortRange.Parse(entry)
      case Valid(range) => port >= range.lo && port <= range.hi
      case _ => false
  }

  /** Ports are permitted exactly within the ranges that the entries write out; without entries none is. */
  lemma PermitsExactly(u: User, ranges: seq<PortRange.Range>, port: nat)
    requires |u.ports| == |ranges|
    requires forall i :: 0 <= i < |ranges| ==>
               ranges[i].lo <= ranges[i].hi <= 65535 && u.ports[i] == PortRange.Canonical(ranges[i])
    ensures PortAllowed(u, port) <==> exists i :: 0 <= i < |ranges| && ranges[i].lo <= port <= ranges[i].hi
  {
    hide PortRange.Parse, PortRange.Canonical;
    forall i | 0 <= i < |ranges|
      ensures PortRange.Parse(u.ports[i]) == PortRange.Valid(ranges[i])
    {
      PortRange.CanonicalParses(ranges[i]);
    }
    if i :| 0 <= i < |ranges| && ranges[i].lo <= port <= ranges[i].hi {
      assert u.ports[i] in u.ports;
    }
  }

  /** The login check: the first user with this name and token. */
  function FindUser(users: seq<User>, name: string, token: string): (r: Option<User>)
    ensures r.Some? ==> r.value in users && r.value.name == name && r.value.token == token
    ensures r.None? ==> forall u <- users :: u.name != name || u.token != token
  {
    if users == [] then None
    else if users[0].name == name && users[0].token == token then Some(users[0])
    else FindUser(users[1..], name, token)
  }

  // ---- edits ----

  /** `retain(|u| u.name != name)` */
  function Without(users: seq<User>, name: string): (r: seq<User>)
    ensures forall u :: u in r <==> u in users && u.name != name
    ensures |r| <= |users|
  {
    if users == [] then []
    else (if users[0].name != name then [users[0]] else []) + Without(users[1..], name)
  }

  function Upsert(cfg: ServerConfig, u: User): ServerConfig {
    cfg.(users := Without(cfg.users, u.name) + [u])
  }

  function Delete(cfg: ServerConfig, name: string): ServerConfig {
    cfg.(users := Without(cfg.users, name))
  }

  lemma {:induction false} WithoutStaysUnique(users: seq<User>, name: string)
    requires UniqueNames(users)
    ensures UniqueNames(Without(users, name))
  {
    if users != [] {
      var rest := Without(users[1..], name);
      WithoutStaysUnique(users[1..], name);
      assert forall u <- users[1..] :: u.name != users[0].name;
      assert forall j :: 0 <= j < |rest| ==> rest[j] in rest;
    }
  }

  /** An upsert keeps a configuration valid exactly if the new user's ranges parse. */
  lemma UpsertKeepsValid(cfg: ServerConfig, u: User)
    requires ValidConfig(cfg)
    ensures ValidConfig(Upsert(cfg, u)) <==> PortsParse(u)
    ensures FindUser(Upsert(cfg, u).users, u.name, u.token) == Some(u)
  {
    var rest := Without(cfg.users, u.name);
    WithoutStaysUnique(cfg.users, u.name);
    assert forall j :: 0 <= j < |rest| ==> rest[j] in rest;
    assert u in Upsert(cfg, u).users;
    FindLast(rest, u);
  }

  lemma {:induction false} FindLast(users: seq<User>, u: User)
    requires forall v <- users :: v.name != u.name
    ensures FindUser(users + [u], u.name, u.token) == Some(u)
  {
    if users != [] {
      assert (users + [u])[1..] == users[1..] + [u];
      assert users[0] in users;
      FindLast(users[1..], u);
    }
  }

  lemma DeleteKeepsValid(cfg: ServerConfig, name: string)
    requires ValidConfig(cfg)
    ensures ValidConfig(Delete(cfg, name))
    ensures forall token :: FindUser(Delete(cfg, name).users, name, token) == None
  {
    WithoutStaysUnique(cfg.users, name);
  }

  // ---- edits as values ----

  datatype Edit = Put(user: User) | Remove(name: string) {
    /** The user it is about. */
    function Target(): string {
      if Put? then user.name else name
    }

    /** What it makes of that user's entry. */
    function Written(): Option<User> {
      if Put? then Some(user) else None
    }
  }

  function Perform(cfg: ServerConfig, e: Edit): ServerConfig {
    match e
    case Put(u) => Upsert(cfg, u)
    case Remove(name) => Delete(cfg, name)
  }

  /** A user's entry. */
  function Entry(users: seq<User>, name: string): Option<User> {
    if users == [] then None
    else if users[0].name == name then Some(users[0])
    else Entry(users[1..], name)
  }

  lemma {:induction false} EntryOfWithout(users: seq<User>, gone: string, name: string)
    ensures Entry(Without(users, gone), name) == if name == gone then None else Entry(users, name)
  {
    if users != [] {
      EntryOfWithout(users[1..], gone, name);
      var rest := Without(users[1..], gone);
      assert ([users[0]] + rest)[1..] == rest && [] + rest == rest;
    }
  }

  lemma {:induction false} EntryOfSnoc(users: seq<User>, u: User, name: string)
    ensures Entry(users + [u], name)
         == if Entry(users, name).None? && u.name == name then Some(u) else Entry(users, name)
  {
    if users != [] {
      assert (users + [u])[1..] == users[1..] + [u];
      EntryOfSnoc(users[1..], u, name);
    }
  }

  /** An edit writes its own user's entry and leaves every other one as its base had it. */
  lemma EntryAfter(base: ServerConfig, e: Edit, name: string)
    ensures Perform(base, e) == base.(users := Perform(base, e).users)
    ensures Entry(Perform(base, e).users, name)
         == if name == e.Target() then e.Written() else Entry(base.users, name)
  {
    EntryOfWithout(base.users, e.Target(), name);
    if e.Put? {
      EntryOfSnoc(Without(base.users, e.user.name), e.user, name);
    }
  }

  /** With names unique, who may log in is a matter of that user's entry alone. */
  lemma {:induction false} EntryDecidesLogin(users: seq<User>, name: string, token: string)
    requires UniqueNames(users)
    ensures FindUser(users, name, token)
         == match Entry(users, name)
            case Some(u) => if u.token == token then Some(u) else None
            case None => None
  {
    if users != [] {
      EntryDecidesLogin(users[1..], name, token);
      if users[0].name == name {
        forall u | u in users[1..]
          ensures u.name != name
        {
        }
      }
    }
  }
}
