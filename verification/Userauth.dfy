/**
 * Server-side user authentication (auth2.c) with the J-PAKE subprotocol
 * (auth2-jpake.c), keyboard-interactive (auth2-chall.c) and the dispatch table
 * (dispatch.c), as a transition system over received messages.
 *
 * What the server learns from elsewhere (the password database, the verdict of
 * the other methods, random numbers) comes in with each event.
 */
module Userauth {
  import opened Bytes
  import opened Jpake

  // ----- Dispatch table

  const DISPATCH_MAX: nat := 255

  const SERVICE_REQUEST: nat := 5
  const USERAUTH_REQUEST: nat := 50
  const JPAKE_CLIENT_STEP1: nat := 60
  const INFO_RESPONSE: nat := 61
  const JPAKE_CLIENT_STEP2: nat := 62
  const JPAKE_CLIENT_CONFIRM: nat := 64

  const METHOD_NONE := "none"
  const METHOD_JPAKE := "jpake-01@openssh.com"
  const METHOD_KBDINT := "keyboard-interactive"
  const AUTHMETHODS := [METHOD_NONE, "publickey", METHOD_JPAKE, "password", METHOD_KBDINT, "hostbased"]

  datatype Handler =
    | Null | ProtocolError | ProtocolIgnore
    | OnService | OnRequest | OnInfo | OnStep1 | OnStep2 | OnConfirm

  /** The entries of the table that are ever set; every other entry keeps its default. */
  datatype Table = Table(service: Handler, request: Handler, step1: Handler, info: Handler, step2: Handler, confirm: Handler)
  {
    /** What an incoming type selects: types outside the table have no handler. */
    function Get(kind: int): Handler {
      if kind <= 0 || kind >= DISPATCH_MAX then Null
      else if kind == SERVICE_REQUEST then service
      else if kind == USERAUTH_REQUEST then request
      else if kind == JPAKE_CLIENT_STEP1 then step1
      else if kind == INFO_RESPONSE then info
      else if kind == JPAKE_CLIENT_STEP2 then step2
      else if kind == JPAKE_CLIENT_CONFIRM then confirm
      else ProtocolError
    }
  }

  // ----- Configuration, messages and the outside world

  datatype Permit = PermitYes | PermitNoPassword | PermitForcedOnly | PermitNo

  datatype Config =
    Config(maxTries: int, enabled: string -> bool, permit: Permit, hash: Hash, group: Group, session: seq<byte>)

  ghost predicate Usable(cfg: Config) {
    cfg.group.p > 1 && cfg.group.q > 0 && cfg.group.g >= 0
  }

  datatype Message =
    | Service(name: string)
    | Request(user: string, service: string, how: string)
    | Info
    | Step1(one: StepOne)
    | Step2(two: StepTwo)
    | Confirm(digest: seq<byte>)
    | Malformed(kind: int)

  function Type(m: Message): int {
    match m
    case Service(_) => SERVICE_REQUEST
    case Request(_, _, _) => USERAUTH_REQUEST
    case Info => INFO_RESPONSE
    case Step1(_) => JPAKE_CLIENT_STEP1
    case Step2(_) => JPAKE_CLIENT_STEP2
    case Confirm(_) => JPAKE_CLIENT_CONFIRM
    case Malformed(kind) => kind
  }

  /** What a method other than J-PAKE and keyboard-interactive reports. */
  datatype Outcome = Outcome(authenticated: bool, postponed: bool, serverCaused: bool)

  datatype Respond = Accepted | MoreNeeded(sent: bool) | Rejected | WrongCount

  /** The server's J-PAKE draws, those of its three proofs, and the user's password-derived secret. */
  datatype Draw = Draw(id: seq<byte>, x3: nat, x4: nat, secret: nat, v1: nat, v2: nat, v3: nat)

  /** Answers from outside while one message is handled; `passwd` is the uid getpwnamallow finds. */
  datatype Env = Env(passwd: Option<int>, outcome: Outcome, forced: bool, device: string, respond: Respond,
                     started: bool, draw: Draw)

  datatype Event = Event(msg: Message, env: Env)

  // ----- Authentication context

  /** The J-PAKE context: every field is unset until its step fills it in. */
  datatype Ctx = Ctx(
    serverId: Option<seq<byte>>, x3: Option<nat>, x4: Option<nat>, gx3: Option<nat>, gx4: Option<nat>, s: Option<nat>,
    clientId: Option<seq<byte>>, gx1: Option<nat>, gx2: Option<nat>, b: Option<nat>,
    a: Option<nat>, k: Option<nat>, digest: Option<seq<byte>>)
  {
    predicate Started() {
      serverId.Some? && x3.Some? && x4.Some? && gx3.Some? && gx4.Some? && s.Some?
    }

    predicate SteppedOnce() {
      Started() && clientId.Some? && gx1.Some? && gx2.Some? && b.Some?
    }

    predicate Keyed() {
      SteppedOnce() && a.Some? && k.Some? && digest.Some?
    }
  }

  const NEW_CTX := Ctx(None, None, None, None, None, None, None, None, None, None, None, None, None)

  /** Crashed is the use of a J-PAKE context or a field that is not there. */
  datatype Link = Up | Closed | Crashed

  /** One call of auth_log, with what decided whether a failure was charged. */
  datatype Entry = Entry(how: string, granted: bool, postponed: bool, serverCaused: bool, attempt: nat, forced: bool)
  {
    predicate Failed() { !granted && !postponed }

    /** The initial try of "none" is not charged. */
    predicate Probe() { attempt <= 1 && how == METHOD_NONE }

    predicate Charged() { Failed() && !serverCaused && !Probe() }
  }

  /** Who is logging in, once the first request has said so; an unknown user gets a fake entry. */
  datatype Identity = Nobody | Identity(user: string, service: string, valid: bool, uid: int)

  /** Requests seen, failures charged, and the log. */
  datatype Tally = Tally(attempt: nat, failures: nat, log: seq<Entry>)

  datatype Auth = Auth(
    link: Link, table: Table, tally: Tally, who: Identity, postponed: bool, serverCaused: bool, success: bool,
    kbdint: bool, jpake: Option<Ctx>, noneEnabled: bool)
  {
    predicate Runs() { link == Up && !success }

    predicate Valid() { who.Identity? && who.valid }

    predicate IsRoot() { who.Identity? && who.uid == 0 }
  }

  function Initial(): Auth {
    Auth(Up, Table(OnService, ProtocolError, ProtocolError, ProtocolError, ProtocolError, ProtocolError), Tally(0, 0, []),
         Nobody, false, false, false, false, None, true)
  }

  // ----- auth2.c

  /** auth_root_allowed */
  function RootAllowed(permit: Permit, how: string, forced: bool): bool {
    match permit
    case PermitYes => true
    case PermitNoPassword => how != "password"
    case PermitForcedOnly => forced
    case PermitNo => false
  }

  /** The verdict is logged and, unless the method is still under way, acted upon. */
  function Settle(cfg: Config, s: Auth, e: Entry): Auth {
    var t := s.(tally := s.tally.(log := s.tally.log + [e]));
    if e.postponed then t
    else if e.granted then t.(table := t.table.(request := ProtocolIgnore), success := true)
    else
      var failures := s.tally.failures + if e.Charged() then 1 else 0;
      t.(tally := t.tally.(failures := failures), link := if failures >= cfg.maxTries then Closed else s.link)
  }

  function Finish(cfg: Config, s: Auth, authenticated: bool, how: string, forced: bool): Auth {
    if !s.Valid() && authenticated then s.(link := Closed) else
      var granted := authenticated && (!s.IsRoot() || RootAllowed(cfg.permit, how, forced));
      Settle(cfg, s, Entry(how, granted, s.postponed, s.serverCaused, s.tally.attempt, forced))
  }

  function ServiceRequest(s: Auth, name: string): Auth
  {
    if name == "ssh-userauth" && !s.success then s.(table := s.table.(request := OnRequest)) else s.(link := Closed)
  }

  /** A user name up to its first colon; the rest is the style. */
  function BeforeColon(name: string): string {
    if name == [] || name[0] == ':' then [] else [name[0]] + BeforeColon(name[1..])
  }

  function ChallengeStop(s: Auth): Auth
  {
    s.(table := s.table.(info := Null), kbdint := false)
  }

  function ChallengeStart(s: Auth, started: bool): Auth
  {
    if started then s.(table := s.table.(info := OnInfo), kbdint := true, postponed := true) else ChallengeStop(s)
  }

  function JpakeStop(s: Auth): Auth
  {
    s.(table := s.table.(step1 := Null, step2 := Null, confirm := Null), jpake := None)
  }

  function JpakeStart(cfg: Config, s: Auth, d: Draw): Auth
    requires Usable(cfg) && s.jpake.Some?
  {
    var gx3, gx4 := G(cfg.group, d.x3), G(cfg.group, d.x4);
    if gx3 <= 1 || gx4 <= 1 then s.(link := Closed) else
      var ctx := s.jpake.value.(serverId := Some(d.id), x3 := Some(d.x3), x4 := Some(d.x4), gx3 := Some(gx3),
                                gx4 := Some(gx4), s := Some(d.secret));
      s.(table := s.table.(step1 := OnStep1), jpake := Some(ctx), postponed := true)
  }

  /** A method on the list that is enabled; "none" is so until it has been tried. */
  predicate KnownMethod(cfg: Config, noneEnabled: bool, how: string) {
    how in AUTHMETHODS && if how == METHOD_NONE then noneEnabled else cfg.enabled(how)
  }

  /** m->userauth(authctxt): the new context and whether the user is authenticated. */
  function Try(cfg: Config, s: Auth, how: string, env: Env): (Auth, bool)
    requires Usable(cfg)
  {
    if how == METHOD_JPAKE then
      var t := if s.jpake.None? then s.(jpake := Some(NEW_CTX)) else s;
      (if cfg.enabled(METHOD_JPAKE) then JpakeStart(cfg, t, env.draw) else t, false)
    else if how == METHOD_KBDINT then (ChallengeStart(s, env.started), false)
    else
      (s.(postponed := env.outcome.postponed, serverCaused := env.outcome.serverCaused,
          noneEnabled := s.noneEnabled && how != METHOD_NONE),
       env.outcome.authenticated)
  }

  /** The first request fixes the user and the service; a later change is refused. */
  function Identify(s: Auth, user: string, service: string, passwd: Option<int>): Auth {
    var t := s.(tally := s.tally.(attempt := s.tally.attempt + 1));
    if s.tally.attempt == 0 then
      var valid := passwd.Some? && service == "ssh-connection";
      t.(who := Identity(user, service, valid, if valid then passwd.value else -1))
    else if s.who.Nobody? || s.who.user != user || s.who.service != service then t.(link := Closed)
    else t
  }

  function Reset(s: Auth): Auth
  {
    JpakeStop(ChallengeStop(s)).(postponed := false, serverCaused := false)
  }

  function UserauthRequest(cfg: Config, s: Auth, user: string, service: string, how: string, env: Env): Auth
    requires Usable(cfg)
  {
    var t := Identify(s, BeforeColon(user), service, env.passwd);
    if t.link != Up then t else
      var r := Reset(t);
      if KnownMethod(cfg, r.noneEnabled, how) && r.tally.failures < cfg.maxTries then
        var (v, authenticated) := Try(cfg, r, how, env);
        if v.link != Up then v else Finish(cfg, v, authenticated, how, env.forced)
      else Finish(cfg, r, false, how, env.forced)
  }

  // ----- auth2-jpake.c

  function ClientStep1(cfg: Config, s: Auth, m: StepOne): Auth
    requires Usable(cfg)
  {
    var t := s.(table := s.table.(step1 := Null));
    if s.jpake.None? || !s.jpake.value.Started() then t.(link := Crashed) else
      var c := s.jpake.value;
      var b := StepValue(cfg.group, c.s.value, c.gx3.value, m.pub1, m.pub2, c.x4.value);
      if !StepOneValid(cfg.hash, cfg.group, m) || b <= 1 then t.(link := Closed) else
        var d := c.(clientId := Some(m.id), gx1 := Some(m.pub1), gx2 := Some(m.pub2), b := Some(b));
        t.(table := t.table.(step2 := OnStep2), jpake := Some(d))
  }

  /** The check on the client's step 2: its proof is over the generator both ends share. */
  predicate StepTwoValid(cfg: Config, c: Ctx, m: StepTwo)
    requires Usable(cfg) && c.SteppedOnce()
  {
    SchnorrVerify(cfg.hash, cfg.group.p, cfg.group.q,
                  StepGenerator(cfg.group, c.gx3.value, c.gx4.value, c.gx1.value), m.newpub, c.clientId.value, m.proof)
  }

  function ClientStep2(cfg: Config, s: Auth, m: StepTwo): Auth
    requires Usable(cfg)
  {
    var t := s.(table := s.table.(step2 := Null));
    if s.jpake.None? || !s.jpake.value.SteppedOnce() then t.(link := Crashed) else
      var c := s.jpake.value;
      if !StepTwoValid(cfg, c, m) then t.(link := Closed) else
        var k := KeyValue(cfg.group, c.s.value, m.newpub, c.x4.value, c.gx2.value);
        var d := c.(a := Some(m.newpub), k := Some(k),
                    digest := Some(ConfirmHash(cfg.hash, k, c.serverId.value, cfg.session)));
        t.(table := t.table.(confirm := OnConfirm), jpake := Some(d))
  }

  function ClientConfirm(cfg: Config, s: Auth, digest: seq<byte>, forced: bool): Auth
  {
    var t := s.(table := s.table.(confirm := Null));
    if s.jpake.None? || !s.jpake.value.Keyed() then t.(link := Crashed) else
      var c := s.jpake.value;
      var authenticated := digest == ConfirmHash(cfg.hash, c.k.value, c.clientId.value, cfg.session) && s.Valid();
      Finish(cfg, t.(postponed := false, jpake := None), authenticated, METHOD_JPAKE, forced)
  }

  // ----- auth2-chall.c

  function InfoResponse(cfg: Config, s: Auth, env: Env): Auth
  {
    var how := METHOD_KBDINT + "/" + env.device;
    if !s.kbdint || env.respond.WrongCount? then s.(postponed := false, link := Closed)
    else if env.respond == MoreNeeded(true) then Finish(cfg, s.(postponed := true), false, how, env.forced)
    else if env.respond.Accepted? && s.Valid() then
      Finish(cfg, ChallengeStop(s.(postponed := false)), true, how, env.forced)
    else Finish(cfg, ChallengeStart(s.(postponed := false), env.started), false, how, env.forced)
  }

  // ----- dispatch.c

  /** One turn of dispatch_run; nothing is read any more once the link is down or the user is in. */
  function Receive(cfg: Config, s: Auth, e: Event): Auth
    requires Usable(cfg)
  {
    if s.Runs() then Handle(cfg, s, s.table.Get(Type(e.msg)), e) else s
  }

  function Handle(cfg: Config, s: Auth, h: Handler, e: Event): Auth
    requires Usable(cfg)
  {
    var m := e.msg;
    match h
    case ProtocolError => s
    case ProtocolIgnore => s
    case OnService => if m.Service? then ServiceRequest(s, m.name) else Drop(s)
    case OnRequest => if m.Request? then UserauthRequest(cfg, s, m.user, m.service, m.how, e.env) else Drop(s)
    case OnInfo => if m.Info? then InfoResponse(cfg, s, e.env) else Drop(s)
    case OnStep1 => if m.Step1? then ClientStep1(cfg, s, m.one) else Drop(s)
    case OnStep2 => if m.Step2? then ClientStep2(cfg, s, m.two) else Drop(s)
    case OnConfirm => if m.Confirm? then ClientConfirm(cfg, s, m.digest, e.env.forced) else Drop(s)
    case Null => Drop(s)
  }

  /** packet_disconnect */
  function Drop(s: Auth): Auth { s.(link := Closed) }

  function Run(cfg: Config, s: Auth, es: seq<Event>): Auth
    requires Usable(cfg)
    decreases |es|
  {
    if es == [] then s else Run(cfg, Receive(cfg, s, es[0]), es[1..])
  }
}
