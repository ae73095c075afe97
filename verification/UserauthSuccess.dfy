/** Exactly when a message logs the user in, and what that takes for root (auth2.c, auth.c). */
module UserauthSuccess {
  import opened Bytes
  import opened Jpake
  import opened Userauth
  import opened UserauthSafety

  /** Methods that give their verdict at once. */
  const PLAIN_METHODS := {"none", "publickey", "password", "hostbased"}

  /** PermitRootLogin, as sshd_config describes it. */
  predicate MayLogIn(permit: Permit, uid: int, how: string, forced: bool) {
    uid == 0 ==>
      permit != PermitNo && (permit == PermitNoPassword ==> how != "password") && (permit == PermitForcedOnly ==> forced)
  }

  /** The user a request is for: named by the first one, and not to be changed by a later one. */
  function Claimed(s: Auth, user: string, service: string, env: Env): Identity {
    if s.tally.attempt == 0 then
      if env.passwd.Some? && service == "ssh-connection" then Identity(BeforeColon(user), service, true, env.passwd.value)
      else Identity(BeforeColon(user), service, false, -1)
    else if s.who.Identity? && s.who.user == BeforeColon(user) && s.who.service == service then s.who
    else Nobody
  }

  predicate RequestAccepted(cfg: Config, s: Auth, user: string, service: string, how: string, env: Env) {
    var who := Claimed(s, user, service, env);
    s.table.request == OnRequest && who.Identity? && who.valid && s.tally.failures < cfg.maxTries &&
    how in PLAIN_METHODS && (if how == "none" then s.noneEnabled else cfg.enabled(how)) &&
    env.outcome.authenticated && !env.outcome.postponed && MayLogIn(cfg.permit, who.uid, how, env.forced)
  }

  predicate InfoAccepted(cfg: Config, s: Auth, env: Env) {
    s.kbdint && s.who.Identity? && s.who.valid && env.respond == Accepted &&
    MayLogIn(cfg.permit, s.who.uid, "keyboard-interactive/" + env.device, env.forced)
  }

  predicate ConfirmAccepted(cfg: Config, s: Auth, digest: seq<byte>, env: Env)
    requires Usable(cfg)
  {
    s.table.confirm == OnConfirm && s.jpake.Some? && s.jpake.value.Keyed() && digest == Expected(cfg, s.jpake.value) &&
    s.who.Identity? && s.who.valid && MayLogIn(cfg.permit, s.who.uid, "jpake-01@openssh.com", env.forced)
  }

  predicate LogsIn(cfg: Config, s: Auth, e: Event)
    requires Usable(cfg)
  {
    match e.msg
    case Request(user, service, how) => RequestAccepted(cfg, s, user, service, how, e.env)
    case Info => InfoAccepted(cfg, s, e.env)
    case Confirm(digest) => ConfirmAccepted(cfg, s, digest, e.env)
    case _ => false
  }

  lemma FinishSucceeds(cfg: Config, s: Auth, authenticated: bool, how: string, forced: bool)
    requires !s.success
    ensures Finish(cfg, s, authenticated, how, forced).success <==>
            authenticated && s.who.Identity? && s.who.valid && !s.postponed && MayLogIn(cfg.permit, s.who.uid, how, forced)
  {
  }

  lemma MethodSucceeds(cfg: Config, r: Auth, how: string, env: Env)
    requires Usable(cfg) && r.Runs() && !r.postponed
    requires KnownMethod(cfg, r.noneEnabled, how)
    ensures var (v, authenticated) := Try(cfg, r, how, env);
            v.link == Up && Finish(cfg, v, authenticated, how, env.forced).success <==>
            how in PLAIN_METHODS && env.outcome.authenticated && !env.outcome.postponed &&
            r.who.Identity? && r.who.valid && MayLogIn(cfg.permit, r.who.uid, how, env.forced)
  {
    hide JpakeStart, Finish, MayLogIn;
    TryFrame(cfg, r, how, env);
    var (v, authenticated) := Try(cfg, r, how, env);
    FinishSucceeds(cfg, v, authenticated, how, env.forced);
  }

  lemma RequestSucceeds(cfg: Config, s: Auth, user: string, service: string, how: string, env: Env)
    requires Usable(cfg) && s.Runs() && s.table.request == OnRequest
    ensures UserauthRequest(cfg, s, user, service, how, env).success <==> RequestAccepted(cfg, s, user, service, how, env)
  {
    hide BeforeColon, Try, Finish, MayLogIn;
    var t := Identify(s, BeforeColon(user), service, env.passwd);
    if t.link == Up {
      var r := Reset(t);
      if KnownMethod(cfg, r.noneEnabled, how) && r.tally.failures < cfg.maxTries {
        TryFrame(cfg, r, how, env);
        MethodSucceeds(cfg, r, how, env);
      } else {
        FinishSucceeds(cfg, r, false, how, env.forced);
      }
    }
  }

  lemma InfoSucceeds(cfg: Config, s: Auth, env: Env)
    requires s.Runs()
    ensures InfoResponse(cfg, s, env).success <==> InfoAccepted(cfg, s, env)
  {
    hide Finish, MayLogIn;
    var how := METHOD_KBDINT + "/" + env.device;
    assert how == "keyboard-interactive/" + env.device;
    FinishSucceeds(cfg, s.(postponed := true), false, how, env.forced);
    FinishSucceeds(cfg, ChallengeStop(s.(postponed := false)), true, how, env.forced);
    FinishSucceeds(cfg, ChallengeStart(s.(postponed := false), env.started), false, how, env.forced);
  }

  lemma ConfirmSucceeds(cfg: Config, s: Auth, digest: seq<byte>, env: Env)
    requires Usable(cfg) && Inv(cfg, s) && s.Runs() && s.table.confirm == OnConfirm
    ensures ClientConfirm(cfg, s, digest, env.forced).success <==> ConfirmAccepted(cfg, s, digest, env)
  {
    hide AfterStart, AfterStep1, StepTwoValid, KeyValue, ConfirmHash, Finish, MayLogIn, Earned, Bounded;
    var c := s.jpake.value;
    var t := s.(table := s.table.(confirm := Null), postponed := false, jpake := None);
    FinishSucceeds(cfg, t, digest == ConfirmHash(cfg.hash, c.k.value, c.clientId.value, cfg.session) && s.Valid(),
                   METHOD_JPAKE, env.forced);
  }

  /** Nothing happens, or the connection ends. */
  predicate Idle(s: Auth, t: Auth) { t == s || t == s.(link := Closed) }

  predicate Handled(cfg: Config, s: Auth, e: Event, t: Auth)
    requires Usable(cfg)
  {
    match e.msg
    case Service(name) => t == ServiceRequest(s, name)
    case Request(user, service, how) =>
      if s.table.request == OnRequest then t == UserauthRequest(cfg, s, user, service, how, e.env) else Idle(s, t)
    case Info => if s.table.info == OnInfo then t == InfoResponse(cfg, s, e.env) else Idle(s, t)
    case Step1(one) => if s.table.step1 == OnStep1 then t == ClientStep1(cfg, s, one) else Idle(s, t)
    case Step2(two) => if s.table.step2 == OnStep2 then t == ClientStep2(cfg, s, two) else Idle(s, t)
    case Confirm(digest) =>
      if s.table.confirm == OnConfirm then t == ClientConfirm(cfg, s, digest, e.env.forced) else Idle(s, t)
    case Malformed(_) => Idle(s, t)
  }

  /** A message reaches its own handler or none. */
  lemma ReceiveHandled(cfg: Config, s: Auth, e: Event)
    requires Usable(cfg) && Inv(cfg, s) && s.Runs()
    ensures Handled(cfg, s, e, Receive(cfg, s, e))
  {
    Dispatched(cfg, s, Type(e.msg));
    hide Inv, Table.Get, ServiceRequest, UserauthRequest, InfoResponse, ClientConfirm, ClientStep1, ClientStep2;
  }

  lemma OnRequestMessage(cfg: Config, s: Auth, e: Event)
    requires Usable(cfg) && Inv(cfg, s) && s.Runs() && e.msg.Request?
    ensures Receive(cfg, s, e).success <==> LogsIn(cfg, s, e)
  {
    hide Inv, Receive, UserauthRequest, BeforeColon, MayLogIn;
    ReceiveHandled(cfg, s, e);
    if s.table.request == OnRequest {
      RequestSucceeds(cfg, s, e.msg.user, e.msg.service, e.msg.how, e.env);
    }
  }

  lemma OnInfoMessage(cfg: Config, s: Auth, e: Event)
    requires Usable(cfg) && Inv(cfg, s) && s.Runs() && e.msg.Info?
    ensures Receive(cfg, s, e).success <==> LogsIn(cfg, s, e)
  {
    hide Inv, Receive, InfoResponse, MayLogIn;
    ReceiveHandled(cfg, s, e);
    KbdintHandler(cfg, s);
    InfoSucceeds(cfg, s, e.env);
  }

  lemma OnConfirmMessage(cfg: Config, s: Auth, e: Event)
    requires Usable(cfg) && Inv(cfg, s) && s.Runs() && e.msg.Confirm?
    ensures Receive(cfg, s, e).success <==> LogsIn(cfg, s, e)
  {
    hide Inv, Receive, ClientConfirm, MayLogIn, Expected, Ctx.Keyed;
    ReceiveHandled(cfg, s, e);
    if s.table.confirm == OnConfirm {
      ConfirmSucceeds(cfg, s, e.msg.digest, e.env);
    }
  }

  lemma OnOtherMessage(cfg: Config, s: Auth, e: Event)
    requires Usable(cfg) && Inv(cfg, s) && s.Runs() && !e.msg.Request? && !e.msg.Info? && !e.msg.Confirm?
    ensures !Receive(cfg, s, e).success
  {
    hide Inv, Receive, ServiceRequest, ClientStep1, ClientStep2;
    ReceiveHandled(cfg, s, e);
    var m := e.msg;
    if m.Service? {
      ServiceFrame(s, m.name);
    } else if m.Step1? {
      Step1Frame(cfg, s, m.one);
    } else if m.Step2? {
      Step2Frame(cfg, s, m.two);
    }
  }

  lemma ReceiveSucceeds(cfg: Config, s: Auth, e: Event)
    requires Usable(cfg) && Inv(cfg, s) && s.Runs()
    ensures Receive(cfg, s, e).success <==> LogsIn(cfg, s, e)
  {
    hide Inv, Receive, RequestAccepted, InfoAccepted, ConfirmAccepted;
    match e.msg
    case Request(_, _, _) => OnRequestMessage(cfg, s, e);
    case Info => OnInfoMessage(cfg, s, e);
    case Confirm(_) => OnConfirmMessage(cfg, s, e);
    case _ => OnOtherMessage(cfg, s, e);
  }

  lemma KbdintHandler(cfg: Config, s: Auth)
    requires Usable(cfg) && Inv(cfg, s) && s.Runs()
    ensures s.kbdint <==> s.table.info == OnInfo
  {
    hide Derived, Earned, Bounded, Placed, Named;
  }

  /**
   * In any run the next message logs the user in exactly when it is the last one
   * of a method that is open to that user: a request for an enabled method whose
   * verdict is good, an accepted keyboard-interactive response, or the J-PAKE
   * confirmation that is waited for; for root only as PermitRootLogin says.
   */
  lemma SuccessExactly(cfg: Config, es: seq<Event>, e: Event)
    requires Usable(cfg)
    requires Run(cfg, Initial(), es).Runs()
    ensures Run(cfg, Initial(), es + [e]).success <==> LogsIn(cfg, Run(cfg, Initial(), es), e)
  {
    hide Run, Receive, LogsIn, Inv;
    InitialInv(cfg);
    RunInv(cfg, Initial(), es);
    RunAppend(cfg, Initial(), es, [e]);
    RunOne(cfg, Run(cfg, Initial(), es), e);
    ReceiveSucceeds(cfg, Run(cfg, Initial(), es), e);
  }

  /** After any messages root is logged in only where PermitRootLogin admits the method that was logged last. */
  lemma RootLogin(cfg: Config, es: seq<Event>)
    requires Usable(cfg)
    ensures var s := Run(cfg, Initial(), es);
            s.success && s.who.Identity? && s.who.uid == 0 ==>
              cfg.permit != PermitNo && s.tally.log != [] &&
              var last := s.tally.log[|s.tally.log| - 1];
              last.granted && (cfg.permit == PermitNoPassword ==> last.how != "password") &&
              (cfg.permit == PermitForcedOnly ==> last.forced)
  {
    hide Run, Bounded, Derived, Placed, Named, Exclusive;
    InitialInv(cfg);
    RunInv(cfg, Initial(), es);
  }

  // ----- Which requests are listened to

  /** A user name with a style is the part before the first colon. */
  lemma {:induction false} NameBeforeStyle(name: string, style: string)
    requires ':' !in name
    ensures BeforeColon(name) == name && BeforeColon(name + ":" + style) == name
  {
    if name == [] {
      assert name + ":" + style == ":" + style;
    } else {
      NameBeforeStyle(name[1..], style);
      assert (name + ":" + style)[1..] == name[1..] + ":" + style;
    }
  }

  /** A message of a type nobody has registered is ignored, but one outside the table ends the connection. */
  lemma UnknownMessage(cfg: Config, es: seq<Event>, kind: int, env: Env)
    requires Usable(cfg) && Run(cfg, Initial(), es).Runs() && kind !in {5, 50, 60, 61, 62, 64}
    ensures var s := Run(cfg, Initial(), es);
            Run(cfg, Initial(), es + [Event(Malformed(kind), env)]) == if 0 < kind < 255 then s else s.(link := Closed)
  {
    hide Run;
    RunAppend(cfg, Initial(), es, [Event(Malformed(kind), env)]);
    RunOne(cfg, Run(cfg, Initial(), es), Event(Malformed(kind), env));
  }

  /** A service request for ssh-userauth is granted, and any other ends the connection. */
  lemma ServiceGranted(cfg: Config, es: seq<Event>, name: string, env: Env)
    requires Usable(cfg) && Run(cfg, Initial(), es).Runs()
    ensures var s := Run(cfg, Initial(), es);
            Run(cfg, Initial(), es + [Event(Service(name), env)]) ==
            if name == "ssh-userauth" then s.(table := s.table.(request := OnRequest)) else s.(link := Closed)
  {
    hide Run, Inv, Receive;
    var (s, e) := (Run(cfg, Initial(), es), Event(Service(name), env));
    InitialInv(cfg);
    RunInv(cfg, Initial(), es);
    RunAppend(cfg, Initial(), es, [e]);
    RunOne(cfg, s, e);
    ReceiveHandled(cfg, s, e);
  }

  ghost predicate Asked(es: seq<Event>) {
    exists i :: 0 <= i < |es| && es[i].msg == Service("ssh-userauth")
  }

  /** The service is the one that has been asked for. */
  ghost predicate Serving(s: Auth, es: seq<Event>) {
    s.Runs() ==> (s.table.request == OnRequest <==> Asked(es))
  }

  lemma ServingNext(cfg: Config, s: Auth, es: seq<Event>, e: Event)
    requires Usable(cfg) && Inv(cfg, s) && Serving(s, es)
    ensures Serving(Receive(cfg, s, e), es + [e])
  {
    AskedNext(es, e);
    if s.Runs() {
      hide Asked, Inv;
      RequestEntry(cfg, s, e);
    }
  }

  lemma AskedNext(es: seq<Event>, e: Event)
    ensures Asked(es + [e]) <==> Asked(es) || e.msg == Service("ssh-userauth")
  {
    var fs := es + [e];
    if Asked(es) {
      var i :| 0 <= i < |es| && es[i].msg == Service("ssh-userauth");
      assert fs[i] == es[i];
    }
    if e.msg == Service("ssh-userauth") {
      assert fs[|es|] == e;
    }
  }

  lemma SettleEntry(cfg: Config, s: Auth, e: Entry)
    ensures var t := Settle(cfg, s, e);
            (t.table.request == s.table.request || t.success) && t.noneEnabled == s.noneEnabled
  {
    hide Entry.Charged;
    if e.postponed {
    } else if e.granted {
      assert Settle(cfg, s, e).success;
    }
  }

  lemma FinishEntry(cfg: Config, s: Auth, authenticated: bool, how: string, forced: bool)
    ensures var t := Finish(cfg, s, authenticated, how, forced);
            (t.table.request == s.table.request || t.success) && t.noneEnabled == s.noneEnabled
  {
    hide RootAllowed, Settle;
    var granted := authenticated && (!s.IsRoot() || RootAllowed(cfg.permit, how, forced));
    SettleEntry(cfg, s, Entry(how, granted, s.postponed, s.serverCaused, s.tally.attempt, forced));
  }

  lemma JpakeStartEntry(cfg: Config, s: Auth, d: Draw)
    requires Usable(cfg) && s.jpake.Some?
    ensures var t := JpakeStart(cfg, s, d); t.table.request == s.table.request && t.noneEnabled == s.noneEnabled
  {
    hide G;
  }

  lemma TryEntry(cfg: Config, s: Auth, how: string, env: Env)
    requires Usable(cfg)
    ensures var t := Try(cfg, s, how, env).0;
            t.table.request == s.table.request && t.noneEnabled == (s.noneEnabled && how != "none")
  {
    hide JpakeStart;
    JpakeStartEntry(cfg, if s.jpake.None? then s.(jpake := Some(NEW_CTX)) else s, env.draw);
  }

  /** Only a service request changes who listens to requests, short of success. */
  lemma RequestEntry(cfg: Config, s: Auth, e: Event)
    requires Usable(cfg) && Inv(cfg, s) && s.Runs()
    ensures var t := Receive(cfg, s, e);
            t.Runs() ==> if e.msg.Service? then e.msg.name == "ssh-userauth" && t.table.request == OnRequest
                         else t.table.request == s.table.request
  {
    hide Inv, Receive, UserauthRequest, InfoResponse, ClientConfirm, ClientStep1, ClientStep2;
    ReceiveHandled(cfg, s, e);
    var m := e.msg;
    if m.Request? {
      RequestKeepsEntry(cfg, s, m.user, m.service, m.how, e.env);
    } else if m.Info? {
      InfoKeepsEntry(cfg, s, e.env);
    } else if m.Confirm? {
      ConfirmKeepsEntry(cfg, s, m.digest, e.env.forced);
    } else if m.Step1? {
      Step1KeepsEntry(cfg, s, m.one);
    } else if m.Step2? {
      Step2KeepsEntry(cfg, s, m.two);
    }
  }

  lemma Step1KeepsEntry(cfg: Config, s: Auth, m: StepOne)
    requires Usable(cfg)
    ensures var t := ClientStep1(cfg, s, m); t.table.request == s.table.request && t.noneEnabled == s.noneEnabled
  {
    hide StepValue, StepOneValid;
  }

  lemma Step2KeepsEntry(cfg: Config, s: Auth, m: StepTwo)
    requires Usable(cfg)
    ensures var t := ClientStep2(cfg, s, m); t.table.request == s.table.request && t.noneEnabled == s.noneEnabled
  {
    hide StepTwoValid, KeyValue, ConfirmHash;
  }

  lemma RequestKeepsEntry(cfg: Config, s: Auth, user: string, service: string, how: string, env: Env)
    requires Usable(cfg)
    ensures var t := UserauthRequest(cfg, s, user, service, how, env);
            (t.Runs() ==> t.table.request == s.table.request) &&
            (t.link == Up && s.tally.failures < cfg.maxTries ==> t.noneEnabled == (s.noneEnabled && how != "none"))
  {
    hide BeforeColon, Try, Finish;
    var r := Reset(Identify(s, BeforeColon(user), service, env.passwd));
    TryEntry(cfg, r, how, env);
    var (v, authenticated) := Try(cfg, r, how, env);
    FinishEntry(cfg, v, authenticated, how, env.forced);
    FinishEntry(cfg, r, false, how, env.forced);
  }

  lemma InfoKeepsEntry(cfg: Config, s: Auth, env: Env)
    ensures var t := InfoResponse(cfg, s, env);
            (t.Runs() ==> t.table.request == s.table.request) && t.noneEnabled == s.noneEnabled
  {
    hide Finish;
    var how := METHOD_KBDINT + "/" + env.device;
    FinishEntry(cfg, s.(postponed := true), false, how, env.forced);
    FinishEntry(cfg, ChallengeStop(s.(postponed := false)), true, how, env.forced);
    FinishEntry(cfg, ChallengeStart(s.(postponed := false), env.started), false, how, env.forced);
  }

  lemma ConfirmKeepsEntry(cfg: Config, s: Auth, digest: seq<byte>, forced: bool)
    ensures var t := ClientConfirm(cfg, s, digest, forced);
            (t.Runs() ==> t.table.request == s.table.request) && t.noneEnabled == s.noneEnabled
  {
    hide Finish, ConfirmHash;
    var t := s.(table := s.table.(confirm := Null), postponed := false, jpake := None);
    FinishEntry(cfg, t, true, METHOD_JPAKE, forced);
    FinishEntry(cfg, t, false, METHOD_JPAKE, forced);
  }

  /** While the server runs, requests are handled exactly if the service has been asked for by name. */
  lemma {:induction false} ServiceFirst(cfg: Config, es: seq<Event>)
    requires Usable(cfg)
    ensures Serving(Run(cfg, Initial(), es), es)
    decreases |es|
  {
    hide Receive, Inv, Serving;
    if es == [] {
      InitialServing();
    } else {
      var (before, e) := (es[..|es| - 1], es[|es| - 1]);
      assert es == before + [e];
      ServiceFirst(cfg, before);
      InitialInv(cfg);
      RunInv(cfg, Initial(), before);
      RunAppend(cfg, Initial(), before, [e]);
      RunOne(cfg, Run(cfg, Initial(), before), e);
      ServingNext(cfg, Run(cfg, Initial(), before), before, e);
    }
  }

  lemma InitialServing()
    ensures Serving(Initial(), [])
  {
  }

  // ----- The method "none"

  /** A request for it that is handled. */
  ghost predicate TriedNone(cfg: Config, es: seq<Event>, i: nat)
    requires Usable(cfg)
  {
    i < |es| && es[i].msg.Request? && es[i].msg.how == "none" && Run(cfg, Initial(), es[..i]).table.request == OnRequest
  }

  ghost predicate OfferedNone(cfg: Config, s: Auth, es: seq<Event>)
    requires Usable(cfg)
  {
    s.link == Up ==> (s.noneEnabled <==> forall i: nat :: !TriedNone(cfg, es, i))
  }

  lemma NoneNext(cfg: Config, s: Auth, e: Event)
    requires Usable(cfg) && Inv(cfg, s) && s.Runs() && cfg.maxTries > 0
    ensures var t := Receive(cfg, s, e);
            t.link == Up ==>
              (t.noneEnabled <==> s.noneEnabled && !(e.msg.Request? && e.msg.how == "none" && s.table.request == OnRequest))
  {
    assert s.tally.failures < cfg.maxTries;
    hide Inv, Receive, UserauthRequest, InfoResponse, ClientConfirm, ClientStep1, ClientStep2;
    ReceiveHandled(cfg, s, e);
    var m := e.msg;
    if m.Request? {
      RequestKeepsEntry(cfg, s, m.user, m.service, m.how, e.env);
    } else if m.Info? {
      InfoKeepsEntry(cfg, s, e.env);
    } else if m.Confirm? {
      ConfirmKeepsEntry(cfg, s, m.digest, e.env.forced);
    } else if m.Step1? {
      Step1KeepsEntry(cfg, s, m.one);
    } else if m.Step2? {
      Step2KeepsEntry(cfg, s, m.two);
    }
  }

  lemma TriedNext(cfg: Config, es: seq<Event>, e: Event)
    requires Usable(cfg)
    ensures (forall i: nat :: !TriedNone(cfg, es + [e], i)) <==>
            (forall i: nat :: !TriedNone(cfg, es, i)) &&
            !(e.msg.Request? && e.msg.how == "none" && Run(cfg, Initial(), es).table.request == OnRequest)
  {
    hide Run;
    var fs := es + [e];
    assert fs[..|es|] == es && fs[|es|] == e;
    forall i: nat | i < |es|
      ensures TriedNone(cfg, fs, i) == TriedNone(cfg, es, i)
    {
      assert fs[..i] == es[..i];
    }
    if forall i: nat :: !TriedNone(cfg, fs, i) {
      assert !TriedNone(cfg, fs, |es|);
    }
  }

  lemma SucceededEntry(cfg: Config, s: Auth)
    requires Usable(cfg) && Inv(cfg, s) && s.link == Up && s.success
    ensures s.table.request != OnRequest
  {
    hide Exclusive, Derived, Earned, Bounded, Named;
  }

  /** While connected, "none" is on offer exactly as long as no request for it has been handled. */
  lemma {:induction false} NoneOnce(cfg: Config, es: seq<Event>)
    requires Usable(cfg) && cfg.maxTries > 0
    ensures OfferedNone(cfg, Run(cfg, Initial(), es), es)
    decreases |es|
  {
    hide Receive, Inv, TriedNone;
    if es == [] {
      NoneTried(cfg);
    } else {
      var (before, e) := (es[..|es| - 1], es[|es| - 1]);
      assert es == before + [e];
      NoneOnce(cfg, before);
      InitialInv(cfg);
      RunInv(cfg, Initial(), before);
      RunAppend(cfg, Initial(), before, [e]);
      var s := Run(cfg, Initial(), before);
      RunOne(cfg, s, e);
      TriedNext(cfg, before, e);
      StaysDown(cfg, s, e);
      if s.Runs() {
        NoneNext(cfg, s, e);
      } else if s.link == Up {
        SucceededEntry(cfg, s);
      }
    }
  }

  lemma NoneTried(cfg: Config)
    requires Usable(cfg)
    ensures Run(cfg, Initial(), []).noneEnabled && forall i: nat :: !TriedNone(cfg, [], i)
  {
  }

  lemma StaysDown(cfg: Config, s: Auth, e: Event)
    requires Usable(cfg)
    ensures !s.Runs() ==> Receive(cfg, s, e) == s
  {
  }

  // ----- The log

  /** A plain method that a request of its name would run. */
  predicate Runnable(cfg: Config, s: Auth, how: string) {
    how in PLAIN_METHODS && s.tally.failures < cfg.maxTries && if how == "none" then s.noneEnabled else cfg.enabled(how)
  }

  /** What a message can put on record. */
  predicate Recorded(cfg: Config, s: Auth, e: Event, attempt: nat, entry: Entry) {
    entry.attempt == attempt && entry.forced == e.env.forced &&
    match e.msg
    case Request(_, _, how) =>
      entry.how == how && (entry.serverCaused <==> Runnable(cfg, s, how) && e.env.outcome.serverCaused)
    case Info => entry.how == "keyboard-interactive/" + e.env.device && !entry.serverCaused
    case Confirm(_) => entry.how == "jpake-01@openssh.com" && !entry.serverCaused
    case _ => false
  }

  /** Nothing, or one entry that says what the message was about. */
  predicate LogGrows(cfg: Config, s: Auth, t: Auth, e: Event) {
    t.tally.log == s.tally.log ||
    (t.tally.log != [] && t.tally.log[..|t.tally.log| - 1] == s.tally.log &&
     Recorded(cfg, s, e, t.tally.attempt, t.tally.log[|t.tally.log| - 1]))
  }

  lemma SettleLogs(cfg: Config, s: Auth, e: Entry)
    ensures var t := Settle(cfg, s, e); t.tally.attempt == s.tally.attempt && t.tally.log == s.tally.log + [e]
  {
    hide Entry.Charged;
  }

  lemma FinishLogs(cfg: Config, s: Auth, authenticated: bool, how: string, forced: bool)
    ensures var t := Finish(cfg, s, authenticated, how, forced);
            t.tally.attempt == s.tally.attempt &&
            (t.tally.log == s.tally.log ||
             exists granted, postponed ::
               t.tally.log == s.tally.log + [Entry(how, granted, postponed, s.serverCaused, s.tally.attempt, forced)])
  {
    hide RootAllowed, Settle;
    var granted := authenticated && (!s.IsRoot() || RootAllowed(cfg.permit, how, forced));
    SettleLogs(cfg, s, Entry(how, granted, s.postponed, s.serverCaused, s.tally.attempt, forced));
  }

  lemma TryFault(cfg: Config, s: Auth, how: string, env: Env)
    requires Usable(cfg) && !s.serverCaused && KnownMethod(cfg, s.noneEnabled, how)
    ensures Try(cfg, s, how, env).0.serverCaused <==> how in PLAIN_METHODS && env.outcome.serverCaused
  {
    hide JpakeStart;
    JpakeStartFault(cfg, if s.jpake.None? then s.(jpake := Some(NEW_CTX)) else s, env.draw);
  }

  lemma JpakeStartFault(cfg: Config, s: Auth, d: Draw)
    requires Usable(cfg) && s.jpake.Some?
    ensures JpakeStart(cfg, s, d).serverCaused == s.serverCaused
  {
    hide G;
  }

  /** Between a request and its method: counted, and nothing under way. */
  lemma RequestBegins(s: Auth, user: string, service: string, passwd: Option<int>)
    ensures var t := Identify(s, user, service, passwd);
            t.tally == s.tally.(attempt := s.tally.attempt + 1) &&
            Reset(t).tally == t.tally && !Reset(t).serverCaused && Reset(t).noneEnabled == s.noneEnabled
  {
  }

  lemma RequestLogs(cfg: Config, s: Auth, e: Event)
    requires Usable(cfg) && e.msg.Request?
    ensures LogGrows(cfg, s, UserauthRequest(cfg, s, e.msg.user, e.msg.service, e.msg.how, e.env), e)
  {
    hide BeforeColon, Identify, Reset, Try, Finish;
    var (how, env) := (e.msg.how, e.env);
    RequestBegins(s, BeforeColon(e.msg.user), e.msg.service, env.passwd);
    var t := Identify(s, BeforeColon(e.msg.user), e.msg.service, env.passwd);
    var r := Reset(t);
    if KnownMethod(cfg, r.noneEnabled, how) && r.tally.failures < cfg.maxTries {
      TryFrame(cfg, r, how, env);
      TryFault(cfg, r, how, env);
      var (v, authenticated) := Try(cfg, r, how, env);
      FinishLogs(cfg, v, authenticated, how, env.forced);
    } else {
      FinishLogs(cfg, r, false, how, env.forced);
    }
  }

  lemma InfoLogs(cfg: Config, s: Auth, e: Event)
    requires e.msg.Info? && (s.kbdint ==> !s.serverCaused)
    ensures LogGrows(cfg, s, InfoResponse(cfg, s, e.env), e)
  {
    hide Finish;
    var how := METHOD_KBDINT + "/" + e.env.device;
    assert how == "keyboard-interactive/" + e.env.device;
    FinishLogs(cfg, s.(postponed := true), false, how, e.env.forced);
    FinishLogs(cfg, ChallengeStop(s.(postponed := false)), true, how, e.env.forced);
    FinishLogs(cfg, ChallengeStart(s.(postponed := false), e.env.started), false, how, e.env.forced);
  }

  lemma ConfirmLogs(cfg: Config, s: Auth, e: Event)
    requires e.msg.Confirm? && (s.jpake.Some? ==> !s.serverCaused)
    ensures LogGrows(cfg, s, ClientConfirm(cfg, s, e.msg.digest, e.env.forced), e)
  {
    hide Finish, ConfirmHash;
    var t := s.(table := s.table.(confirm := Null), postponed := false, jpake := None);
    FinishLogs(cfg, t, true, METHOD_JPAKE, e.env.forced);
    FinishLogs(cfg, t, false, METHOD_JPAKE, e.env.forced);
  }

  lemma NoFaultUnderway(cfg: Config, s: Auth)
    requires Usable(cfg) && Inv(cfg, s) && s.Runs()
    ensures s.kbdint || s.jpake.Some? ==> !s.serverCaused
  {
    hide Placed, Derived, Earned, Bounded, Named;
  }

  lemma ReceiveLogs(cfg: Config, s: Auth, e: Event)
    requires Usable(cfg) && Inv(cfg, s) && s.Runs()
    ensures LogGrows(cfg, s, Receive(cfg, s, e), e)
  {
    hide Inv, Receive, UserauthRequest, InfoResponse, ClientConfirm, ClientStep1, ClientStep2, ServiceRequest, Recorded;
    NoFaultUnderway(cfg, s);
    ReceiveHandled(cfg, s, e);
    var m := e.msg;
    if m.Request? {
      RequestLogs(cfg, s, e);
    } else if m.Info? {
      InfoLogs(cfg, s, e);
    } else if m.Confirm? {
      ConfirmLogs(cfg, s, e);
    } else if m.Service? {
      ServiceFrame(s, m.name);
    } else if m.Step1? {
      Step1Frame(cfg, s, m.one);
    } else if m.Step2? {
      Step2Frame(cfg, s, m.two);
    }
  }

  /**
   * In any run a message is logged at most once, under its own method and attempt,
   * and its failure is laid to the server exactly if a plain method reported it so.
   */
  lemma LogFaithful(cfg: Config, es: seq<Event>, e: Event)
    requires Usable(cfg) && Run(cfg, Initial(), es).Runs()
    ensures LogGrows(cfg, Run(cfg, Initial(), es), Run(cfg, Initial(), es + [e]), e)
  {
    hide Run, Receive, LogGrows, Inv;
    InitialInv(cfg);
    RunInv(cfg, Initial(), es);
    RunAppend(cfg, Initial(), es, [e]);
    RunOne(cfg, Run(cfg, Initial(), es), e);
    ReceiveLogs(cfg, Run(cfg, Initial(), es), e);
  }
}
