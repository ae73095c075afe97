/** What holds of the authentication server after every sequence of messages. */
module UserauthSafety {
  import opened Bytes
  import opened Jpake
  import opened Userauth

  // ----- J-PAKE contexts

  ghost predicate AfterStart(cfg: Config, c: Ctx)
    requires Usable(cfg)
  {
    c.Started() &&
    c.gx3.value == G(cfg.group, c.x3.value) > 1 &&
    c.gx4.value == G(cfg.group, c.x4.value) > 1
  }

  ghost predicate AfterStep1(cfg: Config, c: Ctx)
    requires Usable(cfg)
  {
    AfterStart(cfg, c) && c.SteppedOnce() &&
    c.b.value == StepValue(cfg.group, c.s.value, c.gx3.value, c.gx1.value, c.gx2.value, c.x4.value) > 1 &&
    exists p, p' :: StepOneValid(cfg.hash, cfg.group, StepOne(c.clientId.value, c.gx1.value, c.gx2.value, p, p'))
  }

  ghost predicate AfterStep2(cfg: Config, c: Ctx)
    requires Usable(cfg)
  {
    AfterStep1(cfg, c) && c.Keyed() &&
    c.k.value == KeyValue(cfg.group, c.s.value, c.a.value, c.x4.value, c.gx2.value) &&
    c.digest.value == ConfirmHash(cfg.hash, c.k.value, c.serverId.value, cfg.session) &&
    exists p :: StepTwoValid(cfg, c, StepTwo(c.a.value, p))
  }

  // ----- The invariant

  /** Handlers only ever sit in their own entries. */
  predicate Placed(s: Auth) {
    s.table.service == OnService &&
    s.table.request in {ProtocolError, OnRequest, ProtocolIgnore} &&
    (s.success <==> s.table.request == ProtocolIgnore) &&
    s.table.step1 in {if s.tally.attempt == 0 then ProtocolError else Null, OnStep1} &&
    s.table.info in {if s.tally.attempt == 0 then ProtocolError else Null, OnInfo} &&
    s.table.step2 in {if s.tally.attempt == 0 then ProtocolError else Null, OnStep2} &&
    s.table.confirm in {if s.tally.attempt == 0 then ProtocolError else Null, OnConfirm}
  }

  function One(b: bool): nat { if b then 1 else 0 }

  function JpakeHandlers(s: Auth): nat {
    One(s.table.step1 == OnStep1) + One(s.table.step2 == OnStep2) + One(s.table.confirm == OnConfirm)
  }

  /** At most one subprotocol is under way, and its context lives exactly as long as its handler. */
  ghost predicate Exclusive(s: Auth) {
    JpakeHandlers(s) + One(s.table.info == OnInfo) <= 1 &&
    (s.jpake.Some? <==> JpakeHandlers(s) == 1) &&
    (s.kbdint <==> s.table.info == OnInfo) &&
    (s.jpake.Some? || s.kbdint ==> s.postponed && s.tally.attempt > 0 && !s.success && !s.serverCaused)
  }

  ghost predicate Derived(cfg: Config, s: Auth)
    requires Usable(cfg)
  {
    s.jpake.Some? ==>
      (s.table.step1 == OnStep1 ==> AfterStart(cfg, s.jpake.value)) &&
      (s.table.step2 == OnStep2 ==> AfterStep1(cfg, s.jpake.value)) &&
      (s.table.confirm == OnConfirm ==> AfterStep2(cfg, s.jpake.value))
  }

  /** Success is the last thing logged, for a valid user, and for root only where root is allowed. */
  ghost predicate Earned(cfg: Config, s: Auth) {
    s.success ==>
      s.Valid() && s.tally.log != [] &&
      var e := s.tally.log[|s.tally.log| - 1];
      e.granted && !e.postponed && (s.IsRoot() ==> RootAllowed(cfg.permit, e.how, e.forced))
  }

  ghost predicate Bounded(cfg: Config, s: Auth) {
    s.link == Up && cfg.maxTries > 0 ==> s.tally.failures < cfg.maxTries
  }

  ghost predicate Named(s: Auth) {
    (s.tally.attempt == 0 <==> s.who.Nobody?) && (s.Valid() ==> s.who.service == "ssh-connection")
  }

  ghost predicate Inv(cfg: Config, s: Auth)
    requires Usable(cfg)
  {
    s.link != Crashed && Earned(cfg, s) && Bounded(cfg, s) && Named(s) &&
    (s.link == Up ==> Placed(s) && Exclusive(s) && Derived(cfg, s))
  }

  lemma InitialInv(cfg: Config)
    requires Usable(cfg)
    ensures Inv(cfg, Initial())
  {
  }

  // ----- Every message keeps it

  lemma FinishInv(cfg: Config, s: Auth, authenticated: bool, how: string, forced: bool)
    requires Usable(cfg) && Inv(cfg, s) && s.Runs()
    requires s.jpake.Some? || s.kbdint ==> s.postponed
    ensures Inv(cfg, Finish(cfg, s, authenticated, how, forced))
  {
    hide AfterStart, AfterStep1, AfterStep2, RootAllowed;
  }

  /** The state between the start of a request and its method: nothing under way. */
  lemma ResetInv(cfg: Config, s: Auth, user: string, service: string, passwd: Option<int>)
    requires Usable(cfg) && Inv(cfg, s) && s.Runs()
    ensures var t := Identify(s, user, service, passwd);
            if t.link == Up then Inv(cfg, Reset(t)) && Reset(t).Runs() else Inv(cfg, t)
  {
    hide AfterStart, AfterStep1, AfterStep2, RootAllowed;
  }

  lemma JpakeStartInv(cfg: Config, s: Auth, d: Draw)
    requires Usable(cfg) && Inv(cfg, s) && s.Runs() && s.tally.attempt > 0 && !s.kbdint && s.jpake.None? && !s.serverCaused
    ensures var t := JpakeStart(cfg, s.(jpake := Some(NEW_CTX)), d);
            Inv(cfg, t) && (t.link == Up ==> t.postponed && t.Runs())
  {
    hide AfterStep1, AfterStep2, RootAllowed, G;
  }

  lemma TryInv(cfg: Config, s: Auth, how: string, env: Env)
    requires Usable(cfg) && Inv(cfg, s) && s.Runs() && s.tally.attempt > 0 && !s.kbdint && s.jpake.None? && !s.serverCaused
    requires how == METHOD_JPAKE ==> cfg.enabled(how)
    ensures var (t, _) := Try(cfg, s, how, env);
            Inv(cfg, t) && (t.link == Up ==> t.Runs() && (t.jpake.Some? || t.kbdint ==> t.postponed))
  {
    hide AfterStart, AfterStep1, AfterStep2, RootAllowed, JpakeStart;
    if how == METHOD_JPAKE {
      JpakeStartInv(cfg, s, env.draw);
    }
  }

  lemma RequestInv(cfg: Config, s: Auth, user: string, service: string, how: string, env: Env)
    requires Usable(cfg) && Inv(cfg, s) && s.Runs()
    ensures Inv(cfg, UserauthRequest(cfg, s, user, service, how, env))
  {
    hide Inv, BeforeColon, Try, Finish;
    var name := BeforeColon(user);
    ResetInv(cfg, s, name, service, env.passwd);
    var t := Identify(s, name, service, env.passwd);
    if t.link == Up {
      var r := Reset(t);
      if KnownMethod(cfg, r.noneEnabled, how) && r.tally.failures < cfg.maxTries {
        TryInv(cfg, r, how, env);
        var (v, authenticated) := Try(cfg, r, how, env);
        if v.link == Up {
          FinishInv(cfg, v, authenticated, how, env.forced);
        }
      } else {
        FinishInv(cfg, r, false, how, env.forced);
      }
    }
  }

  lemma Step1Inv(cfg: Config, s: Auth, m: StepOne)
    requires Usable(cfg) && Inv(cfg, s) && s.Runs() && s.table.step1 == OnStep1
    ensures Inv(cfg, ClientStep1(cfg, s, m))
  {
    hide AfterStep2, RootAllowed, G, StepValue, StepOneValid;
    assert m == StepOne(m.id, m.pub1, m.pub2, m.proof1, m.proof2);
  }

  lemma Step2Inv(cfg: Config, s: Auth, m: StepTwo)
    requires Usable(cfg) && Inv(cfg, s) && s.Runs() && s.table.step2 == OnStep2
    ensures Inv(cfg, ClientStep2(cfg, s, m))
  {
    hide RootAllowed, AfterStart, StepValue, StepOneValid, StepTwoValid, KeyValue, ConfirmHash;
    var c := s.jpake.value;
    if StepTwoValid(cfg, c, m) {
      Step2Context(cfg, c, m);
    }
  }

  lemma Step2Context(cfg: Config, c: Ctx, m: StepTwo)
    requires Usable(cfg) && AfterStep1(cfg, c) && StepTwoValid(cfg, c, m)
    ensures var k := KeyValue(cfg.group, c.s.value, m.newpub, c.x4.value, c.gx2.value);
            AfterStep2(cfg, c.(a := Some(m.newpub), k := Some(k),
                               digest := Some(ConfirmHash(cfg.hash, k, c.serverId.value, cfg.session))))
  {
    hide G, StepValue, StepOneValid, SchnorrVerify, StepGenerator, KeyValue, ConfirmHash;
    var k := KeyValue(cfg.group, c.s.value, m.newpub, c.x4.value, c.gx2.value);
    var d := c.(a := Some(m.newpub), k := Some(k),
                digest := Some(ConfirmHash(cfg.hash, k, c.serverId.value, cfg.session)));
    assert StepTwoValid(cfg, d, StepTwo(d.a.value, m.proof));
    assert AfterStep1(cfg, d);
  }

  lemma ConfirmInv(cfg: Config, s: Auth, digest: seq<byte>, forced: bool)
    requires Usable(cfg) && Inv(cfg, s) && s.Runs() && s.table.confirm == OnConfirm
    ensures Inv(cfg, ClientConfirm(cfg, s, digest, forced))
  {
    hide AfterStart, AfterStep1, RootAllowed, Finish, KeyValue, ConfirmHash, StepTwoValid;
    var c := s.jpake.value;
    var t := s.(table := s.table.(confirm := Null), postponed := false, jpake := None);
    FinishInv(cfg, t, digest == ConfirmHash(cfg.hash, c.k.value, c.clientId.value, cfg.session) && s.Valid(), METHOD_JPAKE, forced);
  }

  lemma InfoInv(cfg: Config, s: Auth, env: Env)
    requires Usable(cfg) && Inv(cfg, s) && s.Runs() && s.table.info == OnInfo
    ensures Inv(cfg, InfoResponse(cfg, s, env))
  {
    hide AfterStart, AfterStep1, AfterStep2, RootAllowed, Finish;
    var how := METHOD_KBDINT + "/" + env.device;
    if env.respond.WrongCount? {
    } else if env.respond == MoreNeeded(true) {
      FinishInv(cfg, s.(postponed := true), false, how, env.forced);
    } else if env.respond.Accepted? && s.Valid() {
      FinishInv(cfg, ChallengeStop(s.(postponed := false)), true, how, env.forced);
    } else {
      FinishInv(cfg, ChallengeStart(s.(postponed := false), env.started), false, how, env.forced);
    }
  }

  lemma ServiceInv(cfg: Config, s: Auth, name: string)
    requires Usable(cfg) && Inv(cfg, s) && s.Runs()
    ensures Inv(cfg, ServiceRequest(s, name))
  {
    hide AfterStart, AfterStep1, AfterStep2, RootAllowed;
  }

  lemma OtherInv(cfg: Config, s: Auth)
    requires Usable(cfg) && Inv(cfg, s)
    ensures Inv(cfg, s.(link := Closed))
  {
    hide AfterStart, AfterStep1, AfterStep2, RootAllowed;
  }

  /** Each handler is found under the message type it is meant for and under no other. */
  lemma Dispatched(cfg: Config, s: Auth, kind: int)
    requires Usable(cfg) && Inv(cfg, s) && s.Runs()
    ensures var h := s.table.Get(kind);
            (h == OnService <==> kind == SERVICE_REQUEST) &&
            (h == OnRequest <==> kind == USERAUTH_REQUEST && s.table.request == OnRequest) &&
            (h == OnInfo <==> kind == INFO_RESPONSE && s.table.info == OnInfo) &&
            (h == OnStep1 <==> kind == JPAKE_CLIENT_STEP1 && s.table.step1 == OnStep1) &&
            (h == OnStep2 <==> kind == JPAKE_CLIENT_STEP2 && s.table.step2 == OnStep2) &&
            (h == OnConfirm <==> kind == JPAKE_CLIENT_CONFIRM && s.table.confirm == OnConfirm)
  {
    hide AfterStart, AfterStep1, AfterStep2, RootAllowed;
  }

  lemma ReceiveInv(cfg: Config, s: Auth, e: Event)
    requires Usable(cfg) && Inv(cfg, s)
    ensures Inv(cfg, Receive(cfg, s, e))
  {
    hide Inv, ServiceRequest, UserauthRequest, ClientStep1, ClientStep2, ClientConfirm, InfoResponse, Table.Get;
    OtherInv(cfg, s);
    if s.Runs() {
      Dispatched(cfg, s, Type(e.msg));
      var (h, m) := (s.table.Get(Type(e.msg)), e.msg);
      if h == OnService && m.Service? {
        ServiceInv(cfg, s, m.name);
      } else if h == OnRequest && m.Request? {
        RequestInv(cfg, s, m.user, m.service, m.how, e.env);
      } else if h == OnInfo && m.Info? {
        InfoInv(cfg, s, e.env);
      } else if h == OnStep1 && m.Step1? {
        Step1Inv(cfg, s, m.one);
      } else if h == OnStep2 && m.Step2? {
        Step2Inv(cfg, s, m.two);
      } else if h == OnConfirm && m.Confirm? {
        ConfirmInv(cfg, s, m.digest, e.env.forced);
      }
    }
  }

  lemma {:induction false} RunInv(cfg: Config, s: Auth, es: seq<Event>)
    requires Usable(cfg) && Inv(cfg, s)
    ensures Inv(cfg, Run(cfg, s, es))
    decreases |es|
  {
    hide Inv, Receive;
    if es != [] {
      ReceiveInv(cfg, s, es[0]);
      RunInv(cfg, Receive(cfg, s, es[0]), es[1..]);
    }
  }

  // ----- Over every run

  /**
   * After any messages: no handler has used a missing context or field, at most
   * one J-PAKE handler is enabled, its context holds what the earlier steps
   * computed, and a login was granted to a valid user within the limits.
   */
  lemma AuthenticationSafety(cfg: Config, es: seq<Event>)
    requires Usable(cfg)
    ensures var s := Run(cfg, Initial(), es);
            s.link != Crashed && Earned(cfg, s) && Bounded(cfg, s) &&
            (s.link == Up ==> JpakeHandlers(s) <= 1 && (s.jpake.Some? <==> JpakeHandlers(s) == 1) && Derived(cfg, s))
  {
    hide Run, Earned, Bounded, Derived, Placed;
    InitialInv(cfg);
    RunInv(cfg, Initial(), es);
  }

  lemma {:induction false} RunAppend(cfg: Config, s: Auth, es: seq<Event>, fs: seq<Event>)
    requires Usable(cfg)
    ensures Run(cfg, s, es + fs) == Run(cfg, Run(cfg, s, es), fs)
    decreases |es|
  {
    hide Receive;
    if es == [] {
      assert es + fs == fs;
    } else {
      assert (es + fs)[1..] == es[1..] + fs;
      RunAppend(cfg, Receive(cfg, s, es[0]), es[1..], fs);
    }
  }

  /** Userauth_finish touches the log, the counter, the link and the request entry only. */
  lemma FinishFrame(cfg: Config, s: Auth, authenticated: bool, how: string, forced: bool)
    ensures var t := Finish(cfg, s, authenticated, how, forced);
            s.who == t.who && t.tally.attempt == s.tally.attempt && t.jpake == s.jpake && t.kbdint == s.kbdint &&
            (!authenticated ==> t.success == s.success)
  {
    hide RootAllowed;
  }

  predicate SameHistory(s: Auth, t: Auth) {
    s.who == t.who && s.tally == t.tally && t.success == s.success
  }

  lemma JpakeStartFrame(cfg: Config, s: Auth, d: Draw)
    requires Usable(cfg) && s.jpake.Some?
    ensures SameHistory(s, JpakeStart(cfg, s, d))
  {
    hide G;
  }

  lemma TryFrame(cfg: Config, s: Auth, how: string, env: Env)
    requires Usable(cfg)
    ensures SameHistory(s, Try(cfg, s, how, env).0)
  {
    hide JpakeStart;
    JpakeStartFrame(cfg, if s.jpake.None? then s.(jpake := Some(NEW_CTX)) else s, env.draw);
  }

  lemma ServiceFrame(s: Auth, name: string)
    ensures SameHistory(s, ServiceRequest(s, name))
  {
  }

  lemma ResetFrame(s: Auth)
    ensures SameHistory(s, Reset(s)) && Reset(s).jpake.None? && !Reset(s).kbdint
  {
  }

  lemma RequestIdentity(cfg: Config, s: Auth, user: string, service: string, how: string, env: Env)
    requires Usable(cfg)
    ensures var t := UserauthRequest(cfg, s, user, service, how, env);
            t.tally.attempt == s.tally.attempt + 1 && (s.tally.attempt > 0 ==> s.who == t.who)
  {
    hide BeforeColon, KnownMethod, Reset, Try, Finish;
    var t := Identify(s, BeforeColon(user), service, env.passwd);
    var r := Reset(t);
    ResetFrame(t);
    TryFrame(cfg, r, how, env);
    var (v, authenticated) := Try(cfg, r, how, env);
    FinishFrame(cfg, v, authenticated, how, env.forced);
    FinishFrame(cfg, r, false, how, env.forced);
  }

  lemma InfoFrame(cfg: Config, s: Auth, env: Env)
    ensures var t := InfoResponse(cfg, s, env); s.who == t.who && t.tally.attempt == s.tally.attempt
  {
    hide Finish;
    var how := METHOD_KBDINT + "/" + env.device;
    FinishFrame(cfg, s.(postponed := true), false, how, env.forced);
    FinishFrame(cfg, ChallengeStop(s.(postponed := false)), true, how, env.forced);
    FinishFrame(cfg, ChallengeStart(s.(postponed := false), env.started), false, how, env.forced);
  }

  lemma Step1Frame(cfg: Config, s: Auth, m: StepOne)
    requires Usable(cfg)
    ensures SameHistory(s, ClientStep1(cfg, s, m))
  {
    hide StepValue, StepOneValid;
  }

  lemma Step2Frame(cfg: Config, s: Auth, m: StepTwo)
    requires Usable(cfg)
    ensures SameHistory(s, ClientStep2(cfg, s, m))
  {
    hide StepTwoValid, KeyValue, ConfirmHash;
  }

  lemma ConfirmFrame(cfg: Config, s: Auth, digest: seq<byte>, forced: bool)
    ensures var t := ClientConfirm(cfg, s, digest, forced); s.who == t.who && t.tally.attempt == s.tally.attempt
  {
    hide Finish, ConfirmHash;
    var t := s.(table := s.table.(confirm := Null), postponed := false, jpake := None);
    FinishFrame(cfg, t, true, METHOD_JPAKE, forced);
    FinishFrame(cfg, t, false, METHOD_JPAKE, forced);
  }

  lemma ReceiveIdentity(cfg: Config, s: Auth, e: Event)
    requires Usable(cfg)
    ensures Receive(cfg, s, e).tally.attempt >= s.tally.attempt
    ensures s.tally.attempt > 0 ==> s.who == Receive(cfg, s, e).who
  {
    hide ServiceRequest, UserauthRequest, ClientStep1, ClientStep2, ClientConfirm, InfoResponse, Table.Get, Type;
    if s.Runs() {
      var (h, m) := (s.table.Get(Type(e.msg)), e.msg);
      if h == OnService && m.Service? {
        ServiceFrame(s, m.name);
      } else if h == OnRequest && m.Request? {
        RequestIdentity(cfg, s, m.user, m.service, m.how, e.env);
      } else if h == OnInfo && m.Info? {
        InfoFrame(cfg, s, e.env);
      } else if h == OnStep1 && m.Step1? {
        Step1Frame(cfg, s, m.one);
      } else if h == OnStep2 && m.Step2? {
        Step2Frame(cfg, s, m.two);
      } else if h == OnConfirm && m.Confirm? {
        ConfirmFrame(cfg, s, m.digest, e.env.forced);
      }
    }
  }

  lemma {:induction false} RunIdentity(cfg: Config, s: Auth, es: seq<Event>)
    requires Usable(cfg) && s.tally.attempt > 0
    ensures s.who == Run(cfg, s, es).who
    decreases |es|
  {
    hide Receive;
    if es != [] {
      ReceiveIdentity(cfg, s, es[0]);
      RunIdentity(cfg, Receive(cfg, s, es[0]), es[1..]);
    }
  }

  /** Once the first request has named them, the user and the service never change. */
  lemma IdentityFixed(cfg: Config, es: seq<Event>, fs: seq<Event>)
    requires Usable(cfg)
    ensures var s := Run(cfg, Initial(), es);
            s.who.Identity? ==> s.who == Run(cfg, Initial(), es + fs).who
  {
    hide Run, Placed, Exclusive, Derived, Earned, Bounded;
    InitialInv(cfg);
    RunInv(cfg, Initial(), es);
    RunAppend(cfg, Initial(), es, fs);
    if Run(cfg, Initial(), es).who.Identity? {
      RunIdentity(cfg, Run(cfg, Initial(), es), fs);
    }
  }

  // ----- The failure counter

  datatype Kind = Charge | ProbeNone | ServerFault | Refusal

  predicate Is(e: Entry, kind: Kind) {
    !e.granted && !e.postponed &&
    match kind
    case Charge => !e.serverCaused && !(e.attempt <= 1 && e.how == "none")
    case ProbeNone => e.attempt <= 1 && e.how == "none"
    case ServerFault => e.serverCaused
    case Refusal => true
  }

  function Count(log: seq<Entry>, kind: Kind): nat {
    if log == [] then 0 else Count(log[..|log| - 1], kind) + One(Is(log[|log| - 1], kind))
  }

  lemma CountNext(log: seq<Entry>, e: Entry, kind: Kind)
    ensures Count(log + [e], kind) == Count(log, kind) + One(Is(e, kind))
  {
    assert (log + [e])[..|log|] == log;
  }

  /** The counter is the number of charged failures in the log, and at most one "none" was let off. */
  ghost predicate Tallied(s: Auth) {
    s.tally.failures == Count(s.tally.log, Charge) && Count(s.tally.log, ProbeNone) <= One(s.tally.attempt > 0)
  }

  lemma FinishTallied(cfg: Config, s: Auth, authenticated: bool, how: string, forced: bool)
    requires Tallied(s)
    requires how == METHOD_NONE && s.tally.attempt <= 1 ==> s.tally.attempt == 1 && Count(s.tally.log, ProbeNone) == 0
    ensures Tallied(Finish(cfg, s, authenticated, how, forced))
  {
    hide RootAllowed, Count;
    var granted := authenticated && (!s.IsRoot() || RootAllowed(cfg.permit, how, forced));
    var e := Entry(how, granted, s.postponed, s.serverCaused, s.tally.attempt, forced);
    CountNext(s.tally.log, e, Charge);
    CountNext(s.tally.log, e, ProbeNone);
  }

  lemma RequestTallied(cfg: Config, s: Auth, user: string, service: string, how: string, env: Env)
    requires Usable(cfg) && Tallied(s)
    ensures Tallied(UserauthRequest(cfg, s, user, service, how, env))
  {
    hide BeforeColon, Finish, Count, Try, Reset, KnownMethod;
    var t := Identify(s, BeforeColon(user), service, env.passwd);
    if t.link == Up {
      var r := Reset(t);
      var (v, authenticated) := Try(cfg, r, how, env);
      ResetFrame(t);
      TryFrame(cfg, r, how, env);
      if KnownMethod(cfg, r.noneEnabled, how) && r.tally.failures < cfg.maxTries {
        FinishTallied(cfg, v, authenticated, how, env.forced);
      } else {
        FinishTallied(cfg, r, false, how, env.forced);
      }
    }
  }

  lemma InfoTallied(cfg: Config, s: Auth, env: Env)
    requires Tallied(s)
    ensures Tallied(InfoResponse(cfg, s, env))
  {
    hide Finish, Count;
    var how := METHOD_KBDINT + "/" + env.device;
    assert |how| > |METHOD_NONE|;
    FinishTallied(cfg, s.(postponed := true), false, how, env.forced);
    FinishTallied(cfg, ChallengeStop(s.(postponed := false)), true, how, env.forced);
    FinishTallied(cfg, ChallengeStart(s.(postponed := false), env.started), false, how, env.forced);
  }

  lemma ConfirmTallied(cfg: Config, s: Auth, digest: seq<byte>, forced: bool)
    requires Tallied(s)
    ensures Tallied(ClientConfirm(cfg, s, digest, forced))
  {
    hide Finish, Count, ConfirmHash;
    var t := s.(table := s.table.(confirm := Null), postponed := false, jpake := None);
    assert |METHOD_JPAKE| > |METHOD_NONE|;
    FinishTallied(cfg, t, true, METHOD_JPAKE, forced);
    FinishTallied(cfg, t, false, METHOD_JPAKE, forced);
  }

  lemma ReceiveTallied(cfg: Config, s: Auth, e: Event)
    requires Usable(cfg) && Tallied(s)
    ensures Tallied(Receive(cfg, s, e))
  {
    hide ServiceRequest, UserauthRequest, ClientStep1, ClientStep2, ClientConfirm, InfoResponse, Count, Table.Get, Type;
    if s.Runs() {
      var (h, m) := (s.table.Get(Type(e.msg)), e.msg);
      if h == OnService && m.Service? {
        ServiceFrame(s, m.name);
      } else if h == OnRequest && m.Request? {
        RequestTallied(cfg, s, m.user, m.service, m.how, e.env);
      } else if h == OnInfo && m.Info? {
        InfoTallied(cfg, s, e.env);
      } else if h == OnStep1 && m.Step1? {
        Step1Frame(cfg, s, m.one);
      } else if h == OnStep2 && m.Step2? {
        Step2Frame(cfg, s, m.two);
      } else if h == OnConfirm && m.Confirm? {
        ConfirmTallied(cfg, s, m.digest, e.env.forced);
      }
    }
  }

  lemma {:induction false} RunTallied(cfg: Config, s: Auth, es: seq<Event>)
    requires Usable(cfg) && Tallied(s)
    ensures Tallied(Run(cfg, s, es))
    decreases |es|
  {
    hide Receive, Tallied;
    if es != [] {
      ReceiveTallied(cfg, s, es[0]);
      RunTallied(cfg, Receive(cfg, s, es[0]), es[1..]);
    }
  }

  lemma {:induction false} RefusalsSplit(log: seq<Entry>)
    ensures Count(log, Refusal) <= Count(log, Charge) + Count(log, ProbeNone) + Count(log, ServerFault)
  {
    if log != [] {
      RefusalsSplit(log[..|log| - 1]);
    }
  }

  /**
   * Every refusal the client ever got is charged, apart from those the server
   * caused and one initial "none": so while connected the client has had at
   * most maxTries refusals beyond the server's own faults.
   */
  lemma RefusalsBounded(cfg: Config, es: seq<Event>)
    requires Usable(cfg) && cfg.maxTries > 0
    ensures var s := Run(cfg, Initial(), es);
            s.tally.failures == Count(s.tally.log, Charge) && Count(s.tally.log, ProbeNone) <= 1 &&
            (s.link == Up ==> Count(s.tally.log, Refusal) <= cfg.maxTries + Count(s.tally.log, ServerFault))
  {
    hide Run, Count, Placed, Exclusive, Derived, Earned, Named;
    InitialTallied();
    InitialInv(cfg);
    RunTallied(cfg, Initial(), es);
    RunInv(cfg, Initial(), es);
    RefusalsSplit(Run(cfg, Initial(), es).tally.log);
  }

  lemma InitialTallied()
    ensures Tallied(Initial())
  {
  }

  // ----- No tries at all

  predicate Shut(s: Auth) {
    !s.success && s.jpake.None? && !s.kbdint
  }

  lemma ReceiveShut(cfg: Config, s: Auth, e: Event)
    requires Usable(cfg) && cfg.maxTries <= 0 && Inv(cfg, s) && Shut(s)
    ensures Shut(Receive(cfg, s, e))
  {
    hide Placed, Derived, Earned, UserauthRequest, ClientStep1, ClientStep2, ClientConfirm, InfoResponse, Table.Get;
    if s.Runs() {
      Dispatched(cfg, s, Type(e.msg));
      var (h, m) := (s.table.Get(Type(e.msg)), e.msg);
      if h == OnRequest && m.Request? {
        RequestShut(cfg, s, m.user, m.service, m.how, e.env);
      }
    }
  }

  lemma RequestShut(cfg: Config, s: Auth, user: string, service: string, how: string, env: Env)
    requires Usable(cfg) && cfg.maxTries <= 0 && Shut(s)
    ensures Shut(UserauthRequest(cfg, s, user, service, how, env))
  {
    hide BeforeColon, Try, Reset, Finish, KnownMethod;
    var t := Identify(s, BeforeColon(user), service, env.passwd);
    ResetFrame(t);
    FinishFrame(cfg, Reset(t), false, how, env.forced);
  }

  lemma {:induction false} RunShut(cfg: Config, s: Auth, es: seq<Event>)
    requires Usable(cfg) && cfg.maxTries <= 0 && Inv(cfg, s) && Shut(s)
    ensures Shut(Run(cfg, s, es))
    decreases |es|
  {
    hide Receive, Inv, Shut;
    if es != [] {
      ReceiveInv(cfg, s, es[0]);
      ReceiveShut(cfg, s, es[0]);
      RunShut(cfg, Receive(cfg, s, es[0]), es[1..]);
    }
  }

  ghost predicate BelowLimit(cfg: Config, es: seq<Event>)
    requires Usable(cfg)
  {
    var s := Run(cfg, Initial(), es);
    s.link == Up ==> s.tally.failures < cfg.maxTries
  }

  /**
   * The counter stays below the limit while connected exactly when the limit
   * is positive; with any other limit nobody ever gets in.
   */
  lemma LimitMustBePositive(cfg: Config)
    requires Usable(cfg)
    ensures (forall es :: BelowLimit(cfg, es)) <==> cfg.maxTries > 0
    ensures cfg.maxTries <= 0 ==> forall es :: !Run(cfg, Initial(), es).success
  {
    hide Derived, Earned, Placed, Receive;
    InitialInv(cfg);
    if cfg.maxTries > 0 {
      forall es
        ensures BelowLimit(cfg, es)
      {
        RunInv(cfg, Initial(), es);
      }
    } else {
      assert !BelowLimit(cfg, []);
      forall es
        ensures !Run(cfg, Initial(), es).success
      {
        RunShut(cfg, Initial(), es);
      }
    }
  }

  // ----- A J-PAKE login

  /** The digest the server waits for, from the values its context was built of. */
  function Expected(cfg: Config, c: Ctx): seq<byte>
    requires Usable(cfg) && c.Keyed()
  {
    var k := KeyValue(cfg.group, c.s.value, c.a.value, c.x4.value, c.gx2.value);
    ConfirmHash(cfg.hash, k, c.clientId.value, cfg.session)
  }

  /** In any run the confirmation logs the user in exactly when it is the digest of the derived key, for a user who may. */
  lemma JpakeLogin(cfg: Config, es: seq<Event>, digest: seq<byte>, env: Env)
    requires Usable(cfg)
    requires var s := Run(cfg, Initial(), es); s.Runs() && s.table.confirm == OnConfirm
    ensures var s := Run(cfg, Initial(), es);
            var t := Run(cfg, Initial(), es + [Event(Confirm(digest), env)]);
            s.jpake.Some? && AfterStep2(cfg, s.jpake.value) && t.jpake.None? &&
            (t.success <==>
             digest == Expected(cfg, s.jpake.value) && s.Valid() &&
             (s.IsRoot() ==> RootAllowed(cfg.permit, METHOD_JPAKE, env.forced)))
  {
    hide AfterStart, AfterStep1, StepTwoValid, KeyValue, ConfirmHash, RootAllowed, Earned, Bounded;
    var e := Event(Confirm(digest), env);
    InitialInv(cfg);
    RunInv(cfg, Initial(), es);
    RunAppend(cfg, Initial(), es, [e]);
    var s := Run(cfg, Initial(), es);
    RunOne(cfg, s, e);
  }

  lemma RunOne(cfg: Config, s: Auth, e: Event)
    requires Usable(cfg)
    ensures Run(cfg, s, [e]) == Receive(cfg, s, e)
  {
    hide Receive;
    assert [e][1..] == [];
  }

  /**
   * A client that ran the protocol honestly against this context sends the digest
   * the server waits for whenever the secrets agree, and with different secrets
   * only through a collision of the hash.
   */
  lemma HonestClient(cfg: Config, c: Ctx, x: Secrets)
    requires Usable(cfg) && ValidGroup(cfg.group) && x.InRange(cfg.group.q) && AfterStep2(cfg, c)
    requires x.x3 == c.x3.value && x.x4 == c.x4.value && x.server == c.s.value
    requires c.gx1.value == G(cfg.group, x.x1) && c.gx2.value == G(cfg.group, x.x2) && c.a.value == x.A(cfg.group)
    ensures var k := x.ClientKey(cfg.group);
            var digest := ConfirmHash(cfg.hash, k, c.clientId.value, cfg.session);
            (x.Gap() % cfg.group.q == 0 ==> digest == Expected(cfg, c)) &&
            (x.Gap() % cfg.group.q != 0 && digest == Expected(cfg, c) ==>
             Collision(cfg.hash, ConfirmBytes(k, c.clientId.value, cfg.session),
                       ConfirmBytes(x.ServerKey(cfg.group), c.clientId.value, cfg.session)))
  {
    hide AfterStart, AfterStep1, StepTwoValid, KeyValue, ConfirmBytes, G, Secrets.Gap, Secrets.A, Secrets.B, ValidGroup;
    Agreement(cfg.group, x);
    var id := c.clientId.value;
    assert Expected(cfg, c) == ConfirmHash(cfg.hash, x.ServerKey(cfg.group), id, cfg.session);
    if ConfirmBytes(x.ClientKey(cfg.group), id, cfg.session) == ConfirmBytes(x.ServerKey(cfg.group), id, cfg.session) {
      ConfirmBytesInjective(x.ClientKey(cfg.group), x.ServerKey(cfg.group), id, cfg.session);
    }
  }
}
