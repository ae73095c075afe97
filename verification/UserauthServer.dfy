/** The authentication server with its context updated in place, proved against the transition system. */
module UserauthServer {
  import opened Bytes
  import opened Jpake
  import opened Userauth

  predicate Assignable(kind: int) {
    kind == SERVICE_REQUEST || kind == USERAUTH_REQUEST || kind == JPAKE_CLIENT_STEP1 || kind == INFO_RESPONSE ||
    kind == JPAKE_CLIENT_STEP2 || kind == JPAKE_CLIENT_CONFIRM
  }

  class Authctxt {
    const cfg: Config
    const dispatch: array<Handler>
    var link: Link
    var attempt: nat
    var failures: nat
    var who: Identity
    var postponed: bool
    var serverCaused: bool
    var success: bool
    var kbdint: bool
    var jpake: Option<Ctx>
    var noneEnabled: bool
    var log: seq<Entry>

    ghost predicate Valid()
      reads this, dispatch
    {
      Usable(cfg) && dispatch.Length == DISPATCH_MAX &&
      forall k :: 0 <= k < DISPATCH_MAX && !Assignable(k) ==> dispatch[k] == ProtocolError
    }

    ghost function State(): Auth
      requires Valid()
      reads this, dispatch
    {
      Auth(link, Table(dispatch[SERVICE_REQUEST], dispatch[USERAUTH_REQUEST], dispatch[JPAKE_CLIENT_STEP1],
                       dispatch[INFO_RESPONSE], dispatch[JPAKE_CLIENT_STEP2], dispatch[JPAKE_CLIENT_CONFIRM]),
           Tally(attempt, failures, log), who, postponed, serverCaused, success, kbdint, jpake, noneEnabled)
    }

    /** do_authentication2: an empty context and a table of protocol errors. */
    constructor (cfg: Config)
      requires Usable(cfg)
      ensures Valid() && fresh(dispatch) && this.cfg == cfg && State() == Initial()
    {
      this.cfg := cfg;
      dispatch := new Handler[DISPATCH_MAX](_ => ProtocolError);
      link, attempt, failures, who := Up, 0, 0, Nobody;
      postponed, serverCaused, success, kbdint, jpake, noneEnabled, log := false, false, false, false, None, true, [];
      new;
      dispatch[SERVICE_REQUEST] := OnService;
    }

    /** The part of userauth_finish from the log entry on. */
    method SettleAttempt(e: Entry)
      requires Valid() && e.postponed == postponed && e.attempt == attempt && e.serverCaused == serverCaused
      modifies this`log, this`success, this`failures, this`link, dispatch
      ensures Valid() && State() == Settle(cfg, old(State()), e)
    {
      log := log + [e];
      if postponed {
        return;
      }
      if e.granted {
        dispatch[USERAUTH_REQUEST] := ProtocolIgnore;
        success := true;
      } else {
        if !serverCaused && (attempt > 1 || e.how != METHOD_NONE) {
          failures := failures + 1;
        }
        if failures >= cfg.maxTries {
          link := Closed;
        }
      }
    }

    method FinishUserauth(authenticated: bool, how: string, forced: bool)
      requires Valid()
      modifies this, dispatch
      ensures Valid() && State() == Finish(cfg, old(State()), authenticated, how, forced)
    {
      hide RootAllowed, Settle, Assignable;
      var ok := authenticated;
      if !(who.Identity? && who.valid) && ok {
        link := Closed;
        return;
      }
      if ok && who.Identity? && who.uid == 0 && !RootAllowed(cfg.permit, how, forced) {
        ok := false;
      }
      SettleAttempt(Entry(how, ok, postponed, serverCaused, attempt, forced));
    }

    method InputServiceRequest(name: string)
      requires Valid()
      modifies this, dispatch
      ensures Valid() && State() == ServiceRequest(old(State()), name)
    {
      var accept := false;
      if name == "ssh-userauth" {
        if !success {
          accept := true;
          dispatch[USERAUTH_REQUEST] := OnRequest;
        }
      }
      if !accept {
        link := Closed;
      }
    }

    method StopChallenge()
      requires Valid()
      modifies this`kbdint, dispatch
      ensures Valid() && State() == ChallengeStop(old(State()))
    {
      dispatch[INFO_RESPONSE] := Null;
      if kbdint {
        kbdint := false;
      }
    }

    method StartChallenge(started: bool)
      requires Valid()
      modifies this`kbdint, this`postponed, dispatch
      ensures Valid() && State() == ChallengeStart(old(State()), started)
    {
      kbdint := true;
      if !started {
        StopChallenge();
        return;
      }
      dispatch[INFO_RESPONSE] := OnInfo;
      postponed := true;
    }

    method StopJpake()
      requires Valid()
      modifies this`jpake, dispatch
      ensures Valid() && State() == JpakeStop(old(State()))
    {
      dispatch[JPAKE_CLIENT_STEP1] := Null;
      dispatch[JPAKE_CLIENT_STEP2] := Null;
      dispatch[JPAKE_CLIENT_CONFIRM] := Null;
      if jpake.Some? {
        jpake := None;
      }
    }

    method StartJpake(d: Draw)
      requires Valid() && jpake.Some?
      modifies this, dispatch
      ensures Valid() && State() == JpakeStart(cfg, old(State()), d)
    {
      hide G, SchnorrSign;
      var one := Jpake.Step1(cfg.hash, cfg.group, d.id, d.x3, d.x4, d.v1, d.v2);
      if one.None? {
        link := Closed;
        return;
      }
      jpake := Some(jpake.value.(serverId := Some(d.id), x3 := Some(d.x3), x4 := Some(d.x4),
                                 gx3 := Some(one.value.pub1), gx4 := Some(one.value.pub2), s := Some(d.secret)));
      dispatch[JPAKE_CLIENT_STEP1] := OnStep1;
      postponed := true;
    }

    /** authmethod_lookup */
    method Lookup(how: string) returns (found: bool)
      ensures found == KnownMethod(cfg, noneEnabled, how)
    {
      for i := 0 to |AUTHMETHODS|
        invariant !(how in AUTHMETHODS[..i] && if how == METHOD_NONE then noneEnabled else cfg.enabled(how))
      {
        var enabled := if AUTHMETHODS[i] == METHOD_NONE then noneEnabled else cfg.enabled(AUTHMETHODS[i]);
        if enabled && how == AUTHMETHODS[i] {
          return true;
        }
      }
      assert AUTHMETHODS[..|AUTHMETHODS|] == AUTHMETHODS;
      return false;
    }

    method TryMethod(how: string, env: Env) returns (authenticated: bool)
      requires Valid()
      modifies this, dispatch
      ensures Valid() && (State(), authenticated) == Try(cfg, old(State()), how, env)
    {
      hide JpakeStart;
      authenticated := false;
      if how == METHOD_JPAKE {
        if jpake.None? {
          jpake := Some(NEW_CTX);
        }
        if cfg.enabled(METHOD_JPAKE) {
          StartJpake(env.draw);
        }
      } else if how == METHOD_KBDINT {
        StartChallenge(env.started);
      } else {
        postponed, serverCaused := env.outcome.postponed, env.outcome.serverCaused;
        if how == METHOD_NONE {
          noneEnabled := false;
        }
        authenticated := env.outcome.authenticated;
      }
    }

    method IdentifyUser(user: string, service: string, passwd: Option<int>)
      requires Valid()
      modifies this`attempt, this`who, this`link
      ensures Valid() && State() == Identify(old(State()), user, service, passwd)
    {
      attempt := attempt + 1;
      if attempt == 1 {
        if passwd.Some? && service == "ssh-connection" {
          who := Identity(user, service, true, passwd.value);
        } else {
          who := Identity(user, service, false, -1);
        }
      } else if who.Nobody? || user != who.user || service != who.service {
        link := Closed;
      }
    }

    method CutAtColon(name: string) returns (user: string)
      ensures user == BeforeColon(name)
    {
      var n := 0;
      while n < |name| && name[n] != ':'
        invariant 0 <= n <= |name|
        invariant BeforeColon(name) == name[..n] + BeforeColon(name[n..])
      {
        assert name[..n + 1] == name[..n] + [name[n]] && name[n..][0] == name[n] && name[n..][1..] == name[n + 1..];
        n := n + 1;
      }
      user := name[..n];
    }

    method InputUserauthRequest(user: string, service: string, how: string, env: Env)
      requires Valid() && link == Up
      modifies this, dispatch
      ensures Valid() && State() == UserauthRequest(cfg, old(State()), user, service, how, env)
    {
      hide BeforeColon, Identify, Try, Finish, KnownMethod;
      var name := CutAtColon(user);
      IdentifyUser(name, service, env.passwd);
      if link != Up {
        return;
      }
      StopChallenge();
      StopJpake();
      postponed, serverCaused := false, false;
      var authenticated := false;
      var known := Lookup(how);
      if known && failures < cfg.maxTries {
        authenticated := TryMethod(how, env);
        if link != Up {
          return;
        }
      }
      FinishUserauth(authenticated, how, env.forced);
    }

    method InputStep1(m: StepOne, v: nat)
      requires Valid()
      modifies this, dispatch
      ensures Valid() && State() == ClientStep1(cfg, old(State()), m)
    {
      hide StepValue, StepOneValid, SchnorrSign;
      dispatch[JPAKE_CLIENT_STEP1] := Null;
      if jpake.None? || !jpake.value.Started() {
        link := Crashed;
        return;
      }
      var c := jpake.value;
      var two := Jpake.Step2(cfg.hash, cfg.group, c.s.value, c.gx3.value, m, c.x4.value, c.serverId.value, v);
      if two.None? {
        link := Closed;
        return;
      }
      jpake := Some(c.(clientId := Some(m.id), gx1 := Some(m.pub1), gx2 := Some(m.pub2), b := Some(two.value.newpub)));
      dispatch[JPAKE_CLIENT_STEP2] := OnStep2;
    }

    method InputStep2(m: StepTwo)
      requires Valid()
      modifies this, dispatch
      ensures Valid() && State() == ClientStep2(cfg, old(State()), m)
    {
      hide KeyValue, SchnorrVerify, ConfirmHash, StepGenerator;
      dispatch[JPAKE_CLIENT_STEP2] := Null;
      if jpake.None? || !jpake.value.SteppedOnce() {
        link := Crashed;
        return;
      }
      var c := jpake.value;
      var k, confirm := KeyConfirm(cfg.hash, cfg.group, c.s.value, m, c.x4.value, c.gx3.value, c.gx4.value,
                                   c.gx1.value, c.gx2.value, c.serverId.value, c.clientId.value, cfg.session);
      if k.None? {
        link := Closed;
        return;
      }
      jpake := Some(c.(a := Some(m.newpub), k := k, digest := Some(confirm)));
      dispatch[JPAKE_CLIENT_CONFIRM] := OnConfirm;
    }

    method InputConfirm(digest: seq<byte>, forced: bool)
      requires Valid()
      modifies this, dispatch
      ensures Valid() && State() == ClientConfirm(cfg, old(State()), digest, forced)
    {
      hide ConfirmHash, Finish;
      dispatch[JPAKE_CLIENT_CONFIRM] := Null;
      if jpake.None? || !jpake.value.Keyed() {
        link := Crashed;
        return;
      }
      var c := jpake.value;
      var authenticated := false;
      var match_ := CheckConfirm(cfg.hash, c.k.value, c.clientId.value, cfg.session, digest);
      if match_ {
        authenticated := who.Identity? && who.valid;
      }
      postponed := false;
      jpake := None;
      FinishUserauth(authenticated, METHOD_JPAKE, forced);
    }

    method InputInfoResponse(env: Env)
      requires Valid()
      modifies this, dispatch
      ensures Valid() && State() == InfoResponse(cfg, old(State()), env)
    {
      hide Finish;
      var live := kbdint;
      postponed := false;
      if !live || env.respond.WrongCount? {
        link := Closed;
        return;
      }
      var authenticated := false;
      if env.respond.Accepted? {
        authenticated := who.Identity? && who.valid;
      } else if env.respond == MoreNeeded(true) {
        postponed := true;
      }
      if !postponed {
        if authenticated {
          StopChallenge();
        } else {
          StartChallenge(env.started);
        }
      }
      FinishUserauth(authenticated, METHOD_KBDINT + "/" + env.device, env.forced);
    }

    lemma TableEntry(kind: int)
      requires Valid() && 0 < kind < DISPATCH_MAX
      ensures State().table.Get(kind) == dispatch[kind]
    {
    }

    /** One message of dispatch_run. */
    method Deliver(e: Event)
      requires Valid() && link == Up && !success
      modifies this, dispatch
      ensures Valid() && State() == Receive(cfg, old(State()), e)
    {
      hide ServiceRequest, UserauthRequest, ClientStep1, ClientStep2, ClientConfirm, InfoResponse, Assignable;
      var kind := Type(e.msg);
      if kind <= 0 || kind >= DISPATCH_MAX {
        link := Closed;
        return;
      }
      TableEntry(kind);
      var m := e.msg;
      match dispatch[kind] {
        case ProtocolError =>
        case ProtocolIgnore =>
        case OnService =>
          if m.Service? { InputServiceRequest(m.name); } else { link := Closed; }
        case OnRequest =>
          if m.Request? { InputUserauthRequest(m.user, m.service, m.how, e.env); } else { link := Closed; }
        case OnInfo =>
          if m.Info? { InputInfoResponse(e.env); } else { link := Closed; }
        case OnStep1 =>
          if m.Step1? { InputStep1(m.one, e.env.draw.v3); } else { link := Closed; }
        case OnStep2 =>
          if m.Step2? { InputStep2(m.two); } else { link := Closed; }
        case OnConfirm =>
          if m.Confirm? { InputConfirm(m.digest, e.env.forced); } else { link := Closed; }
        case Null => link := Closed;
      }
    }

    /** dispatch_run: messages are taken until the link is down or the user is in. */
    method Serve(es: seq<Event>)
      requires Valid()
      modifies this, dispatch
      ensures Valid() && State() == Run(cfg, old(State()), es)
    {
      hide Receive;
      var i := 0;
      while i < |es| && link == Up && !success
        invariant 0 <= i <= |es| && Valid()
        invariant Run(cfg, old(State()), es) == Run(cfg, State(), es[i..])
      {
        assert es[i..][1..] == es[i + 1..];
        Deliver(es[i]);
        i := i + 1;
      }
      RunStopped(cfg, State(), es[i..]);
    }
  }

  /** A server that has stopped stays as it is. */
  lemma {:induction false} RunStopped(cfg: Config, s: Auth, es: seq<Event>)
    requires Usable(cfg) && (es == [] || !s.Runs())
    ensures Run(cfg, s, es) == s
    decreases |es|
  {
    hide Handle;
    if es != [] {
      RunStopped(cfg, s, es[1..]);
    }
  }
}
