/** A whole J-PAKE login: what an honest client achieves against the server, from its first message to its last. */
module UserauthLogin {
  import opened Bytes
  import opened Jpake
  import opened NumberTheory
  import opened Userauth
  import opened UserauthSafety

  /** The client's identity and the random numbers of its three proofs; its exponents and secret are in `x`. */
  datatype Honest = Honest(x: Secrets, id: seq<byte>, v1: nat, v2: nat, v3: nat)

  function Signed(proof: Option<Proof>): Proof { if proof.Some? then proof.value else Proof(0, 0) }

  function SignPublic(cfg: Config, id: seq<byte>, x: nat, v: nat): Proof
    requires Usable(cfg)
  {
    var g := cfg.group;
    Signed(SchnorrSign(cfg.hash, g.p, g.q, g.g, x, G(g, x), id, v))
  }

  function One(cfg: Config, h: Honest): StepOne
    requires Usable(cfg)
  {
    var g := cfg.group;
    StepOne(h.id, G(g, h.x.x1), G(g, h.x.x2), SignPublic(cfg, h.id, h.x.x1, h.v1), SignPublic(cfg, h.id, h.x.x2, h.v2))
  }

  function Two(cfg: Config, h: Honest): StepTwo
    requires Usable(cfg)
  {
    var (g, x) := (cfg.group, h.x);
    var gen := StepGenerator(g, G(g, x.x1), G(g, x.x3), G(g, x.x4));
    StepTwo(x.A(g), Signed(SchnorrSign(cfg.hash, g.p, g.q, gen, ModMul(x.x2, x.client, g.q), x.A(g), h.id, h.v3)))
  }

  function Digest(cfg: Config, h: Honest): seq<byte>
    requires Usable(cfg)
  {
    ConfirmHash(cfg.hash, h.x.ClientKey(cfg.group), h.id, cfg.session)
  }

  /** The messages of an honest client; it stops itself when its step-2 value is degenerate. */
  function Messages(cfg: Config, h: Honest, user: string, service: string, envs: seq<Env>): seq<Event>
    requires Usable(cfg) && |envs| == 5
  {
    [Event(Service("ssh-userauth"), envs[0])] +
    ([Event(Request(user, service, METHOD_JPAKE), envs[1])] +
     ([Event(Step1(One(cfg, h)), envs[2])] +
      if h.x.A(cfg.group) <= 1 then [] else
        [Event(Step2(Two(cfg, h)), envs[3])] + [Event(Confirm(Digest(cfg, h)), envs[4])]))
  }

  lemma RunCons(cfg: Config, s: Auth, e: Event, es: seq<Event>)
    requires Usable(cfg)
    ensures Run(cfg, s, [e] + es) == Run(cfg, Receive(cfg, s, e), es)
  {
    hide Receive;
    assert ([e] + es)[1..] == es;
  }

  // ----- The request

  predicate Offered(cfg: Config) { cfg.enabled(METHOD_JPAKE) && cfg.maxTries > 0 }

  /** A context as the request fills it in. */
  function Begun(cfg: Config, d: Draw): Ctx
    requires Usable(cfg)
  {
    NEW_CTX.(serverId := Some(d.id), x3 := Some(d.x3), x4 := Some(d.x4), gx3 := Some(G(cfg.group, d.x3)),
             gx4 := Some(G(cfg.group, d.x4)), s := Some(d.secret))
  }

  /** Who a first request says it is. */
  function Claimed(user: string, service: string, passwd: Option<int>): Identity {
    var valid := passwd.Some? && service == "ssh-connection";
    Identity(BeforeColon(user), service, valid, if valid then passwd.value else -1)
  }

  predicate NoJpake(s: Auth) {
    !s.success && s.table.step1 != OnStep1 && s.table.step2 != OnStep2 && s.table.confirm != OnConfirm
  }

  lemma Requested(cfg: Config, user: string, service: string, env0: Env, env: Env)
    requires Usable(cfg) && G(cfg.group, env.draw.x3) > 1 && G(cfg.group, env.draw.x4) > 1
    ensures var s := Receive(cfg, Initial(), Event(Service("ssh-userauth"), env0));
            var t := Receive(cfg, s, Event(Request(user, service, METHOD_JPAKE), env));
            if Offered(cfg)
            then t.Runs() && t.table.step1 == OnStep1 && t.jpake == Some(Begun(cfg, env.draw)) &&
                 t.who == Claimed(user, service, env.passwd)
            else NoJpake(t)
  {
    hide G, BeforeColon, RootAllowed;
    assert METHOD_JPAKE in AUTHMETHODS && METHOD_JPAKE != METHOD_NONE;
  }

  // ----- Steps 1 and 2

  lemma OneIsValid(cfg: Config, h: Honest)
    requires Usable(cfg) && ValidGroup(cfg.group) && h.x.InRange(cfg.group.q)
    ensures StepOneValid(cfg.hash, cfg.group, One(cfg, h))
  {
    hide G, SchnorrSign, SchnorrVerify, ValidGroup;
    HonestPublic(cfg.hash, cfg.group, h.id, h.x.x1, h.v1);
    HonestPublic(cfg.hash, cfg.group, h.id, h.x.x2, h.v2);
  }

  /** The context after an honest step 1. */
  function Met(cfg: Config, h: Honest, d: Draw): Ctx
    requires Usable(cfg)
  {
    var g := cfg.group;
    Begun(cfg, d).(clientId := Some(h.id), gx1 := Some(G(g, h.x.x1)), gx2 := Some(G(g, h.x.x2)), b := Some(h.x.B(g)))
  }

  /** The draw of the server that goes with the exponents. */
  predicate Fits(x: Secrets, d: Draw) { d.x3 == x.x3 && d.x4 == x.x4 && d.secret == x.server }

  lemma FirstStep(cfg: Config, h: Honest, s: Auth, d: Draw, env: Env)
    requires Usable(cfg) && ValidGroup(cfg.group) && h.x.InRange(cfg.group.q) && Fits(h.x, d)
    requires s.Runs() && s.table.step1 == OnStep1 && s.jpake == Some(Begun(cfg, d))
    ensures var t := Receive(cfg, s, Event(Step1(One(cfg, h)), env));
            if h.x.ServerStep() % cfg.group.q != 0
            then t.Runs() && t.table.step2 == OnStep2 && t.jpake == Some(Met(cfg, h, d)) && t.who == s.who
            else !t.Runs() && !t.success
  {
    hide G, StepValue, StepOneValid, SignPublic, ValidGroup, Secrets.InRange;
    OneIsValid(cfg, h);
    var x := h.x;
    assert x.B(cfg.group) > 1 <==> x.ServerStep() % cfg.group.q != 0 by {
      ServerStepValue(cfg.group, x);
    }
  }

  lemma ServerStepValue(g: Group, x: Secrets)
    requires ValidGroup(g) && x.InRange(g.q)
    ensures x.B(g) > 1 <==> x.ServerStep() % g.q != 0
    ensures x.A(g) > 1 <==> x.ClientStep() % g.q != 0
  {
    hide G, StepValue, ValidGroup;
    StepValueAboveOne(g, x.server, x.x3, x.x1, x.x2, x.x4);
    StepValueAboveOne(g, x.client, x.x1, x.x3, x.x4, x.x2);
  }

  lemma TwoIsValid(cfg: Config, h: Honest, d: Draw)
    requires Usable(cfg) && ValidGroup(cfg.group) && Fits(h.x, d) && h.x.A(cfg.group) > 1
    ensures Met(cfg, h, d).SteppedOnce() && StepTwoValid(cfg, Met(cfg, h, d), Two(cfg, h))
  {
    hide G, StepValue, StepGenerator, SchnorrSign, SchnorrVerify, ValidGroup, ModMul;
    var x := h.x;
    HonestStepTwo(cfg.hash, cfg.group, x.client, x.x1, x.x3, x.x4, x.x2, h.id, h.v3);
  }

  /** The context after an honest step 2. */
  function Agreed(cfg: Config, h: Honest, d: Draw): Ctx
    requires Usable(cfg)
  {
    var k := h.x.ServerKey(cfg.group);
    Met(cfg, h, d).(a := Some(h.x.A(cfg.group)), k := Some(k), digest := Some(ConfirmHash(cfg.hash, k, d.id, cfg.session)))
  }

  lemma SecondStep(cfg: Config, h: Honest, s: Auth, d: Draw, env: Env)
    requires Usable(cfg) && ValidGroup(cfg.group) && Fits(h.x, d) && h.x.A(cfg.group) > 1
    requires s.Runs() && s.table.step2 == OnStep2 && s.jpake == Some(Met(cfg, h, d))
    ensures var t := Receive(cfg, s, Event(Step2(Two(cfg, h)), env));
            t.Runs() && t.table.confirm == OnConfirm && t.jpake == Some(Agreed(cfg, h, d)) && t.who == s.who
  {
    hide G, Secrets.A, Secrets.B, KeyValue, StepTwoValid, SchnorrSign, ValidGroup, ConfirmHash;
    TwoIsValid(cfg, h, d);
  }

  // ----- The confirmation

  /** The key the client confirms is the server's, or the hash does not tell the two apart. */
  predicate Confirmed(cfg: Config, h: Honest)
    requires Usable(cfg)
  {
    h.x.Gap() % cfg.group.q == 0 ||
    Collision(cfg.hash, ConfirmBytes(h.x.ClientKey(cfg.group), h.id, cfg.session),
              ConfirmBytes(h.x.ServerKey(cfg.group), h.id, cfg.session))
  }

  lemma DigestMatches(cfg: Config, h: Honest)
    requires Usable(cfg) && ValidGroup(cfg.group) && h.x.InRange(cfg.group.q)
    ensures Digest(cfg, h) == ConfirmHash(cfg.hash, h.x.ServerKey(cfg.group), h.id, cfg.session) <==> Confirmed(cfg, h)
  {
    hide ConfirmBytes, Secrets.Gap, Secrets.ClientKey, Secrets.ServerKey, ValidGroup;
    Agreement(cfg.group, h.x);
    var (ck, sk) := (h.x.ClientKey(cfg.group), h.x.ServerKey(cfg.group));
    if ConfirmBytes(ck, h.id, cfg.session) == ConfirmBytes(sk, h.id, cfg.session) {
      ConfirmBytesInjective(ck, sk, h.id, cfg.session);
    }
  }

  predicate MayLogin(cfg: Config, who: Identity, forced: bool) {
    who.Identity? && who.valid && (who.uid == 0 ==> RootAllowed(cfg.permit, METHOD_JPAKE, forced))
  }

  lemma LastStep(cfg: Config, h: Honest, s: Auth, d: Draw, env: Env)
    requires Usable(cfg) && ValidGroup(cfg.group) && h.x.InRange(cfg.group.q)
    requires s.Runs() && s.table.confirm == OnConfirm && s.jpake == Some(Agreed(cfg, h, d))
    ensures Receive(cfg, s, Event(Confirm(Digest(cfg, h)), env)).success <==>
            Confirmed(cfg, h) && MayLogin(cfg, s.who, env.forced)
  {
    hide G, Secrets.A, Secrets.B, Secrets.ServerKey, Confirmed, Digest, ConfirmHash, RootAllowed, ValidGroup;
    DigestMatches(cfg, h);
  }

  /** A server that is not in the subprotocol, or gone, is not logged in to by its messages. */
  lemma Unanswered(cfg: Config, s: Auth, h: Honest, m: Message, env: Env)
    requires Usable(cfg) && (m.Step1? || m.Step2? || m.Confirm?)
    requires NoJpake(s) || (!s.Runs() && !s.success)
    ensures var t := Receive(cfg, s, Event(m, env)); !t.success && (NoJpake(t) || !t.Runs())
  {
    hide ServiceRequest, UserauthRequest, InfoResponse, ClientStep1, ClientStep2, ClientConfirm;
  }

  /**
   * From a fresh connection an honest client with these exponents ends logged in
   * if and only if the method is offered, the user exists, asks for the
   * connection service and may log in, neither end's step-2 exponent vanishes
   * modulo q, and the secrets agree modulo q or the four exponents sum to a
   * multiple of it, or the hash collides on the two confirmations.
   */
  lemma HonestLogin(cfg: Config, h: Honest, user: string, service: string, envs: seq<Env>)
    requires Usable(cfg) && ValidGroup(cfg.group) && h.x.InRange(cfg.group.q)
    requires |envs| == 5 && Fits(h.x, envs[1].draw)
    ensures Run(cfg, Initial(), Messages(cfg, h, user, service, envs)).success <==>
            Offered(cfg) && MayLogin(cfg, Claimed(user, service, envs[1].passwd), envs[4].forced) &&
            h.x.ClientStep() % cfg.group.q != 0 && h.x.ServerStep() % cfg.group.q != 0 && Confirmed(cfg, h)
  {
    hide Receive, G, Secrets.ClientStep, Secrets.ServerStep, Secrets.A, Confirmed, Offered, MayLogin, Claimed, ValidGroup, One,
         Two, Digest, NoJpake;
    var (g, x, d) := (cfg.group, h.x, envs[1].draw);
    assert G(g, d.x3) > 1 && G(g, d.x4) > 1 by {
      PowersAboveOne(g, x);
    }
    ServerStepValue(g, x);
    var e0, e1 := Event(Service("ssh-userauth"), envs[0]), Event(Request(user, service, METHOD_JPAKE), envs[1]);
    var e2 := Event(Step1(One(cfg, h)), envs[2]);
    var e3, e4 := Event(Step2(Two(cfg, h)), envs[3]), Event(Confirm(Digest(cfg, h)), envs[4]);
    var last := if x.A(g) <= 1 then [] else [e3] + [e4];
    var s1 := Receive(cfg, Initial(), e0);
    var s2 := Receive(cfg, s1, e1);
    var s3 := Receive(cfg, s2, e2);
    Requested(cfg, user, service, envs[0], envs[1]);
    RunCons(cfg, Initial(), e0, [e1] + ([e2] + last));
    RunCons(cfg, s1, e1, [e2] + last);
    RunCons(cfg, s2, e2, last);
    Rest(cfg, s3, e3, e4, last);
    if Offered(cfg) {
      FirstStep(cfg, h, s2, d, envs[2]);
    } else {
      Unanswered(cfg, s2, h, e2.msg, envs[2]);
    }
    if Offered(cfg) && x.ServerStep() % g.q != 0 {
      if x.A(g) > 1 {
        SecondStep(cfg, h, s3, d, envs[3]);
        LastStep(cfg, h, Receive(cfg, s3, e3), d, envs[4]);
      }
    } else {
      Unanswered(cfg, s3, h, e3.msg, envs[3]);
      Unanswered(cfg, Receive(cfg, s3, e3), h, e4.msg, envs[4]);
    }
  }

  lemma PowersAboveOne(g: Group, x: Secrets)
    requires ValidGroup(g) && x.InRange(g.q)
    ensures G(g, x.x3) > 1 && G(g, x.x4) > 1
  {
    hide G, ValidGroup;
    PowerAboveOne(g, x.x3);
    PowerAboveOne(g, x.x4);
    ModUnique(x.x3, g.q, 0, x.x3);
    ModUnique(x.x4, g.q, 0, x.x4);
  }

  lemma Rest(cfg: Config, s: Auth, e3: Event, e4: Event, last: seq<Event>)
    requires Usable(cfg) && (last == [] || last == [e3] + [e4])
    ensures Run(cfg, s, last) == if last == [] then s else Receive(cfg, Receive(cfg, s, e3), e4)
  {
    hide Receive;
    if last != [] {
      RunCons(cfg, s, e3, [e4]);
      RunOne(cfg, Receive(cfg, s, e3), e4);
    }
  }
}
