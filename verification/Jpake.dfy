/**
 * J-PAKE key agreement (jpake.c) with the Schnorr proofs it exchanges
 * (schnorr.c); section 2.2 of RFC 8236.
 *
 * BIGNUMs are mathematical integers, SHA-256 is the parameter `hash`, and every
 * random number is an argument.  A `None` result stands for fatal().
 */
module Jpake {
  import opened Bytes
  import opened NumberTheory
  import opened Wire

  type Hash = seq<byte> -> seq<byte>

  datatype Group = Group(p: int, q: int, g: int)

  /** A prime q and a generator, other than 1, of a subgroup modulo p whose order divides q. */
  ghost predicate ValidGroup(grp: Group) {
    1 < grp.g < grp.p && Prime(grp.q) && InSubgroup(grp.g, grp.q, grp.p)
  }

  // ----- Schnorr proofs (schnorr.c)

  /** The signature blob: e = g^v mod p and r = v - xh mod q. */
  datatype Proof = Proof(e: nat, r: nat)

  function SchnorrBytes(p: nat, q: nat, gen: nat, gv: nat, gx: nat, id: seq<byte>): seq<byte> {
    MpintBytes(gen) + MpintBytes(p) + MpintBytes(q) + MpintBytes(gv) + MpintBytes(gx) + StringBytes(id)
  }

  function SchnorrHash(hash: Hash, p: nat, q: nat, gen: nat, gv: nat, gx: nat, id: seq<byte>): nat {
    ToNat(hash(SchnorrBytes(p, q, gen, gv, gx, id)))
  }

  /** The challenge is taken over a message of six fields. */
  lemma SchnorrMessage(hash: Hash, p: nat, q: nat, gen: nat, gv: nat, gx: nat, id: seq<byte>)
    ensures var m := EncodeAll([Mpint(gen), Mpint(p), Mpint(q), Mpint(gv), Mpint(gx), String(id)]);
            SchnorrBytes(p, q, gen, gv, gx, id) == m && SchnorrHash(hash, p, q, gen, gv, gx, id) == ToNat(hash(m))
  {
    hide MpintBytes, StringBytes, EncodeAll, ToNat;
    EncodeNext(String(id), []);
    assert [String(id)] + [] == [String(id)];
    EncodeNext(Mpint(gx), [String(id)]);
    assert [Mpint(gx)] + [String(id)] == [Mpint(gx), String(id)];
    EncodeNext(Mpint(gv), [Mpint(gx), String(id)]);
    assert [Mpint(gv)] + [Mpint(gx), String(id)] == [Mpint(gv), Mpint(gx), String(id)];
    EncodeNext(Mpint(q), [Mpint(gv), Mpint(gx), String(id)]);
    assert [Mpint(q)] + [Mpint(gv), Mpint(gx), String(id)] == [Mpint(q), Mpint(gv), Mpint(gx), String(id)];
    EncodeNext(Mpint(p), [Mpint(q), Mpint(gv), Mpint(gx), String(id)]);
    assert [Mpint(p)] + [Mpint(q), Mpint(gv), Mpint(gx), String(id)] == [Mpint(p), Mpint(q), Mpint(gv), Mpint(gx), String(id)];
    EncodeNext(Mpint(gen), [Mpint(p), Mpint(q), Mpint(gv), Mpint(gx), String(id)]);
    assert [Mpint(gen)] + [Mpint(p), Mpint(q), Mpint(gv), Mpint(gx), String(id)] == [Mpint(gen), Mpint(p), Mpint(q), Mpint(gv), Mpint(gx), String(id)];
    NoFields();
    Joined(MpintBytes(gen), MpintBytes(p), MpintBytes(q), MpintBytes(gv), MpintBytes(gx), StringBytes(id));
  }

  lemma NoFields()
    ensures EncodeAll([]) == []
  {
  }

  lemma Joined(a: seq<byte>, b: seq<byte>, c: seq<byte>, d: seq<byte>, e: seq<byte>, f: seq<byte>)
    ensures a + b + c + d + e + f == a + (b + (c + (d + (e + (f + [])))))
  {
  }

  /** It binds the group, the generator, both public values and the identity. */
  lemma SchnorrBinds(p: nat, q: nat, gen: nat, gv: nat, gx: nat, id: seq<byte>,
                     p': nat, q': nat, gen': nat, gv': nat, gx': nat, id': seq<byte>)
    requires SchnorrBytes(p, q, gen, gv, gx, id) == SchnorrBytes(p', q', gen', gv', gx', id')
    requires AllRepresentable([Mpint(gen), Mpint(p), Mpint(q), Mpint(gv), Mpint(gx), String(id)])
    requires AllRepresentable([Mpint(gen'), Mpint(p'), Mpint(q'), Mpint(gv'), Mpint(gx'), String(id')])
    ensures p == p' && q == q' && gen == gen' && gv == gv' && gx == gx' && id == id'
  {
    hide SchnorrBytes, EncodeAll, AllRepresentable;
    SchnorrMessage(_ => [], p, q, gen, gv, gx, id);
    SchnorrMessage(_ => [], p', q', gen', gv', gx', id');
    var (fs, gs) := ([Mpint(gen), Mpint(p), Mpint(q), Mpint(gv), Mpint(gx), String(id)],
                     [Mpint(gen'), Mpint(p'), Mpint(q'), Mpint(gv'), Mpint(gx'), String(id')]);
    SameShapes(fs, gs);
    MessageInjective(fs, gs);
    assert fs[0] == gs[0] && fs[1] == gs[1] && fs[2] == gs[2] && fs[3] == gs[3] && fs[4] == gs[4] && fs[5] == gs[5];
  }

  lemma {:induction false} SameShapes(fs: seq<Field>, gs: seq<Field>)
    requires |fs| == |gs| && forall i :: 0 <= i < |fs| ==> fs[i].Shape() == gs[i].Shape()
    ensures Shapes(fs) == Shapes(gs)
  {
    if fs != [] {
      SameShapes(fs[1..], gs[1..]);
    }
  }

  /** schnorr_sign, with v the random number it draws. */
  function SchnorrSign(hash: Hash, p: nat, q: nat, gen: nat, x: nat, gx: nat, id: seq<byte>, v: nat): Option<Proof>
    requires p > 1 && q > 0
  {
    if gx <= 1 || gx >= p then None else
      var gv := ModExp(gen, v, p);
      var h := SchnorrHash(hash, p, q, gen, gv, gx, id);
      Some(Proof(gv, (v - ModMul(x, h, q)) % q))
  }

  /** schnorr_verify returns 1. */
  predicate SchnorrVerify(hash: Hash, p: nat, q: nat, gen: nat, gx: nat, id: seq<byte>, proof: Proof)
    requires p > 1
  {
    1 < gx < p &&
    ModExp(gx, q, p) == 1 &&
    (var h := SchnorrHash(hash, p, q, gen, proof.e, gx, id);
     ModMul(ModExp(gen, proof.r, p), ModExp(gx, h, p), p) == proof.e)
  }

  /** An honest proof over any generator of the subgroup is accepted, whatever random number it used. */
  lemma SchnorrComplete(hash: Hash, p: nat, q: nat, gen: nat, x: nat, gx: nat, id: seq<byte>, v: nat)
    requires p > 1 && q > 0 && InSubgroup(gen, q, p)
    requires gx == ModExp(gen, x, p) && gx > 1
    ensures SchnorrSign(hash, p, q, gen, x, gx, id, v).Some?
    ensures SchnorrVerify(hash, p, q, gen, gx, id, SchnorrSign(hash, p, q, gen, x, gx, id, v).value)
  {
    hide ModExp, ModMul, SchnorrHash;
    PowerInSubgroup(gen, x, q, p);
    SchnorrEquation(gen, x, SchnorrHash(hash, p, q, gen, ModExp(gen, v, p), gx, id), v, q, p);
  }

  lemma SchnorrEquation(gen: nat, x: nat, h: nat, v: nat, q: nat, p: nat)
    requires p > 1 && q > 0 && InSubgroup(gen, q, p)
    ensures var r := (v - ModMul(x, h, q)) % q;
            ModMul(ModExp(gen, r, p), ModExp(ModExp(gen, x, p), h, p), p) == ModExp(gen, v, p)
  {
    var r := (v - ModMul(x, h, q)) % q;
    ExpMul(gen, x, h, p);
    ExpAdd(gen, r, x * h, p);
    SubtractAndAddBack(v, x * h, q);
    ExpCongruent(gen, r + x * h, v, q, p);
  }

  function Product(x: nat, h: nat): nat { x * h }

  /** Of a value with a known logarithm, exactly the proofs that satisfy the equation in the exponent are accepted. */
  lemma SchnorrAccepts(hash: Hash, p: nat, q: nat, gen: nat, x: nat, gx: nat, id: seq<byte>, proof: Proof)
    requires p > 1 && q > 0 && InSubgroup(gen, q, p) && gx == ModExp(gen, x, p)
    ensures var h := SchnorrHash(hash, p, q, gen, proof.e, gx, id);
            SchnorrVerify(hash, p, q, gen, gx, id, proof) <==> gx > 1 && proof.e == ModExp(gen, proof.r + Product(x, h), p)
  {
    hide ModExp, SchnorrHash;
    var h := SchnorrHash(hash, p, q, gen, proof.e, gx, id);
    PowerInSubgroup(gen, x, q, p);
    ExpMul(gen, x, h, p);
    ExpAdd(gen, proof.r, x * h, p);
  }

  /** A value that is not a member of the subgroup other than 1 is refused with any proof. */
  lemma SchnorrMember(hash: Hash, p: nat, q: nat, gen: nat, gx: nat, id: seq<byte>, proof: Proof)
    requires p > 1 && (gx == 0 || gx == 1 || gx >= p || !InSubgroup(gx, q, p))
    ensures !SchnorrVerify(hash, p, q, gen, gx, id, proof)
  {
    hide ModExp, SchnorrHash;
  }

  /** With v the logarithm of the commitment, the response is determined modulo q: r = v - xh; no proof of x = 0 will do. */
  lemma SchnorrExact(hash: Hash, p: nat, q: nat, gen: nat, x: nat, gx: nat, id: seq<byte>, v: nat, r: nat)
    requires p > 1 && Prime(q) && InSubgroup(gen, q, p) && gen % p != 1 && gx == ModExp(gen, x, p)
    ensures var h := SchnorrHash(hash, p, q, gen, ModExp(gen, v, p), gx, id);
            SchnorrVerify(hash, p, q, gen, gx, id, Proof(ModExp(gen, v, p), r)) <==>
            x % q != 0 && (r + Product(x, h)) % q == v % q
  {
    hide ModExp, SchnorrHash, SchnorrVerify, Product, Prime;
    PrimeAboveOne(q);
    MemberAboveOne(gen, q, x, p);
    SchnorrAccepts(hash, p, q, gen, x, gx, id, Proof(ModExp(gen, v, p), r));
    ExpEqual(gen, q, r + Product(x, SchnorrHash(hash, p, q, gen, ModExp(gen, v, p), gx, id)), v, p);
  }

  /**
   * Special soundness: two accepted proofs with the same commitment and challenges
   * that differ modulo q give away a logarithm of the public value.
   */
  lemma SchnorrSound(hash: Hash, hash': Hash, p: nat, q: nat, gen: nat, gx: nat, id: seq<byte>, id': seq<byte>,
                     e: nat, r: nat, r': nat)
    requires p > 1 && Prime(q) && InSubgroup(gen, q, p)
    requires SchnorrVerify(hash, p, q, gen, gx, id, Proof(e, r)) && SchnorrVerify(hash', p, q, gen, gx, id', Proof(e, r'))
    requires SchnorrHash(hash, p, q, gen, e, gx, id) % q != SchnorrHash(hash', p, q, gen, e, gx, id') % q
    ensures exists x: nat :: ModExp(gen, x, p) == gx
  {
    hide ModExp, SchnorrHash, Prime;
    var (h, h') := (SchnorrHash(hash, p, q, gen, e, gx, id), SchnorrHash(hash', p, q, gen, e, gx, id'));
    var x := Extract(p, q, gen, gx, r, h, r', h');
  }

  lemma Extract(p: nat, q: nat, gen: nat, gx: nat, r: nat, h: nat, r': nat, h': nat) returns (x: nat)
    requires p > 1 && Prime(q) && InSubgroup(gen, q, p) && InSubgroup(gx, q, p) && gx < p && h % q != h' % q
    requires ModMul(ModExp(gen, r, p), ModExp(gx, h, p), p) == ModMul(ModExp(gen, r', p), ModExp(gx, h', p), p)
    ensures ModExp(gen, x, p) == gx
  {
    hide ModExp, ModMul;
    var a := Complement(r, q);
    var b := Complement(h', q);
    var (n, d) := (r' + a, h + b);
    PowersMeet(p, q, gen, gx, r, h, r', h', a, b);
    NotMultiple(q, h, h', b);
    var i := Inverse(q, d);
    ExpMul(gx, d, i, p);
    ExpMul(gen, n, i, p);
    ModUnique(1, q, 0, 1);
    ExpCongruent(gx, d * i, 1, q, p);
    ExpFirst(gx, p);
    x := n * i;
  }

  lemma ExpFirst(b: nat, m: int)
    requires b < m && m > 1
    ensures ModExp(b, 1, m) == b
  {
    assert ModExp(b, 0, m) == 1;
    ModUnique(b, m, 0, b);
  }

  lemma NotMultiple(q: int, h: int, h': int, b: int)
    requires q > 0 && h % q != h' % q && (h' + b) % q == 0
    ensures (h + b) % q != 0
  {
    ModDiff(h + b, h' + b, q);
    ModDiff(h, h', q);
  }

  /** Both sides of the equation, freed of one power each. */
  lemma PowersMeet(p: nat, q: nat, gen: nat, gx: nat, r: nat, h: nat, r': nat, h': nat, a: nat, b: nat)
    requires p > 1 && q > 0 && InSubgroup(gen, q, p) && InSubgroup(gx, q, p)
    requires (r + a) % q == 0 && (h' + b) % q == 0
    requires ModMul(ModExp(gen, r, p), ModExp(gx, h, p), p) == ModMul(ModExp(gen, r', p), ModExp(gx, h', p), p)
    ensures ModExp(gx, h + b, p) == ModExp(gen, r' + a, p)
  {
    hide ModExp;
    var (gr, xh, gr', xh', ga, xb) :=
      (ModExp(gen, r, p), ModExp(gx, h, p), ModExp(gen, r', p), ModExp(gx, h', p), ModExp(gen, a, p), ModExp(gx, b, p));
    ExpAdd(gen, r, a, p);
    ExpAdd(gen, r', a, p);
    ExpAdd(gx, h, b, p);
    ExpAdd(gx, h', b, p);
    ExpCongruent(gen, r + a, 0, q, p);
    ExpCongruent(gx, h' + b, 0, q, p);
    ZeroPower(gen, p);
    ZeroPower(gx, p);
    FourFactors(gr, xh, ga, xb, p);
    FourFactors(gr', xh', ga, xb, p);
  }

  lemma ZeroPower(b: int, m: int)
    requires m > 1
    ensures ModExp(b, 0, m) == 1
  {
  }

  lemma FourFactors(g: int, x: int, a: int, b: int, m: int)
    requires m > 1
    ensures ModMul(ModMul(g, x, m), ModMul(a, b, m), m) == ModMul(ModMul(g, a, m), ModMul(x, b, m), m)
    ensures ModMul(g, a, m) == 1 ==> ModMul(ModMul(g, a, m), ModMul(x, b, m), m) == ModMul(x, b, m)
    ensures ModMul(x, b, m) == 1 ==> ModMul(ModMul(g, a, m), ModMul(x, b, m), m) == ModMul(g, a, m)
  {
    MulMod(g * x, ModMul(a, b, m), m);
    MulMod(a * b, g * x, m);
    MulMod(g * a, ModMul(x, b, m), m);
    MulMod(x * b, g * a, m);
    assert g * x * (a * b) == g * a * (x * b);
    ModUnique(ModMul(x, b, m), m, 0, ModMul(x, b, m));
    ModUnique(ModMul(g, a, m), m, 0, ModMul(g, a, m));
  }

  lemma SubtractAndAddBack(v: int, n: int, q: int)
    requires q > 0
    ensures ((v - n % q) % q + n) % q == v % q
  {
    var (t, k) := (n % q, n / q);
    assert n == k * q + t;
    AddMod(v - t, n, q);
    assert v - t + n == v + k * q;
    ModShift(v, k, q);
  }

  lemma PowerInSubgroup(b: int, e: nat, q: nat, m: int)
    requires m > 1 && q > 0 && InSubgroup(b, q, m)
    ensures InSubgroup(ModExp(b, e, m), q, m)
  {
    ExpMul(b, e, q, m);
    MultipleOf(q, e, q);
    ExpCongruent(b, e * q, 0, q, m);
  }

  // ----- The values of the protocol in closed form

  /** The generator of a step-2 proof: the product of three public values. */
  function StepGenerator(grp: Group, a: nat, b: nat, c: nat): nat
    requires grp.p > 1
  {
    a * b * c % grp.p
  }

  /** What jpake_step2 sends as newpub. */
  function StepValue(grp: Group, s: nat, mypub1: nat, theirpub1: nat, theirpub2: nat, mypriv2: nat): nat
    requires grp.p > 1 && grp.q > 0
  {
    ModExp(mypub1 * theirpub1 * theirpub2, mypriv2 * s % grp.q, grp.p)
  }

  /** What jpake_key_confirm derives as k. */
  function KeyValue(grp: Group, s: nat, step2: nat, mypriv2: nat, theirpub2: nat): nat
    requires grp.p > 1 && grp.q > 0
  {
    ModExp(ModExp(theirpub2, -(mypriv2 * s) % grp.q, grp.p) * step2, mypriv2, grp.p)
  }

  function ConfirmBytes(k: nat, id: seq<byte>, sess: seq<byte>): seq<byte> {
    MpintBytes(k) + StringBytes(id) + StringBytes(sess)
  }

  // ----- The same values as powers of g

  function G(grp: Group, e: nat): nat
    requires grp.p > 1
  {
    ModExp(grp.g, e, grp.p)
  }

  lemma GeneratorExponent(grp: Group, i: nat, j: nat, k: nat)
    requires grp.p > 1
    ensures StepGenerator(grp, G(grp, i), G(grp, j), G(grp, k)) == G(grp, i + j + k)
  {
    ExpAdd(grp.g, i, j, grp.p);
    ExpAdd(grp.g, i + j, k, grp.p);
    MulMod(G(grp, i) * G(grp, j), G(grp, k), grp.p);
  }

  lemma StepExponent(grp: Group, s: nat, i: nat, j: nat, k: nat, x: nat)
    requires ValidGroup(grp)
    ensures x * s >= 0 && (i + j + k) * (x * s) >= 0
    ensures StepValue(grp, s, G(grp, i), G(grp, j), G(grp, k), x) == G(grp, (i + j + k) * (x * s))
  {
    hide ModExp;
    GeneratorExponent(grp, i, j, k);
    ExpBaseMod(G(grp, i) * G(grp, j) * G(grp, k), x * s % grp.q, grp.p);
    ExpMulReduced(grp.g, i + j + k, x * s, grp.q, grp.p);
  }

  lemma ExpMulReduced(b: int, n: nat, t: nat, q: nat, m: int)
    requires m > 1 && q > 0 && InSubgroup(b, q, m)
    ensures n * t >= 0 && ModExp(ModExp(b, n, m), t % q, m) == ModExp(b, n * t, m)
  {
    hide ModExp;
    ExpMul(b, n, t % q, m);
    MulMod(t, n, q);
    ExpCongruent(b, n * (t % q), n * t, q, m);
  }

  lemma KeyExponent(grp: Group, s: nat, step: nat, x: nat, y: nat)
    requires ValidGroup(grp)
    ensures var w := -(x * s) % grp.q;
            y * w >= 0 && (y * w + step) * x >= 0 &&
            KeyValue(grp, s, G(grp, step), x, G(grp, y)) == G(grp, (y * w + step) * x)
  {
    var w := -(x * s) % grp.q;
    ExpMul(grp.g, y, w, grp.p);
    ExpAdd(grp.g, y * w, step, grp.p);
    ExpBaseMod(G(grp, y * w) * G(grp, step), x, grp.p);
    ExpMul(grp.g, y * w + step, x, grp.p);
  }

  // ----- Agreement

  /** Private exponents as bn_rand_range_gt_one(q) draws them, and the two ends' secrets. */
  datatype Secrets = Secrets(x1: nat, x2: nat, x3: nat, x4: nat, client: nat, server: nat)
  {
    ghost predicate InRange(q: int) {
      1 < x1 < q && 1 < x2 < q && 1 < x3 < q && 1 < x4 < q
    }

    /** Zero modulo q exactly when the two ends can agree. */
    function Gap(): int {
      (x1 + x2 + x3 + x4) * (server - client)
    }

    /** Zero modulo q exactly when the client's, or the server's, step-2 value is 1. */
    function ClientStep(): int { (x1 + x3 + x4) * client }

    function ServerStep(): int { (x3 + x1 + x2) * server }

    function A(grp: Group): nat
      requires grp.p > 1 && grp.q > 0
    {
      StepValue(grp, client, G(grp, x1), G(grp, x3), G(grp, x4), x2)
    }

    function B(grp: Group): nat
      requires grp.p > 1 && grp.q > 0
    {
      StepValue(grp, server, G(grp, x3), G(grp, x1), G(grp, x2), x4)
    }

    function ClientKey(grp: Group): nat
      requires grp.p > 1 && grp.q > 0
    {
      KeyValue(grp, client, B(grp), x2, G(grp, x4))
    }

    function ServerKey(grp: Group): nat
      requires grp.p > 1 && grp.q > 0
    {
      KeyValue(grp, server, A(grp), x4, G(grp, x2))
    }
  }

  lemma Factor(x: int, y: int, w: int, n: int, v: int)
    ensures (y * w + n * (y * v)) * x == x * y * (w + n * v)
  {
    assert n * (y * v) == y * (n * v);
    assert y * w + y * (n * v) == y * (w + n * v);
  }

  lemma SumTimesDifference(x1: int, x2: int, x3: int, x4: int, client: int, server: int)
    ensures -(x2 * client) + (x3 + x1 + x2) * server - (-(x4 * server) + (x1 + x3 + x4) * client) ==
            (x1 + x2 + x3 + x4) * (server - client)
  {
  }

  lemma ReduceDifference(a: int, b: int, s: int, t: int, q: int)
    requires q > 0
    ensures (a % q + s - (b % q + t)) % q == (a + s - (b + t)) % q
  {
    assert a % q + s - (b % q + t) == a + s - (b + t) + (b / q - a / q) * q by {
      assert (b / q - a / q) * q == b / q * q - a / q * q;
    }
    ModShift(a + s - (b + t), b / q - a / q, q);
  }

  lemma CancelFactor(q: int, u: int, c: int, d: int)
    requires Prime(q) && u % q != 0
    ensures u * c % q == u * d % q <==> (c - d) % q == 0
  {
    assert u * c - u * d == u * (c - d);
    ModDiff(u * c, u * d, q);
    EuclidLemma(q, u, c - d);
  }

  /** Dividing both key exponents by x2 * x4 leaves a multiple of the difference of the secrets. */
  lemma KeyDifference(q: int, x: Secrets)
    requires Prime(q) && x.InRange(q)
    ensures ClientLog(q, x) % q == ServerLog(q, x) % q <==> x.Gap() % q == 0
  {
    hide Prime;
    InvertibleProduct(q, x.x2, x.x4);
    KeyDifferenceInts(q, x.x1, x.x2, x.x3, x.x4, x.client, x.server, ClientLog(q, x), ServerLog(q, x));
  }

  lemma InvertibleProduct(q: int, x: int, y: int)
    requires Prime(q) && 0 < x < q && 0 < y < q
    ensures x * y % q != 0
  {
    EuclidLemma(q, x, y);
  }

  lemma KeyDifferenceInts(q: int, x1: int, x2: int, x3: int, x4: int, client: int, server: int, kc: int, ks: int)
    requires Prime(q) && x2 * x4 % q != 0
    requires kc == (x4 * (-(x2 * client) % q) + (x3 + x1 + x2) * (x4 * server)) * x2
    requires ks == (x2 * (-(x4 * server) % q) + (x1 + x3 + x4) * (x2 * client)) * x4
    ensures kc % q == ks % q <==> (x1 + x2 + x3 + x4) * (server - client) % q == 0
  {
    Factor(x2, x4, -(x2 * client) % q, x3 + x1 + x2, server);
    Factor(x4, x2, -(x4 * server) % q, x1 + x3 + x4, client);
    CancelFactor(q, x2 * x4, -(x2 * client) % q + (x3 + x1 + x2) * server, -(x4 * server) % q + (x1 + x3 + x4) * client);
    ReduceDifference(-(x2 * client), -(x4 * server), (x3 + x1 + x2) * server, (x1 + x3 + x4) * client, q);
    SumTimesDifference(x1, x2, x3, x4, client, server);
  }

  function Combined(a: nat, b: nat, c: nat, d: nat, e: nat): nat { (a * b + c * d) * e }

  /** The discrete logarithms of the two keys. */
  function ClientLog(q: int, x: Secrets): nat
    requires q > 0
  {
    Combined(x.x4, -(x.x2 * x.client) % q, x.x3 + x.x1 + x.x2, x.x4 * x.server, x.x2)
  }

  function ServerLog(q: int, x: Secrets): nat
    requires q > 0
  {
    Combined(x.x2, -(x.x4 * x.server) % q, x.x1 + x.x3 + x.x4, x.x2 * x.client, x.x4)
  }

  lemma KeyPowers(grp: Group, x: Secrets)
    requires ValidGroup(grp)
    ensures x.ClientKey(grp) == G(grp, ClientLog(grp.q, x)) && x.ServerKey(grp) == G(grp, ServerLog(grp.q, x))
  {
    hide ModExp, StepValue, KeyValue;
    StepExponent(grp, x.client, x.x1, x.x3, x.x4, x.x2);
    StepExponent(grp, x.server, x.x3, x.x1, x.x2, x.x4);
    KeyExponent(grp, x.client, (x.x3 + x.x1 + x.x2) * (x.x4 * x.server), x.x2, x.x4);
    KeyExponent(grp, x.server, (x.x1 + x.x3 + x.x4) * (x.x2 * x.client), x.x4, x.x2);
  }

  /**
   * The two ends derive the same key exactly when the secrets agree modulo q
   * or the four exponents sum to a multiple of q.
   */
  lemma Agreement(grp: Group, x: Secrets)
    requires ValidGroup(grp) && x.InRange(grp.q)
    ensures x.ClientKey(grp) == x.ServerKey(grp) <==> x.Gap() % grp.q == 0
  {
    hide ModExp, ClientLog, ServerLog, Secrets.Gap, Secrets.ClientKey, Secrets.ServerKey;
    KeyPowers(grp, x);
    KeyDifference(grp.q, x);
    ExpEqual(grp.g, grp.q, ClientLog(grp.q, x), ServerLog(grp.q, x), grp.p);
  }

  // ----- The operations of jpake.c

  datatype StepOne = StepOne(id: seq<byte>, pub1: nat, pub2: nat, proof1: Proof, proof2: Proof)

  datatype StepTwo = StepTwo(newpub: nat, proof: Proof)

  /** jpake_step1 */
  method Step1(hash: Hash, grp: Group, id: seq<byte>, priv1: nat, priv2: nat, v1: nat, v2: nat)
    returns (r: Option<StepOne>)
    requires grp.p > 1 && grp.q > 0 && grp.g >= 0
    ensures r.Some? <==> G(grp, priv1) > 1 && G(grp, priv2) > 1
    ensures r.Some? ==>
              r.value.id == id && r.value.pub1 == G(grp, priv1) && r.value.pub2 == G(grp, priv2) &&
              Some(r.value.proof1) == SchnorrSign(hash, grp.p, grp.q, grp.g, priv1, G(grp, priv1), id, v1) &&
              Some(r.value.proof2) == SchnorrSign(hash, grp.p, grp.q, grp.g, priv2, G(grp, priv2), id, v2)
  {
    hide ModExp, SchnorrHash;
    var pub1 := ModExp(grp.g, priv1, grp.p);
    var pub2 := ModExp(grp.g, priv2, grp.p);
    var proof1 := SchnorrSign(hash, grp.p, grp.q, grp.g, priv1, pub1, id, v1);
    var proof2 := SchnorrSign(hash, grp.p, grp.q, grp.g, priv2, pub2, id, v2);
    if proof1.None? || proof2.None? {
      return None;
    }
    r := Some(StepOne(id, pub1, pub2, proof1.value, proof2.value));
  }

  /** The peer's step 1 passes the checks of jpake_step2. */
  predicate StepOneValid(hash: Hash, grp: Group, m: StepOne)
    requires grp.p > 1 && grp.q > 0 && grp.g >= 0
  {
    SchnorrVerify(hash, grp.p, grp.q, grp.g, m.pub1, m.id, m.proof1) &&
    SchnorrVerify(hash, grp.p, grp.q, grp.g, m.pub2, m.id, m.proof2)
  }

  /** jpake_step2: proceeds iff the peer's values are valid and its own value is not degenerate. */
  method Step2(hash: Hash, grp: Group, s: nat, mypub1: nat, theirs: StepOne, mypriv2: nat, myid: seq<byte>, v: nat)
    returns (r: Option<StepTwo>)
    requires grp.p > 1 && grp.q > 0 && grp.g >= 0
    ensures var newpub := StepValue(grp, s, mypub1, theirs.pub1, theirs.pub2, mypriv2);
            var proof := SchnorrSign(hash, grp.p, grp.q, StepGenerator(grp, mypub1, theirs.pub1, theirs.pub2),
                                     ModMul(mypriv2, s, grp.q), newpub, myid, v);
            if StepOneValid(hash, grp, theirs) && newpub > 1
            then proof.Some? && r == Some(StepTwo(newpub, proof.value))
            else r == None
  {
    hide ModExp, SchnorrHash;
    if theirs.pub1 <= 1 || theirs.pub1 >= grp.p || theirs.pub2 <= 1 || theirs.pub2 >= grp.p {
      return None;
    }
    if !SchnorrVerify(hash, grp.p, grp.q, grp.g, theirs.pub1, theirs.id, theirs.proof1) {
      return None;
    }
    if !SchnorrVerify(hash, grp.p, grp.q, grp.g, theirs.pub2, theirs.id, theirs.proof2) {
      return None;
    }
    var exponent := ModMul(mypriv2, s, grp.q);
    var tmp := ModMul(mypub1, theirs.pub1, grp.p);
    tmp := ModMul(tmp, theirs.pub2, grp.p);
    MulMod(mypub1 * theirs.pub1, theirs.pub2, grp.p);
    var newpub := ModExp(tmp, exponent, grp.p);
    ExpBaseMod(mypub1 * theirs.pub1 * theirs.pub2, exponent, grp.p);
    // The proof is over the product of the public values.
    var proof := SchnorrSign(hash, grp.p, grp.q, tmp, exponent, newpub, myid, v);
    if proof.None? {
      return None;
    }
    r := Some(StepTwo(newpub, proof.value));
  }

  /** jpake_confirm_hash */
  function ConfirmHash(hash: Hash, k: nat, id: seq<byte>, sess: seq<byte>): seq<byte> {
    hash(ConfirmBytes(k, id, sess))
  }

  /** jpake_key_confirm: the key and the confirmation hash, if the peer's step 2 verifies. */
  method KeyConfirm(hash: Hash, grp: Group, s: nat, theirs: StepTwo, mypriv2: nat, mypub1: nat, mypub2: nat,
                    theirpub1: nat, theirpub2: nat, myid: seq<byte>, theirid: seq<byte>, sess: seq<byte>)
    returns (k: Option<nat>, confirm: seq<byte>)
    requires grp.p > 1 && grp.q > 0
    ensures k.Some? <==>
            SchnorrVerify(hash, grp.p, grp.q, StepGenerator(grp, mypub1, mypub2, theirpub1),
                          theirs.newpub, theirid, theirs.proof)
    ensures k.Some? ==>
              k.value == KeyValue(grp, s, theirs.newpub, mypriv2, theirpub2) &&
              confirm == ConfirmHash(hash, k.value, myid, sess)
  {
    hide ModExp, SchnorrHash;
    if theirs.newpub <= 1 || theirs.newpub >= grp.p {
      return None, [];
    }
    var tmp := ModMul(mypub1, mypub2, grp.p);
    tmp := ModMul(tmp, theirpub1, grp.p);
    MulMod(mypub1 * mypub2, theirpub1, grp.p);
    if !SchnorrVerify(hash, grp.p, grp.q, tmp, theirs.newpub, theirid, theirs.proof) {
      return None, [];
    }
    tmp := mypriv2 * s;
    ModShift(-tmp, 1, grp.q);
    tmp := (grp.q - tmp) % grp.q;
    tmp := ModExp(theirpub2, tmp, grp.p);
    ExpBaseMod(tmp * theirs.newpub, mypriv2, grp.p);
    tmp := ModMul(tmp, theirs.newpub, grp.p);
    k := Some(ModExp(tmp, mypriv2, grp.p));
    confirm := ConfirmHash(hash, k.value, myid, sess);
  }

  /** jpake_check_confirm */
  method CheckConfirm(hash: Hash, k: nat, peerId: seq<byte>, sess: seq<byte>, peerConfirm: seq<byte>)
    returns (success: bool)
    ensures success <==> peerConfirm == ConfirmHash(hash, k, peerId, sess)
  {
    var expected := ConfirmHash(hash, k, peerId, sess);
    success := |peerConfirm| == |expected| && peerConfirm == expected;
  }

  // ----- A whole exchange

  lemma PowerAboveOne(grp: Group, e: nat)
    requires ValidGroup(grp)
    ensures G(grp, e) > 1 <==> e % grp.q != 0
  {
    hide ModExp, InSubgroup;
    ModUnique(grp.g, grp.p, 0, grp.g);
    MemberAboveOne(grp.g, grp.q, e, grp.p);
  }

  lemma MemberAboveOne(gen: nat, q: nat, e: nat, p: nat)
    requires p > 1 && Prime(q) && InSubgroup(gen, q, p) && gen % p != 1
    ensures ModExp(gen, e, p) > 1 <==> e % q != 0
  {
    hide ModExp, ModMul, Prime, InSubgroup;
    PrimeAboveOne(q);
    ExpIsOne(gen, q, e, p);
    var inv := Complement(e, q);
    ExpIsOne(gen, q, e + inv, p);
    ExpAdd(gen, e, inv, p);
    ZeroTimes(ModExp(gen, inv, p), p);
  }

  lemma ZeroTimes(b: int, m: int)
    requires m > 0
    ensures ModMul(0, b, m) == 0
  {
  }

  /** Step 1 of a peer whose exponents are x and y passes exactly if neither vanishes and both proofs satisfy their equation. */
  lemma StepOneExact(hash: Hash, grp: Group, m: StepOne, x: nat, y: nat)
    requires ValidGroup(grp) && m.pub1 == G(grp, x) && m.pub2 == G(grp, y)
    ensures var h1 := SchnorrHash(hash, grp.p, grp.q, grp.g, m.proof1.e, m.pub1, m.id);
            var h2 := SchnorrHash(hash, grp.p, grp.q, grp.g, m.proof2.e, m.pub2, m.id);
            StepOneValid(hash, grp, m) <==>
            x % grp.q != 0 && m.proof1.e == G(grp, m.proof1.r + Product(x, h1)) &&
            y % grp.q != 0 && m.proof2.e == G(grp, m.proof2.r + Product(y, h2))
  {
    hide ModExp, SchnorrHash, SchnorrVerify, Product;
    PowerAboveOne(grp, x);
    PowerAboveOne(grp, y);
    SchnorrAccepts(hash, grp.p, grp.q, grp.g, x, m.pub1, m.id, m.proof1);
    SchnorrAccepts(hash, grp.p, grp.q, grp.g, y, m.pub2, m.id, m.proof2);
  }

  /** Honest step-1 values pass the peer's checks. */
  lemma HonestPublic(hash: Hash, grp: Group, id: seq<byte>, x: nat, v: nat)
    requires ValidGroup(grp) && 1 < x < grp.q
    ensures var proof := SchnorrSign(hash, grp.p, grp.q, grp.g, x, G(grp, x), id, v);
            proof.Some? && SchnorrVerify(hash, grp.p, grp.q, grp.g, G(grp, x), id, proof.value)
  {
    hide ModExp, SchnorrHash, SchnorrSign, SchnorrVerify;
    PowerAboveOne(grp, x);
    SchnorrComplete(hash, grp.p, grp.q, grp.g, x, G(grp, x), id, v);
  }

  /** A step-2 value is degenerate exactly when its exponent vanishes modulo q. */
  lemma StepValueAboveOne(grp: Group, s: nat, i: nat, j: nat, k: nat, x: nat)
    requires ValidGroup(grp) && 1 < x < grp.q
    ensures StepValue(grp, s, G(grp, i), G(grp, j), G(grp, k), x) > 1 <==> (i + j + k) * s % grp.q != 0
  {
    hide ModExp, StepValue;
    StepExponent(grp, s, i, j, k, x);
    PowerAboveOne(grp, (i + j + k) * (x * s));
    DegenerateExponent(grp.q, i + j + k, x, s);
  }

  lemma DegenerateExponent(q: int, n: int, x: int, s: int)
    requires Prime(q) && 0 < x < q
    ensures n * (x * s) % q == 0 <==> n * s % q == 0
  {
    hide Prime;
    SwapFactors(n, x, s);
    EuclidLemma(q, x, n * s);
    ModUnique(x, q, 0, x);
  }

  lemma SwapFactors(n: int, x: int, s: int)
    ensures n * (x * s) == x * (n * s)
  {
  }

  /** The generator the peer rebuilds is the one the step-2 proof used, so an honest proof verifies. */
  lemma HonestStepTwo(hash: Hash, grp: Group, s: nat, i: nat, j: nat, k: nat, x: nat, id: seq<byte>, v: nat)
    requires ValidGroup(grp)
    requires StepValue(grp, s, G(grp, i), G(grp, j), G(grp, k), x) > 1
    ensures var gen := StepGenerator(grp, G(grp, i), G(grp, j), G(grp, k));
            var newpub := StepValue(grp, s, G(grp, i), G(grp, j), G(grp, k), x);
            var proof := SchnorrSign(hash, grp.p, grp.q, gen, ModMul(x, s, grp.q), newpub, id, v);
            gen == StepGenerator(grp, G(grp, j), G(grp, k), G(grp, i)) &&
            proof.Some? && SchnorrVerify(hash, grp.p, grp.q, gen, newpub, id, proof.value)
  {
    hide ModExp, SchnorrHash, SchnorrSign, SchnorrVerify;
    var gen := StepGenerator(grp, G(grp, i), G(grp, j), G(grp, k));
    GeneratorExponent(grp, i, j, k);
    GeneratorExponent(grp, j, k, i);
    PowerInSubgroup(grp.g, i + j + k, grp.q, grp.p);
    ExpBaseMod(G(grp, i) * G(grp, j) * G(grp, k), x * s % grp.q, grp.p);
    SchnorrComplete(hash, grp.p, grp.q, gen, ModMul(x, s, grp.q),
                    StepValue(grp, s, G(grp, i), G(grp, j), G(grp, k), x), id, v);
  }

  /** The confirmation input determines the key. */
  lemma ConfirmBytesInjective(k: nat, k': nat, id: seq<byte>, sess: seq<byte>)
    requires ConfirmBytes(k, id, sess) == ConfirmBytes(k', id, sess)
    ensures k == k'
  {
    hide MpintBody, Digits;
    var tail := StringBytes(id) + StringBytes(sess);
    var m, m' := MpintBytes(k), MpintBytes(k');
    assert m + tail == ConfirmBytes(k, id, sess) && m' + tail == ConfirmBytes(k', id, sess);
    SuffixCancels(m, m', tail);
    assert MpintBody(k) == m[4..] && MpintBody(k') == m'[4..];
    MpintBodyValue(k);
    MpintBodyValue(k');
  }

  /** The confirmation is taken over a message of three fields. */
  lemma ConfirmMessage(hash: Hash, k: nat, id: seq<byte>, sess: seq<byte>)
    ensures var m := EncodeAll([Mpint(k), String(id), String(sess)]);
            ConfirmBytes(k, id, sess) == m && ConfirmHash(hash, k, id, sess) == hash(m)
  {
    hide MpintBytes, StringBytes, EncodeAll;
    EncodeNext(String(sess), []);
    assert [String(sess)] + [] == [String(sess)];
    EncodeNext(String(id), [String(sess)]);
    assert [String(id)] + [String(sess)] == [String(id), String(sess)];
    EncodeNext(Mpint(k), [String(id), String(sess)]);
    assert [Mpint(k)] + [String(id), String(sess)] == [Mpint(k), String(id), String(sess)];
    NoFields();
    assert MpintBytes(k) + StringBytes(id) + StringBytes(sess) == MpintBytes(k) + (StringBytes(id) + (StringBytes(sess) + []));
  }

  /** It binds the identity and the session as well. */
  lemma ConfirmBinds(k: nat, id: seq<byte>, sess: seq<byte>, k': nat, id': seq<byte>, sess': seq<byte>)
    requires AllRepresentable([Mpint(k), String(id), String(sess)])
    requires AllRepresentable([Mpint(k'), String(id'), String(sess')])
    requires ConfirmBytes(k, id, sess) == ConfirmBytes(k', id', sess')
    ensures k == k' && id == id' && sess == sess'
  {
    hide ConfirmBytes, EncodeAll, AllRepresentable;
    ConfirmMessage(_ => [], k, id, sess);
    ConfirmMessage(_ => [], k', id', sess');
    var (fs, gs) := ([Mpint(k), String(id), String(sess)], [Mpint(k'), String(id'), String(sess')]);
    SameShapes(fs, gs);
    MessageInjective(fs, gs);
    assert fs[0] == gs[0] && fs[1] == gs[1] && fs[2] == gs[2];
  }

  lemma SuffixCancels(a: seq<byte>, b: seq<byte>, tail: seq<byte>)
    requires a + tail == b + tail
    ensures a == b
  {
    assert |a| == |b|;
    assert a == (a + tail)[..|a|] && b == (b + tail)[..|a|];
  }

  datatype Outcome =
    | Aborted
    | Finished(clientKey: nat, serverKey: nat, serverAccepts: bool, clientAccepts: bool)

  /** Step 1 of an honest end never fails and passes the peer's checks. */
  method HonestStep1(hash: Hash, grp: Group, id: seq<byte>, x: nat, y: nat, v1: nat, v2: nat) returns (m: StepOne)
    requires ValidGroup(grp) && 1 < x < grp.q && 1 < y < grp.q
    ensures m.id == id && m.pub1 == G(grp, x) && m.pub2 == G(grp, y) && StepOneValid(hash, grp, m)
  {
    hide ModExp, SchnorrHash, SchnorrSign, SchnorrVerify;
    PowerAboveOne(grp, x);
    PowerAboveOne(grp, y);
    HonestPublic(hash, grp, id, x, v1);
    HonestPublic(hash, grp, id, y, v2);
    var r := Step1(hash, grp, id, x, y, v1, v2);
    m := r.value;
  }

  /** Step 2 of an honest end, given a valid step 1: fails only on a degenerate exponent, and verifies at the peer. */
  method HonestStep2(hash: Hash, grp: Group, s: nat, i: nat, j: nat, k: nat, theirs: StepOne, x: nat, id: seq<byte>, v: nat)
    returns (r: Option<StepTwo>)
    requires ValidGroup(grp) && 1 < x < grp.q
    requires theirs.pub1 == G(grp, j) && theirs.pub2 == G(grp, k) && StepOneValid(hash, grp, theirs)
    ensures r.None? <==> (i + j + k) * s % grp.q == 0
    ensures r.Some? ==>
              r.value.newpub == StepValue(grp, s, G(grp, i), G(grp, j), G(grp, k), x) &&
              SchnorrVerify(hash, grp.p, grp.q, StepGenerator(grp, G(grp, j), G(grp, k), G(grp, i)),
                            r.value.newpub, id, r.value.proof)
  {
    hide ModExp, G, StepValue, StepGenerator, SchnorrHash, SchnorrSign, SchnorrVerify;
    StepValueAboveOne(grp, s, i, j, k, x);
    r := Step2(hash, grp, s, G(grp, i), theirs, x, id, v);
    if r.Some? {
      HonestStepTwo(hash, grp, s, i, j, k, x, id, v);
    }
  }

  /** The four messages of steps 1 and 2. */
  datatype Messages = Messages(c1: StepOne, s1: StepOne, c2: StepTwo, s2: StepTwo)

  /** Steps 1 and 2 of both ends; what they send passes the other end's checks. */
  method Steps(hash: Hash, grp: Group, x: Secrets, cid: seq<byte>, sid: seq<byte>, v: seq<nat>)
    returns (m: Option<Messages>)
    requires ValidGroup(grp) && x.InRange(grp.q) && |v| == 6
    ensures m.None? <==> x.ClientStep() % grp.q == 0 || x.ServerStep() % grp.q == 0
    ensures m.Some? ==>
              var c1, s1, c2, s2 := m.value.c1, m.value.s1, m.value.c2, m.value.s2;
              c1.pub1 == G(grp, x.x1) && c1.pub2 == G(grp, x.x2) && s1.pub1 == G(grp, x.x3) && s1.pub2 == G(grp, x.x4) &&
              c2.newpub == x.A(grp) && s2.newpub == x.B(grp) &&
              SchnorrVerify(hash, grp.p, grp.q, StepGenerator(grp, s1.pub1, s1.pub2, c1.pub1), c2.newpub, cid, c2.proof) &&
              SchnorrVerify(hash, grp.p, grp.q, StepGenerator(grp, c1.pub1, c1.pub2, s1.pub1), s2.newpub, sid, s2.proof)
  {
    hide ModExp, G, StepValue, StepGenerator, SchnorrVerify;
    var c1 := HonestStep1(hash, grp, cid, x.x1, x.x2, v[0], v[1]);
    var s1 := HonestStep1(hash, grp, sid, x.x3, x.x4, v[2], v[3]);
    var c2 := HonestStep2(hash, grp, x.client, x.x1, x.x3, x.x4, s1, x.x2, cid, v[4]);
    var s2 := HonestStep2(hash, grp, x.server, x.x3, x.x1, x.x2, c1, x.x4, sid, v[5]);
    if c2.None? || s2.None? {
      return None;
    }
    m := Some(Messages(c1, s1, c2.value, s2.value));
  }

  /**
   * The whole exchange between two honest ends.  It is cut short exactly when a
   * step-2 exponent vanishes; otherwise the keys agree exactly when Gap is zero
   * modulo q, and the confirmations succeed exactly when the keys agree, unless
   * the hash collides on two different confirmation inputs.
   */
  method Exchange(hash: Hash, grp: Group, x: Secrets, cid: seq<byte>, sid: seq<byte>, sess: seq<byte>, v: seq<nat>)
    returns (o: Outcome)
    requires ValidGroup(grp) && x.InRange(grp.q) && |v| == 6
    ensures o.Aborted? <==> x.ClientStep() % grp.q == 0 || x.ServerStep() % grp.q == 0
    ensures o.Finished? ==>
              o.clientKey == x.ClientKey(grp) && o.serverKey == x.ServerKey(grp) &&
              (o.clientKey == o.serverKey <==> x.Gap() % grp.q == 0)
    ensures o.Finished? && o.clientKey == o.serverKey ==> o.serverAccepts && o.clientAccepts
    ensures o.Finished? && o.clientKey != o.serverKey ==>
              (o.serverAccepts ==> Collision(hash, ConfirmBytes(o.clientKey, cid, sess), ConfirmBytes(o.serverKey, cid, sess))) &&
              (o.clientAccepts ==> Collision(hash, ConfirmBytes(o.serverKey, sid, sess), ConfirmBytes(o.clientKey, sid, sess)))
  {
    hide ModExp, KeyValue, StepValue, StepGenerator, SchnorrVerify, ConfirmBytes;
    hide Secrets.Gap, Secrets.ClientStep, Secrets.ServerStep;
    var m := Steps(hash, grp, x, cid, sid, v);
    if m.None? {
      return Aborted;
    }
    var Messages(c1, s1, c2, s2) := m.value;
    var ck, cconf := KeyConfirm(hash, grp, x.client, s2, x.x2, c1.pub1, c1.pub2, s1.pub1, s1.pub2, cid, sid, sess);
    var sk, sconf := KeyConfirm(hash, grp, x.server, c2, x.x4, s1.pub1, s1.pub2, c1.pub1, c1.pub2, sid, cid, sess);
    var sa := CheckConfirm(hash, sk.value, cid, sess, cconf);
    var ca := CheckConfirm(hash, ck.value, sid, sess, sconf);
    Agreement(grp, x);
    if ck.value != sk.value {
      if ConfirmBytes(ck.value, cid, sess) == ConfirmBytes(sk.value, cid, sess) {
        ConfirmBytesInjective(ck.value, sk.value, cid, sess);
      }
      if ConfirmBytes(ck.value, sid, sess) == ConfirmBytes(sk.value, sid, sess) {
        ConfirmBytesInjective(ck.value, sk.value, sid, sess);
      }
    }
    o := Finished(ck.value, sk.value, sa, ca);
  }

  predicate Collision(hash: Hash, a: seq<byte>, b: seq<byte>) {
    a != b && hash(a) == hash(b)
  }
}
