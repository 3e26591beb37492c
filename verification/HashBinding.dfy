/** What the hashes bind. SHA-512 and the reduction to a scalar are arbitrary functions, so two
    hashes can only be said to differ up to a collision. Every lemma here names the two hashed
    byte strings: the hashes are equal if and only if all inputs agree or those two strings
    collide. */
module HashBinding {
  import opened PrimeField
  import opened Group
  import opened Party
  import opened Wire
  import opened Vss
  import opened Certeq
  import opened Ecdh
  import P = SimplPedPop
  import E = EncPedPop
  import F = Frost

  /** Two different strings with the same scalar. */
  predicate Collision(s: Suite, a: Bytes, b: Bytes) {
    a != b && s.uniform(s.sha512(a)) == s.uniform(s.sha512(b))
  }

  function Tagged(tag: string, data: Bytes): Bytes {
    Ascii("FROST-Ed25519/ChillDKG/" + tag) + data
  }

  // ---------------------------------------------------------------------------
  // Concatenations
  // ---------------------------------------------------------------------------

  lemma Halves(a: Bytes, b: Bytes, c: Bytes, d: Bytes)
    requires |a| == |c|
    ensures a + b == c + d <==> a == c && b == d
  {
    assert (a + b)[..|a|] == a && (c + d)[..|a|] == c;
    assert (a + b)[|a|..] == b && (c + d)[|a|..] == d;
  }

  lemma Thirds(a: Bytes, b: Bytes, c: Bytes, a': Bytes, b': Bytes, c': Bytes)
    requires |a| == |a'| && |b| == |b'|
    ensures a + b + c == a' + b' + c' <==> a == a' && b == b' && c == c'
  {
    Halves(a + b, c, a' + b', c');
    Halves(a, b, a', b');
  }

  lemma TaggedSame(tag: string, a: Bytes, b: Bytes)
    ensures Tagged(tag, a) == Tagged(tag, b) <==> a == b
  {
    var p := Ascii("FROST-Ed25519/ChillDKG/" + tag);
    Halves(p, a, p, b);
  }

  /** Tags that differ at some place separate their hashes. */
  lemma TagsApart(tag: string, tag': string, k: nat, a: Bytes, b: Bytes)
    requires k < |tag| && k < |tag'| && Ascii(tag)[k] != Ascii(tag')[k]
    ensures Tagged(tag, a) != Tagged(tag', b)
  {
    var m := |"FROST-Ed25519/ChillDKG/"| + k;
    assert Tagged(tag, a)[m] == Ascii(tag)[k];
    assert Tagged(tag', b)[m] == Ascii(tag')[k];
  }

  lemma TaggedHashed(s: Suite, tag: string, data: Bytes)
    ensures TaggedScalar(s, tag, data) == s.uniform(s.sha512(Tagged(tag, data)))
  {
  }

  lemma TaggedBinds(s: Suite, tag: string, a: Bytes, b: Bytes)
    ensures TaggedScalar(s, tag, a) == TaggedScalar(s, tag, b) <==> a == b || Collision(s, Tagged(tag, a), Tagged(tag, b))
  {
    TaggedSame(tag, a, b);
    TaggedHashed(s, tag, a);
    TaggedHashed(s, tag, b);
  }

  lemma EncodedSize(s: Suite, e: Element)
    requires s.Valid()
    ensures |s.Encode(e)| == |s.EncodeEd25519(e)| == 32
  {
  }

  /** Two points and a tail. */
  lemma PointsAndTail(s: Suite, a: Element, b: Element, tail: Bytes, a': Element, b': Element, tail': Bytes)
    requires s.Valid()
    ensures s.Encode(a) + s.Encode(b) + tail == s.Encode(a') + s.Encode(b') + tail' <==>
      Equal(s.q, a, a') && Equal(s.q, b, b') && tail == tail'
  {
    EncodedSize(s, a);
    EncodedSize(s, a');
    EncodedSize(s, b);
    EncodedSize(s, b');
    EncodeExact(s, a, a');
    EncodeExact(s, b, b');
    hide Suite.Valid;
    Thirds(s.Encode(a), s.Encode(b), tail, s.Encode(a'), s.Encode(b'), tail');
  }

  // ---------------------------------------------------------------------------
  // Pads of the share encryption
  // ---------------------------------------------------------------------------

  /** One call of the pad derivation. */
  datatype Exchange = Exchange(seckey: nat, mine: Element, theirs: Element, context: Bytes, sending: bool) {
    function Shared(): Element { Mult(seckey, theirs) }

    function Sender(): Element { if sending then mine else theirs }

    function Receiver(): Element { if sending then theirs else mine }

    function Pad(s: Suite): nat { EcdhPad(s, seckey, mine, theirs, context, sending) }

    function Hashed(s: Suite): Bytes {
      Tagged("encpedpop ecdh", s.Encode(Shared()) + (s.Encode(Sender()) + s.Encode(Receiver()) + context))
    }

    predicate Same(s: Suite, o: Exchange) {
      && Equal(s.q, Shared(), o.Shared()) && Equal(s.q, Sender(), o.Sender()) && Equal(s.q, Receiver(), o.Receiver())
      && context == o.context
    }
  }

  /** A pad binds the shared point, the sender's key, the receiver's key and the context,
      whichever end computes it. */
  lemma EcdhPadBinds(s: Suite, x: Exchange, y: Exchange)
    requires s.Valid()
    ensures x.Pad(s) == y.Pad(s) <==> x.Same(s, y) || Collision(s, x.Hashed(s), y.Hashed(s))
    ensures x.Hashed(s) == y.Hashed(s) <==> x.Same(s, y)
  {
    var tx := s.Encode(x.Sender()) + s.Encode(x.Receiver()) + x.context;
    var ty := s.Encode(y.Sender()) + s.Encode(y.Receiver()) + y.context;
    ExchangeHashed(s, x);
    ExchangeHashed(s, y);
    EncodedSize(s, x.Shared());
    EncodedSize(s, y.Shared());
    EncodeExact(s, x.Shared(), y.Shared());
    PointsAndTail(s, x.Sender(), x.Receiver(), x.context, y.Sender(), y.Receiver(), y.context);
    hide Suite.Valid;
    hide Tagged;
    hide Equal;
    Halves(s.Encode(x.Shared()), tx, s.Encode(y.Shared()), ty);
    TaggedSame("encpedpop ecdh", s.Encode(x.Shared()) + tx, s.Encode(y.Shared()) + ty);
  }

  lemma ExchangeHashed(s: Suite, x: Exchange)
    ensures x.Pad(s) == s.uniform(s.sha512(x.Hashed(s)))
  {
    var shared, a, b := s.Encode(x.Shared()), s.Encode(x.Sender()), s.Encode(x.Receiver());
    assert shared + (a + b) + x.context == shared + (a + b + x.context);
    TaggedHashed(s, "encpedpop ecdh", shared + (a + b) + x.context);
    hide Tagged;
    hide Suite.Encode;
  }

  /** The pad of a participant for itself. */
  datatype Own = Own(symkey: Bytes, nonce: Element, context: Bytes) {
    function Pad(s: Suite): nat { SelfPad(s, symkey, nonce, context) }

    function Hashed(s: Suite): Bytes {
      Tagged("encaps_multi self_pad", symkey + s.Encode(nonce) + context)
    }

    predicate Same(s: Suite, o: Own) {
      symkey == o.symkey && Equal(s.q, nonce, o.nonce) && context == o.context
    }
  }

  lemma SelfPadBinds(s: Suite, x: Own, y: Own)
    requires s.Valid() && |x.symkey| == |y.symkey|
    ensures x.Pad(s) == y.Pad(s) <==> x.Same(s, y) || Collision(s, x.Hashed(s), y.Hashed(s))
    ensures x.Hashed(s) == y.Hashed(s) <==> x.Same(s, y)
  {
    EncodedSize(s, x.nonce);
    EncodedSize(s, y.nonce);
    EncodeExact(s, x.nonce, y.nonce);
    hide Suite.Valid;
    hide Tagged;
    hide Equal;
    var a, b := x.symkey + s.Encode(x.nonce) + x.context, y.symkey + s.Encode(y.nonce) + y.context;
    Thirds(x.symkey, s.Encode(x.nonce), x.context, y.symkey, s.Encode(y.nonce), y.context);
    TaggedSame("encaps_multi self_pad", a, b);
    TaggedHashed(s, "encaps_multi self_pad", a);
    TaggedHashed(s, "encaps_multi self_pad", b);
  }

  /** The encryption context names the threshold and the host keys. */
  lemma ContextBinds(s: Suite, t: nat, keys: seq<Element>, t': nat, keys': seq<Element>)
    requires s.Valid()
    ensures E.Context(s, t, keys) == E.Context(s, t', keys') <==>
      t % 0x1_0000_0000 == t' % 0x1_0000_0000 && EqualAll(s, keys, keys')
  {
    Halves(U32(t), Join(ElementBlocks(s, keys)), U32(t'), Join(ElementBlocks(s, keys')));
    U32Exact(t, t');
    BlocksUniform(s, keys, []);
    BlocksUniform(s, keys', []);
    ElementBlocksExact(s, keys, keys');
    hide Suite.Valid;
    hide U32;
    hide ElementBlocks;
    JoinExact(ElementBlocks(s, keys), ElementBlocks(s, keys'), 32);
  }

  lemma U32Exact(x: nat, y: nat)
    ensures U32(x) == U32(y) <==> x % 0x1_0000_0000 == y % 0x1_0000_0000
  {
    U32RoundTrip(x);
    U32RoundTrip(y);
  }

  lemma JoinExact(a: seq<Bytes>, b: seq<Bytes>, k: Modulus)
    requires Uniform(a, k) && Uniform(b, k)
    ensures Join(a) == Join(b) <==> a == b
  {
    if Join(a) == Join(b) {
      JoinSize(a, k);
      JoinSize(b, k);
      SameFactor(k, |a|, |b|);
      BlocksJoin(a, k, []);
      BlocksJoin(b, k, []);
    }
  }

  lemma SameFactor(k: Modulus, a: nat, b: nat)
    requires k * a == k * b
    ensures a == b
  {
    assert k * (a - b) == 0;
    SmallMultiple(k, a - b);
  }

  /** A sender's pad for receiver i, in the session with this threshold and these keys. */
  datatype Sending = Sending(secnonce: nat, deckey: nat, t: nat, keys: seq<Element>, idx: nat, i: nat) {
    predicate Valid(s: Suite) {
      deckey < s.q && i < |keys|
    }

    function Ctx(s: Suite): Bytes { U32(i) + E.Context(s, t, keys) }

    function Pad(s: Suite): nat
      requires Valid(s)
    {
      SendPad(s, secnonce, deckey, keys, E.Context(s, t, keys), idx, i)
    }

    function AsOwn(s: Suite): Own { Own(s.scalarBytes(deckey), BaseMult(secnonce), Ctx(s)) }

    function AsExchange(s: Suite): Exchange
      requires Valid(s)
    {
      Exchange(secnonce, BaseMult(secnonce), keys[i], Ctx(s), true)
    }

    function Hashed(s: Suite): Bytes
      requires Valid(s)
    {
      if i == idx then AsOwn(s).Hashed(s) else AsExchange(s).Hashed(s)
    }

    /** The same nonce, the same receiver, the same session, and for oneself the same key. */
    predicate Same(s: Suite, o: Sending)
      requires Valid(s) && o.Valid(s)
    {
      && (i == idx <==> o.i == o.idx) && i % 0x1_0000_0000 == o.i % 0x1_0000_0000
      && t % 0x1_0000_0000 == o.t % 0x1_0000_0000 && EqualAll(s, keys, o.keys)
      && Equal(s.q, BaseMult(secnonce), BaseMult(o.secnonce))
      && if i == idx then deckey == o.deckey
         else Equal(s.q, keys[i], o.keys[o.i])
    }
  }

  /** Two pads are equal only for one nonce, one receiver and one session: no pad of a session
      covers two shares. */
  lemma SendPadBinds(s: Suite, x: Sending, y: Sending)
    requires s.Valid() && x.Valid(s) && y.Valid(s)
    ensures x.Pad(s) == y.Pad(s) <==> x.Same(s, y) || Collision(s, x.Hashed(s), y.Hashed(s))
  {
    hide Suite.Valid;
    hide Sending.Ctx;
    hide Own.Hashed;
    hide Exchange.Hashed;
    hide Equal;
    hide EqualAll;
    hide SelfPad;
    hide EcdhPad;
    SendingHashed(s, x);
    SendingHashed(s, y);
    CtxBinds(s, x, y);
    if (x.i == x.idx) != (y.i == y.idx) {
      hide Ascii;
      HashesApart(s, x, y);
    } else if x.i == x.idx {
      KeyBytes(s, x.deckey, y.deckey);
      SelfPadBinds(s, x.AsOwn(s), y.AsOwn(s));
    } else {
      EcdhPadBinds(s, x.AsExchange(s), y.AsExchange(s));
      SharedFollows(s.q, x.secnonce, x.keys[x.i], y.secnonce, y.keys[y.i]);
    }
  }

  lemma SharedFollows(q: Modulus, k: nat, a: Element, k': nat, a': Element)
    ensures Equal(q, BaseMult(k), BaseMult(k')) && Equal(q, a, a') ==> Equal(q, Mult(k, a), Mult(k', a'))
  {
    if Cong(q, k, k') && Cong(q, a.log, a'.log) {
      CongScale(q, k, a.log, a'.log);
      CongScale(q, a'.log, k, k');
      assert a'.log * k == k * a'.log && a'.log * k' == k' * a'.log;
    }
  }

  lemma KeyBytes(s: Suite, k: nat, k': nat)
    requires s.Valid() && k < s.q && k' < s.q
    ensures |s.scalarBytes(k)| == |s.scalarBytes(k')| == 32 && (s.scalarBytes(k) == s.scalarBytes(k') <==> k == k')
  {
  }

  lemma SendingHashed(s: Suite, x: Sending)
    requires x.Valid(s)
    ensures x.Pad(s) == s.uniform(s.sha512(x.Hashed(s)))
  {
    if x.i == x.idx {
      var o := x.AsOwn(s);
      TaggedHashed(s, "encaps_multi self_pad", o.symkey + s.Encode(o.nonce) + o.context);
    } else {
      ExchangeHashed(s, x.AsExchange(s));
    }
  }

  lemma HashesApart(s: Suite, x: Sending, y: Sending)
    requires x.Valid(s) && y.Valid(s) && (x.i == x.idx) != (y.i == y.idx)
    ensures x.Hashed(s) != y.Hashed(s)
  {
    if x.i == x.idx {
      KindsApart(s, x.AsOwn(s), y.AsExchange(s));
    } else {
      KindsApart(s, y.AsOwn(s), x.AsExchange(s));
    }
  }

  lemma KindsApart(s: Suite, x: Own, y: Exchange)
    ensures x.Hashed(s) != y.Hashed(s)
  {
    var a := x.symkey + s.Encode(x.nonce) + x.context;
    var b := s.Encode(y.Shared()) + (s.Encode(y.Sender()) + s.Encode(y.Receiver()) + y.context);
    assert Ascii("encaps_multi self_pad")[3] == 'a' as nat && Ascii("encpedpop ecdh")[3] == 'p' as nat;
    TagsApart("encaps_multi self_pad", "encpedpop ecdh", 3, a, b);
  }

  lemma CtxBinds(s: Suite, x: Sending, y: Sending)
    requires s.Valid()
    ensures x.Ctx(s) == y.Ctx(s) <==>
      x.i % 0x1_0000_0000 == y.i % 0x1_0000_0000 && x.t % 0x1_0000_0000 == y.t % 0x1_0000_0000 && EqualAll(s, x.keys, y.keys)
  {
    U32Exact(x.i, y.i);
    Halves(U32(x.i), E.Context(s, x.t, x.keys), U32(y.i), E.Context(s, y.t, y.keys));
    ContextBinds(s, x.t, x.keys, y.t, y.keys);
    hide U32;
    hide E.Context;
    hide Suite.Valid;
  }

  // ---------------------------------------------------------------------------
  // Derivations of a participant
  // ---------------------------------------------------------------------------

  /** Strings whose digests start with the same 32 bytes. */
  predicate DigestCollision(s: Suite, a: Bytes, b: Bytes) {
    a != b && |s.sha512(a)| >= 32 && |s.sha512(b)| >= 32 && s.sha512(a)[..32] == s.sha512(b)[..32]
  }

  /** The inner seed binds the long-term secret, the randomness and the context. */
  lemma SeedBinds(s: Suite, seed: Bytes, random: Bytes, context: Bytes, seed': Bytes, random': Bytes, context': Bytes)
    requires s.Valid() && |seed| == |seed'| && |random| == |random'|
    ensures E.SimplSeed(s, seed, random, context) == E.SimplSeed(s, seed', random', context') <==>
      || (seed == seed' && random == random' && context == context')
      || DigestCollision(s, Tagged("encpedpop seed", seed + random + context), Tagged("encpedpop seed", seed' + random' + context'))
  {
    Thirds(seed, random, context, seed', random', context');
    TaggedSame("encpedpop seed", seed + random + context, seed' + random' + context');
  }

  /** A coefficient binds the seed and its position. */
  lemma CoefficientBinds(s: Suite, seed: Bytes, t: nat, i: nat, seed': Bytes, t': nat, j: nat)
    requires |seed| == |seed'| && i < t && j < t'
    ensures P.Coeffs(s, seed, t)[i] == P.Coeffs(s, seed', t')[j] <==>
      || (seed == seed' && i % 0x1_0000_0000 == j % 0x1_0000_0000)
      || Collision(s, Tagged("vss coeffs", seed + U32(i)), Tagged("vss coeffs", seed' + U32(j)))
  {
    U32Exact(i, j);
    Halves(seed, U32(i), seed', U32(j));
    TaggedBinds(s, "vss coeffs", seed + U32(i), seed' + U32(j));
    hide U32;
    hide Tagged;
    hide TaggedScalar;
  }

  lemma SecNonceBinds(s: Suite, seed: Bytes, seed': Bytes)
    ensures E.SecNonce(s, seed) == E.SecNonce(s, seed') <==>
      seed == seed' || Collision(s, Tagged("encpedpop secnonce", seed), Tagged("encpedpop secnonce", seed'))
  {
    TaggedBinds(s, "encpedpop secnonce", seed, seed');
  }

  // ---------------------------------------------------------------------------
  // Signatures
  // ---------------------------------------------------------------------------

  /** The challenge of a certificate or a proof of possession binds nonce, key and message. */
  lemma SchnorrChallengeBinds(s: Suite, R: Element, key: Element, msg: Bytes, R': Element, key': Element, msg': Bytes)
    requires s.Valid()
    ensures SchnorrChallenge(s, R, key, msg) == SchnorrChallenge(s, R', key', msg') <==>
      || (Equal(s.q, R, R') && Equal(s.q, key, key') && msg == msg')
      || Collision(s, Tagged("schnorr challenge", s.Encode(R) + s.Encode(key) + msg),
                      Tagged("schnorr challenge", s.Encode(R') + s.Encode(key') + msg'))
  {
    PointsAndTail(s, R, key, msg, R', key', msg');
    hide Suite.Valid;
    hide Equal;
    hide Suite.Encode;
    TaggedBinds(s, "schnorr challenge", s.Encode(R) + s.Encode(key) + msg, s.Encode(R') + s.Encode(key') + msg');
  }

  /** Two signatures of these deterministic signers share their nonce point only for one key and
      one message. */
  lemma NonceBinds(s: Suite, key: nat, pubkey: Element, msg: Bytes, key': nat, pubkey': Element, msg': Bytes)
    requires s.Valid() && key < s.q && key' < s.q
    ensures
      var sig, sig' := SchnorrSign(s, key, pubkey, msg), SchnorrSign(s, key', pubkey', msg');
      |sig| == |sig'| == 64 && (sig[..32] == sig'[..32] <==>
        || (key == key' && msg == msg')
        || Collision(s, Tagged("schnorr nonce", s.scalarBytes(key) + msg), Tagged("schnorr nonce", s.scalarBytes(key') + msg')))
  {
    KeyBytes(s, key, key');
    Halves(s.scalarBytes(key), msg, s.scalarBytes(key'), msg');
    var a, b := s.scalarBytes(key) + msg, s.scalarBytes(key') + msg';
    TaggedBinds(s, "schnorr nonce", a, b);
    var k, k' := TaggedScalar(s, "schnorr nonce", a), TaggedScalar(s, "schnorr nonce", b);
    NonceStart(s, key, pubkey, msg);
    NonceStart(s, key', pubkey', msg');
    EncodeExact(s, BaseMult(k), BaseMult(k'));
    hide *;
    SmallExact(s.q, k, k');
    GroupEqual(s.q, k, k');
  }

  lemma GroupEqual(q: Modulus, k: nat, k': nat)
    ensures Equal(q, BaseMult(k), BaseMult(k')) <==> Cong(q, k, k')
  {
  }

  lemma SmallExact(q: Modulus, k: nat, k': nat)
    requires k < q && k' < q
    ensures Cong(q, k, k') <==> k == k'
  {
  }

  lemma NonceStart(s: Suite, key: nat, pubkey: Element, msg: Bytes)
    requires s.Valid()
    ensures
      var sig, k := SchnorrSign(s, key, pubkey, msg), TaggedScalar(s, "schnorr nonce", s.scalarBytes(key) + msg);
      |sig| == 64 && sig[..32] == s.Encode(BaseMult(k)) && k < s.q
  {
    var k := TaggedScalar(s, "schnorr nonce", s.scalarBytes(key) + msg);
    EncodedSize(s, BaseMult(k));
    var z := (key * SchnorrChallenge(s, BaseMult(k), pubkey, msg) + k) % s.q;
    assert |s.scalarBytes(z)| == 32;
    hide SchnorrChallenge;
    hide Suite.Encode;
    hide Suite.Valid;
  }

  /** The string hashed into the signing challenge. */
  function ChallengeString(s: Suite, R: Element, key: Element, msg: Bytes): Bytes {
    s.EncodeEd25519(R) + s.EncodeEd25519(key) + msg
  }

  lemma Ed25519Exact(s: Suite, e: Element, f: Element)
    requires s.Valid()
    ensures s.EncodeEd25519(e) == s.EncodeEd25519(f) <==> Equal(s.q, e, f)
  {
  }

  /** The signing challenge binds the nonce, the group key and the message. */
  lemma ChallengeBinds(s: Suite, R: Element, key: Element, msg: Bytes, R': Element, key': Element, msg': Bytes)
    requires s.Valid()
    ensures F.Challenge(s, R, key, msg) == F.Challenge(s, R', key', msg') <==>
      || (Equal(s.q, R, R') && Equal(s.q, key, key') && msg == msg')
      || Collision(s, ChallengeString(s, R, key, msg), ChallengeString(s, R', key', msg'))
  {
    EncodedSize(s, R);
    EncodedSize(s, R');
    EncodedSize(s, key);
    EncodedSize(s, key');
    Ed25519Exact(s, R, R');
    Ed25519Exact(s, key, key');
    hide Suite.Valid;
    hide Equal;
    hide Suite.EncodeEd25519;
    Thirds(s.EncodeEd25519(R), s.EncodeEd25519(key), msg, s.EncodeEd25519(R'), s.EncodeEd25519(key'), msg');
  }

  /** The same signers with the same commitments. */
  predicate SameCommitments(s: Suite, ids: seq<ID>, pre: map<ID, F.PreShare>, ids': seq<ID>, pre': map<ID, F.PreShare>)
    requires (forall id <- ids :: id in pre) && (forall id <- ids' :: id in pre')
  {
    && ids == ids'
    && forall id <- ids :: Equal(s.q, pre[id].D, pre'[id].D) && Equal(s.q, pre[id].E, pre'[id].E)
  }

  lemma {:induction false} CommitmentListBinds(s: Suite, ids: seq<ID>, pre: map<ID, F.PreShare>, ids': seq<ID>, pre': map<ID, F.PreShare>)
    requires s.Valid() && (forall id <- ids :: id in pre) && (forall id <- ids' :: id in pre')
    ensures F.CommitmentList(s, ids, pre) == F.CommitmentList(s, ids', pre') <==> SameCommitments(s, ids, pre, ids', pre')
    ensures |F.CommitmentList(s, ids, pre)| == 66 * |ids|
  {
    ListSize(s, ids, pre);
    ListSize(s, ids', pre');
    if |ids| == |ids'| > 0 {
      var n := |ids| - 1;
      CommitmentListBinds(s, ids[..n], pre, ids'[..n], pre');
      LastBinds(s, ids, pre, ids', pre');
    }
  }

  lemma {:induction false} ListSize(s: Suite, ids: seq<ID>, pre: map<ID, F.PreShare>)
    requires s.Valid() && forall id <- ids :: id in pre
    ensures |F.CommitmentList(s, ids, pre)| == 66 * |ids|
  {
    if ids != [] {
      var id := ids[|ids| - 1];
      ListSize(s, ids[..|ids| - 1], pre);
      EncodedSize(s, pre[id].D);
      EncodedSize(s, pre[id].E);
      hide Suite.Valid;
    }
  }

  /** One signer's entry. */
  function Entry(s: Suite, id: ID, p: F.PreShare): Bytes {
    IDBytes(id) + s.Encode(p.D) + s.Encode(p.E)
  }

  lemma EntryBinds(s: Suite, id: ID, p: F.PreShare, id': ID, p': F.PreShare)
    requires s.Valid()
    ensures |Entry(s, id, p)| == |Entry(s, id', p')| == 66
    ensures Entry(s, id, p) == Entry(s, id', p') <==> id == id' && Equal(s.q, p.D, p'.D) && Equal(s.q, p.E, p'.E)
  {
    EncodedSize(s, p.D);
    EncodedSize(s, p'.D);
    EncodedSize(s, p.E);
    EncodedSize(s, p'.E);
    EncodeExact(s, p.D, p'.D);
    EncodeExact(s, p.E, p'.E);
    IDBytesExact(id, id');
    hide Suite.Valid;
    hide Equal;
    hide IDBytes;
    hide Suite.Encode;
    Thirds(IDBytes(id), s.Encode(p.D), s.Encode(p.E), IDBytes(id'), s.Encode(p'.D), s.Encode(p'.E));
  }

  lemma IDBytesExact(id: ID, id': ID)
    ensures |IDBytes(id)| == |IDBytes(id')| == 2 && (IDBytes(id) == IDBytes(id') <==> id == id')
  {
  }

  lemma LastBinds(s: Suite, ids: seq<ID>, pre: map<ID, F.PreShare>, ids': seq<ID>, pre': map<ID, F.PreShare>)
    requires s.Valid() && (forall id <- ids :: id in pre) && (forall id <- ids' :: id in pre') && |ids| == |ids'| > 0
    requires
      var n := |ids| - 1;
      F.CommitmentList(s, ids[..n], pre) == F.CommitmentList(s, ids'[..n], pre') <==> SameCommitments(s, ids[..n], pre, ids'[..n], pre')
    ensures F.CommitmentList(s, ids, pre) == F.CommitmentList(s, ids', pre') <==> SameCommitments(s, ids, pre, ids', pre')
  {
    hide Suite.Valid;
    hide Equal;
    hide IDBytes;
    var n := |ids| - 1;
    var id, id' := ids[n], ids'[n];
    var head, head' := F.CommitmentList(s, ids[..n], pre), F.CommitmentList(s, ids'[..n], pre');
    ListSize(s, ids[..n], pre);
    ListSize(s, ids'[..n], pre');
    EntryBinds(s, id, pre[id], id', pre'[id']);
    Halves(head, Entry(s, id, pre[id]), head', Entry(s, id', pre'[id']));
    assert F.CommitmentList(s, ids, pre) == head + Entry(s, id, pre[id]);
    assert F.CommitmentList(s, ids', pre') == head' + Entry(s, id', pre'[id']);
    hide F.CommitmentList;
    assert ids == ids[..n] + [id] && ids' == ids'[..n] + [id'];
  }

  /** The binding factor of a signer binds its identifier, the digest of the message, and all
      signers with their commitments, in order. */
  lemma BindingFactorBinds(s: Suite, id: ID, ids: seq<ID>, pre: map<ID, F.PreShare>, message: Bytes,
                           id': ID, ids': seq<ID>, pre': map<ID, F.PreShare>, message': Bytes)
    requires s.Valid() && (forall i <- ids :: i in pre) && (forall i <- ids' :: i in pre')
    ensures F.BindingFactor(s, id, ids, pre, message) == F.BindingFactor(s, id', ids', pre', message') <==>
      || (id == id' && s.sha512(message) == s.sha512(message') && SameCommitments(s, ids, pre, ids', pre'))
      || Collision(s, BindingString(s, id, ids, pre, message), BindingString(s, id', ids', pre', message'))
  {
    var h, h' := s.sha512(message), s.sha512(message');
    var l, l' := F.CommitmentList(s, ids, pre), F.CommitmentList(s, ids', pre');
    DigestSize(s, message);
    DigestSize(s, message');
    CommitmentListBinds(s, ids, pre, ids', pre');
    BindingHashed(s, id, ids, pre, message);
    BindingHashed(s, id', ids', pre', message');
    IDBytesExact(id, id');
    hide *;
    var a, a' := IDBytes(id), IDBytes(id');
    Thirds(Head() + a, h, l, Head() + a', h', l');
    Halves(Head(), a, Head(), a');
    BindingParts(s, id, ids, pre, message);
    BindingParts(s, id', ids', pre', message');
    CollisionIs(s, BindingString(s, id, ids, pre, message), BindingString(s, id', ids', pre', message'));
  }

  lemma CollisionIs(s: Suite, a: Bytes, b: Bytes)
    ensures s.uniform(s.sha512(a)) == s.uniform(s.sha512(b)) <==> a == b || Collision(s, a, b)
  {
  }

  lemma DigestSize(s: Suite, message: Bytes)
    requires s.Valid()
    ensures |s.sha512(message)| == 64
  {
  }

  function Head(): Bytes { Ascii("FROST-SHA512") }

  /** Tag, identifier, digest and list. */
  function BindingString(s: Suite, id: ID, ids: seq<ID>, pre: map<ID, F.PreShare>, message: Bytes): Bytes
    requires forall i <- ids :: i in pre
  {
    Head() + IDBytes(id) + s.sha512(message) + F.CommitmentList(s, ids, pre)
  }

  lemma BindingParts(s: Suite, id: ID, ids: seq<ID>, pre: map<ID, F.PreShare>, message: Bytes)
    requires forall i <- ids :: i in pre
    ensures BindingString(s, id, ids, pre, message) == Head() + IDBytes(id) + s.sha512(message) + F.CommitmentList(s, ids, pre)
  {
  }

  lemma BindingHashed(s: Suite, id: ID, ids: seq<ID>, pre: map<ID, F.PreShare>, message: Bytes)
    requires forall i <- ids :: i in pre
    ensures F.BindingFactor(s, id, ids, pre, message) == s.uniform(s.sha512(BindingString(s, id, ids, pre, message)))
  {
    assert F.DomainTag == Head();
    hide F.CommitmentList;
    hide IDBytes;
    hide Head;
    assert F.BindingInput(s, id, ids, pre, message) == BindingString(s, id, ids, pre, message);
  }
}
