/** Hash tags, Schnorr signatures and the equality certificate of ChillDKG. */
module Certeq {
  import opened PrimeField
  import opened Group
  import opened Wire
  import opened Sums

  const DkgTag := "FROST-Ed25519/ChillDKG/"

  datatype Error =
    | ThresholdOrCount
    | DuplicateHostPubkey(first: nat, second: nat)
    | HostkeyMismatch
    | InvalidRandomness
    | IndexOutOfRange
    | WrongCount
    | FaultyCoordinator
    | FaultyParticipant(index: nat)
    | FaultyParticipantOrCoord
    | InvalidCertificate
    | InvalidRecoveryData

  datatype Result<+T> = Ok(value: T) | Err(error: Error)

  function Ascii(text: string): Bytes {
    seq(|text|, i requires 0 <= i < |text| => text[i] as nat % 256)
  }

  function Digest(s: Suite, tag: string, data: Bytes): Bytes {
    s.sha512(Ascii(DkgTag + tag) + data)
  }

  /** taggedHash */
  function TaggedHash(s: Suite, tag: string, data: Bytes): (h: Bytes)
    requires s.Valid()
    ensures |h| == 32
  {
    Digest(s, tag, data)[..32]
  }

  /** taggedHashScalar */
  function TaggedScalar(s: Suite, tag: string, data: Bytes): nat {
    s.uniform(Digest(s, tag, data))
  }

  // ---------------------------------------------------------------------------
  // Schnorr signatures
  // ---------------------------------------------------------------------------

  function SchnorrChallenge(s: Suite, R: Element, pubkey: Element, msg: Bytes): nat {
    TaggedScalar(s, "schnorr challenge", s.Encode(R) + s.Encode(pubkey) + msg)
  }

  function SchnorrSign(s: Suite, seckey: nat, pubkey: Element, msg: Bytes): Bytes {
    var k := TaggedScalar(s, "schnorr nonce", s.scalarBytes(seckey) + msg);
    var R := BaseMult(k);
    s.Encode(R) + s.scalarBytes((seckey * SchnorrChallenge(s, R, pubkey, msg) + k) % s.q)
  }

  predicate SchnorrVerify(s: Suite, pubkey: Element, msg: Bytes, sig: Bytes) {
    && |sig| == 64
    && s.elementFrom(sig[..32]).Some? && s.scalarFrom(sig[32..]).Some?
    && var R := Element(s.elementFrom(sig[..32]).value);
       Equal(s.q, DoubleMult(SchnorrChallenge(s, R, pubkey, msg), Negate(pubkey), s.scalarFrom(sig[32..]).value), R)
  }

  /** A signature verifies under the public key that belongs to its secret key. */
  lemma SignatureVerifies(s: Suite, seckey: nat, pubkey: Element, msg: Bytes)
    requires s.Valid() && Equal(s.q, pubkey, BaseMult(seckey))
    ensures |SchnorrSign(s, seckey, pubkey, msg)| == 64
    ensures SchnorrVerify(s, pubkey, msg, SchnorrSign(s, seckey, pubkey, msg))
  {
    var k := TaggedScalar(s, "schnorr nonce", s.scalarBytes(seckey) + msg);
    var R := BaseMult(k);
    var c := SchnorrChallenge(s, R, pubkey, msg);
    var z := (seckey * c + k) % s.q;
    assert |s.Encode(R)| == 32 && |s.scalarBytes(z)| == 32;
    hide SchnorrVerify;
    hide SchnorrChallenge;
    hide Suite.Valid;
    hide Suite.Encode;
    CongMod(s.q, seckey * c + k);
    SchnorrExact(s, pubkey, seckey, R, k, z, msg);
  }

  lemma SchnorrEquationExact(q: Modulus, x: int, y: int, c: int, k: int, z: int, r: int)
    requires Cong(q, y, x) && Cong(q, r, k)
    ensures Cong(q, c * -y + z, r) <==> Cong(q, z, x * c + k)
  {
    CongScale(q, c, y, x);
    var m := c * y;
    assert c * -y == -m && c * x == x * c;
    if Cong(q, -m + z, r) {
      CongAdd(q, -m + z, r, m, m);
      CongAdd(q, r, k, m, x * c);
    }
    if Cong(q, z, x * c + k) {
      CongAdd(q, x * c, m, k, r);
      CongAdd(q, z, m + r, -m, -m);
    }
  }

  /** For the key x, the nonce k and any scalar z: the signature is accepted if and only if z is
      the response k + c * x. */
  lemma SchnorrExact(s: Suite, pubkey: Element, x: int, R: Element, k: int, z: nat, msg: Bytes)
    requires s.Valid() && Equal(s.q, pubkey, BaseMult(x)) && Equal(s.q, R, BaseMult(k)) && z < s.q
    ensures SchnorrVerify(s, pubkey, msg, s.Encode(R) + s.scalarBytes(z)) <==>
      Cong(s.q, z, x * SchnorrChallenge(s, R, pubkey, msg) + k)
  {
    var sig := s.Encode(R) + s.scalarBytes(z);
    var R' := Element(R.log % s.q);
    CongMod(s.q, R.log);
    EncodeExact(s, R, R');
    assert sig[..32] == s.Encode(R) && sig[32..] == s.scalarBytes(z);
    assert s.elementFrom(sig[..32]) == Some(R.log % s.q) && s.scalarFrom(sig[32..]) == Some(z) && |sig| == 64;
    var c := SchnorrChallenge(s, R, pubkey, msg);
    assert SchnorrChallenge(s, R', pubkey, msg) == c;
    hide Suite.Valid;
    hide SchnorrChallenge;
    SchnorrEquationExact(s.q, x, pubkey.log, c, k, z, R'.log);
  }

  /** So each key, message and nonce point admit exactly one scalar. */
  lemma SchnorrUnique(s: Suite, pubkey: Element, R: Element, z: nat, z': nat, msg: Bytes)
    requires s.Valid() && z < s.q && z' < s.q
    requires SchnorrVerify(s, pubkey, msg, s.Encode(R) + s.scalarBytes(z))
    requires SchnorrVerify(s, pubkey, msg, s.Encode(R) + s.scalarBytes(z'))
    ensures z == z'
  {
    hide SchnorrVerify;
    hide SchnorrChallenge;
    hide Suite.Valid;
    hide Suite.Encode;
    var w := pubkey.log * SchnorrChallenge(s, R, pubkey, msg) + R.log;
    SchnorrExact(s, pubkey, pubkey.log, R, R.log, z, msg);
    SchnorrExact(s, pubkey, pubkey.log, R, R.log, z', msg);
    ReducedUnique(s.q, z, z', w);
  }

  lemma ReducedUnique(q: Modulus, z: nat, z': nat, w: int)
    requires z < q && z' < q && Cong(q, z, w) && Cong(q, z', w)
    ensures z == z'
  {
    RemainderUnique(q, z, 0, z);
    RemainderUnique(q, z', 0, z');
  }

  /** Whatever is accepted is the encoding of a point and a reduced scalar. */
  lemma SchnorrForm(s: Suite, pubkey: Element, msg: Bytes, sig: Bytes) returns (R: Element, z: nat)
    requires s.Valid() && SchnorrVerify(s, pubkey, msg, sig)
    ensures z < s.q && sig == s.Encode(R) + s.scalarBytes(z)
    ensures Cong(s.q, z, pubkey.log * SchnorrChallenge(s, R, pubkey, msg) + R.log)
  {
    R := Element(s.elementFrom(sig[..32]).value);
    z := s.scalarFrom(sig[32..]).value;
    DecodedBytes(s, sig[..32]);
    assert sig == sig[..32] + sig[32..];
    SchnorrExact(s, pubkey, pubkey.log, R, R.log, z, msg);
  }

  /** Keys that are equal in the group verify the same signatures. */
  lemma VerifyRespectsEqual(s: Suite, pubkey: Element, pubkey': Element, msg: Bytes, sig: Bytes)
    requires s.Valid() && Equal(s.q, pubkey, pubkey') && SchnorrVerify(s, pubkey, msg, sig)
    ensures SchnorrVerify(s, pubkey', msg, sig)
  {
    hide Suite.Valid;
    EncodeExact(s, pubkey, pubkey');
    var R := Element(s.elementFrom(sig[..32]).value);
    var c := SchnorrChallenge(s, R, pubkey, msg);
    assert SchnorrChallenge(s, R, pubkey', msg) == c;
    hide SchnorrChallenge;
    hide Cong;
    SameKeyEquation(s.q, pubkey, pubkey', c, s.scalarFrom(sig[32..]).value, R);
  }

  lemma SameKeyEquation(q: Modulus, pubkey: Element, pubkey': Element, c: int, z: nat, R: Element)
    requires Equal(q, pubkey, pubkey') && Equal(q, DoubleMult(c, Negate(pubkey), z), R)
    ensures Equal(q, DoubleMult(c, Negate(pubkey'), z), R)
  {
    EquationIs(q, pubkey, c, z, R);
    EquationIs(q, pubkey', c, z, R);
    hide DoubleMult;
    hide Negate;
    hide Cong;
    var y, y' := pubkey.log, pubkey'.log;
    NegatedProduct(q, c, y, y');
    ShiftCong(q, c * -y, c * -y', z, R.log);
  }

  lemma EquationIs(q: Modulus, pubkey: Element, c: int, z: nat, R: Element)
    ensures Equal(q, DoubleMult(c, Negate(pubkey), z), R) <==> Cong(q, c * -pubkey.log + z, R.log)
  {
    hide Cong;
  }

  lemma NegatedProduct(q: Modulus, c: int, y: int, y': int)
    requires Cong(q, y, y')
    ensures Cong(q, c * -y, c * -y')
  {
    CongScale(q, -1, y, y');
    CongScale(q, c, -y, -y');
  }

  lemma ShiftCong(q: Modulus, a: int, a': int, z: int, r: int)
    requires Cong(q, a, a') && Cong(q, a + z, r)
    ensures Cong(q, a' + z, r)
  {
    CongAdd(q, a, a', z, z);
  }

  // ---------------------------------------------------------------------------
  // The equality certificate
  // ---------------------------------------------------------------------------

  function CerteqPrefix(): Bytes {
    Ascii(DkgTag + "certeq message")
  }

  function CerteqMessage(eqInput: Bytes, idx: nat): Bytes {
    CerteqPrefix() + (U32(idx) + eqInput)
  }

  /** The padding to 33 bytes. */
  method Pad(prefix: Bytes) returns (padded: Bytes)
    ensures |padded| == if |prefix| < 33 then 33 else |prefix|
    ensures padded[..|prefix|] == prefix && forall i :: |prefix| <= i < |padded| ==> padded[i] == 0
  {
    padded := prefix;
    while |padded| < 33
      invariant |prefix| <= |padded| && (|padded| <= 33 || |padded| == |prefix|)
      invariant padded[..|prefix|] == prefix && forall i :: |prefix| <= i < |padded| ==> padded[i] == 0
      decreases 33 - |padded|
    {
      padded := padded + [0];
    }
  }

  /** certeqMessage: the padding has nothing to add, the prefix is longer than 33 bytes. */
  method BuildCerteqMessage(eqInput: Bytes, idx: nat) returns (msg: Bytes)
    ensures msg == CerteqMessage(eqInput, idx)
  {
    var prefix := Pad(CerteqPrefix());
    msg := prefix + (U32(idx) + eqInput);
  }

  /** The message names its index and its transcript. */
  lemma CerteqMessageInjective(a: Bytes, i: nat, b: Bytes, j: nat)
    requires CerteqMessage(a, i) == CerteqMessage(b, j) && i < 0x1_0000_0000 && j < 0x1_0000_0000
    ensures i == j && a == b
  {
    var p := CerteqPrefix();
    var x, y := U32(i) + a, U32(j) + b;
    assert (p + x)[|p|..] == x && (p + y)[|p|..] == y;
    assert x[..4] == U32(i) && y[..4] == U32(j) && x[4..] == a && y[4..] == b;
    U32Injective(i, j);
  }

  function CerteqSign(s: Suite, hostseckey: nat, hostpubkey: Element, idx: nat, eqInput: Bytes): Bytes {
    SchnorrSign(s, hostseckey, hostpubkey, CerteqMessage(eqInput, idx))
  }

  predicate SignedBy(s: Suite, hostpubkeys: seq<Element>, eqInput: Bytes, cert: Bytes, i: nat)
    requires i < |hostpubkeys|
  {
    SchnorrVerify(s, hostpubkeys[i], CerteqMessage(eqInput, i), Block(cert, 64, i))
  }

  /** A certificate: one valid signature on the transcript per host key. */
  predicate Certified(s: Suite, hostpubkeys: seq<Element>, eqInput: Bytes, cert: Bytes) {
    && |cert| == 64 * |hostpubkeys|
    && forall i :: 0 <= i < |hostpubkeys| ==> SignedBy(s, hostpubkeys, eqInput, cert, i)
  }

  /** certeqVerify, which blames the first signature that fails. */
  method CerteqVerify(s: Suite, hostpubkeys: seq<Element>, eqInput: Bytes, cert: Bytes) returns (e: Option<Error>)
    ensures e == None <==> Certified(s, hostpubkeys, eqInput, cert)
    ensures |cert| != 64 * |hostpubkeys| <==> e == Some(InvalidCertificate)
    ensures e.Some? ==> e.value == InvalidCertificate || e.value.FaultyParticipant?
    ensures e.Some? && e.value.FaultyParticipant? ==>
      && e.value.index < |hostpubkeys| && !SignedBy(s, hostpubkeys, eqInput, cert, e.value.index)
      && forall i :: 0 <= i < e.value.index ==> SignedBy(s, hostpubkeys, eqInput, cert, i)
  {
    hide SchnorrVerify;
    if |cert| != 64 * |hostpubkeys| {
      return Some(InvalidCertificate);
    }
    for i := 0 to |hostpubkeys|
      invariant forall k :: 0 <= k < i ==> SignedBy(s, hostpubkeys, eqInput, cert, k)
    {
      var msg := BuildCerteqMessage(eqInput, i);
      var sig := cert[i * 64..(i + 1) * 64];
      assert sig == Block(cert, 64, i);
      if !SchnorrVerify(s, hostpubkeys[i], msg, sig) {
        assert !SignedBy(s, hostpubkeys, eqInput, cert, i);
        return Some(FaultyParticipant(i));
      }
    }
    e := None;
  }

  /** Signatures of the host keys on one transcript make a certificate. */
  lemma SignaturesCertify(s: Suite, hostpubkeys: seq<Element>, eqInput: Bytes, sigs: seq<Bytes>)
    requires s.Valid() && |sigs| == |hostpubkeys| && Uniform(sigs, 64)
    ensures |Join(sigs)| == 64 * |sigs|
    ensures Certified(s, hostpubkeys, eqInput, Join(sigs)) <==>
      forall i :: 0 <= i < |sigs| ==> SchnorrVerify(s, hostpubkeys[i], CerteqMessage(eqInput, i), sigs[i])
  {
    hide SchnorrVerify;
    hide CerteqMessage;
    hide Suite.Valid;
    JoinSize(sigs, 64);
    BlocksJoin(sigs, 64, []);
    assert Join(sigs) + [] == Join(sigs);
    forall i | 0 <= i < |sigs|
      ensures SignedBy(s, hostpubkeys, eqInput, Join(sigs), i) <==>
        SchnorrVerify(s, hostpubkeys[i], CerteqMessage(eqInput, i), sigs[i])
    {
      assert Blocks(Join(sigs), 64, |sigs|)[i] == sigs[i];
    }
    hide SignedBy;
  }
}
