/** The share encryption of ChillDKG: one-time pads from Diffie-Hellman, which the receiver can
    take off the sum of all ciphertexts at once. */
module Ecdh {
  import opened PrimeField
  import opened Group
  import opened Wire
  import opened Certeq
  import opened Vss

  function EcdhPad(s: Suite, seckey: nat, mine: Element, theirs: Element, context: Bytes, sending: bool): nat {
    var shared := s.Encode(Mult(seckey, theirs));
    var keys := if sending then s.Encode(mine) + s.Encode(theirs) else s.Encode(theirs) + s.Encode(mine);
    TaggedScalar(s, "encpedpop ecdh", shared + keys + context)
  }

  function SelfPad(s: Suite, symkey: Bytes, nonce: Element, context: Bytes): nat {
    TaggedScalar(s, "encaps_multi self_pad", symkey + s.Encode(nonce) + context)
  }

  /** The pad that sender idx uses for receiver i. */
  function SendPad(s: Suite, secnonce: nat, deckey: nat, enckeys: seq<Element>, context: Bytes, idx: nat, i: nat): nat
    requires i < |enckeys|
  {
    if i == idx then SelfPad(s, s.scalarBytes(deckey), BaseMult(secnonce), U32(i) + context)
    else EcdhPad(s, secnonce, BaseMult(secnonce), enckeys[i], U32(i) + context, true)
  }

  /** The pad that receiver idx computes for sender j. */
  function ReceivePad(s: Suite, deckey: nat, enckey: Element, pubnonces: seq<Element>, context: Bytes, idx: nat, j: nat): nat
    requires j < |pubnonces|
  {
    if j == idx then SelfPad(s, s.scalarBytes(deckey), pubnonces[j], U32(idx) + context)
    else EcdhPad(s, deckey, enckey, pubnonces[j], U32(idx) + context, false)
  }

  /** Both ends derive the same pad. */
  lemma PadsAgree(s: Suite, secnonce: nat, pubnonce: Element, deckey: nat, enckey: Element, context: Bytes)
    requires s.Valid() && pubnonce == BaseMult(secnonce) && Equal(s.q, enckey, BaseMult(deckey))
    ensures EcdhPad(s, secnonce, pubnonce, enckey, context, true) == EcdhPad(s, deckey, enckey, pubnonce, context, false)
  {
    CongScale(s.q, secnonce, enckey.log, deckey);
    assert secnonce * deckey == deckey * secnonce;
    EncodeExact(s, Mult(secnonce, enckey), Mult(deckey, pubnonce));
  }

  /** encapsMulti and encryptMulti: pads are added to the plaintexts. */
  method EncryptMulti(s: Suite, secnonce: nat, deckey: nat, enckeys: seq<Element>, context: Bytes, idx: nat, plaintexts: seq<nat>)
    returns (ciphertexts: seq<nat>)
    requires |plaintexts| == |enckeys|
    ensures |ciphertexts| == |plaintexts|
    ensures forall i :: 0 <= i < |plaintexts| ==>
      ciphertexts[i] == (plaintexts[i] + SendPad(s, secnonce, deckey, enckeys, context, idx, i)) % s.q
  {
    var pads := [];
    for i := 0 to |enckeys|
      invariant |pads| == i && forall k :: 0 <= k < i ==> pads[k] == SendPad(s, secnonce, deckey, enckeys, context, idx, k)
    {
      var ctx := U32(i) + context;
      if i == idx {
        pads := pads + [SelfPad(s, s.scalarBytes(deckey), BaseMult(secnonce), ctx)];
      } else {
        pads := pads + [EcdhPad(s, secnonce, BaseMult(secnonce), enckeys[i], ctx, true)];
      }
    }
    ciphertexts := [];
    for i := 0 to |plaintexts|
      invariant |ciphertexts| == i && forall k :: 0 <= k < i ==> ciphertexts[k] == (plaintexts[k] + pads[k]) % s.q
    {
      ciphertexts := ciphertexts + [(plaintexts[i] + pads[i]) % s.q];
    }
  }

  function PadTerms(s: Suite, deckey: nat, enckey: Element, pubnonces: seq<Element>, context: Bytes, idx: nat): nat -> int {
    (j: nat) => if j < |pubnonces| then ReceivePad(s, deckey, enckey, pubnonces, context, idx, j) else 0
  }

  /** The ciphertext sum without the pads. */
  function Decrypted(s: Suite, deckey: nat, enckey: Element, pubnonces: seq<Element>, context: Bytes, idx: nat, sumCiphertext: nat): (z: nat)
    ensures z < s.q
  {
    (sumCiphertext - Total(|pubnonces|, PadTerms(s, deckey, enckey, pubnonces, context, idx))) % s.q
  }

  lemma ModSubtract(q: Modulus, a: int, b: int)
    ensures (a - b % q) % q == (a - b) % q
  {
    CongMod(q, b);
    CongScale(q, -1, b % q, b);
    CongAdd(q, -1 * (b % q), -1 * b, a, a);
  }

  /** decapsMulti */
  method DecapsMulti(s: Suite, deckey: nat, enckey: Element, pubnonces: seq<Element>, context: Bytes, idx: nat)
    returns (pads: seq<nat>)
    ensures |pads| == |pubnonces|
    ensures forall j :: 0 <= j < |pads| ==> pads[j] == ReceivePad(s, deckey, enckey, pubnonces, context, idx, j)
  {
    hide EcdhPad;
    hide SelfPad;
    var ctx := U32(idx) + context;
    pads := [];
    for j := 0 to |pubnonces|
      invariant |pads| == j && forall k :: 0 <= k < j ==> pads[k] == ReceivePad(s, deckey, enckey, pubnonces, context, idx, k)
    {
      if j == idx {
        pads := pads + [SelfPad(s, s.scalarBytes(deckey), pubnonces[j], ctx)];
      } else {
        pads := pads + [EcdhPad(s, deckey, enckey, pubnonces[j], ctx, false)];
      }
    }
  }

  /** decryptSum */
  method DecryptSum(s: Suite, deckey: nat, enckey: Element, pubnonces: seq<Element>, context: Bytes, idx: nat, sumCiphertext: nat)
    returns (result: nat)
    ensures result == Decrypted(s, deckey, enckey, pubnonces, context, idx, sumCiphertext)
  {
    hide ReceivePad;
    var pads := DecapsMulti(s, deckey, enckey, pubnonces, context, idx);
    var sumPads := 0;
    ghost var f := PadTerms(s, deckey, enckey, pubnonces, context, idx);
    for j := 0 to |pads|
      invariant sumPads == Total(j, f) % s.q
    {
      ModAdd(s.q, Total(j, f), f(j));
      sumPads := (sumPads + pads[j]) % s.q;
    }
    ModSubtract(s.q, sumCiphertext, Total(|pubnonces|, f));
    result := (sumCiphertext - sumPads) % s.q;
  }

  /** Taking the pads off the sum of the ciphertexts leaves the sum of the plaintexts. */
  lemma PadsCancel(q: Modulus, n: nat, plain: nat -> int, pad: nat -> int, cipher: nat -> int)
    requires forall j :: 0 <= j < n ==> cipher(j) == (plain(j) + pad(j)) % q
    ensures (Total(n, cipher) % q - Total(n, pad)) % q == Total(n, plain) % q
  {
    var both := (j: nat) => plain(j) + pad(j);
    forall j | 0 <= j < n
      ensures Cong(q, cipher(j), both(j))
    {
      CongMod(q, plain(j) + pad(j));
    }
    TotalCong(q, n, cipher, both);
    TotalAdd(n, plain, pad, both);
    var a, p, c := Total(n, plain), Total(n, pad), Total(n, cipher);
    CongMod(q, c);
    CongAdd(q, c % q, a + p, -p, -p);
  }
}
