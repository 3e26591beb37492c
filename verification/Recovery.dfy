/** Recovery data: the byte format, its two round trips, and recovery of a participant's
    output. */
module Recovery {
  import opened PrimeField
  import opened Interpolation
  import opened Sums
  import opened Group
  import opened Party
  import opened Wire
  import opened Vss
  import opened Certeq
  import opened Ecdh
  import opened ChillDkg
  import opened ChillDkgSession
  import P = SimplPedPop
  import E = EncPedPop

  // ---------------------------------------------------------------------------
  // The format
  // ---------------------------------------------------------------------------

  /** Data cut at its field boundaries: t, the commitment, three lists and the certificate. */
  datatype Fields = Fields(t: nat, n: nat, sumComs: seq<Bytes>, hostPubkeys: seq<Bytes>, pubnonces: seq<Bytes>, encSecshares: seq<Bytes>, cert: Bytes)

  /** Lengths fit: four bytes, t blocks, and 160 bytes per participant. */
  predicate Cuttable(data: Bytes) {
    && |data| >= 4
    && |data| - 4 >= 32 * U32Value(data[..4])
    && (|data| - 4 - 32 * U32Value(data[..4])) % 160 == 0
  }

  /** The part after the commitment. */
  function Tail(data: Bytes): Bytes
    requires Cuttable(data)
  {
    data[4..][32 * U32Value(data[..4])..]
  }

  function Cut(data: Bytes): Fields
    requires Cuttable(data)
  {
    var t := U32Value(data[..4]);
    var tail := Tail(data);
    var n := |tail| / 160;
    Fields(t, n, Blocks(data[4..], 32, t), Blocks(tail, 32, n), Blocks(tail[32 * n..], 32, n), Blocks(tail[64 * n..], 32, n), tail[96 * n..])
  }

  function Paste(f: Fields): Bytes {
    U32(f.t) + Join(f.sumComs) + Join(f.hostPubkeys) + Join(f.pubnonces) + Join(f.encSecshares) + f.cert
  }

  predicate FieldsFit(f: Fields) {
    && f.t < 0x1_0000_0000 && |f.sumComs| == f.t && Uniform(f.sumComs, 32)
    && |f.hostPubkeys| == |f.pubnonces| == |f.encSecshares| == f.n && |f.cert| == 64 * f.n
    && Uniform(f.hostPubkeys, 32) && Uniform(f.pubnonces, 32) && Uniform(f.encSecshares, 32)
  }

  lemma PasteCut(data: Bytes)
    requires Cuttable(data)
    ensures FieldsFit(Cut(data)) && Paste(Cut(data)) == data
  {
    var f, tail := Cut(data), Tail(data);
    CutFacts(data);
    U32ValueRoundTrip(data[..4]);
    JoinBlocks(data[4..], 32, f.t);
    BlocksHaveSize(data[4..], 32, f.t);
    PasteTail(tail, f.n);
    hide *;
    FieldsAre(f);
    PasteShape(f, tail);
  }

  lemma CutFacts(data: Bytes)
    requires Cuttable(data)
    ensures
      var f, tail := Cut(data), Tail(data);
      && f.t == U32Value(data[..4]) && 32 * f.t <= |data[4..]| && |tail| == 160 * f.n
      && data == data[..4] + (data[4..][..32 * f.t] + tail)
      && f.sumComs == Blocks(data[4..], 32, f.t) && f.hostPubkeys == Blocks(tail, 32, f.n)
      && f.pubnonces == Blocks(tail[32 * f.n..], 32, f.n) && f.encSecshares == Blocks(tail[64 * f.n..], 32, f.n) && f.cert == tail[96 * f.n..]
  {
  }

  lemma FieldsAre(f: Fields)
    requires f.t < 0x1_0000_0000 && |f.sumComs| == f.t && Uniform(f.sumComs, 32)
    requires |f.hostPubkeys| == |f.pubnonces| == |f.encSecshares| == f.n && |f.cert| == 64 * f.n
    requires Uniform(f.hostPubkeys, 32) && Uniform(f.pubnonces, 32) && Uniform(f.encSecshares, 32)
    ensures FieldsFit(f)
  {
  }

  lemma PasteShape(f: Fields, tail: Bytes)
    requires tail == Join(f.hostPubkeys) + Join(f.pubnonces) + Join(f.encSecshares) + f.cert
    ensures Paste(f) == U32(f.t) + (Join(f.sumComs) + tail)
  {
    hide Join;
    hide U32;
  }

  lemma PasteTail(tail: Bytes, n: nat)
    requires |tail| == 160 * n
    ensures Uniform(Blocks(tail, 32, n), 32) && Uniform(Blocks(tail[32 * n..], 32, n), 32) && Uniform(Blocks(tail[64 * n..], 32, n), 32)
    ensures Join(Blocks(tail, 32, n)) + Join(Blocks(tail[32 * n..], 32, n)) + Join(Blocks(tail[64 * n..], 32, n)) + tail[96 * n..] == tail
  {
    hide Blocks;
    hide Join;
    hide Uniform;
    hide U32;
    hide U32Value;
    var m := 32 * n;
    JoinBlocks(tail, 32, n);
    JoinBlocks(tail[m..], 32, n);
    JoinBlocks(tail[2 * m..], 32, n);
    BlocksHaveSize(tail, 32, n);
    BlocksHaveSize(tail[m..], 32, n);
    BlocksHaveSize(tail[2 * m..], 32, n);
    assert 64 * n == 2 * m && 96 * n == 3 * m;
    FourParts(tail, m);
  }

  lemma FourParts(tail: Bytes, m: nat)
    requires |tail| >= 3 * m
    ensures tail[..m] + tail[m..][..m] + tail[2 * m..][..m] + tail[3 * m..] == tail
  {
  }

  lemma CutPaste(f: Fields)
    requires FieldsFit(f)
    ensures Cuttable(Paste(f)) && Cut(Paste(f)) == f
  {
    hide Blocks;
    hide Join;
    hide Uniform;
    hide U32;
    hide U32Value;
    var tail := Join(f.hostPubkeys) + (Join(f.pubnonces) + (Join(f.encSecshares) + f.cert));
    CutTail(f.hostPubkeys, f.pubnonces, f.encSecshares, f.cert, f.n);
    BlocksJoin(f.sumComs, 32, tail);
    JoinSize(f.sumComs, 32);
    U32RoundTrip(f.t);
    PasteParts(f, tail);
    CutHead(U32(f.t), Join(f.sumComs), tail, 32 * f.t);
    TailIs(Paste(f), f.t, f.n, tail);
    hide Paste;
    hide Cuttable;
    hide Tail;
    CutIs(Paste(f), f, tail);
  }

  lemma TailIs(data: Bytes, t: nat, n: nat, tail: Bytes)
    requires |data| == 4 + 32 * t + |tail| && |tail| == 160 * n && U32Value(data[..4]) == t && data[4..][32 * t..] == tail
    ensures Cuttable(data) && Tail(data) == tail
  {
  }

  lemma CutIs(data: Bytes, f: Fields, tail: Bytes)
    requires Cuttable(data) && Tail(data) == tail && |tail| == 160 * f.n && U32Value(data[..4]) == f.t
    requires Blocks(data[4..], 32, f.t) == f.sumComs && Blocks(tail, 32, f.n) == f.hostPubkeys
    requires Blocks(tail[32 * f.n..], 32, f.n) == f.pubnonces && Blocks(tail[64 * f.n..], 32, f.n) == f.encSecshares && tail[96 * f.n..] == f.cert
    ensures Cut(data) == f
  {
  }

  lemma PasteParts(f: Fields, tail: Bytes)
    requires tail == Join(f.hostPubkeys) + (Join(f.pubnonces) + (Join(f.encSecshares) + f.cert))
    ensures Paste(f) == U32(f.t) + (Join(f.sumComs) + tail)
  {
    hide Join;
    hide U32;
  }

  lemma CutHead(head: Bytes, a: Bytes, tail: Bytes, m: nat)
    requires |head| == 4 && |a| == m
    ensures
      var data := head + (a + tail);
      data[..4] == head && data[4..] == a + tail && data[4..][m..] == tail && |data| == 4 + m + |tail|
  {
  }

  lemma CutTail(a: seq<Bytes>, b: seq<Bytes>, c: seq<Bytes>, cert: Bytes, n: nat)
    requires |a| == |b| == |c| == n && |cert| == 64 * n && Uniform(a, 32) && Uniform(b, 32) && Uniform(c, 32)
    ensures
      var tail := Join(a) + (Join(b) + (Join(c) + cert));
      && |tail| == 160 * n && Blocks(tail, 32, n) == a && Blocks(tail[32 * n..], 32, n) == b
      && Blocks(tail[64 * n..], 32, n) == c && tail[96 * n..] == cert
  {
    hide Blocks;
    hide Join;
    hide Uniform;
    hide U32;
    hide U32Value;
    var tc := Join(c) + cert;
    var tb := Join(b) + tc;
    BlocksJoin(a, 32, tb);
    BlocksJoin(b, 32, tc);
    BlocksJoin(c, 32, cert);
    JoinSize(a, 32);
    JoinSize(b, 32);
    JoinSize(c, 32);
    DropThree(Join(a), Join(b), Join(c), cert, 32 * n);
  }

  lemma DropThree(a: Bytes, b: Bytes, c: Bytes, d: Bytes, m: nat)
    requires |a| == |b| == |c| == m
    ensures
      var tail := a + (b + (c + d));
      |tail| == 3 * m + |d| && tail[m..] == b + (c + d) && tail[2 * m..] == c + d && tail[3 * m..] == d
  {
  }

  /** Every field parses. */
  predicate Parses(s: Suite, f: Fields) {
    && AllElements(s, f.sumComs) && AllElements(s, f.hostPubkeys) && AllElements(s, f.pubnonces)
    && AllScalars(s, f.encSecshares)
  }

  function Read(s: Suite, f: Fields): Transcript
    requires Parses(s, f)
  {
    Transcript(f.t, Elements(s, f.sumComs), Elements(s, f.hostPubkeys), Elements(s, f.pubnonces), Scalars(s, f.encSecshares))
  }

  function Write(s: Suite, tr: Transcript, cert: Bytes): Fields {
    Fields(tr.t, |tr.hostPubkeys|, ElementBlocks(s, tr.sumComs), ElementBlocks(s, tr.hostPubkeys),
           ElementBlocks(s, tr.pubnonces), ScalarBlocks(s, tr.encSecshares), cert)
  }

  function Serialize(s: Suite, tr: Transcript, cert: Bytes): Bytes {
    EqInput(s, tr) + cert
  }

  /** deserializeRecoveryData */
  function Deserialize(s: Suite, data: Bytes): Option<(Transcript, Bytes)> {
    if Cuttable(data) && Parses(s, Cut(data)) then Some((Read(s, Cut(data)), Cut(data).cert)) else None
  }

  /** A transcript with the lengths of a session. */
  predicate Shaped(s: Suite, tr: Transcript) {
    && tr.t < 0x1_0000_0000 && |tr.sumComs| == tr.t
    && |tr.hostPubkeys| == |tr.pubnonces| == |tr.encSecshares| && Reduced(s, tr.encSecshares)
  }

  function CanonicalTranscript(s: Suite, tr: Transcript): Transcript {
    Transcript(tr.t, Canonical(s, tr.sumComs), Canonical(s, tr.hostPubkeys), Canonical(s, tr.pubnonces), tr.encSecshares)
  }

  /** Reading back what was written. */
  lemma DeserializeSerialize(s: Suite, tr: Transcript, cert: Bytes)
    requires s.Valid() && Shaped(s, tr) && |cert| == 64 * |tr.hostPubkeys|
    ensures Deserialize(s, Serialize(s, tr, cert)) == Some((CanonicalTranscript(s, tr), cert))
  {
    var f := Write(s, tr, cert);
    BlocksUniform(s, tr.sumComs, tr.encSecshares);
    BlocksUniform(s, tr.hostPubkeys, []);
    BlocksUniform(s, tr.pubnonces, []);
    ElementsOfBlocks(s, tr.sumComs);
    ElementsOfBlocks(s, tr.hostPubkeys);
    ElementsOfBlocks(s, tr.pubnonces);
    ScalarsOfBlocks(s, tr.encSecshares);
    CutPaste(f);
    hide Suite.Valid;
    hide ElementBlocks;
    hide ScalarBlocks;
    hide Cut;
    hide Elements;
    hide AllElements;
    hide Scalars;
    hide AllScalars;
    hide Canonical;
    assert Paste(f) == Serialize(s, tr, cert);
  }

  /** Data that is accepted is reproduced byte for byte: the format has no slack. */
  lemma SerializeDeserialize(s: Suite, data: Bytes)
    requires s.Valid() && Deserialize(s, data).Some?
    ensures
      var (tr, cert) := Deserialize(s, data).value;
      Serialize(s, tr, cert) == data && Shaped(s, tr) && |cert| == 64 * |tr.hostPubkeys|
  {
    var f := Cut(data);
    PasteCut(data);
    BlocksOfElements(s, f.sumComs);
    BlocksOfElements(s, f.hostPubkeys);
    BlocksOfElements(s, f.pubnonces);
    BlocksOfScalars(s, f.encSecshares);
    hide Suite.Valid;
    hide ElementBlocks;
    hide ScalarBlocks;
    hide Cut;
    hide Elements;
    hide AllElements;
    hide Scalars;
    hide AllScalars;
    var tr := Read(s, f);
    assert Paste(f) == Serialize(s, tr, f.cert);
  }

  /** deserializeRecoveryData, with its loops and its advancing slice. */
  method DeserializeRecoveryData(s: Suite, data: Bytes) returns (r: Option<(Transcript, Bytes)>)
    ensures r == Deserialize(s, data)
  {
    hide Blocks;
    hide U32Value;
    hide Elements;
    hide Scalars;
    hide AllElements;
    hide AllScalars;
    if |data| < 4 {
      return None;
    }
    var t := U32Value(data[..4]);
    var rest := data[4..];
    if |rest| < 32 * t {
      return None;
    }
    var ok, points := DecodeElements(s, rest, t);
    var tail := rest[32 * t..];
    if !ok || |tail| % 160 != 0 {
      return None;
    }
    var n := |tail| / 160;
    rest := tail;
    var hostPubkeys, pubnonces, encSecshares;
    ok, hostPubkeys := DecodeElements(s, rest, n);
    if !ok {
      return None;
    }
    rest := rest[32 * n..];
    ok, pubnonces := DecodeElements(s, rest, n);
    if !ok {
      return None;
    }
    rest := rest[32 * n..];
    assert rest == tail[64 * n..];
    ok, encSecshares := DecodeScalars(s, rest, n);
    if !ok {
      return None;
    }
    rest := rest[32 * n..];
    assert rest == tail[96 * n..];
    var cert := rest[..64 * n];
    assert cert == rest;
    r := Some((Transcript(t, points, hostPubkeys, pubnonces, encSecshares), cert));
  }

  // ---------------------------------------------------------------------------
  // Recover
  // ---------------------------------------------------------------------------

  datatype Outcome =
    | Recovered(output: P.DKGOutput, params: SessionParams)
    | Refused(error: Error)
    | Panics

  /** The parameters as recovered: the threshold is cut to 16 bits. */
  function RecoveredParams(tr: Transcript): SessionParams {
    SessionParams(tr.hostPubkeys, tr.t % 0x1_0000)
  }

  predicate IsPlace(q: Modulus, keys: seq<Element>, key: Element, idx: nat) {
    idx < |keys| && Equal(q, keys[idx], key) && forall i :: 0 <= i < idx ==> !Equal(q, keys[i], key)
  }

  function RecoveredShare(s: Suite, tr: Transcript, hostseckey: nat, idx: nat): (z: nat)
    requires idx < |tr.hostPubkeys| && idx < |tr.encSecshares|
    ensures z < s.q
  {
    Decrypted(s, hostseckey, tr.hostPubkeys[idx], tr.pubnonces, E.Context(s, tr.t, tr.hostPubkeys), idx, tr.encSecshares[idx])
  }

  /** The outcome for certified data and the host key at position idx. */
  function OutcomeAt(s: Suite, tr: Transcript, hostseckey: nat, idx: nat): Outcome
    requires idx < |tr.hostPubkeys| && idx < |tr.encSecshares| && tr.sumComs != []
  {
    var share := RecoveredShare(s, tr, hostseckey, idx);
    if VerifySecShare(s.q, share, PubShare(tr.sumComs, idx)) then
      Recovered(P.DKGOutput(Some(share), tr.sumComs[0], PubSharesOf(tr.sumComs, |tr.hostPubkeys|)), RecoveredParams(tr))
    else
      Refused(InvalidRecoveryData)
  }

  /** The outcome of Recover: data that does not parse or is not certified by all host keys is
      refused; certified data with t = 0 makes the code index an empty commitment. */
  ghost predicate IsOutcome(s: Suite, hostseckey: Option<nat>, data: Bytes, o: Outcome)
    requires s.Valid()
  {
    match Deserialize(s, data)
    case None => o == Refused(InvalidRecoveryData)
    case Some((tr, cert)) =>
      SerializeDeserialize(s, data);
      if !Certified(s, tr.hostPubkeys, EqInput(s, tr), cert) then o == Refused(InvalidRecoveryData)
      else if tr.t == 0 then o == Panics
      else
        match hostseckey
        case None => o == Recovered(P.DKGOutput(None, tr.sumComs[0], PubSharesOf(tr.sumComs, |tr.hostPubkeys|)), RecoveredParams(tr))
        case Some(key) =>
          if forall i :: 0 <= i < |tr.hostPubkeys| ==> !Equal(s.q, tr.hostPubkeys[i], BaseMult(key)) then o == Refused(HostkeyMismatch)
          else exists idx :: IsPlace(s.q, tr.hostPubkeys, BaseMult(key), idx) && o == OutcomeAt(s, tr, key, idx)
  }

  method Recover(s: Suite, hostseckey: Option<nat>, data: Bytes) returns (o: Outcome)
    requires s.Valid()
    ensures IsOutcome(s, hostseckey, data, o)
  {
    hide Certified;
    hide EqInput;
    hide Deserialize;
    hide Suite.Valid;
    hide PubSharesOf;
    hide RecoveredShare;
    var parsed := DeserializeRecoveryData(s, data);
    if parsed.None? {
      return Refused(InvalidRecoveryData);
    }
    SerializeDeserialize(s, data);
    var (tr, cert) := parsed.value;
    var eqInput := BuildEqInput(s, tr);
    var failed := CerteqVerify(s, tr.hostPubkeys, eqInput, cert);
    if failed.Some? {
      return Refused(InvalidRecoveryData);
    }
    if tr.t == 0 {
      return Panics;
    }
    var pubshares := PubShares(tr.sumComs, |tr.hostPubkeys|);
    var output := P.DKGOutput(None, tr.sumComs[0], pubshares);
    if hostseckey.None? {
      return Recovered(output, RecoveredParams(tr));
    }
    var idx := FindHostKey(s.q, tr.hostPubkeys, BaseMult(hostseckey.value));
    if idx.None? {
      return Refused(HostkeyMismatch);
    }
    assert IsPlace(s.q, tr.hostPubkeys, BaseMult(hostseckey.value), idx.value);
    var share := RecoverShare(s, tr, hostseckey.value, idx.value);
    var pubshare := ComputePubShare(tr.sumComs, idx.value);
    if !VerifySecShare(s.q, share, pubshare) {
      return Refused(InvalidRecoveryData);
    }
    o := Recovered(output.(secShare := Some(share)), RecoveredParams(tr));
  }

  method BuildEqInput(s: Suite, tr: Transcript) returns (eqInput: Bytes)
    ensures eqInput == EqInput(s, tr)
  {
    hide ElementBlocks;
    hide ScalarBlocks;
    eqInput := AppendElements(s, U32(tr.t), tr.sumComs);
    eqInput := AppendElements(s, eqInput, tr.hostPubkeys);
    eqInput := AppendElements(s, eqInput, tr.pubnonces);
    eqInput := AppendScalars(s, eqInput, tr.encSecshares);
  }

  method RecoverShare(s: Suite, tr: Transcript, hostseckey: nat, idx: nat) returns (share: nat)
    requires idx < |tr.hostPubkeys| && idx < |tr.encSecshares|
    ensures share == RecoveredShare(s, tr, hostseckey, idx)
  {
    var context := AppendElements(s, U32(tr.t), tr.hostPubkeys);
    share := DecryptSum(s, hostseckey, tr.hostPubkeys[idx], tr.pubnonces, context, idx, tr.encSecshares[idx]);
  }
}
