/** Agreement of ChillDKG: a participant that finalises has a certificate on its transcript, so
    every honest participant on its list has signed the very same transcript, and the
    transcript determines the whole public result.

    Signatures are ideal in this sense only: a signature in the certificate that verifies under
    the host key of an honest participant was made by that participant in its second step. */
module Agreement {
  import opened PrimeField
  import opened Interpolation
  import opened Group
  import opened Party
  import opened Wire
  import opened Vss
  import opened Certeq
  import opened ChillDkg
  import opened Recovery
  import P = SimplPedPop
  import E = EncPedPop
  import S = ChillDkgSession
  import C = RecoveryCorrect

  /** An honest participant's two steps in some session. */
  datatype Event = Event(key: nat, random: Bytes, state: ParticipantState1, cmsg: CoordinatorMsg1)

  /** The coordinator's lists have the lengths of the session. */
  predicate ShapedMsg(s: Suite, state: ParticipantState1, cmsg: CoordinatorMsg1) {
    var n, t := state.enc.simpl.n, state.enc.simpl.t;
    && |cmsg.enc.simpl.comsToSecrets| == |cmsg.enc.simpl.pops| == |cmsg.enc.pubnonces| == |cmsg.encSecshares| == n
    && |cmsg.enc.simpl.sumNonconst| + 1 == t
    && Reduced(s, cmsg.encSecshares)
  }

  /** Both steps succeeded, on a coordinator message of the right shape. */
  ghost predicate Happened(s: Suite, e: Event)
    requires s.Valid()
  {
    && ValidParams(s, e.state.params) && e.state.idx < |e.state.params.hostPubkeys|
    && Equal(s.q, e.state.params.hostPubkeys[e.state.idx], BaseMult(e.key))
    && e.state == StateAt(s, e.key, e.state.params, e.random, e.state.idx)
    && ShapedMsg(s, e.state, e.cmsg) && Indexable(e.state, e.cmsg)
    && Accepts(s, e.key, e.state, e.cmsg)
  }

  function EventInput(s: Suite, e: Event): Bytes {
    EqInput(s, TranscriptOf(e.state, e.cmsg))
  }

  /** What the participant signs in its second step. */
  function SignedMessage(s: Suite, e: Event): Bytes {
    CerteqMessage(EventInput(s, e), e.state.idx)
  }

  ghost predicate HasSigned(s: Suite, events: set<Event>, key: nat, msg: Bytes)
    requires s.Valid()
  {
    exists e :: e in events && Happened(s, e) && e.key == key && SignedMessage(s, e) == msg
  }

  /** Every certificate entry that verifies under an honest host key was made by its holder. */
  ghost predicate Unforged(s: Suite, keys: seq<Element>, eqInput: Bytes, cert: Bytes, honest: set<nat>, events: set<Event>)
    requires s.Valid()
  {
    forall i, key :: 0 <= i < |keys| && key in honest && Equal(s.q, keys[i], BaseMult(key)) && SignedBy(s, keys, eqInput, cert, i) ==>
      HasSigned(s, events, key, CerteqMessage(eqInput, i))
  }

  /** The lengths in a transcript can be read off its bytes. */
  lemma TranscriptSize(s: Suite, tr: Transcript)
    requires s.Valid() && Shaped(s, tr)
    ensures |EqInput(s, tr)| == 4 + 32 * tr.t + 96 * |tr.hostPubkeys| && EqInput(s, tr)[..4] == U32(tr.t)
  {
    BlocksUniform(s, tr.sumComs, tr.encSecshares);
    BlocksUniform(s, tr.hostPubkeys, []);
    BlocksUniform(s, tr.pubnonces, []);
    hide Suite.Valid;
    hide ElementBlocks;
    hide ScalarBlocks;
    hide U32;
    hide Join;
    JoinSize(ElementBlocks(s, tr.sumComs), 32);
    JoinSize(ElementBlocks(s, tr.hostPubkeys), 32);
    JoinSize(ElementBlocks(s, tr.pubnonces), 32);
    JoinSize(ScalarBlocks(s, tr.encSecshares), 32);
  }

  ghost predicate SameTranscript(s: Suite, tr: Transcript, tr': Transcript) {
    && tr.t == tr'.t && EqualAll(s, tr.sumComs, tr'.sumComs) && EqualAll(s, tr.hostPubkeys, tr'.hostPubkeys)
    && EqualAll(s, tr.pubnonces, tr'.pubnonces) && tr.encSecshares == tr'.encSecshares
  }

  /** Equal bytes, equal transcripts. */
  lemma BytesDetermineTranscript(s: Suite, tr: Transcript, tr': Transcript)
    requires s.Valid() && Shaped(s, tr) && Shaped(s, tr') && EqInput(s, tr) == EqInput(s, tr')
    ensures SameTranscript(s, tr, tr')
  {
    hide Suite.Valid;
    hide EqInput;
    hide Deserialize;
    hide U32;
    TranscriptSize(s, tr);
    TranscriptSize(s, tr');
    U32Injective(tr.t, tr'.t);
    var cert: Bytes := seq(64 * |tr.hostPubkeys|, _ => 0);
    DeserializeSerialize(s, tr, cert);
    DeserializeSerialize(s, tr', cert);
    assert CanonicalTranscript(s, tr) == CanonicalTranscript(s, tr');
    CanonicalMeansEqual(s, tr.sumComs, tr'.sumComs);
    CanonicalMeansEqual(s, tr.hostPubkeys, tr'.hostPubkeys);
    CanonicalMeansEqual(s, tr.pubnonces, tr'.pubnonces);
  }

  lemma CanonicalMeansEqual(s: Suite, es: seq<Element>, fs: seq<Element>)
    requires Canonical(s, es) == Canonical(s, fs)
    ensures EqualAll(s, es, fs)
  {
    assert |es| == |Canonical(s, es)| == |fs|;
    forall i | 0 <= i < |es|
      ensures Equal(s.q, es[i], fs[i])
    {
      assert Canonical(s, es)[i] == Canonical(s, fs)[i];
    }
  }

  lemma EventShaped(s: Suite, e: Event)
    requires s.Valid() && Happened(s, e)
    ensures Shaped(s, TranscriptOf(e.state, e.cmsg)) && e.state.idx < 0x1_0000_0000
    ensures TranscriptOf(e.state, e.cmsg).hostPubkeys == e.state.params.hostPubkeys
    ensures TranscriptOf(e.state, e.cmsg).t == e.state.params.threshold
  {
    hide Suite.Valid;
    hide Accepts;
    hide PolyOf;
    hide NonceOf;
  }

  /** The public results of two participants. */
  predicate SamePublic(s: Suite, o: P.DKGOutput, o': P.DKGOutput) {
    Equal(s.q, o.thresholdPubkey, o'.thresholdPubkey) && EqualAll(s, o.pubShares, o'.pubShares)
  }

  predicate SameSession(s: Suite, p: SessionParams, p': SessionParams) {
    p.threshold == p'.threshold && EqualAll(s, p.hostPubkeys, p'.hostPubkeys)
  }

  /** One transcript, one public result. */
  lemma TranscriptDeterminesResult(s: Suite, a: Event, b: Event)
    requires s.Valid() && Happened(s, a) && Happened(s, b) && EventInput(s, a) == EventInput(s, b)
    ensures SameSession(s, a.state.params, b.state.params)
    ensures SamePublic(s, OutputOf(s, a.key, a.state, a.cmsg), OutputOf(s, b.key, b.state, b.cmsg))
  {
    EventShaped(s, a);
    EventShaped(s, b);
    BytesDetermineTranscript(s, TranscriptOf(a.state, a.cmsg), TranscriptOf(b.state, b.cmsg));
    EventSize(s, a);
    EventSize(s, b);
    hide Suite.Valid;
    hide Accepts;
    hide EqInput;
    hide Equal;
    hide PubSharesOf;
    hide StateAt;
    hide P.SumComsOf;
    hide E.ReceivedShare;
    C.PubSharesEqual(s, P.SumComsOf(a.cmsg.enc.simpl), P.SumComsOf(b.cmsg.enc.simpl), |a.state.params.hostPubkeys|);
  }

  lemma EventSize(s: Suite, e: Event)
    requires s.Valid() && Happened(s, e)
    ensures e.state.enc.simpl.n == |e.state.params.hostPubkeys|
  {
    hide Suite.Valid;
    hide Accepts;
    hide PolyOf;
    hide NonceOf;
  }

  /** The committed polynomial, in the exponent, that a participant has seen. */
  function CommittedPoly(e: Event): seq<int> {
    Logs(TranscriptOf(e.state, e.cmsg).sumComs)
  }

  function ShareOf(s: Suite, e: Event): nat
    requires Indexable(e.state, e.cmsg)
  {
    OutputOf(s, e.key, e.state, e.cmsg).secShare.value
  }

  lemma ShareEqual(s: Suite, es: seq<Element>, fs: seq<Element>, i: nat)
    requires EqualAll(s, es, fs)
    ensures SecShare(s.q, Logs(es), i) == SecShare(s.q, Logs(fs), i)
  {
    C.EvalCong(s.q, Logs(es), Logs(fs), Point(i));
  }

  lemma OwnPubShare(q: Modulus, points: seq<Element>, n: nat, i: nat)
    requires i < n
    ensures Equal(q, BaseMult(SecShare(q, Logs(points), i)), PubSharesOf(points, n)[i])
  {
    CongMod(q, Eval(Logs(points), Point(i)));
  }

  /** One transcript, one polynomial: b holds its share of the polynomial that a has seen
      committed, and a has the matching public share. */
  lemma SharesAgree(s: Suite, a: Event, b: Event)
    requires s.Valid() && Happened(s, a) && Happened(s, b) && EventInput(s, a) == EventInput(s, b)
    ensures ShareOf(s, b) == SecShare(s.q, CommittedPoly(a), b.state.idx)
    ensures b.state.idx < |OutputOf(s, a.key, a.state, a.cmsg).pubShares|
    ensures Equal(s.q, BaseMult(ShareOf(s, b)), OutputOf(s, a.key, a.state, a.cmsg).pubShares[b.state.idx])
  {
    hide Suite.Valid;
    hide Accepts;
    hide EqInput;
    hide Equal;
    hide PubSharesOf;
    hide SecShare;
    hide StateAt;
    hide P.SumComsOf;
    hide E.ReceivedShare;
    EventShaped(s, a);
    EventShaped(s, b);
    EventSize(s, a);
    BytesDetermineTranscript(s, TranscriptOf(a.state, a.cmsg), TranscriptOf(b.state, b.cmsg));
    AcceptedShare(s, b.key, b.state, b.cmsg);
    var es, fs := P.SumComsOf(a.cmsg.enc.simpl), P.SumComsOf(b.cmsg.enc.simpl);
    ShareEqual(s, es, fs, b.state.idx);
    OwnPubShare(s.q, es, |a.state.params.hostPubkeys|, b.state.idx);
  }

  function Indices(parts: seq<Event>): (ids: seq<nat>)
    ensures |ids| == |parts| && forall k :: 0 <= k < |parts| ==> ids[k] == parts[k].state.idx
  {
    seq(|parts|, k requires 0 <= k < |parts| => parts[k].state.idx)
  }

  /** Honest participants of one transcript, at different indices. */
  ghost predicate Together(s: Suite, a: Event, parts: seq<Event>)
    requires s.Valid()
  {
    && Distinct(Indices(parts))
    && forall k :: 0 <= k < |parts| ==> Happened(s, parts[k]) && EventInput(s, a) == EventInput(s, parts[k])
  }

  /** The shares of any t participants of one transcript reconstruct the one secret behind the
      threshold key of every participant of that transcript. */
  lemma SecretIsShared(s: Suite, a: Event, parts: seq<Event>, shares: seq<nat>)
    requires s.Valid() && Happened(s, a) && Together(s, a, parts)
    requires |parts| >= a.state.params.threshold && |shares| == |a.state.params.hostPubkeys|
    requires forall k :: 0 <= k < |parts| && Indices(parts)[k] < |shares| ==> shares[Indices(parts)[k]] == ShareOf(s, parts[k])
    ensures Equal(s.q, OutputOf(s, a.key, a.state, a.cmsg).thresholdPubkey, BaseMult(Reconstruct(s.q, Indices(parts), shares)))
  {
    hide Suite.Valid;
    hide Happened;
    hide EventInput;
    hide SecShare;
    hide Reconstruct;
    hide IsPrime;
    hide CommittedPoly;
    hide PubSharesOf;
    hide P.SumComsOf;
    hide E.ReceivedShare;
    hide EqualAll;
    var c, ids, n := CommittedPoly(a), Indices(parts), |shares|;
    CommittedSize(s, a);
    var full: seq<nat> := seq(n, i requires 0 <= i < n => SecShare(s.q, c, i));
    forall k | 0 <= k < |parts|
      ensures ids[k] < n && shares[ids[k]] == full[ids[k]]
    {
      SharesAgree(s, a, parts[k]);
      SameCount(s, a, parts[k]);
    }
    SameReconstruction(s.q, ids, shares, full);
    SharesDetermineSecret(s.q, c, ids, full);
    CongMod(s.q, c[0]);
  }

  lemma CommittedSize(s: Suite, e: Event)
    requires s.Valid() && Happened(s, e)
    ensures |CommittedPoly(e)| == e.state.params.threshold >= 1 && |e.state.params.hostPubkeys| < 0x1_0000_0000
    ensures IsPrime(s.q) && s.q > 0x1_0000_0000
    ensures OutputOf(s, e.key, e.state, e.cmsg).thresholdPubkey.log == CommittedPoly(e)[0]
  {
    hide Accepts;
    hide PolyOf;
    hide NonceOf;
    hide E.ReceivedShare;
    hide P.SumComsOf;
    hide PubSharesOf;
  }

  lemma SameCount(s: Suite, a: Event, b: Event)
    requires s.Valid() && Happened(s, a) && Happened(s, b) && EventInput(s, a) == EventInput(s, b)
    ensures b.state.idx < |a.state.params.hostPubkeys|
  {
    hide Happened;
    EventRange(s, b);
    TranscriptDeterminesResult(s, a, b);
  }

  lemma SameReconstruction(q: Modulus, ids: seq<nat>, shares: seq<nat>, full: seq<nat>)
    requires |shares| == |full| && forall k :: 0 <= k < |ids| ==> ids[k] < |shares| && shares[ids[k]] == full[ids[k]]
    ensures Reconstruct(q, ids, shares) == Reconstruct(q, ids, full)
  {
    hide Coefficient;
    var xs := PointsOf(ids);
    C.TotalEqual(|ids|, ShareTerms(q, xs, ids, shares), ShareTerms(q, xs, ids, full));
  }

  /** If participant a can finalise with this certificate, then every honest participant on
      its list has signed the same transcript at the same index, in a session with the same
      parameters and the same public result, and holds its share of the one polynomial whose
      commitment and public shares a has. */
  lemma FinalisedMeansAgreement(s: Suite, a: Event, cert: Bytes, honest: set<nat>, events: set<Event>, i: nat, key: nat) returns (b: Event)
    requires s.Valid() && Happened(s, a) && Certified(s, a.state.params.hostPubkeys, EventInput(s, a), cert)
    requires Unforged(s, a.state.params.hostPubkeys, EventInput(s, a), cert, honest, events)
    requires key in honest && i < |a.state.params.hostPubkeys| && Equal(s.q, a.state.params.hostPubkeys[i], BaseMult(key))
    ensures b in events && Happened(s, b) && b.key == key && b.state.idx == i
    ensures EventInput(s, b) == EventInput(s, a)
    ensures SameSession(s, a.state.params, b.state.params)
    ensures SamePublic(s, OutputOf(s, a.key, a.state, a.cmsg), OutputOf(s, b.key, b.state, b.cmsg))
    ensures OutputOf(s, b.key, b.state, b.cmsg).secShare == Some(SecShare(s.q, CommittedPoly(a), i))
    ensures i < |OutputOf(s, a.key, a.state, a.cmsg).pubShares|
    ensures Equal(s.q, BaseMult(ShareOf(s, b)), OutputOf(s, a.key, a.state, a.cmsg).pubShares[i])
  {
    hide Suite.Valid;
    hide Happened;
    hide SignedBy;
    hide CommittedPoly;
    hide SecShare;
    hide Equal;
    hide EventInput;
    hide SameSession;
    hide SamePublic;
    EventRange(s, a);
    var msg := CerteqMessage(EventInput(s, a), i);
    assert SignedBy(s, a.state.params.hostPubkeys, EventInput(s, a), cert, i);
    assert HasSigned(s, events, key, msg);
    b :| b in events && Happened(s, b) && b.key == key && SignedMessage(s, b) == msg;
    EventRange(s, b);
    CerteqMessageInjective(EventInput(s, b), b.state.idx, EventInput(s, a), i);
    TranscriptDeterminesResult(s, a, b);
    SharesAgree(s, a, b);
  }

  lemma EventRange(s: Suite, e: Event)
    requires s.Valid() && Happened(s, e)
    ensures e.state.idx < |e.state.params.hostPubkeys| < 0x1_0000_0000 && Indexable(e.state, e.cmsg)
  {
    hide Suite.Valid;
    hide Accepts;
    hide StateAt;
  }
}
