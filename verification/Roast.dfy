/** The ROAST coordinator as a state machine over its replies.

    `Step` is what one call of `Coordinator.HandleResponse` does to the coordinator's state;
    the class in RoastCoordinator.dfy implements it. `StepFollowsLedger` shows that the step
    is the one of the abstract ledger, and the invariant `Inv` adds the cryptographic facts:
    every session is built from its signers' commitments and every stored share is valid. */
module Roast {
  import opened PrimeField
  import opened Group
  import opened Party
  import opened Frost
  import Ledger

  datatype Config = Config(suite: Suite, pk: Public, t: nat, message: Bytes) {
    /** Keys from key generation, and t = threshold + 1. */
    ghost predicate Valid() {
      && IsPrime(suite.q) && suite.q > 65535
      && ConsistentKeys(suite.q, pk)
      && t == pk.threshold + 1
    }

    ghost function Parties(): set<ID> { Members(pk.partyIDs) }

    function N(): nat { |pk.partyIDs| }
  }

  datatype Session = Session(
    id: nat,
    signerSet: seq<ID>,
    preShares: map<ID, PreShare>,
    factors: map<ID, nat>,
    nonceShares: map<ID, Element>,
    aggregateNonce: Element,
    challenge: nat,
    sigShares: map<ID, nat>)

  datatype SignRequest = SignRequest(sessionID: nat, signerSet: seq<ID>, preShares: map<ID, PreShare>, message: Bytes)

  datatype State = State(
    responsive: set<ID>,
    malicious: set<ID>,
    preShares: map<ID, PreShare>,
    signerSID: map<ID, nat>,
    sessions: map<nat, Session>,
    sidCounter: nat,
    signature: Option<Signature>,
    done: bool)

  datatype Error = AlreadyComplete | SignerMalicious | Unsolicited | InvalidShare | TooManyMalicious

  /** One call's new state and its three results. */
  datatype Outcome = Outcome(state: State, signature: Option<Signature>, requests: seq<SignRequest>, error: Option<Error>)

  datatype Reply = Reply(from: ID, share: Option<nat>, preShare: PreShare)

  function Init(): State {
    State({}, {}, map[], map[], map[], 0, None, false)
  }

  // ---------------------------------------------------------------------------
  // Sessions
  // ---------------------------------------------------------------------------

  function NewSession(cfg: Config, sid: nat, ids: seq<ID>, pre: map<ID, PreShare>): Session
    requires forall id <- ids :: id in pre
  {
    var factors := Factors(cfg.suite, ids, pre, cfg.message);
    var nonceShares := NonceShares(ids, pre, factors);
    var R := AggregateNonce(ids, nonceShares);
    Session(sid, ids, pre, factors, nonceShares, R, Challenge(cfg.suite, R, cfg.pk.groupKey, cfg.message), map[])
  }

  lemma NewSessionShape(cfg: Config, sid: nat, ids: seq<ID>, pre: map<ID, PreShare>)
    requires forall id <- ids :: id in pre
    ensures
      var s := NewSession(cfg, sid, ids, pre);
      && s.id == sid && s.signerSet == ids && s.preShares == pre && s.sigShares == map[]
      && s.nonceShares.Keys == Members(ids)
  {
  }

  /** The check of ValidateAndStore. */
  predicate Accepts(cfg: Config, s: Session, id: ID, share: nat) {
    && id in s.nonceShares && id in cfg.pk.shares
    && ShareVal(cfg.suite.q, cfg.pk, s.signerSet, id, s.nonceShares[id], s.challenge, share)
  }

  ghost function SessionSignature(cfg: Config, s: Session): Signature {
    Signature(s.aggregateNonce, ShareSum(cfg.suite.q, s.sigShares))
  }

  /** A session as initiateSession made it, with the accepted shares so far. */
  ghost predicate SessionOK(cfg: Config, sid: nat, s: Session) {
    && IsPartySet(s.signerSet) && |s.signerSet| == cfg.t && Members(s.signerSet) <= cfg.Parties()
    && s.preShares.Keys == Members(s.signerSet)
    && s.sigShares.Keys <= Members(s.signerSet)
    && s == NewSession(cfg, sid, s.signerSet, s.preShares).(sigShares := s.sigShares)
    && forall id <- s.sigShares :: Accepts(cfg, s, id, s.sigShares[id])
  }

  /** A session with t shares yields a valid signature. */
  lemma CompleteSessionVerifies(cfg: Config, sid: nat, s: Session)
    requires cfg.Valid() && SessionOK(cfg, sid, s) && |s.sigShares| == cfg.t
    ensures s.sigShares.Keys == Members(s.signerSet)
    ensures Verify(cfg.suite, cfg.pk.groupKey, cfg.message, SessionSignature(cfg, s))
  {
    hide ConsistentKeys;
    hide ShareVal;
    SortedSize(s.signerSet);
    SubsetEqual(s.sigShares.Keys, Members(s.signerSet));
    StoredSharesValid(cfg, sid, s);
    hide *;
    AggregateVerifies(cfg.suite, cfg.pk, s.signerSet, s.nonceShares, cfg.message, s.sigShares);
  }

  lemma StoredSharesValid(cfg: Config, sid: nat, s: Session)
    requires SessionOK(cfg, sid, s) && s.sigShares.Keys == Members(s.signerSet)
    ensures AllSharesValid(cfg.suite.q, cfg.pk, s.signerSet, s.nonceShares, s.challenge, s.sigShares)
    ensures s.aggregateNonce == AggregateNonce(s.signerSet, s.nonceShares)
    ensures s.challenge == Challenge(cfg.suite, s.aggregateNonce, cfg.pk.groupKey, cfg.message)
  {
    hide ShareVal;
    forall id <- s.signerSet
      ensures id in cfg.pk.shares && id in s.nonceShares && id in s.sigShares
      ensures ShareVal(cfg.suite.q, cfg.pk, s.signerSet, id, s.nonceShares[id], s.challenge, s.sigShares[id])
    {
      assert id in Members(s.signerSet);
      assert Accepts(cfg, s, id, s.sigShares[id]);
    }
  }

  // ---------------------------------------------------------------------------
  // The step
  // ---------------------------------------------------------------------------

  function MarkMalicious(s: State, id: ID): State {
    s.(malicious := s.malicious + {id}, responsive := s.responsive - {id},
       preShares := s.preShares - {id}, signerSID := s.signerSID - {id})
  }

  /** ValidateAndStore on a valid share. */
  function StoreShare(s: State, sid: nat, id: ID, share: nat): State
    requires sid in s.sessions
  {
    var session := s.sessions[sid];
    s.(sessions := s.sessions[sid := session.(sigShares := session.sigShares[id := share])])
  }

  function MakeResponsive(s: State, id: ID, pre: PreShare): State {
    s.(preShares := s.preShares[id := pre], responsive := s.responsive + {id}, signerSID := s.signerSID - {id})
  }

  /** The signer set of the next session. */
  ghost function NextSigners(s: State): seq<ID> {
    SortedOf(s.responsive)
  }

  ghost function SessionPreShares(s: State): map<ID, PreShare>
    requires s.responsive <= s.preShares.Keys
  {
    map id | id in s.responsive :: s.preShares[id]
  }

  ghost function NextSession(cfg: Config, s: State): Session
    requires s.responsive <= s.preShares.Keys
  {
    NewSession(cfg, NextSid(s), NextSigners(s), SessionPreShares(s))
  }

  lemma NextSessionShape(cfg: Config, s: State)
    requires s.responsive <= s.preShares.Keys
    ensures
      var session := NextSession(cfg, s);
      && session.id == NextSid(s) && session.sigShares == map[] && session.preShares == SessionPreShares(s)
      && Sorted(session.signerSet) && Members(session.signerSet) == s.responsive
      && |session.signerSet| == |s.responsive|
      && session == NewSession(cfg, NextSid(s), session.signerSet, session.preShares)
  {
  }

  /** The counter is 32 bits wide. */
  function NextSid(s: State): nat {
    (s.sidCounter + 1) % 0x1_0000_0000
  }

  /** initiateSession on exactly t responsive signers. */
  ghost function Initiate(cfg: Config, s: State): State
    requires s.responsive <= s.preShares.Keys
  {
    var sid := NextSid(s);
    s.(sidCounter := sid,
       sessions := s.sessions[sid := NextSession(cfg, s)],
       signerSID := s.signerSID + Ledger.AssignAll(s.responsive, sid),
       responsive := {})
  }

  /** One identical request per signer. */
  ghost function Requests(cfg: Config, session: Session): seq<SignRequest> {
    seq(|session.signerSet|, i => SignRequest(session.id, session.signerSet, session.preShares, cfg.message))
  }

  /** No dangling map lookups. */
  ghost predicate Linked(s: State) {
    && s.responsive <= s.preShares.Keys
    && forall id :: id in s.signerSID ==> s.signerSID[id] in s.sessions
  }

  /** The end of HandleResponse: the signer becomes responsive and a session may start. */
  ghost function Rejoin(cfg: Config, s: State, from: ID, pre: PreShare): Outcome
    requires s.responsive <= s.preShares.Keys
  {
    var s1 := MakeResponsive(s, from, pre);
    var start := |s1.responsive| >= cfg.t;
    var s2 := if start then Initiate(cfg, s1) else s1;
    if |s2.malicious| > cfg.N() - cfg.t then
      Outcome(s2, None, [], Some(TooManyMalicious))
    else
      Outcome(s2, None, if start then Requests(cfg, NextSession(cfg, s1)) else [], None)
  }

  /** The reply carries a share that passes the check of the sender's session. */
  predicate Passes(cfg: Config, s: State, r: Reply) {
    && r.from in s.signerSID && s.signerSID[r.from] in s.sessions
    && r.share.Some? && Accepts(cfg, s.sessions[s.signerSID[r.from]], r.from, r.share.value)
  }

  /** HandleResponse. */
  ghost function Step(cfg: Config, s: State, r: Reply): Outcome
    requires Linked(s)
  {
    if s.done then
      Outcome(s, s.signature, [], Some(AlreadyComplete))
    else if r.from in s.malicious then
      Outcome(s, None, [], Some(SignerMalicious))
    else if r.from in s.responsive then
      Outcome(MarkMalicious(s, r.from), None, [], Some(Unsolicited))
    else if r.from in s.signerSID then
      var sid := s.signerSID[r.from];
      if !Passes(cfg, s, r) then
        Outcome(MarkMalicious(s, r.from), None, [], Some(InvalidShare))
      else
        var s1 := StoreShare(s, sid, r.from, r.share.value);
        var sig := SessionSignature(cfg, s1.sessions[sid]);
        if |s1.sessions[sid].sigShares| == cfg.t && Verify(cfg.suite, cfg.pk.groupKey, cfg.message, sig) then
          Outcome(s1.(signature := Some(sig), done := true), Some(sig), [], None)
        else
          Rejoin(cfg, s1, r.from, r.preShare)
    else
      Rejoin(cfg, s, r.from, r.preShare)
  }

  // ---------------------------------------------------------------------------
  // The ledger, and the invariant
  // ---------------------------------------------------------------------------

  ghost function TallyOf(s: Session): Ledger.Tally {
    Ledger.Tally(Members(s.signerSet), s.sigShares.Keys)
  }

  ghost function BookOf(s: State): Ledger.Book {
    Ledger.Book(s.responsive, s.malicious, s.signerSID,
                Tallies(s.sessions), s.sidCounter, s.done)
  }

  ghost function Tallies(m: map<nat, Session>): map<nat, Ledger.Tally> {
    map sid | sid in m :: TallyOf(m[sid])
  }

  lemma TalliesUpdate(m: map<nat, Session>, sid: nat, s: Session)
    ensures Tallies(m[sid := s]) == Tallies(m)[sid := TallyOf(s)]
  {
  }

  ghost predicate Crypto(cfg: Config, s: State) {
    && s.responsive <= s.preShares.Keys
    && (forall sid :: sid in s.sessions ==> SessionOK(cfg, sid, s.sessions[sid]))
    && (!s.done ==> s.signature == None)
    && (s.done ==> s.signature.Some? && Verify(cfg.suite, cfg.pk.groupKey, cfg.message, s.signature.value))
  }

  ghost predicate Inv(cfg: Config, s: State) {
    && cfg.Valid() && Linked(s)
    && Ledger.Inv(cfg.Parties(), cfg.t, BookOf(s)) && Crypto(cfg, s)
  }

  lemma PartiesSize(cfg: Config)
    requires cfg.Valid()
    ensures |cfg.Parties()| == cfg.N() <= 65535 && 1 <= cfg.t <= cfg.N()
  {
    SortedSize(cfg.pk.partyIDs);
    PartySetSize(cfg.pk.partyIDs);
  }

  lemma InitInv(cfg: Config)
    requires cfg.Valid()
    ensures Inv(cfg, Init())
  {
    PartiesSize(cfg);
    assert BookOf(Init()) == Ledger.Init();
    Ledger.InitInv(cfg.Parties(), cfg.t);
  }

  lemma StoreShareFollows(s: State, sid: nat, id: ID, share: nat)
    requires sid in s.sessions
    ensures BookOf(StoreShare(s, sid, id, share)) == Ledger.Give(BookOf(s), sid, id)
  {
    var s' := StoreShare(s, sid, id, share);
    assert s'.sessions[sid].sigShares.Keys == s.sessions[sid].sigShares.Keys + {id};
  }

  lemma InitiateFollows(cfg: Config, s: State)
    requires s.responsive <= s.preShares.Keys && s.sidCounter <= 65536
    ensures BookOf(Initiate(cfg, s)) == Ledger.Start(BookOf(s))
  {
    hide NextSession;
    hide Tallies;
    hide TallyOf;
    hide SessionPreShares;
    NextTally(cfg, s);
    assert NextSid(s) == s.sidCounter + 1;
    TalliesUpdate(s.sessions, NextSid(s), NextSession(cfg, s));
  }

  lemma NextTally(cfg: Config, s: State)
    requires s.responsive <= s.preShares.Keys
    ensures TallyOf(NextSession(cfg, s)) == Ledger.Tally(s.responsive, {})
  {
  }

  lemma RejoinFollows(cfg: Config, s: State, id: ID, pre: PreShare)
    requires s.responsive <= s.preShares.Keys && s.sidCounter <= 65536
    ensures BookOf(Rejoin(cfg, s, id, pre).state) == Ledger.Join(cfg.t, BookOf(s), id)
  {
    hide NextSession;
    hide Tallies;
    hide Initiate;
    hide Requests;
    var s1 := MakeResponsive(s, id, pre);
    assert BookOf(s1) == Ledger.Enlist(BookOf(s), id);
    if |s1.responsive| >= cfg.t {
      InitiateFollows(cfg, s1);
    }
  }

  lemma StoreShareOK(cfg: Config, sid: nat, s: Session, id: ID, share: nat)
    requires cfg.Valid() && SessionOK(cfg, sid, s) && Accepts(cfg, s, id, share)
    ensures SessionOK(cfg, sid, s.(sigShares := s.sigShares[id := share]))
  {
    hide NewSession;
    hide ShareVal;
    var s' := s.(sigShares := s.sigShares[id := share]);
    NewSessionShape(cfg, sid, s.signerSet, s.preShares);
    assert s'.sigShares.Keys == s.sigShares.Keys + {id};
    assert s.(sigShares := s'.sigShares) == s';
  }

  /** A stored share that completes a session makes it verify, so the coordinator's two tests
      are one. */
  lemma CompleteMeansVerified(cfg: Config, s: State, r: Reply)
    requires Inv(cfg, s) && !s.done && Passes(cfg, s, r)
    ensures
      var sid := s.signerSID[r.from];
      var session := StoreShare(s, sid, r.from, r.share.value).sessions[sid];
      && SessionOK(cfg, sid, session)
      && (|session.sigShares| == cfg.t ==>
           Verify(cfg.suite, cfg.pk.groupKey, cfg.message, SessionSignature(cfg, session)))
  {
    var sid := s.signerSID[r.from];
    StoreShareOK(cfg, sid, s.sessions[sid], r.from, r.share.value);
    var session := StoreShare(s, sid, r.from, r.share.value).sessions[sid];
    if |session.sigShares| == cfg.t {
      CompleteSessionVerifies(cfg, sid, session);
    }
  }

  /** Every call does to the ledger what the ledger's step does. */
  lemma StepFollowsLedger(cfg: Config, s: State, r: Reply)
    requires Inv(cfg, s) && r.from in cfg.Parties()
    ensures BookOf(Step(cfg, s, r).state) == Ledger.Step(cfg.t, BookOf(s), r.from, Passes(cfg, s, r))
  {
    hide SessionOK;
    hide Accepts;
    hide NextSession;
    hide ConsistentKeys;
    PartiesSize(cfg);
    if s.done || r.from in s.malicious {
    } else if r.from in s.responsive {
    } else if r.from in s.signerSID {
      if Passes(cfg, s, r) {
        StepOnValidShare(cfg, s, r);
      }
    } else {
      RejoinFollows(cfg, s, r.from, r.preShare);
    }
  }

  lemma StepOnValidShare(cfg: Config, s: State, r: Reply)
    requires Inv(cfg, s) && !s.done && r.from !in s.malicious && r.from !in s.responsive && Passes(cfg, s, r)
    ensures BookOf(Step(cfg, s, r).state) == Ledger.Step(cfg.t, BookOf(s), r.from, true)
  {
    hide SessionOK;
    hide Accepts;
    hide NextSession;
    hide ConsistentKeys;
    hide Verify;
    var sid := s.signerSID[r.from];
    var s1 := StoreShare(s, sid, r.from, r.share.value);
    PartiesSize(cfg);
    StoreShareFollows(s, sid, r.from, r.share.value);
    CompleteMeansVerified(cfg, s, r);
    if |s1.sessions[sid].sigShares| != cfg.t {
      RejoinFollows(cfg, s1, r.from, r.preShare);
    }
  }

  // ---------------------------------------------------------------------------
  // Every call keeps the invariant
  // ---------------------------------------------------------------------------

  lemma LinkedFromLedger(cfg: Config, s: State)
    requires Ledger.Inv(cfg.Parties(), cfg.t, BookOf(s)) && !s.done
    ensures forall id :: id in s.signerSID ==> s.signerSID[id] in s.sessions
  {
  }

  lemma NextSessionOK(cfg: Config, s: State)
    requires cfg.Valid() && s.responsive <= s.preShares.Keys && s.responsive <= cfg.Parties() && |s.responsive| == cfg.t
    ensures SessionOK(cfg, NextSid(s), NextSession(cfg, s))
  {
    hide NewSession;
    hide NextSession;
    NextSessionShape(cfg, s);
    var session := NextSession(cfg, s);
    forall i | 0 <= i < |session.signerSet|
      ensures session.signerSet[i] != 0
    {
      assert session.signerSet[i] in Members(session.signerSet);
      assert session.signerSet[i] in Members(cfg.pk.partyIDs);
    }
    assert session.(sigShares := session.sigShares) == session;
  }

  /** The crypto part after a signer has rejoined. */
  lemma RejoinCrypto(cfg: Config, s: State, id: ID, pre: PreShare)
    requires cfg.Valid() && Crypto(cfg, s) && !s.done && s.sidCounter <= 65536
    requires s.responsive + {id} <= cfg.Parties() && |s.responsive| < cfg.t && id !in s.responsive
    ensures Crypto(cfg, Rejoin(cfg, s, id, pre).state)
  {
    hide SessionOK;
    hide NextSession;
    hide Requests;
    hide ConsistentKeys;
    var s1 := MakeResponsive(s, id, pre);
    if |s1.responsive| >= cfg.t {
      NextSessionOK(cfg, s1);
    }
  }

  /** What the ledger says about the coordinator's sets. */
  lemma LedgerFacts(cfg: Config, s: State)
    requires cfg.Valid() && Ledger.Inv(cfg.Parties(), cfg.t, BookOf(s))
    ensures s.responsive <= cfg.Parties() && s.malicious <= cfg.Parties() && s.signerSID.Keys <= cfg.Parties()
    ensures s.responsive !! s.malicious && s.responsive !! s.signerSID.Keys && s.malicious !! s.signerSID.Keys
    ensures |s.responsive| < cfg.t <= cfg.N() && s.sidCounter <= cfg.N() - cfg.t + 1 <= 65536
  {
    PartiesSize(cfg);
  }

  /** The outcome of a reply whose share completes its session. */
  ghost function Finish(cfg: Config, s: State, sid: nat): Outcome
    requires sid in s.sessions
  {
    var sig := Some(SessionSignature(cfg, s.sessions[sid]));
    Outcome(s.(signature := sig, done := true), sig, [], None)
  }

  /** The reply's sender is pending and its share passes. */
  predicate Counts(cfg: Config, s: State, r: Reply) {
    !s.done && r.from !in s.malicious && r.from !in s.responsive && Passes(cfg, s, r)
  }

  /** `Step` on a passing share: the session is complete and the run over, or the sender
      rejoins. */
  lemma StepCounts(cfg: Config, s: State, r: Reply)
    requires Inv(cfg, s) && Counts(cfg, s, r)
    ensures
      var sid := s.signerSID[r.from];
      var s1 := StoreShare(s, sid, r.from, r.share.value);
      && SessionOK(cfg, sid, s1.sessions[sid])
      && Step(cfg, s, r) ==
         if |s1.sessions[sid].sigShares| == cfg.t then Finish(cfg, s1, sid) else Rejoin(cfg, s1, r.from, r.preShare)
  {
    CompleteMeansVerified(cfg, s, r);
    hide SessionOK;
    hide Accepts;
    hide ConsistentKeys;
    hide Verify;
    hide Rejoin;
    hide Ledger.Inv;
    hide BookOf;
  }

  /** `Step` on every other reply. */
  lemma StepOtherwise(cfg: Config, s: State, r: Reply)
    requires Inv(cfg, s) && !Counts(cfg, s, r)
    ensures Step(cfg, s, r) ==
      if s.done then Outcome(s, s.signature, [], Some(AlreadyComplete))
      else if r.from in s.malicious then Outcome(s, None, [], Some(SignerMalicious))
      else if r.from in s.responsive then Outcome(MarkMalicious(s, r.from), None, [], Some(Unsolicited))
      else if r.from in s.signerSID then Outcome(MarkMalicious(s, r.from), None, [], Some(InvalidShare))
      else Rejoin(cfg, s, r.from, r.preShare)
  {
    hide SessionOK;
    hide Accepts;
    hide Config.Valid;
    hide Verify;
    hide Rejoin;
    hide Ledger.Inv;
    hide BookOf;
    hide SessionSignature;
    hide StoreShare;
    hide Crypto;
  }

  /** The signer may become responsive. */
  ghost predicate CanRejoin(cfg: Config, s: State, id: ID) {
    s.responsive <= s.preShares.Keys && id !in s.responsive && |s.responsive| < cfg.t
  }

  /** If the session is complete, its signature verifies. */
  ghost predicate Settled(cfg: Config, s: State, sid: nat) {
    && sid in s.sessions
    && (|s.sessions[sid].sigShares| == cfg.t ==>
         Verify(cfg.suite, cfg.pk.groupKey, cfg.message, SessionSignature(cfg, s.sessions[sid])))
  }

  /** What happens once a share is stored. */
  ghost function AfterShare(cfg: Config, s: State, sid: nat, id: ID, pre: PreShare): Outcome
    requires sid in s.sessions && s.responsive <= s.preShares.Keys
  {
    if |s.sessions[sid].sigShares| == cfg.t then Finish(cfg, s, sid) else Rejoin(cfg, s, id, pre)
  }

  /** The whole branch of a pending signer. */
  lemma PendingStep(cfg: Config, s: State, r: Reply)
    requires Inv(cfg, s) && !s.done && r.from !in s.malicious && r.from !in s.responsive && r.from in s.signerSID
    ensures s.signerSID[r.from] in s.sessions && CanRejoin(cfg, s, r.from)
    ensures r.share.None? || !Accepts(cfg, s.sessions[s.signerSID[r.from]], r.from, r.share.value) ==>
      Step(cfg, s, r) == Outcome(MarkMalicious(s, r.from), None, [], Some(InvalidShare))
    ensures r.share.Some? && Accepts(cfg, s.sessions[s.signerSID[r.from]], r.from, r.share.value) ==>
      var sid := s.signerSID[r.from];
      var s1 := StoreShare(s, sid, r.from, r.share.value);
      && Settled(cfg, s1, sid) && CanRejoin(cfg, s1, r.from)
      && Step(cfg, s, r) == AfterShare(cfg, s1, sid, r.from, r.preShare)
  {
    LedgerFacts(cfg, s);
    hide SessionOK;
    hide Accepts;
    hide Config.Valid;
    hide Verify;
    hide Rejoin;
    hide Finish;
    hide Ledger.Inv;
    hide BookOf;
    hide SessionSignature;
    hide Crypto;
    hide Step;
    if Counts(cfg, s, r) {
      StepCounts(cfg, s, r);
      CompleteMeansVerified(cfg, s, r);
    } else {
      StepOtherwise(cfg, s, r);
    }
  }

  lemma StepCrypto(cfg: Config, s: State, r: Reply)
    requires Inv(cfg, s) && r.from in cfg.Parties()
    ensures Crypto(cfg, Step(cfg, s, r).state)
  {
    hide SessionOK;
    hide Accepts;
    hide Config.Valid;
    hide Verify;
    hide Rejoin;
    hide Ledger.Inv;
    hide BookOf;
    hide Crypto;
    hide SessionSignature;
    hide StoreShare;
    LedgerFacts(cfg, s);
    if Counts(cfg, s, r) {
      StepCountsCrypto(cfg, s, r);
    } else if r.from in s.malicious || s.done {
    } else if r.from in s.responsive || r.from in s.signerSID {
      MarkMaliciousCrypto(cfg, s, r.from);
    } else {
      RejoinCrypto(cfg, s, r.from, r.preShare);
    }
  }

  lemma MarkMaliciousCrypto(cfg: Config, s: State, id: ID)
    requires Crypto(cfg, s)
    ensures Crypto(cfg, MarkMalicious(s, id))
  {
  }

  lemma StepCountsCrypto(cfg: Config, s: State, r: Reply)
    requires Inv(cfg, s) && Counts(cfg, s, r)
    ensures Crypto(cfg, Step(cfg, s, r).state)
    ensures Step(cfg, s, r).state.done ==> Linked(Step(cfg, s, r).state)
  {
    hide Step;
    hide SessionOK;
    hide Accepts;
    hide Config.Valid;
    hide Verify;
    hide Rejoin;
    hide SessionSignature;
    hide Ledger.Inv;
    hide BookOf;
    hide Crypto;
    LedgerFacts(cfg, s);
    StepCounts(cfg, s, r);
    CompleteMeansVerified(cfg, s, r);
    var sid := s.signerSID[r.from];
    var s1 := StoreShare(s, sid, r.from, r.share.value);
    StoreShareCrypto(cfg, s, sid, r.from, r.share.value);
    if |s1.sessions[sid].sigShares| == cfg.t {
      FinishCrypto(cfg, s1, sid);
    } else {
      RejoinCrypto(cfg, s1, r.from, r.preShare);
      RejoinNotDone(cfg, s1, r.from, r.preShare);
    }
  }

  lemma StoreShareCrypto(cfg: Config, s: State, sid: nat, id: ID, share: nat)
    requires Crypto(cfg, s) && sid in s.sessions && SessionOK(cfg, sid, StoreShare(s, sid, id, share).sessions[sid])
    ensures Crypto(cfg, StoreShare(s, sid, id, share))
  {
    hide SessionOK;
    hide Verify;
  }

  lemma FinishCrypto(cfg: Config, s: State, sid: nat)
    requires Crypto(cfg, s) && sid in s.sessions
    requires Verify(cfg.suite, cfg.pk.groupKey, cfg.message, SessionSignature(cfg, s.sessions[sid]))
    ensures Crypto(cfg, Finish(cfg, s, sid).state)
  {
    hide SessionOK;
    hide Verify;
    hide SessionSignature;
  }

  lemma RejoinNotDone(cfg: Config, s: State, id: ID, pre: PreShare)
    requires s.responsive <= s.preShares.Keys && !s.done
    ensures !Rejoin(cfg, s, id, pre).state.done
  {
    hide NextSession;
    hide Requests;
  }

  /** Every call with a reply from a party keeps the invariant, whatever the reply. */
  lemma StepInv(cfg: Config, s: State, r: Reply)
    requires Inv(cfg, s) && r.from in cfg.Parties()
    ensures Inv(cfg, Step(cfg, s, r).state)
  {
    StepFollowsLedger(cfg, s, r);
    Ledger.StepInv(cfg.Parties(), cfg.t, BookOf(s), r.from, Passes(cfg, s, r));
    StepCrypto(cfg, s, r);
    StepLinked(cfg, s, r);
    hide Step;
    hide BookOf;
    hide Passes;
    hide Config.Valid;
    hide Ledger.Inv;
    hide Ledger.Step;
    hide Crypto;
  }

  /** A finished coordinator only repeats its signature. */
  lemma DoneStays(cfg: Config, s: State, r: Reply)
    requires Linked(s) && s.done
    ensures Step(cfg, s, r) == Outcome(s, s.signature, [], Some(AlreadyComplete))
  {
  }

  lemma StepLinked(cfg: Config, s: State, r: Reply)
    requires Inv(cfg, s) && r.from in cfg.Parties()
    requires Ledger.Inv(cfg.Parties(), cfg.t, BookOf(Step(cfg, s, r).state))
    requires Crypto(cfg, Step(cfg, s, r).state)
    ensures Linked(Step(cfg, s, r).state)
  {
    var s' := Step(cfg, s, r).state;
    if !s'.done {
      LinkedFromLedger(cfg, s');
    } else if s.done {
    } else {
      DoneByCounting(cfg, s, r);
      StepCountsCrypto(cfg, s, r);
    }
    hide *;
  }

  /** Only a passing share ends the run. */
  lemma DoneByCounting(cfg: Config, s: State, r: Reply)
    requires Inv(cfg, s) && !s.done && Step(cfg, s, r).state.done
    ensures Counts(cfg, s, r)
  {
    hide SessionOK;
    hide Accepts;
    hide Config.Valid;
    hide Verify;
    hide Ledger.Inv;
    hide BookOf;
    hide Rejoin;
    hide SessionSignature;
    if !Counts(cfg, s, r) && r.from !in s.malicious && r.from !in s.responsive && r.from !in s.signerSID {
      RejoinNotDone(cfg, s, r.from, r.preShare);
    }
  }

  // ---------------------------------------------------------------------------
  // Any keys
  // ---------------------------------------------------------------------------

  /** What the code needs of its configuration, whether or not the keys are consistent. */
  ghost predicate Usable(cfg: Config) {
    IsPrime(cfg.suite.q) && cfg.suite.q > 65535 && cfg.t >= 1 && cfg.Parties() <= cfg.pk.shares.Keys
  }

  /** Lookups cannot fail, and an unfinished coordinator has fewer than t responsive signers. */
  ghost predicate Safe(cfg: Config, s: State) {
    Usable(cfg) && Linked(s) && (!s.done ==> |s.responsive| < cfg.t)
  }

  lemma InvSafe(cfg: Config, s: State)
    requires Inv(cfg, s)
    ensures Safe(cfg, s)
  {
    LedgerFacts(cfg, s);
    hide Ledger.Inv;
    hide BookOf;
    hide Crypto;
  }

  /** What happens once a share is stored, for any keys: a complete session whose signature
      does not verify leaves its last signer to rejoin. */
  ghost function AfterAnyShare(cfg: Config, s: State, sid: nat, id: ID, pre: PreShare): Outcome
    requires sid in s.sessions && s.responsive <= s.preShares.Keys
  {
    if |s.sessions[sid].sigShares| == cfg.t && Verify(cfg.suite, cfg.pk.groupKey, cfg.message, SessionSignature(cfg, s.sessions[sid]))
    then Finish(cfg, s, sid) else Rejoin(cfg, s, id, pre)
  }

  /** The branches of a call, for any keys. */
  lemma StepCases(cfg: Config, s: State, r: Reply)
    requires Safe(cfg, s)
    ensures s.done ==> Step(cfg, s, r) == Outcome(s, s.signature, [], Some(AlreadyComplete))
    ensures !s.done && r.from in s.malicious ==> Step(cfg, s, r) == Outcome(s, None, [], Some(SignerMalicious))
    ensures !s.done && r.from !in s.malicious && r.from in s.responsive ==>
      Step(cfg, s, r) == Outcome(MarkMalicious(s, r.from), None, [], Some(Unsolicited))
    ensures !s.done && r.from !in s.malicious && r.from !in s.responsive && r.from in s.signerSID ==>
      && s.signerSID[r.from] in s.sessions && CanRejoin(cfg, s, r.from)
      && Step(cfg, s, r) ==
        if Passes(cfg, s, r) then
          AfterAnyShare(cfg, StoreShare(s, s.signerSID[r.from], r.from, r.share.value), s.signerSID[r.from], r.from, r.preShare)
        else Outcome(MarkMalicious(s, r.from), None, [], Some(InvalidShare))
    ensures !s.done && r.from !in s.malicious && r.from !in s.responsive && r.from !in s.signerSID ==>
      CanRejoin(cfg, s, r.from) && Step(cfg, s, r) == Rejoin(cfg, s, r.from, r.preShare)
  {
    hide Accepts;
    hide Verify;
    hide Rejoin;
    hide SessionSignature;
    hide Usable;
  }

  lemma RejoinSafe(cfg: Config, s: State, id: ID, pre: PreShare)
    requires Safe(cfg, s) && !s.done && CanRejoin(cfg, s, id)
    ensures Safe(cfg, Rejoin(cfg, s, id, pre).state)
  {
    hide NextSession;
    hide Requests;
    hide Usable;
    hide NextSid;
    hide Initiate;
    var s1 := MakeResponsive(s, id, pre);
    assert s1.responsive <= s1.preShares.Keys && Linked(s1);
    InitiateLinked(cfg, s1);
  }

  lemma InitiateLinked(cfg: Config, s: State)
    requires Linked(s)
    ensures Linked(Initiate(cfg, s)) && Initiate(cfg, s).responsive == {}
  {
    hide NextSession;
    hide NextSid;
  }

  lemma BlameSafe(cfg: Config, s: State, id: ID)
    requires Safe(cfg, s)
    ensures Safe(cfg, MarkMalicious(s, id))
  {
    hide Usable;
    SubsetSize(s.responsive - {id}, s.responsive);
  }

  /** Every call of the coordinator leaves it safe, for any keys. */
  lemma SafeStep(cfg: Config, s: State, r: Reply)
    requires Safe(cfg, s)
    ensures Safe(cfg, Step(cfg, s, r).state)
  {
    hide Step;
    hide Accepts;
    hide Verify;
    hide Rejoin;
    hide MarkMalicious;
    hide SessionSignature;
    hide Usable;
    StepCases(cfg, s, r);
    BlameSafe(cfg, s, r.from);
    if !s.done && r.from !in s.malicious && r.from !in s.responsive {
      if Passes(cfg, s, r) {
        var s1 := StoreShare(s, s.signerSID[r.from], r.from, r.share.value);
        RejoinSafe(cfg, s1, r.from, r.preShare);
      } else if r.from !in s.signerSID {
        RejoinSafe(cfg, s, r.from, r.preShare);
      }
    }
  }

  // ---------------------------------------------------------------------------
  // Results of a call
  // ---------------------------------------------------------------------------

  /** A session that starts is always announced: its t signers leave no room for more than
      n - t malicious ones. */
  lemma RejoinOutcome(cfg: Config, s: State, id: ID, pre: PreShare)
    requires cfg.Valid() && s.responsive <= s.preShares.Keys
    requires s.responsive + {id} <= cfg.Parties() && s.malicious <= cfg.Parties()
    requires id !in s.responsive && id !in s.malicious && s.responsive !! s.malicious
    requires |s.responsive| < cfg.t && s.sidCounter < 65536
    ensures
      var o, s1 := Rejoin(cfg, s, id, pre), MakeResponsive(s, id, pre);
      if |s.responsive| + 1 == cfg.t then
        && o == Outcome(Initiate(cfg, s1), None, Requests(cfg, NextSession(cfg, s1)), None)
        && o.state.sidCounter == s.sidCounter + 1
      else
        && o.state == s1 && o.signature == None && o.requests == []
        && o.error == if |s.malicious| > cfg.N() - cfg.t then Some(TooManyMalicious) else None
  {
    RejoinCounts(cfg, s, id);
    hide *;
    RejoinShape(cfg, s, id, pre);
  }

  lemma RejoinCounts(cfg: Config, s: State, id: ID)
    requires cfg.Valid()
    requires s.responsive + {id} <= cfg.Parties() && s.malicious <= cfg.Parties()
    requires id !in s.responsive && id !in s.malicious && s.responsive !! s.malicious
    ensures |s.responsive + {id}| == |s.responsive| + 1
    ensures |s.responsive| + 1 + |s.malicious| <= cfg.N()
  {
    PartiesSize(cfg);
    hide Config.Valid;
    hide Config.Parties;
    Ledger.DisjointFit(s.responsive + {id}, s.malicious, cfg.Parties());
  }

  lemma RejoinShape(cfg: Config, s: State, id: ID, pre: PreShare)
    requires s.responsive <= s.preShares.Keys && |s.responsive + {id}| == |s.responsive| + 1
    requires |s.responsive| + 1 + |s.malicious| <= cfg.N()
    requires |s.responsive| < cfg.t && s.sidCounter < 65536
    ensures
      var o, s1 := Rejoin(cfg, s, id, pre), MakeResponsive(s, id, pre);
      if |s.responsive| + 1 == cfg.t then
        && o == Outcome(Initiate(cfg, s1), None, Requests(cfg, NextSession(cfg, s1)), None)
        && o.state.sidCounter == s.sidCounter + 1
      else
        && o.state == s1 && o.signature == None && o.requests == []
        && o.error == if |s.malicious| > cfg.N() - cfg.t then Some(TooManyMalicious) else None
  {
    hide NextSession;
    hide Requests;
    hide Initiate;
    InitiateCounter(cfg, MakeResponsive(s, id, pre));
  }

  lemma InitiateCounter(cfg: Config, s: State)
    requires s.responsive <= s.preShares.Keys && s.sidCounter < 65536
    ensures Initiate(cfg, s).sidCounter == s.sidCounter + 1 && Initiate(cfg, s).malicious == s.malicious
  {
    hide NextSession;
  }

  // ---------------------------------------------------------------------------
  // Runs
  // ---------------------------------------------------------------------------

  ghost predicate FromParties(cfg: Config, rs: seq<Reply>) {
    forall i :: 0 <= i < |rs| ==> rs[i].from in cfg.Parties()
  }

  /** The coordinator's state after the replies rs, in this order. */
  ghost function Exec(cfg: Config, rs: seq<Reply>): (s: State)
    requires cfg.Valid() && FromParties(cfg, rs)
    ensures Inv(cfg, s)
  {
    if rs == [] then InitInv(cfg); Init()
    else
      var s := Exec(cfg, rs[..|rs| - 1]);
      StepInv(cfg, s, rs[|rs| - 1]);
      Step(cfg, s, rs[|rs| - 1]).state
  }

  lemma ExecEmpty(cfg: Config)
    requires cfg.Valid()
    ensures forall rs: seq<Reply> :: Exec(cfg, rs[..0]) == Init()
  {
  }

  lemma ExecNext(cfg: Config, rs: seq<Reply>, i: nat)
    requires cfg.Valid() && FromParties(cfg, rs) && i < |rs|
    ensures Exec(cfg, rs[..i + 1]) == Step(cfg, Exec(cfg, rs[..i]), rs[i]).state
  {
    assert rs[..i + 1][..i] == rs[..i];
    hide Step;
    hide Inv;
  }

  /** The ledger's view of a run. */
  ghost function Events(cfg: Config, rs: seq<Reply>): (es: seq<Ledger.Event>)
    requires cfg.Valid() && FromParties(cfg, rs)
    ensures |es| == |rs|
  {
    seq(|rs|, i requires 0 <= i < |rs| => EventAt(cfg, rs, i))
  }

  ghost function EventAt(cfg: Config, rs: seq<Reply>, i: nat): Ledger.Event
    requires cfg.Valid() && FromParties(cfg, rs) && i < |rs|
  {
    Ledger.Event(rs[i].from, Passes(cfg, Exec(cfg, rs[..i]), rs[i]))
  }

  ghost function Books(cfg: Config, rs: seq<Reply>): (bs: seq<Ledger.Book>)
    requires cfg.Valid() && FromParties(cfg, rs)
    ensures |bs| == |rs| + 1
  {
    seq(|rs| + 1, i requires 0 <= i <= |rs| => BookOf(Exec(cfg, rs[..i])))
  }

  lemma RunFollowsLedger(cfg: Config, rs: seq<Reply>)
    requires cfg.Valid() && FromParties(cfg, rs)
    ensures Ledger.IsRun(cfg.Parties(), cfg.t, Events(cfg, rs), Books(cfg, rs))
  {
    var es, bs := Events(cfg, rs), Books(cfg, rs);
    assert bs[0] == Ledger.Init() by {
      assert rs[..0] == [];
      assert BookOf(Init()) == Ledger.Init();
    }
    forall i | 0 <= i < |rs|
      ensures es[i].from in cfg.Parties() && bs[i + 1] == Ledger.Step(cfg.t, bs[i], es[i].from, es[i].valid)
    {
      assert rs[..i + 1][..i] == rs[..i];
      hide Inv;
      hide Step;
      hide BookOf;
      hide Passes;
      StepFollowsLedger(cfg, Exec(cfg, rs[..i]), rs[i]);
    }
  }

  lemma {:induction false} FromPartiesPrefix(cfg: Config, rs: seq<Reply>, more: seq<Reply>)
    requires FromParties(cfg, rs + more)
    ensures FromParties(cfg, rs)
  {
    assert forall i :: 0 <= i < |rs| ==> (rs + more)[i] == rs[i];
  }

  /** A finished run stays as it is: however it is continued, the state does not change, and
      every further call returns the same signature, which verifies. */
  lemma {:induction false} FinishedForever(cfg: Config, rs: seq<Reply>, more: seq<Reply>)
    requires cfg.Valid() && FromParties(cfg, rs + more) && FromParties(cfg, rs) && Exec(cfg, rs).done
    ensures Exec(cfg, rs + more) == Exec(cfg, rs)
    ensures Exec(cfg, rs).signature.Some? && Verify(cfg.suite, cfg.pk.groupKey, cfg.message, Exec(cfg, rs).signature.value)
    ensures forall r: Reply ::
      Step(cfg, Exec(cfg, rs + more), r) == Outcome(Exec(cfg, rs), Exec(cfg, rs).signature, [], Some(AlreadyComplete))
  {
    hide Verify;
    hide Ledger.Inv;
    hide BookOf;
    hide Config.Valid;
    if more == [] {
      assert rs + more == rs;
    } else {
      var k := |more| - 1;
      assert (rs + more)[..|rs| + k] == rs + more[..k];
      assert rs + more[..k] + [more[k]] == rs + more;
      FromPartiesPrefix(cfg, rs + more[..k], [more[k]]);
      FinishedForever(cfg, rs, more[..k]);
      ExecNext(cfg, rs + more, |rs| + k);
      assert (rs + more)[..|rs + more|] == rs + more;
    }
    forall r: Reply
      ensures Step(cfg, Exec(cfg, rs + more), r) == Outcome(Exec(cfg, rs), Exec(cfg, rs).signature, [], Some(AlreadyComplete))
    {
      DoneStays(cfg, Exec(cfg, rs + more), r);
    }
  }

  /** At most n - t + 1 sessions are started in any run, however adversarial. */
  lemma SessionBound(cfg: Config, rs: seq<Reply>)
    requires cfg.Valid() && FromParties(cfg, rs)
    ensures Exec(cfg, rs).sidCounter <= cfg.N() - cfg.t + 1
    ensures forall sid :: sid in Exec(cfg, rs).sessions <==> 1 <= sid <= Exec(cfg, rs).sidCounter
  {
    LedgerFacts(cfg, Exec(cfg, rs));
    SessionNumbers(cfg, Exec(cfg, rs));
    hide *;
  }

  lemma SessionNumbers(cfg: Config, s: State)
    requires Ledger.Inv(cfg.Parties(), cfg.t, BookOf(s))
    ensures forall sid :: sid in s.sessions <==> 1 <= sid <= s.sidCounter
  {
    assert forall sid :: sid in s.sessions <==> sid in BookOf(s).sessions;
  }

  /** At most n + t * (n - t + 1) replies of a run are accepted. */
  lemma AcceptedBound(cfg: Config, rs: seq<Reply>)
    requires cfg.Valid() && FromParties(cfg, rs)
    ensures Ledger.AcceptedCount(Events(cfg, rs), Books(cfg, rs)) <= cfg.N() + cfg.t * (cfg.N() - cfg.t + 1)
  {
    PartiesSize(cfg);
    RunFollowsLedger(cfg, rs);
    Ledger.AcceptedBound(cfg.Parties(), cfg.t, Events(cfg, rs), Books(cfg, rs));
  }

  /** In an unfinished run a member of a session is pending there exactly when it has neither
      given a valid share nor become malicious, and no session is complete. */
  lemma PendingExactly(cfg: Config, rs: seq<Reply>, sid: nat, id: ID)
    requires cfg.Valid() && FromParties(cfg, rs)
    requires var s := Exec(cfg, rs); !s.done && sid in s.sessions && id in s.sessions[sid].signerSet
    ensures var s := Exec(cfg, rs);
      && (id in s.signerSID && s.signerSID[id] == sid <==> id !in s.sessions[sid].sigShares && id !in s.malicious)
      && |s.sessions[sid].sigShares| < cfg.t
  {
    var s := Exec(cfg, rs);
    var b := BookOf(s);
    assert id in b.sessions[sid].signers;
    assert Ledger.Owes(b, sid, id) <==> id !in s.sessions[sid].sigShares;
  }
}