/** The coordinator as the object it is: fields changed in place, with every call proved to be
    the step of the state machine in Roast.dfy. */
module RoastCoordinator {
  import opened PrimeField
  import opened Sums
  import opened Group
  import opened Party
  import opened Frost
  import R = Roast

  /** ShareVal, with the Lagrange coefficient computed by the loop. */
  method CheckShare(q: Modulus, pk: Public, signerSet: seq<ID>, id: ID, nonceShare: Element, challenge: nat, share: nat)
    returns (ok: bool)
    requires IsPrime(q) && q > 65535 && id in pk.shares
    ensures ok == ShareVal(q, pk, signerSet, id, nonceShare, challenge, share)
  {
    var lagrange := Lagrange(q, id, signerSet);
    if lagrange.None? {
      return false;
    }
    var weighted := Mult(lagrange.value, pk.shares[id]);
    var rPrime := DoubleMult(challenge, Negate(weighted), share);
    ok := Equal(q, rPrime, nonceShare);
  }

  /** NewSession */
  method NewSession(cfg: R.Config, sid: nat, signerSet: seq<ID>, preShares: map<ID, PreShare>) returns (session: R.Session)
    requires signerSet != [] && forall id <- signerSet :: id in preShares
    ensures session == R.NewSession(cfg, sid, signerSet, preShares)
  {
    var factors := ComputeBindingFactors(cfg.suite, signerSet[0], signerSet, preShares, cfg.message);
    var nonceShares, aggregateNonce := ComputeNonceCommitments(signerSet, preShares, factors);
    var challenge := Challenge(cfg.suite, aggregateNonce, cfg.pk.groupKey, cfg.message);
    session := R.Session(sid, signerSet, preShares, factors, nonceShares, aggregateNonce, challenge, map[]);
  }

  /** ValidateAndStore, on a session held by value. */
  method ValidateAndStore(cfg: R.Config, session: R.Session, signer: ID, share: nat) returns (ok: bool, session': R.Session)
    requires IsPrime(cfg.suite.q) && cfg.suite.q > 65535 && signer in cfg.pk.shares
    ensures ok == R.Accepts(cfg, session, signer, share)
    ensures session' == if ok then session.(sigShares := session.sigShares[signer := share]) else session
  {
    ok, session' := false, session;
    if signer in session.nonceShares {
      ok := CheckShare(cfg.suite.q, cfg.pk, session.signerSet, signer, session.nonceShares[signer], session.challenge, share);
      if ok {
        session' := session.(sigShares := session.sigShares[signer := share]);
      }
    }
  }

  /** The signers of a new session move from the responsive set to the session map. */
  method Enrol(signerSet: seq<ID>, sid: nat, signerSID: map<ID, nat>, responsive: set<ID>)
    returns (signerSID': map<ID, nat>, responsive': set<ID>)
    ensures responsive' == responsive - Members(signerSet)
    ensures signerSID' == signerSID + R.Ledger.AssignAll(Members(signerSet), sid)
  {
    signerSID', responsive' := signerSID, responsive;
    for i := 0 to |signerSet|
      invariant responsive' == responsive - Members(signerSet[..i])
      invariant signerSID' == signerSID + R.Ledger.AssignAll(Members(signerSet[..i]), sid)
    {
      TakeSnoc(signerSet, i);
      assert Members(signerSet[..i + 1]) == Members(signerSet[..i]) + {signerSet[i]};
      signerSID' := signerSID'[signerSet[i] := sid];
      responsive' := responsive' - {signerSet[i]};
    }
    assert signerSet[..|signerSet|] == signerSet;
  }

  /** One request per signer. */
  method MakeRequests(cfg: R.Config, session: R.Session) returns (requests: seq<R.SignRequest>)
    ensures requests == R.Requests(cfg, session)
  {
    requests := [];
    for i := 0 to |session.signerSet|
      invariant requests == R.Requests(cfg, session)[..i]
    {
      requests := requests + [R.SignRequest(session.id, session.signerSet, session.preShares, cfg.message)];
    }
  }

  class Coordinator {
    const cfg: R.Config
    var responsive: set<ID>
    var malicious: set<ID>
    var preShares: map<ID, PreShare>
    var signerSID: map<ID, nat>
    var sessions: map<nat, R.Session>
    var sidCounter: nat
    var signature: Option<Signature>
    var done: bool

    ghost function Abs(): R.State
      reads this
    {
      R.State(responsive, malicious, preShares, signerSID, sessions, sidCounter, signature, done)
    }

    /** Ready for calls, whatever the keys. */
    ghost predicate Ready()
      reads this
    {
      R.Safe(cfg, Abs())
    }

    /** The full invariant, for consistent keys. */
    ghost predicate Valid()
      reads this
    {
      R.Inv(cfg, Abs())
    }

    constructor (cfg: R.Config)
      requires R.Usable(cfg)
      ensures this.cfg == cfg && Ready() && Abs() == R.Init()
      ensures cfg.Valid() ==> Valid()
    {
      this.cfg := cfg;
      responsive, malicious, preShares, signerSID := {}, {}, map[], map[];
      sessions, sidCounter, signature, done := map[], 0, None, false;
      new;
      if cfg.Valid() {
        R.InitInv(cfg);
      }
    }

    method MarkMalicious(id: ID)
      modifies this
      ensures Abs() == R.MarkMalicious(old(Abs()), id)
    {
      malicious := malicious + {id};
      responsive := responsive - {id};
      preShares := preShares - {id};
      signerSID := signerSID - {id};
    }

    /** The loop over the responsive map, in whatever order, up to t signers. */
    method CollectSigners() returns (ids: seq<ID>, pre: map<ID, PreShare>)
      requires responsive <= preShares.Keys
      ensures |ids| <= cfg.t && |Members(ids)| == |ids| && Members(ids) <= responsive
      ensures |responsive| == cfg.t ==> Members(ids) == responsive
      ensures pre == map id | id in Members(ids) :: preShares[id]
    {
      ids, pre := [], map[];
      var rest := responsive;
      assert Members(ids) == {};
      while rest != {} && |ids| < cfg.t
        invariant |ids| <= cfg.t && |Members(ids)| == |ids|
        invariant rest == responsive - Members(ids) && Members(ids) <= responsive
        invariant pre == map id | id in Members(ids) :: preShares[id]
        decreases |rest|
      {
        var id :| id in rest;
        assert Members(ids + [id]) == Members(ids) + {id};
        ids := ids + [id];
        pre := pre[id := preShares[id]];
        rest := rest - {id};
      }
      if |responsive| == cfg.t && rest != {} {
        SubsetEqual(Members(ids), responsive);
      }
    }

    /** The new session, before it is entered into the maps. */
    method BuildSession(sid: nat) returns (session: R.Session)
      requires |responsive| == cfg.t && cfg.t > 0 && responsive <= preShares.Keys && sid == R.NextSid(Abs())
      ensures session == R.NextSession(cfg, Abs()) && Members(session.signerSet) == responsive
    {
      hide R.NewSession;
      hide Nondecreasing;
      var ids, pre := CollectSigners();
      var signerSet := NewIDSlice(ids);
      SortedCopy(ids, signerSet);
      assert signerSet == R.NextSigners(Abs()) && pre == R.SessionPreShares(Abs());
      R.NewSessionShape(cfg, sid, signerSet, pre);
      session := NewSession(cfg, sid, signerSet, pre);
    }

    method InitiateSession() returns (requests: seq<R.SignRequest>)
      requires |responsive| == cfg.t && cfg.t > 0 && responsive <= preShares.Keys
      modifies this
      ensures Abs() == R.Initiate(cfg, old(Abs()))
      ensures requests == R.Requests(cfg, R.NextSession(cfg, old(Abs())))
    {
      hide R.NextSession;
      hide R.Requests;
      hide R.SessionPreShares;
      var sid := (sidCounter + 1) % 0x1_0000_0000;
      var session := BuildSession(sid);
      sidCounter := sid;
      sessions := sessions[sid := session];
      signerSID, responsive := Enrol(session.signerSet, sid, signerSID, responsive);
      requests := MakeRequests(cfg, session);
    }

    /** The end of HandleResponse. */
    method Rejoin(from: ID, preShare: PreShare) returns (requests: seq<R.SignRequest>, err: Option<R.Error>)
      requires R.CanRejoin(cfg, Abs(), from)
      modifies this
      ensures R.Outcome(Abs(), None, requests, err) == R.Rejoin(cfg, old(Abs()), from, preShare)
    {
      hide R.NextSession;
      hide R.Requests;
      hide R.Initiate;
      preShares := preShares[from := preShare];
      responsive := responsive + {from};
      signerSID := signerSID - {from};
      requests := [];
      if |responsive| >= cfg.t {
        requests := InitiateSession();
      }
      if |malicious| > cfg.N() - cfg.t {
        return [], Some(R.TooManyMalicious);
      }
      err := None;
    }

    /** A complete session is aggregated, and ends the run if the signature verifies;
        otherwise the signer rejoins. */
    method FinishOrRejoin(sid: nat, from: ID, preShare: PreShare)
      returns (sig: Option<Signature>, requests: seq<R.SignRequest>, err: Option<R.Error>)
      requires R.CanRejoin(cfg, Abs(), from) && sid in sessions
      modifies this
      ensures R.Outcome(Abs(), sig, requests, err) == R.AfterAnyShare(cfg, old(Abs()), sid, from, preShare)
    {
      hide R.Rejoin;
      hide ShareSum;
      hide Verify;
      if |sessions[sid].sigShares| == cfg.t {
        var signed := SignAgg(cfg.suite.q, sessions[sid].aggregateNonce, sessions[sid].sigShares);
        if Verify(cfg.suite, cfg.pk.groupKey, cfg.message, signed) {
          signature := Some(signed);
          done := true;
          return Some(signed), [], None;
        }
      }
      requests, err := Rejoin(from, preShare);
      sig := None;
    }

    /** The branch of a pending signer. */
    method HandlePending(from: ID, sigShare: Option<nat>, preShare: PreShare)
      returns (sig: Option<Signature>, requests: seq<R.SignRequest>, err: Option<R.Error>)
      requires Ready() && !done && from !in malicious && from !in responsive && from in signerSID
      requires from in cfg.pk.shares
      modifies this
      ensures R.Outcome(Abs(), sig, requests, err) == R.Step(cfg, old(Abs()), R.Reply(from, sigShare, preShare))
    {
      hide R.Step;
      hide R.Accepts;
      hide R.AfterAnyShare;
      ghost var r := R.Reply(from, sigShare, preShare);
      R.StepCases(cfg, Abs(), r);
      var sid := signerSID[from];
      if sigShare.None? {
        MarkMalicious(from);
        return None, [], Some(R.InvalidShare);
      }
      var ok, session := ValidateAndStore(cfg, sessions[sid], from, sigShare.value);
      if !ok {
        MarkMalicious(from);
        return None, [], Some(R.InvalidShare);
      }
      sessions := sessions[sid := session];
      sig, requests, err := FinishOrRejoin(sid, from, preShare);
    }

    /** HandleResponse is the step of the state machine, for any keys and any reply of a party;
        with consistent keys it keeps the full invariant. */
    method HandleResponse(from: ID, sigShare: Option<nat>, preShare: PreShare)
      returns (sig: Option<Signature>, requests: seq<R.SignRequest>, err: Option<R.Error>)
      requires Ready() && from in cfg.Parties()
      modifies this
      ensures Ready()
      ensures old(Valid()) ==> Valid()
      ensures R.Outcome(Abs(), sig, requests, err) == R.Step(cfg, old(Abs()), R.Reply(from, sigShare, preShare))
    {
      hide R.Step;
      hide R.Accepts;
      hide R.Inv;
      hide R.Rejoin;
      hide R.AfterAnyShare;
      ghost var s, r := Abs(), R.Reply(from, sigShare, preShare);
      R.SafeStep(cfg, s, r);
      R.StepCases(cfg, s, r);
      if R.Inv(cfg, s) {
        R.StepInv(cfg, s, r);
      }
      if done {
        return signature, [], Some(R.AlreadyComplete);
      }
      if from in malicious {
        return None, [], Some(R.SignerMalicious);
      }
      if from in responsive {
        MarkMalicious(from);
        return None, [], Some(R.Unsolicited);
      }
      if from in signerSID {
        sig, requests, err := HandlePending(from, sigShare, preShare);
      } else {
        requests, err := Rejoin(from, preShare);
        sig := None;
      }
    }
  }
}
