/** The reputation coordinator as an object, proved to take exactly the steps of the plain
    coordinator: whenever a session starts, exactly t signers are responsive, so the choice by
    weight takes all of them. */
module ReputationCoordinator {
  import opened PrimeField
  import opened Sums
  import opened Group
  import opened Party
  import opened Frost
  import opened Reputation
  import R = Roast
  import C = RoastCoordinator

  /** The order of the candidates: heavier first, then the smaller identifier. */
  predicate Before(w: map<ID, real>, a: ID, b: ID)
    requires a in w && b in w
  {
    w[a] > w[b] || (w[a] == w[b] && a < b)
  }

  predicate Ordered(w: map<ID, real>, ids: seq<ID>)
    requires forall id <- ids :: id in w
  {
    forall i, j :: 0 <= i < j < |ids| ==> Before(w, ids[i], ids[j])
  }

  lemma InsertOrdered(w: map<ID, real>, ids: seq<ID>, k: nat, x: ID)
    requires (forall id <- ids :: id in w) && x in w && Ordered(w, ids) && k <= |ids|
    requires forall j :: 0 <= j < k ==> Before(w, ids[j], x)
    requires forall j :: k <= j < |ids| ==> Before(w, x, ids[j])
    ensures forall id <- ids[..k] + [x] + ids[k..] :: id in w
    ensures Ordered(w, ids[..k] + [x] + ids[k..])
  {
  }

  lemma InsertMembers(ids: seq<ID>, k: nat, x: ID)
    requires k <= |ids|
    ensures Members(ids[..k] + [x] + ids[k..]) == Members(ids) + {x}
  {
  }

  /** Where the candidate x belongs. */
  method FindPlace(w: map<ID, real>, ids: seq<ID>, x: ID) returns (k: nat)
    requires (forall id <- ids :: id in w) && x in w && x !in ids && Ordered(w, ids)
    ensures k <= |ids|
    ensures forall j :: 0 <= j < k ==> Before(w, ids[j], x)
    ensures forall j :: k <= j < |ids| ==> Before(w, x, ids[j])
  {
    k := |ids|;
    while k > 0 && Before(w, x, ids[k - 1])
      invariant k <= |ids|
      invariant forall j :: k <= j < |ids| ==> Before(w, x, ids[j])
    {
      k := k - 1;
    }
    if k > 0 {
      forall j | 0 <= j < k
        ensures Before(w, ids[j], x)
      {
        assert j < k - 1 ==> Before(w, ids[j], ids[k - 1]);
      }
    }
  }

  /** The candidates sorted by weight. */
  method SortCandidates(w: map<ID, real>, responsive: set<ID>) returns (candidates: seq<ID>)
    requires responsive <= w.Keys
    ensures Members(candidates) == responsive && |candidates| == |responsive|
    ensures (forall id <- candidates :: id in w) && Ordered(w, candidates)
    ensures forall i, j :: 0 <= i < j < |candidates| ==>
      w[candidates[i]] > w[candidates[j]] || (w[candidates[i]] == w[candidates[j]] && candidates[i] < candidates[j])
  {
    hide Before;
    hide Ordered;
    candidates := [];
    var rest := responsive;
    OrderedEmpty(w);
    while rest != {}
      invariant rest <= responsive && Members(candidates) == responsive - rest && |candidates| + |rest| == |responsive|
      invariant (forall id <- candidates :: id in w) && Ordered(w, candidates)
      decreases |rest|
    {
      var id :| id in rest;
      assert id !in candidates by { assert id !in Members(candidates); }
      var k := FindPlace(w, candidates, id);
      InsertOrdered(w, candidates, k, id);
      InsertMembers(candidates, k, id);
      candidates := candidates[..k] + [id] + candidates[k..];
      rest := rest - {id};
    }
    OrderedByWeight(w, candidates);
  }

  lemma OrderedByWeight(w: map<ID, real>, ids: seq<ID>)
    requires (forall id <- ids :: id in w) && Ordered(w, ids)
    ensures forall i, j :: 0 <= i < j < |ids| ==>
      w[ids[i]] > w[ids[j]] || (w[ids[i]] == w[ids[j]] && ids[i] < ids[j])
  {
    forall i, j | 0 <= i < j < |ids|
      ensures w[ids[i]] > w[ids[j]] || (w[ids[i]] == w[ids[j]] && ids[i] < ids[j])
    {
      assert Before(w, ids[i], ids[j]);
    }
  }

  lemma OrderedEmpty(w: map<ID, real>)
    ensures Ordered(w, [])
  {
  }

  class ReputationCoordinator {
    const cfg: R.Config
    const config: ReputationConfig
    var weights: map<ID, real>
    var responsive: set<ID>
    var malicious: set<ID>
    var preShares: map<ID, PreShare>
    var signerSID: map<ID, nat>
    var sessions: map<nat, R.Session>
    var sidCounter: nat
    var signature: Option<Signature>
    var done: bool

    ghost function Abs(): R.State
      reads this
    {
      R.State(responsive, malicious, preShares, signerSID, sessions, sidCounter, signature, done)
    }

    /** Ready for calls, whatever the keys. */
    ghost predicate Ready()
      reads this
    {
      R.Safe(cfg, Abs()) && Sound(config) && weights.Keys == cfg.Parties() && responsive <= cfg.Parties()
    }

    /** For consistent keys: the protocol invariant, and the closed form of the weights. */
    ghost predicate Valid()
      reads this
    {
      R.Inv(cfg, Abs()) && Sound(config) && weights == Weights(cfg, config, Abs())
    }

    constructor (cfg: R.Config, config: ReputationConfig)
      requires R.Usable(cfg) && Sound(config)
      ensures this.cfg == cfg && this.config == config && Ready() && Abs() == R.Init()
      ensures cfg.Valid() ==> Valid()
    {
      this.cfg, this.config := cfg, config;
      responsive, malicious, preShares, signerSID := {}, {}, map[], map[];
      sessions, sidCounter, signature, done := map[], 0, None, false;
      weights := map id | id in cfg.pk.partyIDs :: config.w0;
      new;
      assert weights.Keys == cfg.Parties();
      if cfg.Valid() {
        R.InitInv(cfg);
      }
      WeightsInitially(cfg, config);
    }

    method MarkMalicious(id: ID)
      modifies this
      ensures Abs() == R.MarkMalicious(old(Abs()), id) && weights == old(weights)[id := 0.0]
    {
      malicious := malicious + {id};
      weights := weights[id := 0.0];
      responsive := responsive - {id};
      preShares := preShares - {id};
      signerSID := signerSID - {id};
    }

    method Reward(id: ID)
      requires id in weights
      modifies `weights
      ensures weights == old(weights)[id := Rewarded(config, old(weights)[id])]
    {
      var w := weights[id] + config.deltaPos;
      weights := weights[id := Min(w, config.wMax)];
    }

    /** The loop over the weight map, in any order. */
    method DecayNonParticipants(participants: seq<ID>)
      modifies `weights
      ensures weights == Decayed(config, old(weights), malicious, participants)
    {
      hide Decay;
      var rest := weights.Keys;
      ghost var was := weights;
      while rest != {}
        invariant rest <= was.Keys == weights.Keys
        invariant forall id :: id in was ==> weights[id] == if id in rest then was[id] else Decayed(config, was, malicious, participants)[id]
        decreases |rest|
      {
        var id :| id in rest;
        if id !in participants && id !in malicious {
          weights := weights[id := Decay(config, weights[id])];
        }
        rest := rest - {id};
      }
    }

    /** The first t candidates. Whatever the number of responsive signers, nobody left out
        comes before one taken; with exactly t of them all are taken. */
    method CollectSigners() returns (ids: seq<ID>, pre: map<ID, PreShare>)
      requires responsive <= preShares.Keys && responsive <= weights.Keys
      ensures |Members(ids)| == |ids| == (if |responsive| <= cfg.t then |responsive| else cfg.t)
      ensures Members(ids) <= responsive
      ensures forall a, b :: a in Members(ids) && b in responsive - Members(ids) ==>
        weights[a] > weights[b] || (weights[a] == weights[b] && a < b)
      ensures |responsive| == cfg.t ==> Members(ids) == responsive
      ensures pre == map id | id in Members(ids) :: preShares[id]
    {
      hide Before;
      hide Ordered;
      hide Members;
      var candidates := SortCandidates(weights, responsive);
      ids, pre := [], map[];
      NoMembers();
      while |ids| < |candidates| && |ids| < cfg.t
        invariant |ids| <= |candidates| && |ids| <= cfg.t && ids == candidates[..|ids|]
        invariant Members(ids) <= responsive && pre == map id | id in Members(ids) :: preShares[id]
        decreases |candidates| - |ids|
      {
        var id := candidates[|ids|];
        NextMember(candidates, |ids|);
        ids := ids + [id];
        pre := pre[id := preShares[id]];
      }
      PrefixChosen(weights, candidates, |ids|);
      if |responsive| == cfg.t {
        assert candidates[..|candidates|] == candidates;
      }
    }

    /** The new session, before it is entered into the maps. */
    method BuildSession(sid: nat) returns (session: R.Session)
      requires |responsive| == cfg.t && cfg.t > 0 && responsive <= preShares.Keys && responsive <= weights.Keys
      requires sid == R.NextSid(Abs())
      ensures session == R.NextSession(cfg, Abs()) && Members(session.signerSet) == responsive
    {
      hide R.NewSession;
      hide Nondecreasing;
      hide Before;
      var ids, pre := CollectSigners();
      var signerSet := NewIDSlice(ids);
      SortedCopy(ids, signerSet);
      assert signerSet == R.NextSigners(Abs()) && pre == R.SessionPreShares(Abs());
      R.NewSessionShape(cfg, sid, signerSet, pre);
      session := C.NewSession(cfg, sid, signerSet, pre);
    }

    method InitiateSession() returns (requests: seq<R.SignRequest>)
      requires |responsive| == cfg.t && cfg.t > 0 && responsive <= preShares.Keys && responsive <= weights.Keys
      modifies this
      ensures Abs() == R.Initiate(cfg, old(Abs())) && weights == old(weights)
      ensures requests == R.Requests(cfg, R.NextSession(cfg, old(Abs())))
    {
      hide R.NextSession;
      hide R.Requests;
      hide R.SessionPreShares;
      var sid := (sidCounter + 1) % 0x1_0000_0000;
      var session := BuildSession(sid);
      sidCounter := sid;
      sessions := sessions[sid := session];
      signerSID, responsive := C.Enrol(session.signerSet, sid, signerSID, responsive);
      requests := C.MakeRequests(cfg, session);
    }

    /** The end of HandleResponse. */
    method Rejoin(from: ID, preShare: PreShare) returns (requests: seq<R.SignRequest>, err: Option<R.Error>)
      requires R.CanRejoin(cfg, Abs(), from) && responsive + {from} <= weights.Keys
      modifies this
      ensures R.Outcome(Abs(), None, requests, err) == R.Rejoin(cfg, old(Abs()), from, preShare)
      ensures weights == old(weights)
    {
      hide R.NextSession;
      hide R.Requests;
      hide R.Initiate;
      preShares := preShares[from := preShare];
      responsive := responsive + {from};
      signerSID := signerSID - {from};
      requests := [];
      if |responsive| >= cfg.t {
        requests := InitiateSession();
      }
      if |malicious| > cfg.N() - cfg.t {
        return [], Some(R.TooManyMalicious);
      }
      err := None;
    }

    /** Reward and decay come before the signature is checked. */
    method FinishOrRejoin(sid: nat, from: ID, preShare: PreShare)
      returns (sig: Option<Signature>, requests: seq<R.SignRequest>, err: Option<R.Error>)
      requires R.CanRejoin(cfg, Abs(), from) && sid in sessions && responsive + {from} <= weights.Keys
      modifies this
      ensures R.Outcome(Abs(), sig, requests, err) == R.AfterAnyShare(cfg, old(Abs()), sid, from, preShare)
      ensures weights == ShareWeights(cfg, config, old(Abs()), sid, from, old(weights))
    {
      hide R.Rejoin;
      hide ShareSum;
      hide Verify;
      hide Rewarded;
      Reward(from);
      if |sessions[sid].sigShares| == cfg.t {
        DecayNonParticipants(sessions[sid].signerSet);
        var signed := SignAgg(cfg.suite.q, sessions[sid].aggregateNonce, sessions[sid].sigShares);
        if Verify(cfg.suite, cfg.pk.groupKey, cfg.message, signed) {
          signature := Some(signed);
          done := true;
          return Some(signed), [], None;
        }
      }
      requests, err := Rejoin(from, preShare);
      sig := None;
    }

    /** The branch of a pending signer. */
    method HandlePending(from: ID, sigShare: Option<nat>, preShare: PreShare)
      returns (sig: Option<Signature>, requests: seq<R.SignRequest>, err: Option<R.Error>)
      requires R.Safe(cfg, Abs()) && !done && from !in malicious && from !in responsive && from in signerSID
      requires from in cfg.pk.shares
      requires responsive + {from} <= weights.Keys
      modifies this
      ensures R.Outcome(Abs(), sig, requests, err) == R.Step(cfg, old(Abs()), R.Reply(from, sigShare, preShare))
      ensures weights == StepWeights(cfg, config, old(Abs()), R.Reply(from, sigShare, preShare), old(weights))
    {
      hide R.Step;
      hide R.Accepts;
      hide R.AfterAnyShare;
      hide ShareWeights;
      ghost var r := R.Reply(from, sigShare, preShare);
      R.StepCases(cfg, Abs(), r);
      var sid := signerSID[from];
      if sigShare.None? {
        MarkMalicious(from);
        return None, [], Some(R.InvalidShare);
      }
      var ok, session := C.ValidateAndStore(cfg, sessions[sid], from, sigShare.value);
      if !ok {
        MarkMalicious(from);
        return None, [], Some(R.InvalidShare);
      }
      sessions := sessions[sid := session];
      sig, requests, err := FinishOrRejoin(sid, from, preShare);
    }

    /** HandleResponse is the step of the plain coordinator, for any keys; with consistent keys
        it keeps the closed form of the weights. */
    method HandleResponse(from: ID, sigShare: Option<nat>, preShare: PreShare)
      returns (sig: Option<Signature>, requests: seq<R.SignRequest>, err: Option<R.Error>)
      requires Ready() && from in cfg.Parties()
      modifies this
      ensures Ready()
      ensures old(Valid()) ==> Valid()
      ensures R.Outcome(Abs(), sig, requests, err) == R.Step(cfg, old(Abs()), R.Reply(from, sigShare, preShare))
      ensures weights == StepWeights(cfg, config, old(Abs()), R.Reply(from, sigShare, preShare), old(weights))
    {
      hide R.Step;
      hide R.Accepts;
      hide R.Inv;
      hide R.Rejoin;
      hide R.AfterAnyShare;
      hide Weights;
      hide ShareWeights;
      ghost var s, r := Abs(), R.Reply(from, sigShare, preShare);
      R.SafeStep(cfg, s, r);
      R.StepCases(cfg, s, r);
      StepKeys(cfg, config, s, r, weights);
      if R.Inv(cfg, s) {
        R.StepInv(cfg, s, r);
        WeightsFollow(cfg, config, s, r);
      }
      if done {
        return signature, [], Some(R.AlreadyComplete);
      }
      if from in malicious {
        return None, [], Some(R.SignerMalicious);
      }
      if from in responsive {
        MarkMalicious(from);
        return None, [], Some(R.Unsolicited);
      }
      if from in signerSID {
        sig, requests, err := HandlePending(from, sigShare, preShare);
      } else {
        requests, err := Rejoin(from, preShare);
        sig := None;
      }
    }
  }

  /** Parties stay parties. */
  lemma StepKeys(cfg: R.Config, rc: ReputationConfig, s: R.State, r: R.Reply, w: map<ID, real>)
    requires R.Safe(cfg, s) && r.from in w && w.Keys == cfg.Parties() && s.responsive <= cfg.Parties()
    ensures StepWeights(cfg, rc, s, r, w).Keys == w.Keys && R.Step(cfg, s, r).state.responsive <= cfg.Parties()
  {
    hide R.Step;
    hide R.Accepts;
    hide R.Usable;
    hide R.NextSession;
    hide R.Requests;
    hide R.NextSid;
    hide Verify;
    hide R.SessionSignature;
    R.StepCases(cfg, s, r);
  }

  /** A prefix of the sorted candidates is distinct and comes before the rest. */
  lemma PrefixChosen(w: map<ID, real>, candidates: seq<ID>, k: nat)
    requires (forall id <- candidates :: id in w) && Ordered(w, candidates) && k <= |candidates|
    ensures |Members(candidates[..k])| == k && Members(candidates[..k]) <= Members(candidates)
    ensures forall a, b :: a in Members(candidates[..k]) && b in Members(candidates) - Members(candidates[..k]) ==>
      a in w && b in w && (w[a] > w[b] || (w[a] == w[b] && a < b))
  {
    DistinctPrefix(w, candidates, k);
    forall a, b | a in Members(candidates[..k]) && b in Members(candidates) - Members(candidates[..k])
      ensures a in w && b in w && (w[a] > w[b] || (w[a] == w[b] && a < b))
    {
      var i :| 0 <= i < k && candidates[..k][i] == a;
      var j :| 0 <= j < |candidates| && candidates[j] == b;
      assert j >= k by { assert b !in candidates[..k]; }
      assert Before(w, candidates[i], candidates[j]);
    }
  }

  lemma {:induction false} DistinctPrefix(w: map<ID, real>, candidates: seq<ID>, k: nat)
    requires (forall id <- candidates :: id in w) && Ordered(w, candidates) && k <= |candidates|
    ensures |Members(candidates[..k])| == k
  {
    hide Before;
    hide Ordered;
    if k > 0 {
      DistinctPrefix(w, candidates, k - 1);
      NotEarlier(w, candidates, k - 1);
      TakeSnoc(candidates, k - 1);
      OneMember(candidates[..k - 1], candidates[k - 1]);
    } else {
      assert Members(candidates[..0]) == {};
    }
  }

  lemma NotEarlier(w: map<ID, real>, candidates: seq<ID>, k: nat)
    requires (forall id <- candidates :: id in w) && Ordered(w, candidates) && k < |candidates|
    ensures candidates[k] !in candidates[..k]
  {
    forall i | 0 <= i < k
      ensures candidates[i] != candidates[k]
    {
      assert Before(w, candidates[i], candidates[k]);
    }
  }

  lemma NoMembers()
    ensures Members([]) == {}
  {
  }

  lemma NextMember(ids: seq<ID>, k: nat)
    requires k < |ids|
    ensures ids[k] in Members(ids) && ids[..k + 1] == ids[..k] + [ids[k]]
    ensures Members(ids[..k + 1]) == Members(ids[..k]) + {ids[k]}
  {
  }

  lemma OneMember(ids: seq<ID>, id: ID)
    requires id !in ids
    ensures |Members(ids + [id])| == |Members(ids)| + 1
  {
    assert Members(ids + [id]) == Members(ids) + {id};
  }

  /** NewReputationCoordinator: refused exactly for an unsound configuration. */
  method NewReputationCoordinator(cfg: R.Config, config: ReputationConfig)
    returns (c: ReputationCoordinator?, err: Option<ConfigError>)
    requires R.Usable(cfg)
    ensures err == None <==> Sound(config)
    ensures c != null <==> err == None
    ensures c != null ==> fresh(c) && c.cfg == cfg && c.config == config && c.Ready() && c.Abs() == R.Init()
    ensures c != null && cfg.Valid() ==> c.Valid()
  {
    err := Validate(config);
    if err.Some? {
      return null, err;
    }
    c := new ReputationCoordinator(cfg, config);
  }

  datatype Results = Results(signature: Option<Signature>, requests: seq<R.SignRequest>, error: Option<R.Error>)

  /** Fed the same replies, the two coordinators return the same results call by call and end
      in the same protocol state, whatever the keys. For consistent keys that is the state of
      the run, and the weights are its closed form. */
  method TraceEquivalence(cfg: R.Config, config: ReputationConfig, replies: seq<R.Reply>)
    returns (plain: seq<Results>, weighted: seq<Results>, weights: map<ID, real>)
    requires R.Usable(cfg) && Sound(config) && R.FromParties(cfg, replies)
    ensures |plain| == |replies| && plain == weighted
    ensures cfg.Valid() ==> weights == Weights(cfg, config, R.Exec(cfg, replies))
  {
    hide R.Inv;
    hide R.Step;
    hide R.Safe;
    hide Weights;
    var c := new C.Coordinator(cfg);
    var d := new ReputationCoordinator(cfg, config);
    plain, weighted := [], [];
    if cfg.Valid() {
      R.ExecEmpty(cfg);
    }
    for i := 0 to |replies|
      invariant c.cfg == cfg && d.cfg == cfg && d.config == config && c.Ready() && d.Ready()
      invariant c.Abs() == d.Abs() && plain == weighted && |plain| == i
      invariant cfg.Valid() ==> d.Valid() && d.Abs() == R.Exec(cfg, replies[..i])
    {
      var r := replies[i];
      if cfg.Valid() {
        R.ExecNext(cfg, replies, i);
      }
      var sig, requests, err := c.HandleResponse(r.from, r.share, r.preShare);
      var sig', requests', err' := d.HandleResponse(r.from, r.share, r.preShare);
      plain := plain + [Results(sig, requests, err)];
      weighted := weighted + [Results(sig', requests', err')];
    }
    assert replies[..|replies|] == replies;
    weights := d.weights;
  }
}
