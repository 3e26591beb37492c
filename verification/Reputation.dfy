/** The weights of the reputation coordinator, over exact reals.

    `StepWeights` is what one call does to them. `WeightsFollow` shows that after every call
    they are a closed form of the protocol state alone: the capped reward for the shares a
    signer has given, decayed once if the run ended without it, and zero for the malicious. */
module Reputation {
  import opened Group
  import opened Party
  import opened Frost
  import opened Roast
  import E = RoastEffects
  import Ledger

  datatype ReputationConfig = ReputationConfig(w0: real, wMax: real, deltaPos: real, gamma: real)

  datatype ConfigError = InvalidGamma | InvalidDelta | InvalidW0 | InvalidWMax

  function DefaultReputationConfig(): (rc: ReputationConfig)
    ensures Sound(rc)
  {
    ReputationConfig(1.0, 3.0, 0.5, 0.8)
  }

  predicate Sound(rc: ReputationConfig) {
    0.0 < rc.gamma < 1.0 && rc.deltaPos > 0.0 && 0.0 < rc.w0 <= rc.wMax
  }

  function Validate(rc: ReputationConfig): (e: Option<ConfigError>)
    ensures e == None <==> Sound(rc)
    ensures e == Some(InvalidWMax) ==> Sound(rc.(wMax := rc.w0)) && rc.wMax < rc.w0
  {
    if rc.gamma <= 0.0 || rc.gamma >= 1.0 then Some(InvalidGamma)
    else if rc.deltaPos <= 0.0 then Some(InvalidDelta)
    else if rc.w0 <= 0.0 then Some(InvalidW0)
    else if rc.wMax < rc.w0 then Some(InvalidWMax)
    else None
  }

  function Min(a: real, b: real): real { if a <= b then a else b }

  function Rewarded(rc: ReputationConfig, w: real): real {
    Min(w + rc.deltaPos, rc.wMax)
  }

  function Decay(rc: ReputationConfig, w: real): real {
    w * rc.gamma
  }

  function Decayed(rc: ReputationConfig, w: map<ID, real>, malicious: set<ID>, participants: seq<ID>): map<ID, real> {
    map id | id in w :: if id in participants || id in malicious then w[id] else Decay(rc, w[id])
  }

  /** What HandleResponse does to the weights. */
  function StepWeights(cfg: Config, rc: ReputationConfig, s: State, r: Reply, w: map<ID, real>): map<ID, real>
    requires r.from in w
  {
    if s.done || r.from in s.malicious then w
    else if r.from in s.responsive then w[r.from := 0.0]
    else if r.from in s.signerSID then
      if !Passes(cfg, s, r) then w[r.from := 0.0]
      else ShareWeights(cfg, rc, StoreShare(s, s.signerSID[r.from], r.from, r.share.value), s.signerSID[r.from], r.from, w)
    else w
  }

  /** Reward, and the decay when the stored share completes its session. */
  function ShareWeights(cfg: Config, rc: ReputationConfig, s: State, sid: nat, id: ID, w: map<ID, real>): map<ID, real>
    requires id in w && sid in s.sessions
  {
    var w1 := w[id := Rewarded(rc, w[id])];
    if |s.sessions[sid].sigShares| == cfg.t then Decayed(rc, w1, s.malicious, s.sessions[sid].signerSet) else w1
  }

  // ---------------------------------------------------------------------------
  // The closed form
  // ---------------------------------------------------------------------------

  /** The sessions in which id has given a valid share. */
  function GivenIn(sessions: map<nat, Session>, id: ID): set<nat> {
    set sid | sid in sessions && id in sessions[sid].sigShares
  }

  function Earned(rc: ReputationConfig, k: nat): real {
    Min(rc.w0 + rc.deltaPos * k as real, rc.wMax)
  }

  /** id is a signer of a session that has all its shares. */
  ghost predicate InComplete(t: nat, sessions: map<nat, Session>, id: ID) {
    exists sid :: sid in sessions && |sessions[sid].sigShares| == t && id in sessions[sid].signerSet
  }

  ghost function WeightOf(cfg: Config, rc: ReputationConfig, s: State, id: ID): real {
    if id in s.malicious then 0.0
    else
      var earned := Earned(rc, |GivenIn(s.sessions, id)|);
      if s.done && !InComplete(cfg.t, s.sessions, id) then Decay(rc, earned) else earned
  }

  ghost function Weights(cfg: Config, rc: ReputationConfig, s: State): map<ID, real> {
    map id | id in cfg.Parties() :: WeightOf(cfg, rc, s, id)
  }

  lemma EarnedBounds(rc: ReputationConfig, k: nat)
    requires Sound(rc)
    ensures rc.w0 <= Earned(rc, k) <= rc.wMax
  {
    assert rc.deltaPos * k as real >= 0.0;
  }

  lemma EarnedNext(rc: ReputationConfig, k: nat)
    requires Sound(rc)
    ensures Earned(rc, k + 1) == Rewarded(rc, Earned(rc, k))
  {
    assert rc.deltaPos * (k + 1) as real == rc.deltaPos * k as real + rc.deltaPos;
  }

  /** Weights stay in [0, wMax], are zero exactly for malicious parties, never fall below
      gamma * w0 for the others, and are capped rewards until the run ends. */
  lemma WeightBounds(cfg: Config, rc: ReputationConfig, s: State, id: ID)
    requires Sound(rc) && id in cfg.Parties()
    ensures
      var w := Weights(cfg, rc, s)[id];
      && 0.0 <= w <= rc.wMax && (w == 0.0 <==> id in s.malicious)
      && (id !in s.malicious ==> w >= rc.w0 * rc.gamma)
      && (id !in s.malicious && !s.done ==> w >= rc.w0)
  {
    var e := Earned(rc, |GivenIn(s.sessions, id)|);
    EarnedBounds(rc, |GivenIn(s.sessions, id)|);
    hide Earned;
    hide Decay;
    hide GivenIn;
    hide InComplete;
    hide Sound;
    Floor(rc, e);
  }

  lemma Floor(rc: ReputationConfig, e: real)
    requires Sound(rc) && rc.w0 <= e
    ensures 0.0 < Decay(rc, e) < e && rc.w0 * rc.gamma <= Decay(rc, e) && rc.w0 * rc.gamma <= e && 0.0 < rc.w0
  {
    hide Decay;
    DecayLess(rc, rc.w0);
    DecayLess(rc, e);
    DecayMonotone(rc, rc.w0, e);
    DecayIs(rc, rc.w0);
  }

  lemma DecayIs(rc: ReputationConfig, x: real)
    ensures Decay(rc, x) == x * rc.gamma
  {
  }

  lemma DecayLess(rc: ReputationConfig, x: real)
    requires Sound(rc) && x > 0.0
    ensures 0.0 < Decay(rc, x) < x
  {
    hide Decay;
    DecayIs(rc, x);
    Shrinks(x, rc.gamma, Decay(rc, x));
  }

  lemma Shrinks(x: real, g: real, y: real)
    requires x > 0.0 && 0.0 < g < 1.0 && y == x * g
    ensures 0.0 < y < x
  {
    Positive(x, g, y);
    Positive(x, 1.0 - g, x - y);
  }

  lemma Positive(x: real, y: real, z: real)
    requires x > 0.0 && y > 0.0 && z == x * y
    ensures z > 0.0
  {
  }

  lemma DecayMonotone(rc: ReputationConfig, x: real, y: real)
    requires Sound(rc) && x <= y
    ensures Decay(rc, x) <= Decay(rc, y)
  {
  }

  lemma WeightsInitially(cfg: Config, rc: ReputationConfig)
    requires Sound(rc)
    ensures Weights(cfg, rc, Init()) == map id | id in cfg.Parties() :: rc.w0
  {
    forall id | id in cfg.Parties()
      ensures WeightOf(cfg, rc, Init(), id) == rc.w0
    {
      assert GivenIn(Init().sessions, id) == {};
      assert rc.deltaPos * 0.0 == 0.0;
    }
  }

  lemma WeightsBlame(cfg: Config, rc: ReputationConfig, s: State, id: ID)
    requires id in cfg.Parties()
    ensures Weights(cfg, rc, MarkMalicious(s, id)) == Weights(cfg, rc, s)[id := 0.0]
  {
    hide Config.Parties;
    hide GivenIn;
    hide InComplete;
    hide Earned;
    var s' := MarkMalicious(s, id);
    forall j | j in cfg.Parties()
      ensures WeightOf(cfg, rc, s', j) == if j == id then 0.0 else WeightOf(cfg, rc, s, j)
    {
    }
    hide WeightOf;
    hide MarkMalicious;
  }

  lemma SameGiven(m: map<nat, Session>, sid: nat, session: Session, id: ID)
    requires sid !in m && session.sigShares == map[]
    ensures GivenIn(m[sid := session], id) == GivenIn(m, id)
  {
  }

  lemma WeightsInitiate(cfg: Config, rc: ReputationConfig, s: State)
    requires s.responsive <= s.preShares.Keys && NextSid(s) !in s.sessions && !s.done
    ensures Weights(cfg, rc, Initiate(cfg, s)) == Weights(cfg, rc, s)
  {
    hide Config.Parties;
    hide GivenIn;
    hide InComplete;
    hide Earned;
    hide NextSession;
    hide NextSid;
    hide SessionPreShares;
    NextSessionShape(cfg, s);
    forall j | j in cfg.Parties()
      ensures WeightOf(cfg, rc, Initiate(cfg, s), j) == WeightOf(cfg, rc, s, j)
    {
      SameGiven(s.sessions, NextSid(s), NextSession(cfg, s), j);
    }
    hide WeightOf;
    hide Initiate;
  }

  /** A signer that (re)joins, and a session that starts, leave the weights alone. */
  lemma WeightsRejoin(cfg: Config, rc: ReputationConfig, s: State, id: ID, pre: PreShare)
    requires s.responsive <= s.preShares.Keys && NextSid(s) !in s.sessions && !s.done
    ensures Weights(cfg, rc, Rejoin(cfg, s, id, pre).state) == Weights(cfg, rc, s)
  {
    hide Config.Parties;
    hide GivenIn;
    hide InComplete;
    hide Earned;
    hide NextSession;
    hide Requests;
    hide NextSid;
    hide Initiate;
    var s1 := MakeResponsive(s, id, pre);
    SameSid(s, s1);
    assert Weights(cfg, rc, s1) == Weights(cfg, rc, s);
    WeightsInitiate(cfg, rc, s1);
  }

  lemma OneMore(a: set<nat>, x: nat)
    requires x !in a
    ensures |a + {x}| == |a| + 1
  {
  }

  lemma OneMoreGiven(m: map<nat, Session>, sid: nat, id: ID, share: nat, j: ID)
    requires sid in m && id !in m[sid].sigShares
    ensures
      var m' := m[sid := m[sid].(sigShares := m[sid].sigShares[id := share])];
      |GivenIn(m', j)| == |GivenIn(m, j)| + if j == id then 1 else 0
  {
    var m' := m[sid := m[sid].(sigShares := m[sid].sigShares[id := share])];
    if j == id {
      assert GivenIn(m', j) == GivenIn(m, j) + {sid};
      OneMore(GivenIn(m, j), sid);
    } else {
      assert GivenIn(m', j) == GivenIn(m, j);
    }
  }

  /** A valid share is rewarded. */
  lemma WeightsStore(cfg: Config, rc: ReputationConfig, s: State, sid: nat, id: ID, share: nat)
    requires Sound(rc) && id in cfg.Parties() && id !in s.malicious && !s.done
    requires sid in s.sessions && id !in s.sessions[sid].sigShares
    ensures
      var w := Weights(cfg, rc, s);
      Weights(cfg, rc, StoreShare(s, sid, id, share)) == w[id := Rewarded(rc, w[id])]
  {
    hide Config.Parties;
    hide GivenIn;
    hide Earned;
    hide Rewarded;
    var s' := StoreShare(s, sid, id, share);
    forall j | j in cfg.Parties()
      ensures WeightOf(cfg, rc, s', j) == if j == id then Rewarded(rc, WeightOf(cfg, rc, s, id)) else WeightOf(cfg, rc, s, j)
    {
      OneMoreGiven(s.sessions, sid, id, share, j);
      EarnedNext(rc, |GivenIn(s.sessions, j)|);
    }
  }

  /** The end of the run decays the weights of everybody outside the completed session. */
  lemma WeightsFinish(cfg: Config, rc: ReputationConfig, s: State, sid: nat)
    requires !s.done && sid in s.sessions && |s.sessions[sid].sigShares| == cfg.t
    requires forall other :: other in s.sessions && other != sid ==> |s.sessions[other].sigShares| < cfg.t
    ensures Weights(cfg, rc, Finish(cfg, s, sid).state) ==
      Decayed(rc, Weights(cfg, rc, s), s.malicious, s.sessions[sid].signerSet)
  {
    hide Config.Parties;
    hide GivenIn;
    hide Earned;
    hide SessionSignature;
    hide Decay;
    var s' := Finish(cfg, s, sid).state;
    var participants := s.sessions[sid].signerSet;
    forall j | j in cfg.Parties()
      ensures WeightOf(cfg, rc, s', j) ==
        if j in participants || j in s.malicious then WeightOf(cfg, rc, s, j) else Decay(rc, WeightOf(cfg, rc, s, j))
    {
      assert InComplete(cfg.t, s.sessions, j) <==> j in participants;
    }
    hide WeightOf;
    hide Finish;
  }

  lemma PartyHasWeight(cfg: Config, rc: ReputationConfig, s: State, id: ID)
    ensures id in Weights(cfg, rc, s) <==> id in cfg.Parties()
  {
  }

  /** After every call the weights are again the closed form of the state. */
  lemma WeightsFollow(cfg: Config, rc: ReputationConfig, s: State, r: Reply)
    requires Inv(cfg, s) && Sound(rc) && r.from in cfg.Parties()
    ensures Weights(cfg, rc, Step(cfg, s, r).state) == StepWeights(cfg, rc, s, r, Weights(cfg, rc, s))
  {
    hide Weights;
    hide Crypto;
    hide Ledger.Inv;
    hide BookOf;
    hide Config.Valid;
    hide Step;
    hide Accepts;
    hide Rejoin;
    hide Finish;
    hide Decayed;
    hide Rewarded;
    PartyHasWeight(cfg, rc, s, r.from);
    if Counts(cfg, s, r) {
      PendingStep(cfg, s, r);
      ShareFollows(cfg, rc, s, r);
    } else {
      StepOtherwise(cfg, s, r);
      WeightsBlame(cfg, rc, s, r.from);
      if !s.done {
        NextSidFree(cfg, s);
        WeightsRejoin(cfg, rc, s, r.from, r.preShare);
      }
    }
  }

  lemma FinalStepDecays(cfg: Config, rc: ReputationConfig, s: State, r: Reply, id: ID)
    requires Inv(cfg, s) && Sound(rc) && r.from in cfg.Parties() && id in cfg.Parties() && id != r.from
    ensures
      var s', w, w' := Step(cfg, s, r).state, Weights(cfg, rc, s)[id], Weights(cfg, rc, Step(cfg, s, r).state)[id];
      if s.done || !s'.done then w' == w
      else
        && r.from in s.signerSID && s.signerSID[r.from] in s.sessions
        && w' == if id in s.sessions[s.signerSID[r.from]].signerSet || id in s.malicious then w else Decay(rc, w)
  {
    hide Weights;
    hide Crypto;
    hide Ledger.Inv;
    hide BookOf;
    hide Config.Valid;
    hide Step;
    hide Accepts;
    hide Rejoin;
    hide Decay;
    hide Rewarded;
    PartyHasWeight(cfg, rc, s, r.from);
    PartyHasWeight(cfg, rc, s, id);
    WeightsFollow(cfg, rc, s, r);
    if Counts(cfg, s, r) {
      StepCounts(cfg, s, r);
      RejoinNotDone(cfg, StoreShare(s, s.signerSID[r.from], r.from, r.share.value), r.from, r.preShare);
    } else {
      StepOtherwise(cfg, s, r);
      if !s.done {
        RejoinNotDone(cfg, s, r.from, r.preShare);
      }
    }
  }

  /** Only the call that ends the run changes anybody's weight but the sender's; it decays the
      weights of the parties outside the completed session that are not malicious, once. */
  lemma DecayOnlyAtTheEnd(cfg: Config, rc: ReputationConfig, s: State, r: Reply, id: ID)
    requires Inv(cfg, s) && Sound(rc) && r.from in cfg.Parties() && id in cfg.Parties() && id != r.from
    ensures
      var s', w, w' := Step(cfg, s, r).state, Weights(cfg, rc, s)[id], Weights(cfg, rc, Step(cfg, s, r).state)[id];
      if s.done || !s'.done then w' == w
      else
        && r.from in s.signerSID && s.signerSID[r.from] in s.sessions
        && w' == if id in s.sessions[s.signerSID[r.from]].signerSet || id in s.malicious then w else w * rc.gamma
  {
    hide *;
    PartyHasWeight(cfg, rc, s, id);
    FinalStepDecays(cfg, rc, s, r, id);
    DecayIs(rc, Weights(cfg, rc, s)[id]);
  }

  lemma NextSidFree(cfg: Config, s: State)
    requires Inv(cfg, s) && !s.done
    ensures NextSid(s) !in s.sessions
  {
    hide Inv;
    E.RoomToStart(cfg, s);
  }

  lemma SameSid(s: State, s': State)
    requires s.sidCounter == s'.sidCounter
    ensures NextSid(s) == NextSid(s')
  {
  }

  lemma ShareFollows(cfg: Config, rc: ReputationConfig, s: State, r: Reply)
    requires Inv(cfg, s) && Sound(rc) && r.from in cfg.Parties() && Counts(cfg, s, r)
    ensures r.from in Weights(cfg, rc, s)
    ensures
      var sid := s.signerSID[r.from];
      var s1 := StoreShare(s, sid, r.from, r.share.value);
      && s1.responsive <= s1.preShares.Keys
      && Weights(cfg, rc, AfterShare(cfg, s1, sid, r.from, r.preShare).state) == ShareWeights(cfg, rc, s1, sid, r.from, Weights(cfg, rc, s))
  {
    hide Weights;
    hide Crypto;
    hide Ledger.Inv;
    hide BookOf;
    hide Config.Valid;
    hide Accepts;
    hide Rejoin;
    hide Finish;
    hide Decayed;
    hide Rewarded;
    hide NextSid;
    var sid := s.signerSID[r.from];
    var s1 := StoreShare(s, sid, r.from, r.share.value);
    PartyHasWeight(cfg, rc, s, r.from);
    OpenSessions(cfg, s, r.from);
    NextSidFree(cfg, s);
    WeightsStore(cfg, rc, s, sid, r.from, r.share.value);
    if |s1.sessions[sid].sigShares| == cfg.t {
      WeightsFinish(cfg, rc, s1, sid);
    } else {
      SameSid(s, s1);
      WeightsRejoin(cfg, rc, s1, r.from, r.preShare);
    }
  }

  /** No session of an unfinished run is complete, and a pending signer has not given the share
      it is asked for. */
  lemma OpenSessions(cfg: Config, s: State, id: ID)
    requires Inv(cfg, s) && !s.done && id in s.signerSID
    ensures id !in s.sessions[s.signerSID[id]].sigShares
    ensures forall sid :: sid in s.sessions ==> |s.sessions[sid].sigShares| < cfg.t
  {
    var b := BookOf(s);
    assert Ledger.Owes(b, b.pending[id], id);
    forall sid | sid in s.sessions
      ensures |s.sessions[sid].sigShares| < cfg.t
    {
      assert sid in b.sessions && b.sessions[sid].given == s.sessions[sid].sigShares.Keys;
    }
  }
}
