/** The command-line simulation: every signer sends its commitments, then the requests are
    answered round by round while some signers stay silent. The loop always ends with a valid
    signature before its cap of n rounds. */
module RoastSimulation {
  import opened PrimeField
  import opened Group
  import opened Party
  import opened Frost
  import R = Roast
  import E = RoastEffects
  import S = RoastSystem
  import C = RoastCoordinator
  import T = RoastSigner
  import Ledger

  /** One identical request per signer of the announced session. */
  ghost predicate WellIssued(requests: seq<R.SignRequest>) {
    requests != [] ==>
      |requests| == |requests[0].signerSet| && forall i :: 0 <= i < |requests| ==> requests[i] == requests[0]
  }

  /** Results of a call that accepts its reply while nobody is malicious. */
  ghost predicate Clean(s: R.State, o: R.Outcome) {
    && o.error == None && WellIssued(o.requests) && o.signature == o.state.signature
    && (o.signature.Some? <==> o.state.done)
    && o.state.sidCounter == s.sidCounter + (if o.requests == [] then 0 else 1)
    && (o.state.done ==> o.requests == [])
  }

  lemma RejoinClean(cfg: R.Config, s: R.State, id: ID, pre: PreShare)
    requires E.Joinable(cfg, s, id) && s.malicious == {} && !s.done && s.signature == None
    ensures Clean(s, R.Rejoin(cfg, s, id, pre))
  {
    R.PartiesSize(cfg);
    R.RejoinOutcome(cfg, s, id, pre);
    R.RejoinCounts(cfg, s, id);
    RejoinNoError(cfg, s, id, pre);
    var s1, o := R.MakeResponsive(s, id, pre), R.Rejoin(cfg, s, id, pre);
    assert s1.done == s.done && s1.signature == s.signature && s1.responsive == s.responsive + {id}
      && s1.responsive <= s1.preShares.Keys && s1.sidCounter == s.sidCounter;
    hide *;
    if |s.responsive| + 1 == cfg.t {
      R.NextSessionShape(cfg, s1);
      InitiateFlags(cfg, s1);
      RequestsWellIssued(cfg, R.NextSession(cfg, s1));
      StartClean(s, o, cfg.t);
    } else {
      WaitClean(s, o);
    }
  }

  lemma StartClean(s: R.State, o: R.Outcome, t: nat)
    requires o.error == None && WellIssued(o.requests) && |o.requests| == t > 0
    requires o.signature == None == o.state.signature && !o.state.done && o.state.sidCounter == s.sidCounter + 1
    ensures Clean(s, o)
  {
  }

  lemma WaitClean(s: R.State, o: R.Outcome)
    requires o.error == None && o.requests == []
    requires o.signature == None == o.state.signature && !o.state.done && o.state.sidCounter == s.sidCounter
    ensures Clean(s, o)
  {
  }

  lemma RejoinNoError(cfg: R.Config, s: R.State, id: ID, pre: PreShare)
    requires s.malicious == {} && cfg.t <= cfg.N() && s.responsive <= s.preShares.Keys
    ensures R.Rejoin(cfg, s, id, pre).error == None
  {
    hide R.NextSession;
    hide R.Requests;
    hide R.NextSid;
    hide R.SessionPreShares;
  }

  lemma RequestsWellIssued(cfg: R.Config, session: R.Session)
    ensures WellIssued(R.Requests(cfg, session)) && |R.Requests(cfg, session)| == |session.signerSet|
  {
  }

  lemma InitiateFlags(cfg: R.Config, s: R.State)
    requires s.responsive <= s.preShares.Keys
    ensures R.Initiate(cfg, s).done == s.done && R.Initiate(cfg, s).signature == s.signature
  {
  }

  /** An accepted reply gives clean results. */
  lemma StepClean(cfg: R.Config, s: R.State, r: R.Reply)
    requires R.Inv(cfg, s) && !s.done && r.from in cfg.Parties() && s.malicious == {}
    requires E.Fresh(s, r.from) || R.Counts(cfg, s, r)
    ensures Clean(s, R.Step(cfg, s, r))
  {
    hide R.Step;
    hide R.BookOf;
    hide R.Ledger.Inv;
    hide R.Accepts;
    hide R.Rejoin;
    hide R.Config.Valid;
    hide Verify;
    hide R.SessionOK;
    hide R.SessionSignature;
    R.LedgerFacts(cfg, s);
    E.JoinableNow(cfg, s, r.from);
    if E.Fresh(s, r.from) {
      R.StepOtherwise(cfg, s, r);
      RejoinClean(cfg, s, r.from, r.preShare);
    } else {
      var sid := s.signerSID[r.from];
      var s1 := R.StoreShare(s, sid, r.from, r.share.value);
      R.StepCounts(cfg, s, r);
      E.JoinableStored(cfg, s, sid, r.from, r.share.value);
      hide E.Joinable;
      if |s1.sessions[sid].sigShares| != cfg.t {
        RejoinClean(cfg, s1, r.from, r.preShare);
      }
    }
  }

  // ---------------------------------------------------------------------------
  // The simulation's variables as a state of the system
  // ---------------------------------------------------------------------------

  function Restrict<V>(m: map<ID, V>, keep: set<ID>): map<ID, V> {
    map id | id in m && id in keep :: m[id]
  }

  /** The system state behind the simulation's variables. */
  ghost function View(env: S.Env, coord: R.State, nonces: map<ID, NonceState>, pending: map<ID, R.SignRequest>, replies: map<ID, R.Reply>): S.Sys {
    S.Sys(coord, Restrict(nonces, env.Honest()), Restrict(pending, env.Honest()), replies)
  }

  /** pending[rid] = requests[i] for every signer of the announced session. */
  function Merge(pending: map<ID, R.SignRequest>, issued: seq<R.SignRequest>): map<ID, R.SignRequest> {
    if issued == [] then pending
    else pending + map id | id in issued[0].signerSet :: issued[0]
  }

  lemma MergeRestrict(env: S.Env, pending: map<ID, R.SignRequest>, issued: seq<R.SignRequest>)
    ensures Restrict(Merge(pending, issued), env.Honest()) == S.Announce(env, Restrict(pending, env.Honest()), issued)
  {
  }

  lemma MergeUnion(a: map<ID, R.SignRequest>, b: map<ID, R.SignRequest>, issued: seq<R.SignRequest>)
    ensures Merge(a + b, issued) == a + Merge(b, issued)
  {
  }

  method MergeLoop(pending: map<ID, R.SignRequest>, requests: seq<R.SignRequest>) returns (merged: map<ID, R.SignRequest>)
    requires WellIssued(requests)
    ensures merged == Merge(pending, requests)
  {
    merged := pending;
    if requests != [] {
      var signerSet := requests[0].signerSet;
      for i := 0 to |signerSet|
        invariant merged == pending + map id | id in signerSet[..i] :: requests[0]
      {
        assert signerSet[..i + 1] == signerSet[..i] + [signerSet[i]];
        merged := merged[signerSet[i] := requests[i]];
      }
      assert signerSet[..|signerSet|] == signerSet;
    }
  }

  /** Nobody has been marked malicious and the run goes on. */
  ghost predicate Going(env: S.Env, coord: R.State, nonces: map<ID, NonceState>, pending: map<ID, R.SignRequest>) {
    && S.Inv(env, View(env, coord, nonces, pending, map[]))
    && !coord.done && coord.malicious == {} && env.Honest() <= nonces.Keys
  }

  ghost function Answer(env: S.Env, nonces: map<ID, NonceState>, req: R.SignRequest, id: ID, n: NonceState): R.Reply
    requires id in env.secrets && id in nonces && S.Covers(req)
  {
    var z := SignRound(env.cfg.suite, env.cfg.pk, id, env.secrets[id], nonces[id], req.signerSet, req.preShares, env.cfg.message);
    R.Reply(id, z, Commit(n))
  }

  /** The signer's side of one answer. */
  lemma AnswerSigned(env: S.Env, coord: R.State, nonces: map<ID, NonceState>, pending: map<ID, R.SignRequest>, id: ID, n: NonceState)
    requires Going(env, coord, nonces, pending) && id in env.secrets && id in pending
    ensures S.Covers(pending[id]) && Answer(env, nonces, pending[id], id, n).share.Some?
    ensures
      var r := Answer(env, nonces, pending[id], id, n);
      var sys := View(env, coord, nonces[id := n], pending - {id}, map[id := r]);
      S.Inv(env, sys)
  {
    hide R.Inv;
    hide SignRound;
    hide S.Inv;
    hide S.Requested;
    hide R.SessionOK;
    hide Commit;
    var sys := View(env, coord, nonces, pending, map[]);
    assert id in sys.requests && sys.requests[id] == pending[id] && id in sys.nonces && sys.nonces[id] == nonces[id];
    var sid := S.RequestIsCurrent(env, sys, id);
    S.SignSignerInv(env, sys, id, n);
    var r := Answer(env, nonces, pending[id], id, n);
    var sys' := S.SignSigner(env, sys, id, n);
    assert r.share.Some?;
    assert sys'.replies == map[id := r];
    assert sys'.requests == Restrict(pending - {id}, env.Honest());
    assert sys'.nonces == Restrict(nonces[id := n], env.Honest());
  }

  /** The coordinator's side. */
  lemma AnswerHandled(env: S.Env, coord: R.State, nonces: map<ID, NonceState>, pending: map<ID, R.SignRequest>, r: R.Reply)
    requires S.Inv(env, View(env, coord, nonces, pending, map[r.from := r])) && !coord.done && coord.malicious == {}
    requires env.Honest() <= nonces.Keys
    ensures R.Inv(env.cfg, coord) && r.from in env.cfg.Parties()
    ensures
      var o := R.Step(env.cfg, coord, r);
      && Clean(coord, o)
      && (!o.state.done ==> Going(env, o.state, nonces, Merge(pending, o.requests)))
  {
    hide R.Step;
    hide R.Counts;
    hide S.HonestOK;
    hide R.Ledger.Inv;
    hide R.BookOf;
    hide R.Crypto;
    hide E.Placed;
    hide Merge;
    hide Restrict;
    hide S.Announce;
    var sys := View(env, coord, nonces, pending, map[r.from := r]);
    S.HonestReplyAccepted(env, sys, r.from);
    S.HonestIsParty(env, r.from);
    StepClean(env.cfg, coord, r);
    S.DeliverInv(env, sys, r.from);
    var o := R.Step(env.cfg, coord, r);
    MergeRestrict(env, pending, o.requests);
    var sys' := S.Handle(env, sys, r).(replies := sys.replies - {r.from});
    assert sys'.replies == map[];
    assert sys' == View(env, o.state, nonces, Merge(pending, o.requests), map[]);
  }

  /** A new session never includes an honest signer whose request is still open. */
  lemma OpenNotAnnounced(env: S.Env, coord: R.State, nonces: map<ID, NonceState>, pending: map<ID, R.SignRequest>, r: R.Reply, j: ID)
    requires S.Inv(env, View(env, coord, nonces, pending, map[r.from := r])) && !coord.done
    requires r.from in env.cfg.Parties() && R.Linked(coord) && !R.Step(env.cfg, coord, r).state.done
    requires j in env.secrets && j in pending && j != r.from
    ensures var o := R.Step(env.cfg, coord, r); o.requests != [] ==> j !in o.requests[0].signerSet
  {
    hide R.Step;
    hide R.Ledger.Inv;
    hide R.BookOf;
    hide R.Crypto;
    hide E.Placed;
    hide R.Accepts;
    hide S.Env.Valid;
    var sys := View(env, coord, nonces, pending, map[r.from := r]);
    assert j in sys.requests && S.HonestOK(env.cfg, sys, j);
    assert j !in coord.responsive && j !in coord.malicious;
    S.OthersEffect(env.cfg, coord, r, j);
  }

  /** If every honest signer's answer is in and none was asked again, all of them would be
      responsive: too many for an unfinished run. */
  lemma SomebodyAsked(env: S.Env, coord: R.State, nonces: map<ID, NonceState>, pending: map<ID, R.SignRequest>)
    requires Going(env, coord, nonces, pending) && |env.Honest()| >= env.cfg.t
    ensures pending != map[]
  {
    var sys := View(env, coord, nonces, pending, map[]);
    R.LedgerFacts(env.cfg, coord);
    assert |coord.responsive| < env.cfg.t;
    hide R.Inv;
    hide S.Env.Valid;
    var id := S.NotResponsive(env.Honest(), coord.responsive);
    assert S.HonestOK(env.cfg, sys, id) && id in sys.nonces && id !in sys.replies;
    HasRequest(env.cfg, sys, id);
  }

  lemma HasRequest(cfg: R.Config, sys: S.Sys, id: ID)
    requires S.HonestOK(cfg, sys, id) && id in sys.nonces && id !in sys.replies && id !in sys.coord.responsive
    ensures id in sys.requests
  {
  }

  /** What ComputeShare needs of a request. */
  lemma RequestUsable(env: S.Env, coord: R.State, nonces: map<ID, NonceState>, pending: map<ID, R.SignRequest>, id: ID)
    requires Going(env, coord, nonces, pending) && id in env.secrets && id in pending
    ensures IsPrime(env.cfg.suite.q) && env.cfg.suite.q > 65535 && pending[id].signerSet != []
  {
    var sys := View(env, coord, nonces, pending, map[]);
    hide R.Ledger.Inv;
    hide R.BookOf;
    hide R.Crypto;
    hide S.HonestOK;
    var sid := S.RequestIsCurrent(env, sys, id);
    hide R.NewSession;
  }

  /** Sign by an honest signer and the coordinator's call. */
  method AnswerOne(env: S.Env, c: C.Coordinator, nonces: map<ID, NonceState>, ghost pending: map<ID, R.SignRequest>, id: ID, req: R.SignRequest, next: NonceState)
    returns (sig: Option<Signature>, requests: seq<R.SignRequest>, nonces': map<ID, NonceState>)
    requires c.Valid() && c.cfg == env.cfg && Going(env, c.Abs(), nonces, pending)
    requires id in env.secrets && id in pending && pending[id] == req
    modifies c
    ensures c.Valid() && c.sidCounter == old(c.sidCounter) + (if requests == [] then 0 else 1)
    ensures sig == c.signature && (sig.Some? <==> c.done)
    ensures WellIssued(requests)
    ensures sig.None? ==> Going(env, c.Abs(), nonces', Merge(pending - {id}, requests))
    ensures sig.None? ==> NotReannounced(env, pending - {id}, requests)
  {
    hide Going;
    hide S.Inv;
    hide R.Inv;
    hide R.Step;
    hide Merge;
    hide WellIssued;
    hide SignRound;
    GoingFacts(env, c.Abs(), nonces, pending);
    ghost var coord := c.Abs();
    AnswerSigned(env, coord, nonces, pending, id, next);
    RequestUsable(env, coord, nonces, pending, id);
    var z := T.ComputeShare(env.cfg.suite, env.cfg.pk, id, env.secrets[id], nonces[id], req.signerSet, req.preShares, env.cfg.message);
    ghost var r := R.Reply(id, z, Commit(next));
    nonces' := nonces[id := next];
    AnswerHandled(env, coord, nonces', pending - {id}, r);
    var err;
    R.InvSafe(env.cfg, coord);
    sig, requests, err := c.HandleResponse(id, z, Commit(next));
    assert err == None;
    if sig.None? {
      assert !c.Abs().done;
      forall j | j in env.secrets && j in pending - {id} && requests != []
        ensures j !in requests[0].signerSet
      {
        OpenNotAnnounced(env, coord, nonces', pending - {id}, r, j);
      }
    }
  }

  lemma GoingFacts(env: S.Env, coord: R.State, nonces: map<ID, NonceState>, pending: map<ID, R.SignRequest>)
    requires Going(env, coord, nonces, pending)
    ensures !coord.done && coord.malicious == {} && env.Honest() <= nonces.Keys && R.Linked(coord) && coord.signature == None
  {
  }

  /** No open request of an honest signer is replaced. */
  ghost predicate NotReannounced(env: S.Env, open: map<ID, R.SignRequest>, issued: seq<R.SignRequest>) {
    issued != [] ==> forall j :: j in env.secrets && j in open ==> j !in issued[0].signerSet
  }

  /** What the inner loop keeps: requests of this round still open, and those for the next. */
  ghost predicate Apart(env: S.Env, rest: map<ID, R.SignRequest>, newPending: map<ID, R.SignRequest>) {
    forall j :: j in env.secrets && j in rest ==> j !in newPending
  }

  lemma Answered(env: S.Env, rest: map<ID, R.SignRequest>, newPending: map<ID, R.SignRequest>, id: ID, issued: seq<R.SignRequest>)
    requires Apart(env, rest, newPending) && id in env.secrets && id in rest
    requires NotReannounced(env, (rest + newPending) - {id}, issued)
    ensures Merge((rest + newPending) - {id}, issued) == (rest - {id}) + Merge(newPending, issued)
    ensures Apart(env, rest - {id}, Merge(newPending, issued))
    ensures issued == [] ==> Merge(newPending, issued) == newPending
  {
    assert (rest + newPending) - {id} == (rest - {id}) + newPending;
    MergeUnion(rest - {id}, newPending, issued);
  }

  lemma InRest(env: S.Env, rest: map<ID, R.SignRequest>, newPending: map<ID, R.SignRequest>, id: ID)
    requires Apart(env, rest, newPending) && id in env.secrets && id in rest
    ensures id in rest + newPending && (rest + newPending)[id] == rest[id]
  {
  }

  lemma ApartInitially(env: S.Env, rest: map<ID, R.SignRequest>)
    ensures Apart(env, rest, map[])
  {
  }

  lemma ApartSkip(env: S.Env, rest: map<ID, R.SignRequest>, newPending: map<ID, R.SignRequest>, id: ID)
    requires Apart(env, rest, newPending)
    ensures Apart(env, rest - {id}, newPending)
  {
  }

  /** One round of the simulation: every open request that is not to a silent signer is
      answered, in any order. */
  method Round(env: S.Env, c: C.Coordinator, nonces: map<ID, NonceState>, pending: map<ID, R.SignRequest>, supply: nat -> NonceState, used: nat)
    returns (finalSig: Option<Signature>, nonces': map<ID, NonceState>, newPending: map<ID, R.SignRequest>, used': nat, started: nat)
    requires c.Valid() && c.cfg == env.cfg && Going(env, c.Abs(), nonces, pending) && |env.Honest()| >= env.cfg.t
    requires c.signature == None && !c.done
    modifies c
    ensures c.Valid() && c.sidCounter == old(c.sidCounter) + started
    ensures finalSig == c.signature && (finalSig.Some? <==> c.done)
    ensures finalSig.None? ==> Going(env, c.Abs(), nonces', newPending) && started > 0
  {
    hide *;
    nonces', newPending, used', started := nonces, map[], used, 0;
    var rest := pending;
    finalSig := None;
    assert rest + newPending == pending;
    ApartInitially(env, rest);
    while rest != map[]
      invariant c.Valid() && c.sidCounter == old(c.sidCounter) + started
      invariant started == 0 ==> newPending == map[]
      invariant Going(env, c.Abs(), nonces', rest + newPending)
      invariant Apart(env, rest, newPending) && finalSig == None == c.signature && !c.done
      decreases |rest|
    {
      var id :| id in rest;
      assert (rest - {id}).Keys == rest.Keys - {id};
      if id !in env.secrets {
        SkipSilent(env, c.Abs(), nonces', rest, newPending, id);
        ApartSkip(env, rest, newPending, id);
      } else {
        InRest(env, rest, newPending, id);
        var requests;
        finalSig, requests, nonces' := AnswerOne(env, c, nonces', rest + newPending, id, rest[id], supply(used'));
        if finalSig.Some? {
          started := started + if requests == [] then 0 else 1;
          return;
        }
        Answered(env, rest, newPending, id, requests);
        newPending := MergeLoop(newPending, requests);
        started := started + if requests == [] then 0 else 1;
        used' := used' + 1;
      }
      rest := rest - {id};
    }
    assert rest + newPending == newPending;
    SomebodyAsked(env, c.Abs(), nonces', newPending);
  }

  lemma SkipSilent(env: S.Env, coord: R.State, nonces: map<ID, NonceState>, rest: map<ID, R.SignRequest>, newPending: map<ID, R.SignRequest>, id: ID)
    requires Going(env, coord, nonces, rest + newPending) && id !in env.secrets
    ensures Going(env, coord, nonces, (rest - {id}) + newPending)
  {
    hide S.Inv;
    assert Restrict(rest + newPending, env.Honest()) == Restrict((rest - {id}) + newPending, env.Honest());
  }

  // ---------------------------------------------------------------------------
  // The initial commitments, and the whole program
  // ---------------------------------------------------------------------------

  ghost function InitialReply(nonces: map<ID, NonceState>, id: ID): R.Reply
    requires id in nonces
  {
    R.Reply(id, None, Commit(nonces[id]))
  }

  /** The commitments of honest signers that are still to be handed over. */
  ghost function InitialReplies(env: S.Env, nonces: map<ID, NonceState>, rest: seq<ID>): map<ID, R.Reply> {
    map id | id in Members(rest) && id in env.secrets && id in nonces :: InitialReply(nonces, id)
  }

  ghost predicate AllFresh(coord: R.State, rest: seq<ID>) {
    forall i :: 0 <= i < |rest| ==> E.Fresh(coord, rest[i])
  }

  /** The parties in `rest` have not been heard yet; all the others have sent commitments. */
  ghost predicate Starting(env: S.Env, coord: R.State, nonces: map<ID, NonceState>, pending: map<ID, R.SignRequest>, rest: seq<ID>) {
    && S.Inv(env, View(env, coord, nonces, pending, InitialReplies(env, nonces, rest)))
    && !coord.done && coord.malicious == {} && env.Honest() <= nonces.Keys
    && AllFresh(coord, rest)
  }

  lemma StartingInitially(env: S.Env, nonces: map<ID, NonceState>)
    requires env.Valid() && env.Honest() <= nonces.Keys
    ensures Starting(env, R.Init(), nonces, map[], env.cfg.pk.partyIDs)
  {
    R.InitInv(env.cfg);
    hide R.Inv;
    var ids := env.cfg.pk.partyIDs;
    var sys := View(env, R.Init(), nonces, map[], InitialReplies(env, nonces, ids));
    forall id | id in env.secrets
      ensures S.HonestOK(env.cfg, sys, id)
    {
      S.HonestIsParty(env, id);
      JoiningInitially(env, nonces, id);
    }
    hide S.HonestOK;
  }

  lemma JoiningInitially(env: S.Env, nonces: map<ID, NonceState>, id: ID)
    requires id in env.secrets && id in nonces && id in env.cfg.Parties()
    ensures S.HonestOK(env.cfg, View(env, R.Init(), nonces, map[], InitialReplies(env, nonces, env.cfg.pk.partyIDs)), id)
  {
    assert S.Joining(View(env, R.Init(), nonces, map[], InitialReplies(env, nonces, env.cfg.pk.partyIDs)), id);
  }

  lemma StartingDone(env: S.Env, coord: R.State, nonces: map<ID, NonceState>, pending: map<ID, R.SignRequest>)
    requires Starting(env, coord, nonces, pending, [])
    ensures Going(env, coord, nonces, pending)
  {
    hide S.Inv;
    assert InitialReplies(env, nonces, []) == map[];
  }

  lemma StartingFacts(env: S.Env, coord: R.State, nonces: map<ID, NonceState>, pending: map<ID, R.SignRequest>, rest: seq<ID>)
    requires Starting(env, coord, nonces, pending, rest)
    ensures !coord.done && coord.malicious == {} && R.Linked(coord) && coord.signature == None && R.Inv(env.cfg, coord)
    ensures AllFresh(coord, rest)
  {
    hide S.HonestOK;
  }

  /** The commitments of one more party. */
  lemma StartingStep(env: S.Env, coord: R.State, nonces: map<ID, NonceState>, pending: map<ID, R.SignRequest>, rest: seq<ID>)
    requires Starting(env, coord, nonces, pending, rest) && rest != [] && rest[0] in nonces
    requires rest[0] in env.cfg.Parties() && rest[0] !in rest[1..]
    ensures R.Linked(coord)
    ensures
      var o := R.Step(env.cfg, coord, InitialReply(nonces, rest[0]));
      && Clean(coord, o) && !o.state.done
      && Starting(env, o.state, nonces, Merge(pending, o.requests), rest[1..])
  {
    hide R.Step;
    hide R.Inv;
    hide S.Inv;
    hide E.Placed;
    hide Clean;
    hide Merge;
    hide Restrict;
    hide Going;
    StartingFacts(env, coord, nonces, pending, rest);
    var r := InitialReply(nonces, rest[0]);
    var o := R.Step(env.cfg, coord, r);
    assert E.Fresh(coord, rest[0]);
    StepClean(env.cfg, coord, r);
    E.FreshEffect(env.cfg, coord, r, r.from);
    forall i | 0 <= i < |rest| - 1
      ensures E.Fresh(o.state, rest[1..][i])
    {
      assert rest[1..][i] == rest[i + 1] && E.Fresh(coord, rest[i + 1]);
      E.FreshEffect(env.cfg, coord, r, rest[i + 1]);
    }
    HandOver(env, coord, nonces, pending, rest);
  }

  lemma HandOver(env: S.Env, coord: R.State, nonces: map<ID, NonceState>, pending: map<ID, R.SignRequest>, rest: seq<ID>)
    requires S.Inv(env, View(env, coord, nonces, pending, InitialReplies(env, nonces, rest)))
    requires rest != [] && rest[0] in nonces && rest[0] in env.cfg.Parties() && rest[0] !in rest[1..]
    requires R.Linked(coord)
    ensures
      var o := R.Step(env.cfg, coord, InitialReply(nonces, rest[0]));
      S.Inv(env, View(env, o.state, nonces, Merge(pending, o.requests), InitialReplies(env, nonces, rest[1..])))
  {
    hide R.Step;
    hide R.Inv;
    hide S.Inv;
    hide Merge;
    hide Restrict;
    hide S.Announce;
    hide R.Linked;
    var sys := View(env, coord, nonces, pending, InitialReplies(env, nonces, rest));
    var r := InitialReply(nonces, rest[0]);
    var o := R.Step(env.cfg, coord, r);
    MergeRestrict(env, pending, o.requests);
    assert forall id :: id in Members(rest) <==> id == rest[0] || id in Members(rest[1..]);
    if r.from in env.secrets {
      S.DeliverInv(env, sys, r.from);
      assert InitialReplies(env, nonces, rest[1..]) == sys.replies - {r.from};
    } else {
      S.CorruptInv(env, sys, r);
      assert InitialReplies(env, nonces, rest[1..]) == sys.replies;
    }
  }

  /** Every party sends its first commitments. */
  method InitialPhase(env: S.Env, c: C.Coordinator, nonces: map<ID, NonceState>) returns (pending: map<ID, R.SignRequest>, started: nat)
    requires c.Valid() && c.cfg == env.cfg && c.Abs() == R.Init() && env.Valid() && env.cfg.Parties() <= nonces.Keys
    requires |env.Honest()| >= env.cfg.t
    modifies c
    ensures c.Valid() && c.sidCounter == started > 0
    ensures c.signature == None && !c.done && Going(env, c.Abs(), nonces, pending)
  {
    hide Going;
    hide Starting;
    hide C.Coordinator.Valid;
    hide R.Step;
    hide Merge;
    hide WellIssued;
    var ids := env.cfg.pk.partyIDs;
    pending, started := map[], 0;
    HonestHasNonces(env, nonces);
    StartingInitially(env, nonces);
    assert ids[0..] == ids;
    for i := 0 to |ids|
      invariant c.Valid() && c.sidCounter == started
      invariant started == 0 ==> pending == map[]
      invariant Starting(env, c.Abs(), nonces, pending, ids[i..])
    {
      StartingFacts(env, c.Abs(), nonces, pending, ids[i..]);
      NextParty(env, ids, i);
      StartingStep(env, c.Abs(), nonces, pending, ids[i..]);
      ReadyToCall(c);
      var sig, requests, err := c.HandleResponse(ids[i], None, Commit(nonces[ids[i]]));
      assert sig == None && err == None;
      NoMerge(pending, requests);
      pending := MergeLoop(pending, requests);
      started := started + if requests == [] then 0 else 1;
    }
    assert ids[|ids|..] == [];
    StartingDone(env, c.Abs(), nonces, pending);
    SomebodyAsked(env, c.Abs(), nonces, pending);
    GoingFacts(env, c.Abs(), nonces, pending);
  }

  lemma ReadyToCall(c: C.Coordinator)
    requires c.Valid()
    ensures c.Ready()
  {
    hide R.Inv;
    R.InvSafe(c.cfg, c.Abs());
  }

  lemma ConfigUsable(cfg: R.Config)
    requires cfg.Valid()
    ensures R.Usable(cfg)
  {
    hide ConsistentKeys;
    R.InitInv(cfg);
    R.InvSafe(cfg, R.Init());
  }

  lemma NoMerge(pending: map<ID, R.SignRequest>, issued: seq<R.SignRequest>)
    ensures issued == [] ==> Merge(pending, issued) == pending
  {
  }

  lemma HonestHasNonces(env: S.Env, nonces: map<ID, NonceState>)
    requires env.Valid() && env.cfg.Parties() <= nonces.Keys
    ensures env.Honest() <= nonces.Keys
  {
  }

  lemma NextParty(env: S.Env, ids: seq<ID>, i: nat)
    requires env.Valid() && ids == env.cfg.pk.partyIDs && i < |ids|
    ensures ids[i] in env.cfg.Parties() && ids[i..] != [] && ids[i..][0] == ids[i] && ids[i..][1..] == ids[i + 1..]
    ensures ids[i] !in ids[i..][1..]
  {
  }

  /** The whole simulation, with at most n - t signers that never answer: it always produces
      a signature that verifies, within its cap of n rounds and n - t + 1 sessions. */
  method Simulate(env: S.Env, nonces: map<ID, NonceState>, supply: nat -> NonceState)
    returns (finalSig: Option<Signature>, sessionCount: nat)
    requires env.Valid() && |env.Honest()| >= env.cfg.t && env.cfg.Parties() <= nonces.Keys
    ensures finalSig.Some? && Verify(env.cfg.suite, env.cfg.pk.groupKey, env.cfg.message, finalSig.value)
    ensures 1 <= sessionCount <= env.cfg.N() - env.cfg.t + 1
  {
    hide Going;
    hide Verify;
    hide R.Ledger.Inv;
    ConfigUsable(env.cfg);
    var c := new C.Coordinator(env.cfg);
    var pending, started := InitialPhase(env, c, nonces);
    var current, used, round := nonces, 0, 0;
    finalSig, sessionCount := None, started;
    while finalSig == None && round < env.cfg.N()
      invariant c.Valid() && c.cfg == env.cfg
      invariant finalSig == c.signature && (finalSig.Some? <==> c.done)
      invariant sessionCount == c.sidCounter && sessionCount >= 1
      invariant finalSig == None ==> Going(env, c.Abs(), current, pending) && round < sessionCount
    {
      finalSig, current, pending, used, started := Round(env, c, current, pending, supply, used);
      sessionCount := sessionCount + started;
      round := round + 1;
      R.LedgerFacts(env.cfg, c.Abs());
    }
    R.LedgerFacts(env.cfg, c.Abs());
  }
}
