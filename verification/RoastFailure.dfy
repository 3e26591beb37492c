/** When too many parties are malicious: which calls say so, and what can still happen. */
module RoastFailure {
  import opened Group
  import opened Party
  import opened Frost
  import opened Roast
  import opened RoastEffects
  import Ledger

  /** More malicious parties than the n - t that leave t others. */
  predicate Overrun(cfg: Config, s: State) {
    |s.malicious| > cfg.N() - cfg.t
  }

  /** The sender waits, in an unfinished run that has too many malicious parties. */
  predicate WaitsInVain(cfg: Config, s: State, id: ID) {
    id in s.responsive && !s.done && |s.malicious| > cfg.N() - cfg.t
  }

  lemma RejoinError(cfg: Config, s: State, id: ID, pre: PreShare)
    requires Joinable(cfg, s, id) && !s.done
    ensures
      var o := Rejoin(cfg, s, id, pre);
      && (o.error == Some(TooManyMalicious) <==> WaitsInVain(cfg, o.state, id))
      && (Overrun(cfg, s) ==> o.state.sessions == s.sessions && o.state.sidCounter == s.sidCounter && o.requests == [])
      && o.state.malicious == s.malicious && !o.state.done
  {
    hide Rejoin;
    hide Initiate;
    hide NextSession;
    hide Requests;
    hide Config.Valid;
    RejoinOutcome(cfg, s, id, pre);
    RejoinCounts(cfg, s, id);
    RejoinNotDone(cfg, s, id, pre);
    var s1 := MakeResponsive(s, id, pre);
    if |s.responsive| + 1 == cfg.t {
      assert s1.responsive <= s1.preShares.Keys;
      InitiateClears(cfg, s1);
    }
  }

  lemma InitiateClears(cfg: Config, s: State)
    requires s.responsive <= s.preShares.Keys
    ensures Initiate(cfg, s).responsive == {} && Initiate(cfg, s).malicious == s.malicious
  {
    hide NextSession;
  }

  /** What one call does, in terms of too many malicious parties. */
  ghost predicate Judged(cfg: Config, s: State, id: ID, o: Outcome) {
    && (o.error == Some(TooManyMalicious) <==> WaitsInVain(cfg, o.state, id))
    && s.malicious <= o.state.malicious
    && (Overrun(cfg, s) ==>
         o.state.sessions.Keys == s.sessions.Keys && o.state.sidCounter == s.sidCounter && o.requests == [])
  }

  lemma StepJudged(cfg: Config, s: State, r: Reply)
    requires Inv(cfg, s) && r.from in cfg.Parties()
    ensures Judged(cfg, s, r.from, Step(cfg, s, r))
  {
    hide Inv;
    hide Step;
    hide Judged;
    if Counts(cfg, s, r) {
      CountsJudged(cfg, s, r);
    } else {
      OtherwiseJudged(cfg, s, r);
    }
  }

  lemma CountsJudged(cfg: Config, s: State, r: Reply)
    requires Inv(cfg, s) && r.from in cfg.Parties() && Counts(cfg, s, r)
    ensures Judged(cfg, s, r.from, Step(cfg, s, r))
  {
    hide Step;
    hide Crypto;
    hide BookOf;
    hide Ledger.Inv;
    hide Config.Valid;
    hide Accepts;
    hide Rejoin;
    hide Finish;
    hide Judged;
    hide Joinable;
    hide StoreShare;
    var sid := s.signerSID[r.from];
    var s1 := StoreShare(s, sid, r.from, r.share.value);
    var o := Step(cfg, s, r);
    StepCounts(cfg, s, r);
    JoinableNow(cfg, s, r.from);
    JoinableStored(cfg, s, sid, r.from, r.share.value);
    StoredIsSame(s, sid, r.from, r.share.value);
    if |s1.sessions[sid].sigShares| == cfg.t {
      FinishJudged(cfg, s1, sid, r.from);
    } else {
      RejoinJudged(cfg, s1, r.from, r.preShare);
    }
    SameJudged(cfg, s, s1, r.from, o);
  }

  lemma RejoinJudged(cfg: Config, s: State, id: ID, pre: PreShare)
    requires Joinable(cfg, s, id) && !s.done
    ensures Judged(cfg, s, id, Rejoin(cfg, s, id, pre))
  {
    hide Rejoin;
    hide Config.Valid;
    RejoinError(cfg, s, id, pre);
  }

  lemma StoredIsSame(s: State, sid: nat, id: ID, share: nat)
    requires sid in s.sessions
    ensures
      var s1 := StoreShare(s, sid, id, share);
      s1.sessions.Keys == s.sessions.Keys && s1.malicious == s.malicious && s1.sidCounter == s.sidCounter && s1.done == s.done
  {
  }

  lemma SameJudged(cfg: Config, s: State, s1: State, id: ID, o: Outcome)
    requires s1.sessions.Keys == s.sessions.Keys && s1.malicious == s.malicious && s1.sidCounter == s.sidCounter
    requires Judged(cfg, s1, id, o)
    ensures Judged(cfg, s, id, o)
  {
  }

  lemma OtherwiseJudged(cfg: Config, s: State, r: Reply)
    requires Inv(cfg, s) && r.from in cfg.Parties() && !Counts(cfg, s, r)
    ensures Judged(cfg, s, r.from, Step(cfg, s, r))
  {
    hide Step;
    hide Crypto;
    hide BookOf;
    hide Ledger.Inv;
    hide Config.Valid;
    hide Accepts;
    hide Rejoin;
    hide Joinable;
    LedgerFacts(cfg, s);
    StepOtherwise(cfg, s, r);
    if !s.done && Fresh(s, r.from) {
      JoinableNow(cfg, s, r.from);
      RejoinJudged(cfg, s, r.from, r.preShare);
    }
  }

  lemma FinishJudged(cfg: Config, s: State, sid: nat, id: ID)
    requires sid in s.sessions
    ensures Judged(cfg, s, id, Finish(cfg, s, sid))
  {
    hide SessionSignature;
  }

  /** In every run, a call reports too many malicious parties if and only if it leaves its
      sender waiting in an unfinished run with more than n - t of them. */
  lemma TooManyExactly(cfg: Config, rs: seq<Reply>, r: Reply)
    requires cfg.Valid() && FromParties(cfg, rs) && r.from in cfg.Parties()
    ensures
      var o := Step(cfg, Exec(cfg, rs), r);
      o.error == Some(TooManyMalicious) <==>
        r.from in o.state.responsive && !o.state.done && |o.state.malicious| > cfg.N() - cfg.t
  {
    hide Exec;
    hide Step;
    hide Config.Valid;
    StepJudged(cfg, Exec(cfg, rs), r);
  }

  /** Once more than n - t parties are malicious, no continuation of the run starts a session;
      if it still finishes, a session that was already open does. */
  lemma {:induction false} NoNewSessions(cfg: Config, rs: seq<Reply>, more: seq<Reply>)
    requires cfg.Valid() && FromParties(cfg, rs + more) && FromParties(cfg, rs)
    requires |Exec(cfg, rs).malicious| > cfg.N() - cfg.t
    ensures |Exec(cfg, rs + more).malicious| > cfg.N() - cfg.t
    ensures Exec(cfg, rs + more).sidCounter == Exec(cfg, rs).sidCounter
    ensures Exec(cfg, rs + more).sessions.Keys == Exec(cfg, rs).sessions.Keys
  {
    hide Inv;
    hide Step;
    hide Config.Valid;
    if more == [] {
      assert rs + more == rs;
    } else {
      var k := |more| - 1;
      assert (rs + more)[..|rs| + k] == rs + more[..k];
      assert rs + more[..k] + [more[k]] == rs + more;
      FromPartiesPrefix(cfg, rs + more[..k], [more[k]]);
      NoNewSessions(cfg, rs, more[..k]);
      assert (rs + more)[|rs| + k].from in cfg.Parties();
      var s := Exec(cfg, rs + more[..k]);
      StepJudged(cfg, s, more[k]);
      ExecNext(cfg, rs + more, |rs| + k);
      assert (rs + more)[..|rs| + k + 1] == rs + more;
      MoreMalicious(cfg, s, Exec(cfg, rs + more));
    }
  }

  lemma MoreMalicious(cfg: Config, s: State, s': State)
    requires s.malicious <= s'.malicious && Overrun(cfg, s)
    ensures Overrun(cfg, s')
  {
    SubsetSize(s.malicious, s'.malicious);
  }

  /** Reply r completes the session that its sender was working on. */
  ghost predicate Completes(cfg: Config, s: State, r: Reply, s': State) {
    && Passes(cfg, s, r) && s.signerSID[r.from] in s'.sessions
    && |s'.sessions[s.signerSID[r.from]].sigShares| == cfg.t
  }

  /** The call that then ends the run completes a session that was open before. */
  lemma LateFinish(cfg: Config, rs: seq<Reply>, more: seq<Reply>, r: Reply)
    requires cfg.Valid() && FromParties(cfg, rs + more) && FromParties(cfg, rs) && r.from in cfg.Parties()
    requires |Exec(cfg, rs).malicious| > cfg.N() - cfg.t
    requires !Exec(cfg, rs + more).done && Step(cfg, Exec(cfg, rs + more), r).state.done
    ensures Completes(cfg, Exec(cfg, rs + more), r, Step(cfg, Exec(cfg, rs + more), r).state)
    ensures Exec(cfg, rs + more).signerSID[r.from] in Exec(cfg, rs).sessions
  {
    hide Exec;
    hide Step;
    hide Crypto;
    hide BookOf;
    hide Ledger.Inv;
    hide Accepts;
    hide Config.Valid;
    NoNewSessions(cfg, rs, more);
    FinishedSession(cfg, Exec(cfg, rs + more), r);
  }

  lemma FinishedSession(cfg: Config, s: State, r: Reply)
    requires Inv(cfg, s) && !s.done && Step(cfg, s, r).state.done
    ensures Completes(cfg, s, r, Step(cfg, s, r).state)
  {
    hide Step;
    hide Crypto;
    hide BookOf;
    hide Ledger.Inv;
    hide Config.Valid;
    hide Accepts;
    hide Rejoin;
    hide SessionSignature;
    DoneByCounting(cfg, s, r);
    StepCounts(cfg, s, r);
    LedgerFacts(cfg, s);
    RejoinNotDone(cfg, StoreShare(s, s.signerSID[r.from], r.from, r.share.value), r.from, r.preShare);
  }
}
