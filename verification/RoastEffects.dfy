/** What one coordinator call does to each single signer: the sender, the responsive, the
    pending and the unheard. */
module RoastEffects {
  import opened Group
  import opened Party
  import opened Frost
  import opened Roast
  import Ledger

  /** After outcome o, signer j with commitments p waits as responsive, or has just been put
      into the session that o announces. */
  ghost predicate Placed(o: Outcome, j: ID, p: PreShare) {
    if o.requests == [] then
      && j in o.state.responsive && j !in o.state.signerSID
      && j in o.state.preShares && o.state.preShares[j] == p
    else
      j !in o.state.responsive && Announced(o, j, p)
  }

  ghost predicate Announced(o: Outcome, j: ID, p: PreShare)
    requires o.requests != []
  {
    && j in o.state.signerSID && o.state.signerSID[j] in o.state.sessions
    && var session := o.state.sessions[o.state.signerSID[j]];
    && j in session.signerSet && j in session.preShares && session.preShares[j] == p
    && o.requests[0].signerSet == session.signerSet && o.requests[0].preShares == session.preShares
  }

  /** Outcome o leaves signer j where it was. */
  ghost predicate Untouched(s: State, o: Outcome, j: ID) {
    && (j in o.state.responsive <==> j in s.responsive)
    && (j in o.state.signerSID <==> j in s.signerSID)
    && (j in s.signerSID ==> o.state.signerSID[j] == s.signerSID[j])
    && (j in o.state.malicious <==> j in s.malicious)
    && (o.requests != [] ==> j !in o.requests[0].signerSet)
  }

  /** Sessions keep everything but their shares. */
  ghost predicate SessionsKept(s: State, s': State) {
    forall sid :: sid in s.sessions ==>
      sid in s'.sessions && s'.sessions[sid].(sigShares := map[]) == s.sessions[sid].(sigShares := map[])
  }

  lemma InitiateEffect(cfg: Config, s: State, j: ID)
    requires s.responsive <= s.preShares.Keys && s.sidCounter + 1 !in s.sessions && s.sidCounter < 65536 && cfg.t > 0
    requires |s.responsive| == cfg.t
    ensures
      var o := Outcome(Initiate(cfg, s), None, Requests(cfg, NextSession(cfg, s)), None);
      && o.requests != [] && SessionsKept(s, o.state) && o.state.malicious == s.malicious
      && (j in s.responsive ==> Placed(o, j, s.preShares[j]))
      && (j !in s.responsive ==> Untouched(s, o, j))
  {
    hide NewSession;
    hide NextSession;
    hide NextSigners;
    NextSessionShape(cfg, s);
    var session := NextSession(cfg, s);
    assert j in session.signerSet <==> j in Members(session.signerSet);
  }

  /** The sender may rejoin, and there is room for a session. */
  ghost predicate Joinable(cfg: Config, s: State, id: ID) {
    && cfg.Valid() && s.responsive <= s.preShares.Keys
    && s.responsive + {id} <= cfg.Parties() && s.malicious <= cfg.Parties()
    && id !in s.responsive && id !in s.malicious && s.responsive !! s.malicious && s.responsive !! s.signerSID.Keys
    && |s.responsive| < cfg.t && s.sidCounter < 65536 && s.sidCounter + 1 !in s.sessions
  }

  /** Rejoining: the sender and the responsive signers are placed, the others untouched. */
  lemma RejoinEffect(cfg: Config, s: State, id: ID, pre: PreShare, j: ID)
    requires Joinable(cfg, s, id)
    ensures
      var o := Rejoin(cfg, s, id, pre);
      && SessionsKept(s, o.state) && o.state.malicious == s.malicious
      && Placed(o, id, pre)
      && (j in s.responsive ==> Placed(o, j, s.preShares[j]))
      && (j != id && j !in s.responsive ==> Untouched(s, o, j))
  {
    hide Rejoin;
    hide Initiate;
    hide NextSession;
    hide Requests;
    hide Config.Valid;
    hide Placed;
    hide Untouched;
    hide SessionsKept;
    RejoinOutcome(cfg, s, id, pre);
    RejoinCounts(cfg, s, id);
    var o, s1 := Rejoin(cfg, s, id, pre), MakeResponsive(s, id, pre);
    assert s1.sidCounter == s.sidCounter && s1.sessions == s.sessions;
    assert s1.responsive == s.responsive + {id} && s1.responsive <= s1.preShares.Keys;
    hide *;
    if |s.responsive| + 1 == cfg.t {
      InitiateEffect(cfg, s1, j);
      InitiateEffect(cfg, s1, id);
      StartEffect(s, id, pre, j, o);
    } else {
      WaitEffect(s, id, pre, j, o);
    }
  }

  /** From the state in which the sender is responsive back to the state before. */
  lemma StartEffect(s: State, id: ID, pre: PreShare, j: ID, o: Outcome)
    requires id !in s.responsive && s.responsive <= s.preShares.Keys && o.requests != []
    requires
      var s1 := MakeResponsive(s, id, pre);
      && SessionsKept(s1, o.state) && o.state.malicious == s1.malicious
      && (id in s1.responsive ==> Placed(o, id, s1.preShares[id]))
      && (j in s1.responsive ==> Placed(o, j, s1.preShares[j]))
      && (j !in s1.responsive ==> Untouched(s1, o, j))
    ensures SessionsKept(s, o.state) && o.state.malicious == s.malicious && Placed(o, id, pre)
    ensures j in s.responsive ==> Placed(o, j, s.preShares[j])
    ensures j != id && j !in s.responsive ==> Untouched(s, o, j)
  {
  }

  lemma WaitEffect(s: State, id: ID, pre: PreShare, j: ID, o: Outcome)
    requires o.state == MakeResponsive(s, id, pre) && o.requests == []
    requires id !in s.responsive && s.responsive <= s.preShares.Keys && s.responsive !! s.signerSID.Keys
    ensures SessionsKept(s, o.state) && o.state.malicious == s.malicious && Placed(o, id, pre)
    ensures j in s.responsive ==> Placed(o, j, s.preShares[j])
    ensures j != id && j !in s.responsive ==> Untouched(s, o, j)
  {
  }

  /** The sender has not been heard before. */
  predicate Fresh(s: State, id: ID) {
    id !in s.malicious && id !in s.responsive && id !in s.signerSID
  }

  lemma StoreShareKeeps(s: State, sid: nat, id: ID, share: nat)
    requires sid in s.sessions
    ensures SessionsKept(s, StoreShare(s, sid, id, share))
  {
  }

  lemma KeptTransitive(a: State, b: State, c: State)
    requires SessionsKept(a, b) && SessionsKept(b, c)
    ensures SessionsKept(a, c)
  {
  }

  lemma JoinableNow(cfg: Config, s: State, id: ID)
    requires Inv(cfg, s) && !s.done && id in cfg.Parties() && id !in s.responsive && id !in s.malicious
    ensures Joinable(cfg, s, id)
  {
    hide Crypto;
    hide BookOf;
    hide Ledger.Inv;
    hide Config.Valid;
    LedgerFacts(cfg, s);
    RoomToStart(cfg, s);
  }

  lemma JoinableStored(cfg: Config, s: State, sid: nat, id: ID, share: nat)
    requires Joinable(cfg, s, id) && sid in s.sessions
    ensures Joinable(cfg, StoreShare(s, sid, id, share), id)
  {
  }

  /** What an accepted reply does to signer j. */
  ghost predicate AcceptedOutcome(s: State, r: Reply, o: Outcome, j: ID)
    requires s.responsive <= s.preShares.Keys
  {
    && SessionsKept(s, o.state) && o.state.malicious == s.malicious && Placed(o, r.from, r.preShare)
    && (j in s.responsive ==> Placed(o, j, s.preShares[j]))
    && (j != r.from && j !in s.responsive ==> Untouched(s, o, j))
  }

  lemma FreshEffect(cfg: Config, s: State, r: Reply, j: ID)
    requires Inv(cfg, s) && !s.done && r.from in cfg.Parties() && Fresh(s, r.from)
    ensures AcceptedOutcome(s, r, Step(cfg, s, r), j) && !Step(cfg, s, r).state.done
  {
    hide Step;
    hide Crypto;
    hide BookOf;
    hide Ledger.Inv;
    hide Config.Valid;
    hide Accepts;
    hide Rejoin;
    hide Finish;
    JoinableNow(cfg, s, r.from);
    StepOtherwise(cfg, s, r);
    RejoinNotDone(cfg, s, r.from, r.preShare);
    hide Joinable;
    hide Placed;
    hide Untouched;
    hide SessionsKept;
    RejoinEffect(cfg, s, r.from, r.preShare, j);
  }

  /** A valid share ends the run or places its sender again. */
  lemma CountsEffect(cfg: Config, s: State, r: Reply, j: ID)
    requires Inv(cfg, s) && r.from in cfg.Parties() && Counts(cfg, s, r)
    ensures Step(cfg, s, r).state.done || AcceptedOutcome(s, r, Step(cfg, s, r), j)
    ensures Step(cfg, s, r).state.malicious == s.malicious
  {
    hide Step;
    hide Crypto;
    hide BookOf;
    hide Ledger.Inv;
    hide Config.Valid;
    hide Accepts;
    hide Rejoin;
    hide Finish;
    var sid := s.signerSID[r.from];
    var s1 := StoreShare(s, sid, r.from, r.share.value);
    var o := Step(cfg, s, r);
    StepCounts(cfg, s, r);
    if |s1.sessions[sid].sigShares| == cfg.t {
      FinishKeeps(cfg, s1, sid);
    } else {
      assert o == Rejoin(cfg, s1, r.from, r.preShare);
      JoinableNow(cfg, s, r.from);
      JoinableStored(cfg, s, sid, r.from, r.share.value);
      hide Joinable;
      hide Placed;
      hide Untouched;
      hide SessionsKept;
      RejoinEffect(cfg, s1, r.from, r.preShare, j);
      StoreShareKeeps(s, sid, r.from, r.share.value);
      KeptTransitive(s, s1, o.state);
      SameUntouched(s, s1, o, j);
    }
  }

  lemma FinishKeeps(cfg: Config, s: State, sid: nat)
    requires sid in s.sessions
    ensures Finish(cfg, s, sid).state.done && Finish(cfg, s, sid).state.malicious == s.malicious
  {
  }

  lemma SameUntouched(s: State, s1: State, o: Outcome, j: ID)
    requires s1.responsive == s.responsive && s1.malicious == s.malicious && s1.signerSID == s.signerSID
    ensures Untouched(s1, o, j) ==> Untouched(s, o, j)
  {
  }

  lemma RoomToStart(cfg: Config, s: State)
    requires Inv(cfg, s) && !s.done
    ensures s.sidCounter < 65536 && s.sidCounter + 1 !in s.sessions
  {
    PartiesSize(cfg);
    SessionNumbers(cfg, s);
    Ledger.RoomForSessions(cfg.Parties(), cfg.t, BookOf(s));
  }

  /** A reply that is refused changes nothing for anybody else. */
  lemma RefusedEffect(cfg: Config, s: State, r: Reply, j: ID)
    requires Inv(cfg, s) && !s.done && !Fresh(s, r.from) && !Counts(cfg, s, r)
    ensures
      var o := Step(cfg, s, r);
      && SessionsKept(s, o.state) && o.requests == [] && !o.state.done
      && (j != r.from ==> Untouched(s, o, j))
      && (j != r.from && j in s.responsive ==> Placed(o, j, s.preShares[j]))
  {
    hide Step;
    hide Crypto;
    hide BookOf;
    hide Ledger.Inv;
    hide Config.Valid;
    hide Accepts;
    hide Rejoin;
    hide Finish;
    LedgerFacts(cfg, s);
    StepOtherwise(cfg, s, r);
    BlameEffect(s, r.from, j);
    hide MarkMalicious;
    hide Placed;
    hide Untouched;
    var o := Step(cfg, s, r);
    if r.from in s.malicious {
      IdleEffect(s, o, j);
    } else {
      assert o.state == MarkMalicious(s, r.from);
      SameStateEffect(s, Outcome(MarkMalicious(s, r.from), None, [], None), o, j);
    }
  }

  lemma IdleEffect(s: State, o: Outcome, j: ID)
    requires o.state == s && o.requests == [] && s.responsive <= s.preShares.Keys && s.responsive !! s.signerSID.Keys
    ensures SessionsKept(s, o.state) && Untouched(s, o, j)
    ensures j in s.responsive ==> Placed(o, j, s.preShares[j])
  {
  }

  lemma BlameEffect(s: State, id: ID, j: ID)
    requires s.responsive <= s.preShares.Keys && s.responsive !! s.signerSID.Keys
    ensures
      var o := Outcome(MarkMalicious(s, id), None, [], None);
      && SessionsKept(s, o.state)
      && (j != id ==> Untouched(s, o, j))
      && (j != id && j in s.responsive ==> Placed(o, j, s.preShares[j]))
  {
  }

  lemma SameStateEffect(s: State, o: Outcome, o': Outcome, j: ID)
    requires o.state == o'.state && o.requests == o'.requests == []
    ensures Untouched(s, o, j) ==> Untouched(s, o', j)
    ensures forall p :: Placed(o, j, p) ==> Placed(o', j, p)
  {
  }

  // ---------------------------------------------------------------------------
  // Announcements
  // ---------------------------------------------------------------------------

  /** The session counter moves exactly with an announcement, and what is announced is the
      session that was started, without an error. */
  ghost predicate AnnouncesStarts(cfg: Config, s: State, o: Outcome) {
    if o.requests == [] then o.state.sidCounter == s.sidCounter
    else
      && o.error == None && o.state.sidCounter == s.sidCounter + 1
      && o.state.sidCounter in o.state.sessions
      && o.requests == Requests(cfg, o.state.sessions[o.state.sidCounter])
  }

  lemma RejoinAnnounces(cfg: Config, s: State, id: ID, pre: PreShare)
    requires Joinable(cfg, s, id)
    ensures AnnouncesStarts(cfg, s, Rejoin(cfg, s, id, pre))
  {
    hide Rejoin;
    hide NextSession;
    hide Requests;
    hide Config.Valid;
    RejoinOutcome(cfg, s, id, pre);
    var s1 := MakeResponsive(s, id, pre);
    assert s1.responsive <= s1.preShares.Keys;
    if |s.responsive| + 1 == cfg.t {
      PartiesSize(cfg);
      RejoinCounts(cfg, s, id);
      NextSessionShape(cfg, s1);
      RequestsSize(cfg, NextSession(cfg, s1));
      RequestsExist(cfg, s1);
    }
  }

  lemma RequestsSize(cfg: Config, session: Session)
    ensures |Requests(cfg, session)| == |session.signerSet|
  {
  }

  lemma RequestsExist(cfg: Config, s: State)
    requires s.responsive <= s.preShares.Keys && s.sidCounter < 65536
    ensures NextSid(s) == s.sidCounter + 1 && Initiate(cfg, s).sessions == s.sessions[NextSid(s) := NextSession(cfg, s)]
    ensures Initiate(cfg, s).sidCounter == NextSid(s)
  {
    hide NextSession;
  }

  /** In every run, every call that starts a session announces it: no error discards its
      requests. */
  lemma EveryStartAnnounced(cfg: Config, rs: seq<Reply>, r: Reply)
    requires cfg.Valid() && FromParties(cfg, rs) && r.from in cfg.Parties()
    ensures AnnouncesStarts(cfg, Exec(cfg, rs), Step(cfg, Exec(cfg, rs), r))
  {
    hide Exec;
    hide AnnouncesStarts;
    StepAnnounces(cfg, Exec(cfg, rs), r);
  }

  lemma StepAnnounces(cfg: Config, s: State, r: Reply)
    requires Inv(cfg, s) && r.from in cfg.Parties()
    ensures AnnouncesStarts(cfg, s, Step(cfg, s, r))
  {
    hide Step;
    hide Crypto;
    hide BookOf;
    hide Ledger.Inv;
    hide Config.Valid;
    hide Accepts;
    hide Rejoin;
    hide Requests;
    hide AnnouncesStarts;
    hide Finish;
    if Counts(cfg, s, r) {
      var sid := s.signerSID[r.from];
      StepCounts(cfg, s, r);
      JoinableNow(cfg, s, r.from);
      JoinableStored(cfg, s, sid, r.from, r.share.value);
      hide Joinable;
      var s1 := StoreShare(s, sid, r.from, r.share.value);
      if |s1.sessions[sid].sigShares| == cfg.t {
        FinishQuiet(cfg, s1, sid);
        QuietAnnounces(cfg, s, Step(cfg, s, r));
      } else {
        RejoinAnnounces(cfg, s1, r.from, r.preShare);
        SameCounter(cfg, s, s1, Step(cfg, s, r));
      }
    } else {
      StepOtherwise(cfg, s, r);
      if !s.done && Fresh(s, r.from) {
        JoinableNow(cfg, s, r.from);
        RejoinAnnounces(cfg, s, r.from, r.preShare);
      } else {
        QuietAnnounces(cfg, s, Step(cfg, s, r));
      }
    }
  }

  lemma FinishQuiet(cfg: Config, s: State, sid: nat)
    requires sid in s.sessions
    ensures Finish(cfg, s, sid).requests == [] && Finish(cfg, s, sid).state.sidCounter == s.sidCounter
  {
    hide SessionSignature;
  }

  lemma QuietAnnounces(cfg: Config, s: State, o: Outcome)
    ensures o.requests == [] && o.state.sidCounter == s.sidCounter ==> AnnouncesStarts(cfg, s, o)
  {
  }

  lemma SameCounter(cfg: Config, s: State, s1: State, o: Outcome)
    requires s1.sidCounter == s.sidCounter && AnnouncesStarts(cfg, s1, o)
    ensures AnnouncesStarts(cfg, s, o)
  {
  }
}
