/** Every run of the ledger in which all signers are honest is a run of the real system of
    coordinator, signers and network. So the bound of n - t + 1 sessions is reached there too,
    without any fault. */
module RoastTightness {
  import opened Group
  import opened Party
  import opened Frost
  import R = Roast
  import E = RoastEffects
  import S = RoastSystem
  import L = Ledger
  import T = SessionTightness

  lemma RunNext(env: S.Env, acts: seq<S.Action>, a: S.Action)
    requires env.Valid() && S.Enabled(env, S.Run(env, acts), a)
    ensures S.Run(env, acts + [a]) == S.Next(env, S.Run(env, acts), a)
  {
    assert (acts + [a])[..|acts|] == acts;
    hide S.Next;
    hide S.Inv;
  }

  /** The validity of a reply only matters for a pending sender. */
  lemma SameStep(t: nat, b: L.Book, id: ID, valid: bool, valid': bool)
    requires L.Accepted(b, id, valid) && L.Accepted(b, id, valid')
    ensures L.Step(t, b, id, valid) == L.Step(t, b, id, valid')
  {
  }

  /** The reply of an honest signer is delivered; the book takes the step of a valid reply. */
  lemma Delivered(env: S.Env, sys: S.Sys, id: ID)
    requires S.Inv(env, sys) && !sys.coord.done && sys.replies.Keys == {id} && id in env.secrets
    ensures
      var sys' := S.Next(env, sys, S.Deliver(id));
      && S.Inv(env, sys') && sys'.replies == map[]
      && L.Accepted(R.BookOf(sys.coord), id, true)
      && R.BookOf(sys'.coord) == L.Step(env.cfg.t, R.BookOf(sys.coord), id, true)
  {
    hide R.Step;
    hide R.Ledger.Inv;
    hide R.Crypto;
    hide R.Accepts;
    hide L.Step;
    hide S.HonestOK;
    hide S.Env.Valid;
    S.HonestReplyAccepted(env, sys, id);
    S.HonestIsParty(env, id);
    S.NextInv(env, sys, S.Deliver(id));
    var r := sys.replies[id];
    R.StepFollowsLedger(env.cfg, sys.coord, r);
    SameStep(env.cfg.t, R.BookOf(sys.coord), id, R.Passes(env.cfg, sys.coord, r), true);
    assert sys.replies - {id} == map[];
  }

  /** A signer that has not started, or has been asked, puts its reply on the way. */
  lemma Speaks(env: S.Env, sys: S.Sys, id: ID) returns (a: S.Action)
    requires S.Inv(env, sys) && !sys.coord.done && sys.replies == map[] && id in env.secrets
    requires L.Accepted(R.BookOf(sys.coord), id, true)
    ensures S.Enabled(env, sys, a)
    ensures
      var sys' := S.Next(env, sys, a);
      sys'.coord == sys.coord && sys'.replies.Keys == {id}
  {
    hide R.Inv;
    hide R.Accepts;
    hide R.SessionOK;
    hide S.Env.Valid;
    hide SignRound;
    hide Commit;
    var n := NonceState(0, 0);
    assert S.HonestOK(env.cfg, sys, id);
    if id in sys.requests {
      var sid := S.RequestIsCurrent(env, sys, id);
      a := S.SignerSign(id, n);
      S.SignSignerInv(env, sys, id, n);
    } else {
      a := S.SignerInit(id, n);
    }
  }

  /** One accepted reply, realised by the signer's action and its delivery. */
  lemma RealiseStep(env: S.Env, acts: seq<S.Action>, id: ID) returns (acts': seq<S.Action>)
    requires env.Valid() && S.Run(env, acts).replies == map[] && !S.Run(env, acts).coord.done && id in env.secrets
    requires L.Accepted(R.BookOf(S.Run(env, acts).coord), id, true)
    ensures S.Run(env, acts').replies == map[]
    ensures R.BookOf(S.Run(env, acts').coord) == L.Step(env.cfg.t, R.BookOf(S.Run(env, acts).coord), id, true)
  {
    hide R.Inv;
    hide S.Inv;
    hide S.Next;
    hide R.BookOf;
    hide L.Step;
    hide L.Accepted;
    hide S.Env.Valid;
    var a := Speaks(env, S.Run(env, acts), id);
    RunNext(env, acts, a);
    var mid := acts + [a];
    Delivered(env, S.Run(env, mid), id);
    RunNext(env, mid, S.Deliver(id));
    acts' := mid + [S.Deliver(id)];
  }

  /** A run of the ledger with honest signers only, realised up to its k-th book. */
  lemma {:induction false} Realise(env: S.Env, es: seq<L.Event>, bs: seq<L.Book>, k: nat) returns (acts: seq<S.Action>)
    requires env.Valid() && env.Honest() == env.cfg.Parties() && k <= |es|
    requires L.IsRun(env.cfg.Parties(), env.cfg.t, es, bs) && T.HonestBut(es, bs, {})
    ensures S.Run(env, acts).replies == map[] && R.BookOf(S.Run(env, acts).coord) == bs[k]
  {
    if k == 0 {
      acts := [];
      assert R.BookOf(R.Init()) == L.Init();
    } else {
      acts := Realise(env, es, bs, k - 1);
      var id, valid := es[k - 1].from, es[k - 1].valid;
      var b := bs[k - 1];
      assert b.done == S.Run(env, acts).coord.done;
      if b.done {
        assert L.Step(env.cfg.t, b, id, valid) == b;
      } else {
        SpokeUp(b, id, valid);
        SameStep(env.cfg.t, b, id, valid, true);
        acts := RealiseStep(env, acts, id);
      }
    }
  }

  lemma SpokeUp(b: L.Book, id: ID, valid: bool)
    requires L.Accepted(b, id, valid)
    ensures L.Accepted(b, id, true)
  {
  }

  /** Whatever the keys and the message: with all parties honest, some run of the system starts
      exactly n - t + 1 sessions, and no run starts more. */
  lemma SystemBoundReached(env: S.Env) returns (acts: seq<S.Action>)
    requires env.Valid() && env.Honest() == env.cfg.Parties()
    ensures S.Run(env, acts).coord.sidCounter == env.cfg.N() - env.cfg.t + 1 && !S.Run(env, acts).coord.done
    ensures S.Run(env, acts).coord.malicious == {}
    ensures forall other :: S.Run(env, other).coord.sidCounter <= env.cfg.N() - env.cfg.t + 1
  {
    hide S.Env.Valid;
    ConfigSize(env);
    var es, bs := T.BoundReached(env.cfg.Parties(), env.cfg.t);
    T.RunShape(env.cfg.Parties(), env.cfg.t, es, bs);
    acts := Realise(env, es, bs, |es|);
    forall other
      ensures S.Run(env, other).coord.sidCounter <= env.cfg.N() - env.cfg.t + 1
    {
      SystemCounter(env, other);
    }
    NobodyBlamed(env, acts);
  }

  /** At any moment of any run at which no honest signer is asked for a share, every session has
      been stopped by a faulty signer of its own: with f of them at most f sessions have been
      started, so at most one more can be needed. */
  lemma SessionsStoppedByFaults(env: S.Env, acts: seq<S.Action>)
    requires env.Valid() && !S.Run(env, acts).coord.done && S.Run(env, acts).coord.signerSID.Keys !! env.Honest()
    ensures env.Honest() <= env.cfg.Parties()
    ensures S.Run(env, acts).coord.sidCounter <= |env.cfg.Parties() - env.Honest()|
  {
    hide S.Run;
    hide S.Inv;
    hide S.Env.Valid;
    hide L.Inv;
    hide R.BookOf;
    HonestAreParties(env);
    SystemBook(env, acts);
    S.HonestNeverBlamed(env, acts);
    var coord, faulty := S.Run(env, acts).coord, env.cfg.Parties() - env.Honest();
    OnlyFaulty(coord.malicious, coord.signerSID.Keys, env.cfg.Parties(), env.Honest());
    BookFields(coord);
    L.SessionsNeedFaults(env.cfg.Parties(), env.cfg.t, R.BookOf(coord), faulty);
  }

  lemma OnlyFaulty(a: set<ID>, b: set<ID>, all: set<ID>, honest: set<ID>)
    requires a <= all && b <= all && a !! honest && b !! honest
    ensures a + b <= all - honest
  {
  }

  lemma BookFields(s: R.State)
    ensures
      var b := R.BookOf(s);
      b.malicious == s.malicious && b.pending == s.signerSID && b.counter == s.sidCounter && b.done == s.done
  {
  }

  lemma HonestAreParties(env: S.Env)
    requires env.Valid()
    ensures env.Honest() <= env.cfg.Parties()
  {
    forall id | id in env.secrets
      ensures id in env.cfg.Parties()
    {
      S.HonestIsParty(env, id);
    }
  }

  lemma SystemBook(env: S.Env, acts: seq<S.Action>)
    requires env.Valid()
    ensures L.Inv(env.cfg.Parties(), env.cfg.t, R.BookOf(S.Run(env, acts).coord))
    ensures S.Run(env, acts).coord.malicious <= env.cfg.Parties() && S.Run(env, acts).coord.signerSID.Keys <= env.cfg.Parties()
  {
    hide S.HonestOK;
    R.LedgerFacts(env.cfg, S.Run(env, acts).coord);
    hide L.Inv;
  }

  lemma ConfigSize(env: S.Env)
    requires env.Valid()
    ensures |env.cfg.Parties()| == env.cfg.N() && 1 <= env.cfg.t <= env.cfg.N()
  {
    R.PartiesSize(env.cfg);
  }

  lemma SystemCounter(env: S.Env, acts: seq<S.Action>)
    requires env.Valid()
    ensures S.Run(env, acts).coord.sidCounter <= env.cfg.N() - env.cfg.t + 1
    ensures S.Run(env, acts).coord.malicious <= env.cfg.Parties()
  {
    hide S.HonestOK;
    R.LedgerFacts(env.cfg, S.Run(env, acts).coord);
    hide R.Ledger.Inv;
  }

  lemma NobodyBlamed(env: S.Env, acts: seq<S.Action>)
    requires env.Valid() && env.Honest() == env.cfg.Parties()
    ensures S.Run(env, acts).coord.malicious == {}
  {
    SystemCounter(env, acts);
    S.HonestNeverBlamed(env, acts);
    hide S.Run;
    var m := S.Run(env, acts).coord.malicious;
    assert m <= env.Honest() && m !! env.Honest();
  }
}
