/** The coordinator together with its signers and the network.

    Honest signers run Init once and then answer each request once, with pipelined nonces.
    Their messages travel asynchronously; corrupt parties send the coordinator anything at any
    time. Proved over all interleavings: an honest signer is never marked malicious, an
    unfinished run never deadlocks, and a bounded number of honest actions finishes it. */
module RoastSystem {
  import opened PrimeField
  import opened Group
  import opened Party
  import opened Frost
  import R = Roast
  import E = RoastEffects
  import Ledger

  /** The honest parties and their secret shares. */
  datatype Env = Env(cfg: R.Config, secrets: map<ID, nat>) {
    ghost predicate Valid() {
      && cfg.Valid() && secrets.Keys <= cfg.Parties()
      && forall id <- secrets :: Equal(cfg.suite.q, cfg.pk.shares[id], BaseMult(secrets[id]))
    }

    function Honest(): set<ID> { secrets.Keys }
  }

  /** Coordinator state, the nonces of the signers that have called Init, and the messages in
      flight from and to honest signers. */
  datatype Sys = Sys(coord: R.State, nonces: map<ID, NonceState>, requests: map<ID, R.SignRequest>, replies: map<ID, R.Reply>)

  datatype Action =
    | SignerInit(id: ID, next: NonceState)
    | SignerSign(id: ID, next: NonceState)
    | Deliver(id: ID)
    | Corrupt(reply: R.Reply)

  function Init(): Sys {
    Sys(R.Init(), map[], map[], map[])
  }

  predicate Enabled(env: Env, sys: Sys, a: Action) {
    match a
    case SignerInit(id, _) => id in env.secrets && id !in sys.nonces
    case SignerSign(id, _) => id in env.secrets && id in sys.requests && id in sys.nonces && Covers(sys.requests[id])
    case Deliver(id) => id in sys.replies
    case Corrupt(r) => r.from in env.cfg.pk.partyIDs && r.from !in env.secrets
  }

  /** Signer.Init */
  function InitSigner(sys: Sys, id: ID, n: NonceState): Sys {
    sys.(nonces := sys.nonces[id := n], replies := sys.replies[id := R.Reply(id, None, Commit(n))])
  }

  predicate Covers(req: R.SignRequest) {
    forall id <- req.signerSet :: id in req.preShares
  }

  /** Signer.Sign; an error leaves the nonces and sends nothing. */
  function SignSigner(env: Env, sys: Sys, id: ID, n: NonceState): Sys
    requires id in env.secrets && id in sys.requests && id in sys.nonces && Covers(sys.requests[id])
  {
    var req := sys.requests[id];
    var z := SignRound(env.cfg.suite, env.cfg.pk, id, env.secrets[id], sys.nonces[id], req.signerSet, req.preShares, env.cfg.message);
    if z.None? then sys.(requests := sys.requests - {id})
    else sys.(nonces := sys.nonces[id := n], requests := sys.requests - {id},
              replies := sys.replies[id := R.Reply(id, z, Commit(n))])
  }

  /** The coordinator's requests reach the honest members of the announced session. */
  function Announce(env: Env, requests: map<ID, R.SignRequest>, issued: seq<R.SignRequest>): map<ID, R.SignRequest> {
    if issued == [] then requests
    else requests + map id | id in env.secrets && id in issued[0].signerSet :: issued[0]
  }

  ghost function Handle(env: Env, sys: Sys, r: R.Reply): Sys
    requires R.Linked(sys.coord)
  {
    var o := R.Step(env.cfg, sys.coord, r);
    sys.(coord := o.state, requests := Announce(env, sys.requests, o.requests))
  }

  // ---------------------------------------------------------------------------
  // The joint invariant
  // ---------------------------------------------------------------------------

  /** Not yet started. */
  ghost predicate Unheard(sys: Sys, id: ID) {
    id !in sys.nonces && id !in sys.requests && id !in sys.replies && E.Fresh(sys.coord, id)
  }

  /** The first commitments are on their way. */
  ghost predicate Joining(sys: Sys, id: ID) {
    && id in sys.nonces && id !in sys.requests && E.Fresh(sys.coord, id)
    && id in sys.replies && sys.replies[id] == R.Reply(id, None, Commit(sys.nonces[id]))
  }

  /** The coordinator holds the commitments to the current nonces. */
  ghost predicate Waiting(sys: Sys, id: ID) {
    && id in sys.nonces && id !in sys.requests && id !in sys.replies
    && id in sys.coord.responsive && id !in sys.coord.malicious && id !in sys.coord.signerSID
    && id in sys.coord.preShares && sys.coord.preShares[id] == Commit(sys.nonces[id])
  }

  /** Pending in a session of the coordinator. */
  ghost predicate PendingIn(sys: Sys, id: ID, sid: nat) {
    && id in sys.nonces && id !in sys.coord.responsive && id !in sys.coord.malicious
    && id in sys.coord.signerSID && sys.coord.signerSID[id] == sid && sid in sys.coord.sessions
  }

  /** A request is on its way, made from the commitment to the current nonces. */
  ghost predicate Requested(sys: Sys, id: ID, sid: nat) {
    && PendingIn(sys, id, sid) && id in sys.requests && id !in sys.replies
    && var session := sys.coord.sessions[sid];
    && sys.requests[id].signerSet == session.signerSet && sys.requests[id].preShares == session.preShares
    && id in session.preShares && session.preShares[id] == Commit(sys.nonces[id])
  }

  /** A valid share is on its way, with the commitment to the next nonces. */
  ghost predicate Answered(cfg: R.Config, sys: Sys, id: ID, sid: nat) {
    && PendingIn(sys, id, sid) && id !in sys.requests
    && id in sys.replies && sys.replies[id].from == id && sys.replies[id].preShare == Commit(sys.nonces[id])
    && sys.replies[id].share.Some? && R.Accepts(cfg, sys.coord.sessions[sid], id, sys.replies[id].share.value)
  }

  ghost predicate HonestOK(cfg: R.Config, sys: Sys, id: ID) {
    || Unheard(sys, id) || Joining(sys, id) || Waiting(sys, id)
    || (exists sid :: Requested(sys, id, sid))
    || (exists sid :: Answered(cfg, sys, id, sid))
  }

  ghost predicate Inv(env: Env, sys: Sys) {
    && env.Valid() && R.Inv(env.cfg, sys.coord)
    && sys.replies.Keys <= env.Honest()
    && sys.coord.malicious !! env.Honest()
    && (!sys.coord.done ==> forall id :: id in env.secrets ==> HonestOK(env.cfg, sys, id))
  }

  /** Nothing about signer id differs between the two states except shares stored in its
      session. */
  ghost predicate SameFor(sys: Sys, sys': Sys, id: ID) {
    && (id in sys.nonces <==> id in sys'.nonces) && (id in sys.nonces ==> sys'.nonces[id] == sys.nonces[id])
    && (id in sys.requests <==> id in sys'.requests) && (id in sys.requests ==> sys'.requests[id] == sys.requests[id])
    && (id in sys.replies <==> id in sys'.replies) && (id in sys.replies ==> sys'.replies[id] == sys.replies[id])
  }

  /** Local actions of one signer do not disturb another. */
  lemma LocalFrame(cfg: R.Config, sys: Sys, sys': Sys, id: ID)
    requires sys'.coord == sys.coord && SameFor(sys, sys', id) && HonestOK(cfg, sys, id)
    ensures HonestOK(cfg, sys', id)
  {
    hide R.Accepts;
    if sid :| Requested(sys, id, sid) {
      assert Requested(sys', id, sid);
    } else if sid :| Answered(cfg, sys, id, sid) {
      assert Answered(cfg, sys', id, sid);
    }
  }

  lemma AcceptsKept(cfg: R.Config, s: R.Session, s': R.Session, id: ID, z: nat)
    requires s.(sigShares := map[]) == s'.(sigShares := map[])
    ensures R.Accepts(cfg, s, id, z) == R.Accepts(cfg, s', id, z)
  {
  }

  /** A pending or unheard signer is not disturbed by a call about somebody else. */
  lemma UntouchedFrame(cfg: R.Config, sys: Sys, sys': Sys, o: R.Outcome, id: ID)
    requires sys'.coord == o.state && E.Untouched(sys.coord, o, id) && E.SessionsKept(sys.coord, o.state)
    requires SameFor(sys, sys', id) && HonestOK(cfg, sys, id) && id !in sys.coord.responsive
    ensures HonestOK(cfg, sys', id)
  {
    hide R.Accepts;
    if sid :| Requested(sys, id, sid) {
      assert Requested(sys', id, sid);
    } else if sid :| Answered(cfg, sys, id, sid) {
      AcceptsKept(cfg, sys.coord.sessions[sid], sys'.coord.sessions[sid], id, sys.replies[id].share.value);
      assert Answered(cfg, sys', id, sid);
    }
  }

  /** A placed signer is waiting, or has its request. */
  lemma PlacedIsOK(env: Env, sys': Sys, o: R.Outcome, id: ID, requests: map<ID, R.SignRequest>)
    requires sys'.coord == o.state && id in env.secrets && id !in o.state.malicious
    requires id in sys'.nonces && id !in sys'.replies && E.Placed(o, id, Commit(sys'.nonces[id]))
    requires id !in requests && sys'.requests == Announce(env, requests, o.requests)
    ensures HonestOK(env.cfg, sys', id)
  {
    if o.requests != [] {
      assert Requested(sys', id, o.state.signerSID[id]);
    } else {
      assert Waiting(sys', id);
    }
  }

  /** Init puts a signer that has not started into the joining phase. */
  lemma InitSignerInv(env: Env, sys: Sys, id: ID, n: NonceState)
    requires Inv(env, sys) && Enabled(env, sys, SignerInit(id, n))
    ensures Inv(env, InitSigner(sys, id, n))
  {
    hide R.Inv;
    hide Env.Valid;
    hide HonestOK;
    var sys' := InitSigner(sys, id, n);
    if !sys.coord.done {
      forall j | j in env.secrets
        ensures HonestOK(env.cfg, sys', j)
      {
        if j == id {
          InitIsJoining(env.cfg, sys, id, n);
        } else {
          LocalFrame(env.cfg, sys, sys', j);
        }
      }
    }
  }

  lemma InitIsJoining(cfg: R.Config, sys: Sys, id: ID, n: NonceState)
    requires HonestOK(cfg, sys, id) && id !in sys.nonces
    ensures HonestOK(cfg, InitSigner(sys, id, n), id)
  {
    assert Joining(InitSigner(sys, id, n), id);
  }

  /** What a request in flight carries. */
  lemma RequestIsCurrent(env: Env, sys: Sys, id: ID) returns (sid: nat)
    requires Inv(env, sys) && !sys.coord.done && id in env.secrets && id in sys.requests
    ensures Requested(sys, id, sid) && Covers(sys.requests[id])
    ensures R.SessionOK(env.cfg, sid, sys.coord.sessions[sid])
  {
    hide R.SessionOK;
    assert HonestOK(env.cfg, sys, id);
    sid :| Requested(sys, id, sid);
    SessionCovers(env.cfg, sid, sys.coord.sessions[sid]);
  }

  lemma SessionCovers(cfg: R.Config, sid: nat, s: R.Session)
    requires R.SessionOK(cfg, sid, s)
    ensures forall id <- s.signerSet :: id in s.preShares
    ensures forall id <- s.preShares :: id in s.signerSet && id != 0
  {
  }

  /** The share an honest signer computes for its session is accepted there. */
  lemma HonestShareAccepted(env: Env, sid: nat, s: R.Session, id: ID, n: NonceState)
    requires env.Valid() && R.SessionOK(env.cfg, sid, s) && id in env.secrets
    requires id in s.preShares && s.preShares[id] == Commit(n) && forall id <- s.signerSet :: id in s.preShares
    ensures
      var z := SignRound(env.cfg.suite, env.cfg.pk, id, env.secrets[id], n, s.signerSet, s.preShares, env.cfg.message);
      z.Some? && R.Accepts(env.cfg, s, id, z.value)
  {
    SessionCovers(env.cfg, sid, s);
    SessionFields(env.cfg, sid, s);
    assert id in env.cfg.pk.shares;
    hide R.SessionOK;
    hide Env.Valid;
    hide ShareVal;
    hide SignRound;
    HonestShareValid(env.cfg.suite, env.cfg.pk, id, env.secrets[id], n, s.signerSet, s.preShares, env.cfg.message);
  }

  lemma SessionFields(cfg: R.Config, sid: nat, s: R.Session)
    requires R.SessionOK(cfg, sid, s) && forall id <- s.signerSet :: id in s.preShares
    ensures s.factors == Factors(cfg.suite, s.signerSet, s.preShares, cfg.message)
    ensures s.nonceShares == NonceShares(s.signerSet, s.preShares, s.factors)
    ensures s.aggregateNonce == AggregateNonce(s.signerSet, s.nonceShares)
    ensures s.challenge == Challenge(cfg.suite, s.aggregateNonce, cfg.pk.groupKey, cfg.message)
  {
  }

  /** Sign turns a request into a valid answer with fresh nonces. */
  lemma SignSignerInv(env: Env, sys: Sys, id: ID, n: NonceState)
    requires Inv(env, sys) && !sys.coord.done && Enabled(env, sys, SignerSign(id, n))
    ensures Covers(sys.requests[id]) && Inv(env, SignSigner(env, sys, id, n))
    ensures id !in sys.replies && SignSigner(env, sys, id, n).replies.Keys == sys.replies.Keys + {id}
  {
    hide R.SessionOK;
    hide R.Accepts;
    hide SignRound;
    hide R.Inv;
    hide Env.Valid;
    var sid := RequestIsCurrent(env, sys, id);
    HonestShareAccepted(env, sid, sys.coord.sessions[sid], id, sys.nonces[id]);
    var sys' := SignSigner(env, sys, id, n);
    assert Answered(env.cfg, sys', id, sid);
    forall j | j in env.secrets
      ensures HonestOK(env.cfg, sys', j)
    {
      if j != id {
        LocalFrame(env.cfg, sys, sys', j);
      }
    }
  }

  // ---------------------------------------------------------------------------
  // Calls of the coordinator
  // ---------------------------------------------------------------------------

  /** sys' is sys after the coordinator handled r; only the sender's own reply may be gone. */
  ghost predicate Handled(env: Env, sys: Sys, sys': Sys, r: R.Reply)
    requires R.Linked(sys.coord)
  {
    var o := R.Step(env.cfg, sys.coord, r);
    && sys'.coord == o.state && sys'.requests == Announce(env, sys.requests, o.requests)
    && sys'.nonces == sys.nonces
    && (sys'.replies == sys.replies - {r.from} || sys'.replies == sys.replies)
  }

  lemma WaitingHolds(cfg: R.Config, sys: Sys, id: ID)
    requires HonestOK(cfg, sys, id) && id in sys.coord.responsive
    ensures Waiting(sys, id)
  {
  }

  /** A call about one signer leaves every other honest signer in order. */
  lemma HandleOthers(env: Env, sys: Sys, sys': Sys, r: R.Reply, id: ID)
    requires Inv(env, sys) && !sys.coord.done && r.from in env.cfg.Parties()
    requires Handled(env, sys, sys', r) && !sys'.coord.done && id in env.secrets && id != r.from
    ensures HonestOK(env.cfg, sys', id) && id !in sys'.coord.malicious
  {
    hide R.Ledger.Inv;
    hide R.Crypto;
    hide R.BookOf;
    hide R.Config.Valid;
    hide R.Step;
    hide Env.Valid;
    hide E.Placed;
    hide E.SessionsKept;
    var o := R.Step(env.cfg, sys.coord, r);
    assert HonestOK(env.cfg, sys, id) && id !in sys.coord.malicious;
    OthersEffect(env.cfg, sys.coord, r, id);
    hide Inv;
    if id in sys.coord.responsive {
      WaitingHolds(env.cfg, sys, id);
      PlacedIsOK(env, sys', o, id, sys.requests);
    } else {
      hide HonestOK;
      assert SameFor(sys, sys', id);
      UntouchedFrame(env.cfg, sys, sys', o, id);
    }
  }

  /** What any call does to a signer other than the sender. */
  lemma OthersEffect(cfg: R.Config, s: R.State, r: R.Reply, j: ID)
    requires R.Inv(cfg, s) && !s.done && r.from in cfg.Parties() && j != r.from && j !in s.malicious
    requires !R.Step(cfg, s, r).state.done
    ensures
      var o := R.Step(cfg, s, r);
      && E.SessionsKept(s, o.state) && j !in o.state.malicious
      && (j in s.responsive ==> j in s.preShares && E.Placed(o, j, s.preShares[j]))
      && (j !in s.responsive ==> E.Untouched(s, o, j))
  {
    assert s.responsive <= s.preShares.Keys;
    if E.Fresh(s, r.from) {
      E.FreshEffect(cfg, s, r, j);
    } else if R.Counts(cfg, s, r) {
      E.CountsEffect(cfg, s, r, j);
    } else {
      E.RefusedEffect(cfg, s, r, j);
    }
    hide R.Inv;
    hide R.Step;
    hide E.Placed;
    hide R.Counts;
  }

  /** The reply of an honest signer is accepted: it becomes responsive again, joins a new
      session, or ends the run. */
  lemma HonestReplyAccepted(env: Env, sys: Sys, id: ID)
    requires Inv(env, sys) && !sys.coord.done && id in sys.replies
    ensures
      var r := sys.replies[id];
      var o := R.Step(env.cfg, sys.coord, r);
      && r.from == id && (E.Fresh(sys.coord, id) || R.Counts(env.cfg, sys.coord, r))
      && id in sys.nonces && id !in sys.requests
      && o.state.malicious == sys.coord.malicious
      && (o.state.done || E.Placed(o, id, Commit(sys.nonces[id])))
  {
    var r := sys.replies[id];
    assert HonestOK(env.cfg, sys, id) && id in env.cfg.Parties();
    ReplyPhase(env.cfg, sys, id);
    assert sys.coord.responsive <= sys.coord.preShares.Keys;
    hide R.Inv;
    hide R.Step;
    hide R.Accepts;
    hide Env.Valid;
    if E.Fresh(sys.coord, id) {
      E.FreshEffect(env.cfg, sys.coord, r, id);
    } else {
      E.CountsEffect(env.cfg, sys.coord, r, id);
    }
  }

  lemma ReplyPhase(cfg: R.Config, sys: Sys, id: ID)
    requires HonestOK(cfg, sys, id) && id in sys.replies && !sys.coord.done
    ensures sys.replies[id].from == id && id in sys.nonces && id !in sys.requests
    ensures sys.replies[id].preShare == Commit(sys.nonces[id])
    ensures E.Fresh(sys.coord, id) || R.Counts(cfg, sys.coord, sys.replies[id])
  {
    hide R.Accepts;
  }

  /** Delivering an honest reply keeps the invariant. */
  lemma DeliverInv(env: Env, sys: Sys, id: ID)
    requires Inv(env, sys) && id in sys.replies
    ensures Inv(env, Handle(env, sys, sys.replies[id]).(replies := sys.replies - {id}))
  {
    hide R.Step;
    hide R.Counts;
    hide HonestOK;
    hide E.Placed;
    hide E.Fresh;
    hide Announce;
    hide R.Ledger.Inv;
    hide R.Crypto;
    hide R.BookOf;
    var r := sys.replies[id];
    var sys' := Handle(env, sys, r).(replies := sys.replies - {id});
    if sys.coord.done {
      R.DoneStays(env.cfg, sys.coord, r);
    } else {
      HonestReplyAccepted(env, sys, id);
      R.StepInv(env.cfg, sys.coord, r);
      assert sys'.coord.malicious !! env.Honest();
      if !sys'.coord.done {
        DeliverHonest(env, sys, sys', id);
      }
    }
  }

  lemma DeliverHonest(env: Env, sys: Sys, sys': Sys, id: ID)
    requires Inv(env, sys) && !sys.coord.done && id in sys.replies
    requires sys' == Handle(env, sys, sys.replies[id]).(replies := sys.replies - {id}) && !sys'.coord.done
    ensures forall j :: j in env.secrets ==> HonestOK(env.cfg, sys', j)
  {
    hide R.Step;
    hide R.Counts;
    hide HonestOK;
    hide E.Placed;
    hide E.Fresh;
    hide Announce;
    hide R.Ledger.Inv;
    hide R.Crypto;
    hide R.BookOf;
    hide R.Config.Valid;
    hide R.Linked;
    var r := sys.replies[id];
    HonestReplyAccepted(env, sys, id);
    assert id in env.cfg.Parties() && Handled(env, sys, sys', r);
    forall j | j in env.secrets
      ensures HonestOK(env.cfg, sys', j)
    {
      if j == id {
        PlacedIsOK(env, sys', R.Step(env.cfg, sys.coord, r), id, sys.requests);
      } else {
        HandleOthers(env, sys, sys', r, j);
      }
    }
  }

  lemma StepBlamesSender(cfg: R.Config, s: R.State, r: R.Reply)
    requires R.Inv(cfg, s) && r.from in cfg.Parties()
    ensures R.Step(cfg, s, r).state.malicious <= s.malicious + {r.from}
  {
    if R.Counts(cfg, s, r) {
      E.CountsEffect(cfg, s, r, r.from);
    } else if !s.done && E.Fresh(s, r.from) {
      E.FreshEffect(cfg, s, r, r.from);
    } else {
      R.StepOtherwise(cfg, s, r);
    }
    hide R.Inv;
    hide R.Step;
    hide R.Rejoin;
    hide R.Counts;
  }

  /** So does any message of a corrupt party. */
  lemma CorruptInv(env: Env, sys: Sys, r: R.Reply)
    requires Inv(env, sys) && r.from in env.cfg.Parties() && r.from !in env.secrets
    ensures Inv(env, Handle(env, sys, r))
  {
    var sys' := Handle(env, sys, r);
    if sys.coord.done {
      R.DoneStays(env.cfg, sys.coord, r);
      return;
    }
    R.StepInv(env.cfg, sys.coord, r);
    StepBlamesSender(env.cfg, sys.coord, r);
    hide R.Inv;
    hide R.Step;
    hide Env.Valid;
    if !sys'.coord.done {
      forall j | j in env.secrets
        ensures HonestOK(env.cfg, sys', j)
      {
        HandleOthers(env, sys, sys', r, j);
      }
    }
  }

  // ---------------------------------------------------------------------------
  // Runs
  // ---------------------------------------------------------------------------

  ghost function Next(env: Env, sys: Sys, a: Action): Sys
    requires Inv(env, sys) && Enabled(env, sys, a)
  {
    match a
    case SignerInit(id, n) => InitSigner(sys, id, n)
    case SignerSign(id, n) => SignSigner(env, sys, id, n)
    case Deliver(id) => Handle(env, sys, sys.replies[id]).(replies := sys.replies - {id})
    case Corrupt(r) => Handle(env, sys, r)
  }

  lemma SignWhenDone(env: Env, sys: Sys, id: ID, n: NonceState)
    requires Inv(env, sys) && sys.coord.done && Enabled(env, sys, SignerSign(id, n))
    ensures Inv(env, SignSigner(env, sys, id, n))
  {
    hide R.Inv;
    hide SignRound;
  }

  lemma NextInv(env: Env, sys: Sys, a: Action)
    requires Inv(env, sys) && Enabled(env, sys, a)
    ensures Inv(env, Next(env, sys, a))
  {
    match a
    case SignerInit(id, n) => InitSignerInv(env, sys, id, n);
    case SignerSign(id, n) =>
      if sys.coord.done {
        SignWhenDone(env, sys, id, n);
      } else {
        SignSignerInv(env, sys, id, n);
      }
    case Deliver(id) => DeliverInv(env, sys, id);
    case Corrupt(r) =>
      assert r.from in env.cfg.Parties();
      CorruptInv(env, sys, r);
  }

  lemma InitInv(env: Env)
    requires env.Valid()
    ensures Inv(env, Init())
  {
    R.InitInv(env.cfg);
    hide R.Inv;
    forall id | id in env.secrets
      ensures HonestOK(env.cfg, Init(), id)
    {
      assert Unheard(Init(), id);
    }
  }

  /** The state after any sequence of actions; an action that is not possible does nothing. */
  ghost function Run(env: Env, acts: seq<Action>): (sys: Sys)
    requires env.Valid()
    ensures Inv(env, sys)
  {
    if acts == [] then InitInv(env); Init()
    else
      var sys, a := Run(env, acts[..|acts| - 1]), acts[|acts| - 1];
      if Enabled(env, sys, a) then NextInv(env, sys, a); Next(env, sys, a) else sys
  }

  /** An honest signer is never marked malicious, in any run. */
  lemma HonestNeverBlamed(env: Env, acts: seq<Action>)
    requires env.Valid()
    ensures Run(env, acts).coord.malicious !! env.Honest()
  {
  }

  predicate IsHonest(a: Action) {
    !a.Corrupt?
  }

  /** Some honest signer can act. */
  ghost predicate CanAct(env: Env, sys: Sys) {
    exists a: Action :: IsHonest(a) && Enabled(env, sys, a)
  }

  /** With t honest signers, an unfinished run is never stuck. */
  lemma NoDeadlock(env: Env, sys: Sys)
    requires Inv(env, sys) && |env.Honest()| >= env.cfg.t && !sys.coord.done
    ensures CanAct(env, sys)
  {
    R.LedgerFacts(env.cfg, sys.coord);
    hide *;
    var id := NotResponsive(env.Honest(), sys.coord.responsive);
    NonWaitingCanAct(env, sys, id);
  }

  lemma NotResponsive(a: set<ID>, b: set<ID>) returns (id: ID)
    requires |a| > |b|
    ensures id in a && id !in b
  {
    if a <= b {
      SubsetSize(a, b);
    }
    id :| id in a && id !in b;
  }

  lemma NonWaitingCanAct(env: Env, sys: Sys, id: ID)
    requires Inv(env, sys) && !sys.coord.done && id in env.Honest() && id !in sys.coord.responsive
    ensures CanAct(env, sys)
  {
    hide R.Inv;
    hide R.Accepts;
    hide R.SessionOK;
    hide Env.Valid;
    if id in sys.requests {
      var sid := RequestIsCurrent(env, sys, id);
      var a := SignerSign(id, sys.nonces[id]);
      assert IsHonest(a) && Enabled(env, sys, a);
    } else if id in sys.replies {
      var a := Deliver(id);
      assert IsHonest(a) && Enabled(env, sys, a);
    } else {
      assert HonestOK(env.cfg, sys, id);
      var a := SignerInit(id, NonceState(0, 0));
      assert IsHonest(a) && Enabled(env, sys, a);
    }
  }

  /** Every honest action of an unfinished run adds one to the potential, and no action of a
      corrupt party takes anything away. */
  ghost function Potential(sys: Sys): nat {
    2 * Ledger.Progress(R.BookOf(sys.coord)) + |sys.replies|
  }

  lemma CoordProgress(cfg: R.Config, s: R.State, r: R.Reply)
    requires R.Inv(cfg, s) && r.from in cfg.Parties()
    ensures Ledger.Progress(R.BookOf(R.Step(cfg, s, r).state)) == Ledger.Progress(R.BookOf(s)) +
      if !s.done && (E.Fresh(s, r.from) || R.Counts(cfg, s, r)) then 1 else 0
  {
    R.StepFollowsLedger(cfg, s, r);
    Ledger.StepProgress(cfg.Parties(), cfg.t, R.BookOf(s), r.from, R.Passes(cfg, s, r));
    hide R.Step;
    hide Ledger.Step;
    hide Ledger.Progress;
    hide Ledger.Inv;
    hide R.Crypto;
    hide R.Accepts;
    assert Ledger.Accepted(R.BookOf(s), r.from, R.Passes(cfg, s, r)) <==>
      !s.done && (E.Fresh(s, r.from) || R.Counts(cfg, s, r));
  }

  lemma NextPotential(env: Env, sys: Sys, a: Action)
    requires Inv(env, sys) && Enabled(env, sys, a) && !sys.coord.done
    ensures Potential(Next(env, sys, a)) >= Potential(sys) + if IsHonest(a) then 1 else 0
  {
    hide R.Inv;
    hide R.Step;
    hide Ledger.Progress;
    hide R.BookOf;
    hide Env.Valid;
    hide HonestOK;
    hide SignRound;
    hide E.Placed;
    hide R.Counts;
    match a
    case SignerInit(id, n) => InitNoReply(env, sys, id);
    case SignerSign(id, n) => SignSignerInv(env, sys, id, n);
    case Deliver(id) =>
      HonestReplyAccepted(env, sys, id);
      HonestIsParty(env, id);
      CoordProgress(env.cfg, sys.coord, sys.replies[id]);
      assert (sys.replies - {id}).Keys == sys.replies.Keys - {id};
    case Corrupt(r) =>
      assert r.from in env.cfg.Parties();
      CoordProgress(env.cfg, sys.coord, r);
  }

  lemma HonestIsParty(env: Env, id: ID)
    requires env.Valid() && id in env.secrets
    ensures id in env.cfg.Parties()
  {
  }

  lemma InitNoReply(env: Env, sys: Sys, id: ID)
    requires Inv(env, sys) && !sys.coord.done && id in env.secrets && id !in sys.nonces
    ensures id !in sys.replies
  {
    hide R.Inv;
    assert HonestOK(env.cfg, sys, id);
  }

  /** Honest actions taken before the run was finished. */
  ghost function HonestCount(env: Env, acts: seq<Action>): nat
    requires env.Valid()
  {
    if acts == [] then 0
    else
      var k := |acts| - 1;
      var sys, a := Run(env, acts[..k]), acts[k];
      HonestCount(env, acts[..k]) + if !sys.coord.done && IsHonest(a) && Enabled(env, sys, a) then 1 else 0
  }

  /** While unfinished, the potential bounds the number of honest actions. */
  lemma {:induction false} CountBelowPotential(env: Env, acts: seq<Action>)
    requires env.Valid()
    ensures !Run(env, acts).coord.done ==> HonestCount(env, acts) <= Potential(Run(env, acts))
  {
    hide R.Inv;
    hide Potential;
    hide Inv;
    if acts != [] {
      var k := |acts| - 1;
      CountBelowPotential(env, acts[..k]);
      var sys := Run(env, acts[..k]);
      if Enabled(env, sys, acts[k]) {
        if sys.coord.done {
          DoneForever(env, sys, acts[k]);
        } else {
          NextPotential(env, sys, acts[k]);
        }
      }
    }
  }

  lemma DoneForever(env: Env, sys: Sys, a: Action)
    requires Inv(env, sys) && sys.coord.done && Enabled(env, sys, a)
    ensures Next(env, sys, a).coord.done
  {
    hide R.Step;
    hide R.Crypto;
    hide R.Ledger.Inv;
    hide R.BookOf;
    match a
    case Deliver(id) => R.DoneStays(env.cfg, sys.coord, sys.replies[id]);
    case Corrupt(r) => R.DoneStays(env.cfg, sys.coord, r);
    case _ =>
  }

  /** What the potential can reach. */
  ghost function ActionBound(env: Env): nat
    requires env.cfg.t <= env.cfg.N()
  {
    2 * (env.cfg.N() + env.cfg.t * (env.cfg.N() - env.cfg.t + 1)) + |env.Honest()|
  }

  lemma PotentialAtMost(env: Env, sys: Sys)
    requires Inv(env, sys)
    ensures env.cfg.t <= env.cfg.N() && Potential(sys) <= ActionBound(env)
  {
    hide R.Crypto;
    hide R.Linked;
    hide R.BookOf;
    hide R.Ledger.Inv;
    hide R.Config.Valid;
    hide R.Config.Parties;
    hide Ledger.Progress;
    R.PartiesSize(env.cfg);
    Ledger.ProgressAtMost(env.cfg.Parties(), env.cfg.t, R.BookOf(sys.coord));
    SubsetSize(sys.replies.Keys, env.Honest());
  }

  /** In any run, however the corrupt parties and the network behave, the honest signers act
      at most `ActionBound` times before the coordinator has its signature. */
  lemma {:induction false} HonestActionsBounded(env: Env, acts: seq<Action>)
    requires env.Valid()
    ensures env.cfg.t <= env.cfg.N() && HonestCount(env, acts) <= ActionBound(env)
  {
    hide R.Inv;
    hide Potential;
    hide ActionBound;
    hide Inv;
    hide Env.Valid;
    PotentialAtMost(env, Run(env, acts));
    if acts != [] {
      var k := |acts| - 1;
      HonestActionsBounded(env, acts[..k]);
      CountBelowPotential(env, acts[..k]);
      var sys := Run(env, acts[..k]);
      if Enabled(env, sys, acts[k]) && !sys.coord.done {
        NextPotential(env, sys, acts[k]);
      }
    }
  }

  /** Robustness: with t honest signers, a run that leaves no honest action undone has ended
      with a signature that verifies under the group key. */
  lemma FairRunsFinish(env: Env, acts: seq<Action>)
    requires env.Valid() && |env.Honest()| >= env.cfg.t
    requires !CanAct(env, Run(env, acts))
    ensures
      var s := Run(env, acts).coord;
      && s.done && s.signature.Some?
      && Verify(env.cfg.suite, env.cfg.pk.groupKey, env.cfg.message, s.signature.value)
  {
    var sys := Run(env, acts);
    if !sys.coord.done {
      NoDeadlock(env, sys);
    }
    hide CanAct;
    hide Verify;
    hide R.BookOf;
  }
}
