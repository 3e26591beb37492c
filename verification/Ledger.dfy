/** The bookkeeping of the ROAST coordinator, without its cryptography: who is responsive,
    malicious or pending, and which session members have given a valid share.

    `Step` takes the sender of a reply and whether its share would pass the check, so a run is
    an arbitrary sequence of such pairs. Everything that the protocol promises by counting is
    proved here; Roast.dfy shows that the coordinator follows this ledger. */
module Ledger {
  import opened Party

  /** A session's signers and those of them whose share was accepted. */
  datatype Tally = Tally(signers: set<ID>, given: set<ID>)

  datatype Book = Book(
    responsive: set<ID>,
    malicious: set<ID>,
    pending: map<ID, nat>,
    sessions: map<nat, Tally>,
    counter: nat,
    done: bool)

  function Init(): Book {
    Book({}, {}, map[], map[], 0, false)
  }

  function Blame(b: Book, id: ID): Book {
    b.(malicious := b.malicious + {id}, responsive := b.responsive - {id}, pending := b.pending - {id})
  }

  function Give(b: Book, sid: nat, id: ID): Book
    requires sid in b.sessions
  {
    b.(sessions := b.sessions[sid := Tally(b.sessions[sid].signers, b.sessions[sid].given + {id})])
  }

  function Enlist(b: Book, id: ID): Book {
    b.(responsive := b.responsive + {id}, pending := b.pending - {id})
  }

  function AssignAll(ids: set<ID>, sid: nat): map<ID, nat> {
    map id | id in ids :: sid
  }

  function Start(b: Book): Book {
    var sid := b.counter + 1;
    b.(counter := sid,
       sessions := b.sessions[sid := Tally(b.responsive, {})],
       pending := b.pending + AssignAll(b.responsive, sid),
       responsive := {})
  }

  function Join(t: nat, b: Book, id: ID): Book {
    var b1 := Enlist(b, id);
    if |b1.responsive| >= t then Start(b1) else b1
  }

  /** One reply: `valid` says whether its share passes the check of the sender's session. */
  function Step(t: nat, b: Book, from: ID, valid: bool): Book {
    if b.done || from in b.malicious then b
    else if from in b.responsive then Blame(b, from)
    else if from in b.pending && b.pending[from] in b.sessions then
      var sid := b.pending[from];
      if !valid then Blame(b, from)
      else
        var b1 := Give(b, sid, from);
        if |b1.sessions[sid].given| == t then b1.(done := true) else Join(t, b1, from)
    else Join(t, b, from)
  }

  // ---------------------------------------------------------------------------
  // The invariant
  // ---------------------------------------------------------------------------

  /** Signer id is in session sid and has not given a valid share there. */
  predicate Owes(b: Book, sid: nat, id: ID) {
    sid in b.sessions && id in b.sessions[sid].signers && id !in b.sessions[sid].given
  }

  predicate SetsOK(P: set<ID>, b: Book) {
    && b.responsive <= P && b.malicious <= P && b.pending.Keys <= P
    && b.responsive !! b.malicious && b.responsive !! b.pending.Keys && b.malicious !! b.pending.Keys
  }

  predicate TallyOK(P: set<ID>, t: nat, y: Tally) {
    y.signers <= P && |y.signers| == t && y.given <= y.signers
  }

  ghost predicate SessionsOK(P: set<ID>, t: nat, b: Book) {
    && (forall sid :: sid in b.sessions <==> 1 <= sid <= b.counter)
    && (forall sid :: sid in b.sessions ==> TallyOK(P, t, b.sessions[sid]))
  }

  /** A signer owes a share to at most one session. */
  ghost predicate OwesOne(b: Book) {
    forall id, sid, sid' :: Owes(b, sid, id) && Owes(b, sid', id) ==> sid == sid'
  }

  /** Pending means owing a share without being malicious. */
  ghost predicate PendingOK(b: Book) {
    && (forall id :: id in b.pending ==> Owes(b, b.pending[id], id))
    && (forall id, sid :: Owes(b, sid, id) && id !in b.malicious ==> id in b.pending && b.pending[id] == sid)
  }

  /** No session is complete. */
  ghost predicate AllOpen(t: nat, b: Book) {
    forall sid :: sid in b.sessions ==> |b.sessions[sid].given| < t
  }

  ghost predicate Core(P: set<ID>, t: nat, b: Book) {
    && 1 <= t <= |P|
    && SetsOK(P, b) && SessionsOK(P, t, b) && OwesOne(b)
    && (!b.done ==> PendingOK(b) && AllOpen(t, b))
  }

  ghost predicate Inv(P: set<ID>, t: nat, b: Book) {
    && Core(P, t, b)
    && |b.responsive| < t
    && b.counter <= |P| - t + 1
  }

  lemma InitInv(P: set<ID>, t: nat)
    requires 1 <= t <= |P|
    ensures Inv(P, t, Init())
  {
  }

  lemma DisjointFit<T>(a: set<T>, b: set<T>, c: set<T>)
    requires a <= c && b <= c && a !! b
    ensures |a| + |b| <= |c|
  {
    SubsetSize(a + b, c);
    assert |a + b| == |a| + |b|;
  }

  lemma BlameInv(P: set<ID>, t: nat, b: Book, id: ID)
    requires Inv(P, t, b) && !b.done && id in P
    ensures Inv(P, t, Blame(b, id))
  {
    var b' := Blame(b, id);
    assert forall sid, j :: Owes(b', sid, j) <==> Owes(b, sid, j);
    SubsetSize(b'.responsive, b.responsive);
  }

  lemma GiveOwes(b: Book, sid: nat, id: ID)
    requires sid in b.sessions
    ensures forall k, j :: Owes(Give(b, sid, id), k, j) <==> Owes(b, k, j) && !(k == sid && j == id)
  {
  }

  lemma GiveCore(P: set<ID>, t: nat, b: Book, id: ID)
    requires Inv(P, t, b) && !b.done && id in b.pending
    ensures
      var sid := b.pending[id];
      var b' := Give(b, sid, id);
      && SetsOK(P, b') && SessionsOK(P, t, b') && OwesOne(b')
      && |b'.sessions[sid].given| == |b.sessions[sid].given| + 1
  {
    assert Owes(b, b.pending[id], id);
    GiveOwes(b, b.pending[id], id);
  }

  /** The state in which a signer without debts is about to be enlisted. */
  ghost predicate Ready(P: set<ID>, t: nat, b: Book, id: ID) {
    && 1 <= t <= |P| && SetsOK(P, b) && SessionsOK(P, t, b) && OwesOne(b) && AllOpen(t, b)
    && !b.done && |b.responsive| < t && b.counter <= |P| - t + 1
    && id in P && id !in b.responsive && id !in b.malicious
    && (forall j :: j in b.pending && j != id ==> Owes(b, b.pending[j], j))
    && (forall j, sid :: Owes(b, sid, j) && j !in b.malicious ==> j != id && j in b.pending && b.pending[j] == sid)
  }

  lemma EnlistCore(P: set<ID>, t: nat, b: Book, id: ID)
    requires Ready(P, t, b, id)
    ensures Core(P, t, Enlist(b, id)) && |Enlist(b, id).responsive| == |b.responsive| + 1
  {
    assert forall sid, j :: Owes(Enlist(b, id), sid, j) <==> Owes(b, sid, j);
  }

  /** Every unfinished session has a signer that is stuck there and not responsive. */
  lemma StuckSigner(P: set<ID>, t: nat, b: Book, sid: nat) returns (id: ID)
    requires Core(P, t, b) && !b.done && sid in b.sessions
    ensures Owes(b, sid, id) && id in P && id !in b.responsive
  {
    var y := b.sessions[sid];
    assert TallyOK(P, t, y);
    assert y.given != y.signers;
    id :| id in y.signers && id !in y.given;
    assert Owes(b, sid, id);
  }

  /** The stuck signers of different sessions are different. */
  lemma {:induction false} StuckSigners(P: set<ID>, t: nat, b: Book, k: nat) returns (stuck: set<ID>)
    requires Core(P, t, b) && !b.done && k <= b.counter
    ensures |stuck| == k && stuck <= P && stuck !! b.responsive
    ensures forall id <- stuck :: exists sid: nat :: sid <= k && Owes(b, sid, id)
  {
    if k == 0 {
      stuck := {};
    } else {
      var rest := StuckSigners(P, t, b, k - 1);
      var id := StuckSigner(P, t, b, k);
      assert id !in rest;
      stuck := rest + {id};
    }
  }

  /** So unfinished sessions and responsive signers together fit into the parties. */
  lemma RoomForSessions(P: set<ID>, t: nat, b: Book)
    requires Core(P, t, b) && !b.done
    ensures b.counter + |b.responsive| <= |P|
  {
    var stuck := StuckSigners(P, t, b, b.counter);
    DisjointFit(stuck, b.responsive, P);
  }

  lemma StartInv(P: set<ID>, t: nat, b: Book)
    requires Core(P, t, b) && !b.done && |b.responsive| == t
    ensures Inv(P, t, Start(b))
    ensures |b.malicious| <= |P| - t
  {
    RoomForSessions(P, t, b);
    var b' := Start(b);
    StartOwes(P, t, b);
    assert forall k :: k in b'.sessions ==> k == b.counter + 1 || k in b.sessions;
    DisjointFit(b.malicious, b.responsive, P);
  }

  lemma StartOwes(P: set<ID>, t: nat, b: Book)
    requires SessionsOK(P, t, b)
    ensures forall k, j :: Owes(Start(b), k, j) <==> Owes(b, k, j) || (k == b.counter + 1 && j in b.responsive)
  {
  }

  lemma JoinInv(P: set<ID>, t: nat, b: Book, id: ID)
    requires Ready(P, t, b, id)
    ensures Inv(P, t, Join(t, b, id)) && !Join(t, b, id).done
  {
    EnlistCore(P, t, b, id);
    if |Enlist(b, id).responsive| >= t {
      StartInv(P, t, Enlist(b, id));
    }
  }

  lemma ReadyFresh(P: set<ID>, t: nat, b: Book, id: ID)
    requires Inv(P, t, b) && !b.done && id in P
    requires id !in b.responsive && id !in b.malicious && id !in b.pending
    ensures Ready(P, t, b, id)
  {
  }

  lemma ReadyGiven(P: set<ID>, t: nat, b: Book, id: ID)
    requires Inv(P, t, b) && !b.done && id in b.pending
    requires |b.sessions[b.pending[id]].given| + 1 != t
    ensures Ready(P, t, Give(b, b.pending[id], id), id)
  {
    GiveCore(P, t, b, id);
    GiveOwes(b, b.pending[id], id);
  }

  /** Every reply keeps the invariant. */
  lemma StepInv(P: set<ID>, t: nat, b: Book, from: ID, valid: bool)
    requires Inv(P, t, b) && from in P
    ensures Inv(P, t, Step(t, b, from, valid))
  {
    if b.done || from in b.malicious {
    } else if from in b.responsive {
      BlameInv(P, t, b, from);
    } else if from in b.pending {
      var sid := b.pending[from];
      assert Owes(b, sid, from);
      if !valid {
        BlameInv(P, t, b, from);
      } else {
        GiveCore(P, t, b, from);
        if |b.sessions[sid].given| + 1 == t {
          var b1 := Give(b, sid, from);
          assert forall k, j :: Owes(b1.(done := true), k, j) <==> Owes(b1, k, j);
        } else {
          ReadyGiven(P, t, b, from);
          JoinInv(P, t, Give(b, sid, from), from);
        }
      }
    } else {
      ReadyFresh(P, t, b, from);
      JoinInv(P, t, b, from);
    }
  }

  // ---------------------------------------------------------------------------
  // Runs
  // ---------------------------------------------------------------------------

  datatype Event = Event(from: ID, valid: bool)

  /** es drives the ledger through bs, from its initial state; any party may send anything. */
  ghost predicate IsRun(P: set<ID>, t: nat, es: seq<Event>, bs: seq<Book>) {
    && |bs| == |es| + 1 && bs[0] == Init()
    && forall i :: 0 <= i < |es| ==> es[i].from in P && bs[i + 1] == Step(t, bs[i], es[i].from, es[i].valid)
  }

  lemma {:induction false} RunInv(P: set<ID>, t: nat, es: seq<Event>, bs: seq<Book>, k: nat)
    requires 1 <= t <= |P| && IsRun(P, t, es, bs) && k <= |es|
    ensures Inv(P, t, bs[k])
  {
    if k == 0 {
      InitInv(P, t);
    } else {
      RunInv(P, t, es, bs, k - 1);
      StepInv(P, t, bs[k - 1], es[k - 1].from, es[k - 1].valid);
    }
  }

  /** Every run starts at most n - t + 1 sessions. */
  lemma SessionBound(P: set<ID>, t: nat, es: seq<Event>, bs: seq<Book>)
    requires 1 <= t <= |P| && IsRun(P, t, es, bs)
    ensures forall k :: 0 <= k <= |es| ==> bs[k].counter <= |P| - t + 1
  {
    forall k | 0 <= k <= |es|
      ensures bs[k].counter <= |P| - t + 1
    {
      RunInv(P, t, es, bs, k);
    }
  }

  /** While no honest signer is asked for a share, every session started so far has its own
      faulty signer: with f of them, at most one more session can start. */
  lemma SessionsNeedFaults(P: set<ID>, t: nat, b: Book, faulty: set<ID>)
    requires Inv(P, t, b) && !b.done && b.malicious + b.pending.Keys <= faulty
    ensures b.counter <= |faulty|
  {
    var stuck := StuckSigners(P, t, b, b.counter);
    forall id | id in stuck
      ensures id in faulty
    {
      var sid: nat :| sid <= b.counter && Owes(b, sid, id);
    }
    SubsetSize(stuck, faulty);
  }

  /** A reply that makes its sender responsive, starts a session or ends the run. */
  predicate Accepted(b: Book, from: ID, valid: bool) {
    && !b.done && from !in b.malicious && from !in b.responsive
    && (from in b.pending ==> valid)
  }

  /** Everybody the coordinator has heard from. */
  function Heard(b: Book): set<ID> {
    b.responsive + b.malicious + b.pending.Keys
  }

  /** Shares accepted in the sessions 1 to k. */
  function Given(sessions: map<nat, Tally>, k: nat): nat {
    if k == 0 then 0 else Given(sessions, k - 1) + if k in sessions then |sessions[k].given| else 0
  }

  function Progress(b: Book): nat {
    |Heard(b)| + Given(b.sessions, b.counter)
  }

  lemma {:induction false} GivenUpdate(m: map<nat, Tally>, sid: nat, y: Tally, k: nat)
    ensures Given(m[sid := y], k)
         == Given(m, k) + if 1 <= sid <= k then |y.given| - (if sid in m then |m[sid].given| else 0) else 0
  {
    if k > 0 {
      GivenUpdate(m, sid, y, k - 1);
    }
  }

  lemma {:induction false} GivenAtMost(P: set<ID>, t: nat, b: Book, k: nat)
    requires SessionsOK(P, t, b)
    ensures Given(b.sessions, k) <= t * k
  {
    if k > 0 {
      GivenAtMost(P, t, b, k - 1);
      if k in b.sessions {
        assert TallyOK(P, t, b.sessions[k]);
        SubsetSize(b.sessions[k].given, b.sessions[k].signers);
      }
      assert t * k == t * (k - 1) + t;
    }
  }

  lemma StartGiven(b: Book)
    requires b.counter + 1 !in b.sessions
    ensures var b' := Start(b); Given(b'.sessions, b'.counter) == Given(b.sessions, b.counter)
  {
    GivenUpdate(b.sessions, b.counter + 1, Tally(b.responsive, {}), b.counter);
    GivenUpdate(b.sessions, b.counter + 1, Tally(b.responsive, {}), b.counter + 1);
  }

  /** Joining makes a newcomer heard ... */
  lemma JoinHeard(t: nat, b: Book, id: ID)
    ensures Heard(Join(t, b, id)) == Heard(b) + {id}
  {
  }

  /** ... and leaves the accepted shares alone. */
  lemma JoinGiven(t: nat, b: Book, id: ID)
    requires b.counter + 1 !in b.sessions
    ensures var b' := Join(t, b, id); Given(b'.sessions, b'.counter) == Given(b.sessions, b.counter)
  {
    hide Start;
    StartGiven(Enlist(b, id));
  }

  lemma GiveProgress(P: set<ID>, t: nat, b: Book, id: ID)
    requires Inv(P, t, b) && !b.done && id in b.pending
    ensures
      var b' := Give(b, b.pending[id], id);
      Heard(b') == Heard(b) && Given(b'.sessions, b'.counter) == Given(b.sessions, b.counter) + 1
  {
    var sid := b.pending[id];
    assert Owes(b, sid, id);
    var y := b.sessions[sid];
    GivenUpdate(b.sessions, sid, Tally(y.signers, y.given + {id}), b.counter);
  }

  lemma BlameProgress(b: Book, id: ID)
    requires id in Heard(b)
    ensures Progress(Blame(b, id)) == Progress(b)
  {
    hide Heard;
    BlameHeard(b, id);
  }

  lemma BlameHeard(b: Book, id: ID)
    requires id in Heard(b)
    ensures Heard(Blame(b, id)) == Heard(b)
  {
  }

  lemma JoinProgress(t: nat, b: Book, id: ID)
    requires b.counter + 1 !in b.sessions
    ensures Progress(Join(t, b, id)) == Progress(b) + if id in Heard(b) then 0 else 1
  {
    hide Join;
    hide Heard;
    JoinHeard(t, b, id);
    JoinGiven(t, b, id);
    if id in Heard(b) {
      assert Heard(b) + {id} == Heard(b);
    }
  }

  lemma GivenProgress(P: set<ID>, t: nat, b: Book, id: ID)
    requires Inv(P, t, b) && !b.done && id in b.pending
    ensures
      var b' := Give(b, b.pending[id], id);
      && Progress(b') == Progress(b) + 1 && Progress(b'.(done := true)) == Progress(b) + 1
      && id in Heard(b') && b'.counter + 1 !in b'.sessions
  {
    GiveProgress(P, t, b, id);
    var b' := Give(b, b.pending[id], id);
    assert Heard(b'.(done := true)) == Heard(b');
  }

  /** An accepted reply raises the progress by one and a rejected one keeps it. */
  lemma StepProgress(P: set<ID>, t: nat, b: Book, from: ID, valid: bool)
    requires Inv(P, t, b) && from in P
    ensures Progress(Step(t, b, from, valid)) == Progress(b) + if Accepted(b, from, valid) then 1 else 0
  {
    hide Progress;
    hide Join;
    hide Blame;
    hide Give;
    if b.done || from in b.malicious {
    } else if from in b.responsive {
      BlameProgress(b, from);
    } else if from in b.pending {
      assert Owes(b, b.pending[from], from);
      if !valid {
        BlameProgress(b, from);
      } else {
        GivenProgress(P, t, b, from);
        JoinProgress(t, Give(b, b.pending[from], from), from);
      }
    } else {
      JoinProgress(t, b, from);
    }
  }

  lemma ProgressAtMost(P: set<ID>, t: nat, b: Book)
    requires Inv(P, t, b)
    ensures Progress(b) <= |P| + t * (|P| - t + 1)
  {
    hide OwesOne;
    hide AllOpen;
    hide PendingOK;
    hide Given;
    SubsetSize(Heard(b), P);
    GivenAtMost(P, t, b, b.counter);
    MulMonotone(t, b.counter, |P| - t + 1);
  }

  lemma MulMonotone(t: nat, a: int, b: int)
    requires a <= b
    ensures t * a <= t * b
  {
  }

  function AcceptedCount(es: seq<Event>, bs: seq<Book>): nat
    requires |bs| == |es| + 1
  {
    if es == [] then 0
    else
      var k := |es| - 1;
      AcceptedCount(es[..k], bs[..k + 1]) + if Accepted(bs[k], es[k].from, es[k].valid) then 1 else 0
  }

  lemma {:induction false} AcceptedIsProgress(P: set<ID>, t: nat, es: seq<Event>, bs: seq<Book>)
    requires 1 <= t <= |P| && IsRun(P, t, es, bs)
    ensures AcceptedCount(es, bs) == Progress(bs[|es|])
  {
    hide Inv;
    hide Step;
    hide Accepted;
    if es != [] {
      var k := |es| - 1;
      AcceptedIsProgress(P, t, es[..k], bs[..k + 1]);
      RunInv(P, t, es, bs, k);
      StepProgress(P, t, bs[k], es[k].from, es[k].valid);
    } else {
      assert Heard(Init()) == {};
    }
  }

  /** Every run accepts at most n + t * (n - t + 1) replies. */
  lemma AcceptedBound(P: set<ID>, t: nat, es: seq<Event>, bs: seq<Book>)
    requires 1 <= t <= |P| && IsRun(P, t, es, bs)
    ensures AcceptedCount(es, bs) <= |P| + t * (|P| - t + 1)
  {
    AcceptedIsProgress(P, t, es, bs);
    RunInv(P, t, es, bs, |es|);
    ProgressAtMost(P, t, bs[|es|]);
  }
}
