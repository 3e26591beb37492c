/** The driver of a round-based protocol: it collects the messages of the current round, queues
    those of later rounds and moves on when everybody has been heard. Proved for every mix of
    messages, processing attempts and timeouts: what is stored and queued always fits the
    round, and rounds 0, 1 and 2 each process exactly one message of every other party before
    their one generate step. */
module RoundState {
  import opened PrimeField
  import opened Group
  import opened Party
  import opened Frost
  import opened SignRounds
  import opened Messages
  import opened Sums

  datatype Reason = Timeout | IdentityCommitment | InvalidShare | InvalidSignature

  datatype Failure = Failure(culprit: ID, round: nat, reason: Reason)

  /** What HandleMessage did with a message. */
  datatype Handled =
    | Stored | Queued
    | FromSelf | NotForUs
    | Finished | NoMoreTypes | NotAParty | AlreadyReceived | WrongType

  /** What ProcessAll did, in order. */
  datatype Entry = Processed(round: nat, from: ID) | Generated(round: nat)

  const AllTypes: seq<Byte> := [TypeNone, TypeSign1, TypeSign2]

  ghost function Others(job: Job): set<ID> {
    Members(job.ids) - {job.self}
  }

  // ---------------------------------------------------------------------------
  // What fits round k
  // ---------------------------------------------------------------------------

  /** A stored message: a placeholder in round 0, else the sender's message of this type. */
  predicate Fits(q: Modulus, k: nat, id: ID, m: Option<Message>) {
    if k == 0 then m == None else m.Some? && m.value.from == id && m.value.typ == k && ScalarReduced(q, m.value)
  }

  ghost predicate ReceivedOK(job: Job, k: nat, received: map<ID, Option<Message>>) {
    && received.Keys <= Others(job)
    && (k == 0 ==> received.Keys == Others(job))
    && forall id :: id in received ==> Fits(job.suite.q, k, id, received[id])
  }

  /** A queued message: from another party, of a strictly later type. */
  ghost predicate Later(job: Job, k: nat, m: Message) {
    m.from in Others(job) && k < m.typ <= 2 && ScalarReduced(job.suite.q, m)
  }

  ghost predicate QueueOK(job: Job, k: nat, queue: seq<Message>) {
    (k == 0 ==> queue == []) && AllLater(job, k, queue)
  }

  ghost predicate AllLater(job: Job, k: nat, queue: seq<Message>) {
    forall i :: 0 <= i < |queue| ==> Later(job, k, queue[i])
  }

  /** The data of the round, with the messages of the parties in `given` processed. No
      commitment that was processed is the identity. */
  ghost predicate RoundOK(job: Job, k: nat, round: Round, view: map<ID, PreShare>, given: set<ID>) {
    match k
    case 0 => Base(job, round)
    case 1 => Committed(job, round) && NoIdentity(job.suite.q, View(round.parties), given)
    case 2 => Sharing(job, round, view, {job.self} + given) && NoIdentity(job.suite.q, view, Others(job))
    case _ => false
  }

  // ---------------------------------------------------------------------------
  // The log
  // ---------------------------------------------------------------------------

  /** One message of every other party in some order, then the generate step. */
  ghost predicate IsRoundLog(others: set<ID>, k: nat, log: seq<Entry>) {
    && |log| == |others| + 1 && log[|others|] == Generated(k)
    && (forall i :: 0 <= i < |others| ==> log[i].Processed? && log[i].round == k && log[i].from in others)
    && (forall id :: id in others ==> Processed(k, id) in log)
  }

  /** Complete logs of the rounds below k, one after the other. */
  ghost predicate RoundsLogged(others: set<ID>, k: nat, log: seq<Entry>) {
    if k == 0 then log == []
    else
      && |log| > |others|
      && RoundsLogged(others, k - 1, log[..|log| - |others| - 1])
      && IsRoundLog(others, k - 1, log[|log| - |others| - 1..])
  }

  lemma LogRound(others: set<ID>, k: nat, log: seq<Entry>, part: seq<Entry>)
    requires RoundsLogged(others, k, log) && IsRoundLog(others, k, part)
    ensures RoundsLogged(others, k + 1, log + part)
  {
  }

  /** Entries for the parties processed so far in round k. */
  ghost predicate PartLog(k: nat, done: set<ID>, part: seq<Entry>) {
    && |part| == |done|
    && (forall i :: 0 <= i < |part| ==> part[i].Processed? && part[i].round == k && part[i].from in done)
    && (forall id :: id in done ==> Processed(k, id) in part)
  }

  lemma PartNext(k: nat, done: set<ID>, part: seq<Entry>, id: ID)
    requires PartLog(k, done, part) && id !in done
    ensures PartLog(k, done + {id}, part + [Processed(k, id)])
  {
  }

  lemma PartComplete(k: nat, others: set<ID>, part: seq<Entry>)
    requires PartLog(k, others, part)
    ensures IsRoundLog(others, k, part + [Generated(k)])
  {
  }

  // ---------------------------------------------------------------------------
  // The queue
  // ---------------------------------------------------------------------------

  /** The messages that stay queued. */
  function Rest(queue: seq<Message>, typ: Byte): seq<Message> {
    if queue == [] then []
    else
      var k := |queue| - 1;
      if queue[k].typ == typ then Rest(queue[..k], typ) else Rest(queue[..k], typ) + [queue[k]]
  }

  /** The messages that move to the current round; a later one of the same sender wins. */
  function Moved(queue: seq<Message>, typ: Byte): map<ID, Option<Message>> {
    if queue == [] then map[]
    else
      var k := |queue| - 1;
      if queue[k].typ == typ then Moved(queue[..k], typ)[queue[k].from := Some(queue[k])] else Moved(queue[..k], typ)
  }

  /** What stays is what is not moved, in the same order and as often. */
  lemma {:induction false} RestConcat(a: seq<Message>, b: seq<Message>, typ: Byte)
    ensures Rest(a + b, typ) == Rest(a, typ) + Rest(b, typ)
  {
    if b == [] {
      assert a + b == a;
    } else {
      assert (a + b)[..|a + b| - 1] == a + b[..|b| - 1];
      RestConcat(a, b[..|b| - 1], typ);
    }
  }

  lemma RestOne(m: Message, typ: Byte)
    ensures Rest([m], typ) == if m.typ == typ then [] else [m]
  {
  }

  lemma {:induction false} RestMembers(queue: seq<Message>, typ: Byte, m: Message)
    ensures m in Rest(queue, typ) <==> m in queue && m.typ != typ
  {
    if queue != [] {
      RestMembers(queue[..|queue| - 1], typ, m);
      assert queue == queue[..|queue| - 1] + [queue[|queue| - 1]];
    }
  }

  predicate IsFrom(m: Message, typ: Byte, id: ID) {
    m.typ == typ && m.from == id
  }

  /** queue[i] is the last message of this type from id. */
  predicate LastFrom(queue: seq<Message>, typ: Byte, id: ID, i: nat) {
    i < |queue| && IsFrom(queue[i], typ, id) && forall j :: i < j < |queue| ==> !IsFrom(queue[j], typ, id)
  }

  /** What moves to the round of a type: the last queued message of every sender of that type,
      and nothing for the others. */
  lemma {:induction false} MovedExactly(queue: seq<Message>, typ: Byte, id: ID) returns (i: nat)
    ensures
      if id in Moved(queue, typ) then LastFrom(queue, typ, id, i) && Moved(queue, typ)[id] == Some(queue[i])
      else forall j :: 0 <= j < |queue| ==> !IsFrom(queue[j], typ, id)
  {
    i := 0;
    if queue != [] {
      var k := |queue| - 1;
      var init, last := queue[..k], queue[k];
      i := MovedExactly(init, typ, id);
      MovedLast(queue, typ, id);
      hide Moved;
      hide IsFrom;
      assert queue == init + [last];
      if IsFrom(last, typ, id) {
        i := k;
      }
    }
  }

  lemma MovedLast(queue: seq<Message>, typ: Byte, id: ID)
    requires queue != []
    ensures
      var k := |queue| - 1;
      if IsFrom(queue[k], typ, id) then id in Moved(queue, typ) && Moved(queue, typ)[id] == Some(queue[k])
      else
        && (id in Moved(queue, typ) <==> id in Moved(queue[..k], typ))
        && (id in Moved(queue, typ) ==> Moved(queue, typ)[id] == Moved(queue[..k], typ)[id])
  {
  }

  /** The compaction in place: messages that stay are written over the ones already read. */
  method Compact(queue: array<Message>, typ: Byte) returns (n: nat, received: map<ID, Option<Message>>)
    modifies queue
    ensures n <= queue.Length && queue[..n] == Rest(old(queue[..]), typ)
    ensures received == Moved(old(queue[..]), typ)
  {
    ghost var was := queue[..];
    n, received := 0, map[];
    for i := 0 to queue.Length
      invariant n <= i && queue[..n] == Rest(was[..i], typ)
      invariant queue[i..] == was[i..]
      invariant received == Moved(was[..i], typ)
    {
      assert was[..i + 1][..i] == was[..i] && queue[i] == was[i..][0];
      var msg := queue[i];
      if msg.typ == typ {
        received := received[msg.from := Some(msg)];
      } else {
        queue[n] := msg;
        n := n + 1;
      }
    }
    assert was[..queue.Length] == was;
  }

  lemma {:induction false} RestFits(job: Job, k: nat, queue: seq<Message>)
    requires k < 2 && AllLater(job, k, queue)
    ensures AllLater(job, k + 1, Rest(queue, k + 1))
  {
    if queue != [] {
      RestFits(job, k, queue[..|queue| - 1]);
    }
  }

  lemma {:induction false} MovedFits(job: Job, k: nat, queue: seq<Message>)
    requires k < 2 && AllLater(job, k, queue)
    ensures ReceivedOK(job, k + 1, Moved(queue, k + 1))
  {
    if queue != [] {
      MovedFits(job, k, queue[..|queue| - 1]);
    }
  }

  // ---------------------------------------------------------------------------
  // The rounds as the driver calls them
  // ---------------------------------------------------------------------------

  /** How ProcessMessage takes a stored message: a payload that is not there is dereferenced. */
  datatype Verdict = Fine | Refused | Missing

  predicate Loaded(k: nat, m: Option<Message>) {
    && (k == 1 ==> m.Some? && m.value.sign1.Some?)
    && (k == 2 ==> m.Some? && m.value.sign2.Some?)
  }

  /** ProcessMessage of round k; None is an error of the sender. */
  function Process(q: Modulus, k: nat, round: Round, id: ID, m: Option<Message>): (r: Option<Round>)
    requires id in round.parties && Loaded(k, m)
    ensures r.Some? ==> r.value.parties.Keys == round.parties.Keys
  {
    if k == 1 then WithCommitment(q, round, id, m.value.sign1.value)
    else if k == 2 then WithResponse(q, round, id, m.value.sign2.value)
    else Some(round)
  }

  function Judge(q: Modulus, k: nat, round: Round, id: ID, m: Option<Message>): Verdict
    requires id in round.parties
  {
    if !Loaded(k, m) then Missing
    else if Process(q, k, round, id, m).None? then Refused
    else Fine
  }

  /** What a loop over all stored messages comes to. */
  datatype ScanResult = Passed(round: Round) | Stopped(at: ID, verdict: Verdict)

  /** The loop over the stored messages in the given order. */
  function Scan(q: Modulus, k: nat, round: Round, received: map<ID, Option<Message>>, order: seq<ID>): ScanResult
    requires forall id <- order :: id in received && id in round.parties
    decreases |order|
  {
    if order == [] then Passed(round)
    else
      var id := order[0];
      var v := Judge(q, k, round, id, received[id]);
      if v == Fine then Scan(q, k, Process(q, k, round, id, received[id]).value, received, order[1..]) else Stopped(id, v)
  }

  /** order[i] is the first message in the order that is not fine. */
  predicate FirstBad(q: Modulus, k: nat, round: Round, received: map<ID, Option<Message>>, order: seq<ID>, i: nat)
    requires forall id <- order :: id in received && id in round.parties
  {
    && i < |order| && Judge(q, k, round, order[i], received[order[i]]) != Fine
    && forall j :: 0 <= j < i ==> Judge(q, k, round, order[j], received[order[j]]) == Fine
  }

  /** The first message that is not fine has this verdict. */
  predicate ScanMeets(q: Modulus, k: nat, round: Round, received: map<ID, Option<Message>>, order: seq<ID>, v: Verdict)
    requires forall id <- order :: id in received && id in round.parties
  {
    exists i: nat :: i < |order| && FirstBad(q, k, round, received, order, i) && Judge(q, k, round, order[i], received[order[i]]) == v
  }

  /** The first message that is not fine is from id. */
  predicate Blamed(q: Modulus, k: nat, round: Round, received: map<ID, Option<Message>>, order: seq<ID>, id: ID)
    requires forall id <- order :: id in received && id in round.parties
  {
    exists i: nat :: i < |order| && FirstBad(q, k, round, received, order, i) && order[i] == id
  }

  predicate StoppedAt(q: Modulus, k: nat, round: Round, received: map<ID, Option<Message>>, scan: ScanResult, id: ID)
    requires id in received && id in round.parties
  {
    scan == Stopped(id, Judge(q, k, round, id, received[id]))
  }

  predicate AllFine(q: Modulus, k: nat, round: Round, received: map<ID, Option<Message>>, order: seq<ID>)
    requires forall id <- order :: id in received && id in round.parties
  {
    forall j :: 0 <= j < |order| ==> Judge(q, k, round, order[j], received[order[j]]) == Fine
  }

  /** Processing one party's message does not change how another's is judged. */
  lemma JudgeStable(q: Modulus, k: nat, round: Round, id: ID, m: Option<Message>, other: ID, m': Option<Message>)
    requires id in round.parties && other in round.parties && other != id
    requires Loaded(k, m) && Process(q, k, round, id, m).Some?
    ensures Judge(q, k, Process(q, k, round, id, m).value, other, m') == Judge(q, k, round, other, m')
  {
    hide Equal;
  }

  /** The scan stops at the first message that is not fine as judged before the scan, and
      passes when all are. */
  lemma {:induction false} ScanExactly(q: Modulus, k: nat, round: Round, received: map<ID, Option<Message>>, order: seq<ID>)
    requires forall id <- order :: id in received && id in round.parties
    requires forall i, j :: 0 <= i < j < |order| ==> order[i] != order[j]
    ensures
      var scan := Scan(q, k, round, received, order);
      && (scan.Passed? ==> AllFine(q, k, round, received, order))
      && (scan.Stopped? ==> exists i: nat :: FirstBad(q, k, round, received, order, i) && StoppedAt(q, k, round, received, scan, order[i]))
    decreases |order|
  {
    hide Judge;
    hide Process;
    if order != [] {
      var id := order[0];
      if Judge(q, k, round, id, received[id]) == Fine {
        FinePasses(q, k, round, id, received[id]);
        var next := Process(q, k, round, id, received[id]).value;
        forall j | 1 <= j < |order|
          ensures Judge(q, k, next, order[j], received[order[j]]) == Judge(q, k, round, order[j], received[order[j]])
        {
          JudgeStable(q, k, round, id, received[id], order[j], received[order[j]]);
        }
        ScanExactly(q, k, next, received, order[1..]);
        if Scan(q, k, round, received, order).Stopped? {
          var i: nat :| FirstBad(q, k, next, received, order[1..], i) && StoppedAt(q, k, next, received, Scan(q, k, next, received, order[1..]), order[1..][i]);
          assert FirstBad(q, k, round, received, order, i + 1);
        }
      } else {
        assert FirstBad(q, k, round, received, order, 0);
      }
    }
  }

  lemma FinePasses(q: Modulus, k: nat, round: Round, id: ID, m: Option<Message>)
    requires id in round.parties && Judge(q, k, round, id, m) == Fine
    ensures Loaded(k, m) && Process(q, k, round, id, m).Some?
  {
  }

  /** At most one message is the first bad one, and there is none when all are fine. */
  lemma FirstBadUnique(q: Modulus, k: nat, round: Round, received: map<ID, Option<Message>>, order: seq<ID>, i: nat, j: nat)
    requires forall id <- order :: id in received && id in round.parties
    requires FirstBad(q, k, round, received, order, i)
    ensures !AllFine(q, k, round, received, order) && (FirstBad(q, k, round, received, order, j) ==> i == j)
  {
    hide Judge;
  }

  lemma OtherIsParty(job: Job, k: nat, round: Round, view: map<ID, PreShare>, given: set<ID>, id: ID)
    requires RoundOK(job, k, round, view, given) && id in Others(job)
    ensures id in round.parties && id != job.self
  {
  }

  lemma ProcessKeeps(job: Job, k: nat, round: Round, view: map<ID, PreShare>, given: set<ID>, id: ID, m: Option<Message>)
    requires job.Valid() && RoundOK(job, k, round, view, given) && id in Others(job) && id in round.parties
    requires Fits(job.suite.q, k, id, m) && Loaded(k, m)
    ensures
      var o := Process(job.suite.q, k, round, id, m);
      o.Some? ==> RoundOK(job, k, o.value, view, given + {id})
  {
    hide Job.Valid;
    hide Sharing;
    hide Committed;
    hide Base;
    hide WithResponse;
    hide WithCommitment;
    hide View;
    hide Equal;
    if k == 1 {
      CommitmentKept(job, round, id, m.value.sign1.value);
    } else if k == 2 {
      SharingBase(job, round, view, {job.self} + given);
      ResponseKept(job, round, view, {job.self} + given, id, m.value.sign2.value);
      assert {job.self} + given + {id} == {job.self} + (given + {id});
    }
  }

  lemma SharingBase(job: Job, r: Round, pre: map<ID, PreShare>, given: set<ID>)
    requires Sharing(job, r, pre, given)
    ensures Base(job, r)
  {
  }

  /** Reset */
  function Wiped(r: Round): Round {
    r.(message := [], secret := 0, e := 0, d := 0, C := 0, R := Zero(), parties := map[])
  }

  predicate IsWiped(r: Round) {
    r.secret == 0 && r.d == 0 && r.e == 0 && r.parties == map[]
  }

  // ---------------------------------------------------------------------------
  // State
  // ---------------------------------------------------------------------------

  class State {
    const job: Job
    var acceptedTypes: seq<Byte>
    var received: map<ID, Option<Message>>
    var queue: seq<Message>
    var roundNumber: nat
    var round: Round
    var done: bool
    var err: Option<Failure>
    var output: Option<Signature>
    /** The commitments on which round 1 ended. */
    ghost var view: map<ID, PreShare>
    ghost var log: seq<Entry>
    /** Some scan has panicked. */
    ghost var panicked: bool

    /** An unfinished state. After a panic everybody has been heard, and a payload is missing. */
    ghost predicate Running()
      reads this
    {
      && roundNumber <= 2 && acceptedTypes == AllTypes[roundNumber..]
      && ReceivedOK(job, roundNumber, received) && QueueOK(job, roundNumber, queue)
      && RoundOK(job, roundNumber, round, view, {})
      && RoundsLogged(Others(job), roundNumber, log)
      && err == None && output == None
      && (panicked ==> received.Keys == Others(job) && PayloadMissing(roundNumber, received, Others(job)))
    }

    /** A finished state: either failed, or all three rounds done, without any panic, with the
        agreed signature; the secrets are gone. */
    ghost predicate Ended()
      reads this
    {
      && IsWiped(round)
      && (err == None ==>
           && !panicked && RoundsLogged(Others(job), 3, log) && view.Keys == Members(job.ids)
           && NoIdentity(job.suite.q, view, Others(job))
           && output == Some(AgreedSignature(job, view))
           && Verify(job.suite, job.pk.groupKey, job.message, AgreedSignature(job, view)))
      && (err.Some? ==> output == None && FailureOK(job, err.value))
    }

    ghost predicate Valid()
      reads this
    {
      job.Valid() && job.OwnsShare() && (if done then Ended() else Running())
    }

    constructor (job: Job)
      requires job.Valid() && job.OwnsShare()
      ensures this.job == job && Valid() && !done && roundNumber == 0 && log == [] && !panicked
    {
      this.job := job;
      acceptedTypes := AllTypes;
      queue, roundNumber, round, done := [], 0, Fresh(job), false;
      err, output := None, None;
      received := map id | id in job.ids && id != job.self :: None;
      view, log, panicked := map[], [], false;
      new;
      FreshBase(job);
      hide Base;
      assert AllTypes[0..] == AllTypes;
    }

    /** HandleMessage: stored for this round, queued for a later one, ignored or rejected. */
    method HandleMessage(msg: Message) returns (h: Handled)
      requires Valid() && ScalarReduced(job.suite.q, msg)
      modifies `received, `queue
      ensures Valid()
      ensures h == Stored || h == Queued <==>
        !done && msg.from in Others(job) && (msg.to == 0 || msg.to == job.self) && msg.from !in old(received) && roundNumber <= msg.typ <= 2
      ensures h == Stored ==> msg.typ == roundNumber && received == old(received)[msg.from := Some(msg)] && queue == old(queue)
      ensures h == Queued ==> msg.typ > roundNumber && received == old(received) && queue == old(queue) + [msg]
      ensures h != Stored && h != Queued ==> received == old(received) && queue == old(queue)
      ensures roundNumber == 0 || panicked ==> h != Stored && h != Queued
    {
      hide RoundOK;
      hide RoundsLogged;
      hide Ended;
      hide Job.Valid;
      hide Job.OwnsShare;
      hide PayloadMissing;
      if done {
        return Finished;
      }
      if acceptedTypes == [] {
        return NoMoreTypes;
      }
      if msg.from == job.self {
        return FromSelf;
      }
      if msg.to != 0 && msg.to != job.self {
        return NotForUs;
      }
      if msg.from !in job.ids {
        return NotAParty;
      }
      if msg.from in received {
        return AlreadyReceived;
      }
      TypesFrom(roundNumber, msg.typ);
      if msg.typ !in acceptedTypes {
        return WrongType;
      }
      if msg.typ == acceptedTypes[0] {
        received := received[msg.from := Some(msg)];
        h := Stored;
      } else {
        queue := queue + [msg];
        h := Queued;
      }
    }

    /** reportError and finish: the first error ends the protocol and wipes the round. */
    method ReportError(culprit: ID, reason: Reason)
      requires job.Valid() && job.OwnsShare() && !done && err == None && output == None
      requires FailureOK(job, Failure(culprit, roundNumber, reason))
      modifies `done, `err, `round
      ensures Valid() && done && err == Some(Failure(culprit, roundNumber, reason))
    {
      hide Job.Valid;
      hide Job.OwnsShare;
      hide FailureOK;
      err := Some(Failure(culprit, roundNumber, reason));
      done := true;
      round := Wiped(round);
    }

    /** The timer runs out. */
    method TimeOut()
      requires Valid()
      modifies `done, `err, `round
      ensures Valid() && done
      ensures old(done) ==> err == old(err) && round == old(round)
      ensures !old(done) ==> err == Some(Failure(0, roundNumber, Timeout))
    {
      hide Job.Valid;
      hide Job.OwnsShare;
      if !done {
        ReportError(0, Timeout);
      }
    }

    /** Every stored message, in some order, goes to the round once, until one is refused or
        has no payload. */
    method ProcessReceived(order: seq<ID>) returns (scan: ScanResult)
      requires Valid() && !done && received.Keys == Others(job) && IsOrder(order, Others(job))
      modifies `round, `log
      ensures InRound(order, received, old(round)) && scan == Scan(job.suite.q, roundNumber, old(round), received, order)
      ensures scan.Passed? ==> RoundOK(job, roundNumber, round, view, Others(job))
      ensures scan.Passed? ==> RoundProcessed(job, roundNumber, old(log), log)
      ensures scan.Stopped? ==> log == old(log) && RoundOK(job, roundNumber, round, view, {})
    {
      hide RoundOK;
      hide Others;
      hide Job.Valid;
      hide Job.OwnsShare;
      hide Process;
      hide Loaded;
      hide Ended;
      hide PartLog;
      hide RoundsLogged;
      hide QueueOK;
      hide ReceivedOK;
      hide Fits;
      hide IsOrder;
      hide Judge;
      ghost var q := job.suite.q;
      OrderInRound(job, roundNumber, round, view, received, order);
      ghost var given, part := {}, [];
      NothingLogged(roundNumber);
      NoneGiven(order);
      assert order[0..] == order;
      for i := 0 to |order|
        invariant given == Members(order[..i]) && InRound(order[i..], received, round)
        invariant RoundOK(job, roundNumber, round, view, given)
        invariant log == old(log) && PartLog(roundNumber, given, part)
        invariant Scan(q, roundNumber, old(round), received, order) == Scan(q, roundNumber, round, received, order[i..])
      {
        var id := order[i];
        NextInOrder(order, i, Others(job));
        FitsAt(job, roundNumber, received, id);
        OtherIsParty(job, roundNumber, round, view, given, id);
        var verdict := Judge(job.suite.q, roundNumber, round, id, received[id]);
        if verdict != Fine {
          FewerGiven(job, roundNumber, round, view, given);
          return Stopped(id, verdict);
        }
        FinePasses(q, roundNumber, round, id, received[id]);
        ProcessKeeps(job, roundNumber, round, view, given, id, received[id]);
        PartNext(roundNumber, given, part, id);
        round := Process(job.suite.q, roundNumber, round, id, received[id]).value;
        given, part := given + {id}, part + [Processed(roundNumber, id)];
      }
      AllInOrder(order, Others(job));
      assert order[|order|..] == [];
      scan := Passed(round);
      log := log + part;
    }

    /** GenerateMessages of the current round, with fresh nonces n for round 0. */
    method Generate(n: NonceState) returns (ok: bool, msgs: seq<Message>)
      requires job.Valid() && job.OwnsShare() && roundNumber <= 2 && RoundOK(job, roundNumber, round, view, Others(job))
      modifies `round, `view, `output
      ensures roundNumber < 2 ==> ok && RoundOK(job, roundNumber + 1, round, view, {}) && output == old(output)
      ensures roundNumber == 0 ==> msgs == [NewSign1(job.self, Commit(n))]
      ensures roundNumber == 1 ==>
        var z := SignRound(job.suite, job.pk, job.self, job.secret, NonceState(round.d, round.e), job.ids, view, job.message);
        view.Keys == Members(job.ids) && z.Some? && msgs == [NewSign2(job.self, z.value)]
      ensures roundNumber == 2 ==>
        msgs == [] && view == old(view) && view.Keys == Members(job.ids) && NoIdentity(job.suite.q, view, Others(job))
      ensures roundNumber == 2 && ok ==>
        output == Some(AgreedSignature(job, view)) && Verify(job.suite, job.pk.groupKey, job.message, AgreedSignature(job, view))
      ensures roundNumber == 2 && !ok ==> output == old(output) && FailureOK(job, Failure(0, roundNumber, InvalidSignature))
    {
      hide Job.Valid;
      hide Job.OwnsShare;
      hide RoundOK;
      hide SignRound;
      hide WithNonces;
      hide WithShare;
      hide View;
      hide Aggregated;
      hide AgreedSignature;
      hide Verify;
      hide FailureOK;
      hide Others;
      hide IsPartySet;
      hide NoIdentity;
      if roundNumber == 0 {
        NoncesDrawn(job, round, n, view, Others(job));
        round := WithNonces(round, n);
        return true, [NewSign1(job.self, Commit(n))];
      }
      if roundNumber == 1 {
        ShareComputed(job, round, view);
        view := View(round.parties);
        round := GenerateShare(job.suite, round);
        return true, [NewSign2(job.self, round.parties[job.self].z)];
      }
      SignatureMade(job, round, view);
      var sig := GenerateSignature(job.suite, round);
      if sig.None? {
        return false, [];
      }
      output := sig;
      return true, [];
    }

    /** The types of the next round, and its messages out of the queue. */
    method NextRoundMessages()
      requires roundNumber <= 2 && acceptedTypes == AllTypes[roundNumber..] && AllLater(job, roundNumber, queue)
      requires received == map[]
      modifies `acceptedTypes, `received, `queue
      ensures acceptedTypes == AllTypes[roundNumber + 1..]
      ensures roundNumber < 2 ==> received == Moved(old(queue), roundNumber + 1) && queue == Rest(old(queue), roundNumber + 1)
      ensures roundNumber < 2 ==> ReceivedOK(job, roundNumber + 1, received) && QueueOK(job, roundNumber + 1, queue)
    {
      acceptedTypes := acceptedTypes[1..];
      if acceptedTypes != [] {
        RestFits(job, roundNumber, queue);
        MovedFits(job, roundNumber, queue);
        hide AllLater;
        hide ReceivedOK;
        hide Later;
        var slots := new Message[|queue|](i requires 0 <= i < |queue| reads this => queue[i]);
        assert slots[..] == queue;
        var n;
        n, received := Compact(slots, acceptedTypes[0]);
        queue := slots[..n];
      }
    }

    /** How a round k with the given queue can end once all its messages were processed: the
        final check fails, the protocol is over, or the next round begins with its message. */
    ghost predicate Completed(k: nat, was: seq<Message>, msgs: seq<Message>)
      reads this
    {
      || (done && err.Some? && err.value == Failure(0, k, InvalidSignature) && k == roundNumber == 2 && msgs == [])
      || (done && err == None && k == 2 && msgs == [])
      || (!done && k < 2 && roundNumber == k + 1 && |msgs| == 1 && received == Moved(was, roundNumber) && queue == Rest(was, roundNumber))
    }

    /** What the scan of the stored messages of round k in this order comes to. It panics exactly
        when it meets a message without its payload before any that is refused; otherwise the
        first refused message fails the protocol, and with none the round is completed. */
    ghost predicate Scanned(k: nat, was: Round, stored: map<ID, Option<Message>>, queued: seq<Message>, order: seq<ID>, r: Result)
      requires InRound(order, stored, was)
      reads this
    {
      && (r == Panics <==> ScanMeets(job.suite.q, k, was, stored, order, Missing))
      && (r == Panics ==> !done && roundNumber == k && received == stored && queue == queued)
      && (ScanMeets(job.suite.q, k, was, stored, order, Refused) ==>
           r == Returned([]) && done && err.Some? && err.value.round == roundNumber == k
           && err.value.reason == (if k == 1 then IdentityCommitment else InvalidShare)
           && Blamed(job.suite.q, k, was, stored, order, err.value.culprit))
      && (AllFine(job.suite.q, k, was, stored, order) ==> r.Returned? && Completed(k, queued, r.msgs))
    }

    /** The rest of ProcessAll after all messages were processed. */
    method CompleteRound(n: NonceState, ghost before: seq<Entry>) returns (msgs: seq<Message>)
      requires job.Valid() && job.OwnsShare() && !done && err == None && output == None && !panicked
      requires roundNumber <= 2 && acceptedTypes == AllTypes[roundNumber..] && AllLater(job, roundNumber, queue)
      requires RoundOK(job, roundNumber, round, view, Others(job)) && RoundsLogged(Others(job), roundNumber, before)
      requires RoundProcessed(job, roundNumber, before, log)
      modifies this
      ensures Valid() && Completed(old(roundNumber), old(queue), msgs) && !panicked
      ensures old(roundNumber) == 0 && !done ==> msgs == [NewSign1(job.self, Commit(n))]
      ensures old(roundNumber) == 1 && !done ==>
        var z := SignRound(job.suite, job.pk, job.self, job.secret, NonceState(round.d, round.e), job.ids, view, job.message);
        view.Keys == Members(job.ids) && z.Some? && msgs == [NewSign2(job.self, z.value)]
    {
      hide Job.Valid;
      hide Job.OwnsShare;
      hide RoundOK;
      hide FailureOK;
      hide RoundsLogged;
      hide PartLog;
      hide ReceivedOK;
      hide QueueOK;
      hide AllLater;
      hide AgreedSignature;
      hide Verify;
      hide SignRound;
      hide Others;
      hide Moved;
      hide Rest;
      hide Ended;
      hide NewSign1;
      hide NewSign2;
      hide Commit;
      hide NoIdentity;
      hide Running;
      hide Valid;
      hide RoundProcessed;
      RoundLogged(job, roundNumber, before, log);
      log := log + [Generated(roundNumber)];
      received := map[];
      var ok;
      ok, msgs := Generate(n);
      if !ok {
        ReportError(0, InvalidSignature);
        return [];
      }
      Proceed();
    }

    /** The next round's messages, and the next round or the end. */
    method Proceed()
      requires job.Valid() && job.OwnsShare() && !done && err == None && !panicked
      requires roundNumber <= 2 && acceptedTypes == AllTypes[roundNumber..] && AllLater(job, roundNumber, queue)
      requires received == map[] && RoundsLogged(Others(job), roundNumber + 1, log)
      requires roundNumber < 2 ==> RoundOK(job, roundNumber + 1, round, view, {}) && output == None
      requires roundNumber == 2 ==>
        && view.Keys == Members(job.ids) && NoIdentity(job.suite.q, view, Others(job))
        && output == Some(AgreedSignature(job, view)) && Verify(job.suite, job.pk.groupKey, job.message, AgreedSignature(job, view))
      modifies `acceptedTypes, `received, `queue, `roundNumber, `done, `round
      ensures Valid() && (done <==> old(roundNumber) == 2)
      ensures old(roundNumber) < 2 ==>
        && roundNumber == old(roundNumber) + 1 && round == old(round)
        && received == Moved(old(queue), roundNumber) && queue == Rest(old(queue), roundNumber)
    {
      hide Job.Valid;
      hide Job.OwnsShare;
      hide RoundOK;
      hide RoundsLogged;
      hide ReceivedOK;
      hide QueueOK;
      hide AllLater;
      hide AgreedSignature;
      hide Verify;
      hide Others;
      hide Moved;
      hide Rest;
      hide NoIdentity;
      hide Running;
      hide Ended;
      NextRoundMessages();
      if roundNumber == 2 {
        Finish();
      } else {
        BeginRound();
      }
    }

    /** The next round begins. */
    method BeginRound()
      requires job.Valid() && job.OwnsShare() && !done && err == None && output == None && !panicked && roundNumber < 2
      requires acceptedTypes == AllTypes[roundNumber + 1..]
      requires ReceivedOK(job, roundNumber + 1, received) && QueueOK(job, roundNumber + 1, queue)
      requires RoundOK(job, roundNumber + 1, round, view, {}) && RoundsLogged(Others(job), roundNumber + 1, log)
      modifies `roundNumber
      ensures Valid() && roundNumber == old(roundNumber) + 1
    {
      hide Job.Valid;
      hide Job.OwnsShare;
      hide RoundOK;
      hide RoundsLogged;
      hide ReceivedOK;
      hide QueueOK;
      hide Others;
      roundNumber := roundNumber + 1;
    }

    /** finish after round 2. */
    method Finish()
      requires job.Valid() && job.OwnsShare() && err == None && !panicked
      requires RoundsLogged(Others(job), 3, log) && view.Keys == Members(job.ids)
      requires NoIdentity(job.suite.q, view, Others(job))
      requires output == Some(AgreedSignature(job, view)) && Verify(job.suite, job.pk.groupKey, job.message, AgreedSignature(job, view))
      modifies `done, `round
      ensures Valid() && done
    {
      hide Job.Valid;
      hide Job.OwnsShare;
      hide RoundsLogged;
      hide AgreedSignature;
      hide Verify;
      hide Others;
      hide NoIdentity;
      done := true;
      round := Wiped(round);
    }

    /** ProcessAll: once every other party has been heard, the round processes all messages,
        generates its own, and the next round begins or the protocol ends. The order of the
        scan is up to the map. It panics exactly when the first message of the scan that is not
        fine has no payload. */
    method ProcessAll(n: NonceState) returns (r: Result, ghost order: seq<ID>)
      requires Valid()
      modifies this
      ensures Valid()
      ensures old(done) || old(received.Keys) != Others(job) ==>
        r == Returned([]) && done == old(done) && roundNumber == old(roundNumber) && log == old(log) && received == old(received) && queue == old(queue)
      ensures !old(done) && old(received.Keys) == Others(job) ==>
        && IsOrder(order, Others(job)) && InRound(order, old(received), old(round))
        && Scanned(old(roundNumber), old(round), old(received), old(queue), order, r)
      ensures r == Panics ==> log == old(log)
      ensures panicked <==> old(panicked) || r == Panics
      ensures old(panicked) && !old(done) ==>
        && (r == Panics || (r == Returned([]) && done))
        && roundNumber == old(roundNumber) && received == old(received) && queue == old(queue) && log == old(log)
      ensures !old(done) && old(roundNumber) == 0 && !done && roundNumber == 1 ==> r == Returned([NewSign1(job.self, Commit(n))])
      ensures !old(done) && old(roundNumber) == 1 && !done && roundNumber == 2 ==>
        var z := SignRound(job.suite, job.pk, job.self, job.secret, NonceState(round.d, round.e), job.ids, view, job.message);
        view.Keys == Members(job.ids) && z.Some? && r == Returned([NewSign2(job.self, z.value)])
    {
      hide Job.Valid;
      hide Job.OwnsShare;
      hide RoundOK;
      hide FailureOK;
      hide RoundsLogged;
      hide PartLog;
      hide ReceivedOK;
      hide AgreedSignature;
      hide Verify;
      hide SignRound;
      hide Others;
      hide Moved;
      hide Rest;
      hide Scan;
      hide Judge;
      hide IsOrder;
      hide FirstBad;
      hide RoundProcessed;
      hide AllFine;
      hide ScanMeets;
      hide Blamed;
      hide Completed;
      hide InRound;
      hide PayloadMissing;
      hide PanickingOrder;
      order := [];
      if done {
        return Returned([]), [];
      }
      AllReceived(job, roundNumber, received);
      if |received| != |job.ids| - 1 {
        return Returned([]), [];
      }
      var keys := Enumerate(received.Keys);
      order := keys;
      OrderInRound(job, roundNumber, round, view, received, order);
      ScanVerdict(job.suite.q, roundNumber, round, received, order, Others(job));
      var scan := ProcessReceived(keys);
      if scan.Stopped? {
        if scan.verdict == Missing {
          PanicLeavesMissing(job.suite.q, roundNumber, old(round), received, Others(job), order);
          panicked := true;
          return Panics, order;
        }
        var reason := if roundNumber == 1 then IdentityCommitment else InvalidShare;
        Harmless(job, scan.at, roundNumber, reason);
        ReportError(scan.at, reason);
        return Returned([]), order;
      }
      if PayloadMissing(roundNumber, received, Others(job)) {
        MissingNeverPasses(job.suite.q, roundNumber, old(round), received, order, Others(job));
      }
      var msgs := CompleteRound(n, old(log));
      r := Returned(msgs);
    }
  }

  datatype Result = Panics | Returned(msgs: seq<Message>)

  /** All members of the set, each once, in some order. */
  ghost predicate IsOrder(order: seq<ID>, ids: set<ID>) {
    Members(order) == ids && |order| == |ids|
  }

  predicate InRound(order: seq<ID>, received: map<ID, Option<Message>>, round: Round) {
    forall id <- order :: id in received && id in round.parties
  }

  /** The keys of a map in the order in which an iteration visits them. */
  method Enumerate(ids: set<ID>) returns (order: seq<ID>)
    ensures IsOrder(order, ids)
  {
    order := [];
    var rest := ids;
    assert Members(order) == {};
    while rest != {}
      invariant rest <= ids && Members(order) == ids - rest && |order| + |rest| == |ids|
      decreases |rest|
    {
      var id :| id in rest;
      assert Members(order + [id]) == Members(order) + {id};
      order := order + [id];
      rest := rest - {id};
    }
  }

  lemma OrderDistinct(order: seq<ID>, ids: set<ID>)
    requires IsOrder(order, ids)
    ensures forall i, j :: 0 <= i < j < |order| ==> order[i] != order[j]
  {
    FullSizeDistinct(order);
  }

  lemma OrderInRound(job: Job, k: nat, round: Round, view: map<ID, PreShare>, received: map<ID, Option<Message>>, order: seq<ID>)
    requires RoundOK(job, k, round, view, {}) && received.Keys == Others(job) && IsOrder(order, Others(job))
    ensures InRound(order, received, round)
  {
    forall id <- order
      ensures id in received && id in round.parties
    {
      assert id in Members(order);
      OtherIsParty(job, k, round, view, {}, id);
    }
  }

  lemma NoneGiven(order: seq<ID>)
    ensures Members(order[..0]) == {}
  {
  }

  lemma NextInOrder(order: seq<ID>, i: nat, ids: set<ID>)
    requires IsOrder(order, ids) && i < |order|
    ensures order[i] in ids && order[i] !in Members(order[..i]) && Members(order[..i + 1]) == Members(order[..i]) + {order[i]}
    ensures order[i..][0] == order[i] && order[i..][1..] == order[i + 1..]
  {
    assert order[i] in Members(order);
    OrderDistinct(order, ids);
  }

  lemma AllInOrder(order: seq<ID>, ids: set<ID>)
    requires IsOrder(order, ids)
    ensures Members(order[..|order|]) == ids
  {
    assert order[..|order|] == order;
  }

  lemma FewerGiven(job: Job, k: nat, round: Round, view: map<ID, PreShare>, given: set<ID>)
    requires RoundOK(job, k, round, view, given)
    ensures RoundOK(job, k, round, view, {})
  {
    hide Derived;
    hide Answered;
    hide Base;
  }

  /** The scan of all messages, by the verdicts before it. */
  lemma ScanVerdict(q: Modulus, k: nat, round: Round, received: map<ID, Option<Message>>, order: seq<ID>, ids: set<ID>)
    requires IsOrder(order, ids) && InRound(order, received, round)
    ensures
      var scan := Scan(q, k, round, received, order);
      && (scan.Passed? ==> AllFine(q, k, round, received, order) && forall v :: !ScanMeets(q, k, round, received, order, v))
      && (scan.Stopped? ==>
        && scan.verdict != Fine && !AllFine(q, k, round, received, order)
        && ScanMeets(q, k, round, received, order, scan.verdict) && Blamed(q, k, round, received, order, scan.at)
        && forall v :: ScanMeets(q, k, round, received, order, v) ==> v == scan.verdict)
  {
    OrderDistinct(order, ids);
    ScanExactly(q, k, round, received, order);
    hide Scan;
    hide Judge;
    var scan := Scan(q, k, round, received, order);
    if scan.Stopped? {
      var i: nat :| FirstBad(q, k, round, received, order, i) && StoppedAt(q, k, round, received, scan, order[i]);
      FirstBadUnique(q, k, round, received, order, i, i);
      forall v | ScanMeets(q, k, round, received, order, v)
        ensures v == scan.verdict
      {
        var j: nat :| j < |order| && FirstBad(q, k, round, received, order, j) && Judge(q, k, round, order[j], received[order[j]]) == v;
        FirstBadUnique(q, k, round, received, order, i, j);
      }
    }
  }

  /** Some stored message has no payload. */
  ghost predicate PayloadMissing(k: nat, received: map<ID, Option<Message>>, ids: set<ID>) {
    exists id :: id in ids && id in received && !Loaded(k, received[id])
  }

  lemma OrderWithFirst(ids: set<ID>, id: ID) returns (order: seq<ID>)
    requires id in ids
    ensures IsOrder(order, ids) && order != [] && order[0] == id
  {
    var rest := SortedOf(ids - {id});
    hide SortedOf;
    order := [id] + rest;
    assert Members(order) == {id} + Members(rest);
  }

  lemma OrderIn(received: map<ID, Option<Message>>, round: Round, order: seq<ID>, ids: set<ID>)
    requires IsOrder(order, ids) && ids <= received.Keys && ids <= round.parties.Keys
    ensures InRound(order, received, round)
  {
    assert forall id <- order :: id in Members(order);
  }

  ghost predicate PanickingOrder(q: Modulus, k: nat, round: Round, received: map<ID, Option<Message>>, ids: set<ID>, order: seq<ID>) {
    IsOrder(order, ids) && InRound(order, received, round) && ScanMeets(q, k, round, received, order, Missing)
  }

  /** Some order of the scan panics exactly when some payload is missing. */
  lemma SomeOrderPanics(q: Modulus, k: nat, round: Round, received: map<ID, Option<Message>>, ids: set<ID>)
    requires ids <= received.Keys && ids <= round.parties.Keys
    ensures PayloadMissing(k, received, ids) <==> exists order :: PanickingOrder(q, k, round, received, ids, order)
  {
    hide IsOrder;
    hide Loaded;
    hide Process;
    if PayloadMissing(k, received, ids) {
      var id :| id in ids && id in received && !Loaded(k, received[id]);
      var order := OrderWithFirst(ids, id);
      OrderIn(received, round, order, ids);
      assert FirstBad(q, k, round, received, order, 0);
      assert PanickingOrder(q, k, round, received, ids, order);
    }
    if order :| PanickingOrder(q, k, round, received, ids, order) {
      PanicMeansMissing(q, k, round, received, ids, order);
    }
  }

  lemma PanicMeansMissing(q: Modulus, k: nat, round: Round, received: map<ID, Option<Message>>, ids: set<ID>, order: seq<ID>)
    requires PanickingOrder(q, k, round, received, ids, order)
    ensures PayloadMissing(k, received, ids)
  {
    hide Process;
    hide Loaded;
    hide FirstBad;
    var i: nat :| i < |order| && Judge(q, k, round, order[i], received[order[i]]) == Missing;
    assert order[i] in Members(order);
  }

  /** With a payload missing no order lets the round pass, and without a refused message every
      order panics. */
  lemma MissingNeverPasses(q: Modulus, k: nat, round: Round, received: map<ID, Option<Message>>, order: seq<ID>, ids: set<ID>)
    requires IsOrder(order, ids) && InRound(order, received, round) && PayloadMissing(k, received, ids)
    ensures !AllFine(q, k, round, received, order)
    ensures (forall id <- order :: Judge(q, k, round, id, received[id]) != Refused) ==> ScanMeets(q, k, round, received, order, Missing)
  {
    var id :| id in ids && !Loaded(k, received[id]);
    assert id in Members(order);
    var j: nat :| j < |order| && order[j] == id;
    assert Judge(q, k, round, order[j], received[order[j]]) == Missing;
    ScanVerdict(q, k, round, received, order, ids);
    hide Scan;
    hide Judge;
  }

  lemma PanicLeavesMissing(q: Modulus, k: nat, round: Round, received: map<ID, Option<Message>>, ids: set<ID>, order: seq<ID>)
    requires IsOrder(order, ids) && InRound(order, received, round) && ScanMeets(q, k, round, received, order, Missing)
    ensures PayloadMissing(k, received, ids)
  {
    hide IsOrder;
    hide ScanMeets;
    PanicMeansMissing(q, k, round, received, ids, order);
  }

  // ---------------------------------------------------------------------------
  // Identity commitments
  // ---------------------------------------------------------------------------

  /** The message commits to the identity. */
  predicate Degenerate(q: Modulus, m: Option<Message>) {
    m.Some? && m.value.sign1.Some? && (Equal(q, m.value.sign1.value.D, Zero()) || Equal(q, m.value.sign1.value.E, Zero()))
  }

  /** Round 1 refuses exactly the commitments to the identity. */
  lemma RefusedExactly(q: Modulus, round: Round, id: ID, m: Option<Message>)
    requires id in round.parties
    ensures Judge(q, 1, round, id, m) == Refused <==> Degenerate(q, m)
  {
  }

  /** order[i] is the first sender of such a message. */
  predicate FirstDegenerate(q: Modulus, received: map<ID, Option<Message>>, order: seq<ID>, i: nat)
    requires forall id <- order :: id in received
  {
    i < |order| && Degenerate(q, received[order[i]]) && forall j :: 0 <= j < i ==> !Degenerate(q, received[order[j]])
  }

  /** With all payloads present, the scan of round 1 meets the first of these messages. */
  lemma IdentityMet(q: Modulus, round: Round, received: map<ID, Option<Message>>, order: seq<ID>, ids: set<ID>) returns (i: nat)
    requires IsOrder(order, ids) && InRound(order, received, round) && !PayloadMissing(1, received, ids)
    requires exists id :: id in ids && id in received && Degenerate(q, received[id])
    ensures FirstDegenerate(q, received, order, i) && ScanMeets(q, 1, round, received, order, Refused)
    ensures forall c :: Blamed(q, 1, round, received, order, c) ==> c == order[i]
  {
    hide Degenerate;
    hide Judge;
    var bad :| bad in ids && bad in received && Degenerate(q, received[bad]);
    assert bad in Members(order);
    var last: nat :| last < |order| && order[last] == bad;
    i := 0;
    while !Degenerate(q, received[order[i]])
      invariant i <= last && forall j :: 0 <= j < i ==> !Degenerate(q, received[order[j]])
      decreases last - i
    {
      i := i + 1;
    }
    forall j | 0 <= j < |order|
      ensures Judge(q, 1, round, order[j], received[order[j]]) == if Degenerate(q, received[order[j]]) then Refused else Fine
    {
      assert order[j] in Members(order);
      RefusedExactly(q, round, order[j], received[order[j]]);
      NotMissing(q, round, order[j], received[order[j]]);
    }
    assert FirstBad(q, 1, round, received, order, i);
    forall c | Blamed(q, 1, round, received, order, c)
      ensures c == order[i]
    {
      var k: nat :| k < |order| && FirstBad(q, 1, round, received, order, k) && order[k] == c;
      FirstBadUnique(q, 1, round, received, order, i, k);
    }
  }

  lemma NotMissing(q: Modulus, round: Round, id: ID, m: Option<Message>)
    requires id in round.parties && Loaded(1, m)
    ensures Judge(q, 1, round, id, m) != Missing
  {
  }

  /** So a stored commitment to the identity makes ProcessAll fail when no payload is missing,
      and its first sender in the order of the scan is blamed. */
  lemma IdentityStops(st: State, was: Round, stored: map<ID, Option<Message>>, queued: seq<Message>, order: seq<ID>, r: Result) returns (i: nat)
    requires IsOrder(order, Others(st.job)) && InRound(order, stored, was) && st.Scanned(1, was, stored, queued, order, r)
    requires !PayloadMissing(1, stored, Others(st.job))
    requires exists id :: id in Others(st.job) && id in stored && Degenerate(st.job.suite.q, stored[id])
    ensures FirstDegenerate(st.job.suite.q, stored, order, i)
    ensures r == Returned([]) && st.done && st.err == Some(Failure(order[i], 1, IdentityCommitment))
  {
    hide IsOrder;
    hide Degenerate;
    hide FirstDegenerate;
    hide PayloadMissing;
    hide ScanMeets;
    hide Blamed;
    hide AllFine;
    i := IdentityMet(st.job.suite.q, was, stored, order, Others(st.job));
  }

  /** Past round 1, and in every successful end, no other party's commitment is the identity. */
  lemma ViewHasNoIdentity(st: State, id: ID)
    requires st.Valid() && (if st.done then st.err == None else st.roundNumber == 2)
    requires id in st.job.ids && id != st.job.self
    ensures id in st.view && !Equal(st.job.suite.q, st.view[id].D, Zero()) && !Equal(st.job.suite.q, st.view[id].E, Zero())
  {
    hide Job.Valid;
    hide Job.OwnsShare;
    hide Sharing;
    hide Equal;
    hide AgreedSignature;
    hide Verify;
    hide RoundsLogged;
    assert id in Others(st.job);
  }

  // ---------------------------------------------------------------------------
  // After a panic
  // ---------------------------------------------------------------------------

  /** A call of the driver from outside. */
  datatype Call = Handle(msg: Message) | Advance(nonces: NonceState) | Expire

  /** Any further calls. After a panic they never get past the round: its stored messages stay,
      nothing is logged or output, and the protocol can only fail. */
  method Drive(st: State, calls: seq<Call>)
    requires st.Valid()
    requires forall i :: 0 <= i < |calls| && calls[i].Handle? ==> ScalarReduced(st.job.suite.q, calls[i].msg)
    modifies st
    ensures st.Valid() && (old(st.panicked) ==> st.panicked)
    ensures old(st.panicked) && !old(st.done) ==>
      && st.roundNumber == old(st.roundNumber) && st.log == old(st.log) && st.output == None
      && st.received == old(st.received) && st.queue == old(st.queue)
      && (st.done ==> st.err.Some?)
  {
    hide State.Valid;
    for i := 0 to |calls|
      invariant st.Valid() && (old(st.panicked) ==> st.panicked)
      invariant old(st.panicked) && !old(st.done) ==>
        && st.roundNumber == old(st.roundNumber) && st.log == old(st.log)
        && st.received == old(st.received) && st.queue == old(st.queue)
    {
      match calls[i]
      case Handle(msg) => var _ := st.HandleMessage(msg);
      case Advance(n) => var _, _ := st.ProcessAll(n);
      case Expire => st.TimeOut();
    }
    if st.panicked {
      PanicIsFinal(st);
    }
  }

  lemma PanicIsFinal(st: State)
    requires st.Valid() && st.panicked
    ensures st.output == None && (st.done ==> st.err.Some?)
  {
    hide Job.Valid;
    hide Job.OwnsShare;
  }

  lemma TypesFrom(k: nat, typ: Byte)
    requires k <= 2
    ensures typ in AllTypes[k..] <==> k <= typ <= 2
    ensures AllTypes[k..][0] == k
  {
  }

  /** The final check cannot be what fails when the keys are consistent and there are more
      than threshold signers. */
  ghost predicate FailureOK(job: Job, f: Failure) {
    f.reason == InvalidSignature ==> !(ConsistentKeys(job.suite.q, job.pk) && |job.ids| > job.pk.threshold)
  }

  lemma NothingLogged(k: nat)
    ensures PartLog(k, {}, [])
  {
  }

  /** The end of round 0. */
  lemma NoncesDrawn(job: Job, r: Round, n: NonceState, view: map<ID, PreShare>, given: set<ID>)
    requires job.Valid() && RoundOK(job, 0, r, view, given)
    ensures r.self in r.parties && RoundOK(job, 1, WithNonces(r, n), view, {})
  {
    NoncesCommitted(job, r, n);
  }

  /** The end of round 1. */
  lemma ShareComputed(job: Job, r: Round, view: map<ID, PreShare>)
    requires job.Valid() && job.OwnsShare() && RoundOK(job, 1, r, view, Others(job))
    ensures IsPartySet(r.ids) && r.parties.Keys == Members(r.ids) && r.self in r.parties && View(r.parties).Keys == Members(job.ids)
    ensures
      var r' := WithShare(job.suite, r);
      && RoundOK(job, 2, r', View(r.parties), {}) && job.self in r'.parties
      && SignRound(job.suite, job.pk, job.self, job.secret, NonceState(r'.d, r'.e), job.ids, View(r.parties), job.message)
         == Some(r'.parties[job.self].z)
  {
    hide SignRound;
    hide Sharing;
    hide Job.OwnsShare;
    hide WithShare;
    hide NoIdentity;
    hide View;
    ShareOf(job, r);
    CommittedShape(job, r);
    hide Committed;
    hide Job.Valid;
    assert {job.self} + {} == {job.self};
  }

  lemma CommittedShape(job: Job, r: Round)
    requires job.Valid() && Committed(job, r)
    ensures IsPartySet(r.ids) && r.parties.Keys == Members(r.ids) && r.self in r.parties && r.ids == job.ids && r.self == job.self
    ensures View(r.parties).Keys == Members(job.ids)
  {
  }

  lemma ShareOf(job: Job, r: Round)
    requires job.Valid() && job.OwnsShare() && Committed(job, r)
    ensures r.parties.Keys == Members(r.ids) && r.self in r.parties && View(r.parties).Keys == Members(job.ids)
    ensures
      var r' := WithShare(job.suite, r);
      && Sharing(job, r', View(r.parties), {job.self}) && job.self in r'.parties
      && SignRound(job.suite, job.pk, job.self, job.secret, NonceState(r'.d, r'.e), job.ids, View(r.parties), job.message)
         == Some(r'.parties[job.self].z)
  {
    hide SignRound;
    hide Sharing;
    hide Job.OwnsShare;
    hide RoundFactors;
    hide RoundR;
    hide View;
    CommittedShape(job, r);
    ShareStarts(job, r);
    OwnShareIsRoastShare(job, r);
  }

  /** The end of round 2. */
  lemma SignatureMade(job: Job, r: Round, view: map<ID, PreShare>)
    requires job.Valid() && RoundOK(job, 2, r, view, Others(job))
    ensures view.Keys == Members(job.ids) && NoIdentity(job.suite.q, view, Others(job))
    ensures Aggregated(job.suite, r).Some? ==>
      Aggregated(job.suite, r).value == AgreedSignature(job, view) && Verify(job.suite, job.pk.groupKey, job.message, AgreedSignature(job, view))
    ensures Aggregated(job.suite, r).None? ==> FailureOK(job, Failure(0, 2, InvalidSignature))
  {
    hide Aggregated;
    hide AgreedSignature;
    hide Verify;
    hide FailureOK;
    hide Derived;
    hide Answered;
    AllGiven(job);
    hide Job.Valid;
    AggregateIsAgreed(job, r, view);
    AggregateIs(job, r, view);
    if Aggregated(job.suite, r).None? {
      NotConsistent(job, r, view);
    }
  }

  lemma AllGiven(job: Job)
    requires job.Valid()
    ensures {job.self} + Others(job) == Members(job.ids)
  {
  }

  lemma AggregateIs(job: Job, r: Round, pre: map<ID, PreShare>)
    requires job.Valid() && Sharing(job, r, pre, Members(job.ids))
    requires Signature(r.R, ShareSum(job.suite.q, Zs(r.parties))) == AgreedSignature(job, pre)
    ensures Aggregated(job.suite, r).Some? ==>
      Aggregated(job.suite, r).value == AgreedSignature(job, pre) && Verify(job.suite, job.pk.groupKey, job.message, AgreedSignature(job, pre))
  {
    hide Verify;
    hide Derived;
    hide AgreedSignature;
  }

  lemma NotConsistent(job: Job, r: Round, pre: map<ID, PreShare>)
    requires job.Valid() && Sharing(job, r, pre, Members(job.ids)) && Aggregated(job.suite, r).None?
    ensures FailureOK(job, Failure(0, 2, InvalidSignature))
  {
    if ConsistentKeys(job.suite.q, job.pk) && |job.ids| > job.pk.threshold {
      FinalCheckPasses(job, r, pre);
    }
  }

  lemma FitsAt(job: Job, k: nat, received: map<ID, Option<Message>>, id: ID)
    requires ReceivedOK(job, k, received) && id in received
    ensures Fits(job.suite.q, k, id, received[id]) && id in Others(job)
  {
  }

  /** Counting is enough to know that everybody has been heard. */
  lemma AllReceived(job: Job, k: nat, received: map<ID, Option<Message>>)
    requires job.Valid() && ReceivedOK(job, k, received)
    ensures |received| == |job.ids| - 1 <==> received.Keys == Others(job)
  {
    SortedSize(job.ids);
    assert job.self in Members(job.ids);
    assert |Others(job)| == |job.ids| - 1;
    if |received| == |job.ids| - 1 {
      SubsetEqual(received.Keys, Others(job));
    }
  }

  lemma Harmless(job: Job, culprit: ID, k: nat, reason: Reason)
    requires reason != InvalidSignature
    ensures FailureOK(job, Failure(culprit, k, reason))
  {
  }

  /** The log has been extended by one entry for every other party. */
  ghost predicate RoundProcessed(job: Job, k: nat, before: seq<Entry>, log: seq<Entry>) {
    exists part :: log == before + part && PartLog(k, Others(job), part)
  }

  lemma RoundLogged(job: Job, k: nat, before: seq<Entry>, log: seq<Entry>)
    requires RoundsLogged(Others(job), k, before) && RoundProcessed(job, k, before, log)
    ensures RoundsLogged(Others(job), k + 1, log + [Generated(k)])
  {
    var part :| log == before + part && PartLog(k, Others(job), part);
    PartComplete(k, Others(job), part);
    LogRound(Others(job), k, before, part + [Generated(k)]);
    hide RoundsLogged;
    hide PartLog;
    assert before + (part + [Generated(k)]) == before + part + [Generated(k)];
  }

  /** Two parties that finish the same job with the same view of the commitments hold the same
      signature, and it verifies, whatever shares the others sent to either of them. */
  lemma FinishersAgree(a: State, b: State)
    requires a.Valid() && b.Valid() && a.done && b.done && a.err == None && b.err == None
    requires b.job == a.job.(self := b.job.self, secret := b.job.secret) && SameView(a.job.suite.q, a.view, b.view)
    ensures a.output.Some? && b.output.Some?
    ensures Equal(a.job.suite.q, a.output.value.R, b.output.value.R) && a.output.value.S == b.output.value.S
    ensures Verify(a.job.suite, a.job.pk.groupKey, a.job.message, a.output.value)
  {
    hide Job.Valid;
    hide Job.OwnsShare;
    hide AgreedSignature;
    hide Verify;
    hide SameView;
    hide RoundsLogged;
    hide Equal;
    ViewDeterminesSignature(a.job, b.job, a.view, b.view);
  }

  // ---------------------------------------------------------------------------
  // Reading the log
  // ---------------------------------------------------------------------------

  function Count(log: seq<Entry>, e: Entry): nat {
    if log == [] then 0 else Count(log[..|log| - 1], e) + if log[|log| - 1] == e then 1 else 0
  }

  lemma {:induction false} CountAppend(a: seq<Entry>, b: seq<Entry>, e: Entry)
    ensures Count(a + b, e) == Count(a, e) + Count(b, e)
  {
    if b == [] {
      assert a + b == a;
    } else {
      assert (a + b)[..|a + b| - 1] == a + b[..|b| - 1];
      CountAppend(a, b[..|b| - 1], e);
    }
  }

  lemma {:induction false} CountDistinct(log: seq<Entry>, e: Entry)
    requires forall i, j :: 0 <= i < j < |log| ==> log[i] != log[j]
    ensures Count(log, e) == if e in log then 1 else 0
  {
    if log != [] {
      CountDistinct(log[..|log| - 1], e);
      assert log == log[..|log| - 1] + [log[|log| - 1]];
    }
  }

  /** A round log has no entry twice. */
  lemma RoundLogDistinct(others: set<ID>, k: nat, log: seq<Entry>)
    requires IsRoundLog(others, k, log)
    ensures forall i, j :: 0 <= i < j < |log| ==> log[i] != log[j]
  {
    var froms: seq<ID> := seq(|others|, i requires 0 <= i < |others| => log[i].from);
    forall id | id in others
      ensures id in froms
    {
      var i :| 0 <= i < |log| && log[i] == Processed(k, id);
      assert i < |others| && froms[i] == id;
    }
    assert Members(froms) == others;
    FullSizeDistinct(froms);
    assert forall i :: 0 <= i < |others| ==> froms[i] == log[i].from;
  }

  /** In the log of the first k rounds, each of them processes one message of every other
      party and generates once; nothing is logged for later rounds. */
  lemma {:induction false} ExactlyOnce(others: set<ID>, k: nat, log: seq<Entry>, e: Entry)
    requires RoundsLogged(others, k, log)
    ensures Count(log, e) == if e.round < k && (e.Generated? || e.from in others) then 1 else 0
  {
    hide IsRoundLog;
    if k > 0 {
      var m := |log| - |others| - 1;
      var last := log[m..];
      ExactlyOnce(others, k - 1, log[..m], e);
      assert log == log[..m] + last;
      CountAppend(log[..m], last, e);
      RoundLogDistinct(others, k - 1, last);
      CountDistinct(last, e);
      RoundLogMembers(others, k - 1, last, e);
      hide IsRoundLog;
      hide Count;
    }
  }

  lemma RoundLogMembers(others: set<ID>, k: nat, log: seq<Entry>, e: Entry)
    requires IsRoundLog(others, k, log)
    ensures e in log <==> e.round == k && (e.Generated? || e.from in others)
  {
  }
}
