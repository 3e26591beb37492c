/** How many sessions a run can start: n - t + 1 is reached for every n and t without a single
    fault, so f faulty signers bound the sessions by f + 1 exactly when f >= n - t. */
module SessionTightness {
  import opened Sums
  import opened Party
  import opened Ledger

  /** Outside `faulty`, signers speak only when they have not been heard yet or are asked for a
      share, and then give a valid one; they may be slow. */
  ghost predicate HonestBut(es: seq<Event>, bs: seq<Book>, faulty: set<ID>) {
    && |bs| == |es| + 1
    && forall i :: 0 <= i < |es| && es[i].from !in faulty && !bs[i].done ==> Accepted(bs[i], es[i].from, es[i].valid)
  }

  /** Every run with at most f faulty signers starts at most f + 1 sessions. */
  ghost predicate FaultsBoundSessions(P: set<ID>, t: nat, f: nat) {
    forall es: seq<Event>, bs: seq<Book>, faulty: set<ID> :: IsRun(P, t, es, bs) && |faulty| <= f && HonestBut(es, bs, faulty) ==>
      bs[|es|].counter <= f + 1
  }

  // ---------------------------------------------------------------------------
  // The slow run
  // ---------------------------------------------------------------------------

  /** Session k is open. The first j of the t - 1 fast signers have given their shares and are
      responsive again, the other fast ones are asked, and the signers from t - 1 + k on have
      not been heard. */
  ghost predicate Opened(ps: seq<ID>, t: nat, k: nat, j: nat, b: Book) {
    && 1 <= t && t - 1 + k <= |ps| && j <= t - 1
    && !b.done && b.malicious == {} && b.counter == k && b.responsive == Members(ps[..j])
    && (k == 0 ==> b.pending == map[])
    && (k > 0 ==> k in b.sessions && b.sessions[k].given == Members(ps[..j]))
    && (k > 0 ==> forall i :: j <= i < t - 1 ==> ps[i] in b.pending && b.pending[ps[i]] == k)
    && (forall i :: t - 1 + k <= i < |ps| ==> ps[i] !in b.pending)
  }

  lemma {:induction false} PrefixSize(ps: seq<ID>, j: nat)
    requires |Members(ps)| == |ps| && j <= |ps|
    ensures |Members(ps[..j])| == j
  {
    if j == 0 {
      assert Members(ps[..0]) == {};
    } else {
      hide Members;
      PrefixSize(ps, j - 1);
      PrefixNext(ps, j - 1);
      OneMore(Members(ps[..j - 1]), ps[j - 1]);
    }
  }

  lemma PrefixNext(ps: seq<ID>, j: nat)
    requires |Members(ps)| == |ps| && j < |ps|
    ensures Members(ps[..j + 1]) == Members(ps[..j]) + {ps[j]} && ps[j] !in Members(ps[..j])
    ensures forall i :: j < i < |ps| ==> ps[i] !in Members(ps[..j + 1])
  {
    FullSizeDistinct(ps);
  }

  /** The next fast signer speaks: in session 0, its first commitments; later, its share. */
  lemma FastStep(ps: seq<ID>, t: nat, k: nat, j: nat, b: Book)
    requires |Members(ps)| == |ps| && Opened(ps, t, k, j, b) && j < t - 1
    ensures Accepted(b, ps[j], true) && Opened(ps, t, k, j + 1, Step(t, b, ps[j], true))
  {
    FullSizeDistinct(ps);
    PrefixNext(ps, j);
    PrefixSize(ps, j + 1);
    hide Members;
    assert forall i, l :: 0 <= i < l < |ps| ==> ps[i] != ps[l];
  }

  /** A signer that has not been heard opens the next session. */
  lemma SlowStep(ps: seq<ID>, t: nat, k: nat, b: Book)
    requires t >= 1 && |Members(ps)| == |ps| && Opened(ps, t, k, t - 1, b) && t - 1 + k < |ps|
    ensures Accepted(b, ps[t - 1 + k], true) && Opened(ps, t, k + 1, 0, Step(t, b, ps[t - 1 + k], true))
  {
    hide Members;
    var x := ps[t - 1 + k];
    FullSizeDistinct(ps);
    PrefixSize(ps, t - 1);
    Outside(ps, t - 1);
    OneMore(b.responsive, x);
  }

  /** Exactly the first j are among the first j. */
  lemma Outside(ps: seq<ID>, j: nat)
    requires |Members(ps)| == |ps| && j <= |ps|
    ensures Members(ps[..0]) == {}
    ensures forall i :: 0 <= i < |ps| ==> (ps[i] in Members(ps[..j]) <==> i < j)
  {
    FullSizeDistinct(ps);
  }

  lemma OneMore(a: set<ID>, x: ID)
    requires x !in a
    ensures |a + {x}| == |a| + 1
  {
  }

  // ---------------------------------------------------------------------------
  // As a run
  // ---------------------------------------------------------------------------

  lemma ExtendRun(P: set<ID>, t: nat, es: seq<Event>, bs: seq<Book>, e: Event)
    requires IsRun(P, t, es, bs) && HonestBut(es, bs, {}) && e.from in P && Accepted(bs[|es|], e.from, e.valid)
    ensures
      var es', bs' := es + [e], bs + [Step(t, bs[|es|], e.from, e.valid)];
      IsRun(P, t, es', bs') && HonestBut(es', bs', {})
  {
    hide Step;
    hide Accepted;
  }

  /** The run up to session k with j fast answers. */
  lemma {:induction false} SlowRun(P: set<ID>, ps: seq<ID>, t: nat, k: nat, j: nat) returns (es: seq<Event>, bs: seq<Book>)
    requires Members(ps) == P && |P| == |ps| && 1 <= t && t - 1 + k <= |ps| && j <= t - 1
    ensures IsRun(P, t, es, bs) && HonestBut(es, bs, {}) && Opened(ps, t, k, j, bs[|es|])
    decreases k, j
  {
    hide Step;
    hide Opened;
    hide IsRun;
    hide HonestBut;
    hide Accepted;
    if j > 0 {
      es, bs := SlowRun(P, ps, t, k, j - 1);
      RunShape(P, t, es, bs);
      FastStep(ps, t, k, j - 1, bs[|es|]);
      assert ps[j - 1] in Members(ps);
      ExtendRun(P, t, es, bs, Event(ps[j - 1], true));
      es, bs := es + [Event(ps[j - 1], true)], bs + [Step(t, bs[|es|], ps[j - 1], true)];
    } else if k > 0 {
      es, bs := SlowRun(P, ps, t, k - 1, t - 1);
      RunShape(P, t, es, bs);
      SlowStep(ps, t, k - 1, bs[|es|]);
      assert ps[t - 2 + k] in Members(ps);
      ExtendRun(P, t, es, bs, Event(ps[t - 2 + k], true));
      es, bs := es + [Event(ps[t - 2 + k], true)], bs + [Step(t, bs[|es|], ps[t - 2 + k], true)];
    } else {
      es, bs := [], [Init()];
      NothingYet(P, ps, t);
    }
  }

  lemma NothingYet(P: set<ID>, ps: seq<ID>, t: nat)
    requires 1 <= t && t - 1 <= |ps|
    ensures IsRun(P, t, [], [Init()]) && HonestBut([], [Init()], {}) && Opened(ps, t, 0, 0, Init())
  {
    assert Members(ps[..0]) == {};
  }

  /** For every n and t some run without any fault starts exactly n - t + 1 sessions. */
  lemma BoundReached(P: set<ID>, t: nat) returns (es: seq<Event>, bs: seq<Book>)
    requires 1 <= t <= |P|
    ensures IsRun(P, t, es, bs) && HonestBut(es, bs, {}) && bs[|es|].counter == |P| - t + 1 && !bs[|es|].done
  {
    var ps := SortedOf(P);
    es, bs := SlowRun(P, ps, t, |P| - t + 1, 0);
  }

  /** f faulty signers bound the sessions of every run by f + 1 if and only if f >= n - t. */
  lemma FaultsBoundExactly(P: set<ID>, t: nat, f: nat)
    requires 1 <= t <= |P|
    ensures FaultsBoundSessions(P, t, f) <==> f >= |P| - t
  {
    hide HonestBut;
    hide IsRun;
    if f >= |P| - t {
      forall es: seq<Event>, bs: seq<Book>, faulty: set<ID> | IsRun(P, t, es, bs) && |faulty| <= f && HonestBut(es, bs, faulty)
        ensures |bs| == |es| + 1 && bs[|es|].counter <= f + 1
      {
        RunShape(P, t, es, bs);
        SessionBound(P, t, es, bs);
      }
    } else {
      var es, bs := BoundReached(P, t);
      RunShape(P, t, es, bs);
      var nobody: set<ID> := {};
      assert IsRun(P, t, es, bs) && |nobody| <= f && HonestBut(es, bs, nobody);
    }
  }

  lemma RunShape(P: set<ID>, t: nat, es: seq<Event>, bs: seq<Book>)
    requires IsRun(P, t, es, bs)
    ensures |bs| == |es| + 1
  {
  }
}
