/** The inner layer of ChillDKG: Pedersen sharing with proofs of possession. */
module SimplPedPop {
  import opened PrimeField
  import opened Interpolation
  import opened Sums
  import opened Group
  import opened Wire
  import opened Vss
  import opened Certeq

  datatype ParticipantState = ParticipantState(t: nat, n: nat, idx: nat, comToSecret: Element)

  datatype ParticipantMsg = ParticipantMsg(com: seq<Element>, pop: Bytes)

  datatype CoordinatorMsg = CoordinatorMsg(comsToSecrets: seq<Element>, sumNonconst: seq<Element>, pops: seq<Bytes>)

  datatype DKGOutput = DKGOutput(secShare: Option<nat>, thresholdPubkey: Element, pubShares: seq<Element>)

  // ---------------------------------------------------------------------------
  // Participant, first step
  // ---------------------------------------------------------------------------

  /** The coefficients derived from a seed; t of them, so degree t - 1. */
  function Coeffs(s: Suite, seed: Bytes, t: nat): (coeffs: seq<nat>)
    ensures |coeffs| == t
  {
    seq(t, i requires 0 <= i < t => TaggedScalar(s, "vss coeffs", seed + U32(i)))
  }

  method VssGenerate(s: Suite, seed: Bytes, t: nat) returns (coeffs: seq<nat>)
    ensures coeffs == Coeffs(s, seed, t)
  {
    coeffs := [];
    for i := 0 to t
      invariant coeffs == Coeffs(s, seed, t)[..i]
    {
      coeffs := coeffs + [TaggedScalar(s, "vss coeffs", seed + U32(i))];
    }
  }

  function Shares(q: Modulus, coeffs: seq<nat>, n: nat): (shares: seq<nat>)
    ensures |shares| == n && forall i :: 0 <= i < n ==> shares[i] == SecShare(q, coeffs, i)
  {
    seq(n, i requires 0 <= i < n => SecShare(q, coeffs, i))
  }

  /** The message of an honest participant. */
  function HonestMsg(s: Suite, coeffs: seq<nat>, idx: nat): ParticipantMsg
    requires coeffs != []
  {
    ParticipantMsg(Commitment(coeffs), SchnorrSign(s, coeffs[0], BaseMult(coeffs[0]), U32(idx)))
  }

  method ParticipantStep1(s: Suite, seed: Bytes, t: nat, n: nat, idx: nat, auxRand: Bytes)
    returns (r: Result<(ParticipantState, ParticipantMsg, seq<nat>)>)
    requires t >= 1
    ensures r.Ok? <==> t <= n && idx < n && |seed| == 32 && |auxRand| == 32
    ensures r.Ok? ==>
      var coeffs := Coeffs(s, seed, t);
      r.value == (ParticipantState(t, n, idx, BaseMult(coeffs[0])), HonestMsg(s, coeffs, idx), Shares(s.q, coeffs, n))
  {
    if t > n {
      return Err(ThresholdOrCount);
    }
    if idx >= n {
      return Err(IndexOutOfRange);
    }
    if |seed| != 32 {
      return Err(InvalidRandomness);
    }
    if |auxRand| != 32 {
      return Err(InvalidRandomness);
    }
    var coeffs := VssGenerate(s, seed, t);
    var shares := SecShares(s.q, coeffs, n);
    assert shares == Shares(s.q, coeffs, n);
    var pop := SchnorrSign(s, coeffs[0], BaseMult(coeffs[0]), U32(idx));
    var com := Commit(coeffs);
    r := Ok((ParticipantState(t, n, idx, com[0]), ParticipantMsg(com, pop), shares));
  }

  // ---------------------------------------------------------------------------
  // The summed commitment
  // ---------------------------------------------------------------------------

  function FromLogs(c: seq<int>): (es: seq<Element>)
    ensures |es| == |c| && Logs(es) == c
  {
    seq(|c|, k requires 0 <= k < |c| => Element(c[k]))
  }

  function LogAt(es: seq<Element>): nat -> int {
    (i: nat) => if i < |es| then es[i].log else 0
  }

  /** assembleSumComs */
  function SumComs(comsToSecrets: seq<Element>, sumNonconst: seq<Element>): (points: seq<Element>)
    ensures |points| == 1 + |sumNonconst|
  {
    [Element(Total(|comsToSecrets|, LogAt(comsToSecrets)))] + sumNonconst
  }

  method AssembleSumComs(comsToSecrets: seq<Element>, sumNonconst: seq<Element>) returns (points: seq<Element>)
    ensures points == SumComs(comsToSecrets, sumNonconst)
  {
    var sum := SumElements(comsToSecrets);
    points := [sum] + sumNonconst;
  }

  method SumElements(es: seq<Element>) returns (sum: Element)
    ensures sum == Element(Total(|es|, LogAt(es)))
  {
    sum := Zero();
    for i := 0 to |es|
      invariant sum == Element(Total(i, LogAt(es)))
    {
      sum := Add(sum, es[i]);
    }
  }

  /** Commitments the coordinator can add up: between 1 and t points each. */
  predicate Summable(pmsgs: seq<ParticipantMsg>, t: nat) {
    forall j :: 0 <= j < |pmsgs| ==> 1 <= |pmsgs[j].com| <= t
  }

  function Polys(pmsgs: seq<ParticipantMsg>): (ps: seq<seq<int>>)
    ensures |ps| == |pmsgs| && forall j :: 0 <= j < |ps| ==> ps[j] == Logs(pmsgs[j].com)
  {
    seq(|pmsgs|, j requires 0 <= j < |pmsgs| => Logs(pmsgs[j].com))
  }

  function Tails(pmsgs: seq<ParticipantMsg>, t: nat): (ps: seq<seq<int>>)
    requires t >= 1 && Summable(pmsgs, t)
    ensures |ps| == |pmsgs| && Fits(ps, t - 1) && forall j :: 0 <= j < |ps| ==> ps[j] == Logs(pmsgs[j].com)[1..]
  {
    seq(|pmsgs|, j requires 0 <= j < |pmsgs| => Logs(pmsgs[j].com)[1..])
  }

  /** The coordinator's reply. */
  function Reply(pmsgs: seq<ParticipantMsg>, t: nat): CoordinatorMsg
    requires t >= 1 && Summable(pmsgs, t)
  {
    CoordinatorMsg(seq(|pmsgs|, j requires 0 <= j < |pmsgs| => pmsgs[j].com[0]),
                   FromLogs(SumPolys(Tails(pmsgs, t), t - 1)),
                   seq(|pmsgs|, j requires 0 <= j < |pmsgs| => pmsgs[j].pop))
  }

  function SumComsOf(cmsg: CoordinatorMsg): (points: seq<Element>)
    ensures |points| == 1 + |cmsg.sumNonconst|
  {
    SumComs(cmsg.comsToSecrets, cmsg.sumNonconst)
  }

  /** The assembled commitment commits to the sum of all polynomials. */
  lemma {:induction false} SplitSum(ps: seq<seq<int>>, tails: seq<seq<int>>, t: nat, heads: nat -> int)
    requires t >= 1 && |tails| == |ps| && Fits(ps, t) && Fits(tails, t - 1)
    requires forall j :: 0 <= j < |ps| ==> ps[j] != [] && tails[j] == ps[j][1..] && heads(j) == ps[j][0]
    ensures SumPolys(ps, t) == [Total(|ps|, heads)] + SumPolys(tails, t - 1)
  {
    hide AddPoly;
    if ps == [] {
      assert Zeros(t) == [0] + Zeros(t - 1);
    } else {
      var k := |ps| - 1;
      SplitSum(ps[..k], tails[..k], t, heads);
      AddSplit(Total(k, heads), SumPolys(tails[..k], t - 1), ps[k]);
    }
  }

  lemma AddSplit(head: int, a: seq<int>, b: seq<int>)
    requires 1 <= |b| <= |a| + 1
    ensures AddPoly([head] + a, b) == [head + b[0]] + AddPoly(a, b[1..])
  {
  }

  lemma ReplyCommitsToSum(pmsgs: seq<ParticipantMsg>, t: nat)
    requires t >= 1 && Summable(pmsgs, t)
    ensures Fits(Polys(pmsgs), t) && Logs(SumComsOf(Reply(pmsgs, t))) == SumPolys(Polys(pmsgs), t)
  {
    var cmsg := Reply(pmsgs, t);
    SplitSum(Polys(pmsgs), Tails(pmsgs, t), t, LogAt(cmsg.comsToSecrets));
  }

  /** The start of the transcript. */
  function EqStart(s: Suite, t: nat, sumComs: seq<Element>): Bytes {
    U32(t) + Join(ElementBlocks(s, sumComs))
  }

  // ---------------------------------------------------------------------------
  // Coordinator
  // ---------------------------------------------------------------------------

  /** Adding one participant's non-constant terms into the sums, element by element. */
  method AddTerms(sums: array<Element>, terms: seq<Element>)
    requires |terms| <= sums.Length
    modifies sums
    ensures Logs(sums[..]) == AddPoly(old(Logs(sums[..])), Logs(terms))
  {
    ghost var was := sums[..];
    for j := 0 to |terms|
      invariant forall k :: 0 <= k < sums.Length ==> sums[k] == if k < j then Add(was[k], terms[k]) else was[k]
    {
      sums[j] := Add(sums[j], terms[j]);
    }
  }

  /** The loop over the participants' messages. */
  method SumNonconst(pmsgs: seq<ParticipantMsg>, t: nat) returns (sum: seq<Element>)
    requires t >= 1 && Summable(pmsgs, t)
    ensures sum == FromLogs(SumPolys(Tails(pmsgs, t), t - 1))
  {
    var sums := new Element[t - 1](_ => Zero());
    ghost var tails := Tails(pmsgs, t);
    assert Logs(sums[..]) == Zeros(t - 1);
    for i := 0 to |pmsgs|
      invariant Logs(sums[..]) == SumPolys(tails[..i], t - 1)
    {
      assert Logs(pmsgs[i].com[1..]) == tails[i];
      assert tails[..i + 1][..i] == tails[..i];
      AddTerms(sums, pmsgs[i].com[1..]);
    }
    assert tails[..|pmsgs|] == tails;
    sum := sums[..];
    SameLogs(sum, FromLogs(SumPolys(tails, t - 1)));
  }

  /** Logarithms determine the elements. */
  lemma SameLogs(es: seq<Element>, fs: seq<Element>)
    requires Logs(es) == Logs(fs)
    ensures es == fs
  {
    assert |es| == |Logs(es)| == |fs|;
    forall k | 0 <= k < |es|
      ensures es[k] == fs[k]
    {
      assert Logs(es)[k] == Logs(fs)[k];
    }
  }

  method CoordinatorStep(s: Suite, pmsgs: seq<ParticipantMsg>, t: nat, n: nat)
    returns (r: Result<(CoordinatorMsg, DKGOutput, Bytes)>)
    requires t >= 1 && Summable(pmsgs, t)
    ensures r.Ok? <==> |pmsgs| == n
    ensures r.Ok? ==>
      var cmsg := Reply(pmsgs, t);
      var points := SumComsOf(cmsg);
      r.value == (cmsg, DKGOutput(None, points[0], PubSharesOf(points, n)), EqStart(s, t, points))
  {
    if |pmsgs| != n {
      return Err(WrongCount);
    }
    var comsToSecrets := seq(n, j requires 0 <= j < n => pmsgs[j].com[0]);
    var pops := seq(n, j requires 0 <= j < n => pmsgs[j].pop);
    var sumNonconst := SumNonconst(pmsgs, t);
    var thresholdPubkey := SumElements(comsToSecrets);
    var sumComs := AssembleSumComs(comsToSecrets, sumNonconst);
    var pubshares := PubShares(sumComs, n);
    var eqInput := AppendElements(s, U32(t), sumComs);
    r := Ok((CoordinatorMsg(comsToSecrets, sumNonconst, pops), DKGOutput(None, thresholdPubkey, pubshares), eqInput));
  }

  // ---------------------------------------------------------------------------
  // Participant, second step
  // ---------------------------------------------------------------------------

  /** A commitment that is not the identity, with a valid proof of possession. */
  predicate PopOK(s: Suite, cmsg: CoordinatorMsg, i: nat)
    requires i < |cmsg.comsToSecrets| && i < |cmsg.pops|
  {
    && !Equal(s.q, cmsg.comsToSecrets[i], Zero())
    && SchnorrVerify(s, cmsg.comsToSecrets[i], U32(i), cmsg.pops[i])
  }

  /** Every other participant's proof is good. */
  predicate OthersOK(s: Suite, cmsg: CoordinatorMsg, n: nat, idx: nat)
    requires n <= |cmsg.comsToSecrets| && n <= |cmsg.pops|
  {
    forall i :: 0 <= i < n && i != idx ==> PopOK(s, cmsg, i)
  }

  /** The checks of the second step. */
  predicate Accepts(s: Suite, state: ParticipantState, cmsg: CoordinatorMsg, secshare: nat)
    requires state.idx < state.n <= |cmsg.comsToSecrets| && state.n <= |cmsg.pops|
  {
    && Equal(s.q, cmsg.comsToSecrets[state.idx], state.comToSecret)
    && OthersOK(s, cmsg, state.n, state.idx)
    && VerifySecShare(s.q, secshare, PubShare(SumComsOf(cmsg), state.idx))
  }

  lemma OthersGood(s: Suite, cmsg: CoordinatorMsg, n: nat, idx: nat)
    requires n <= |cmsg.comsToSecrets| && n <= |cmsg.pops| && OthersOK(s, cmsg, n, idx)
    ensures forall i :: 0 <= i < n && i != idx ==>
      !Equal(s.q, cmsg.comsToSecrets[i], Zero()) && SchnorrVerify(s, cmsg.comsToSecrets[i], U32(i), cmsg.pops[i])
  {
    forall i | 0 <= i < n && i != idx
      ensures !Equal(s.q, cmsg.comsToSecrets[i], Zero()) && SchnorrVerify(s, cmsg.comsToSecrets[i], U32(i), cmsg.pops[i])
    {
      assert PopOK(s, cmsg, i);
    }
  }

  method ParticipantStep2(s: Suite, state: ParticipantState, cmsg: CoordinatorMsg, secshare: nat)
    returns (r: Result<(DKGOutput, Bytes)>)
    requires state.idx < state.n <= |cmsg.comsToSecrets| && state.n <= |cmsg.pops|
    ensures r.Ok? <==> Accepts(s, state, cmsg, secshare)
    ensures r.Ok? ==>
      var points := SumComsOf(cmsg);
      r.value == (DKGOutput(Some(secshare), points[0], PubSharesOf(points, state.n)), EqStart(s, state.t, points))
    ensures r.Ok? ==> Equal(s.q, cmsg.comsToSecrets[state.idx], state.comToSecret)
    ensures r.Ok? ==> r.value.0.secShare == Some(secshare) && Equal(s.q, BaseMult(secshare), r.value.0.pubShares[state.idx])
    ensures r.Ok? ==> forall i :: 0 <= i < state.n && i != state.idx ==>
      !Equal(s.q, cmsg.comsToSecrets[i], Zero()) && SchnorrVerify(s, cmsg.comsToSecrets[i], U32(i), cmsg.pops[i])
    ensures r.Err? && r.error.FaultyParticipant? ==>
      && r.error.index < state.n && r.error.index != state.idx && !PopOK(s, cmsg, r.error.index)
      && forall i :: 0 <= i < r.error.index && i != state.idx ==> PopOK(s, cmsg, i)
  {
    hide SchnorrVerify;
    var n, idx := state.n, state.idx;
    if !Equal(s.q, cmsg.comsToSecrets[idx], state.comToSecret) {
      return Err(FaultyCoordinator);
    }
    for i := 0 to n
      invariant OthersOK(s, cmsg, i, idx)
    {
      if i != idx {
        if Equal(s.q, cmsg.comsToSecrets[i], Zero()) || !SchnorrVerify(s, cmsg.comsToSecrets[i], U32(i), cmsg.pops[i]) {
          assert !PopOK(s, cmsg, i);
          return Err(FaultyParticipant(i));
        }
      }
    }
    OthersGood(s, cmsg, n, idx);
    var sumComs := AssembleSumComs(cmsg.comsToSecrets, cmsg.sumNonconst);
    var pubshare := ComputePubShare(sumComs, idx);
    if !VerifySecShare(s.q, secshare, pubshare) {
      return Err(FaultyParticipantOrCoord);
    }
    var pubshares := PubShares(sumComs, n);
    var eqInput := AppendElements(s, U32(state.t), sumComs);
    r := Ok((DKGOutput(Some(secshare), sumComs[0], pubshares), eqInput));
  }

  // ---------------------------------------------------------------------------
  // Honest runs
  // ---------------------------------------------------------------------------

  /** The honest messages for the polynomials of all participants. */
  predicate HonestMsgs(s: Suite, polys: seq<seq<nat>>, pmsgs: seq<ParticipantMsg>, t: nat) {
    && |pmsgs| == |polys|
    && forall j :: 0 <= j < |polys| ==> |polys[j]| == t && t >= 1 && pmsgs[j] == HonestMsg(s, polys[j], j)
  }

  /** An honest proof of possession is accepted exactly when the constant term is not zero. */
  lemma HonestPop(s: Suite, polys: seq<seq<nat>>, pmsgs: seq<ParticipantMsg>, t: nat, j: nat)
    requires s.Valid() && t >= 1 && HonestMsgs(s, polys, pmsgs, t) && Summable(pmsgs, t) && j < |polys|
    ensures PopOK(s, Reply(pmsgs, t), j) <==> polys[j][0] % s.q != 0
  {
    assert pmsgs[j] == HonestMsg(s, polys[j], j);
    var secret := polys[j][0];
    SignatureVerifies(s, secret, BaseMult(secret), U32(j));
    hide SchnorrVerify;
    assert Reply(pmsgs, t).comsToSecrets[j] == BaseMult(secret);
  }
}
