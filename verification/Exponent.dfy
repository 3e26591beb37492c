/** Polynomials in the exponent: three evaluators that agree with each other and with the
    scalar Horner evaluation, sums, and the wire format with its 16-bit degree. */
module Exponent {
  import opened PrimeField
  import opened Interpolation
  import opened Sums
  import opened Group
  import opened Party
  import opened Wire
  import opened Vss
  import P = SimplPedPop
  import M = Messages

  /** The value at index, as a group element. */
  function Value(coefficients: seq<Element>, index: nat): Element {
    Element(Eval(Logs(coefficients), index))
  }

  function Power(q: Modulus, x: nat, k: nat): nat {
    if k == 0 then 1 else Power(q, x, k - 1) * x % q
  }

  function Pow(x: int, k: nat): int {
    if k == 0 then 1 else Pow(x, k - 1) * x
  }

  lemma {:induction false} PowerCong(q: Modulus, x: nat, k: nat)
    ensures Cong(q, Power(q, x, k), Pow(x, k))
  {
    if k > 0 {
      PowerCong(q, x, k - 1);
      CongFactor(q, Power(q, x, k - 1), Pow(x, k - 1), x);
      CongMod(q, Power(q, x, k - 1) * x);
    }
  }

  lemma {:induction false} EvalSnoc(c: seq<int>, a: int, x: int)
    ensures Eval(c + [a], x) == Eval(c, x) + Pow(x, |c|) * a
  {
    if c == [] {
      assert ([a])[1..] == [];
    } else {
      assert (c + [a])[1..] == c[1..] + [a];
      EvalSnoc(c[1..], a, x);
      PowFront(x, |c|);
      Distribute(x, Eval(c[1..], x), Pow(x, |c| - 1), a);
    }
  }

  lemma Distribute(x: int, e: int, p: int, a: int)
    ensures x * (e + p * a) == x * e + x * p * a
  {
  }

  lemma PowFront(x: int, k: nat)
    requires k > 0
    ensures Pow(x, k) == x * Pow(x, k - 1)
  {
  }

  /** One more term of the sum of powers. */
  lemma TermStep(q: Modulus, c: seq<int>, a: int, x: nat, r: int)
    requires Cong(q, r, Eval(c, x))
    ensures Cong(q, r + Power(q, x, |c|) * a, Eval(c + [a], x))
  {
    EvalSnoc(c, a, x);
    PowerCong(q, x, |c|);
    CongFactor(q, Power(q, x, |c|), Pow(x, |c|), a);
    CongAdd(q, r, Eval(c, x), Power(q, x, |c|) * a, Pow(x, |c|) * a);
  }

  /** evaluateClassic: powers of the index on the way up. The code panics at index 0. */
  method EvaluateClassic(q: Modulus, coefficients: seq<Element>, index: nat) returns (result: Element)
    requires index % q != 0
    ensures Equal(q, result, Value(coefficients, index))
  {
    var x := 1;
    result := Zero();
    ghost var c := Logs(coefficients);
    for i := 0 to |coefficients|
      invariant x == Power(q, index, i)
      invariant Equal(q, result, Element(Eval(c[..i], index)))
    {
      TermStep(q, c[..i], c[i], index, result.log);
      TakeSnoc(c, i);
      var tmp := DoubleMult(x, coefficients[i], 0);
      result := Add(result, tmp);
      x := x * index % q;
    }
    assert c[..|coefficients|] == c;
  }

  predicate IsPower(q: Modulus, p: nat, index: nat, k: nat) {
    Cong(q, p, Power(q, index, k))
  }

  /** VarTimeMultiScalarMult */
  function MultiScalarMult(scalars: seq<nat>, points: seq<Element>): Element
    requires |scalars| == |points|
  {
    if scalars == [] then Zero()
    else Add(MultiScalarMult(scalars[..|scalars| - 1], points[..|points| - 1]), Mult(scalars[|scalars| - 1], points[|points| - 1]))
  }

  lemma {:induction false} MultiScalarIsEval(q: Modulus, powers: seq<nat>, points: seq<Element>, index: nat)
    requires |powers| == |points| && forall i :: 0 <= i < |powers| ==> IsPower(q, powers[i], index, i)
    ensures Cong(q, MultiScalarMult(powers, points).log, Eval(Logs(points), index))
  {
    if points != [] {
      var k := |points| - 1;
      MultiScalarIsEval(q, powers[..k], points[..k], index);
      var c, r := Logs(points), MultiScalarMult(powers[..k], points[..k]).log;
      assert Logs(points[..k]) == c[..k];
      TermStep(q, c[..k], c[k], index, r);
      TakeSnoc(c, k);
      assert c[..k + 1] == c;
      CongFactor(q, powers[k], Power(q, index, k), c[k]);
      CongAdd(q, r, r, powers[k] * c[k], Power(q, index, k) * c[k]);
    }
  }

  /** evaluateVar: a table of powers and one multi-scalar multiplication. */
  method EvaluateVar(q: Modulus, coefficients: seq<Element>, index: nat) returns (result: Element)
    requires index % q != 0
    ensures Equal(q, result, Value(coefficients, index))
  {
    var powers := PowerTable(q, index, |coefficients|);
    MultiScalarIsEval(q, powers, coefficients, index);
    result := MultiScalarMult(powers, coefficients);
  }

  /** 1, index, index^2, ... */
  method PowerTable(q: Modulus, index: nat, n: nat) returns (table: seq<nat>)
    ensures |table| == n && forall k :: 0 <= k < n ==> IsPower(q, table[k], index, k)
  {
    hide IsPower;
    var powers := new nat[n];
    for i := 0 to n
      invariant forall k :: 0 <= k < i ==> IsPower(q, powers[k], index, k)
    {
      FirstPowers(q, index);
      if i == 0 {
        powers[i] := 1;
      } else if i == 1 {
        powers[i] := index;
      } else {
        NextPower(q, powers[i - 1], index, i - 1);
        powers[i] := powers[i - 1] * index % q;
      }
    }
    table := powers[..];
  }

  lemma FirstPowers(q: Modulus, index: nat)
    ensures IsPower(q, 1, index, 0) && IsPower(q, index, index, 1)
  {
    assert Power(q, index, 0) * index == index;
    CongMod(q, index);
  }

  lemma NextPower(q: Modulus, p: nat, index: nat, k: nat)
    requires IsPower(q, p, index, k)
    ensures IsPower(q, p * index % q, index, k + 1)
  {
    CongFactor(q, p, Power(q, index, k), index);
    CongMod(q, p * index);
    CongMod(q, Power(q, index, k) * index);
  }

  /** evaluateHorner: from the highest coefficient down. */
  method EvaluateHorner(q: Modulus, coefficients: seq<Element>, index: nat) returns (result: Element)
    requires index % q != 0
    ensures result == Value(coefficients, index)
  {
    result := Zero();
    var i := |coefficients|;
    ghost var c := Logs(coefficients);
    assert c[i..] == [];
    while i > 0
      invariant 0 <= i <= |coefficients| && result == Element(Eval(c[i..], index))
    {
      i := i - 1;
      EvalDrop(c, i, index);
      result := DoubleMult(index, result, 0);
      result := Add(result, coefficients[i]);
    }
    assert c[0..] == c;
  }

  /** Polynomial.Evaluate: the scalar Horner loop. */
  method EvaluateScalar(q: Modulus, coefficients: seq<nat>, index: nat) returns (result: nat)
    requires index % q != 0
    ensures result == Eval(coefficients, index) % q
  {
    result := 0;
    var i := |coefficients|;
    assert coefficients[i..] == [];
    while i > 0
      invariant 0 <= i <= |coefficients| && result == Eval(coefficients[i..], index) % q
    {
      i := i - 1;
      EvalDrop(coefficients, i, index);
      HornerFused(q, Eval(coefficients[i + 1..], index), index, coefficients[i]);
      result := (result * index + coefficients[i]) % q;
    }
    assert coefficients[0..] == coefficients;
  }

  lemma HornerFused(q: Modulus, v: int, x: int, a: int)
    ensures ((v % q) * x + a) % q == (a + x * v) % q
  {
    CongMod(q, v);
    CongFactor(q, v % q, v, x);
    assert v * x == x * v;
    CongAdd(q, (v % q) * x, x * v, a, a);
  }

  /** Committing and evaluating commute: the commitment to the scalar value is the value of the
      committed polynomial, by any of the evaluators. */
  method EvaluatorsAgree(q: Modulus, coefficients: seq<nat>, index: nat)
    returns (classic: Element, table: Element, horner: Element, committed: Element)
    requires index % q != 0
    ensures Equal(q, classic, horner) && Equal(q, table, horner) && Equal(q, committed, horner)
    ensures horner == Value(Commitment(coefficients), index)
  {
    var p := Commit(coefficients);
    classic := EvaluateClassic(q, p, index);
    table := EvaluateVar(q, p, index);
    horner := EvaluateHorner(q, p, index);
    var y := EvaluateScalar(q, coefficients, index);
    committed := BaseMult(y);
    CongMod(q, Eval(coefficients, index));
  }

  // ---------------------------------------------------------------------------
  // Sums
  // ---------------------------------------------------------------------------

  function LogsOf(ps: seq<seq<Element>>): (cs: seq<seq<int>>)
    ensures |cs| == |ps|
  {
    seq(|ps|, j requires 0 <= j < |ps| => Logs(ps[j]))
  }

  predicate SameLength(ps: seq<seq<Element>>) {
    forall j :: 0 <= j < |ps| ==> |ps[j]| == |ps[0]|
  }

  /** Add: refused for different lengths, else in place. */
  method AddTo(p: array<Element>, other: seq<Element>) returns (ok: bool)
    modifies p
    ensures ok <==> p.Length == |other|
    ensures ok ==> Logs(p[..]) == AddPoly(old(Logs(p[..])), Logs(other))
    ensures !ok ==> p[..] == old(p[..])
  {
    if p.Length != |other| {
      return false;
    }
    P.AddTerms(p, other);
    ok := true;
  }

  lemma ZeroPlus(c: seq<int>)
    ensures AddPoly(Zeros(|c|), c) == c
  {
  }

  /** Sum: a copy of the first, then all the others added. */
  method SumExponents(ps: seq<seq<Element>>) returns (r: Option<seq<Element>>)
    requires ps != []
    ensures r.Some? <==> SameLength(ps)
    ensures r.Some? ==> Fits(LogsOf(ps), |ps[0]|) && Logs(r.value) == SumPolys(LogsOf(ps), |ps[0]|)
  {
    var t := |ps[0]|;
    var summed := new Element[t](i requires 0 <= i < t => ps[0][i]);
    assert summed[..] == ps[0];
    ghost var cs := LogsOf(ps);
    assert cs[..1] == [Logs(ps[0])] && cs[..1][..0] == [];
    ZeroPlus(Logs(ps[0]));
    for j := 1 to |ps|
      invariant forall k :: 0 <= k < j ==> |ps[k]| == t
      invariant Fits(cs[..j], t) && Logs(summed[..]) == SumPolys(cs[..j], t)
    {
      var ok := AddTo(summed, ps[j]);
      if !ok {
        return None;
      }
      TakeSnoc(cs, j);
    }
    assert cs[..|ps|] == cs;
    r := Some(summed[..]);
  }

  function ValueTerms(ps: seq<seq<Element>>, index: nat): nat -> int {
    (j: nat) => if j < |ps| then Value(ps[j], index).log else 0
  }

  /** The value of the sum is the sum of the values. */
  lemma EvaluateCommutesWithSum(ps: seq<seq<Element>>, sum: seq<Element>, index: nat)
    requires ps != [] && SameLength(ps) && Fits(LogsOf(ps), |ps[0]|) && Logs(sum) == SumPolys(LogsOf(ps), |ps[0]|)
    ensures Value(sum, index) == Element(Total(|ps|, ValueTerms(ps, index)))
  {
    EvalSum(LogsOf(ps), |ps[0]|, index, ValueTerms(ps, index));
  }

  // ---------------------------------------------------------------------------
  // Wire format
  // ---------------------------------------------------------------------------

  /** Degree in 16 bits: one less than the number of coefficients, wrapping. */
  function Degree(n: nat): ID {
    (n + 0xFFFF) % 0x1_0000
  }

  function Marshal(s: Suite, coefficients: seq<Element>): Bytes {
    IDBytes(Degree(|coefficients|)) + Join(ElementBlocks(s, coefficients))
  }

  function Unmarshal(s: Suite, data: Bytes): Option<seq<Element>> {
    if |data| < 2 then None
    else
      var count := (M.IDValue(data) + 1) % 0x1_0000;
      var remaining := data[2..];
      if |remaining| % 32 != 0 || |remaining| != count * 32 || !AllElements(s, Blocks(remaining, 32, count)) then None
      else Some(Elements(s, Blocks(remaining, 32, count)))
  }

  lemma MarshalSize(s: Suite, coefficients: seq<Element>)
    requires s.Valid()
    ensures |Marshal(s, coefficients)| == 2 + 32 * |coefficients|
  {
    BlocksUniform(s, coefficients, []);
    JoinSize(ElementBlocks(s, coefficients), 32);
  }

  lemma DegreeRoundTrip(n: nat)
    ensures (Degree(n) + 1) % 0x1_0000 == n % 0x1_0000
  {
  }

  /** The round trip works exactly for at most 65535 coefficients. */
  lemma MarshalRoundTrip(s: Suite, coefficients: seq<Element>)
    requires s.Valid()
    ensures Unmarshal(s, Marshal(s, coefficients)) ==
      if |coefficients| <= 0xFFFF then Some(Canonical(s, coefficients)) else None
  {
    hide Suite.Valid;
    hide ElementBlocks;
    hide Join;
    hide Blocks;
    hide Elements;
    hide AllElements;
    hide Canonical;
    hide IDBytes;
    hide M.IDValue;
    hide Uniform;
    hide Degree;
    var n := |coefficients|;
    var blocks := ElementBlocks(s, coefficients);
    MarshalSize(s, coefficients);
    BlocksUniform(s, coefficients, []);
    ElementsOfBlocks(s, coefficients);
    DegreeRoundTrip(n);
    M.IDRoundTrip(Degree(n), Join(blocks));
    BlocksJoin(blocks, 32, []);
    assert Join(blocks) + [] == Join(blocks);
    assert Marshal(s, coefficients)[2..] == Join(blocks);
    if n <= 0xFFFF {
      assert n % 0x1_0000 == n;
    } else {
      assert n % 0x1_0000 < n;
    }
  }

  /** BytesAppend onto an empty buffer. */
  method MarshalBinary(s: Suite, coefficients: seq<Element>) returns (data: Bytes)
    ensures data == Marshal(s, coefficients)
  {
    data := AppendElements(s, IDBytes(Degree(|coefficients|)), coefficients);
  }

  /** UnmarshalBinary */
  method UnmarshalBinary(s: Suite, data: Bytes) returns (r: Option<seq<Element>>)
    ensures r == Unmarshal(s, data)
  {
    hide AllElements;
    hide Elements;
    hide Blocks;
    hide M.IDValue;
    if |data| < 2 {
      return None;
    }
    var count := (M.IDValue(data) + 1) % 0x1_0000;
    var remaining := data[2..];
    if |remaining| % 32 != 0 || |remaining| != count * 32 {
      return None;
    }
    var ok, es := DecodeElements(s, remaining, count);
    if !ok {
      return None;
    }
    r := Some(es);
  }
}
