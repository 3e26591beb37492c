/** Party identifiers and the Lagrange coefficient of a party among a set of parties. */
module Party {
  import opened PrimeField
  import opened Interpolation
  import opened Group

  /** A 16-bit identifier; 0 is not a party. */
  type ID = i: nat | i < 65536

  /** Two bytes, big endian. */
  function IDBytes(id: ID): (b: Bytes)
    ensures |b| == 2
  {
    [id / 256, id % 256]
  }

  predicate Sorted(ids: seq<ID>) {
    forall i, j :: 0 <= i < j < |ids| ==> ids[i] < ids[j]
  }

  ghost function Members(ids: seq<ID>): set<ID> {
    set id | id in ids
  }

  /** A set of parties as the code keeps it: strictly increasing, without 0. */
  predicate IsPartySet(ids: seq<ID>) {
    Sorted(ids) && forall i :: 0 <= i < |ids| ==> ids[i] != 0
  }

  lemma SubsetSize<T>(a: set<T>, b: set<T>)
    requires a <= b
    ensures |a| <= |b|
  {
    assert b == a + (b - a);
  }

  lemma SubsetEqual<T>(a: set<T>, b: set<T>)
    requires a <= b && |a| == |b|
    ensures a == b
  {
    assert b == a + (b - a);
  }

  lemma PartySetPoints(q: Modulus, ids: seq<ID>)
    requires q > 65535 && IsPartySet(ids)
    ensures Points(q, ids)
  {
  }

  lemma {:induction false} SortedSize(ids: seq<ID>)
    requires Sorted(ids)
    ensures |Members(ids)| == |ids|
  {
    if ids == [] {
      assert Members(ids) == {};
    } else {
      var js, k := ids[..|ids| - 1], ids[|ids| - 1];
      SortedSize(js);
      assert Members(ids) == Members(js) + {k};
      assert k !in Members(js);
    }
  }

  /** Sixteen bits bound the number of parties. */
  lemma {:induction false} PartySetAtLeast(ids: seq<ID>, i: nat)
    requires IsPartySet(ids) && i < |ids|
    ensures ids[i] >= i + 1
  {
    if i > 0 {
      PartySetAtLeast(ids, i - 1);
    }
  }

  lemma PartySetSize(ids: seq<ID>)
    requires IsPartySet(ids)
    ensures |ids| <= 65535
  {
    if ids != [] {
      PartySetAtLeast(ids, |ids| - 1);
    }
  }

  /** A set has only one increasing enumeration. */
  lemma {:induction false} SortedUnique(a: seq<ID>, b: seq<ID>)
    requires Sorted(a) && Sorted(b) && Members(a) == Members(b)
    ensures a == b
  {
    if a == [] {
      SortedSize(a);
      SortedSize(b);
    } else {
      assert a[|a| - 1] in Members(b);
      assert b != [];
      var x, y := a[|a| - 1], b[|b| - 1];
      assert x == y by {
        assert y in Members(a);
        var i :| 0 <= i < |a| && a[i] == y;
        var j :| 0 <= j < |b| && b[j] == x;
      }
      var a', b' := a[..|a| - 1], b[..|b| - 1];
      assert Members(a') == Members(a) - {x};
      assert Members(b') == Members(b) - {x};
      SortedUnique(a', b');
      assert a == a' + [x] && b == b' + [x];
    }
  }

  lemma {:induction false} SortedExists(s: set<ID>) returns (ids: seq<ID>)
    ensures Sorted(ids) && Members(ids) == s
    decreases |s|
  {
    if s == {} {
      ids := [];
    } else {
      var m := Largest(s);
      var js := SortedExists(s - {m});
      ids := js + [m];
      SortedSnoc(js, m);
    }
  }

  lemma SortedSnoc(js: seq<ID>, m: ID)
    requires Sorted(js) && forall x <- Members(js) :: x < m
    ensures Sorted(js + [m]) && Members(js + [m]) == Members(js) + {m}
  {
    assert forall i :: 0 <= i < |js| ==> js[i] in Members(js);
  }

  lemma {:induction false} Largest(s: set<ID>) returns (m: ID)
    requires s != {}
    ensures m in s && forall x <- s :: x <= m
    decreases |s|
  {
    var x :| x in s;
    if s - {x} == {} {
      m := x;
      assert s == {x};
    } else {
      m := Largest(s - {x});
      assert forall y <- s :: y == x || y in s - {x};
      if m < x {
        m := x;
      }
    }
  }

  /** The members of a set in increasing order: what NewIDSlice makes of any enumeration. */
  ghost function SortedOf(s: set<ID>): (ids: seq<ID>)
    ensures Sorted(ids) && Members(ids) == s && |ids| == |s|
  {
    assert exists ids: seq<ID> :: Sorted(ids) && Members(ids) == s by {
      var ids := SortedExists(s);
    }
    var ids: seq<ID> :| Sorted(ids) && Members(ids) == s;
    SortedSize(ids);
    ids
  }

  predicate Nondecreasing(ids: seq<ID>) {
    forall i, j :: 0 <= i < j < |ids| ==> ids[i] <= ids[j]
  }

  /** NewIDSlice: a sorted copy. */
  method NewIDSlice(partyIDs: seq<ID>) returns (ids: seq<ID>)
    ensures Nondecreasing(ids) && multiset(ids) == multiset(partyIDs)
  {
    ids := [];
    for i := 0 to |partyIDs|
      invariant Nondecreasing(ids) && multiset(ids) == multiset(partyIDs[..i])
    {
      var x := partyIDs[i];
      var k := |ids|;
      while k > 0 && ids[k - 1] > x
        invariant 0 <= k <= |ids|
        invariant forall j :: k <= j < |ids| ==> x < ids[j]
      {
        k := k - 1;
      }
      InsertOrder(ids, k, x);
      InsertContents(ids, k, x);
      ids := ids[..k] + [x] + ids[k..];
      assert partyIDs[..i + 1] == partyIDs[..i] + [x];
    }
    assert partyIDs[..|partyIDs|] == partyIDs;
  }

  lemma InsertContents(ids: seq<ID>, k: nat, x: ID)
    requires k <= |ids|
    ensures multiset(ids[..k] + [x] + ids[k..]) == multiset(ids) + multiset{x}
  {
    InsertMultiset(ids[..k], ids[k..], x);
    assert ids == ids[..k] + ids[k..];
  }

  lemma InsertMultiset(a: seq<ID>, b: seq<ID>, x: ID)
    ensures multiset(a + [x] + b) == multiset(a + b) + multiset{x}
  {
  }

  lemma InsertOrder(ids: seq<ID>, k: nat, x: ID)
    requires Nondecreasing(ids) && k <= |ids|
    requires k > 0 ==> ids[k - 1] <= x
    requires forall j :: k <= j < |ids| ==> x < ids[j]
    ensures Nondecreasing(ids[..k] + [x] + ids[k..])
  {
  }

  /** Sorting a list without repetitions gives the increasing enumeration of its members. */
  lemma SortedCopy(ids: seq<ID>, sorted: seq<ID>)
    requires Nondecreasing(sorted) && multiset(sorted) == multiset(ids) && |Members(ids)| == |ids|
    ensures sorted == SortedOf(Members(ids))
  {
    assert forall x :: x in sorted <==> x in multiset(sorted);
    assert forall x :: x in ids <==> x in multiset(ids);
    assert Members(sorted) == Members(ids);
    assert |sorted| == |multiset(sorted)| == |multiset(ids)| == |ids|;
    FullSizeDistinct(sorted);
    SortedUnique(sorted, SortedOf(Members(ids)));
  }

  lemma {:induction false} FullSizeDistinct(ids: seq<ID>)
    requires |Members(ids)| == |ids|
    ensures forall i, j :: 0 <= i < j < |ids| ==> ids[i] != ids[j]
  {
    if ids != [] {
      var js, k := ids[..|ids| - 1], ids[|ids| - 1];
      MembersSize(js);
      assert Members(ids) == Members(js) + {k};
      FullSizeDistinct(js);
      assert k !in Members(js);
    }
  }

  lemma {:induction false} MembersSize(ids: seq<ID>)
    ensures |Members(ids)| <= |ids|
  {
    if ids == [] {
      assert Members(ids) == {};
    } else {
      var js, k := ids[..|ids| - 1], ids[|ids| - 1];
      MembersSize(js);
      assert Members(ids) == Members(js) + {k};
    }
  }

  /** What `ID.Lagrange` returns: an error exactly for the identifier 0 and for a
      non-member. */
  function LagrangeOf(q: Modulus, id: ID, ids: seq<ID>): Option<nat> {
    if id == 0 || id !in ids then None else Some(Coefficient(q, id, ids))
  }

  /** The loop of `ID.Lagrange`. The check for a zero denominator never fails, for any list
      of identifiers. */
  method Lagrange(q: Modulus, id: ID, partyIDs: seq<ID>) returns (r: Option<nat>)
    requires IsPrime(q) && q > 65535
    ensures r == LagrangeOf(q, id, partyIDs)
    ensures r.Some? ==> r.value < q && Cong(q, r.value * Denominator(q, id, partyIDs), Numerator(q, id, partyIDs))
  {
    if id == 0 {
      return None;
    }
    var num, denum := 1 % q, 1 % q;
    var foundSelf := false;
    for i := 0 to |partyIDs|
      invariant num == Numerator(q, id, partyIDs[..i])
      invariant denum == Denominator(q, id, partyIDs[..i])
      invariant foundSelf == (id in partyIDs[..i])
    {
      assert partyIDs[..i + 1] == partyIDs[..i] + [partyIDs[i]];
      assert (partyIDs[..i] + [partyIDs[i]])[..i] == partyIDs[..i];
      if partyIDs[i] == id {
        foundSelf := true;
      } else {
        num := num * partyIDs[i] % q;
        denum := denum * ((partyIDs[i] - id) % q) % q;
      }
    }
    assert partyIDs[..|partyIDs|] == partyIDs;
    if !foundSelf {
      return None;
    }
    DenominatorNonzero(q, id, partyIDs);
    if denum == 0 {
      return None;
    }
    CoefficientCorrect(q, id, partyIDs);
    r := Some(num * Inverse(q, denum) % q);
  }
}
