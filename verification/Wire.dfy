/** Byte strings: big-endian numbers and sequences of blocks of one size. */
module Wire {
  import opened PrimeField
  import opened Group
  import opened Sums

  /** PutUint32 */
  function U32(x: nat): (b: Bytes)
    ensures |b| == 4
  {
    var y := x % 0x1_0000_0000;
    [y / 256 / 256 / 256, y / 256 / 256 % 256, y / 256 % 256, y % 256]
  }

  function U32Value(b: Bytes): (x: nat)
    requires |b| == 4
    ensures x < 0x1_0000_0000
  {
    var b0: nat, b1: nat, b2: nat := b[0], b[1], b[2];
    b0 * 0x100_0000 + b1 * 0x1_0000 + b2 * 256 + b[3]
  }

  lemma U32RoundTrip(x: nat)
    ensures U32Value(U32(x)) == x % 0x1_0000_0000
  {
  }

  lemma U32ValueRoundTrip(b: Bytes)
    requires |b| == 4
    ensures U32(U32Value(b)) == b
  {
    var y := U32Value(b);
    var b0: nat, b1: nat := b[0], b[1];
    assert y / 256 == b0 * 0x1_0000 + b1 * 256 + b[2];
    assert y / 256 / 256 == b0 * 256 + b1;
  }

  /** The bytes are the base-256 digits, the highest first. */
  lemma U32Digits(a: Byte, b: Byte, c: Byte, d: Byte)
    ensures U32(((a as nat * 256 + b as nat) * 256 + c as nat) * 256 + d as nat) == [a, b, c, d]
  {
    var x: nat := ((a as nat * 256 + b as nat) * 256 + c as nat) * 256 + d as nat;
    U32ValueRoundTrip([a, b, c, d]);
    assert U32Value([a, b, c, d]) == x;
  }

  lemma U32Injective(x: nat, y: nat)
    requires x < 0x1_0000_0000 && y < 0x1_0000_0000 && U32(x) == U32(y)
    ensures x == y
  {
    U32RoundTrip(x);
    U32RoundTrip(y);
  }

  function Join(blocks: seq<Bytes>): Bytes {
    if blocks == [] then [] else Join(blocks[..|blocks| - 1]) + blocks[|blocks| - 1]
  }

  lemma JoinSnoc(blocks: seq<Bytes>, b: Bytes)
    ensures Join(blocks + [b]) == Join(blocks) + b
  {
  }

  predicate Uniform(blocks: seq<Bytes>, k: nat) {
    forall i :: 0 <= i < |blocks| ==> |blocks[i]| == k
  }

  lemma {:induction false} JoinSize(blocks: seq<Bytes>, k: nat)
    requires Uniform(blocks, k)
    ensures |Join(blocks)| == k * |blocks|
  {
    if blocks != [] {
      JoinSize(blocks[..|blocks| - 1], k);
      assert k * |blocks| == k * (|blocks| - 1) + k;
    }
  }

  /** Block i lies within the data. */
  lemma BlockFits(k: nat, i: nat, n: nat)
    requires i < n
    ensures k * i + k == k * (i + 1) <= k * n
  {
  }

  function Block(data: Bytes, k: nat, i: nat): Bytes {
    if k * i + k <= |data| then data[k * i..k * i + k] else []
  }

  /** The first n blocks of size k. */
  function Blocks(data: Bytes, k: nat, n: nat): (blocks: seq<Bytes>)
    ensures |blocks| == n
  {
    seq(n, i requires 0 <= i < n => Block(data, k, i))
  }

  lemma BlocksHaveSize(data: Bytes, k: nat, n: nat)
    requires k * n <= |data|
    ensures Uniform(Blocks(data, k, n), k)
  {
    forall i | 0 <= i < n
      ensures |Blocks(data, k, n)[i]| == k
    {
      BlockFits(k, i, n);
    }
  }

  lemma {:induction false} JoinBlocks(data: Bytes, k: nat, n: nat)
    requires k * n <= |data|
    ensures Join(Blocks(data, k, n)) == data[..k * n]
  {
    if n > 0 {
      BlockFits(k, n - 1, n);
      JoinBlocks(data, k, n - 1);
      assert Blocks(data, k, n)[..n - 1] == Blocks(data, k, n - 1);
      assert data[..k * n] == data[..k * (n - 1)] + data[k * (n - 1)..k * n];
    }
  }

  lemma {:induction false} BlocksJoin(blocks: seq<Bytes>, k: nat, tail: Bytes)
    requires Uniform(blocks, k)
    ensures k * |blocks| <= |Join(blocks) + tail| && Blocks(Join(blocks) + tail, k, |blocks|) == blocks
  {
    JoinSize(blocks, k);
    if blocks != [] {
      var n := |blocks| - 1;
      var last := blocks[n];
      JoinSize(blocks[..n], k);
      BlocksJoin(blocks[..n], k, last + tail);
      assert Join(blocks) + tail == Join(blocks[..n]) + (last + tail);
      assert blocks == blocks[..n] + [last];
      hide Join;
      BlocksNext(blocks[..n], last, k, Join(blocks[..n]), tail);
    }
  }

  lemma BlocksNext(blocks: seq<Bytes>, last: Bytes, k: nat, head: Bytes, tail: Bytes)
    requires |head| == k * |blocks| && |last| == k && Blocks(head + (last + tail), k, |blocks|) == blocks
    ensures k * (|blocks| + 1) <= |head + (last + tail)|
    ensures Blocks(head + (last + tail), k, |blocks| + 1) == blocks + [last]
  {
    var data, n := head + (last + tail), |blocks|;
    BlockFits(k, n, n + 1);
    assert Block(data, k, n) == last;
    hide Block;
    forall i | 0 <= i < n + 1
      ensures Blocks(data, k, n + 1)[i] == (blocks + [last])[i]
    {
      if i < n {
        assert Blocks(data, k, n)[i] == blocks[i];
      }
    }
  }

  // ---------------------------------------------------------------------------
  // Elements and scalars
  // ---------------------------------------------------------------------------

  function ElementBlocks(s: Suite, es: seq<Element>): (blocks: seq<Bytes>)
    ensures |blocks| == |es|
  {
    seq(|es|, i requires 0 <= i < |es| => s.Encode(es[i]))
  }

  function ScalarBlocks(s: Suite, zs: seq<nat>): (blocks: seq<Bytes>)
    ensures |blocks| == |zs|
  {
    seq(|zs|, i requires 0 <= i < |zs| => s.scalarBytes(zs[i]))
  }

  predicate Reduced(s: Suite, zs: seq<nat>) {
    forall i :: 0 <= i < |zs| ==> zs[i] < s.q
  }

  lemma BlocksUniform(s: Suite, es: seq<Element>, zs: seq<nat>)
    requires s.Valid() && Reduced(s, zs)
    ensures Uniform(ElementBlocks(s, es), 32) && Uniform(ScalarBlocks(s, zs), 32)
  {
  }

  /** Appending the encodings one by one. */
  method AppendElements(s: Suite, data: Bytes, es: seq<Element>) returns (out: Bytes)
    ensures out == data + Join(ElementBlocks(s, es))
  {
    out := data;
    for i := 0 to |es|
      invariant out == data + Join(ElementBlocks(s, es[..i]))
    {
      TakeSnoc(es, i);
      assert ElementBlocks(s, es[..i + 1]) == ElementBlocks(s, es[..i]) + [s.Encode(es[i])];
      JoinSnoc(ElementBlocks(s, es[..i]), s.Encode(es[i]));
      out := out + s.Encode(es[i]);
    }
    assert es[..|es|] == es;
  }

  method AppendScalars(s: Suite, data: Bytes, zs: seq<nat>) returns (out: Bytes)
    ensures out == data + Join(ScalarBlocks(s, zs))
  {
    out := data;
    for i := 0 to |zs|
      invariant out == data + Join(ScalarBlocks(s, zs[..i]))
    {
      TakeSnoc(zs, i);
      assert ScalarBlocks(s, zs[..i + 1]) == ScalarBlocks(s, zs[..i]) + [s.scalarBytes(zs[i])];
      JoinSnoc(ScalarBlocks(s, zs[..i]), s.scalarBytes(zs[i]));
      out := out + s.scalarBytes(zs[i]);
    }
    assert zs[..|zs|] == zs;
  }

  /** Equality of group elements is equality of encodings. */
  lemma EncodeExact(s: Suite, e: Element, f: Element)
    requires s.Valid()
    ensures s.Encode(e) == s.Encode(f) <==> Equal(s.q, e, f)
  {
  }

  /** What is decoded is encoded as the same bytes. */
  lemma DecodedBytes(s: Suite, b: Bytes)
    requires s.Valid() && s.elementFrom(b).Some?
    ensures s.Encode(Element(s.elementFrom(b).value)) == b
  {
    assert s.elementFrom(b).value % s.q == s.elementFrom(b).value;
  }

  predicate EqualAll(s: Suite, es: seq<Element>, fs: seq<Element>) {
    |es| == |fs| && forall i :: 0 <= i < |es| ==> Equal(s.q, es[i], fs[i])
  }

  lemma ElementBlocksExact(s: Suite, es: seq<Element>, fs: seq<Element>)
    requires s.Valid()
    ensures ElementBlocks(s, es) == ElementBlocks(s, fs) <==> EqualAll(s, es, fs)
  {
    if ElementBlocks(s, es) == ElementBlocks(s, fs) {
      forall i | 0 <= i < |es|
        ensures Equal(s.q, es[i], fs[i])
      {
        assert ElementBlocks(s, es)[i] == ElementBlocks(s, fs)[i];
        EncodeExact(s, es[i], fs[i]);
      }
    }
    if EqualAll(s, es, fs) {
      forall i | 0 <= i < |es|
        ensures ElementBlocks(s, es)[i] == ElementBlocks(s, fs)[i]
      {
        EncodeExact(s, es[i], fs[i]);
      }
    }
  }

  // ---------------------------------------------------------------------------
  // Lists of elements and scalars
  // ---------------------------------------------------------------------------

  predicate AllElements(s: Suite, blocks: seq<Bytes>) {
    forall i :: 0 <= i < |blocks| ==> s.elementFrom(blocks[i]).Some?
  }

  predicate AllScalars(s: Suite, blocks: seq<Bytes>) {
    forall i :: 0 <= i < |blocks| ==> s.scalarFrom(blocks[i]).Some?
  }

  function Elements(s: Suite, blocks: seq<Bytes>): (es: seq<Element>)
    requires AllElements(s, blocks)
    ensures |es| == |blocks|
  {
    seq(|blocks|, i requires 0 <= i < |blocks| => Element(s.elementFrom(blocks[i]).value))
  }

  function Scalars(s: Suite, blocks: seq<Bytes>): (zs: seq<nat>)
    requires AllScalars(s, blocks)
    ensures |zs| == |blocks|
  {
    seq(|blocks|, i requires 0 <= i < |blocks| => s.scalarFrom(blocks[i]).value)
  }

  /** The canonical representatives. */
  function Canonical(s: Suite, es: seq<Element>): (fs: seq<Element>)
    ensures |fs| == |es|
  {
    seq(|es|, i requires 0 <= i < |es| => Element(es[i].log % s.q))
  }

  lemma CanonicalEqual(s: Suite, es: seq<Element>)
    requires s.Valid()
    ensures EqualAll(s, Canonical(s, es), es) && ElementBlocks(s, Canonical(s, es)) == ElementBlocks(s, es)
  {
    forall i | 0 <= i < |es|
      ensures Equal(s.q, Canonical(s, es)[i], es[i])
    {
      CongMod(s.q, es[i].log);
    }
    ElementBlocksExact(s, Canonical(s, es), es);
  }

  lemma ElementsOfBlocks(s: Suite, es: seq<Element>)
    requires s.Valid()
    ensures AllElements(s, ElementBlocks(s, es)) && Elements(s, ElementBlocks(s, es)) == Canonical(s, es)
  {
  }

  lemma ScalarsOfBlocks(s: Suite, zs: seq<nat>)
    requires s.Valid() && Reduced(s, zs)
    ensures AllScalars(s, ScalarBlocks(s, zs)) && Scalars(s, ScalarBlocks(s, zs)) == zs
  {
  }

  lemma BlocksOfElements(s: Suite, blocks: seq<Bytes>)
    requires s.Valid() && AllElements(s, blocks)
    ensures ElementBlocks(s, Elements(s, blocks)) == blocks
  {
    hide Suite.Valid;
    hide Suite.Encode;
    forall i | 0 <= i < |blocks|
      ensures ElementBlocks(s, Elements(s, blocks))[i] == blocks[i]
    {
      DecodedBytes(s, blocks[i]);
    }
  }

  lemma BlocksOfScalars(s: Suite, blocks: seq<Bytes>)
    requires s.Valid() && AllScalars(s, blocks)
    ensures ScalarBlocks(s, Scalars(s, blocks)) == blocks && Reduced(s, Scalars(s, blocks))
  {
  }

  method DecodeElements(s: Suite, rest: Bytes, n: nat) returns (ok: bool, es: seq<Element>)
    requires 32 * n <= |rest|
    ensures ok <==> AllElements(s, Blocks(rest, 32, n))
    ensures ok ==> es == Elements(s, Blocks(rest, 32, n))
  {
    es := [];
    ghost var blocks := Blocks(rest, 32, n);
    for i := 0 to n
      invariant forall k :: 0 <= k < i ==> s.elementFrom(blocks[k]).Some?
      invariant |es| == i && forall k :: 0 <= k < i ==> es[k] == Element(s.elementFrom(blocks[k]).value)
    {
      var b := rest[i * 32..(i + 1) * 32];
      assert b == blocks[i];
      var e := s.elementFrom(b);
      if e.None? {
        return false, [];
      }
      es := es + [Element(e.value)];
    }
    ok := true;
  }

  method DecodeScalars(s: Suite, rest: Bytes, n: nat) returns (ok: bool, zs: seq<nat>)
    requires 32 * n <= |rest|
    ensures ok <==> AllScalars(s, Blocks(rest, 32, n))
    ensures ok ==> zs == Scalars(s, Blocks(rest, 32, n))
  {
    zs := [];
    ghost var blocks := Blocks(rest, 32, n);
    for i := 0 to n
      invariant forall k :: 0 <= k < i ==> s.scalarFrom(blocks[k]).Some?
      invariant |zs| == i && forall k :: 0 <= k < i ==> zs[k] == s.scalarFrom(blocks[k]).value
    {
      var b := rest[i * 32..(i + 1) * 32];
      assert b == blocks[i];
      var z := s.scalarFrom(b);
      if z.None? {
        return false, [];
      }
      zs := zs + [z.value];
    }
    ok := true;
  }
}
