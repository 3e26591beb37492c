/** The prime-order group and the hash functions, as the rest of the code uses them.

    The group is cyclic of prime order q, so an element is given by a discrete logarithm. Like
    the coordinates of a point, the logarithm is not unique: `Equal` and the encodings look at
    it modulo q only. SHA-512, the reduction of
    64 bytes to a scalar and the byte encodings are arbitrary functions, collected in `Suite`:
    every theorem holds for all of them. */
module Group {
  import opened PrimeField

  datatype Option<+T> = None | Some(value: T)

  type Byte = x: nat | x < 256
  type Bytes = seq<Byte>

  datatype Element = Element(log: int)

  function Zero(): Element { Element(0) }

  function BaseMult(s: int): Element { Element(s) }

  function Mult(s: int, e: Element): Element { Element(s * e.log) }

  function Add(e: Element, f: Element): Element { Element(e.log + f.log) }

  function Negate(e: Element): Element { Element(-e.log) }

  /** VarTimeDoubleScalarBaseMult: [a]A + [b]B. */
  function DoubleMult(a: int, e: Element, b: int): Element { Element(a * e.log + b) }

  predicate Equal(q: Modulus, e: Element, f: Element) {
    Cong(q, e.log, f.log)
  }

  datatype Suite = Suite(
    q: Modulus,
    sha512: Bytes -> Bytes,
    uniform: Bytes -> nat,
    elementBytes: nat -> Bytes,
    elementBytesEd25519: nat -> Bytes,
    scalarBytes: nat -> Bytes,
    elementFrom: Bytes -> Option<nat>,
    scalarFrom: Bytes -> Option<nat>
  ) {
    /** What the group library guarantees: a prime order, room for every 32-bit index,
        canonical scalars, 64-byte digests, 32-byte codecs that decode exactly the encodings,
        and a 32-byte Ed25519 encoding that tells elements apart. */
    ghost predicate Valid() {
      && IsPrime(q) && q > 0x1_0000_0000
      && (forall b: Bytes :: |sha512(b)| == 64)
      && (forall b: Bytes :: uniform(b) < q)
      && (forall e: nat :: e < q ==> |elementBytes(e)| == 32)
      && (forall e: nat :: e < q ==> |elementBytesEd25519(e)| == 32)
      && (forall e: nat, f: nat :: e < q && f < q && elementBytesEd25519(e) == elementBytesEd25519(f) ==> e == f)
      && (forall s: nat :: s < q ==> |scalarBytes(s)| == 32)
      && (forall e: nat :: e < q ==> elementFrom(elementBytes(e)) == Some(e))
      && (forall s: nat :: s < q ==> scalarFrom(scalarBytes(s)) == Some(s))
      && (forall b: Bytes :: elementFrom(b).Some? ==> elementFrom(b).value < q && elementBytes(elementFrom(b).value) == b)
      && (forall b: Bytes :: scalarFrom(b).Some? ==> scalarFrom(b).value < q && scalarBytes(scalarFrom(b).value) == b)
    }

    function Encode(e: Element): Bytes { elementBytes(e.log % q) }

    function EncodeEd25519(e: Element): Bytes { elementBytesEd25519(e.log % q) }
  }
}
