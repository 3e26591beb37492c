/** Signing messages and their wire format. */
module Messages {
  import opened PrimeField
  import opened Group
  import opened Party
  import opened Frost
  import opened Wire

  const TypeNone: Byte := 0
  const TypeSign1: Byte := 1
  const TypeSign2: Byte := 2

  /** Header and the two optional payloads. */
  datatype Message = Message(typ: Byte, from: ID, to: ID, sign1: Option<PreShare>, sign2: Option<nat>)

  function NewSign1(from: ID, pre: PreShare): Message {
    Message(TypeSign1, from, 0, Some(pre), None)
  }

  function NewSign2(from: ID, z: nat): Message {
    Message(TypeSign2, from, 0, None, Some(z))
  }

  /** Scalars are reduced. */
  predicate ScalarReduced(q: Modulus, m: Message) {
    m.sign2.Some? ==> m.sign2.value < q
  }

  /** The payload that the type announces is there. */
  predicate Carries(q: Modulus, m: Message) {
    && (m.typ == TypeSign1 ==> m.sign1.Some?)
    && (m.typ == TypeSign2 ==> m.sign2.Some? && m.sign2.value < q)
  }

  // ---------------------------------------------------------------------------
  // Header
  // ---------------------------------------------------------------------------

  const HeaderSize := 5

  predicate GoodHeader(typ: Byte, from: ID, to: ID) {
    (typ == TypeSign1 || typ == TypeSign2) && to == 0 && from != 0
  }

  function IDValue(b: Bytes): (id: ID)
    requires |b| >= 2
  {
    var hi: nat := b[0];
    hi * 256 + b[1]
  }

  lemma IDRoundTrip(id: ID, tail: Bytes)
    ensures IDValue(IDBytes(id) + tail) == id
  {
  }

  /** Two bytes, the high one first. */
  lemma IDDigits(hi: Byte, lo: Byte, tail: Bytes)
    ensures IDBytes(hi as nat * 256 + lo as nat) == [hi, lo] && IDValue([hi, lo] + tail) == hi as nat * 256 + lo as nat
  {
  }

  function HeaderBytes(typ: Byte, from: ID, to: ID): (b: Bytes)
    ensures |b| == HeaderSize
  {
    [typ] + IDBytes(from) + IDBytes(to)
  }

  // ---------------------------------------------------------------------------
  // Messages
  // ---------------------------------------------------------------------------

  /** BytesAppend: refused for a bad header or a missing payload. */
  function BytesAppend(s: Suite, existing: Bytes, m: Message): Option<Bytes> {
    if !GoodHeader(m.typ, m.from, m.to) then None
    else
      var head := existing + HeaderBytes(m.typ, m.from, m.to);
      if m.typ == TypeSign1 && m.sign1.Some? then Some(head + (s.Encode(m.sign1.value.D) + s.Encode(m.sign1.value.E)))
      else if m.typ == TypeSign2 && m.sign2.Some? then Some(head + s.scalarBytes(m.sign2.value))
      else None
  }

  function Marshal(s: Suite, m: Message): Option<Bytes> {
    BytesAppend(s, [], m)
  }

  function Size(m: Message): nat {
    HeaderSize +
      if m.typ == TypeSign1 && m.sign1.Some? then 64
      else if m.typ == TypeSign2 && m.sign2.Some? then 32
      else 0
  }

  function ReadSign1(s: Suite, data: Bytes): Option<PreShare> {
    if |data| == 64 && s.elementFrom(data[..32]).Some? && s.elementFrom(data[32..]).Some?
    then Some(PreShare(Element(s.elementFrom(data[..32]).value), Element(s.elementFrom(data[32..]).value)))
    else None
  }

  function ReadSign2(s: Suite, data: Bytes): Option<nat> {
    if |data| == 32 then s.scalarFrom(data) else None
  }

  /** UnmarshalBinary: an error for a bad header only. A payload that does not parse is left
      out of the message without an error. */
  function Unmarshal(s: Suite, data: Bytes): Option<Message> {
    if |data| < HeaderSize then None
    else
      var typ, from, to := data[0], IDValue(data[1..]), IDValue(data[3..]);
      if !GoodHeader(typ, from, to) then None
      else if typ == TypeSign1 then Some(Message(typ, from, to, ReadSign1(s, data[HeaderSize..]), None))
      else Some(Message(typ, from, to, None, ReadSign2(s, data[HeaderSize..])))
  }

  /** Equal header and payload. */
  predicate Same(q: Modulus, m: Message, m': Message) {
    && m.typ == m'.typ && m.from == m'.from && m.to == m'.to && m.sign2 == m'.sign2
    && (m.sign1.Some? <==> m'.sign1.Some?)
    && (m.sign1.Some? ==> Equal(q, m.sign1.value.D, m'.sign1.value.D) && Equal(q, m.sign1.value.E, m'.sign1.value.E))
  }

  predicate WellFormed(q: Modulus, m: Message) {
    && GoodHeader(m.typ, m.from, m.to) && Carries(q, m)
    && (m.typ == TypeSign1 ==> m.sign2 == None) && (m.typ == TypeSign2 ==> m.sign1 == None)
  }

  lemma HeaderParses(typ: Byte, from: ID, to: ID, tail: Bytes)
    ensures
      var data := HeaderBytes(typ, from, to) + tail;
      data[0] == typ && IDValue(data[1..]) == from && IDValue(data[3..]) == to && data[5..] == tail
  {
  }

  /** Marshalling a well-formed message succeeds with exactly `Size` bytes, and unmarshalling
      gives an equal message. */
  lemma MarshalUnmarshal(s: Suite, m: Message)
    requires s.Valid() && WellFormed(s.q, m)
    ensures Marshal(s, m).Some? && |Marshal(s, m).value| == Size(m)
    ensures Unmarshal(s, Marshal(s, m).value).Some? && Same(s.q, Unmarshal(s, Marshal(s, m).value).value, m)
  {
    var tail := if m.typ == TypeSign1 then s.Encode(m.sign1.value.D) + s.Encode(m.sign1.value.E) else s.scalarBytes(m.sign2.value);
    var data := HeaderBytes(m.typ, m.from, m.to) + tail;
    assert [] + HeaderBytes(m.typ, m.from, m.to) == HeaderBytes(m.typ, m.from, m.to);
    assert Marshal(s, m) == Some(data);
    HeaderParses(m.typ, m.from, m.to, tail);
    hide HeaderBytes;
    hide IDValue;
    if m.typ == TypeSign1 {
      var pre := m.sign1.value;
      assert tail[..32] == s.Encode(pre.D) && tail[32..] == s.Encode(pre.E);
      CongMod(s.q, pre.D.log);
      CongMod(s.q, pre.E.log);
    }
  }

  /** A message that is read with its payload is written back byte for byte. */
  lemma UnmarshalMarshal(s: Suite, data: Bytes)
    requires s.Valid() && Unmarshal(s, data).Some?
    requires var m := Unmarshal(s, data).value; m.sign1.Some? || m.sign2.Some?
    ensures WellFormed(s.q, Unmarshal(s, data).value) && Marshal(s, Unmarshal(s, data).value) == Some(data)
  {
    var m, tail := Unmarshal(s, data).value, data[5..];
    HeaderWrites(data);
    assert [] + HeaderBytes(m.typ, m.from, m.to) == HeaderBytes(m.typ, m.from, m.to);
    hide HeaderBytes;
    hide IDValue;
    if m.typ == TypeSign1 {
      assert tail == tail[..32] + tail[32..];
      DecodedBytes(s, tail[..32]);
      DecodedBytes(s, tail[32..]);
    }
  }

  lemma HeaderWrites(data: Bytes)
    requires |data| >= HeaderSize
    ensures HeaderBytes(data[0], IDValue(data[1..]), IDValue(data[3..])) + data[5..] == data
  {
  }

  /** Which data is refused: too short, of an unknown type, from nobody, or not a broadcast. */
  lemma HeaderRefused(s: Suite, data: Bytes)
    ensures Unmarshal(s, data).None? <==>
      |data| < 5 || data[0] !in {1, 2} || data[1..3] == [0, 0] || data[3..5] != [0, 0]
    ensures forall existing: Bytes, m: Message :: BytesAppend(s, existing, m).None? <==>
      m.typ !in {1, 2} || m.from == 0 || m.to != 0 || (m.typ == 1 && m.sign1.None?) || (m.typ == 2 && m.sign2.None?)
  {
    if |data| >= 5 {
      ZeroID(data[1..]);
      ZeroID(data[3..]);
      assert data[1..][..2] == data[1..3] && data[3..][..2] == data[3..5];
    }
  }

  lemma ZeroID(b: Bytes)
    requires |b| >= 2
    ensures IDValue(b) == 0 <==> b[..2] == [0, 0]
  {
    assert b[..2] == [b[0], b[1]];
  }

  ghost predicate HasPayload(m: Message) {
    m.sign1.Some? || m.sign2.Some?
  }

  /** Some well-formed message is written as this data. */
  ghost predicate IsWritten(s: Suite, data: Bytes) {
    exists m :: WellFormed(s.q, m) && Marshal(s, m) == Some(data)
  }

  /** Unmarshalling without error does not mean that the payload was read: it was exactly when
      the data is what some well-formed message is marshalled to. */
  lemma PayloadExactly(s: Suite, data: Bytes)
    requires s.Valid() && Unmarshal(s, data).Some?
    ensures HasPayload(Unmarshal(s, data).value) <==> IsWritten(s, data)
  {
    if HasPayload(Unmarshal(s, data).value) {
      UnmarshalMarshal(s, data);
    }
    if m :| WellFormed(s.q, m) && Marshal(s, m) == Some(data) {
      MarshalUnmarshal(s, m);
      assert Carries(s.q, m);
    }
  }

  /** What a caller can look at: the length for the type, and canonical blocks. */
  lemma PayloadGuard(s: Suite, data: Bytes)
    requires s.Valid() && Unmarshal(s, data).Some?
    ensures IsWritten(s, data) <==>
      if data[0] == TypeSign1 then
        |data| == 69 && s.elementFrom(data[5..37]).Some? && s.elementFrom(data[37..69]).Some?
      else
        |data| == 37 && s.scalarFrom(data[5..37]).Some?
  {
    PayloadExactly(s, data);
    hide IsWritten;
    if |data| == 69 {
      assert data[5..][..32] == data[5..37] && data[5..][32..] == data[37..69];
    }
    if |data| == 37 {
      assert data[5..] == data[5..37];
    }
  }

  lemma EmptyPayloadAccepted(s: Suite)
    ensures Unmarshal(s, [1, 0, 7, 0, 0]) == Some(Message(TypeSign1, 7, 0, None, None))
  {
  }
}
