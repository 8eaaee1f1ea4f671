/**
 * What the decoder's primitives find in the encoding of a field: its tag, its
 * value and the cursor just past it; for an embedded message, its tag, its
 * length and its payload right after. These facts are the bridge between the
 * encoder of GtfsMessages and the decoder loops of Gtfs; they are stated
 * without the loops, so that the two halves of the round trip are proved apart.
 */
module GtfsLayout {
  import opened Results
  import opened Bits
  import opened Wire
  import opened WireEncoding
  import opened Gtfs
  import opened GtfsMessages

  // ---------------------------------------------------------------------------
  // One field, as the primitives read it

  /** A string field: its tag, then readString yields the decoded string and the end of the field. */
  ghost predicate StringFieldAt(bytes: seq<byte>, s: nat, field: nat, b: seq<byte>) {
    var q := s + |EncodeVarint(Tag(field, 2))|;
    && Varint32At(bytes, s) == Ok((Tag(field, 2), q))
    && StringAt(bytes, q) == Ok((DecodeUtf8(b), s + |Delimited(field, b)|))
  }

  /** A float field: its tag, then the four bytes of the float. */
  ghost predicate FloatFieldAt(bytes: seq<byte>, s: nat, field: nat, x: Float32) {
    var q := s + |EncodeVarint(Tag(field, 5))|;
    Varint32At(bytes, s) == Ok((Tag(field, 5), q)) && Float32At(bytes, q) == Ok(x)
  }

  /** A varint field holding a 32-bit value: its tag, then readVarint32 yields the value and the end of the field. */
  ghost predicate Varint32FieldAt(bytes: seq<byte>, s: nat, field: nat, n: nat) {
    var q := s + |EncodeVarint(Tag(field, 0))|;
    Varint32At(bytes, s) == Ok((Tag(field, 0), q)) && Varint32At(bytes, q) == Ok((n, q + |EncodeVarint(n)|))
  }

  /** A varint field read with readVarint64: its tag, then the value and the end of the field. */
  ghost predicate Varint64FieldAt(bytes: seq<byte>, s: nat, field: nat, n: nat) {
    var q := s + |EncodeVarint(Tag(field, 0))|;
    Varint32At(bytes, s) == Ok((Tag(field, 0), q)) && Varint64At(bytes, q) == Ok((n, q + |EncodeVarint(n)|))
  }

  /** The tag and length prefix of an embedded message whose payload has `len` bytes. */
  ghost predicate HeaderAt(bytes: seq<byte>, s: nat, field: nat, len: nat) {
    var q := s + |EncodeVarint(Tag(field, 2))|;
    Varint32At(bytes, s) == Ok((Tag(field, 2), q)) && Varint32At(bytes, q) == Ok((len, PayloadStart(s, field, len)))
  }

  function PayloadStart(s: nat, field: nat, len: nat): nat {
    s + |EncodeVarint(Tag(field, 2))| + |EncodeVarint(len)|
  }

  /** A field nobody interprets: its tag, then skipField lands at the end of the field. */
  ghost predicate UnknownAt(bytes: seq<byte>, s: nat, u: UnknownField) {
    var tag := Tag(u.number, WireOf(u.payload));
    var q := s + |EncodeVarint(tag)|;
    && Varint32At(bytes, s) == Ok((tag, q))
    && tag / 8 == u.number && tag % 8 == WireOf(u.payload)
    && SkipFieldAt(bytes, q, WireOf(u.payload)) == Ok(s + |EncodeUnknown(u)|)
  }

  /** A tag reads back as its field number and wire type. */
  lemma TagRead(bytes: seq<byte>, s: nat, field: nat, wire: nat, rest: seq<byte>)
    requires field < FieldLimit && wire < 8
    requires Embeds(bytes, s, EncodeVarint(Tag(field, wire)) + rest)
    ensures Varint32At(bytes, s) == Ok((Tag(field, wire), s + |EncodeVarint(Tag(field, wire))|))
    ensures Tag(field, wire) / 8 == field && Tag(field, wire) % 8 == wire
    ensures Embeds(bytes, s + |EncodeVarint(Tag(field, wire))|, rest)
  {
    EmbedsSplit(bytes, s, EncodeVarint(Tag(field, wire)), rest);
    Varint32RoundTrip(bytes, s, Tag(field, wire));
  }

  /** A length-delimited field reads back as its tag and its length. */
  lemma DelimitedRead(bytes: seq<byte>, s: nat, field: nat, payload: seq<byte>)
    requires field < FieldLimit && |payload| < Word
    requires Embeds(bytes, s, Delimited(field, payload))
    ensures HeaderAt(bytes, s, field, |payload|)
  {
    TagRead(bytes, s, field, 2, EncodeBytes(payload));
    LengthPrefix(bytes, s + |EncodeVarint(Tag(field, 2))|, payload);
  }

  /** The payload of a length-delimited field lies right after its tag and length. */
  lemma DelimitedPayload(bytes: seq<byte>, s: nat, field: nat, payload: seq<byte>)
    requires Embeds(bytes, s, Delimited(field, payload))
    ensures Embeds(bytes, PayloadStart(s, field, |payload|), payload)
    ensures PayloadStart(s, field, |payload|) + |payload| == s + |Delimited(field, payload)|
  {
    EmbedsSplit(bytes, s, EncodeVarint(Tag(field, 2)), EncodeBytes(payload));
    EmbedsSplit(bytes, s + |EncodeVarint(Tag(field, 2))|, EncodeVarint(|payload|), payload);
  }

  lemma StringFieldRead(bytes: seq<byte>, s: nat, field: nat, b: seq<byte>)
    requires field < FieldLimit && |b| < Word
    requires Embeds(bytes, s, Delimited(field, b))
    ensures StringFieldAt(bytes, s, field, b)
  {
    TagRead(bytes, s, field, 2, EncodeBytes(b));
    StringRoundTrip(bytes, s + |EncodeVarint(Tag(field, 2))|, b);
  }

  lemma FloatRead(bytes: seq<byte>, p: nat, f: Float32)
    requires Embeds(bytes, p, FloatBytes(f))
    ensures Float32At(bytes, p) == Ok(f)
  {
    EmbedsIndex(bytes, p, FloatBytes(f), 0);
    EmbedsIndex(bytes, p, FloatBytes(f), 1);
    EmbedsIndex(bytes, p, FloatBytes(f), 2);
    EmbedsIndex(bytes, p, FloatBytes(f), 3);
  }

  lemma FloatFieldRead(bytes: seq<byte>, s: nat, field: nat, f: Float32)
    requires field < FieldLimit
    requires Embeds(bytes, s, EncodeVarint(Tag(field, 5)) + FloatBytes(f))
    ensures FloatFieldAt(bytes, s, field, f)
  {
    TagRead(bytes, s, field, 5, FloatBytes(f));
    FloatRead(bytes, s + |EncodeVarint(Tag(field, 5))|, f);
  }

  /** A varint field (wire type 0) holding a 32-bit value: its tag, then the value as readVarint32 reads it. */
  lemma Varint32FieldRead(bytes: seq<byte>, s: nat, field: nat, n: nat)
    requires field < FieldLimit && n < Word
    requires Embeds(bytes, s, EncodeVarint(Tag(field, 0)) + EncodeVarint(n))
    ensures Varint32FieldAt(bytes, s, field, n)
  {
    TagRead(bytes, s, field, 0, EncodeVarint(n));
    Varint32RoundTrip(bytes, s + |EncodeVarint(Tag(field, 0))|, n);
  }

  /** A varint field holding a value below 2^77: its tag, then the value as readVarint64 reads it. */
  lemma Varint64FieldRead(bytes: seq<byte>, s: nat, field: nat, n: nat)
    requires field < FieldLimit && n < Varint64Bound
    requires Embeds(bytes, s, EncodeVarint(Tag(field, 0)) + EncodeVarint(n))
    ensures Varint64FieldAt(bytes, s, field, n)
  {
    TagRead(bytes, s, field, 0, EncodeVarint(n));
    Varint64RoundTrip(bytes, s + |EncodeVarint(Tag(field, 0))|, n);
  }

  /** skipField passes over exactly the encoding of a payload, whatever its wire type. */
  lemma PayloadSkipped(bytes: seq<byte>, q: nat, p: Payload)
    requires (p.Fixed64Payload? ==> |p.b| == 8) && (p.Fixed32Payload? ==> |p.b| == 4)
    requires p.BytesPayload? ==> |p.b| < Word
    requires Embeds(bytes, q, EncodePayload(p))
    ensures SkipFieldAt(bytes, q, WireOf(p)) == Ok(q + |EncodePayload(p)|)
  {
    match p
    case VarintPayload(n) =>
      SkipVarintEncoding(bytes, q, n);
    case Fixed64Payload(_) =>
    case BytesPayload(b) =>
      LengthPrefix(bytes, q, b);
    case Fixed32Payload(_) =>
  }

  lemma UnknownRead(bytes: seq<byte>, s: nat, u: UnknownField)
    requires ValidUnknown(u) && Embeds(bytes, s, EncodeUnknown(u))
    ensures UnknownAt(bytes, s, u)
  {
    var tag := Tag(u.number, WireOf(u.payload));
    TagRead(bytes, s, u.number, WireOf(u.payload), EncodePayload(u.payload));
    PayloadSkipped(bytes, s + |EncodeVarint(tag)|, u.payload);
  }
}
