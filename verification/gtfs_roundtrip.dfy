/**
 * The round trip of the decoder: for every well-formed message, built from
 * fields in any order and with any fields the worker does not know mixed in,
 * each decoder loop of Gtfs returns what GtfsMessages says the message means,
 * and parseGtfsRtVehiclePositions returns the vehicles of its entities.
 *
 * The proof has two halves, kept apart. The layout half starts from the
 * encoding: `XFieldsLaidOut` shows that in the bytes of an encoded field
 * sequence, field after field, the decoder's primitives find the tags, lengths
 * and values of GtfsLayout (`XFieldsAt`). The decoding half starts from those
 * facts alone: `XFieldsAtRead` shows, one field and one turn of the loop at a
 * time, that the loop returns the meaning of the fields. Every turn is stated
 * for the final result of the loop, `result`: if the loop returns `result` from
 * the cursor after the field, it returns `result` from the cursor before it.
 */
module GtfsRoundTrip {
  import opened Results
  import opened Bits
  import opened Wire
  import opened WireEncoding
  import opened Gtfs
  import opened GtfsMessages
  import opened GtfsLayout
  import Strings

  // ---------------------------------------------------------------------------
  // "The loop, run from cursor p with state st, returns result", one per loop

  ghost predicate PositionDecodes(bytes: seq<byte>, p: nat, end: nat, st: PositionState, result: PositionState) {
    PositionLoop(bytes, p, end, st) == Ok(result)
  }

  ghost predicate TripDecodes(bytes: seq<byte>, p: nat, end: nat, st: TripState, result: TripState) {
    TripLoop(bytes, p, end, st) == Ok(result)
  }

  ghost predicate DescriptorDecodes(bytes: seq<byte>, p: nat, end: nat, id: string, result: string) {
    DescriptorLoop(bytes, p, end, id) == Ok(result)
  }

  ghost predicate VehicleDecodes(bytes: seq<byte>, p: nat, end: nat, st: VehicleState, result: VehicleState) {
    VehicleLoop(bytes, p, end, st) == Ok(result)
  }

  ghost predicate EntityDecodes(bytes: seq<byte>, p: nat, end: nat, st: EntityState, result: EntityState) {
    EntityLoop(bytes, p, end, st) == Ok(result)
  }

  ghost predicate FeedDecodes(bytes: seq<byte>, p: nat, out: seq<Vehicle>, result: seq<Vehicle>) {
    FeedLoop(bytes, p, out) == Ok(result)
  }

  // ---------------------------------------------------------------------------
  // Position

  /** The encoding of f lies at s. */
  ghost predicate PositionFieldEmbedded(bytes: seq<byte>, s: nat, f: PositionField) {
    Embeds(bytes, s, EncodePositionField(f))
  }

  /** The encodings of the fields of fs lie one after the other from s on. */
  ghost predicate PositionFieldsEmbedded(bytes: seq<byte>, s: nat, fs: seq<PositionField>)
    decreases |fs|
  {
    fs != [] ==> PositionFieldEmbedded(bytes, s, fs[0]) && PositionFieldsEmbedded(bytes, s + |EncodePositionField(fs[0])|, fs[1..])
  }

  /** An encoded field sequence holds the encoding of each field in turn. */
  lemma {:induction false} PositionFieldsEmbed(bytes: seq<byte>, s: nat, fs: seq<PositionField>)
    requires Embeds(bytes, s, EncodePositionFields(fs))
    ensures PositionFieldsEmbedded(bytes, s, fs)
    decreases |fs|
  {
    hide Embeds, EncodePositionField;
    if fs != [] {
      EmbedsSplit(bytes, s, EncodePositionField(fs[0]), EncodePositionFields(fs[1..]));
      PositionFieldsEmbed(bytes, s + |EncodePositionField(fs[0])|, fs[1..]);
    }
  }

  /** What the primitives find at s when the field f of a Position is encoded there. */
  ghost predicate PositionFieldAt(bytes: seq<byte>, s: nat, f: PositionField) {
    match f
    case Latitude(x) =>
      FloatFieldAt(bytes, s, 1, x)
    case Longitude(x) =>
      FloatFieldAt(bytes, s, 2, x)
    case Bearing(x) =>
      FloatFieldAt(bytes, s, 3, x)
    case PositionExtra(u) =>
      UnknownAt(bytes, s, u)
  }


  /** An encoded field lies where the decoder looks for it. */
  lemma PositionFieldLaidOut(bytes: seq<byte>, s: nat, f: PositionField)
    requires ValidPositionField(f) && PositionFieldEmbedded(bytes, s, f)
    ensures PositionFieldAt(bytes, s, f)
  {
    hide Embeds, Varint32At, Varint64At, StringAt, Float32At, SkipFieldAt, DecodeUtf8, EncodeVarint, StringFieldAt, FloatFieldAt, Varint32FieldAt, Varint64FieldAt, HeaderAt, UnknownAt;
    match f
    case Latitude(x) =>
      FloatFieldRead(bytes, s, 1, x);
    case Longitude(x) =>
      FloatFieldRead(bytes, s, 2, x);
    case Bearing(x) =>
      FloatFieldRead(bytes, s, 3, x);
    case PositionExtra(u) =>
      UnknownRead(bytes, s, u);
  }

  /** The fields of fs are laid out one after the other, from s up to end. */
  ghost predicate PositionFieldsAt(bytes: seq<byte>, s: nat, end: nat, fs: seq<PositionField>)
    decreases |fs|, 1
  {
    if fs == [] then s == end else PositionFirstFieldAt(bytes, s, end, fs)
  }

  /** The first field of fs lies at s, and the others follow it. */
  ghost predicate PositionFirstFieldAt(bytes: seq<byte>, s: nat, end: nat, fs: seq<PositionField>)
    requires fs != []
    decreases |fs|, 0
  {
    && s + |EncodePositionField(fs[0])| <= end
    && PositionFieldAt(bytes, s, fs[0])
    && PositionFieldsAt(bytes, s + |EncodePositionField(fs[0])|, end, fs[1..])
  }

  /** An encoded field sequence is laid out field after field. */
  lemma {:induction false} PositionFieldsLaidOut(bytes: seq<byte>, s: nat, fs: seq<PositionField>)
    requires ValidPositionFields(fs) && PositionFieldsEmbedded(bytes, s, fs)
    ensures PositionFieldsAt(bytes, s, s + |EncodePositionFields(fs)|, fs)
    decreases |fs|
  {
    hide PositionFieldAt, PositionFieldEmbedded, EncodePositionField;
    if fs != [] {
      PositionFieldLaidOut(bytes, s, fs[0]);
      PositionFieldsLaidOut(bytes, s + |EncodePositionField(fs[0])|, fs[1..]);
      assert PositionFirstFieldAt(bytes, s, s + |EncodePositionFields(fs)|, fs);
    }
  }

  /** Field 1 with wire type 5 is read with getFloat32 into lat. */
  lemma PositionLatitudeRead(bytes: seq<byte>, s: nat, end: nat, st: PositionState, f: PositionField, result: PositionState)
    requires f.Latitude?
    requires ValidPositionField(f) && PositionFieldAt(bytes, s, f) && s < end
    requires PositionDecodes(bytes, s + |EncodePositionField(f)|, end, PositionStep(st, f), result)
    ensures PositionDecodes(bytes, s, end, st, result)
  {
    hide Varint32At, Varint64At, StringAt, Float32At, SkipFieldAt, DecodeUtf8, EncodeVarint, EncodeUnknown, EncodePayload;
    var x := f.lat;
    var q := s + |EncodeVarint(Tag(1, 5))|;
    var t := Varint32At(bytes, s);
    assert !t.IsFailure() && t.Extract() == (Tag(1, 5), q);
    var r := Float32At(bytes, q);
    assert !r.IsFailure() && r.Extract() == x;
    assert s + |EncodePositionField(f)| == q + 4;
    assert PositionStep(st, f) == st.(lat := x);
    assert PositionLoop(bytes, s, end, st) == PositionTurn(bytes, s, end, st);
    assert PositionTurn(bytes, s, end, st) == Ok(result);
  }

  /** Field 2 with wire type 5 is read with getFloat32 into lon. */
  lemma PositionLongitudeRead(bytes: seq<byte>, s: nat, end: nat, st: PositionState, f: PositionField, result: PositionState)
    requires f.Longitude?
    requires ValidPositionField(f) && PositionFieldAt(bytes, s, f) && s < end
    requires PositionDecodes(bytes, s + |EncodePositionField(f)|, end, PositionStep(st, f), result)
    ensures PositionDecodes(bytes, s, end, st, result)
  {
    hide Varint32At, Varint64At, StringAt, Float32At, SkipFieldAt, DecodeUtf8, EncodeVarint, EncodeUnknown, EncodePayload;
    var x := f.lon;
    var q := s + |EncodeVarint(Tag(2, 5))|;
    var t := Varint32At(bytes, s);
    assert !t.IsFailure() && t.Extract() == (Tag(2, 5), q);
    var r := Float32At(bytes, q);
    assert !r.IsFailure() && r.Extract() == x;
    assert s + |EncodePositionField(f)| == q + 4;
    assert PositionStep(st, f) == st.(lon := x);
    assert PositionLoop(bytes, s, end, st) == PositionTurn(bytes, s, end, st);
    assert PositionTurn(bytes, s, end, st) == Ok(result);
  }

  /** Field 3 with wire type 5 is read with getFloat32 into bearing. */
  lemma PositionBearingRead(bytes: seq<byte>, s: nat, end: nat, st: PositionState, f: PositionField, result: PositionState)
    requires f.Bearing?
    requires ValidPositionField(f) && PositionFieldAt(bytes, s, f) && s < end
    requires PositionDecodes(bytes, s + |EncodePositionField(f)|, end, PositionStep(st, f), result)
    ensures PositionDecodes(bytes, s, end, st, result)
  {
    hide Varint32At, Varint64At, StringAt, Float32At, SkipFieldAt, DecodeUtf8, EncodeVarint, EncodeUnknown, EncodePayload;
    var x := f.bearing;
    var q := s + |EncodeVarint(Tag(3, 5))|;
    var t := Varint32At(bytes, s);
    assert !t.IsFailure() && t.Extract() == (Tag(3, 5), q);
    var r := Float32At(bytes, q);
    assert !r.IsFailure() && r.Extract() == x;
    assert s + |EncodePositionField(f)| == q + 4;
    assert PositionStep(st, f) == st.(bearing := x);
    assert PositionLoop(bytes, s, end, st) == PositionTurn(bytes, s, end, st);
    assert PositionTurn(bytes, s, end, st) == Ok(result);
  }

  /** A field the loop does not interpret is passed over by skipField, the state unchanged. */
  lemma PositionSkipRead(bytes: seq<byte>, s: nat, end: nat, st: PositionState, f: PositionField, result: PositionState)
    requires f.PositionExtra?
    requires ValidPositionField(f) && PositionFieldAt(bytes, s, f) && s < end
    requires PositionDecodes(bytes, s + |EncodePositionField(f)|, end, PositionStep(st, f), result)
    ensures PositionDecodes(bytes, s, end, st, result)
  {
    hide Varint32At, Varint64At, StringAt, Float32At, SkipFieldAt, DecodeUtf8, EncodeVarint, EncodeUnknown, EncodePayload;
    var u := f.u;
    var tag := Tag(u.number, WireOf(u.payload));
    var q := s + |EncodeVarint(tag)|;
    var t := Varint32At(bytes, s);
    assert !t.IsFailure() && t.Extract() == (tag, q);
    var r := SkipFieldAt(bytes, q, tag % 8);
    assert !r.IsFailure() && r.Extract() == s + |EncodeUnknown(u)|;
    assert s + |EncodePositionField(f)| == s + |EncodeUnknown(u)|;
    assert PositionStep(st, f) == st;
    assert PositionLoop(bytes, s, end, st) == PositionTurn(bytes, s, end, st);
    assert PositionTurn(bytes, s, end, st) == Ok(result);
  }

  /** One turn of parsePosition's loop reads one field and applies it to the state. */
  lemma PositionFieldRead(bytes: seq<byte>, s: nat, end: nat, st: PositionState, f: PositionField, result: PositionState)
    requires ValidPositionField(f) && PositionFieldAt(bytes, s, f) && s < end
    requires PositionDecodes(bytes, s + |EncodePositionField(f)|, end, PositionStep(st, f), result)
    ensures PositionDecodes(bytes, s, end, st, result)
  {
    hide Varint32At, Varint64At, StringAt, Float32At, SkipFieldAt, DecodeUtf8, EncodeVarint, EncodeUnknown, EncodePayload, PositionFieldAt, PositionLoop, PositionTurn, PositionStep;
    match f
    case Latitude(_) => PositionLatitudeRead(bytes, s, end, st, f, result);
    case Longitude(_) => PositionLongitudeRead(bytes, s, end, st, f, result);
    case Bearing(_) => PositionBearingRead(bytes, s, end, st, f, result);
    case PositionExtra(_) => PositionSkipRead(bytes, s, end, st, f, result);
  }

  /** parsePosition returns the meaning of the fields laid out from s, starting from `st`. */
  lemma {:induction false} PositionFieldsAtRead(bytes: seq<byte>, s: nat, end: nat, st: PositionState, fs: seq<PositionField>)
    requires ValidPositionFields(fs) && PositionFieldsAt(bytes, s, end, fs)
    ensures PositionDecodes(bytes, s, end, st, PositionOf(fs, st))
    decreases |fs|
  {
    hide Varint32At, Varint64At, StringAt, Float32At, SkipFieldAt, DecodeUtf8, EncodeVarint, EncodeUnknown, EncodePayload, PositionFieldAt, PositionTurn, EncodePositionField;
    if fs != [] {
      assert PositionFirstFieldAt(bytes, s, end, fs);
      PositionFieldsAtRead(bytes, s + |EncodePositionField(fs[0])|, end, PositionStep(st, fs[0]), fs[1..]);
      PositionFieldRead(bytes, s, end, st, fs[0], PositionOf(fs, st));
    }
  }

  /** The round trip of parsePosition: the encoding of well-formed fields decodes to their meaning. */
  lemma PositionRoundTrip(bytes: seq<byte>, p: nat, fs: seq<PositionField>)
    requires ValidPositionFields(fs) && Embeds(bytes, p, EncodePositionFields(fs))
    ensures PositionDecodes(bytes, p, p + |EncodePositionFields(fs)|, NoPosition, PositionOf(fs, NoPosition))
  {
    hide *;
    PositionFieldsEmbed(bytes, p, fs);
    PositionFieldsLaidOut(bytes, p, fs);
    PositionFieldsAtRead(bytes, p, p + |EncodePositionFields(fs)|, NoPosition, fs);
  }

  // ---------------------------------------------------------------------------
  // TripDescriptor

  /** The encoding of f lies at s. */
  ghost predicate TripFieldEmbedded(bytes: seq<byte>, s: nat, f: TripField) {
    Embeds(bytes, s, EncodeTripField(f))
  }

  /** The encodings of the fields of fs lie one after the other from s on. */
  ghost predicate TripFieldsEmbedded(bytes: seq<byte>, s: nat, fs: seq<TripField>)
    decreases |fs|
  {
    fs != [] ==> TripFieldEmbedded(bytes, s, fs[0]) && TripFieldsEmbedded(bytes, s + |EncodeTripField(fs[0])|, fs[1..])
  }

  /** An encoded field sequence holds the encoding of each field in turn. */
  lemma {:induction false} TripFieldsEmbed(bytes: seq<byte>, s: nat, fs: seq<TripField>)
    requires Embeds(bytes, s, EncodeTripFields(fs))
    ensures TripFieldsEmbedded(bytes, s, fs)
    decreases |fs|
  {
    hide Embeds, EncodeTripField;
    if fs != [] {
      EmbedsSplit(bytes, s, EncodeTripField(fs[0]), EncodeTripFields(fs[1..]));
      TripFieldsEmbed(bytes, s + |EncodeTripField(fs[0])|, fs[1..]);
    }
  }

  /** What the primitives find at s when the field f of a TripDescriptor is encoded there. */
  ghost predicate TripFieldAt(bytes: seq<byte>, s: nat, f: TripField) {
    match f
    case TripId(b) =>
      StringFieldAt(bytes, s, 1, b)
    case RouteId(b) =>
      StringFieldAt(bytes, s, 5, b)
    case TripExtra(u) =>
      UnknownAt(bytes, s, u)
  }


  /** An encoded field lies where the decoder looks for it. */
  lemma TripFieldLaidOut(bytes: seq<byte>, s: nat, f: TripField)
    requires ValidTripField(f) && TripFieldEmbedded(bytes, s, f)
    ensures TripFieldAt(bytes, s, f)
  {
    hide Embeds, Varint32At, Varint64At, StringAt, Float32At, SkipFieldAt, DecodeUtf8, EncodeVarint, StringFieldAt, FloatFieldAt, Varint32FieldAt, Varint64FieldAt, HeaderAt, UnknownAt;
    match f
    case TripId(b) =>
      StringFieldRead(bytes, s, 1, b);
    case RouteId(b) =>
      StringFieldRead(bytes, s, 5, b);
    case TripExtra(u) =>
      UnknownRead(bytes, s, u);
  }

  /** The fields of fs are laid out one after the other, from s up to end. */
  ghost predicate TripFieldsAt(bytes: seq<byte>, s: nat, end: nat, fs: seq<TripField>)
    decreases |fs|, 1
  {
    if fs == [] then s == end else TripFirstFieldAt(bytes, s, end, fs)
  }

  /** The first field of fs lies at s, and the others follow it. */
  ghost predicate TripFirstFieldAt(bytes: seq<byte>, s: nat, end: nat, fs: seq<TripField>)
    requires fs != []
    decreases |fs|, 0
  {
    && s + |EncodeTripField(fs[0])| <= end
    && TripFieldAt(bytes, s, fs[0])
    && TripFieldsAt(bytes, s + |EncodeTripField(fs[0])|, end, fs[1..])
  }

  /** An encoded field sequence is laid out field after field. */
  lemma {:induction false} TripFieldsLaidOut(bytes: seq<byte>, s: nat, fs: seq<TripField>)
    requires ValidTripFields(fs) && TripFieldsEmbedded(bytes, s, fs)
    ensures TripFieldsAt(bytes, s, s + |EncodeTripFields(fs)|, fs)
    decreases |fs|
  {
    hide TripFieldAt, TripFieldEmbedded, EncodeTripField;
    if fs != [] {
      TripFieldLaidOut(bytes, s, fs[0]);
      TripFieldsLaidOut(bytes, s + |EncodeTripField(fs[0])|, fs[1..]);
      assert TripFirstFieldAt(bytes, s, s + |EncodeTripFields(fs)|, fs);
    }
  }

  /** Field 1 with wire type 2 is read with readString into trip_id. */
  lemma TripIdRead(bytes: seq<byte>, s: nat, end: nat, st: TripState, f: TripField, result: TripState)
    requires f.TripId?
    requires ValidTripField(f) && TripFieldAt(bytes, s, f) && s < end
    requires TripDecodes(bytes, s + |EncodeTripField(f)|, end, TripStep(st, f), result)
    ensures TripDecodes(bytes, s, end, st, result)
  {
    hide Varint32At, Varint64At, StringAt, Float32At, SkipFieldAt, DecodeUtf8, EncodeVarint, EncodeUnknown, EncodePayload;
    var b := f.b;
    var q := s + |EncodeVarint(Tag(1, 2))|;
    var t := Varint32At(bytes, s);
    assert !t.IsFailure() && t.Extract() == (Tag(1, 2), q);
    var r := StringAt(bytes, q);
    assert !r.IsFailure() && r.Extract() == (DecodeUtf8(b), s + |Delimited(1, b)|);
    assert s + |EncodeTripField(f)| == s + |Delimited(1, b)|;
    assert TripStep(st, f) == st.(tripId := DecodeUtf8(b));
    assert TripLoop(bytes, s, end, st) == TripTurn(bytes, s, end, st);
    assert TripTurn(bytes, s, end, st) == Ok(result);
  }

  /** Field 5 with wire type 2 is read with readString into route_id. */
  lemma TripRouteRead(bytes: seq<byte>, s: nat, end: nat, st: TripState, f: TripField, result: TripState)
    requires f.RouteId?
    requires ValidTripField(f) && TripFieldAt(bytes, s, f) && s < end
    requires TripDecodes(bytes, s + |EncodeTripField(f)|, end, TripStep(st, f), result)
    ensures TripDecodes(bytes, s, end, st, result)
  {
    hide Varint32At, Varint64At, StringAt, Float32At, SkipFieldAt, DecodeUtf8, EncodeVarint, EncodeUnknown, EncodePayload;
    var b := f.b;
    var q := s + |EncodeVarint(Tag(5, 2))|;
    var t := Varint32At(bytes, s);
    assert !t.IsFailure() && t.Extract() == (Tag(5, 2), q);
    var r := StringAt(bytes, q);
    assert !r.IsFailure() && r.Extract() == (DecodeUtf8(b), s + |Delimited(5, b)|);
    assert s + |EncodeTripField(f)| == s + |Delimited(5, b)|;
    assert TripStep(st, f) == st.(routeId := DecodeUtf8(b));
    assert TripLoop(bytes, s, end, st) == TripTurn(bytes, s, end, st);
    assert TripTurn(bytes, s, end, st) == Ok(result);
  }

  /** A field the loop does not interpret is passed over by skipField, the state unchanged. */
  lemma TripSkipRead(bytes: seq<byte>, s: nat, end: nat, st: TripState, f: TripField, result: TripState)
    requires f.TripExtra?
    requires ValidTripField(f) && TripFieldAt(bytes, s, f) && s < end
    requires TripDecodes(bytes, s + |EncodeTripField(f)|, end, TripStep(st, f), result)
    ensures TripDecodes(bytes, s, end, st, result)
  {
    hide Varint32At, Varint64At, StringAt, Float32At, SkipFieldAt, DecodeUtf8, EncodeVarint, EncodeUnknown, EncodePayload;
    var u := f.u;
    var tag := Tag(u.number, WireOf(u.payload));
    var q := s + |EncodeVarint(tag)|;
    var t := Varint32At(bytes, s);
    assert !t.IsFailure() && t.Extract() == (tag, q);
    var r := SkipFieldAt(bytes, q, tag % 8);
    assert !r.IsFailure() && r.Extract() == s + |EncodeUnknown(u)|;
    assert s + |EncodeTripField(f)| == s + |EncodeUnknown(u)|;
    assert TripStep(st, f) == st;
    assert TripLoop(bytes, s, end, st) == TripTurn(bytes, s, end, st);
    assert TripTurn(bytes, s, end, st) == Ok(result);
  }

  /** One turn of parseTripDescriptor's loop reads one field and applies it to the state. */
  lemma TripFieldRead(bytes: seq<byte>, s: nat, end: nat, st: TripState, f: TripField, result: TripState)
    requires ValidTripField(f) && TripFieldAt(bytes, s, f) && s < end
    requires TripDecodes(bytes, s + |EncodeTripField(f)|, end, TripStep(st, f), result)
    ensures TripDecodes(bytes, s, end, st, result)
  {
    hide Varint32At, Varint64At, StringAt, Float32At, SkipFieldAt, DecodeUtf8, EncodeVarint, EncodeUnknown, EncodePayload, TripFieldAt, TripLoop, TripTurn, TripStep;
    match f
    case TripId(_) => TripIdRead(bytes, s, end, st, f, result);
    case RouteId(_) => TripRouteRead(bytes, s, end, st, f, result);
    case TripExtra(_) => TripSkipRead(bytes, s, end, st, f, result);
  }

  /** parseTripDescriptor returns the meaning of the fields laid out from s, starting from `st`. */
  lemma {:induction false} TripFieldsAtRead(bytes: seq<byte>, s: nat, end: nat, st: TripState, fs: seq<TripField>)
    requires ValidTripFields(fs) && TripFieldsAt(bytes, s, end, fs)
    ensures TripDecodes(bytes, s, end, st, TripOf(fs, st))
    decreases |fs|
  {
    hide Varint32At, Varint64At, StringAt, Float32At, SkipFieldAt, DecodeUtf8, EncodeVarint, EncodeUnknown, EncodePayload, TripFieldAt, TripTurn, EncodeTripField;
    if fs != [] {
      assert TripFirstFieldAt(bytes, s, end, fs);
      TripFieldsAtRead(bytes, s + |EncodeTripField(fs[0])|, end, TripStep(st, fs[0]), fs[1..]);
      TripFieldRead(bytes, s, end, st, fs[0], TripOf(fs, st));
    }
  }

  /** The round trip of parseTripDescriptor: the encoding of well-formed fields decodes to their meaning. */
  lemma TripRoundTrip(bytes: seq<byte>, p: nat, fs: seq<TripField>)
    requires ValidTripFields(fs) && Embeds(bytes, p, EncodeTripFields(fs))
    ensures TripDecodes(bytes, p, p + |EncodeTripFields(fs)|, NoTrip, TripOf(fs, NoTrip))
  {
    hide *;
    TripFieldsEmbed(bytes, p, fs);
    TripFieldsLaidOut(bytes, p, fs);
    TripFieldsAtRead(bytes, p, p + |EncodeTripFields(fs)|, NoTrip, fs);
  }

  // ---------------------------------------------------------------------------
  // VehicleDescriptor

  /** The encoding of f lies at s. */
  ghost predicate DescriptorFieldEmbedded(bytes: seq<byte>, s: nat, f: DescriptorField) {
    Embeds(bytes, s, EncodeDescriptorField(f))
  }

  /** The encodings of the fields of fs lie one after the other from s on. */
  ghost predicate DescriptorFieldsEmbedded(bytes: seq<byte>, s: nat, fs: seq<DescriptorField>)
    decreases |fs|
  {
    fs != [] ==> DescriptorFieldEmbedded(bytes, s, fs[0]) && DescriptorFieldsEmbedded(bytes, s + |EncodeDescriptorField(fs[0])|, fs[1..])
  }

  /** An encoded field sequence holds the encoding of each field in turn. */
  lemma {:induction false} DescriptorFieldsEmbed(bytes: seq<byte>, s: nat, fs: seq<DescriptorField>)
    requires Embeds(bytes, s, EncodeDescriptorFields(fs))
    ensures DescriptorFieldsEmbedded(bytes, s, fs)
    decreases |fs|
  {
    hide Embeds, EncodeDescriptorField;
    if fs != [] {
      EmbedsSplit(bytes, s, EncodeDescriptorField(fs[0]), EncodeDescriptorFields(fs[1..]));
      DescriptorFieldsEmbed(bytes, s + |EncodeDescriptorField(fs[0])|, fs[1..]);
    }
  }

  /** What the primitives find at s when the field f of a VehicleDescriptor is encoded there. */
  ghost predicate DescriptorFieldAt(bytes: seq<byte>, s: nat, f: DescriptorField) {
    match f
    case DescriptorId(b) =>
      StringFieldAt(bytes, s, 1, b)
    case DescriptorExtra(u) =>
      UnknownAt(bytes, s, u)
  }


  /** An encoded field lies where the decoder looks for it. */
  lemma DescriptorFieldLaidOut(bytes: seq<byte>, s: nat, f: DescriptorField)
    requires ValidDescriptorField(f) && DescriptorFieldEmbedded(bytes, s, f)
    ensures DescriptorFieldAt(bytes, s, f)
  {
    hide Embeds, Varint32At, Varint64At, StringAt, Float32At, SkipFieldAt, DecodeUtf8, EncodeVarint, StringFieldAt, FloatFieldAt, Varint32FieldAt, Varint64FieldAt, HeaderAt, UnknownAt;
    match f
    case DescriptorId(b) =>
      StringFieldRead(bytes, s, 1, b);
    case DescriptorExtra(u) =>
      UnknownRead(bytes, s, u);
  }

  /** The fields of fs are laid out one after the other, from s up to end. */
  ghost predicate DescriptorFieldsAt(bytes: seq<byte>, s: nat, end: nat, fs: seq<DescriptorField>)
    decreases |fs|, 1
  {
    if fs == [] then s == end else DescriptorFirstFieldAt(bytes, s, end, fs)
  }

  /** The first field of fs lies at s, and the others follow it. */
  ghost predicate DescriptorFirstFieldAt(bytes: seq<byte>, s: nat, end: nat, fs: seq<DescriptorField>)
    requires fs != []
    decreases |fs|, 0
  {
    && s + |EncodeDescriptorField(fs[0])| <= end
    && DescriptorFieldAt(bytes, s, fs[0])
    && DescriptorFieldsAt(bytes, s + |EncodeDescriptorField(fs[0])|, end, fs[1..])
  }

  /** An encoded field sequence is laid out field after field. */
  lemma {:induction false} DescriptorFieldsLaidOut(bytes: seq<byte>, s: nat, fs: seq<DescriptorField>)
    requires ValidDescriptorFields(fs) && DescriptorFieldsEmbedded(bytes, s, fs)
    ensures DescriptorFieldsAt(bytes, s, s + |EncodeDescriptorFields(fs)|, fs)
    decreases |fs|
  {
    hide DescriptorFieldAt, DescriptorFieldEmbedded, EncodeDescriptorField;
    if fs != [] {
      DescriptorFieldLaidOut(bytes, s, fs[0]);
      DescriptorFieldsLaidOut(bytes, s + |EncodeDescriptorField(fs[0])|, fs[1..]);
      assert DescriptorFirstFieldAt(bytes, s, s + |EncodeDescriptorFields(fs)|, fs);
    }
  }

  /** Field 1 with wire type 2 is read with readString and becomes the id. */
  lemma DescriptorIdRead(bytes: seq<byte>, s: nat, end: nat, id: string, f: DescriptorField, result: string)
    requires f.DescriptorId?
    requires ValidDescriptorField(f) && DescriptorFieldAt(bytes, s, f) && s < end
    requires DescriptorDecodes(bytes, s + |EncodeDescriptorField(f)|, end, DescriptorStep(id, f), result)
    ensures DescriptorDecodes(bytes, s, end, id, result)
  {
    hide Varint32At, Varint64At, StringAt, Float32At, SkipFieldAt, DecodeUtf8, EncodeVarint, EncodeUnknown, EncodePayload;
    var b := f.b;
    var q := s + |EncodeVarint(Tag(1, 2))|;
    var t := Varint32At(bytes, s);
    assert !t.IsFailure() && t.Extract() == (Tag(1, 2), q);
    var r := StringAt(bytes, q);
    assert !r.IsFailure() && r.Extract() == (DecodeUtf8(b), s + |Delimited(1, b)|);
    assert s + |EncodeDescriptorField(f)| == s + |Delimited(1, b)|;
    assert DescriptorStep(id, f) == DecodeUtf8(b);
    assert DescriptorLoop(bytes, s, end, id) == DescriptorTurn(bytes, s, end, id);
    assert DescriptorTurn(bytes, s, end, id) == Ok(result);
  }

  /** A field the loop does not interpret is passed over by skipField, the state unchanged. */
  lemma DescriptorSkipRead(bytes: seq<byte>, s: nat, end: nat, id: string, f: DescriptorField, result: string)
    requires f.DescriptorExtra?
    requires ValidDescriptorField(f) && DescriptorFieldAt(bytes, s, f) && s < end
    requires DescriptorDecodes(bytes, s + |EncodeDescriptorField(f)|, end, DescriptorStep(id, f), result)
    ensures DescriptorDecodes(bytes, s, end, id, result)
  {
    hide Varint32At, Varint64At, StringAt, Float32At, SkipFieldAt, DecodeUtf8, EncodeVarint, EncodeUnknown, EncodePayload;
    var u := f.u;
    var tag := Tag(u.number, WireOf(u.payload));
    var q := s + |EncodeVarint(tag)|;
    var t := Varint32At(bytes, s);
    assert !t.IsFailure() && t.Extract() == (tag, q);
    var r := SkipFieldAt(bytes, q, tag % 8);
    assert !r.IsFailure() && r.Extract() == s + |EncodeUnknown(u)|;
    assert s + |EncodeDescriptorField(f)| == s + |EncodeUnknown(u)|;
    assert DescriptorStep(id, f) == id;
    assert DescriptorLoop(bytes, s, end, id) == DescriptorTurn(bytes, s, end, id);
    assert DescriptorTurn(bytes, s, end, id) == Ok(result);
  }

  /** One turn of parseVehicleDescriptorId's loop reads one field and applies it to the state. */
  lemma DescriptorFieldRead(bytes: seq<byte>, s: nat, end: nat, id: string, f: DescriptorField, result: string)
    requires ValidDescriptorField(f) && DescriptorFieldAt(bytes, s, f) && s < end
    requires DescriptorDecodes(bytes, s + |EncodeDescriptorField(f)|, end, DescriptorStep(id, f), result)
    ensures DescriptorDecodes(bytes, s, end, id, result)
  {
    hide Varint32At, Varint64At, StringAt, Float32At, SkipFieldAt, DecodeUtf8, EncodeVarint, EncodeUnknown, EncodePayload, DescriptorFieldAt, DescriptorLoop, DescriptorTurn, DescriptorStep;
    match f
    case DescriptorId(_) => DescriptorIdRead(bytes, s, end, id, f, result);
    case DescriptorExtra(_) => DescriptorSkipRead(bytes, s, end, id, f, result);
  }

  /** parseVehicleDescriptorId returns the meaning of the fields laid out from s, starting from `id`. */
  lemma {:induction false} DescriptorFieldsAtRead(bytes: seq<byte>, s: nat, end: nat, id: string, fs: seq<DescriptorField>)
    requires ValidDescriptorFields(fs) && DescriptorFieldsAt(bytes, s, end, fs)
    ensures DescriptorDecodes(bytes, s, end, id, DescriptorOf(fs, id))
    decreases |fs|
  {
    hide Varint32At, Varint64At, StringAt, Float32At, SkipFieldAt, DecodeUtf8, EncodeVarint, EncodeUnknown, EncodePayload, DescriptorFieldAt, DescriptorTurn, EncodeDescriptorField;
    if fs != [] {
      assert DescriptorFirstFieldAt(bytes, s, end, fs);
      DescriptorFieldsAtRead(bytes, s + |EncodeDescriptorField(fs[0])|, end, DescriptorStep(id, fs[0]), fs[1..]);
      DescriptorFieldRead(bytes, s, end, id, fs[0], DescriptorOf(fs, id));
    }
  }

  /** The round trip of parseVehicleDescriptorId: the encoding of well-formed fields decodes to their meaning. */
  lemma DescriptorRoundTrip(bytes: seq<byte>, p: nat, fs: seq<DescriptorField>)
    requires ValidDescriptorFields(fs) && Embeds(bytes, p, EncodeDescriptorFields(fs))
    ensures DescriptorDecodes(bytes, p, p + |EncodeDescriptorFields(fs)|, "", DescriptorOf(fs, ""))
  {
    hide *;
    DescriptorFieldsEmbed(bytes, p, fs);
    DescriptorFieldsLaidOut(bytes, p, fs);
    DescriptorFieldsAtRead(bytes, p, p + |EncodeDescriptorFields(fs)|, "", fs);
  }

  // ---------------------------------------------------------------------------
  // VehiclePosition

  /** The encoding of f lies at s. */
  ghost predicate VehicleFieldEmbedded(bytes: seq<byte>, s: nat, f: VehicleField) {
    Embeds(bytes, s, EncodeVehicleField(f))
  }

  /** The encodings of the fields of fs lie one after the other from s on. */
  ghost predicate VehicleFieldsEmbedded(bytes: seq<byte>, s: nat, fs: seq<VehicleField>)
    decreases |fs|
  {
    fs != [] ==> VehicleFieldEmbedded(bytes, s, fs[0]) && VehicleFieldsEmbedded(bytes, s + |EncodeVehicleField(fs[0])|, fs[1..])
  }

  /** An encoded field sequence holds the encoding of each field in turn. */
  lemma {:induction false} VehicleFieldsEmbed(bytes: seq<byte>, s: nat, fs: seq<VehicleField>)
    requires Embeds(bytes, s, EncodeVehicleFields(fs))
    ensures VehicleFieldsEmbedded(bytes, s, fs)
    decreases |fs|
  {
    hide Embeds, EncodeVehicleField;
    if fs != [] {
      EmbedsSplit(bytes, s, EncodeVehicleField(fs[0]), EncodeVehicleFields(fs[1..]));
      VehicleFieldsEmbed(bytes, s + |EncodeVehicleField(fs[0])|, fs[1..]);
    }
  }

  /** What the primitives find at s when the field f of a VehiclePosition is encoded there. */
  ghost predicate VehicleFieldAt(bytes: seq<byte>, s: nat, f: VehicleField) {
    match f
    case Trip(fs) =>
      var len := |EncodeTripFields(fs)|; var start := PayloadStart(s, 1, len);
      HeaderAt(bytes, s, 1, len) && TripDecodes(bytes, start, start + len, NoTrip, TripOf(fs, NoTrip))
    case Position(fs) =>
      var len := |EncodePositionFields(fs)|; var start := PayloadStart(s, 2, len);
      HeaderAt(bytes, s, 2, len) && PositionDecodes(bytes, start, start + len, NoPosition, PositionOf(fs, NoPosition))
    case Timestamp(t) =>
      Varint64FieldAt(bytes, s, 5, t)
    case Descriptor(fs) =>
      var len := |EncodeDescriptorFields(fs)|; var start := PayloadStart(s, 8, len);
      HeaderAt(bytes, s, 8, len) && DescriptorDecodes(bytes, start, start + len, "", DescriptorOf(fs, ""))
    case VehicleExtra(u) =>
      UnknownAt(bytes, s, u)
  }


  /** An encoded embedded Trip (field 1) is a header the decoder reads, then a payload that decodes to the message. */
  lemma VehicleTripLaidOut(bytes: seq<byte>, s: nat, fs: seq<TripField>)
    requires ValidTripFields(fs) && |EncodeTripFields(fs)| < Word
    requires Embeds(bytes, s, Delimited(1, EncodeTripFields(fs)))
    ensures HeaderAt(bytes, s, 1, |EncodeTripFields(fs)|)
    ensures TripDecodes(bytes, PayloadStart(s, 1, |EncodeTripFields(fs)|), PayloadStart(s, 1, |EncodeTripFields(fs)|) + |EncodeTripFields(fs)|, NoTrip, TripOf(fs, NoTrip))
  {
    hide Embeds, HeaderAt, TripDecodes, TripLoop, Delimited, EncodeTripFields, PayloadStart, EncodeVarint;
    DelimitedRead(bytes, s, 1, EncodeTripFields(fs));
    DelimitedPayload(bytes, s, 1, EncodeTripFields(fs));
    TripRoundTrip(bytes, PayloadStart(s, 1, |EncodeTripFields(fs)|), fs);
  }

  /** An encoded embedded Position (field 2) is a header the decoder reads, then a payload that decodes to the message. */
  lemma VehiclePositionLaidOut(bytes: seq<byte>, s: nat, fs: seq<PositionField>)
    requires ValidPositionFields(fs) && |EncodePositionFields(fs)| < Word
    requires Embeds(bytes, s, Delimited(2, EncodePositionFields(fs)))
    ensures HeaderAt(bytes, s, 2, |EncodePositionFields(fs)|)
    ensures PositionDecodes(bytes, PayloadStart(s, 2, |EncodePositionFields(fs)|), PayloadStart(s, 2, |EncodePositionFields(fs)|) + |EncodePositionFields(fs)|, NoPosition, PositionOf(fs, NoPosition))
  {
    hide Embeds, HeaderAt, PositionDecodes, PositionLoop, Delimited, EncodePositionFields, PayloadStart, EncodeVarint;
    DelimitedRead(bytes, s, 2, EncodePositionFields(fs));
    DelimitedPayload(bytes, s, 2, EncodePositionFields(fs));
    PositionRoundTrip(bytes, PayloadStart(s, 2, |EncodePositionFields(fs)|), fs);
  }

  /** An encoded embedded Descriptor (field 8) is a header the decoder reads, then a payload that decodes to the message. */
  lemma VehicleDescriptorLaidOut(bytes: seq<byte>, s: nat, fs: seq<DescriptorField>)
    requires ValidDescriptorFields(fs) && |EncodeDescriptorFields(fs)| < Word
    requires Embeds(bytes, s, Delimited(8, EncodeDescriptorFields(fs)))
    ensures HeaderAt(bytes, s, 8, |EncodeDescriptorFields(fs)|)
    ensures DescriptorDecodes(bytes, PayloadStart(s, 8, |EncodeDescriptorFields(fs)|), PayloadStart(s, 8, |EncodeDescriptorFields(fs)|) + |EncodeDescriptorFields(fs)|, "", DescriptorOf(fs, ""))
  {
    hide Embeds, HeaderAt, DescriptorDecodes, DescriptorLoop, Delimited, EncodeDescriptorFields, PayloadStart, EncodeVarint;
    DelimitedRead(bytes, s, 8, EncodeDescriptorFields(fs));
    DelimitedPayload(bytes, s, 8, EncodeDescriptorFields(fs));
    DescriptorRoundTrip(bytes, PayloadStart(s, 8, |EncodeDescriptorFields(fs)|), fs);
  }

  /** An encoded field lies where the decoder looks for it. */
  lemma VehicleFieldLaidOut(bytes: seq<byte>, s: nat, f: VehicleField)
    requires ValidVehicleField(f) && VehicleFieldEmbedded(bytes, s, f)
    ensures VehicleFieldAt(bytes, s, f)
  {
    hide Embeds, Varint32At, Varint64At, StringAt, Float32At, SkipFieldAt, DecodeUtf8, EncodeVarint, StringFieldAt, FloatFieldAt, Varint32FieldAt, Varint64FieldAt, HeaderAt, UnknownAt;
    match f
    case Trip(fs) =>
      VehicleTripLaidOut(bytes, s, fs);
    case Position(fs) =>
      VehiclePositionLaidOut(bytes, s, fs);
    case Timestamp(t) =>
      Varint64FieldRead(bytes, s, 5, t);
    case Descriptor(fs) =>
      VehicleDescriptorLaidOut(bytes, s, fs);
    case VehicleExtra(u) =>
      UnknownRead(bytes, s, u);
  }

  /** The fields of fs are laid out one after the other, from s up to end. */
  ghost predicate VehicleFieldsAt(bytes: seq<byte>, s: nat, end: nat, fs: seq<VehicleField>)
    decreases |fs|, 1
  {
    if fs == [] then s == end else VehicleFirstFieldAt(bytes, s, end, fs)
  }

  /** The first field of fs lies at s, and the others follow it. */
  ghost predicate VehicleFirstFieldAt(bytes: seq<byte>, s: nat, end: nat, fs: seq<VehicleField>)
    requires fs != []
    decreases |fs|, 0
  {
    && s + |EncodeVehicleField(fs[0])| <= end
    && VehicleFieldAt(bytes, s, fs[0])
    && VehicleFieldsAt(bytes, s + |EncodeVehicleField(fs[0])|, end, fs[1..])
  }

  /** An encoded field sequence is laid out field after field. */
  lemma {:induction false} VehicleFieldsLaidOut(bytes: seq<byte>, s: nat, fs: seq<VehicleField>)
    requires ValidVehicleFields(fs) && VehicleFieldsEmbedded(bytes, s, fs)
    ensures VehicleFieldsAt(bytes, s, s + |EncodeVehicleFields(fs)|, fs)
    decreases |fs|
  {
    hide VehicleFieldAt, VehicleFieldEmbedded, EncodeVehicleField;
    if fs != [] {
      VehicleFieldLaidOut(bytes, s, fs[0]);
      VehicleFieldsLaidOut(bytes, s + |EncodeVehicleField(fs[0])|, fs[1..]);
      assert VehicleFirstFieldAt(bytes, s, s + |EncodeVehicleFields(fs)|, fs);
    }
  }

  /** The loop's turn on field 1 with wire type 2, for any payload length and any nested result. */
  lemma VehicleTripTurn(bytes: seq<byte>, s: nat, end: nat, st: VehicleState, len: nat, trip: TripState, result: VehicleState)
    requires s < end && HeaderAt(bytes, s, 1, len)
    requires TripDecodes(bytes, PayloadStart(s, 1, len), PayloadStart(s, 1, len) + len, NoTrip, trip)
    requires VehicleDecodes(bytes, PayloadStart(s, 1, len) + len, end, st.(tripId := Strings.OrElse(trip.tripId, st.tripId), routeId := Strings.OrElse(trip.routeId, st.routeId)), result)
    ensures VehicleDecodes(bytes, s, end, st, result)
  {
    hide Varint32At, Varint64At, StringAt, Float32At, SkipFieldAt, DecodeUtf8, EncodeVarint, EncodeUnknown, EncodePayload, TripLoop;
    assert VehicleLoop(bytes, s, end, st) == VehicleTurn(bytes, s, end, st);
  }

  /** An embedded TripDescriptor is decoded whole; its non-empty ids replace the current ones. */
  lemma VehicleTripRead(bytes: seq<byte>, s: nat, end: nat, st: VehicleState, f: VehicleField, result: VehicleState)
    requires f.Trip?
    requires ValidVehicleField(f) && VehicleFieldAt(bytes, s, f) && s < end
    requires VehicleDecodes(bytes, s + |EncodeVehicleField(f)|, end, VehicleStep(st, f), result)
    ensures VehicleDecodes(bytes, s, end, st, result)
  {
    hide Varint32At, Varint64At, StringAt, Float32At, SkipFieldAt, DecodeUtf8, EncodeVarint, EncodeUnknown, EncodePayload, TripLoop, VehicleLoop, VehicleTurn;
    var fs := f.trip;
    var len := |EncodeTripFields(fs)|;
    var start := PayloadStart(s, 1, len);
    assert s + |EncodeVehicleField(f)| == start + len;
    assert VehicleStep(st, f) == st.(tripId := Strings.OrElse(TripOf(fs, NoTrip).tripId, st.tripId), routeId := Strings.OrElse(TripOf(fs, NoTrip).routeId, st.routeId));
    VehicleTripTurn(bytes, s, end, st, len, TripOf(fs, NoTrip), result);
  }

  /** The loop's turn on field 2 with wire type 2, for any payload length and any nested result. */
  lemma VehiclePositionTurn(bytes: seq<byte>, s: nat, end: nat, st: VehicleState, len: nat, pos: PositionState, result: VehicleState)
    requires s < end && HeaderAt(bytes, s, 2, len)
    requires PositionDecodes(bytes, PayloadStart(s, 2, len), PayloadStart(s, 2, len) + len, NoPosition, pos)
    requires VehicleDecodes(bytes, PayloadStart(s, 2, len) + len, end, st.(position := Some(pos)), result)
    ensures VehicleDecodes(bytes, s, end, st, result)
  {
    hide Varint32At, Varint64At, StringAt, Float32At, SkipFieldAt, DecodeUtf8, EncodeVarint, EncodeUnknown, EncodePayload, PositionLoop;
    assert VehicleLoop(bytes, s, end, st) == VehicleTurn(bytes, s, end, st);
  }

  /** An embedded Position is decoded whole and replaces the current one. */
  lemma VehiclePositionRead(bytes: seq<byte>, s: nat, end: nat, st: VehicleState, f: VehicleField, result: VehicleState)
    requires f.Position?
    requires ValidVehicleField(f) && VehicleFieldAt(bytes, s, f) && s < end
    requires VehicleDecodes(bytes, s + |EncodeVehicleField(f)|, end, VehicleStep(st, f), result)
    ensures VehicleDecodes(bytes, s, end, st, result)
  {
    hide Varint32At, Varint64At, StringAt, Float32At, SkipFieldAt, DecodeUtf8, EncodeVarint, EncodeUnknown, EncodePayload, PositionLoop, VehicleLoop, VehicleTurn;
    var fs := f.position;
    var len := |EncodePositionFields(fs)|;
    var start := PayloadStart(s, 2, len);
    assert s + |EncodeVehicleField(f)| == start + len;
    assert VehicleStep(st, f) == st.(position := Some(PositionOf(fs, NoPosition)));
    VehiclePositionTurn(bytes, s, end, st, len, PositionOf(fs, NoPosition), result);
  }

  /** Field 5 with wire type 0 is read with readVarint64 and becomes the timestamp. */
  lemma VehicleTimestampRead(bytes: seq<byte>, s: nat, end: nat, st: VehicleState, f: VehicleField, result: VehicleState)
    requires f.Timestamp?
    requires ValidVehicleField(f) && VehicleFieldAt(bytes, s, f) && s < end
    requires VehicleDecodes(bytes, s + |EncodeVehicleField(f)|, end, VehicleStep(st, f), result)
    ensures VehicleDecodes(bytes, s, end, st, result)
  {
    hide Varint32At, Varint64At, StringAt, Float32At, SkipFieldAt, DecodeUtf8, EncodeVarint, EncodeUnknown, EncodePayload;
    var n := f.t;
    var q := s + |EncodeVarint(Tag(5, 0))|;
    var t := Varint32At(bytes, s);
    assert !t.IsFailure() && t.Extract() == (Tag(5, 0), q);
    var r := Varint64At(bytes, q);
    assert !r.IsFailure() && r.Extract() == (n, q + |EncodeVarint(n)|);
    assert s + |EncodeVehicleField(f)| == q + |EncodeVarint(n)|;
    assert VehicleStep(st, f) == st.(timestamp := Some(TimestampOf(n)));
    assert VehicleLoop(bytes, s, end, st) == VehicleTurn(bytes, s, end, st);
    assert VehicleTurn(bytes, s, end, st) == Ok(result);
  }

  /** The loop's turn on field 8 with wire type 2, for any payload length and any nested result. */
  lemma VehicleDescriptorTurn(bytes: seq<byte>, s: nat, end: nat, st: VehicleState, len: nat, id: string, result: VehicleState)
    requires s < end && HeaderAt(bytes, s, 8, len)
    requires DescriptorDecodes(bytes, PayloadStart(s, 8, len), PayloadStart(s, 8, len) + len, "", id)
    requires VehicleDecodes(bytes, PayloadStart(s, 8, len) + len, end, st.(vehicleId := Strings.OrElse(id, st.vehicleId)), result)
    ensures VehicleDecodes(bytes, s, end, st, result)
  {
    hide Varint32At, Varint64At, StringAt, Float32At, SkipFieldAt, DecodeUtf8, EncodeVarint, EncodeUnknown, EncodePayload, DescriptorLoop;
    assert VehicleLoop(bytes, s, end, st) == VehicleTurn(bytes, s, end, st);
  }

  /** An embedded VehicleDescriptor is decoded whole; a non-empty id replaces the current one. */
  lemma VehicleDescriptorRead(bytes: seq<byte>, s: nat, end: nat, st: VehicleState, f: VehicleField, result: VehicleState)
    requires f.Descriptor?
    requires ValidVehicleField(f) && VehicleFieldAt(bytes, s, f) && s < end
    requires VehicleDecodes(bytes, s + |EncodeVehicleField(f)|, end, VehicleStep(st, f), result)
    ensures VehicleDecodes(bytes, s, end, st, result)
  {
    hide Varint32At, Varint64At, StringAt, Float32At, SkipFieldAt, DecodeUtf8, EncodeVarint, EncodeUnknown, EncodePayload, DescriptorLoop, VehicleLoop, VehicleTurn;
    var fs := f.descriptor;
    var len := |EncodeDescriptorFields(fs)|;
    var start := PayloadStart(s, 8, len);
    assert s + |EncodeVehicleField(f)| == start + len;
    assert VehicleStep(st, f) == st.(vehicleId := Strings.OrElse(DescriptorOf(fs, ""), st.vehicleId));
    VehicleDescriptorTurn(bytes, s, end, st, len, DescriptorOf(fs, ""), result);
  }

  /** A field the loop does not interpret is passed over by skipField, the state unchanged. */
  lemma VehicleSkipRead(bytes: seq<byte>, s: nat, end: nat, st: VehicleState, f: VehicleField, result: VehicleState)
    requires f.VehicleExtra?
    requires ValidVehicleField(f) && VehicleFieldAt(bytes, s, f) && s < end
    requires VehicleDecodes(bytes, s + |EncodeVehicleField(f)|, end, VehicleStep(st, f), result)
    ensures VehicleDecodes(bytes, s, end, st, result)
  {
    hide Varint32At, Varint64At, StringAt, Float32At, SkipFieldAt, DecodeUtf8, EncodeVarint, EncodeUnknown, EncodePayload;
    var u := f.u;
    var tag := Tag(u.number, WireOf(u.payload));
    var q := s + |EncodeVarint(tag)|;
    var t := Varint32At(bytes, s);
    assert !t.IsFailure() && t.Extract() == (tag, q);
    var r := SkipFieldAt(bytes, q, tag % 8);
    assert !r.IsFailure() && r.Extract() == s + |EncodeUnknown(u)|;
    assert s + |EncodeVehicleField(f)| == s + |EncodeUnknown(u)|;
    assert VehicleStep(st, f) == st;
    assert VehicleLoop(bytes, s, end, st) == VehicleTurn(bytes, s, end, st);
    assert VehicleTurn(bytes, s, end, st) == Ok(result);
  }

  /** One turn of parseVehiclePosition's loop reads one field and applies it to the state. */
  lemma VehicleFieldRead(bytes: seq<byte>, s: nat, end: nat, st: VehicleState, f: VehicleField, result: VehicleState)
    requires ValidVehicleField(f) && VehicleFieldAt(bytes, s, f) && s < end
    requires VehicleDecodes(bytes, s + |EncodeVehicleField(f)|, end, VehicleStep(st, f), result)
    ensures VehicleDecodes(bytes, s, end, st, result)
  {
    hide Varint32At, Varint64At, StringAt, Float32At, SkipFieldAt, DecodeUtf8, EncodeVarint, EncodeUnknown, EncodePayload, VehicleFieldAt, VehicleLoop, VehicleTurn, VehicleStep;
    match f
    case Trip(_) => VehicleTripRead(bytes, s, end, st, f, result);
    case Position(_) => VehiclePositionRead(bytes, s, end, st, f, result);
    case Timestamp(_) => VehicleTimestampRead(bytes, s, end, st, f, result);
    case Descriptor(_) => VehicleDescriptorRead(bytes, s, end, st, f, result);
    case VehicleExtra(_) => VehicleSkipRead(bytes, s, end, st, f, result);
  }

  /** parseVehiclePosition returns the meaning of the fields laid out from s, starting from `st`. */
  lemma {:induction false} VehicleFieldsAtRead(bytes: seq<byte>, s: nat, end: nat, st: VehicleState, fs: seq<VehicleField>)
    requires ValidVehicleFields(fs) && VehicleFieldsAt(bytes, s, end, fs)
    ensures VehicleDecodes(bytes, s, end, st, VehicleOf(fs, st))
    decreases |fs|
  {
    hide Varint32At, Varint64At, StringAt, Float32At, SkipFieldAt, DecodeUtf8, EncodeVarint, EncodeUnknown, EncodePayload, VehicleFieldAt, VehicleTurn, EncodeVehicleField;
    if fs != [] {
      assert VehicleFirstFieldAt(bytes, s, end, fs);
      VehicleFieldsAtRead(bytes, s + |EncodeVehicleField(fs[0])|, end, VehicleStep(st, fs[0]), fs[1..]);
      VehicleFieldRead(bytes, s, end, st, fs[0], VehicleOf(fs, st));
    }
  }

  /** The round trip of parseVehiclePosition: the encoding of well-formed fields decodes to their meaning. */
  lemma VehicleRoundTrip(bytes: seq<byte>, p: nat, fs: seq<VehicleField>)
    requires ValidVehicleFields(fs) && Embeds(bytes, p, EncodeVehicleFields(fs))
    ensures VehicleDecodes(bytes, p, p + |EncodeVehicleFields(fs)|, NoVehicle, VehicleOf(fs, NoVehicle))
  {
    hide *;
    VehicleFieldsEmbed(bytes, p, fs);
    VehicleFieldsLaidOut(bytes, p, fs);
    VehicleFieldsAtRead(bytes, p, p + |EncodeVehicleFields(fs)|, NoVehicle, fs);
  }

  // ---------------------------------------------------------------------------
  // FeedEntity

  /** The encoding of f lies at s. */
  ghost predicate EntityFieldEmbedded(bytes: seq<byte>, s: nat, f: EntityField) {
    Embeds(bytes, s, EncodeEntityField(f))
  }

  /** The encodings of the fields of fs lie one after the other from s on. */
  ghost predicate EntityFieldsEmbedded(bytes: seq<byte>, s: nat, fs: seq<EntityField>)
    decreases |fs|
  {
    fs != [] ==> EntityFieldEmbedded(bytes, s, fs[0]) && EntityFieldsEmbedded(bytes, s + |EncodeEntityField(fs[0])|, fs[1..])
  }

  /** An encoded field sequence holds the encoding of each field in turn. */
  lemma {:induction false} EntityFieldsEmbed(bytes: seq<byte>, s: nat, fs: seq<EntityField>)
    requires Embeds(bytes, s, EncodeEntityFields(fs))
    ensures EntityFieldsEmbedded(bytes, s, fs)
    decreases |fs|
  {
    hide Embeds, EncodeEntityField;
    if fs != [] {
      EmbedsSplit(bytes, s, EncodeEntityField(fs[0]), EncodeEntityFields(fs[1..]));
      EntityFieldsEmbed(bytes, s + |EncodeEntityField(fs[0])|, fs[1..]);
    }
  }

  /** What the primitives find at s when the field f of a FeedEntity is encoded there. */
  ghost predicate EntityFieldAt(bytes: seq<byte>, s: nat, f: EntityField) {
    match f
    case EntityId(b) =>
      StringFieldAt(bytes, s, 1, b)
    case IsDeleted(n) =>
      Varint32FieldAt(bytes, s, 2, n)
    case VehicleMessage(fs) =>
      var len := |EncodeVehicleFields(fs)|; var start := PayloadStart(s, 4, len);
      HeaderAt(bytes, s, 4, len) && VehicleDecodes(bytes, start, start + len, NoVehicle, VehicleOf(fs, NoVehicle))
    case EntityExtra(u) =>
      UnknownAt(bytes, s, u)
  }


  /** An encoded embedded Vehicle (field 4) is a header the decoder reads, then a payload that decodes to the message. */
  lemma EntityVehicleLaidOut(bytes: seq<byte>, s: nat, fs: seq<VehicleField>)
    requires ValidVehicleFields(fs) && |EncodeVehicleFields(fs)| < Word
    requires Embeds(bytes, s, Delimited(4, EncodeVehicleFields(fs)))
    ensures HeaderAt(bytes, s, 4, |EncodeVehicleFields(fs)|)
    ensures VehicleDecodes(bytes, PayloadStart(s, 4, |EncodeVehicleFields(fs)|), PayloadStart(s, 4, |EncodeVehicleFields(fs)|) + |EncodeVehicleFields(fs)|, NoVehicle, VehicleOf(fs, NoVehicle))
  {
    hide Embeds, HeaderAt, VehicleDecodes, VehicleLoop, Delimited, EncodeVehicleFields, PayloadStart, EncodeVarint;
    DelimitedRead(bytes, s, 4, EncodeVehicleFields(fs));
    DelimitedPayload(bytes, s, 4, EncodeVehicleFields(fs));
    VehicleRoundTrip(bytes, PayloadStart(s, 4, |EncodeVehicleFields(fs)|), fs);
  }

  /** An encoded field lies where the decoder looks for it. */
  lemma EntityFieldLaidOut(bytes: seq<byte>, s: nat, f: EntityField)
    requires ValidEntityField(f) && EntityFieldEmbedded(bytes, s, f)
    ensures EntityFieldAt(bytes, s, f)
  {
    hide Embeds, Varint32At, Varint64At, StringAt, Float32At, SkipFieldAt, DecodeUtf8, EncodeVarint, StringFieldAt, FloatFieldAt, Varint32FieldAt, Varint64FieldAt, HeaderAt, UnknownAt;
    match f
    case EntityId(b) =>
      StringFieldRead(bytes, s, 1, b);
    case IsDeleted(n) =>
      Varint32FieldRead(bytes, s, 2, n);
    case VehicleMessage(fs) =>
      EntityVehicleLaidOut(bytes, s, fs);
    case EntityExtra(u) =>
      UnknownRead(bytes, s, u);
  }

  /** The fields of fs are laid out one after the other, from s up to end. */
  ghost predicate EntityFieldsAt(bytes: seq<byte>, s: nat, end: nat, fs: seq<EntityField>)
    decreases |fs|, 1
  {
    if fs == [] then s == end else EntityFirstFieldAt(bytes, s, end, fs)
  }

  /** The first field of fs lies at s, and the others follow it. */
  ghost predicate EntityFirstFieldAt(bytes: seq<byte>, s: nat, end: nat, fs: seq<EntityField>)
    requires fs != []
    decreases |fs|, 0
  {
    && s + |EncodeEntityField(fs[0])| <= end
    && EntityFieldAt(bytes, s, fs[0])
    && EntityFieldsAt(bytes, s + |EncodeEntityField(fs[0])|, end, fs[1..])
  }

  /** An encoded field sequence is laid out field after field. */
  lemma {:induction false} EntityFieldsLaidOut(bytes: seq<byte>, s: nat, fs: seq<EntityField>)
    requires ValidEntityFields(fs) && EntityFieldsEmbedded(bytes, s, fs)
    ensures EntityFieldsAt(bytes, s, s + |EncodeEntityFields(fs)|, fs)
    decreases |fs|
  {
    hide EntityFieldAt, EntityFieldEmbedded, EncodeEntityField;
    if fs != [] {
      EntityFieldLaidOut(bytes, s, fs[0]);
      EntityFieldsLaidOut(bytes, s + |EncodeEntityField(fs[0])|, fs[1..]);
      assert EntityFirstFieldAt(bytes, s, s + |EncodeEntityFields(fs)|, fs);
    }
  }

  /** Field 1 with wire type 2 is read with readString and becomes the entity id. */
  lemma EntityIdRead(bytes: seq<byte>, s: nat, end: nat, st: EntityState, f: EntityField, result: EntityState)
    requires f.EntityId?
    requires ValidEntityField(f) && EntityFieldAt(bytes, s, f) && s < end
    requires EntityDecodes(bytes, s + |EncodeEntityField(f)|, end, EntityStep(st, f), result)
    ensures EntityDecodes(bytes, s, end, st, result)
  {
    hide Varint32At, Varint64At, StringAt, Float32At, SkipFieldAt, DecodeUtf8, EncodeVarint, EncodeUnknown, EncodePayload;
    var b := f.b;
    var q := s + |EncodeVarint(Tag(1, 2))|;
    var t := Varint32At(bytes, s);
    assert !t.IsFailure() && t.Extract() == (Tag(1, 2), q);
    var r := StringAt(bytes, q);
    assert !r.IsFailure() && r.Extract() == (DecodeUtf8(b), s + |Delimited(1, b)|);
    assert s + |EncodeEntityField(f)| == s + |Delimited(1, b)|;
    assert EntityStep(st, f) == st.(entityId := DecodeUtf8(b));
    assert EntityLoop(bytes, s, end, st) == EntityTurn(bytes, s, end, st);
    assert EntityTurn(bytes, s, end, st) == Ok(result);
  }

  /** Field 2 with wire type 0 is read with readVarint32; any non-zero value marks the entity deleted. */
  lemma EntityDeletedRead(bytes: seq<byte>, s: nat, end: nat, st: EntityState, f: EntityField, result: EntityState)
    requires f.IsDeleted?
    requires ValidEntityField(f) && EntityFieldAt(bytes, s, f) && s < end
    requires EntityDecodes(bytes, s + |EncodeEntityField(f)|, end, EntityStep(st, f), result)
    ensures EntityDecodes(bytes, s, end, st, result)
  {
    hide Varint32At, Varint64At, StringAt, Float32At, SkipFieldAt, DecodeUtf8, EncodeVarint, EncodeUnknown, EncodePayload;
    var n := f.v;
    var q := s + |EncodeVarint(Tag(2, 0))|;
    var t := Varint32At(bytes, s);
    assert !t.IsFailure() && t.Extract() == (Tag(2, 0), q);
    var r := Varint32At(bytes, q);
    assert !r.IsFailure() && r.Extract() == (n, q + |EncodeVarint(n)|);
    assert s + |EncodeEntityField(f)| == q + |EncodeVarint(n)|;
    assert EntityStep(st, f) == st.(isDeleted := n != 0);
    assert EntityLoop(bytes, s, end, st) == EntityTurn(bytes, s, end, st);
    assert EntityTurn(bytes, s, end, st) == Ok(result);
  }

  /** The loop's turn on field 4 with wire type 2, for any payload length and any nested result. */
  lemma EntityVehicleTurn(bytes: seq<byte>, s: nat, end: nat, st: EntityState, len: nat, v: VehicleState, result: EntityState)
    requires s < end && HeaderAt(bytes, s, 4, len)
    requires VehicleDecodes(bytes, PayloadStart(s, 4, len), PayloadStart(s, 4, len) + len, NoVehicle, v)
    requires EntityDecodes(bytes, PayloadStart(s, 4, len) + len, end, st.(vehicle := Some(v)), result)
    ensures EntityDecodes(bytes, s, end, st, result)
  {
    hide Varint32At, Varint64At, StringAt, Float32At, SkipFieldAt, DecodeUtf8, EncodeVarint, EncodeUnknown, EncodePayload, VehicleLoop;
    assert EntityLoop(bytes, s, end, st) == EntityTurn(bytes, s, end, st);
  }

  /** An embedded VehiclePosition is decoded whole and replaces the current one. */
  lemma EntityVehicleRead(bytes: seq<byte>, s: nat, end: nat, st: EntityState, f: EntityField, result: EntityState)
    requires f.VehicleMessage?
    requires ValidEntityField(f) && EntityFieldAt(bytes, s, f) && s < end
    requires EntityDecodes(bytes, s + |EncodeEntityField(f)|, end, EntityStep(st, f), result)
    ensures EntityDecodes(bytes, s, end, st, result)
  {
    hide Varint32At, Varint64At, StringAt, Float32At, SkipFieldAt, DecodeUtf8, EncodeVarint, EncodeUnknown, EncodePayload, VehicleLoop, EntityLoop, EntityTurn;
    var fs := f.vehicle;
    var len := |EncodeVehicleFields(fs)|;
    var start := PayloadStart(s, 4, len);
    assert s + |EncodeEntityField(f)| == start + len;
    assert EntityStep(st, f) == st.(vehicle := Some(VehicleOf(fs, NoVehicle)));
    EntityVehicleTurn(bytes, s, end, st, len, VehicleOf(fs, NoVehicle), result);
  }

  /** A field the loop does not interpret is passed over by skipField, the state unchanged. */
  lemma EntitySkipRead(bytes: seq<byte>, s: nat, end: nat, st: EntityState, f: EntityField, result: EntityState)
    requires f.EntityExtra?
    requires ValidEntityField(f) && EntityFieldAt(bytes, s, f) && s < end
    requires EntityDecodes(bytes, s + |EncodeEntityField(f)|, end, EntityStep(st, f), result)
    ensures EntityDecodes(bytes, s, end, st, result)
  {
    hide Varint32At, Varint64At, StringAt, Float32At, SkipFieldAt, DecodeUtf8, EncodeVarint, EncodeUnknown, EncodePayload;
    var u := f.u;
    var tag := Tag(u.number, WireOf(u.payload));
    var q := s + |EncodeVarint(tag)|;
    var t := Varint32At(bytes, s);
    assert !t.IsFailure() && t.Extract() == (tag, q);
    var r := SkipFieldAt(bytes, q, tag % 8);
    assert !r.IsFailure() && r.Extract() == s + |EncodeUnknown(u)|;
    assert s + |EncodeEntityField(f)| == s + |EncodeUnknown(u)|;
    assert EntityStep(st, f) == st;
    assert EntityLoop(bytes, s, end, st) == EntityTurn(bytes, s, end, st);
    assert EntityTurn(bytes, s, end, st) == Ok(result);
  }

  /** One turn of parseFeedEntity's loop reads one field and applies it to the state. */
  lemma EntityFieldRead(bytes: seq<byte>, s: nat, end: nat, st: EntityState, f: EntityField, result: EntityState)
    requires ValidEntityField(f) && EntityFieldAt(bytes, s, f) && s < end
    requires EntityDecodes(bytes, s + |EncodeEntityField(f)|, end, EntityStep(st, f), result)
    ensures EntityDecodes(bytes, s, end, st, result)
  {
    hide Varint32At, Varint64At, StringAt, Float32At, SkipFieldAt, DecodeUtf8, EncodeVarint, EncodeUnknown, EncodePayload, EntityFieldAt, EntityLoop, EntityTurn, EntityStep;
    match f
    case EntityId(_) => EntityIdRead(bytes, s, end, st, f, result);
    case IsDeleted(_) => EntityDeletedRead(bytes, s, end, st, f, result);
    case VehicleMessage(_) => EntityVehicleRead(bytes, s, end, st, f, result);
    case EntityExtra(_) => EntitySkipRead(bytes, s, end, st, f, result);
  }

  /** parseFeedEntity returns the meaning of the fields laid out from s, starting from `st`. */
  lemma {:induction false} EntityFieldsAtRead(bytes: seq<byte>, s: nat, end: nat, st: EntityState, fs: seq<EntityField>)
    requires ValidEntityFields(fs) && EntityFieldsAt(bytes, s, end, fs)
    ensures EntityDecodes(bytes, s, end, st, EntityOf(fs, st))
    decreases |fs|
  {
    hide Varint32At, Varint64At, StringAt, Float32At, SkipFieldAt, DecodeUtf8, EncodeVarint, EncodeUnknown, EncodePayload, EntityFieldAt, EntityTurn, EncodeEntityField;
    if fs != [] {
      assert EntityFirstFieldAt(bytes, s, end, fs);
      EntityFieldsAtRead(bytes, s + |EncodeEntityField(fs[0])|, end, EntityStep(st, fs[0]), fs[1..]);
      EntityFieldRead(bytes, s, end, st, fs[0], EntityOf(fs, st));
    }
  }

  /** The round trip of parseFeedEntity: the encoding of well-formed fields decodes to their meaning. */
  lemma EntityRoundTrip(bytes: seq<byte>, p: nat, fs: seq<EntityField>)
    requires ValidEntityFields(fs) && Embeds(bytes, p, EncodeEntityFields(fs))
    ensures EntityDecodes(bytes, p, p + |EncodeEntityFields(fs)|, NoEntity, EntityOf(fs, NoEntity))
  {
    hide *;
    EntityFieldsEmbed(bytes, p, fs);
    EntityFieldsLaidOut(bytes, p, fs);
    EntityFieldsAtRead(bytes, p, p + |EncodeEntityFields(fs)|, NoEntity, fs);
  }

  // ---------------------------------------------------------------------------
  // FeedMessage

  /** The encoding of f lies at s. */
  ghost predicate FeedFieldEmbedded(bytes: seq<byte>, s: nat, f: FeedField) {
    Embeds(bytes, s, EncodeFeedField(f))
  }

  /** The encodings of the fields of fs lie one after the other from s on. */
  ghost predicate FeedFieldsEmbedded(bytes: seq<byte>, s: nat, fs: seq<FeedField>)
    decreases |fs|
  {
    fs != [] ==> FeedFieldEmbedded(bytes, s, fs[0]) && FeedFieldsEmbedded(bytes, s + |EncodeFeedField(fs[0])|, fs[1..])
  }

  /** An encoded field sequence holds the encoding of each field in turn. */
  lemma {:induction false} FeedFieldsEmbed(bytes: seq<byte>, s: nat, fs: seq<FeedField>)
    requires Embeds(bytes, s, EncodeFeed(fs))
    ensures FeedFieldsEmbedded(bytes, s, fs)
    decreases |fs|
  {
    hide Embeds, EncodeFeedField;
    if fs != [] {
      EmbedsSplit(bytes, s, EncodeFeedField(fs[0]), EncodeFeed(fs[1..]));
      FeedFieldsEmbed(bytes, s + |EncodeFeedField(fs[0])|, fs[1..]);
    }
  }

  /** What the primitives find at s when the field f of a FeedMessage is encoded there. */
  ghost predicate FeedFieldAt(bytes: seq<byte>, s: nat, f: FeedField) {
    match f
    case Entity(fs) =>
      var len := |EncodeEntityFields(fs)|; var start := PayloadStart(s, 2, len);
      HeaderAt(bytes, s, 2, len) && EntityDecodes(bytes, start, start + len, NoEntity, EntityOf(fs, NoEntity))
    case FeedExtra(u) =>
      UnknownAt(bytes, s, u)
  }


  /** An encoded embedded Entity (field 2) is a header the decoder reads, then a payload that decodes to the message. */
  lemma FeedEntityLaidOut(bytes: seq<byte>, s: nat, fs: seq<EntityField>)
    requires ValidEntityFields(fs) && |EncodeEntityFields(fs)| < Word
    requires Embeds(bytes, s, Delimited(2, EncodeEntityFields(fs)))
    ensures HeaderAt(bytes, s, 2, |EncodeEntityFields(fs)|)
    ensures EntityDecodes(bytes, PayloadStart(s, 2, |EncodeEntityFields(fs)|), PayloadStart(s, 2, |EncodeEntityFields(fs)|) + |EncodeEntityFields(fs)|, NoEntity, EntityOf(fs, NoEntity))
  {
    hide Embeds, HeaderAt, EntityDecodes, EntityLoop, Delimited, EncodeEntityFields, PayloadStart, EncodeVarint;
    DelimitedRead(bytes, s, 2, EncodeEntityFields(fs));
    DelimitedPayload(bytes, s, 2, EncodeEntityFields(fs));
    EntityRoundTrip(bytes, PayloadStart(s, 2, |EncodeEntityFields(fs)|), fs);
  }

  /** An encoded field lies where the decoder looks for it. */
  lemma FeedFieldLaidOut(bytes: seq<byte>, s: nat, f: FeedField)
    requires ValidFeedField(f) && FeedFieldEmbedded(bytes, s, f)
    ensures FeedFieldAt(bytes, s, f)
  {
    hide Embeds, Varint32At, Varint64At, StringAt, Float32At, SkipFieldAt, DecodeUtf8, EncodeVarint, StringFieldAt, FloatFieldAt, Varint32FieldAt, Varint64FieldAt, HeaderAt, UnknownAt;
    match f
    case Entity(fs) =>
      FeedEntityLaidOut(bytes, s, fs);
    case FeedExtra(u) =>
      UnknownRead(bytes, s, u);
  }

  /** The fields of fs are laid out one after the other, from s up to the end of the buffer. */
  ghost predicate FeedFieldsAt(bytes: seq<byte>, s: nat, fs: seq<FeedField>)
    decreases |fs|, 1
  {
    if fs == [] then s == |bytes| else FeedFirstFieldAt(bytes, s, fs)
  }

  /** The first field of fs lies at s, and the others follow it. */
  ghost predicate FeedFirstFieldAt(bytes: seq<byte>, s: nat, fs: seq<FeedField>)
    requires fs != []
    decreases |fs|, 0
  {
    && s + |EncodeFeedField(fs[0])| <= |bytes|
    && FeedFieldAt(bytes, s, fs[0])
    && FeedFieldsAt(bytes, s + |EncodeFeedField(fs[0])|, fs[1..])
  }

  /** An encoded feed is laid out field after field, up to the end of the buffer. */
  lemma {:induction false} FeedFieldsLaidOut(bytes: seq<byte>, s: nat, fs: seq<FeedField>)
    requires ValidFeedFields(fs) && FeedFieldsEmbedded(bytes, s, fs) && s + |EncodeFeed(fs)| == |bytes|
    ensures FeedFieldsAt(bytes, s, fs)
    decreases |fs|
  {
    hide FeedFieldAt, FeedFieldEmbedded, EncodeFeedField;
    if fs != [] {
      FeedFieldLaidOut(bytes, s, fs[0]);
      FeedFieldsLaidOut(bytes, s + |EncodeFeedField(fs[0])|, fs[1..]);
      assert FeedFirstFieldAt(bytes, s, fs);
    }
  }

  /** The loop's turn on field 2 with wire type 2, for any payload length and any nested result. */
  lemma FeedEntityTurn(bytes: seq<byte>, s: nat, out: seq<Vehicle>, len: nat, e: EntityState, result: seq<Vehicle>)
    requires s < |bytes| && HeaderAt(bytes, s, 2, len)
    requires EntityDecodes(bytes, PayloadStart(s, 2, len), PayloadStart(s, 2, len) + len, NoEntity, e)
    requires FeedDecodes(bytes, PayloadStart(s, 2, len) + len, (var v := EntityVehicle(e); if v.Some? then out + [v.value] else out), result)
    ensures FeedDecodes(bytes, s, out, result)
  {
    hide Varint32At, Varint64At, StringAt, Float32At, SkipFieldAt, DecodeUtf8, EncodeVarint, EncodeUnknown, EncodePayload, EntityLoop;
    var w := EntityAt(bytes, PayloadStart(s, 2, len), PayloadStart(s, 2, len) + len);
    assert !w.IsFailure() && w.Extract() == EntityVehicle(e);
    assert FeedLoop(bytes, s, out) == FeedTurn(bytes, s, out);
  }

  /** An entity is decoded whole; its vehicle, if it has a usable one, is appended. */
  lemma FeedEntityRead(bytes: seq<byte>, s: nat, out: seq<Vehicle>, f: FeedField, result: seq<Vehicle>)
    requires f.Entity?
    requires ValidFeedField(f) && FeedFieldAt(bytes, s, f) && s < |bytes|
    requires FeedDecodes(bytes, s + |EncodeFeedField(f)|, out + FieldVehicles(f), result)
    ensures FeedDecodes(bytes, s, out, result)
  {
    hide Varint32At, Varint64At, StringAt, Float32At, SkipFieldAt, DecodeUtf8, EncodeVarint, EncodeUnknown, EncodePayload, EntityLoop, FeedLoop, FeedTurn;
    var fs := f.entity;
    var len := |EncodeEntityFields(fs)|;
    var start := PayloadStart(s, 2, len);
    assert s + |EncodeFeedField(f)| == start + len;
    assert out + FieldVehicles(f) == (var v := EntityVehicle(EntityOf(fs, NoEntity)); if v.Some? then out + [v.value] else out);
    FeedEntityTurn(bytes, s, out, len, EntityOf(fs, NoEntity), result);
  }

  /** Anything else at the top level (the header, unknown fields) is passed over. */
  lemma FeedSkipRead(bytes: seq<byte>, s: nat, out: seq<Vehicle>, f: FeedField, result: seq<Vehicle>)
    requires f.FeedExtra?
    requires ValidFeedField(f) && FeedFieldAt(bytes, s, f) && s < |bytes|
    requires FeedDecodes(bytes, s + |EncodeFeedField(f)|, out + FieldVehicles(f), result)
    ensures FeedDecodes(bytes, s, out, result)
  {
    hide Varint32At, Varint64At, StringAt, Float32At, SkipFieldAt, DecodeUtf8, EncodeVarint, EncodeUnknown, EncodePayload;
    var u := f.u;
    var tag := Tag(u.number, WireOf(u.payload));
    var q := s + |EncodeVarint(tag)|;
    var t := Varint32At(bytes, s);
    assert !t.IsFailure() && t.Extract() == (tag, q);
    var r := SkipFieldAt(bytes, q, tag % 8);
    assert !r.IsFailure() && r.Extract() == s + |EncodeUnknown(u)|;
    assert s + |EncodeFeedField(f)| == s + |EncodeUnknown(u)|;
    assert out + FieldVehicles(f) == out;
    assert FeedLoop(bytes, s, out) == FeedTurn(bytes, s, out);
    assert FeedTurn(bytes, s, out) == Ok(result);
  }

  /** One turn of the top-level's loop reads one field and applies it to the state. */
  lemma FeedFieldRead(bytes: seq<byte>, s: nat, out: seq<Vehicle>, f: FeedField, result: seq<Vehicle>)
    requires ValidFeedField(f) && FeedFieldAt(bytes, s, f) && s < |bytes|
    requires FeedDecodes(bytes, s + |EncodeFeedField(f)|, out + FieldVehicles(f), result)
    ensures FeedDecodes(bytes, s, out, result)
  {
    hide Varint32At, Varint64At, StringAt, Float32At, SkipFieldAt, DecodeUtf8, EncodeVarint, EncodeUnknown, EncodePayload, FeedFieldAt, FeedLoop, FeedTurn, FieldVehicles;
    match f
    case Entity(_) => FeedEntityRead(bytes, s, out, f, result);
    case FeedExtra(_) => FeedSkipRead(bytes, s, out, f, result);
  }

  /** The vehicles the top-level loop has collected after the fields fs, starting from out. */
  ghost function FeedOf(fs: seq<FeedField>, out: seq<Vehicle>): seq<Vehicle>
    decreases |fs|
  {
    if fs == [] then out else FeedOf(fs[1..], out + FieldVehicles(fs[0]))
  }

  /** Collecting field by field appends the vehicles of the whole feed. */
  lemma {:induction false} FeedOfVehicles(fs: seq<FeedField>, out: seq<Vehicle>)
    ensures FeedOf(fs, out) == out + FeedVehicles(fs)
    decreases |fs|
  {
    if fs != [] {
      FeedOfVehicles(fs[1..], out + FieldVehicles(fs[0]));
      AppendAssociative(out, FieldVehicles(fs[0]), FeedVehicles(fs[1..]));
    }
  }

  lemma AppendAssociative(a: seq<Vehicle>, b: seq<Vehicle>, c: seq<Vehicle>)
    ensures a + (b + c) == (a + b) + c
  {
  }

  /** The top-level loop returns the meaning of the fields laid out from s, starting from `out`. */
  lemma {:induction false} FeedFieldsAtRead(bytes: seq<byte>, s: nat, out: seq<Vehicle>, fs: seq<FeedField>)
    requires ValidFeedFields(fs) && FeedFieldsAt(bytes, s, fs)
    ensures FeedDecodes(bytes, s, out, FeedOf(fs, out))
    decreases |fs|
  {
    hide Varint32At, Varint64At, StringAt, Float32At, SkipFieldAt, DecodeUtf8, EncodeVarint, EncodeUnknown, EncodePayload, FeedFieldAt, FeedTurn, EncodeFeedField;
    if fs != [] {
      assert FeedFirstFieldAt(bytes, s, fs);
      FeedFieldsAtRead(bytes, s + |EncodeFeedField(fs[0])|, out + FieldVehicles(fs[0]), fs[1..]);
      FeedFieldRead(bytes, s, out, fs[0], FeedOf(fs, out));
    }
  }

  /** An encoded feed, from its first byte to its last, holds the encoding of each field in turn. */
  lemma FeedEmbedded(fs: seq<FeedField>)
    ensures FeedFieldsEmbedded(EncodeFeed(fs), 0, fs)
  {
    var bytes := EncodeFeed(fs);
    EmbedsSuffix(bytes, 0);
    assert bytes[0..] == bytes;
    FeedFieldsEmbed(bytes, 0, fs);
  }

  /** From the layout alone: the top-level loop returns the vehicles of the feed. */
  lemma FeedRead(bytes: seq<byte>, fs: seq<FeedField>)
    requires ValidFeedFields(fs) && FeedFieldsAt(bytes, 0, fs)
    ensures ParseFeed(bytes) == Ok(FeedVehicles(fs))
  {
    FeedFieldsAtRead(bytes, 0, [], fs);
    FeedOfVehicles(fs, []);
    assert [] + FeedVehicles(fs) == FeedVehicles(fs);
  }

  /**
   * The round trip of parseGtfsRtVehiclePositions: the encoding of any
   * well-formed FeedMessage decodes to the usable vehicles of its entities,
   * in entity order.
   */
  lemma ParseEncodedFeed(fs: seq<FeedField>)
    requires ValidFeedFields(fs)
    ensures ParseFeed(EncodeFeed(fs)) == Ok(FeedVehicles(fs))
  {
    FeedEmbedded(fs);
    FeedFieldsLaidOut(EncodeFeed(fs), 0, fs);
    FeedRead(EncodeFeed(fs), fs);
  }
}
