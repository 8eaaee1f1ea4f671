/**
 * GTFS Realtime messages as sequences of fields, in wire order, with the
 * canonical Protocol Buffers encoding of each, and the meaning the worker
 * gives them: a fold of the fields into the decoder's state, the last
 * occurrence of a field winning and every field the worker does not know
 * being passed over.
 */
module GtfsMessages {
  import opened Results
  import opened Bits
  import opened Wire
  import opened WireEncoding
  import opened Gtfs
  import Strings

  // ---------------------------------------------------------------------------
  // Fields the decoder passes over

  /** Field numbers are below 2^29, so that a tag fits in 32 bits. */
  const FieldLimit: nat := 0x2000_0000

  /** The payload of a field the decoder does not interpret, one kind per wire type it can skip. */
  datatype Payload =
    | VarintPayload(n: nat)           // wire type 0, any length
    | Fixed64Payload(b: seq<byte>)    // wire type 1, eight bytes
    | BytesPayload(b: seq<byte>)      // wire type 2, length-delimited
    | Fixed32Payload(b: seq<byte>)    // wire type 5, four bytes

  function WireOf(p: Payload): nat {
    match p
    case VarintPayload(_) => 0
    case Fixed64Payload(_) => 1
    case BytesPayload(_) => 2
    case Fixed32Payload(_) => 5
  }

  datatype UnknownField = UnknownField(number: nat, payload: Payload)

  predicate ValidUnknown(u: UnknownField) {
    && u.number < FieldLimit
    && (u.payload.Fixed64Payload? ==> |u.payload.b| == 8)
    && (u.payload.Fixed32Payload? ==> |u.payload.b| == 4)
    && (u.payload.BytesPayload? ==> |u.payload.b| < Word)
  }

  // Which (field, wire type) pairs each decoder loop interprets; it skips all others.

  predicate PositionHandles(field: nat, wire: nat) {
    wire == 5 && 1 <= field <= 3
  }

  predicate TripHandles(field: nat, wire: nat) {
    wire == 2 && (field == 1 || field == 5)
  }

  predicate DescriptorHandles(field: nat, wire: nat) {
    wire == 2 && field == 1
  }

  predicate VehicleHandles(field: nat, wire: nat) {
    (wire == 2 && (field == 1 || field == 2 || field == 8)) || (wire == 0 && field == 5)
  }

  predicate EntityHandles(field: nat, wire: nat) {
    (wire == 2 && (field == 1 || field == 4)) || (wire == 0 && field == 2)
  }

  predicate FeedHandles(field: nat, wire: nat) {
    wire == 2 && field == 2
  }

  function EncodePayload(p: Payload): seq<byte> {
    match p
    case VarintPayload(n) => EncodeVarint(n)
    case Fixed64Payload(b) => b
    case BytesPayload(b) => EncodeBytes(b)
    case Fixed32Payload(b) => b
  }

  function EncodeUnknown(u: UnknownField): (e: seq<byte>)
    ensures |e| >= 1
  {
    EncodeVarint(Tag(u.number, WireOf(u.payload))) + EncodePayload(u.payload)
  }

  /** A length-delimited field: its tag with wire type 2, then the payload's length and bytes. */
  function Delimited(field: nat, payload: seq<byte>): (e: seq<byte>)
    ensures |e| == |EncodeVarint(Tag(field, 2))| + |EncodeVarint(|payload|)| + |payload|
  {
    EncodeVarint(Tag(field, 2)) + EncodeBytes(payload)
  }

  function FloatBytes(f: Float32): seq<byte> {
    [f.b0, f.b1, f.b2, f.b3]
  }

  // ---------------------------------------------------------------------------
  // Position

  datatype PositionField =
    | Latitude(lat: Float32)      // field 1, wire type 5
    | Longitude(lon: Float32)     // field 2, wire type 5
    | Bearing(bearing: Float32)   // field 3, wire type 5
    | PositionExtra(u: UnknownField)

  predicate ValidPositionField(f: PositionField) {
    f.PositionExtra? ==> ValidUnknown(f.u) && !PositionHandles(f.u.number, WireOf(f.u.payload))
  }

  predicate ValidPositionFields(fs: seq<PositionField>) {
    forall i :: 0 <= i < |fs| ==> ValidPositionField(fs[i])
  }

  function EncodePositionField(f: PositionField): (e: seq<byte>)
    ensures |e| >= 1
  {
    match f
    case Latitude(x) => EncodeVarint(Tag(1, 5)) + FloatBytes(x)
    case Longitude(x) => EncodeVarint(Tag(2, 5)) + FloatBytes(x)
    case Bearing(x) => EncodeVarint(Tag(3, 5)) + FloatBytes(x)
    case PositionExtra(u) => EncodeUnknown(u)
  }

  function EncodePositionFields(fs: seq<PositionField>): seq<byte> {
    if fs == [] then [] else EncodePositionField(fs[0]) + EncodePositionFields(fs[1..])
  }

  function PositionStep(st: PositionState, f: PositionField): PositionState {
    match f
    case Latitude(x) => st.(lat := x)
    case Longitude(x) => st.(lon := x)
    case Bearing(x) => st.(bearing := x)
    case PositionExtra(_) => st
  }

  /** The meaning of a Position message: its fields applied in order. */
  function PositionOf(fs: seq<PositionField>, st: PositionState): PositionState
    decreases |fs|
  {
    if fs == [] then st else PositionOf(fs[1..], PositionStep(st, fs[0]))
  }

  // ---------------------------------------------------------------------------
  // TripDescriptor

  datatype TripField =
    | TripId(b: seq<byte>)      // field 1, a string
    | RouteId(b: seq<byte>)     // field 5, a string
    | TripExtra(u: UnknownField)

  predicate ValidTripField(f: TripField) {
    match f
    case TripId(b) => |b| < Word
    case RouteId(b) => |b| < Word
    case TripExtra(u) => ValidUnknown(u) && !TripHandles(u.number, WireOf(u.payload))
  }

  predicate ValidTripFields(fs: seq<TripField>) {
    forall i :: 0 <= i < |fs| ==> ValidTripField(fs[i])
  }

  function EncodeTripField(f: TripField): (e: seq<byte>)
    ensures |e| >= 1
  {
    match f
    case TripId(b) => Delimited(1, b)
    case RouteId(b) => Delimited(5, b)
    case TripExtra(u) => EncodeUnknown(u)
  }

  function EncodeTripFields(fs: seq<TripField>): seq<byte> {
    if fs == [] then [] else EncodeTripField(fs[0]) + EncodeTripFields(fs[1..])
  }

  function TripStep(st: TripState, f: TripField): TripState {
    match f
    case TripId(b) => st.(tripId := DecodeUtf8(b))
    case RouteId(b) => st.(routeId := DecodeUtf8(b))
    case TripExtra(_) => st
  }

  function TripOf(fs: seq<TripField>, st: TripState): TripState
    decreases |fs|
  {
    if fs == [] then st else TripOf(fs[1..], TripStep(st, fs[0]))
  }

  // ---------------------------------------------------------------------------
  // VehicleDescriptor

  datatype DescriptorField =
    | DescriptorId(b: seq<byte>)   // field 1, a string
    | DescriptorExtra(u: UnknownField)

  predicate ValidDescriptorField(f: DescriptorField) {
    match f
    case DescriptorId(b) => |b| < Word
    case DescriptorExtra(u) => ValidUnknown(u) && !DescriptorHandles(u.number, WireOf(u.payload))
  }

  predicate ValidDescriptorFields(fs: seq<DescriptorField>) {
    forall i :: 0 <= i < |fs| ==> ValidDescriptorField(fs[i])
  }

  function EncodeDescriptorField(f: DescriptorField): (e: seq<byte>)
    ensures |e| >= 1
  {
    match f
    case DescriptorId(b) => Delimited(1, b)
    case DescriptorExtra(u) => EncodeUnknown(u)
  }

  function EncodeDescriptorFields(fs: seq<DescriptorField>): seq<byte> {
    if fs == [] then [] else EncodeDescriptorField(fs[0]) + EncodeDescriptorFields(fs[1..])
  }

  function DescriptorStep(id: string, f: DescriptorField): string {
    match f
    case DescriptorId(b) => DecodeUtf8(b)
    case DescriptorExtra(_) => id
  }

  function DescriptorOf(fs: seq<DescriptorField>, id: string): string
    decreases |fs|
  {
    if fs == [] then id else DescriptorOf(fs[1..], DescriptorStep(id, fs[0]))
  }

  // ---------------------------------------------------------------------------
  // VehiclePosition

  datatype VehicleField =
    | Trip(trip: seq<TripField>)                    // field 1, a TripDescriptor
    | Position(position: seq<PositionField>)        // field 2, a Position
    | Timestamp(t: nat)                             // field 5, a varint
    | Descriptor(descriptor: seq<DescriptorField>)  // field 8, a VehicleDescriptor
    | VehicleExtra(u: UnknownField)

  predicate ValidVehicleField(f: VehicleField) {
    match f
    case Trip(fs) => ValidTripFields(fs) && |EncodeTripFields(fs)| < Word
    case Position(fs) => ValidPositionFields(fs) && |EncodePositionFields(fs)| < Word
    case Timestamp(t) => t < Varint64Bound
    case Descriptor(fs) => ValidDescriptorFields(fs) && |EncodeDescriptorFields(fs)| < Word
    case VehicleExtra(u) => ValidUnknown(u) && !VehicleHandles(u.number, WireOf(u.payload))
  }

  predicate ValidVehicleFields(fs: seq<VehicleField>) {
    forall i :: 0 <= i < |fs| ==> ValidVehicleField(fs[i])
  }

  function EncodeVehicleField(f: VehicleField): (e: seq<byte>)
    ensures |e| >= 1
  {
    match f
    case Trip(fs) => Delimited(1, EncodeTripFields(fs))
    case Position(fs) => Delimited(2, EncodePositionFields(fs))
    case Timestamp(t) => EncodeVarint(Tag(5, 0)) + EncodeVarint(t)
    case Descriptor(fs) => Delimited(8, EncodeDescriptorFields(fs))
    case VehicleExtra(u) => EncodeUnknown(u)
  }

  function EncodeVehicleFields(fs: seq<VehicleField>): seq<byte> {
    if fs == [] then [] else EncodeVehicleField(fs[0]) + EncodeVehicleFields(fs[1..])
  }

  /**
   * A trip and a vehicle descriptor overwrite ids only with non-empty ones; a
   * position replaces the previous one whole; a timestamp replaces the previous one.
   */
  function VehicleStep(st: VehicleState, f: VehicleField): VehicleState {
    match f
    case Trip(fs) =>
      var trip := TripOf(fs, NoTrip);
      st.(tripId := Strings.OrElse(trip.tripId, st.tripId), routeId := Strings.OrElse(trip.routeId, st.routeId))
    case Position(fs) => st.(position := Some(PositionOf(fs, NoPosition)))
    case Timestamp(t) => st.(timestamp := Some(TimestampOf(t)))
    case Descriptor(fs) => st.(vehicleId := Strings.OrElse(DescriptorOf(fs, ""), st.vehicleId))
    case VehicleExtra(_) => st
  }

  function VehicleOf(fs: seq<VehicleField>, st: VehicleState): VehicleState
    decreases |fs|
  {
    if fs == [] then st else VehicleOf(fs[1..], VehicleStep(st, fs[0]))
  }

  // ---------------------------------------------------------------------------
  // FeedEntity

  datatype EntityField =
    | EntityId(b: seq<byte>)               // field 1, a string
    | IsDeleted(v: nat)                    // field 2, a varint
    | VehicleMessage(vehicle: seq<VehicleField>)  // field 4, a VehiclePosition
    | EntityExtra(u: UnknownField)

  predicate ValidEntityField(f: EntityField) {
    match f
    case EntityId(b) => |b| < Word
    case IsDeleted(v) => v < Word
    case VehicleMessage(fs) => ValidVehicleFields(fs) && |EncodeVehicleFields(fs)| < Word
    case EntityExtra(u) => ValidUnknown(u) && !EntityHandles(u.number, WireOf(u.payload))
  }

  predicate ValidEntityFields(fs: seq<EntityField>) {
    forall i :: 0 <= i < |fs| ==> ValidEntityField(fs[i])
  }

  function EncodeEntityField(f: EntityField): (e: seq<byte>)
    ensures |e| >= 1
  {
    match f
    case EntityId(b) => Delimited(1, b)
    case IsDeleted(v) => EncodeVarint(Tag(2, 0)) + EncodeVarint(v)
    case VehicleMessage(fs) => Delimited(4, EncodeVehicleFields(fs))
    case EntityExtra(u) => EncodeUnknown(u)
  }

  function EncodeEntityFields(fs: seq<EntityField>): seq<byte> {
    if fs == [] then [] else EncodeEntityField(fs[0]) + EncodeEntityFields(fs[1..])
  }

  /** A later vehicle replaces an earlier one whole; is_deleted is set by any non-zero value. */
  function EntityStep(st: EntityState, f: EntityField): EntityState {
    match f
    case EntityId(b) => st.(entityId := DecodeUtf8(b))
    case IsDeleted(v) => st.(isDeleted := v != 0)
    case VehicleMessage(fs) => st.(vehicle := Some(VehicleOf(fs, NoVehicle)))
    case EntityExtra(_) => st
  }

  function EntityOf(fs: seq<EntityField>, st: EntityState): EntityState
    decreases |fs|
  {
    if fs == [] then st else EntityOf(fs[1..], EntityStep(st, fs[0]))
  }

  // ---------------------------------------------------------------------------
  // FeedMessage

  datatype FeedField =
    | Entity(entity: seq<EntityField>)   // field 2, a FeedEntity
    | FeedExtra(u: UnknownField)         // the header (field 1) and anything else

  predicate ValidFeedField(f: FeedField) {
    match f
    case Entity(fs) => ValidEntityFields(fs) && |EncodeEntityFields(fs)| < Word
    case FeedExtra(u) => ValidUnknown(u) && !FeedHandles(u.number, WireOf(u.payload))
  }

  predicate ValidFeedFields(fs: seq<FeedField>) {
    forall i :: 0 <= i < |fs| ==> ValidFeedField(fs[i])
  }

  function EncodeFeedField(f: FeedField): (e: seq<byte>)
    ensures |e| >= 1
  {
    match f
    case Entity(fs) => Delimited(2, EncodeEntityFields(fs))
    case FeedExtra(u) => EncodeUnknown(u)
  }

  /** The encoding of a whole FeedMessage. */
  function EncodeFeed(fs: seq<FeedField>): seq<byte> {
    if fs == [] then [] else EncodeFeedField(fs[0]) + EncodeFeed(fs[1..])
  }

  /** What one top-level field contributes to the output. */
  function FieldVehicles(f: FeedField): seq<Vehicle> {
    match f
    case Entity(fs) =>
      var v := EntityVehicle(EntityOf(fs, NoEntity));
      if v.Some? then [v.value] else []
    case FeedExtra(_) => []
  }

  /** The meaning of a FeedMessage: the usable vehicle of each entity, in entity order. */
  function FeedVehicles(fs: seq<FeedField>): seq<Vehicle>
    decreases |fs|
  {
    if fs == [] then [] else FieldVehicles(fs[0]) + FeedVehicles(fs[1..])
  }
}
