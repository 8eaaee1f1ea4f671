/**
 * The worker's GTFS Realtime VehiclePositions decoder: a family of nested
 * cursor loops, FeedMessage -> FeedEntity -> VehiclePosition ->
 * TripDescriptor / VehicleDescriptor / Position, using the field numbers of
 * gtfs-realtime.proto.
 *
 * Each JavaScript loop is given as a specification function over the byte
 * sequence, recursive in the cursor, and as a method over the byte array
 * whose `while` loop is proved to compute that function. Every nested loop
 * stops at its own `end` but reads varints, strings and floats against the
 * whole buffer; `p + len` is never compared with the buffer length.
 */
module Gtfs {
  import opened Results
  import opened Bits
  import opened Wire
  import Strings

  // ---------------------------------------------------------------------------
  // Decoder state

  /** The three floats parsePosition collects. */
  datatype PositionState = PositionState(lat: Float32, lon: Float32, bearing: Float32)

  /** parsePosition starts from NaN for all three. */
  const NoPosition: PositionState := PositionState(NaN, NaN, NaN)

  datatype TripState = TripState(tripId: string, routeId: string)

  const NoTrip: TripState := TripState("", "")

  /** A timestamp up to 2^53 - 1 becomes a Number; a larger one its decimal string. */
  datatype Timestamp = SafeInteger(n: nat) | DecimalString(digits: string)

  /** Number.MAX_SAFE_INTEGER. */
  const MaxSafeInteger: nat := 0x1F_FFFF_FFFF_FFFF

  /** What parseVehiclePosition returns; `null` position and timestamp are None. */
  datatype VehicleState = VehicleState(
    position: Option<PositionState>,
    vehicleId: string,
    tripId: string,
    routeId: string,
    timestamp: Option<Timestamp>)

  const NoVehicle: VehicleState := VehicleState(None, "", "", "", None)

  /** The locals of parseFeedEntity; a `null` vehicle is None. */
  datatype EntityState = EntityState(entityId: string, isDeleted: bool, vehicle: Option<VehicleState>)

  const NoEntity: EntityState := EntityState("", false, None)

  /** The record parseFeedEntity returns for a usable entity. */
  datatype Vehicle = Vehicle(
    id: string,
    lat: Float32,
    lon: Float32,
    bearing: Option<Float32>,
    timestamp: Option<Timestamp>,
    routeId: Option<string>)

  /** A protobuf tag: field number above three wire-type bits. */
  function Tag(field: nat, wire: nat): nat {
    field * 8 + wire
  }

  // ---------------------------------------------------------------------------
  // From decoded fields to the emitted record

  /**
   * The emitted value of a readVarint64 timestamp: the same integer, as a
   * Number while it is safe and as its canonical decimal string beyond that.
   */
  function TimestampOf(v: nat): (t: Timestamp)
    ensures t.SafeInteger? <==> v <= MaxSafeInteger
    ensures t.SafeInteger? ==> t.n == v
    ensures t.DecimalString? ==> Strings.IsDigits(t.digits) && |t.digits| >= 1 && t.digits[0] != '0'
    ensures t.DecimalString? ==> Strings.DecimalValue(t.digits) == v
  {
    if v <= MaxSafeInteger then SafeInteger(v)
    else
      Strings.DecimalRoundTrip(v);
      DecimalString(Strings.Decimal(v))
  }

  /** `vehicle.vehicleId || entityId || vehicle.tripId || ""`. */
  function ChosenId(e: EntityState, v: VehicleState): string {
    Strings.OrElse(v.vehicleId, Strings.OrElse(e.entityId, v.tripId))
  }

  /**
   * The tail of parseFeedEntity: a deleted entity, one without a vehicle or a
   * position, one with a non-finite latitude or longitude and one without any
   * id yield nothing; a non-finite bearing and an empty route id become null.
   */
  function EntityVehicle(e: EntityState): (r: Option<Vehicle>)
    ensures r.Some? <==>
      && !e.isDeleted
      && e.vehicle.Some? && e.vehicle.value.position.Some?
      && ChosenId(e, e.vehicle.value) != []
      && IsFinite(e.vehicle.value.position.value.lat)
      && IsFinite(e.vehicle.value.position.value.lon)
    ensures r.Some? ==>
      var v := e.vehicle.value;
      var pos := v.position.value;
      && r.value.id == ChosenId(e, v)
      && (v.vehicleId != [] ==> r.value.id == v.vehicleId)
      && (v.vehicleId == [] && e.entityId != [] ==> r.value.id == e.entityId)
      && (v.vehicleId == [] && e.entityId == [] ==> r.value.id == v.tripId)
      && r.value.lat == pos.lat && r.value.lon == pos.lon
      && (r.value.bearing.Some? <==> IsFinite(pos.bearing))
      && (r.value.bearing.Some? ==> r.value.bearing.value == pos.bearing)
      && r.value.timestamp == v.timestamp
      && (r.value.routeId.Some? <==> v.routeId != [])
      && (r.value.routeId.Some? ==> r.value.routeId.value == v.routeId)
  {
    if e.isDeleted || e.vehicle.None? || e.vehicle.value.position.None? then None
    else
      var v := e.vehicle.value;
      var id := ChosenId(e, v);
      if id == [] then None
      else
        var pos := v.position.value;
        if !IsFinite(pos.lat) || !IsFinite(pos.lon) then None
        else
          Some(Vehicle(
            id, pos.lat, pos.lon,
            if IsFinite(pos.bearing) then Some(pos.bearing) else None,
            v.timestamp,
            if v.routeId != [] then Some(v.routeId) else None))
  }

  // ---------------------------------------------------------------------------
  // The loops as functions of the cursor

  /** parsePosition's loop: fields 1, 2, 3 with wire type 5 are the three floats. */
  function PositionLoop(bytes: seq<byte>, p: nat, end: nat, st: PositionState): Result<PositionState, DecodeError>
    decreases end - p, 1
  {
    if p >= end then Ok(st) else PositionTurn(bytes, p, end, st)
  }

  /** One pass of the loop's body at p < end: read the tag there, handle its field, go on. */
  function PositionTurn(bytes: seq<byte>, p: nat, end: nat, st: PositionState): Result<PositionState, DecodeError>
    requires p < end
    decreases end - p, 0
  {
    var t :- Varint32At(bytes, p);
    var field, wire, q := t.0 / 8, t.0 % 8, t.1;
    if field == 1 && wire == 5 then
      var f :- Float32At(bytes, q);
      PositionLoop(bytes, q + 4, end, st.(lat := f))
    else if field == 2 && wire == 5 then
      var f :- Float32At(bytes, q);
      PositionLoop(bytes, q + 4, end, st.(lon := f))
    else if field == 3 && wire == 5 then
      var f :- Float32At(bytes, q);
      PositionLoop(bytes, q + 4, end, st.(bearing := f))
    else
      var q' :- SkipFieldAt(bytes, q, wire);
      PositionLoop(bytes, q', end, st)
  }

  /** parseTripDescriptor's loop: trip_id is field 1, route_id field 5, both strings. */
  function TripLoop(bytes: seq<byte>, p: nat, end: nat, st: TripState): Result<TripState, DecodeError>
    decreases end - p, 1
  {
    if p >= end then Ok(st) else TripTurn(bytes, p, end, st)
  }

  /** One pass of the loop's body at p < end: read the tag there, handle its field, go on. */
  function TripTurn(bytes: seq<byte>, p: nat, end: nat, st: TripState): Result<TripState, DecodeError>
    requires p < end
    decreases end - p, 0
  {
    var t :- Varint32At(bytes, p);
    var field, wire, q := t.0 / 8, t.0 % 8, t.1;
    if field == 1 && wire == 2 then
      var sq :- StringAt(bytes, q);
      TripLoop(bytes, sq.1, end, st.(tripId := sq.0))
    else if field == 5 && wire == 2 then
      var sq :- StringAt(bytes, q);
      TripLoop(bytes, sq.1, end, st.(routeId := sq.0))
    else
      var q' :- SkipFieldAt(bytes, q, wire);
      TripLoop(bytes, q', end, st)
  }

  /** parseVehicleDescriptorId's loop: the id is field 1, a string. */
  function DescriptorLoop(bytes: seq<byte>, p: nat, end: nat, id: string): Result<string, DecodeError>
    decreases end - p, 1
  {
    if p >= end then Ok(id) else DescriptorTurn(bytes, p, end, id)
  }

  /** One pass of the loop's body at p < end: read the tag there, handle its field, go on. */
  function DescriptorTurn(bytes: seq<byte>, p: nat, end: nat, id: string): Result<string, DecodeError>
    requires p < end
    decreases end - p, 0
  {
    var t :- Varint32At(bytes, p);
    var field, wire, q := t.0 / 8, t.0 % 8, t.1;
    if field == 1 && wire == 2 then
      var sq :- StringAt(bytes, q);
      DescriptorLoop(bytes, sq.1, end, sq.0)
    else
      var q' :- SkipFieldAt(bytes, q, wire);
      DescriptorLoop(bytes, q', end, id)
  }

  /**
   * parseVehiclePosition's loop. A trip (field 1) overwrites trip and route
   * ids only with non-empty ones; a position (field 2) replaces the previous
   * one; the timestamp (field 5) is a readVarint64; a vehicle descriptor
   * (field 8) overwrites the vehicle id only with a non-empty one.
   */
  function VehicleLoop(bytes: seq<byte>, p: nat, end: nat, st: VehicleState): Result<VehicleState, DecodeError>
    decreases end - p, 1
  {
    if p >= end then Ok(st) else VehicleTurn(bytes, p, end, st)
  }

  /** One pass of the loop's body at p < end: read the tag there, handle its field, go on. */
  function VehicleTurn(bytes: seq<byte>, p: nat, end: nat, st: VehicleState): Result<VehicleState, DecodeError>
    requires p < end
    decreases end - p, 0
  {
    var t :- Varint32At(bytes, p);
    var field, wire, q := t.0 / 8, t.0 % 8, t.1;
    if field == 1 && wire == 2 then
      var lq :- Varint32At(bytes, q);
      var tend := lq.1 + lq.0;
      var trip :- TripLoop(bytes, lq.1, tend, NoTrip);
      var st' := st.(tripId := Strings.OrElse(trip.tripId, st.tripId),
                     routeId := Strings.OrElse(trip.routeId, st.routeId));
      VehicleLoop(bytes, tend, end, st')
    else if field == 2 && wire == 2 then
      var lq :- Varint32At(bytes, q);
      var pend := lq.1 + lq.0;
      var pos :- PositionLoop(bytes, lq.1, pend, NoPosition);
      VehicleLoop(bytes, pend, end, st.(position := Some(pos)))
    else if field == 5 && wire == 0 then
      var vq :- Varint64At(bytes, q);
      VehicleLoop(bytes, vq.1, end, st.(timestamp := Some(TimestampOf(vq.0))))
    else if field == 8 && wire == 2 then
      var lq :- Varint32At(bytes, q);
      var vend := lq.1 + lq.0;
      var id :- DescriptorLoop(bytes, lq.1, vend, "");
      VehicleLoop(bytes, vend, end, st.(vehicleId := Strings.OrElse(id, st.vehicleId)))
    else
      var q' :- SkipFieldAt(bytes, q, wire);
      VehicleLoop(bytes, q', end, st)
  }

  /**
   * parseFeedEntity's loop: id (field 1), is_deleted (field 2, any non-zero
   * varint) and vehicle (field 4), a later vehicle replacing an earlier one.
   */
  function EntityLoop(bytes: seq<byte>, p: nat, end: nat, st: EntityState): Result<EntityState, DecodeError>
    decreases end - p, 1
  {
    if p >= end then Ok(st) else EntityTurn(bytes, p, end, st)
  }

  /** One pass of the loop's body at p < end: read the tag there, handle its field, go on. */
  function EntityTurn(bytes: seq<byte>, p: nat, end: nat, st: EntityState): Result<EntityState, DecodeError>
    requires p < end
    decreases end - p, 0
  {
    var t :- Varint32At(bytes, p);
    var field, wire, q := t.0 / 8, t.0 % 8, t.1;
    if field == 1 && wire == 2 then
      var sq :- StringAt(bytes, q);
      EntityLoop(bytes, sq.1, end, st.(entityId := sq.0))
    else if field == 2 && wire == 0 then
      var vq :- Varint32At(bytes, q);
      EntityLoop(bytes, vq.1, end, st.(isDeleted := vq.0 != 0))
    else if field == 4 && wire == 2 then
      var lq :- Varint32At(bytes, q);
      var vend := lq.1 + lq.0;
      var v :- VehicleLoop(bytes, lq.1, vend, NoVehicle);
      EntityLoop(bytes, vend, end, st.(vehicle := Some(v)))
    else
      var q' :- SkipFieldAt(bytes, q, wire);
      EntityLoop(bytes, q', end, st)
  }

  /** parseFeedEntity: the loop, then the filter. */
  function EntityAt(bytes: seq<byte>, start: nat, end: nat): Result<Option<Vehicle>, DecodeError> {
    var e :- EntityLoop(bytes, start, end, NoEntity);
    Ok(EntityVehicle(e))
  }

  /**
   * The top-level loop of parseGtfsRtVehiclePositions, bounded by the buffer:
   * only field 2 with wire type 2 is an entity, and each usable entity is
   * appended to `out` in the order met.
   */
  function FeedLoop(bytes: seq<byte>, p: nat, out: seq<Vehicle>): Result<seq<Vehicle>, DecodeError>
    decreases |bytes| - p, 1
  {
    if p >= |bytes| then Ok(out) else FeedTurn(bytes, p, out)
  }

  /** One pass of the top-level loop's body at p < |bytes|. */
  function FeedTurn(bytes: seq<byte>, p: nat, out: seq<Vehicle>): Result<seq<Vehicle>, DecodeError>
    requires p < |bytes|
    decreases |bytes| - p, 0
  {
    var t :- Varint32At(bytes, p);
    var field, wire, q := t.0 / 8, t.0 % 8, t.1;
    if field == 2 && wire == 2 then
      var lq :- Varint32At(bytes, q);
      var end := lq.1 + lq.0;
      var v :- EntityAt(bytes, lq.1, end);
      FeedLoop(bytes, end, if v.Some? then out + [v.value] else out)
    else
      var q' :- SkipFieldAt(bytes, q, wire);
      FeedLoop(bytes, q', out)
  }

  /** parseGtfsRtVehiclePositions(buffer). */
  function ParseFeed(bytes: seq<byte>): Result<seq<Vehicle>, DecodeError> {
    FeedLoop(bytes, 0, [])
  }

  /**
   * What the top-level loop pushes does not depend on what `out` already
   * holds: vehicles are only ever appended, in the order their entities are
   * met, and an error is the same error whatever came before.
   */
  lemma {:induction false} FeedLoopAppends(bytes: seq<byte>, p: nat, out: seq<Vehicle>)
    ensures FeedLoop(bytes, p, []).Ok? ==> FeedLoop(bytes, p, out) == Ok(out + FeedLoop(bytes, p, []).value)
    ensures FeedLoop(bytes, p, []).Err? ==> FeedLoop(bytes, p, out) == FeedLoop(bytes, p, [])
    decreases |bytes| - p
  {
    hide EntityLoop, Varint32At, SkipFieldAt;
    if p < |bytes| {
      var t := Varint32At(bytes, p);
      if t.Ok? {
        var field, wire, q := t.value.0 / 8, t.value.0 % 8, t.value.1;
        if field == 2 && wire == 2 {
          var lq := Varint32At(bytes, q);
          if lq.Ok? {
            var end := lq.value.1 + lq.value.0;
            var v := EntityAt(bytes, lq.value.1, end);
            if v.Ok? {
              var pushed := if v.value.Some? then [v.value.value] else [];
              assert out + pushed == (if v.value.Some? then out + [v.value.value] else out);
              assert [] + pushed == pushed;
              FeedLoopAppends(bytes, end, out + pushed);
              FeedLoopAppends(bytes, end, pushed);
              if FeedLoop(bytes, end, []).Ok? {
                var rest := FeedLoop(bytes, end, []).value;
                assert (out + pushed) + rest == out + (pushed + rest);
              }
            }
          }
        } else {
          var q' := SkipFieldAt(bytes, q, wire);
          if q'.Ok? {
            FeedLoopAppends(bytes, q'.value, out);
          }
        }
      }
    } else {
      assert out + [] == out;
    }
  }

  // ---------------------------------------------------------------------------
  // The loops as the worker runs them

  method ParsePosition(bytes: array<byte>, start: nat, end: nat) returns (r: Result<PositionState, DecodeError>)
    ensures r == PositionLoop(bytes[..], start, end, NoPosition)
  {
    var p := start;
    var lat, lon, bearing := NaN, NaN, NaN;
    while p < end
      invariant PositionLoop(bytes[..], p, end, PositionState(lat, lon, bearing))
             == PositionLoop(bytes[..], start, end, NoPosition)
      decreases end - p
    {
      var t := ReadVarint32(bytes, p);
      if t.Err? {
        return Err(t.error);
      }
      var field, wire := t.value.0 / 8, t.value.0 % 8;
      p := t.value.1;
      if wire == 5 && 1 <= field <= 3 {
        var f := GetFloat32(bytes, p);
        if f.Err? {
          return Err(f.error);
        }
        if field == 1 {
          lat := f.value;
        } else if field == 2 {
          lon := f.value;
        } else {
          bearing := f.value;
        }
        p := p + 4;
      } else {
        var q := SkipField(bytes, p, wire);
        if q.Err? {
          return Err(q.error);
        }
        p := q.value;
      }
    }
    return Ok(PositionState(lat, lon, bearing));
  }

  method ParseTripDescriptor(bytes: array<byte>, start: nat, end: nat) returns (r: Result<TripState, DecodeError>)
    ensures r == TripLoop(bytes[..], start, end, NoTrip)
  {
    var p := start;
    var tripId, routeId := "", "";
    while p < end
      invariant TripLoop(bytes[..], p, end, TripState(tripId, routeId)) == TripLoop(bytes[..], start, end, NoTrip)
      decreases end - p
    {
      var t := ReadVarint32(bytes, p);
      if t.Err? {
        return Err(t.error);
      }
      var field, wire := t.value.0 / 8, t.value.0 % 8;
      p := t.value.1;
      if (field == 1 || field == 5) && wire == 2 {
        var s := ReadString(bytes, p);
        if s.Err? {
          return Err(s.error);
        }
        if field == 1 {
          tripId := s.value.0;
        } else {
          routeId := s.value.0;
        }
        p := s.value.1;
      } else {
        var q := SkipField(bytes, p, wire);
        if q.Err? {
          return Err(q.error);
        }
        p := q.value;
      }
    }
    return Ok(TripState(tripId, routeId));
  }

  method ParseVehicleDescriptorId(bytes: array<byte>, start: nat, end: nat) returns (r: Result<string, DecodeError>)
    ensures r == DescriptorLoop(bytes[..], start, end, "")
  {
    var p := start;
    var id := "";
    while p < end
      invariant DescriptorLoop(bytes[..], p, end, id) == DescriptorLoop(bytes[..], start, end, "")
      decreases end - p
    {
      var t := ReadVarint32(bytes, p);
      if t.Err? {
        return Err(t.error);
      }
      var field, wire := t.value.0 / 8, t.value.0 % 8;
      p := t.value.1;
      if field == 1 && wire == 2 {
        var s := ReadString(bytes, p);
        if s.Err? {
          return Err(s.error);
        }
        id := s.value.0;
        p := s.value.1;
      } else {
        var q := SkipField(bytes, p, wire);
        if q.Err? {
          return Err(q.error);
        }
        p := q.value;
      }
    }
    return Ok(id);
  }

  method ParseVehiclePosition(bytes: array<byte>, start: nat, end: nat) returns (r: Result<VehicleState, DecodeError>)
    ensures r == VehicleLoop(bytes[..], start, end, NoVehicle)
  {
    var p := start;
    var position: Option<PositionState> := None;
    var vehicleId, tripId, routeId := "", "", "";
    var timestamp: Option<Timestamp> := None;
    while p < end
      invariant VehicleLoop(bytes[..], p, end, VehicleState(position, vehicleId, tripId, routeId, timestamp))
             == VehicleLoop(bytes[..], start, end, NoVehicle)
      decreases end - p
    {
      var t := ReadVarint32(bytes, p);
      if t.Err? {
        return Err(t.error);
      }
      var field, wire := t.value.0 / 8, t.value.0 % 8;
      p := t.value.1;
      if field == 5 && wire == 0 {
        var v := ReadVarint64(bytes, p);
        if v.Err? {
          return Err(v.error);
        }
        timestamp := Some(TimestampOf(v.value.0));
        p := v.value.1;
      } else if (field == 1 || field == 2 || field == 8) && wire == 2 {
        var lq := ReadVarint32(bytes, p);
        if lq.Err? {
          return Err(lq.error);
        }
        p := lq.value.1;
        var subEnd := p + lq.value.0;
        if field == 1 {
          var trip := ParseTripDescriptor(bytes, p, subEnd);
          if trip.Err? {
            return Err(trip.error);
          }
          if trip.value.tripId != [] {
            tripId := trip.value.tripId;
          }
          if trip.value.routeId != [] {
            routeId := trip.value.routeId;
          }
        } else if field == 2 {
          var pos := ParsePosition(bytes, p, subEnd);
          if pos.Err? {
            return Err(pos.error);
          }
          position := Some(pos.value);
        } else {
          var id := ParseVehicleDescriptorId(bytes, p, subEnd);
          if id.Err? {
            return Err(id.error);
          }
          if id.value != [] {
            vehicleId := id.value;
          }
        }
        p := subEnd;
      } else {
        var q := SkipField(bytes, p, wire);
        if q.Err? {
          return Err(q.error);
        }
        p := q.value;
      }
    }
    return Ok(VehicleState(position, vehicleId, tripId, routeId, timestamp));
  }

  method ParseFeedEntity(bytes: array<byte>, start: nat, end: nat) returns (r: Result<Option<Vehicle>, DecodeError>)
    ensures r == EntityAt(bytes[..], start, end)
  {
    var p := start;
    var entityId := "";
    var isDeleted := false;
    var vehicle: Option<VehicleState> := None;
    while p < end
      invariant EntityLoop(bytes[..], p, end, EntityState(entityId, isDeleted, vehicle))
             == EntityLoop(bytes[..], start, end, NoEntity)
      decreases end - p
    {
      var t := ReadVarint32(bytes, p);
      if t.Err? {
        return Err(t.error);
      }
      var field, wire := t.value.0 / 8, t.value.0 % 8;
      p := t.value.1;
      if field == 1 && wire == 2 {
        var s := ReadString(bytes, p);
        if s.Err? {
          return Err(s.error);
        }
        entityId := s.value.0;
        p := s.value.1;
      } else if field == 2 && wire == 0 {
        var v := ReadVarint32(bytes, p);
        if v.Err? {
          return Err(v.error);
        }
        isDeleted := v.value.0 != 0;
        p := v.value.1;
      } else if field == 4 && wire == 2 {
        var lq := ReadVarint32(bytes, p);
        if lq.Err? {
          return Err(lq.error);
        }
        p := lq.value.1;
        var vend := p + lq.value.0;
        var v := ParseVehiclePosition(bytes, p, vend);
        if v.Err? {
          return Err(v.error);
        }
        vehicle := Some(v.value);
        p := vend;
      } else {
        var q := SkipField(bytes, p, wire);
        if q.Err? {
          return Err(q.error);
        }
        p := q.value;
      }
    }
    return Ok(EntityVehicle(EntityState(entityId, isDeleted, vehicle)));
  }

  method ParseGtfsRtVehiclePositions(bytes: array<byte>) returns (r: Result<seq<Vehicle>, DecodeError>)
    ensures r == ParseFeed(bytes[..])
  {
    var out: seq<Vehicle> := [];
    var p := 0;
    while p < bytes.Length
      invariant FeedLoop(bytes[..], p, out) == ParseFeed(bytes[..])
      decreases bytes.Length - p
    {
      var t := ReadVarint32(bytes, p);
      if t.Err? {
        return Err(t.error);
      }
      var field, wire := t.value.0 / 8, t.value.0 % 8;
      p := t.value.1;
      if field == 2 && wire == 2 {
        var lq := ReadVarint32(bytes, p);
        if lq.Err? {
          return Err(lq.error);
        }
        p := lq.value.1;
        var end := p + lq.value.0;
        var v := ParseFeedEntity(bytes, p, end);
        if v.Err? {
          return Err(v.error);
        }
        if v.value.Some? {
          out := out + [v.value.value];
        }
        p := end;
      } else {
        var q := SkipField(bytes, p, wire);
        if q.Err? {
          return Err(q.error);
        }
        p := q.value;
      }
    }
    return Ok(out);
  }
}
