/**
 * Which occurrence of a repeated field the decoder keeps, stated against
 * definitions that scan the fields from the END: the meaning of a message
 * (the left-to-right folds of GtfsMessages) agrees with "the last occurrence
 * that counts wins". For the ids of a VehiclePosition only a non-empty id
 * counts; for the vehicle of a FeedEntity every occurrence does.
 */
module GtfsLastWins {
  import opened Results
  import opened Gtfs
  import opened GtfsMessages
  import Strings

  // ---------------------------------------------------------------------------
  // The folds apply the last field last

  lemma {:induction false} VehicleOfSnoc(fs: seq<VehicleField>, f: VehicleField, st: VehicleState)
    ensures VehicleOf(fs + [f], st) == VehicleStep(VehicleOf(fs, st), f)
    decreases |fs|
  {
    hide VehicleStep;
    if fs == [] {
      assert fs + [f] == [f];
      assert [f][1..] == [];
    } else {
      assert (fs + [f])[0] == fs[0] && (fs + [f])[1..] == fs[1..] + [f];
      VehicleOfSnoc(fs[1..], f, VehicleStep(st, fs[0]));
    }
  }

  lemma {:induction false} EntityOfSnoc(fs: seq<EntityField>, f: EntityField, st: EntityState)
    ensures EntityOf(fs + [f], st) == EntityStep(EntityOf(fs, st), f)
    decreases |fs|
  {
    hide EntityStep;
    if fs == [] {
      assert fs + [f] == [f];
      assert [f][1..] == [];
    } else {
      assert (fs + [f])[0] == fs[0] && (fs + [f])[1..] == fs[1..] + [f];
      EntityOfSnoc(fs[1..], f, EntityStep(st, fs[0]));
    }
  }

  // ---------------------------------------------------------------------------
  // vehicle.id: the last non-empty VehicleDescriptor id

  /** The last vehicle descriptor whose id is not empty, scanning from the end; `otherwise` when there is none. */
  function LastVehicleId(fs: seq<VehicleField>, otherwise: string): string
    decreases |fs|
  {
    if fs == [] then otherwise
    else
      var f := fs[|fs| - 1];
      if f.Descriptor? && DescriptorOf(f.descriptor, "") != [] then DescriptorOf(f.descriptor, "")
      else LastVehicleId(fs[..|fs| - 1], otherwise)
  }

  /** parseVehiclePosition keeps the id of the last vehicle descriptor that has one: an empty id never erases an earlier one. */
  lemma {:induction false} VehicleIdLastWins(fs: seq<VehicleField>, st: VehicleState)
    ensures VehicleOf(fs, st).vehicleId == LastVehicleId(fs, st.vehicleId)
    decreases |fs|
  {
    if fs != [] {
      var init, f := fs[..|fs| - 1], fs[|fs| - 1];
      assert fs == init + [f];
      VehicleOfSnoc(init, f, st);
      VehicleIdLastWins(init, st);
    }
  }

  // ---------------------------------------------------------------------------
  // trip.trip_id and trip.route_id: the last non-empty ones

  /** The last trip descriptor whose trip_id is not empty, scanning from the end; `otherwise` when there is none. */
  function LastTripId(fs: seq<VehicleField>, otherwise: string): string
    decreases |fs|
  {
    if fs == [] then otherwise
    else
      var f := fs[|fs| - 1];
      if f.Trip? && TripOf(f.trip, NoTrip).tripId != [] then TripOf(f.trip, NoTrip).tripId
      else LastTripId(fs[..|fs| - 1], otherwise)
  }

  /** The last trip descriptor whose route_id is not empty, scanning from the end; `otherwise` when there is none. */
  function LastRouteId(fs: seq<VehicleField>, otherwise: string): string
    decreases |fs|
  {
    if fs == [] then otherwise
    else
      var f := fs[|fs| - 1];
      if f.Trip? && TripOf(f.trip, NoTrip).routeId != [] then TripOf(f.trip, NoTrip).routeId
      else LastRouteId(fs[..|fs| - 1], otherwise)
  }

  /**
   * trip_id and route_id are each the last non-empty one over all trip
   * descriptors, independently: a later trip with only a route_id keeps
   * the earlier trip_id.
   */
  lemma {:induction false} TripIdsLastWin(fs: seq<VehicleField>, st: VehicleState)
    ensures VehicleOf(fs, st).tripId == LastTripId(fs, st.tripId)
    ensures VehicleOf(fs, st).routeId == LastRouteId(fs, st.routeId)
    decreases |fs|
  {
    if fs != [] {
      var init, f := fs[..|fs| - 1], fs[|fs| - 1];
      assert fs == init + [f];
      VehicleOfSnoc(init, f, st);
      TripIdsLastWin(init, st);
    }
  }

  // ---------------------------------------------------------------------------
  // entity.vehicle: the last VehiclePosition, whole

  /** The meaning of the last vehicle sub-message, scanning from the end; `otherwise` when there is none. */
  function LastVehicle(fs: seq<EntityField>, otherwise: Option<VehicleState>): Option<VehicleState>
    decreases |fs|
  {
    if fs == [] then otherwise
    else
      var f := fs[|fs| - 1];
      if f.VehicleMessage? then Some(VehicleOf(f.vehicle, NoVehicle))
      else LastVehicle(fs[..|fs| - 1], otherwise)
  }

  /** parseFeedEntity keeps the last vehicle sub-message whole: nothing of an earlier one survives. */
  lemma {:induction false} EntityVehicleLastWins(fs: seq<EntityField>, st: EntityState)
    ensures EntityOf(fs, st).vehicle == LastVehicle(fs, st.vehicle)
    decreases |fs|
  {
    if fs != [] {
      var init, f := fs[..|fs| - 1], fs[|fs| - 1];
      assert fs == init + [f];
      EntityOfSnoc(init, f, st);
      EntityVehicleLastWins(init, st);
    }
  }
}
