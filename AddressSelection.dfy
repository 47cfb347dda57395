/**
 * The address-selection state: the chosen address, its coordinates and the
 * result of the delivery-zone check, with `null` modelled as `None`.
 */
module AddressSelection {
  import opened Wrappers
  import opened Geo

  /** The three state fields as one value. */
  datatype Selection = Selection(address: string, coordinates: Option<Point>, inZone: Option<bool>)

  /** The state before any handler runs: no address, no coordinates, zone unknown. */
  const Initial: Selection := Selection("", None, None)

  /** A call to one of the three handlers. */
  datatype Event =
    | Select(address: string, coordinates: Point)   // handleAddressSelect
    | Clear                                         // handleAddressClear
    | ZoneCheck(inZone: bool)                       // handleZoneCheck

  /** The state after one handler call. */
  function Step(s: Selection, e: Event): Selection
  {
    match e
    case Select(a, c) => s.(address := a, coordinates := Some(c))
    case Clear => Initial
    case ZoneCheck(b) => s.(inZone := Some(b))
  }

  /** The state after a sequence of handler calls, in order. */
  function Run(s: Selection, evs: seq<Event>): Selection
  {
    if evs == [] then s else Step(Run(s, evs[..|evs| - 1]), evs[|evs| - 1])
  }

  /** Clearing twice is the same as clearing once, whatever the state. */
  lemma ClearIdempotent(s: Selection)
    ensures Step(Step(s, Clear), Clear) == Step(s, Clear) == Initial
  {
  }

  /** After a clear, the earlier history no longer matters. */
  lemma {:induction false} ClearForgets(s: Selection, before: seq<Event>, after: seq<Event>)
    ensures Run(s, before + [Clear] + after) == Run(Initial, after)
    decreases |after|
  {
    if after == [] {
      assert before + [Clear] + after == before + [Clear];
      assert (before + [Clear])[..|before|] == before;
    } else {
      var init := after[..|after| - 1];
      ClearForgets(s, before, init);
      assert (before + [Clear] + after)[..|before + [Clear] + after| - 1] == before + [Clear] + init;
      assert (before + [Clear] + after)[|before + [Clear] + after| - 1] == after[|after| - 1];
    }
  }

  /** Whether `evs` has a zone check at `i` that no later clear undoes. */
  predicate ZoneCheckStands(evs: seq<Event>, i: int)
  {
    0 <= i < |evs| && evs[i].ZoneCheck? && forall j :: i < j < |evs| ==> !evs[j].Clear?
  }

  /**
   * The zone is known exactly when some zone check has happened and no clear
   * came after it; it is unknown initially and after every clear.
   */
  lemma {:induction false} ZoneKnownIff(evs: seq<Event>)
    ensures Run(Initial, evs).inZone.Some? <==> exists i :: ZoneCheckStands(evs, i)
    decreases |evs|
  {
    if evs != [] {
      var init, last := evs[..|evs| - 1], evs[|evs| - 1];
      ZoneKnownIff(init);
      if last.Clear? {
        assert !exists i :: ZoneCheckStands(evs, i) by {
          forall i | 0 <= i < |evs| - 1
            ensures !ZoneCheckStands(evs, i)
          {
            assert evs[|evs| - 1].Clear?;
          }
        }
      } else if last.ZoneCheck? {
        assert ZoneCheckStands(evs, |evs| - 1);
      } else {
        if exists i :: ZoneCheckStands(init, i) {
          var i :| ZoneCheckStands(init, i);
          assert ZoneCheckStands(evs, i);
        }
        if exists i :: ZoneCheckStands(evs, i) {
          var i :| ZoneCheckStands(evs, i);
          assert ZoneCheckStands(init, i);
        }
      }
    }
  }

  /** The hook's state, updated in place by its three handlers. */
  class AddressSelectionState {
    var selectedAddress: string
    var addressCoordinates: Option<Point>
    var isInZone: Option<bool>

    /** The three fields as one value. */
    function State(): Selection
      reads this
    {
      Selection(selectedAddress, addressCoordinates, isInZone)
    }

    /** The initial state: empty address, no coordinates, zone unknown. */
    constructor ()
      ensures selectedAddress == "" && addressCoordinates == None && isInZone == None
      ensures State() == Initial
    {
      selectedAddress, addressCoordinates, isInZone := "", None, None;
    }

    /** `handleAddressSelect`: sets the address and the coordinates; the zone result is kept. */
    method HandleAddressSelect(address: string, coordinates: Point)
      modifies this
      ensures selectedAddress == address && addressCoordinates == Some(coordinates)
      ensures isInZone == old(isInZone)
      ensures State() == Step(old(State()), Select(address, coordinates))
    {
      selectedAddress := address;
      addressCoordinates := Some(coordinates);
    }

    /** `handleAddressClear`: back to the initial state, from any state. */
    method HandleAddressClear()
      modifies this
      ensures selectedAddress == "" && addressCoordinates == None && isInZone == None
      ensures State() == Step(old(State()), Clear)
    {
      selectedAddress := "";
      addressCoordinates := None;
      isInZone := None;
    }

    /** `handleZoneCheck`: records the zone result and changes nothing else. */
    method HandleZoneCheck(inZone: bool)
      modifies this
      ensures isInZone == Some(inZone)
      ensures selectedAddress == old(selectedAddress) && addressCoordinates == old(addressCoordinates)
      ensures State() == Step(old(State()), ZoneCheck(inZone))
    {
      isInZone := Some(inZone);
    }
  }
}
