/** GATT discovery in lib/bt/connect.c: the handle table of a node, filled in place. */
module Discovery {
  import opened Base
  import opened DiscoverySpec

  class NodeInfo {
    /** attr_handles of the node. */
    const attrHandles: array<AttrHandle>
    /** The handle range of the discovery under way. */
    var startHandle: nat
    var endHandle: nat

    ghost predicate Valid() {
      attrHandles.Length == ATTRS
    }

    ghost function T(): Table
      requires Valid()
      reads attrHandles
    {
      attrHandles[..]
    }

    /** A zeroed node, searching a service that ends at `endHandle`. */
    constructor (endHandle: nat)
      ensures Valid() && fresh(attrHandles) && T() == EMPTY_TABLE && this.endHandle == endHandle
    {
      attrHandles := new AttrHandle[ATTRS](_ => UNKNOWN);
      startHandle, this.endHandle := 0, endHandle;
      new;
      assert attrHandles[..] == EMPTY_TABLE;
    }

    /** discover_characteristics with a characteristic declaration. */
    method DiscoverCharacteristic(uuid: Uuid, valueHandle: nat)
      requires Valid()
      modifies attrHandles
      ensures T() == NoteCharacteristic(old(T()), uuid, valueHandle)
    {
      for i := 0 to ATTRS
        invariant forall j :: 0 <= j < i ==> CHAR_UUIDS[j] != uuid
        invariant attrHandles[..] == old(attrHandles[..])
      {
        if CHAR_UUIDS[i] == uuid {
          attrHandles[i] := attrHandles[i].(value := valueHandle);
          return;
        }
      }
    }

    /** discover_characteristics at the end; `ok` is false when uplink or downlink is missing. */
    method CharacteristicsDone() returns (ok: bool)
      requires Valid()
      modifies this`startHandle
      ensures ok == Usable(T())
      ensures startHandle == if ok then StartHandle(T(), endHandle) else old(startHandle)
    {
      if attrHandles[2].value == 0 || attrHandles[1].value == 0 {
        return false;
      }
      startHandle := endHandle;
      for i := 0 to ATTRS
        invariant startHandle == LeastValue(T(), endHandle, i)
      {
        if attrHandles[i].value < startHandle {
          startHandle := attrHandles[i].value;
        }
      }
      startHandle := (startHandle + 2) % HANDLE_MODULUS;
      ok := true;
    }

    /** discover_descriptors with a CCC descriptor. */
    method DiscoverDescriptor(handle: nat)
      requires Valid()
      modifies attrHandles
      ensures T() == Attribute(old(T()), handle)
    {
      var attrIdx := ATTRS;
      for i := 0 to ATTRS
        invariant Closest(T(), handle, i) == if attrIdx == ATTRS then None else Some(attrIdx)
        invariant 0 <= attrIdx <= ATTRS
      {
        if attrHandles[i].value < handle {
          if attrIdx == ATTRS {
            attrIdx := i;
          } else if attrHandles[i].value > attrHandles[attrIdx].value {
            attrIdx := i;
          }
        }
      }
      if attrIdx != ATTRS {
        attrHandles[attrIdx] := attrHandles[attrIdx].(ccc := handle);
      }
    }
  }
}
