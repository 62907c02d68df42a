/** The battery creation dialog. It shares the payload rule and the "in use" toggle with the
    edit dialog, but its location field is `location_id`: the toggle still writes the office
    under `location_name`, a key with no Form.Item here, so that write never reaches the
    payload and a battery marked as not in use still needs a location picked. */
module BatteryCreateModal {
  import opened Wrappers
  import opened JsValue
  import opened BatteryForm

  /** The fields with a Form.Item (lines 58-94). */
  const Fields: set<string> := {"product_id", "state", "location_id", "folder_name", "due_date", "marks"}

  /** The fields whose rule is `required` (lines 58, 66, 73). */
  const Required: set<string> := {"product_id", "state", "location_id"}

  /** The inputs disabled while `isLocationDisabled` holds (lines 76, 85, 89). */
  const Locked: set<string> := {"location_id", "folder_name", "due_date"}

  /** The rendered component's form and its lock flag. */
  class CreateForm {
    var store: Object
    var isLocationDisabled: bool

    constructor ()
      ensures store == map[] && !isLocationDisabled
    {
      store := map[];
      isLocationDisabled := false;
    }

    /** Whether the input for `name` takes no edits: the locked inputs, while the battery is not
        in use; the product, state and remark inputs never. */
    predicate Disabled(name: string)
      reads this
      ensures Disabled(name) ==> name in Fields && isLocationDisabled
      ensures name in Fields - Locked ==> !Disabled(name)
      ensures isLocationDisabled && name in Locked ==> Disabled(name)
    {
      isLocationDisabled && name in Locked
    }

    /** A pick in the state Select (lines 13-21, 67): see `BatteryForm.PickState`. */
    method HandleStateChange(value: Value)
      modifies this
      ensures (store, isLocationDisabled) == PickState(old(store), value)
    {
      var picked := store["state" := value];
      if StrictEquals(value, Bool(false)) {
        isLocationDisabled := true;
        store := picked["location_name" := Str(Office)];
      } else {
        isLocationDisabled := false;
        store := picked["location_name" := Null];
      }
    }

    /** The user types into or picks in the input for `name`; a disabled input ignores it. */
    method EditField(name: string, value: Value)
      requires name in Fields && name != "state"
      modifies this`store
      ensures store == if Disabled(name) then old(store) else old(store)[name := value]
    {
      if !Disabled(name) {
        store := store[name := value];
      }
    }

    /** The OK button (lines 23-45, 51): on success the form is reset before `onOk` receives
        the payload; on failure nothing changes and `onOk` is not called (`None`). */
    method Submit() returns (payload: Option<Object>)
      modifies this`store
      ensures payload == Submission(old(store), Fields, Required)
      ensures payload.Some? ==> store == map[]
      ensures payload.None? ==> store == old(store)
    {
      var values := ValidateFields(store, Fields, Required);
      if values.Some? {
        payload := FormattedValues(values.value);
        if payload.Some? {
          store := map[];
        }
      } else {
        payload := None;
      }
    }

    /** The Cancel button (lines 52-55): the form is reset before `onCancel` runs. */
    method Cancel()
      modifies this`store
      ensures store == map[]
    {
      store := map[];
    }
  }

  /** The payload never carries `location_name`, whatever the store holds, and a missing
      product, state or location blocks the submission. */
  lemma PayloadShape(store: Object)
    ensures Submission(store, Fields, Required).Some? ==> "location_name" !in Submission(store, Fields, Required).value
    ensures (exists name :: name in Required && IsMissing(Get(store, name))) ==> Submission(store, Fields, Required).None?
  {
  }

  /** Marking a battery as not in use leaves `location_id` as it was: with no location picked
      yet the submission stays blocked, and the location input is locked so none can be
      picked until the state is set back. */
  lemma NotInUseStillNeedsLocation(store: Object)
    requires IsMissing(Get(store, "location_id"))
    ensures var (s, locked) := PickState(store, Bool(false));
            && Get(s, "location_id") == Get(store, "location_id")
            && Submission(s, Fields, Required).None?
            && locked && "location_id" in Locked
  {
    var s := PickState(store, Bool(false)).0;
    assert Get(s, "location_id") == Get(store, "location_id");
    assert "location_id" in Required;
  }

  /** With the product, state and location filled, whatever the toggle did to the store, the
      payload holds exactly the form's fields, the picked location id and the picked state. */
  lemma PickedLocationSubmits(store: Object, value: Value)
    requires !IsMissing(Get(store, "product_id")) && !IsMissing(Get(store, "location_id"))
    requires !IsMissing(value)
    requires !Truthy(Get(store, "due_date")) || Get(store, "due_date").Day?
    ensures var p := Submission(PickState(store, value).0, Fields, Required);
            && p.Some?
            && p.value["location_id"] == Get(store, "location_id")
            && p.value["state"] == value
            && p.value["product_id"] == Get(store, "product_id")
  {
    var s := PickState(store, value).0;
    assert Get(s, "product_id") == Get(store, "product_id");
    assert Get(s, "location_id") == Get(store, "location_id");
    assert Get(s, "due_date") == Get(store, "due_date");
    assert forall name :: name in Required ==> !IsMissing(Get(s, name));
    var values := ValidateFields(s, Fields, Required);
    assert values.Some?;
    assert Get(values.value, "due_date") == Get(store, "due_date");
  }
}
