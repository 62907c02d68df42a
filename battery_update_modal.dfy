/** The battery edit dialog: it loads the selected battery into its form, locks the location,
    folder and due-date inputs while the battery is marked as not in use, and hands the
    normalised values to its `onOk` once the required fields are filled. */
module BatteryUpdateModal {
  import opened Wrappers
  import opened Dates
  import opened JsValue
  import opened BatteryForm

  /** The fields with a Form.Item (lines 92-141). */
  const Fields: set<string> :=
    {"folder_id", "product_name", "state", "location_name", "folder_name", "due_date", "marks"}

  /** The fields whose rule is `required` (lines 96, 110, 117). */
  const Required: set<string> := {"product_name", "state", "location_name"}

  /** The inputs disabled while `isLocationDisabled` holds (lines 120, 132, 136). */
  const Locked: set<string> := {"location_name", "folder_name", "due_date"}

  /** The values the effect writes for a selected battery: the record itself, with its due date
      as a dayjs object (or `null` when it has none). */
  function LoadedFields(item: Object): (r: Object)
    ensures r.Keys == item.Keys + {"due_date"}
    ensures forall k :: k in item && k != "due_date" ==> r[k] == item[k]
    ensures Truthy(Get(item, "due_date")) ==> r["due_date"] == Day(DateOf(item["due_date"]))
    ensures !Truthy(Get(item, "due_date")) ==> r["due_date"] == Null
  {
    item["due_date" := if Truthy(Get(item, "due_date")) then Day(DateOf(item["due_date"])) else Null]
  }

  /** The rendered component's form and its lock flag. */
  class UpdateForm {
    var store: Object
    var isLocationDisabled: bool

    constructor ()
      ensures store == map[] && !isLocationDisabled
    {
      store := map[];
      isLocationDisabled := false;
    }

    /** Whether the input for `name` takes no edits: the serial number always, the locked
        inputs while the battery is not in use. */
    predicate Disabled(name: string)
      reads this
      ensures Disabled(name) ==> name in Fields
      ensures name in Fields - Locked - {"folder_id"} ==> !Disabled(name)
      ensures !isLocationDisabled ==> (Disabled(name) <==> name == "folder_id")
      ensures isLocationDisabled ==> (Disabled(name) <==> name == "folder_id" || name in Locked)
    {
      name == "folder_id" || (isLocationDisabled && name in Locked)
    }

    /** The effect on a new `selectItem` (lines 16-31): a selected battery is merged into the
        form and the inputs are locked exactly when its state is loosely `== false`. The call
        `form.setFieldValue({...})` on line 25 passes an object where a field name is expected
        and writes no field, so the location keeps the record's value. */
    method SelectItemChanged(selectItem: Option<Object>)
      modifies this
      ensures selectItem.None? ==> store == old(store) && isLocationDisabled == old(isLocationDisabled)
      ensures selectItem.Some? ==>
        && store == old(store) + LoadedFields(selectItem.value)
        && isLocationDisabled == LooseEqualsBool(Get(selectItem.value, "state"), false)
    {
      if selectItem.Some? {
        var item := selectItem.value;
        store := store + LoadedFields(item);
        if LooseEqualsBool(Get(item, "state"), false) {
          isLocationDisabled := true;
        } else {
          isLocationDisabled := false;
        }
      }
    }

    /** A pick in the state Select (lines 51-59, 111): see `BatteryForm.PickState`. */
    method HandleStateChange(value: Value)
      modifies this
      ensures (store, isLocationDisabled) == PickState(old(store), value)
    {
      var picked := store["state" := value];
      if StrictEquals(value, Bool(false)) {
        isLocationDisabled := true;
        store := picked["location_name" := Str(Office)];
      } else {
        isLocationDisabled := false;
        store := picked["location_name" := Null];
      }
    }

    /** The user types into or picks in the input for `name`; a disabled input ignores it. */
    method EditField(name: string, value: Value)
      requires name in Fields && name != "state"
      modifies this`store
      ensures store == if Disabled(name) then old(store) else old(store)[name := value]
    {
      if !Disabled(name) {
        store := store[name := value];
      }
    }

    /** The OK button (lines 61-79, 85): when validation passes and the payload can be built,
        the form is reset and the payload is what `onOk` receives; otherwise nothing changes
        and `onOk` is not called (`None`). */
    method Submit() returns (payload: Option<Object>)
      modifies this`store
      ensures payload == Submission(old(store), Fields, Required)
      ensures payload.Some? ==> store == map[]
      ensures payload.None? ==> store == old(store)
    {
      var values := ValidateFields(store, Fields, Required);
      if values.Some? {
        payload := FormattedValues(values.value);
        if payload.Some? {
          store := map[];
        }
      } else {
        payload := None;
      }
    }

    /** The Cancel button (lines 86-89): the form is reset before `onCancel` runs. */
    method Cancel()
      modifies this`store
      ensures store == map[]
    {
      store := map[];
    }
  }

  /** A missing product, state or location blocks the submission. */
  lemma MissingRequiredBlocks(store: Object, name: string)
    requires name in Required && IsMissing(Get(store, name))
    ensures Submission(store, Fields, Required).None?
  {
  }

  /** Marking a battery that has a product as not in use makes it submittable (unless a due
      date that is not a date is present), and the payload then says it is at the office and
      not in use, with every other field as the form holds it. */
  lemma NotInUseSubmitsOffice(store: Object)
    requires !IsMissing(Get(store, "product_name"))
    requires !Truthy(Get(store, "due_date")) || Get(store, "due_date").Day?
    ensures var p := Submission(PickState(store, Bool(false)).0, Fields, Required);
            && p.Some?
            && p.value["location_name"] == Str(Office)
            && p.value["state"] == Bool(false)
            && p.value["product_name"] == Get(store, "product_name")
            && p.value["folder_id"] == Get(store, "folder_id")
  {
    var s := PickState(store, Bool(false)).0;
    assert Get(s, "product_name") == Get(store, "product_name");
    assert Get(s, "due_date") == Get(store, "due_date");
    assert forall name :: name in Required ==> !IsMissing(Get(s, name));
    var values := ValidateFields(s, Fields, Required);
    assert values.Some?;
    assert Get(values.value, "due_date") == Get(store, "due_date");
  }

  /** Marking it as in use clears the location, so the submission is blocked until a location
      is picked again. */
  lemma InUseNeedsLocation(store: Object, value: Value)
    requires value != Bool(false)
    ensures Submission(PickState(store, value).0, Fields, Required).None?
  {
    MissingRequiredBlocks(PickState(store, value).0, "location_name");
  }

  /** A stored due date survives loading and resubmitting: a `YYYY-MM-DD` text comes back as
      that date's text, and a text dayjs cannot read goes out as "Invalid Date". */
  lemma LoadedDueDateRoundTrip(item: Object, s: string)
    requires Get(item, "due_date") == Str(s) && s != ""
    ensures var v := FormattedValues(LoadedFields(item));
            && v.Some?
            && (Parse(s).Some? ==> v.value["due_date"] == Str(s[..10]))
            && (Parse(s).None? ==> v.value["due_date"] == Str(InvalidDate))
  {
    var v := FormattedValues(LoadedFields(item));
    assert Get(LoadedFields(item), "due_date") == Day(Parse(s));
  }
}
