/** What the battery create and update modals share: the required-field check of
    `form.validateFields()`, the payload `handleSubmit` builds from the validated values, and
    the "in use" toggle, which parks the battery at the office and locks the inputs that
    depend on where it is. The form's store is an `Object` from field name to value. */
module BatteryForm {
  import opened Wrappers
  import opened Dates
  import opened JsValue

  /** The location written when a battery is marked as not in use: "the office". */
  const Office: string := "사무실"

  /** The payload fields `handleSubmit` rewrites. */
  const Rewritten: set<string> := {"due_date", "folder_name", "marks"}

  /** A `required` rule rejects `undefined`, `null` and the empty string (but not `false`). */
  predicate IsMissing(v: Value) {
    v == Undefined || v == Null || v == Str("")
  }

  /** `form.validateFields()`: rejected when a required field is missing; otherwise it resolves
      with the value of every field that has a Form.Item, read from the store. Keys the store
      holds for no Form.Item are not part of the result. */
  function ValidateFields(store: Object, fields: set<string>, required: set<string>): (r: Option<Object>)
    requires required <= fields
    ensures r.None? <==> exists name :: name in required && IsMissing(Get(store, name))
    ensures r.Some? ==> r.value.Keys == fields
    ensures r.Some? ==> forall name :: name in fields ==> r.value[name] == Get(store, name)
  {
    if exists name :: name in required && IsMissing(Get(store, name)) then None
    else Some(map name | name in fields :: Get(store, name))
  }

  /** The payload of `handleSubmit`: the due date as its `YYYY-MM-DD` text (or `null` when
      empty), an empty folder name or remark as `null`, every other value as it is. A truthy
      due date that is not a dayjs object has no `format`; the call throws and the submission
      stops (`None`). */
  function FormattedValues(values: Object): (r: Option<Object>)
    ensures r.None? <==> Truthy(Get(values, "due_date")) && !Get(values, "due_date").Day?
    ensures r.Some? ==> r.value.Keys == values.Keys + Rewritten
    ensures r.Some? ==> forall k :: k in values && k !in Rewritten ==> r.value[k] == values[k]
    ensures r.Some? ==> (r.value["due_date"] == Null <==> !Truthy(Get(values, "due_date")))
    ensures r.Some? && Truthy(Get(values, "due_date")) ==>
              r.value["due_date"] == Str(FormatDay(Get(values, "due_date").date))
    ensures r.Some? ==> r.value["folder_name"] == Or(Get(values, "folder_name"), Null)
    ensures r.Some? ==> r.value["marks"] == Or(Get(values, "marks"), Null)
  {
    var due := Get(values, "due_date");
    if Truthy(due) && !due.Day? then None
    else
      var dueText := if Truthy(due) then Str(FormatDay(due.date)) else Null;
      Some(values["due_date" := dueText]
                 ["folder_name" := Or(Get(values, "folder_name"), Null)]
                 ["marks" := Or(Get(values, "marks"), Null)])
  }

  /** What `onOk` receives when the OK button submits `store` in a dialog with these fields:
      nothing unless validation passes and the payload can be built; then one value per field. */
  function Submission(store: Object, fields: set<string>, required: set<string>): (r: Option<Object>)
    requires required <= fields && Rewritten <= fields
    ensures r.Some? ==> ValidateFields(store, fields, required).Some?
    ensures r.Some? ==> r.value.Keys == fields
    ensures (exists name :: name in required && IsMissing(Get(store, name))) ==> r.None?
    ensures ValidateFields(store, fields, required).None? ==> r.None?
    ensures ValidateFields(store, fields, required).Some? ==>
              r == FormattedValues(ValidateFields(store, fields, required).value)
  {
    var values := ValidateFields(store, fields, required);
    if values.Some? then FormattedValues(values.value) else None
  }

  /** A payload is normalised: its folder name and remark are `null` or truthy, its due date is
      `null` or a text, a picked date reads back from that text as the same date, and a dayjs
      object that holds no date goes out as "Invalid Date". */
  lemma PayloadNormalised(values: Object)
    requires FormattedValues(values).Some?
    ensures var p := FormattedValues(values).value;
            && (p["folder_name"] == Null || Truthy(p["folder_name"]))
            && (p["marks"] == Null || Truthy(p["marks"]))
            && (p["due_date"] == Null || p["due_date"].Str?)
    ensures var p := FormattedValues(values).value;
            Get(values, "due_date").Day? && Get(values, "due_date").date.Some? && ValidDate(Get(values, "due_date").date.value)
            ==> p["due_date"].Str? && Parse(p["due_date"].s) == Get(values, "due_date").date
    ensures var p := FormattedValues(values).value;
            Get(values, "due_date") == Day(None) ==> p["due_date"] == Str(InvalidDate)
  {
    var due := Get(values, "due_date");
    if due.Day? && due.date.Some? && ValidDate(due.date.value) {
      ParseFormat(due.date.value);
    }
  }

  /** Building the payload of a payload again throws once there is a due date (a text has no
      `format`), and otherwise changes nothing. */
  lemma FormattedTwice(values: Object)
    requires FormattedValues(values).Some?
    ensures var p := FormattedValues(values).value;
            FormattedValues(p).None? <==> Truthy(Get(values, "due_date"))
    ensures var p := FormattedValues(values).value;
            !Truthy(Get(values, "due_date")) ==> FormattedValues(p) == Some(p)
  {
    var p := FormattedValues(values).value;
    if !Truthy(Get(values, "due_date")) {
      var q := FormattedValues(p).value;
      assert q.Keys == p.Keys;
      forall k | k in p ensures q[k] == p[k] {
        if k == "folder_name" || k == "marks" {
          assert p[k] == Null || Truthy(p[k]);
        }
      }
      assert q == p;
    } else {
      assert p["due_date"].Str? && p["due_date"].s != "" by {
        assert Format(Date(0, 1, 1)) != "" && InvalidDate != "";
      }
    }
  }

  /** The state Select's change: the Form.Item stores the picked value under `state`, then
      `handleStateChange` runs. Picking `false` (strictly) writes the office as the location
      and locks the dependent inputs; any other value clears the location and unlocks them.
      The result is the new store and the new lock flag. */
  function PickState(store: Object, value: Value): (r: (Object, bool))
    ensures r.1 <==> value == Bool(false)
    ensures r.0.Keys == store.Keys + {"state", "location_name"}
    ensures Get(r.0, "state") == value
    ensures Get(r.0, "location_name") == if r.1 then Str(Office) else Null
    ensures forall k :: k != "state" && k != "location_name" ==> Get(r.0, k) == Get(store, k)
  {
    var picked := store["state" := value];
    if StrictEquals(value, Bool(false)) then (picked["location_name" := Str(Office)], true)
    else (picked["location_name" := Null], false)
  }

  /** Toggling back and forth: the last pick decides the location and the lock, whatever came
      before. */
  lemma PickStateLastWins(store: Object, first: Value, second: Value)
    ensures PickState(PickState(store, first).0, second) == PickState(store, second)
  {
    var a, b := PickState(PickState(store, first).0, second), PickState(store, second);
    assert a.0.Keys == b.0.Keys;
    forall k | k in a.0 ensures a.0[k] == b.0[k] {
      assert Get(a.0, k) == Get(b.0, k);
    }
    assert a.0 == b.0 && a.1 == b.1;
  }
}
