/** The schedule calendar of `CustomCalendar.js`: the schedules of the year on view, which of
    them each day's cell lists, the drawer that shows one schedule, and the local rename of a
    schedule's title. The fetch of a year's schedules is not modelled: its outcome is a parameter
    (`None` when the request throws). The effect that fetches depends on the year and on the
    drawer flag, and runs again exactly when one of them changes; each handler below includes
    that re-run. */
module CustomCalendar {
  import opened Wrappers
  import opened Dates
  import opened JsValue
  import opened Sequences

  /** The one request the calendar sends: the schedules of a year. */
  datatype Request = ListYear(year: int)

  // ---------------------------------------------------------------- a day's cell

  /** `cellDataRender`'s test: the schedule's start and end, as dayjs `YYYY-MM-DD` texts, enclose
      the cell's date text (`startDate <= d && endDate >= d` on strings). `now` is what
      `dayjs(undefined)` reads from the clock. A listed schedule has a start dayjs can read, since
      "Invalid Date" sorts after every date text. */
  predicate OnDay(item: Object, cell: Date, now: Date)
    ensures OnDay(item, cell, now) ==> DayjsText(Get(item, "schedule_startDate"), now) != InvalidDate
  {
    InvalidDateAfterEveryDate(cell);
    var startDate := DayjsText(Get(item, "schedule_startDate"), now);
    var endDate := DayjsText(Get(item, "schedule_endDate"), now);
    var d := Format(cell);
    StrLe(startDate, d) && StrLe(d, endDate)
  }

  /** The schedules a day's cell lists: those on that day, in the order of the year's list. */
  function CellData(items: seq<Object>, cell: Date, now: Date): (r: seq<Object>)
    ensures forall i :: 0 <= i < |r| ==> r[i] in items && OnDay(r[i], cell, now)
    ensures forall i :: 0 <= i < |items| && OnDay(items[i], cell, now) ==> items[i] in r
    ensures IsSubsequence(r, items)
    ensures Distinct(items) ==> Distinct(r)
    ensures multiset(r) <= multiset(items)
    ensures forall x :: x in items && OnDay(x, cell, now) ==> multiset(r)[x] == multiset(items)[x]
  {
    Filter(items, (item: Object) => OnDay(item, cell, now))
  }

  /** For a schedule whose start and end are date texts, the cell test is the interval test on
      day numbers, both ends included. */
  lemma OnDayOfDates(item: Object, cell: Date, now: Date, start: string, end: string)
    requires ValidDate(cell)
    requires Get(item, "schedule_startDate") == Str(start) && Parse(start).Some?
    requires Get(item, "schedule_endDate") == Str(end) && Parse(end).Some?
    ensures OnDay(item, cell, now)
            <==> DayNumber(Parse(start).value) <= DayNumber(cell) <= DayNumber(Parse(end).value)
  {
    DayjsTextOfString(start, now);
    DayjsTextOfString(end, now);
    FormatLeDayNumber(Parse(start).value, cell);
    FormatLeDayNumber(cell, Parse(end).value);
  }

  /** A schedule whose start text sorts after its end text is on no day. */
  lemma ReversedIntervalOnNoDay(item: Object, cell: Date, now: Date)
    requires StrLt(DayjsText(Get(item, "schedule_endDate"), now), DayjsText(Get(item, "schedule_startDate"), now))
    ensures !OnDay(item, cell, now)
  {
    var startDate := DayjsText(Get(item, "schedule_startDate"), now);
    var endDate := DayjsText(Get(item, "schedule_endDate"), now);
    var d := Format(cell);
    if OnDay(item, cell, now) {
      StrLeMeans(startDate, d);
      StrLeMeans(d, endDate);
      StrLtTrichotomy(endDate, startDate);
      if StrLt(startDate, d) && StrLt(d, endDate) {
        StrLtTransitive(startDate, d, endDate);
      }
      assert false;
    }
  }

  /** A `null` start formats as "Invalid Date", which sorts after every date: never listed. */
  lemma NullStartOnNoDay(item: Object, cell: Date, now: Date)
    requires Get(item, "schedule_startDate") == Null
    ensures !OnDay(item, cell, now)
  {
    InvalidDateAfterEveryDate(cell);
  }

  /** A `null` end also formats as "Invalid Date", so a schedule with a date start and a `null`
      end is listed on its start day and on every day after it. */
  lemma NullEndOpenEnded(item: Object, cell: Date, now: Date, start: string)
    requires ValidDate(cell)
    requires Get(item, "schedule_startDate") == Str(start) && Parse(start).Some?
    requires Get(item, "schedule_endDate") == Null
    ensures OnDay(item, cell, now) <==> DayNumber(Parse(start).value) <= DayNumber(cell)
  {
    DayjsTextOfString(start, now);
    FormatLeDayNumber(Parse(start).value, cell);
    InvalidDateAfterEveryDate(cell);
  }

  /** A schedule from June 1 to June 3 (of any year, 2024 say) is in the cells of June 1, 2 and
      3, and not in those of May 31 and June 4. */
  lemma ThreeDaySchedule(item: Object, now: Date, y: nat)
    requires y <= 9999
    requires Get(item, "schedule_startDate") == Str(Format(Date(y, 6, 1)))
    requires Get(item, "schedule_endDate") == Str(Format(Date(y, 6, 3)))
    ensures OnDay(item, Date(y, 6, 1), now) && OnDay(item, Date(y, 6, 2), now) && OnDay(item, Date(y, 6, 3), now)
    ensures !OnDay(item, Date(y, 5, 31), now) && !OnDay(item, Date(y, 6, 4), now)
  {
    var start, end := Format(Date(y, 6, 1)), Format(Date(y, 6, 3));
    ParseFormat(Date(y, 6, 1));
    ParseFormat(Date(y, 6, 3));
    OnDayOfDates(item, Date(y, 6, 1), now, start, end);
    OnDayOfDates(item, Date(y, 6, 2), now, start, end);
    OnDayOfDates(item, Date(y, 6, 3), now, start, end);
    OnDayOfDates(item, Date(y, 5, 31), now, start, end);
    OnDayOfDates(item, Date(y, 6, 4), now, start, end);
  }

  // ---------------------------------------------------------------- local rename

  /** One schedule after `updateItemTitle(id, newTitle)`: a copy with the new title when its id is
      `=== id`, the schedule itself otherwise. */
  function RetitleOne(item: Object, id: Value, newTitle: Value): (r: Object)
    ensures !StrictEquals(Get(item, "schedule_id"), id) ==> r == item
    ensures StrictEquals(Get(item, "schedule_id"), id) ==>
              r.Keys == item.Keys + {"schedule_title"} && Get(r, "schedule_title") == newTitle
    ensures forall k :: k != "schedule_title" ==> Get(r, k) == Get(item, k)
  {
    if StrictEquals(Get(item, "schedule_id"), id) then item["schedule_title" := newTitle] else item
  }

  /** The year's list after `updateItemTitle`: same length, same order, each schedule retitled
      or left alone. */
  function Retitled(items: seq<Object>, id: Value, newTitle: Value): (r: seq<Object>)
    ensures |r| == |items|
    ensures forall i :: 0 <= i < |r| ==> r[i] == RetitleOne(items[i], id, newTitle)
  {
    if items == [] then [] else [RetitleOne(items[0], id, newTitle)] + Retitled(items[1..], id, newTitle)
  }

  /** Renaming touches no date, so every cell lists the renamed versions of the schedules it
      listed before, in the same order. */
  lemma {:induction false} RetitleKeepsCells(items: seq<Object>, id: Value, newTitle: Value, cell: Date, now: Date)
    ensures CellData(Retitled(items, id, newTitle), cell, now) == Retitled(CellData(items, cell, now), id, newTitle)
  {
    if items != [] {
      var renamed := Retitled(items, id, newTitle);
      assert renamed[1..] == Retitled(items[1..], id, newTitle);
      assert Get(renamed[0], "schedule_startDate") == Get(items[0], "schedule_startDate");
      assert Get(renamed[0], "schedule_endDate") == Get(items[0], "schedule_endDate");
      RetitleKeepsCells(items[1..], id, newTitle, cell, now);
      var keep := (item: Object) => OnDay(item, cell, now);
      assert CellData(items, cell, now) == Filter(items, keep);
      FilterCons(items, keep);
      FilterCons(renamed, keep);
      RetitledConcat(if keep(items[0]) then [items[0]] else [], Filter(items[1..], keep), id, newTitle);
    }
  }

  lemma {:induction false} RetitledConcat(a: seq<Object>, b: seq<Object>, id: Value, newTitle: Value)
    ensures Retitled(a + b, id, newTitle) == Retitled(a, id, newTitle) + Retitled(b, id, newTitle)
  {
    var l, r := Retitled(a + b, id, newTitle), Retitled(a, id, newTitle) + Retitled(b, id, newTitle);
    assert |l| == |r|;
    forall i | 0 <= i < |l| ensures l[i] == r[i] {
      if i < |a| {
        assert (a + b)[i] == a[i];
      } else {
        assert (a + b)[i] == b[i - |a|];
      }
    }
  }

  /** Renaming twice with the same title is renaming once: the id it matches on is untouched. */
  lemma RetitleIdempotent(items: seq<Object>, id: Value, newTitle: Value)
    ensures Retitled(Retitled(items, id, newTitle), id, newTitle) == Retitled(items, id, newTitle)
  {
    var once := Retitled(items, id, newTitle);
    var twice := Retitled(once, id, newTitle);
    forall i | 0 <= i < |items| ensures twice[i] == once[i] {
      assert Get(once[i], "schedule_id") == Get(items[i], "schedule_id");
    }
  }

  // ---------------------------------------------------------------- the component's state

  class Calendar {
    var open: bool
    var selectedItem: Option<Object>
    var currentYear: int
    var currentYearData: seq<Object>

    /** `thisYear` is `dayjs().year()`, read from the clock. The effect's first run on mount is a
        call of `FetchYearData`. */
    constructor (thisYear: int)
      ensures !open && selectedItem == None && currentYear == thisYear && currentYearData == []
    {
      open, selectedItem, currentYear, currentYearData := false, None, thisYear, [];
    }

    /** `fetchYearData`: ask for the schedules of the year on view; they replace the list when
        they arrive, and a failed request leaves the list as it was. */
    method FetchYearData(reply: Option<seq<Object>>) returns (sent: Request)
      modifies this`currentYearData
      ensures sent == ListYear(currentYear)
      ensures currentYearData == if reply.Some? then reply.value else old(currentYearData)
    {
      sent := ListYear(currentYear);
      if reply.Some? {
        currentYearData := reply.value;
      }
    }

    /** `onPanelChange`: the panel moved to `panel`; the year on view becomes its year, and when
        that is a different year the effect fetches its schedules. */
    method OnPanelChange(panel: Date, reply: Option<seq<Object>>) returns (sent: seq<Request>)
      modifies this`currentYear, this`currentYearData
      ensures currentYear == panel.year
      ensures sent == if panel.year == old(currentYear) then [] else [ListYear(panel.year)]
      ensures currentYearData == if panel.year != old(currentYear) && reply.Some? then reply.value else old(currentYearData)
    {
      var changed := currentYear != panel.year;
      currentYear := panel.year;
      sent := [];
      if changed {
        var request := FetchYearData(reply);
        sent := [request];
      }
    }

    /** `showDrawer`: keep a copy of the clicked schedule and open the drawer; opening a closed
        drawer re-runs the effect, which fetches the year again. */
    method ShowDrawer(item: Object, reply: Option<seq<Object>>) returns (sent: seq<Request>)
      modifies this`selectedItem, this`open, this`currentYearData
      ensures selectedItem == Some(item) && open
      ensures sent == if old(open) then [] else [ListYear(currentYear)]
      ensures currentYearData == if !old(open) && reply.Some? then reply.value else old(currentYearData)
    {
      var changed := !open;
      selectedItem, open := Some(item), true;
      sent := [];
      if changed {
        var request := FetchYearData(reply);
        sent := [request];
      }
    }

    /** `closeDrawer`: close the drawer; closing an open drawer re-runs the effect. */
    method CloseDrawer(reply: Option<seq<Object>>) returns (sent: seq<Request>)
      modifies this`open, this`currentYearData
      ensures !open
      ensures sent == if old(open) then [ListYear(currentYear)] else []
      ensures currentYearData == if old(open) && reply.Some? then reply.value else old(currentYearData)
    {
      var changed := open;
      open := false;
      sent := [];
      if changed {
        var request := FetchYearData(reply);
        sent := [request];
      }
    }

    /** `updateItemTitle`: rename the schedules with that id in the local list only. */
    method UpdateItemTitle(id: Value, newTitle: Value)
      modifies this`currentYearData
      ensures currentYearData == Retitled(old(currentYearData), id, newTitle)
    {
      currentYearData := Retitled(currentYearData, id, newTitle);
    }
  }
}
