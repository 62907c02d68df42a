# guff: asset table, schedule calendar, battery forms and HWP column mapping in Dafny

This project models the core of guff, a small asset-management site. The model has two halves.

The React front end is modelled in four parts:
- the asset table: its pagination, its filter menus, its date display and highlighting, and the page kept after a delete;
- the schedule calendar: which schedules each day's cell lists, the drawer, and the local rename of a title;
- the battery create and edit dialogs: required fields, the submitted payload, and the "in use" toggle;
- the JavaScript semantics those files rely on, and the part of dayjs they use.

From the FastAPI back end it models the HWP report controller's column tables. These cover:
- the per-record renaming done on upload;
- the column selection done on download;
- the inverse mapping;
- `isNestedList`.

Files and modules:

- `wrappers.dfy` (`Wrappers`): `Option`.
- `sequences.dfy` (`Sequences`): order-preserving filtering (`Array.prototype.filter`, a Python comprehension with `if`), subsequences, distinctness.
- `dates.dfy` (`Dates`): calendar dates and day numbers. It also holds JavaScript string order (compared by code point), `YYYY-MM-DD` formatting and parsing, and the central fact that on date texts string order is date order.
- `jsvalue.dfy` (`JsValue`): JavaScript values:
  - truthiness and `||`;
  - `===`;
  - `==` against a boolean;
  - `dayjs(x).format('YYYY-MM-DD')`.
- `asset_table.dfy` (`AssetTable`): `AssetTable.js`. The component's state is the class `Table`.
- `custom_calendar.dfy` (`CustomCalendar`): `CustomCalendar.js`. The state is the class `Calendar`.
- `battery_form.dfy` (`BatteryForm`): what both battery dialogs share. It covers `validateFields`, the payload built in `handleSubmit`, and `handleStateChange`.
- `battery_update_modal.dfy`, `battery_create_modal.dfy`: the two dialogs. Each has a class holding the form's store and the lock flag.
- `hwp_controller.dfy` (`HwpController`): `HwpController.py`.

Requests to the backend are not made. Each handler takes the outcome of each request as a parameter and returns the list of requests it sent. `None` means the request failed or threw. So "nothing changes when the request fails" is part of every handler's contract. The clock is a parameter too (`now`, `today`, `thisYear`).

The code is followed wherever it departs from the components' documented intent:
- After a delete that empties the list, the page becomes 0 (`Math.ceil(0 / pageSize)`), not 1. Page 0 shows nothing.
- `cellDataRender` compares dayjs texts as strings. A `null` start formats as "Invalid Date", which sorts after every date, so that schedule is never shown. A `null` end is shown on every day from the start on.
- In the edit dialog's load effect, `form.setFieldValue({location_name: "사무실"})` passes an object where a field name belongs. It writes no field, so loading a battery that is not in use keeps the record's location.
- In the create dialog, the toggle writes the office under `location_name`. That key has no Form.Item there; the required location field is `location_id`. So the office never reaches the payload.
- `AssetTable.js` validates a form instance that is connected to no Form. Such a `validateFields()` checks no field and always resolves, so in the running page validation always passes. `handleOk` still takes its outcome as a parameter; only `true` arises.

## Model

| member | source | states |
|---|---|---|
| AssetTable.Slice | front/src/components/asset/AssetTable.js:99 | `slice` with JavaScript index rules: negative indices count from the end, both ends are clamped, and a reversed range is empty |
| AssetTable.Window | front/src/components/asset/AssetTable.js:99 | from page 1 on, the slice is exactly `data[(page-1)*size .. min(page*size, n))`, empty once the page starts past the end; it is never longer than the list |
| AssetTable.WindowContents | front/src/components/asset/AssetTable.js:99 | from page 1 on, the slice holds `min(size, max(0, n-(page-1)*size))` rows |
| AssetTable.WindowOfPageZero | front/src/components/asset/AssetTable.js:99 | page 0 shows no rows, whatever the list holds |
| AssetTable.WindowPartition | front/src/components/asset/AssetTable.js:99 | row i is on the page its index falls on, at offset i mod size; and entry j of any page p from 1 on is row (p-1)*size+j, so no row is on any other page |
| AssetTable.TotalPages | front/src/components/asset/AssetTable.js:130 | `Math.ceil(n / size)`: 0 exactly for an empty list; otherwise the least page count whose pages hold all `n` rows |
| AssetTable.ClampPage | front/src/components/asset/AssetTable.js:130-134 | the page is kept when it is at most the page count, and becomes the page count otherwise |
| AssetTable.ClampedWindow | front/src/components/asset/AssetTable.js:125-136 | after the clamp, a page from 1 on shows at least one row whenever the list is non-empty; an empty list leaves page 0 |
| AssetTable.DeleteOnSecondPage | front/src/components/asset/AssetTable.js:125-136 | with pages of 10, deleting one of 12 rows while on page 2 keeps page 2, which then shows exactly the 11th row |
| AssetTable.FilterOptions | front/src/components/asset/AssetTable.js:50-51 | one menu entry per lookup record, in order, whose text and value are both that record's name field |
| AssetTable.LookupOptionSelects | front/src/components/asset/AssetTable.js:225-279 | choosing the i-th brand or location entry keeps exactly the rows whose field is `===` that record's name |
| AssetTable.YesNoFilter | front/src/components/asset/AssetTable.js:217-290 | the `onFilter` of the state and rent columns, `record[field] == value`: on a boolean field it is plain equality; a null or missing field passes no entry |
| AssetTable.LookupFilter | front/src/components/asset/AssetTable.js:231-279 | the `onFilter` of the brand and location columns: a row passes exactly when its field is `===` the entry's value, which never holds for an object value |
| AssetTable.YesNoMenus | front/src/components/asset/AssetTable.js:213-290 | the state menu and the rent menu each offer `true` then `false`, and a row whose field is a boolean passes exactly one of the two entries |
| AssetTable.YesNoFilters | front/src/components/asset/AssetTable.js:213-290 | for any field, so for both `state` and `rent_state`: no row passes both entries; a boolean field passes the entry equal to it; null or missing passes neither; `1` and `"1"` pass the "yes" entry |
| AssetTable.Substring | front/src/components/asset/AssetTable.js:177-179 | `substring` with both ends clamped to the length: the exact slice inside the text, the rest of the text when only `end` is past it, `""` when `start` is past it |
| AssetTable.FormatDate | front/src/components/asset/AssetTable.js:173-181 | an empty date shows as ""; a non-empty string shows its clamped pieces 2–4, 5–7 and 8–10 as `YY년 MM월 DD일`, the exact slices when it has 10 characters or more; any other truthy value throws (`None`) |
| AssetTable.FormatDateOfDate | front/src/components/asset/AssetTable.js:173-181 | the text of a date shows its last two year digits, its month and its day |
| AssetTable.FormatDateOfShortText | front/src/components/asset/AssetTable.js:177-180 | a text too short for a date gives empty pieces, not an error |
| AssetTable.IsDateWithinNextSevenDays | front/src/components/asset/AssetTable.js:184-198 | an empty date gives `''`; any other date gives a boolean that holds exactly when the value reads as a valid date whose day number lies 0 to 7 after today's |
| AssetTable.HighlightOfDate | front/src/components/asset/AssetTable.js:184-198 | for a date's text, the highlight holds exactly when the date's day number is within today's +0..+7 |
| AssetTable.HighlightWeekAhead | front/src/components/asset/AssetTable.js:184-198 | with today on June 25, July 2 is highlighted and July 3 is not |
| AssetTable.Table.constructor | front/src/components/asset/AssetTable.js:23-40 | the initial state: no rows, page 1 of size 10, no filter menus, nothing selected, every modal closed |
| AssetTable.Table.CurrentData | front/src/components/asset/AssetTable.js:99 | the `currentData` value is the current page's stretch of `data`, cut off at its end, and empty on page 0 (the value is computed but not given to the Table) |
| AssetTable.Table.FetchData | front/src/components/asset/AssetTable.js:43-60 | requests assets, brands and locations in turn until one fails. Only when all three arrive are the list and both menus replaced; no other state changes |
| AssetTable.Table.ShowModal | front/src/components/asset/AssetTable.js:63-66 | selects the record and opens the edit modal |
| AssetTable.Table.ShowReadModal | front/src/components/asset/AssetTable.js:69-72 | selects the record and opens the read-only modal |
| AssetTable.Table.ShowCreateModal | front/src/components/asset/AssetTable.js:75-77 | opens the create modal |
| AssetTable.Table.HandleCancel | front/src/components/asset/AssetTable.js:80-82 | closes the edit modal |
| AssetTable.Table.HandleReadModalCancel | front/src/components/asset/AssetTable.js:85-87 | closes the read-only modal |
| AssetTable.Table.HandleCreateModalCancel | front/src/components/asset/AssetTable.js:90-92 | closes the create modal |
| AssetTable.Table.HandleTableChange | front/src/components/asset/AssetTable.js:94-97 | the handler sets `currentPage` and `pageSize` to the reported ones and changes nothing else (the Table is given no `onChange`, so nothing calls it) |
| AssetTable.Table.HandleOk | front/src/components/asset/AssetTable.js:110-122 | validate, then PUT, then GET. Only a full success replaces the list with the fetched one and closes the modal |
| AssetTable.Table.HandleDelete | front/src/components/asset/AssetTable.js:125-141 | DELETE, then GET. On success the list is the fetched one and `currentPage` is clamped to the page count, so `currentData` is non-empty when rows are left and the old page was 1 or more |
| AssetTable.Table.HandleCreate | front/src/components/asset/AssetTable.js:144-170 | POST, then GET. Only a full success replaces the list and closes the create modal |
| CustomCalendar.OnDay | front/src/components/schedule/CustomCalendar.js:66-69 | the string test of a cell; a schedule it lists has a start dayjs can read |
| CustomCalendar.CellData | front/src/components/schedule/CustomCalendar.js:65-70 | a cell lists exactly the schedules on its day, in the year list's order, each as many times as the list holds it |
| CustomCalendar.OnDayOfDates | front/src/components/schedule/CustomCalendar.js:66-69 | for date-text start and end, the string test is the inclusive interval test on day numbers |
| CustomCalendar.ReversedIntervalOnNoDay | front/src/components/schedule/CustomCalendar.js:69 | a schedule whose start text sorts after its end text is on no day |
| CustomCalendar.NullStartOnNoDay | front/src/components/schedule/CustomCalendar.js:67-69 | a null start ("Invalid Date") puts the schedule on no day |
| CustomCalendar.NullEndOpenEnded | front/src/components/schedule/CustomCalendar.js:68-69 | a null end shows the schedule on its start day and on every day after it |
| CustomCalendar.ThreeDaySchedule | front/src/components/schedule/CustomCalendar.js:65-70 | a June 1–3 schedule is in the cells of June 1, 2 and 3 and not in those of May 31 and June 4 |
| CustomCalendar.RetitleOne | front/src/components/schedule/CustomCalendar.js:60 | a schedule whose id is `===` the given one gets the new title and keeps every other field; any other schedule is unchanged |
| CustomCalendar.Retitled | front/src/components/schedule/CustomCalendar.js:58-62 | same length and order, each schedule retitled in place |
| CustomCalendar.RetitleKeepsCells | front/src/components/schedule/CustomCalendar.js:57-70 | renaming moves no schedule between cells: each cell lists the renamed versions of the schedules it listed |
| CustomCalendar.RetitledConcat | front/src/components/schedule/CustomCalendar.js:58-62 | retitling a concatenation retitles each part |
| CustomCalendar.RetitleIdempotent | front/src/components/schedule/CustomCalendar.js:57-63 | renaming twice with the same title is renaming once |
| CustomCalendar.Calendar.constructor | front/src/components/schedule/CustomCalendar.js:25-28 | drawer closed, nothing selected, the current year, an empty list |
| CustomCalendar.Calendar.FetchYearData | front/src/components/schedule/CustomCalendar.js:31-38 | asks for the year on view; a reply replaces the list, and a failure leaves it as it was |
| CustomCalendar.Calendar.OnPanelChange | front/src/components/schedule/CustomCalendar.js:30-45 | the year on view becomes the panel's year. The effect fetches only when the year changed |
| CustomCalendar.Calendar.ShowDrawer | front/src/components/schedule/CustomCalendar.js:30-51 | selects a copy of the schedule and opens the drawer. Opening a closed drawer re-runs the fetch |
| CustomCalendar.Calendar.CloseDrawer | front/src/components/schedule/CustomCalendar.js:30-55 | closes the drawer. Closing an open drawer re-runs the fetch |
| CustomCalendar.Calendar.UpdateItemTitle | front/src/components/schedule/CustomCalendar.js:57-63 | the list becomes its retitled version |
| BatteryForm.ValidateFields | front/src/components/battery/BatteryUpdateModal.js:61-64 | rejects exactly when a required field is undefined, null or ""; otherwise resolves with the value of every field that has a Form.Item |
| BatteryForm.FormattedValues | front/src/components/battery/BatteryUpdateModal.js:66-71 | a truthy due date becomes the dayjs text of its date (`YYYY-MM-DD`, or "Invalid Date"), an empty one null; empty folder name and remark become null; other fields pass through. A truthy due date that is not a dayjs object throws |
| BatteryForm.PayloadNormalised | front/src/components/battery/BatteryUpdateModal.js:66-71 | the folder name and remark in a payload are null or truthy, and the due date is null or text. A picked date parses back from that text to the same date, and a dayjs object with no date goes out as "Invalid Date" |
| BatteryForm.FormattedTwice | front/src/components/battery/BatteryCreateModal.js:28-33 | without a due date the normalisation is idempotent; with one, a second pass throws, because text has no `format` |
| BatteryForm.PickState | front/src/components/battery/BatteryUpdateModal.js:51-59 | picking state `=== false` stores it, writes 사무실 as the location and locks the inputs. Any other pick clears the location and unlocks them. No other field changes |
| BatteryForm.PickStateLastWins | front/src/components/battery/BatteryCreateModal.js:13-21 | after two picks the store and the lock are those of the last pick alone |
| BatteryUpdateModal.LoadedFields | front/src/components/battery/BatteryUpdateModal.js:18-21 | the record's fields, with its due date as a dayjs object, or null when it has none |
| BatteryUpdateModal.UpdateForm.constructor | front/src/components/battery/BatteryUpdateModal.js:11-14 | an empty form, unlocked |
| BatteryUpdateModal.UpdateForm.Disabled | front/src/components/battery/BatteryUpdateModal.js:92-141 | the serial number is always disabled; location, folder and due date exactly while locked; product, state and remark never |
| BatteryUpdateModal.UpdateForm.SelectItemChanged | front/src/components/battery/BatteryUpdateModal.js:16-31 | a selected record is merged into the form; the inputs lock exactly when its state is `== false`. No selection changes nothing |
| BatteryUpdateModal.UpdateForm.HandleStateChange | front/src/components/battery/BatteryUpdateModal.js:51-59 | the store and the lock become `PickState` of the old store |
| BatteryUpdateModal.UpdateForm.EditField | front/src/components/battery/BatteryUpdateModal.js:92-141 | an edit reaches the store unless its input is disabled: the serial number always, and location, folder and due date while locked |
| BatteryUpdateModal.UpdateForm.Submit | front/src/components/battery/BatteryUpdateModal.js:61-79 | `onOk` gets the validated, normalised values, and the form resets. On failure `onOk` is not called and the form is unchanged |
| BatteryUpdateModal.UpdateForm.Cancel | front/src/components/battery/BatteryUpdateModal.js:86-89 | the form is reset |
| BatteryForm.Submission | front/src/components/battery/BatteryUpdateModal.js:61-79 | a failed validation (a missing required field) gives no payload; a passed one gives exactly the payload built from the validated values, which fails only when that build throws. A payload's keys are exactly the form's fields |
| BatteryUpdateModal.MissingRequiredBlocks | front/src/components/battery/BatteryUpdateModal.js:96-117 | a missing product, state or location blocks the submission |
| BatteryUpdateModal.NotInUseSubmitsOffice | front/src/components/battery/BatteryUpdateModal.js:51-79 | after marking a battery with a product as not in use, it submits with location 사무실 and state false; product and serial number are unchanged |
| BatteryUpdateModal.InUseNeedsLocation | front/src/components/battery/BatteryUpdateModal.js:55-58 | after any other pick the location is cleared, so the submission stays blocked until one is picked |
| BatteryUpdateModal.LoadedDueDateRoundTrip | front/src/components/battery/BatteryUpdateModal.js:20-68 | a stored `YYYY-MM-DD` due date goes out again as the same text; unreadable text goes out as "Invalid Date" |
| BatteryCreateModal.CreateForm.constructor | front/src/components/battery/BatteryCreateModal.js:10-11 | an empty form, unlocked |
| BatteryCreateModal.CreateForm.Disabled | front/src/components/battery/BatteryCreateModal.js:58-94 | only location, folder and due date are ever disabled, exactly while locked |
| BatteryCreateModal.CreateForm.HandleStateChange | front/src/components/battery/BatteryCreateModal.js:13-21 | the store and the lock become `PickState` of the old store |
| BatteryCreateModal.CreateForm.EditField | front/src/components/battery/BatteryCreateModal.js:73-89 | an edit reaches the store unless the location, folder or due-date input is locked |
| BatteryCreateModal.CreateForm.Submit | front/src/components/battery/BatteryCreateModal.js:23-45 | the form resets before `onOk` gets the payload. On failure `onOk` is not called and the form is unchanged |
| BatteryCreateModal.CreateForm.Cancel | front/src/components/battery/BatteryCreateModal.js:52-55 | the form is reset before `onCancel` |
| BatteryCreateModal.PayloadShape | front/src/components/battery/BatteryCreateModal.js:13-73 | the payload never carries `location_name`; a missing product, state or location id blocks it |
| BatteryCreateModal.NotInUseStillNeedsLocation | front/src/components/battery/BatteryCreateModal.js:13-76 | marking a battery as not in use leaves `location_id` alone. Without one the submission stays blocked while the location input is locked |
| BatteryCreateModal.PickedLocationSubmits | front/src/components/battery/BatteryCreateModal.js:13-73 | with product, state and location id filled, the payload carries the picked location id, state and product |
| HwpController.StandardColumns | back/src/controller/HwpController.py:18-43 | three versions, each with a six-entry table; any other version has none |
| HwpController.VersionColumns | back/src/controller/HwpController.py:88 | `STANDARD_COLUMNS.get(version, {})` |
| HwpController.StandardColumnsWellFormed | back/src/controller/HwpController.py:18-43 | each table's headings are distinct, and so are its field names |
| HwpController.RenameRecord | back/src/controller/HwpController.py:89 | each output key is a field name whose heading the record has, mapped to that heading's value; every such field name is present |
| HwpController.RenameRecordWellFormed | back/src/controller/HwpController.py:89 | with distinct field names, each heading's value lands under its own field name |
| HwpController.RenamedKeys | back/src/controller/HwpController.py:88-89 | output keys are among the version's field names; an unknown version gives `{}` |
| HwpController.StandardRename | back/src/controller/HwpController.py:18-89 | for a known version each output key maps to `data[oldKey]`, for exactly the headings present |
| HwpController.Parsing | back/src/controller/HwpController.py:86-90 | one renamed record per serialized record, in order |
| HwpController.ExistingColumns | back/src/controller/HwpController.py:153 | the desired names present in the frame, in order, as a subsequence, each as many times as it is desired |
| HwpController.InverseMapping | back/src/controller/HwpController.py:156 | every field name is a key, and each key maps to the heading of a column with that name |
| HwpController.InverseMappingWellFormed | back/src/controller/HwpController.py:156 | with distinct field names, each name maps back to its own heading |
| HwpController.StandardInverse | back/src/controller/HwpController.py:156 | `mapping[STANDARD_COLUMNS[v][k]] == k` for every heading `k` of a known version |
| HwpController.Renamed | back/src/controller/HwpController.py:157 | renaming a list of names the mapping has replaces each, in place, by its image |
| HwpController.ColumnsIn | back/src/controller/HwpController.py:153 | the reference list: exactly the table's columns whose field the frame has, in table order (a subsequence of the table), each as many times as the table holds it |
| HwpController.DownloadColumns | back/src/controller/HwpController.py:152-157 | the frame's columns after the rename at line 157, before `transExcel`: `KeyError` (`None`) exactly for an unknown version; otherwise at most the table's columns |
| HwpController.DownloadColumnsAreHeadings | back/src/controller/HwpController.py:152-157 | the renamed frame's columns (before `transExcel`) are the headings of the version's columns whose field the rows have, in table order |
| HwpController.LocationHeadingExists | back/src/controller/HwpController.py:156-161 | every version maps `measurement_location` back; the headings are 구분, 측정위치 and 계측위치 |
| HwpController.AllLists | back/src/controller/HwpController.py:229 | `all(isinstance(item, list) ...)` holds exactly when every item is a list |
| HwpController.IsNestedList | back/src/controller/HwpController.py:227-231 | false for a non-list; for a list, true exactly when every item is a list |
| HwpController.NestedListExamples | back/src/controller/HwpController.py:227-231 | `[]` and lists of lists are nested; a list of numbers, one with a None, and a number are not |
| JsValue.LooseEqualsOnBooleans | front/src/components/asset/AssetTable.js:217 | `==` between booleans is `===` |
| JsValue.LooseEqualsExclusive | front/src/components/battery/BatteryUpdateModal.js:23 | no value is `==` both true and false, and null and undefined are neither |
| JsValue.LooseEqualsExamples | front/src/components/battery/BatteryUpdateModal.js:23 | `1`, `"1"`, `"01"` are `== true`; `0`, `""`, `"0"` are `== false`; none of them is `===` a boolean |
| JsValue.DayjsTextOfString | front/src/components/schedule/CustomCalendar.js:67-68 | a date string formats as its date part, an unreadable one as "Invalid Date", and null as "Invalid Date" |
| Dates.DayNumberOrder | front/src/components/asset/AssetTable.js:196 | day numbers are ordered like dates, and are equal only for equal dates |
| Dates.ParseFormat | front/src/components/battery/BatteryUpdateModal.js:68 | the `YYYY-MM-DD` text of a valid date parses back to that date |
| Dates.FormatOrder | front/src/components/schedule/CustomCalendar.js:69 | on date texts, string order is date order, and equal texts are equal dates |
| Dates.FormatLeDayNumber | front/src/components/schedule/CustomCalendar.js:69 | string `<=` on date texts is `<=` on day numbers |
| Dates.InvalidDateAfterEveryDate | front/src/components/schedule/CustomCalendar.js:69 | "Invalid Date" sorts after every date text |

## Left out

- Network requests (axios, the hard-coded URLs, FastAPI routing): each request's outcome is a parameter, and failures are `None` or a `false` flag.
- Notifications, `console` output, rendering, styles, badges and the filter and pagination widgets' own logic. The model covers only the data those widgets are given and the callbacks they call.
- The order in which asynchronous handlers interleave: each handler runs to completion in one call.
- Time zones and clock times. `new Date(text)` and `dayjs` are modelled on calendar days. The highlight's `setHours` bounds become "0 to 7 days after today".
- JavaScript numbers are integers here. `Number(s)` (JsValue.StringToNumber) knows only the empty string and decimal digit strings; any other string is NaN.
- dayjs parsing reads only `YYYY-MM-DD` (optionally followed by `T` or a space and more text), with years 0–9999. Any other input is an invalid date. This departs from dayjs in three ways. dayjs also reads other forms (`2024/1/5`, `20240105`). It builds the date with `new Date(y, m, d)`, which maps years 0–99 to 1900–1999. And it rejects a `T` or space followed by text that is no time of day, which the model accepts.
- Dates.Parse: a `YYYY-MM-DD` text naming a day that does not exist (`2024-02-30`, month 13) is an invalid date here, whereas dayjs rolls it over (to `2024-03-01`). Such a stored due date or schedule date therefore becomes "Invalid Date" in the model (in the calendar's cell test and in `LoadedDueDateRoundTrip`) where the running page would show the rolled-over day.
- Dates.StrLt: JavaScript compares strings by UTF-16 code unit; the model compares Dafny characters, which are Unicode code points. The two orders agree except between characters above U+FFFF and those in U+E000–U+FFFF, which no date text contains.
- AssetTable.Substring: JavaScript `substring` counts UTF-16 code units; the model counts Dafny characters (code points). The two agree on text without characters above U+FFFF, such as date texts.
- The asset table's paging state: the `<Table>` (lines 334-342 of `AssetTable.js`) is given all of `data`, with no `pagination` and no `onChange`. So `currentData` is computed and never rendered, `handleTableChange` is never called, and the page the Table shows is Ant Design's own. `Table.CurrentData`, `HandleTableChange` and the page clamp in `HandleDelete` model the component's state, not the rows on screen.
- JsValue.LooseEqualsBool: a dayjs object is treated as never `==` a boolean. JavaScript would compare its millisecond timestamp with 0 or 1.
- AssetTable.Substring: `substring` with `start > end` (which swaps the ends) is not modelled, because the component only calls it with `start <= end`.
- AssetTable.Table.HandleTableChange: requires page and size from 1 on, as the pagination reports them.
- `visibleItems`, `deleteSuccess` and the notification API hook in `AssetTable.js`: they are state the component never reads or never changes.
- The product and location lookup fetches of the edit dialog: they fill only the drop-down options.
- `form.setFieldValue({...})` on line 25 of `BatteryUpdateModal.js` is modelled as writing nothing, as it does when given an object instead of a field name.
- `HwpController.py`:
  - the upload, the temporary files, `hwp2xml`, tag search and serialisation: the serialized records are the input of `Parsing`;
  - the database mapper calls;
  - `getHwpDataList` and `getLocatons`;
  - `getStatisticsData` and the Excel writing (pandas/openpyxl work on floats and data frames);
  - `transExcel` (lines 178-205), which reshapes the renamed frame before it is written. For 간단이 it inserts six minimum/maximum columns and drops 진동속도(cm/s), 진동레벨[dB(V)] and 소음[dB(A)]; for the other versions it overwrites the three reading columns. So the workbook's columns are not the renamed headings the model computes;
  - `parseFloat` and `transLiteral` (float conversion and `ast.literal_eval`);
  - the pandas `df[existing_columns]` and `rename` steps: they are modelled on the list of column names only.
- `CustomException.py` and `BrandVO.py` are not part of this model: they are exception classes and an ORM declaration without logic.
