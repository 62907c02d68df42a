/** The asset list of `AssetTable.js`: the list fetched from the backend, the page the user is
    on, the column filters and the modals that change the list. Every change goes to the backend,
    the whole list is then fetched again and replaces the local copy; a request that fails leaves
    everything as it was. The backend is not modelled: each handler receives the outcome of each
    request it may send (`None`/`false` for a request that throws) and returns the requests it
    sent, in order. */
module AssetTable {
  import opened Wrappers
  import opened Dates
  import opened JsValue

  /** The requests the table sends, without their URLs. */
  datatype Request =
    | ListAssets
    | ListBrands
    | ListLocations
    | PutAsset(body: Object)
    | DeleteAsset(id: Value)
    | PostAsset(body: Object)

  /** An entry of a column's filter menu. */
  datatype FilterOption = FilterOption(text: Value, value: Value)

  function Min(a: int, b: int): int { if a <= b then a else b }
  function Max(a: int, b: int): int { if a <= b then b else a }

  // ---------------------------------------------------------------- the page window

  /** How `Array.prototype.slice` reads an index: a negative one counts from the end, and the
      result is clamped to `[0, len]`. */
  function SliceIndex(k: int, len: nat): (r: nat)
    ensures r <= len
    ensures 0 <= k <= len ==> r == k
    ensures k > len ==> r == len
    ensures k < 0 ==> r == Max(len + k, 0)
  {
    if k < 0 then (if len + k < 0 then 0 else len + k)
    else if k > len then len
    else k
  }

  /** `s.slice(start, end)`. */
  function Slice<T>(s: seq<T>, start: int, end: int): (r: seq<T>)
    ensures |r| <= |s|
    ensures SliceIndex(start, |s|) < SliceIndex(end, |s|) ==> r == s[SliceIndex(start, |s|)..SliceIndex(end, |s|)]
    ensures SliceIndex(start, |s|) >= SliceIndex(end, |s|) ==> r == []
  {
    var from, to := SliceIndex(start, |s|), SliceIndex(end, |s|);
    if from < to then s[from..to] else []
  }

  /** `data.slice((currentPage - 1) * pageSize, currentPage * pageSize)`: on a page from 1 on,
      the page's stretch of the list, cut off at its end. */
  function Window<T>(data: seq<T>, page: int, pageSize: int): (r: seq<T>)
    ensures |r| <= |data|
    ensures page >= 1 && pageSize >= 1 ==>
              var lo, hi := (page - 1) * pageSize, page * pageSize;
              0 <= lo < hi && r == (if lo < |data| then data[lo..Min(hi, |data|)] else [])
  {
    assert page >= 1 && pageSize >= 1 ==> 0 <= (page - 1) * pageSize < page * pageSize by {
      if page >= 1 && pageSize >= 1 {
        assert page * pageSize == (page - 1) * pageSize + pageSize;
        assert (page - 1) * pageSize >= 0;
      }
    }
    Slice(data, (page - 1) * pageSize, page * pageSize)
  }

  /** A page from 1 on holds a full page, or what is left of the list after the earlier pages. */
  lemma WindowContents<T>(data: seq<T>, page: int, pageSize: int)
    requires page >= 1 && pageSize >= 1
    ensures |Window(data, page, pageSize)| == Min(pageSize, Max(0, |data| - (page - 1) * pageSize))
  {
    var lo, hi := (page - 1) * pageSize, page * pageSize;
    assert hi == lo + pageSize;
  }

  /** Page 0 (what deleting the last asset leaves) shows nothing, whatever the list holds:
      `slice(-pageSize, 0)` ends at index 0. */
  lemma WindowOfPageZero<T>(data: seq<T>, pageSize: int)
    requires pageSize >= 1
    ensures Window(data, 0, pageSize) == []
  {
  }

  /** Every asset is shown on exactly the page its index falls on, at its offset in the page. */
  lemma WindowPartition<T>(data: seq<T>, pageSize: int, i: int)
    requires pageSize >= 1 && 0 <= i < |data|
    ensures var page := i / pageSize + 1;
            i % pageSize < |Window(data, page, pageSize)| && Window(data, page, pageSize)[i % pageSize] == data[i]
    ensures forall p, j :: p >= 1 && 0 <= j < |Window(data, p, pageSize)| ==>
              Window(data, p, pageSize)[j] == data[(p - 1) * pageSize + j]
  {
    var page := i / pageSize + 1;
    var lo, hi := (page - 1) * pageSize, page * pageSize;
    assert lo == (i / pageSize) * pageSize;
    assert i == lo + i % pageSize;
    assert hi == lo + pageSize;
    var w := Window(data, page, pageSize);
    assert w == data[lo..Min(hi, |data|)];
    assert i < Min(hi, |data|);
  }

  // ---------------------------------------------------------------- page clamping on delete

  /** `Math.ceil(n / pageSize)`. */
  function TotalPages(n: nat, pageSize: int): (r: nat)
    requires pageSize >= 1
    ensures n == 0 <==> r == 0
    ensures n > 0 ==> (r - 1) * pageSize < n <= r * pageSize
  {
    var r := (n + pageSize - 1) / pageSize;
    var q := (n + pageSize - 1) % pageSize;
    assert r * pageSize + q == n + pageSize - 1;
    assert (r - 1) * pageSize == r * pageSize - pageSize;
    assert r >= 1 ==> r * pageSize >= pageSize by {
      if r >= 1 {
        assert (r - 1) * pageSize >= 0;
      }
    }
    r
  }

  /** `handleDelete`'s page: past the last page, move to the last page (0 for an empty list). */
  function ClampPage(page: int, n: nat, pageSize: int): (r: int)
    requires pageSize >= 1
    ensures r <= page
    ensures r == page || r == TotalPages(n, pageSize)
    ensures page >= 0 ==> r >= 0
    ensures page > TotalPages(n, pageSize) ==> r == TotalPages(n, pageSize)
    ensures page <= TotalPages(n, pageSize) ==> r == page
  {
    var totalPages := TotalPages(n, pageSize);
    if page > totalPages then totalPages else page
  }

  lemma MulMonotone(a: int, b: int, c: nat)
    requires a <= b
    ensures a * c <= b * c
  {
    assert b * c - a * c == (b - a) * c;
  }

  /** After a delete, the page a user was on (page 1 or later) still shows something as long as
      the list is not empty; an emptied list leaves page 0. */
  lemma ClampedWindow<T>(data: seq<T>, page: int, pageSize: int)
    requires pageSize >= 1 && page >= 0
    ensures |data| > 0 && page >= 1 ==> Window(data, ClampPage(page, |data|, pageSize), pageSize) != []
    ensures |data| == 0 ==> ClampPage(page, |data|, pageSize) == 0
    ensures page > TotalPages(|data|, pageSize) ==> ClampPage(page, |data|, pageSize) == TotalPages(|data|, pageSize)
    ensures 0 <= page <= TotalPages(|data|, pageSize) ==> ClampPage(page, |data|, pageSize) == page
  {
    var n, t := |data|, TotalPages(|data|, pageSize);
    var r := ClampPage(page, n, pageSize);
    if n > 0 && page >= 1 {
      assert 1 <= r <= t;
      MulMonotone(r - 1, t - 1, pageSize);
      WindowContents(data, r, pageSize);
    }
  }

  /** The scenario of twelve assets on pages of ten, viewed on page 2: deleting one leaves
      eleven, two pages, so the page stays 2 and shows the eleventh asset alone. */
  lemma DeleteOnSecondPage<T>(after: seq<T>)
    requires |after| == 11
    ensures ClampPage(2, |after|, 10) == 2
    ensures Window(after, ClampPage(2, |after|, 10), 10) == [after[10]]
  {
    WindowContents(after, 2, 10);
  }

  // ---------------------------------------------------------------- column filters

  /** The brand and location menus: one entry per lookup record, in order, showing and selecting
      the record's `key` field. */
  function FilterOptions(lookups: seq<Object>, key: string): (r: seq<FilterOption>)
    ensures |r| == |lookups|
    ensures forall i :: 0 <= i < |r| ==> r[i].text == r[i].value == Get(lookups[i], key)
  {
    if lookups == [] then []
    else [FilterOption(Get(lookups[0], key), Get(lookups[0], key))] + FilterOptions(lookups[1..], key)
  }

  /** The fixed menus of the two yes/no columns. */
  const StateFilters: seq<FilterOption> := [FilterOption(Str("사용"), Bool(true)), FilterOption(Str("미사용"), Bool(false))]
  const RentFilters: seq<FilterOption> := [FilterOption(Str("임대"), Bool(true)), FilterOption(Str("비임대"), Bool(false))]

  /** The `onFilter` of the two yes/no columns, `record[field] == value` (loose equality): on
      a boolean field it is plain equality, and an asset whose field is `null` or missing passes
      no entry. */
  predicate YesNoFilter(field: string, value: bool, record: Object)
    ensures Get(record, field).Bool? ==> (YesNoFilter(field, value, record) <==> Get(record, field) == Bool(value))
    ensures Get(record, field) in {Null, Undefined} ==> !YesNoFilter(field, value, record)
  {
    LooseEqualsBool(Get(record, field), value)
  }

  /** The `onFilter` of the brand and location columns, `record[field] === value`: the asset's
      field must be that very value, and a date object, which is only ever strictly equal to
      itself by identity, matches nothing. */
  predicate LookupFilter(field: string, value: Value, record: Object)
    ensures LookupFilter(field, value, record) ==> Get(record, field) == value && !value.Day?
    ensures Get(record, field) == value && !value.Day? ==> LookupFilter(field, value, record)
  {
    StrictEquals(Get(record, field), value)
  }

  /** The yes/no menus offer exactly the two booleans, "yes" first, and an asset whose field is
      a boolean passes exactly one of their entries. */
  lemma YesNoMenus(record: Object)
    ensures |StateFilters| == 2 && StateFilters[0].value == Bool(true) && StateFilters[1].value == Bool(false)
    ensures |RentFilters| == 2 && RentFilters[0].value == Bool(true) && RentFilters[1].value == Bool(false)
    ensures Get(record, "state").Bool? ==>
              (YesNoFilter("state", StateFilters[0].value.b, record) <==> !YesNoFilter("state", StateFilters[1].value.b, record))
    ensures Get(record, "rent_state").Bool? ==>
              (YesNoFilter("rent_state", RentFilters[0].value.b, record) <==> !YesNoFilter("rent_state", RentFilters[1].value.b, record))
  {
  }

  /** Picking the i-th entry of the brand (`key` = "brand_name") or location
      (`key` = "location_name") menu keeps exactly the assets whose field is that lookup
      record's name, compared strictly. */
  lemma {:induction false} LookupOptionSelects(lookups: seq<Object>, key: string, i: int, record: Object)
    requires 0 <= i < |lookups|
    ensures LookupFilter(key, FilterOptions(lookups, key)[i].value, record)
            <==> StrictEquals(Get(record, key), Get(lookups[i], key))
  {
  }

  /** The yes/no menus split the assets whose `state` or `rent_state` is a boolean: each such
      asset passes exactly one entry. An asset whose field is `null` or missing passes neither;
      one whose field is 1 or "1" passes the "yes" entry, by loose equality. */
  lemma YesNoFilters(field: string, record: Object)
    ensures !(YesNoFilter(field, true, record) && YesNoFilter(field, false, record))
    ensures Get(record, field).Bool? ==>
              && (YesNoFilter(field, true, record) <==> Get(record, field) == Bool(true))
              && (YesNoFilter(field, false, record) <==> Get(record, field) == Bool(false))
    ensures Get(record, field) in {Null, Undefined} ==> !YesNoFilter(field, true, record) && !YesNoFilter(field, false, record)
    ensures Get(record, field) in {Num(1), Str("1")} ==> YesNoFilter(field, true, record)
  {
    LooseEqualsExclusive(Get(record, field));
    LooseEqualsExamples();
  }

  // ---------------------------------------------------------------- dates in the table

  /** `s.substring(start, end)` with `start <= end`: both ends are clamped to the length. */
  function Substring(s: string, start: nat, end: nat): (r: string)
    requires start <= end
    ensures end <= |s| ==> r == s[start..end]
    ensures start < |s| < end ==> r == s[start..]
    ensures start >= |s| ==> r == ""
  {
    s[Min(start, |s|)..Min(end, |s|)]
  }

  /** `formatDate`: an empty date shows as the empty string; otherwise characters 2-4, 5-7 and
      8-10 become "YY년 MM월 DD일". A truthy value that is not a string has no `substring`,
      and the call throws (`None`). */
  function FormatDate(dateString: Value): (r: Option<string>)
    ensures !Truthy(dateString) ==> r == Some("")
    ensures dateString.Str? ==> r.Some?
    ensures Truthy(dateString) && !dateString.Str? ==> r.None?
    ensures dateString.Str? && dateString.s != "" ==>
              r == Some(Substring(dateString.s, 2, 4) + "년 " + Substring(dateString.s, 5, 7) + "월 "
                        + Substring(dateString.s, 8, 10) + "일")
    ensures dateString.Str? && |dateString.s| >= 10 ==>
              r == Some(dateString.s[2..4] + "년 " + dateString.s[5..7] + "월 " + dateString.s[8..10] + "일")
  {
    if !Truthy(dateString) then Some("")
    else if dateString.Str? then
      var s := dateString.s;
      Some(Substring(s, 2, 4) + "년 " + Substring(s, 5, 7) + "월 " + Substring(s, 8, 10) + "일")
    else None
  }

  lemma DigitsLastTwo(n: nat)
    ensures Digits(n, 4)[2..] == Digits(n % 100, 2)
  {
    assert Digits(n, 4) == Digits(n / 100, 2) + [DigitChar(n / 10 % 10)] + [DigitChar(n % 10)];
    assert (n % 100) / 10 == n / 10 % 10 && (n % 100) % 10 == n % 10;
  }

  /** The text of a date becomes its last two year digits, its month and its day. */
  lemma FormatDateOfDate(d: Date)
    ensures FormatDate(Str(Format(d)))
            == Some(Digits(d.year % 100, 2) + "년 " + Digits(d.month, 2) + "월 " + Digits(d.day, 2) + "일")
  {
    var s := Format(d);
    assert s[2..4] == Digits(d.year, 4)[2..];
    DigitsLastTwo(d.year);
    assert s[5..7] == Digits(d.month, 2);
    assert s[8..10] == Digits(d.day, 2);
    assert s != "";
  }

  /** A text shorter than a date gives empty pieces rather than an error. */
  lemma FormatDateOfShortText()
    ensures FormatDate(Str("2024")) == Some("24년 월 일")
  {
    assert Substring("2024", 2, 4) == "24";
    assert Substring("2024", 5, 7) == "" && Substring("2024", 8, 10) == "";
    assert "24" + "년 " + "" + "월 " + "" + "일" == "24년 월 일";
  }

  /** `isDateWithinNextSevenDays`: the empty string for an empty date (falsy, so not
      highlighted); otherwise whether the date falls between today and seven days from today,
      both included, at day granularity. A text that is not a date makes an invalid `Date`,
      which is in no period. */
  function IsDateWithinNextSevenDays(dateString: Value, today: Date): (r: Value)
    requires ValidDate(today)
    ensures !Truthy(dateString) ==> r == Str("")
    ensures Truthy(dateString) ==> r.Bool?
    ensures Truthy(r) ==> Truthy(dateString) && DateOf(dateString).Some?
    ensures Truthy(dateString) ==>
              (Truthy(r) <==> DateOf(dateString).Some? && ValidDate(DateOf(dateString).value)
                              && 0 <= DayNumber(DateOf(dateString).value) - DayNumber(today) <= 7)
  {
    if !Truthy(dateString) then Str("")
    else
      var d := DateOf(dateString);
      Bool(d.Some? && ValidDate(d.value) && DayNumber(today) <= DayNumber(d.value) <= DayNumber(today) + 7)
  }

  /** For the text of a date, the highlight holds exactly when the date is 0 to 7 days after
      today; an absent date is never highlighted. */
  lemma HighlightOfDate(d: Date, today: Date)
    requires ValidDate(d) && ValidDate(today)
    ensures Truthy(IsDateWithinNextSevenDays(Str(Format(d)), today))
            <==> 0 <= DayNumber(d) - DayNumber(today) <= 7
    ensures !Truthy(IsDateWithinNextSevenDays(Null, today))
    ensures !Truthy(IsDateWithinNextSevenDays(Undefined, today))
    ensures !Truthy(IsDateWithinNextSevenDays(Str(""), today))
  {
    ParseFormat(d);
  }

  /** With today on June 25 of any year (2024 say), July 2 is highlighted and July 3 is not. */
  lemma HighlightWeekAhead(y: nat)
    requires y <= 9999
    ensures Truthy(IsDateWithinNextSevenDays(Str(Format(Date(y, 7, 2))), Date(y, 6, 25)))
    ensures !Truthy(IsDateWithinNextSevenDays(Str(Format(Date(y, 7, 3))), Date(y, 6, 25)))
  {
    HighlightOfDate(Date(y, 7, 2), Date(y, 6, 25));
    HighlightOfDate(Date(y, 7, 3), Date(y, 6, 25));
  }

  // ---------------------------------------------------------------- the component's state

  class Table {
    var data: seq<Object>
    var currentPage: int
    var pageSize: int
    var brandFilters: Option<seq<FilterOption>>
    var locationFilters: Option<seq<FilterOption>>
    var selectedItem: Option<Object>
    var isModalVisible: bool
    var isReadModalVisible: bool
    var isCreateModalVisible: bool

    /** The pagination always has a positive page size; pages start at 1 and only a delete that
        empties the list brings the page down to 0. */
    ghost predicate Valid()
      reads this
    {
      pageSize >= 1 && currentPage >= 0
    }

    constructor ()
      ensures Valid()
      ensures data == [] && currentPage == 1 && pageSize == 10
      ensures brandFilters == None && locationFilters == None && selectedItem == None
      ensures !isModalVisible && !isReadModalVisible && !isCreateModalVisible
    {
      data, currentPage, pageSize := [], 1, 10;
      brandFilters, locationFilters, selectedItem := None, None, None;
      isModalVisible, isReadModalVisible, isCreateModalVisible := false, false, false;
    }

    /** `currentData`: the assets of the current page. */
    function CurrentData(): (r: seq<Object>)
      reads this
      requires Valid()
      ensures currentPage == 0 ==> r == []
      ensures currentPage >= 1 ==>
                var lo, hi := (currentPage - 1) * pageSize, currentPage * pageSize;
                0 <= lo < hi && r == (if lo < |data| then data[lo..Min(hi, |data|)] else [])
    {
      var r := Window(data, currentPage, pageSize);
      if currentPage >= 1 then
        WindowContents(data, currentPage, pageSize);
        r
      else r
    }

    /** The effect run on mount: fetch the assets, then the brands, then the locations; only when
        all three arrive are the list and both filter menus replaced. */
    method FetchData(assets: Option<seq<Object>>, brands: Option<seq<Object>>, locations: Option<seq<Object>>)
      returns (sent: seq<Request>)
      requires Valid()
      modifies this
      ensures Valid()
      ensures sent == [ListAssets] + (if assets.None? then [] else [ListBrands] + (if brands.None? then [] else [ListLocations]))
      ensures if assets.Some? && brands.Some? && locations.Some? then
                data == assets.value
                && brandFilters == Some(FilterOptions(brands.value, "brand_name"))
                && locationFilters == Some(FilterOptions(locations.value, "location_name"))
              else
                data == old(data) && brandFilters == old(brandFilters) && locationFilters == old(locationFilters)
      ensures currentPage == old(currentPage) && pageSize == old(pageSize) && selectedItem == old(selectedItem)
      ensures isModalVisible == old(isModalVisible) && isReadModalVisible == old(isReadModalVisible)
      ensures isCreateModalVisible == old(isCreateModalVisible)
    {
      sent := [ListAssets];
      if assets.None? { return; }
      sent := sent + [ListBrands];
      if brands.None? { return; }
      sent := sent + [ListLocations];
      if locations.None? { return; }
      brandFilters := Some(FilterOptions(brands.value, "brand_name"));
      locationFilters := Some(FilterOptions(locations.value, "location_name"));
      data := assets.value;
    }

    /** `showModal`: select a record and open the edit modal. */
    method ShowModal(record: Object)
      modifies this`selectedItem, this`isModalVisible
      ensures selectedItem == Some(record) && isModalVisible
    {
      selectedItem, isModalVisible := Some(record), true;
    }

    /** `showReadModal`: select a record and open the read-only modal. */
    method ShowReadModal(record: Object)
      modifies this`selectedItem, this`isReadModalVisible
      ensures selectedItem == Some(record) && isReadModalVisible
    {
      selectedItem, isReadModalVisible := Some(record), true;
    }

    method ShowCreateModal()
      modifies this`isCreateModalVisible
      ensures isCreateModalVisible
    {
      isCreateModalVisible := true;
    }

    method HandleCancel()
      modifies this`isModalVisible
      ensures !isModalVisible
    {
      isModalVisible := false;
    }

    method HandleReadModalCancel()
      modifies this`isReadModalVisible
      ensures !isReadModalVisible
    {
      isReadModalVisible := false;
    }

    method HandleCreateModalCancel()
      modifies this`isCreateModalVisible
      ensures !isCreateModalVisible
    {
      isCreateModalVisible := false;
    }

    /** `handleTableChange`: the pagination reports the page and page size the user chose. */
    method HandleTableChange(current: int, size: int)
      requires Valid() && current >= 1 && size >= 1
      modifies this`currentPage, this`pageSize
      ensures Valid()
      ensures currentPage == current && pageSize == size
    {
      currentPage, pageSize := current, size;
    }

    /** `handleOk`: validate the edit form, send the edited values, fetch the list again; only
        then replace the list and close the edit modal. `validated` is the outcome of
        `form.validateFields()`, `putOk` of the update request, `listed` of the fetch. */
    method HandleOk(values: Object, validated: bool, putOk: bool, listed: Option<seq<Object>>)
      returns (sent: seq<Request>)
      requires Valid()
      modifies this`data, this`isModalVisible
      ensures Valid()
      ensures sent == if !validated then [] else [PutAsset(values)] + (if putOk then [ListAssets] else [])
      ensures if validated && putOk && listed.Some? then data == listed.value && !isModalVisible
              else data == old(data) && isModalVisible == old(isModalVisible)
    {
      sent := [];
      if !validated { return; }
      sent := sent + [PutAsset(values)];
      if !putOk { return; }
      sent := sent + [ListAssets];
      if listed.None? { return; }
      data := listed.value;
      isModalVisible := false;
    }

    /** `handleDelete`: delete the asset, fetch the list again, move back to the last page when
        the current one is now past it, and replace the list. */
    method HandleDelete(id: Value, deleteOk: bool, listed: Option<seq<Object>>)
      returns (sent: seq<Request>)
      requires Valid()
      modifies this`data, this`currentPage
      ensures Valid()
      ensures sent == [DeleteAsset(id)] + (if deleteOk then [ListAssets] else [])
      ensures if deleteOk && listed.Some? then
                data == listed.value && currentPage == ClampPage(old(currentPage), |listed.value|, pageSize)
              else
                data == old(data) && currentPage == old(currentPage)
      ensures deleteOk && listed.Some? && |listed.value| > 0 && old(currentPage) >= 1 ==> CurrentData() != []
    {
      sent := [DeleteAsset(id)];
      if !deleteOk { return; }
      sent := sent + [ListAssets];
      if listed.None? { return; }
      var updatedData := listed.value;
      var totalPages := TotalPages(|updatedData|, pageSize);
      if currentPage > totalPages {
        currentPage := totalPages;
      }
      data := updatedData;
      ClampedWindow(data, old(currentPage), pageSize);
    }

    /** `handleCreate`: send the new asset, fetch the list again; only then replace the list and
        close the create modal. */
    method HandleCreate(item: Object, postOk: bool, listed: Option<seq<Object>>)
      returns (sent: seq<Request>)
      requires Valid()
      modifies this`data, this`isCreateModalVisible
      ensures Valid()
      ensures sent == [PostAsset(item)] + (if postOk then [ListAssets] else [])
      ensures if postOk && listed.Some? then data == listed.value && !isCreateModalVisible
              else data == old(data) && isCreateModalVisible == old(isCreateModalVisible)
    {
      sent := [PostAsset(item)];
      if !postOk { return; }
      sent := sent + [ListAssets];
      if listed.None? { return; }
      data := listed.value;
      isCreateModalVisible := false;
    }
  }
}
