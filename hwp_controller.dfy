/** The column bookkeeping of the HWP measurement-report controller: each report layout
    ("version") has a table from the Korean column heading printed in the report to the
    database field it fills. Parsing renames every extracted record through that table;
    the spreadsheet download keeps the fields the stored rows have, in the table's order,
    and renames them back to their headings (the frame's columns after the rename, before
    `transExcel` reshapes them for the workbook). */
module HwpController {
  import opened Wrappers
  import opened Sequences

  /** One entry of a version's table: the report's `heading` and the database field `name`. */
  datatype Column = Column(heading: string, name: string)

  /** An extracted or stored record: field values keyed by column. */
  type Record<V> = map<string, V>

  function Headings(table: seq<Column>): (r: seq<string>)
    ensures |r| == |table| && forall i :: 0 <= i < |table| ==> r[i] == table[i].heading
  {
    if table == [] then [] else [table[0].heading] + Headings(table[1..])
  }

  /** `table.values()`, in the table's order. */
  function Names(table: seq<Column>): (r: seq<string>)
    ensures |r| == |table| && forall i :: 0 <= i < |table| ==> r[i] == table[i].name
  {
    if table == [] then [] else [table[0].name] + Names(table[1..])
  }

  /** A table is a Python dict (distinct headings) whose values are distinct as well. */
  predicate WellFormed(table: seq<Column>) {
    Distinct(Headings(table)) && Distinct(Names(table))
  }

  const Simple: seq<Column> := [
    Column("일시", "measurement_date"),
    Column("구분", "measurement_location"),
    Column("진동속도(cm/s)", "wave_speed"),
    Column("진동레벨[dB(V)]", "wave_level"),
    Column("소음[dB(A)]", "noise"),
    Column("비고", "marks")
  ]

  const Detailed: seq<Column> := [
    Column("일시", "measurement_date"),
    Column("시간", "measurement_time"),
    Column("발파진동(cm/s)", "wave_speed"),
    Column("진동레벨dB(V)", "wave_level"),
    Column("소음레벨dB(A)", "noise"),
    Column("측정위치", "measurement_location")
  ]

  const Mixed: seq<Column> := [
    Column("일자", "measurement_date"),
    Column("계측위치", "measurement_location"),
    Column("발파시간", "measurement_time"),
    Column("진동속도(cm/s)", "wave_speed"),
    Column("진동레벨(dB(V))", "wave_level"),
    Column("소음레벨(dB(A))", "noise")
  ]

  /** `STANDARD_COLUMNS[version]`; `None` for a version it has no entry for. */
  function StandardColumns(version: string): (r: Option<seq<Column>>)
    ensures r.Some? <==> version in {"간단이", "복잡이", "어중이떠중이"}
    ensures r.Some? ==> |r.value| == 6
  {
    if version == "간단이" then Some(Simple)
    else if version == "복잡이" then Some(Detailed)
    else if version == "어중이떠중이" then Some(Mixed)
    else None
  }

  /** `STANDARD_COLUMNS.get(version, {})`. */
  function VersionColumns(version: string): (r: seq<Column>)
    ensures StandardColumns(version).Some? ==> r == StandardColumns(version).value
    ensures StandardColumns(version).None? ==> r == []
  {
    StandardColumns(version).GetOr([])
  }

  /** Six pairwise different values are distinct. */
  lemma DistinctSix<T>(a: T, b: T, c: T, d: T, e: T, f: T)
    requires a != b && a != c && a != d && a != e && a != f
    requires b != c && b != d && b != e && b != f
    requires c != d && c != e && c != f
    requires d != e && d != f
    requires e != f
    ensures Distinct([a, b, c, d, e, f])
  {
  }

  /** Both sides of a six-column table, spelled out. */
  lemma SixColumns(t: seq<Column>)
    requires |t| == 6
    ensures Headings(t) == [t[0].heading, t[1].heading, t[2].heading, t[3].heading, t[4].heading, t[5].heading]
    ensures Names(t) == [t[0].name, t[1].name, t[2].name, t[3].name, t[4].name, t[5].name]
  {
  }

  /** Every version's table is a dict with distinct values, so it can be inverted. */
  lemma StandardColumnsWellFormed(version: string)
    requires StandardColumns(version).Some?
    ensures WellFormed(StandardColumns(version).value)
  {
    var t := StandardColumns(version).value;
    SixColumns(t);
    DistinctSix(t[0].heading, t[1].heading, t[2].heading, t[3].heading, t[4].heading, t[5].heading);
    DistinctSix(t[0].name, t[1].name, t[2].name, t[3].name, t[4].name, t[5].name);
  }

  // ---------------------------------------------------------------- parsing

  /** `{newKey: data[oldKey] for oldKey, newKey in table.items() if oldKey in data}`: a later
      entry with the same new key overwrites an earlier one. */
  function RenameRecord<V>(table: seq<Column>, data: Record<V>): (r: Record<V>)
    ensures forall k :: k in r ==>
      exists i :: 0 <= i < |table| && table[i].name == k && table[i].heading in data && r[k] == data[table[i].heading]
    ensures forall i :: 0 <= i < |table| && table[i].heading in data ==> table[i].name in r
    decreases |table|
  {
    if table == [] then map[]
    else
      var last := table[|table| - 1];
      var rest := RenameRecord(table[..|table| - 1], data);
      if last.heading in data then rest[last.name := data[last.heading]] else rest
  }

  /** With distinct field names no entry is overwritten: every heading the record has lands
      under its field name with its value, and no other key appears. */
  lemma {:induction false} RenameRecordWellFormed<V>(table: seq<Column>, data: Record<V>)
    requires Distinct(Names(table))
    ensures var r := RenameRecord(table, data);
            forall i :: 0 <= i < |table| && table[i].heading in data ==> r[table[i].name] == data[table[i].heading]
    decreases |table|
  {
    if table != [] {
      var n := |table| - 1;
      var init := table[..n];
      assert Names(init) == Names(table)[..n];
      RenameRecordWellFormed(init, data);
      var r, rest := RenameRecord(table, data), RenameRecord(init, data);
      forall i | 0 <= i < |table| && table[i].heading in data
        ensures r[table[i].name] == data[table[i].heading]
      {
        if i < n {
          assert Names(table)[i] != Names(table)[n];
          assert r[table[i].name] == rest[table[i].name];
        }
      }
    }
  }

  /** Renaming touches only the version's field names; a version without a table renames every
      record to `{}`. */
  lemma RenamedKeys<V>(version: string, data: Record<V>)
    ensures RenameRecord(VersionColumns(version), data).Keys <= set c | c in VersionColumns(version) :: c.name
    ensures StandardColumns(version).None? ==> RenameRecord(VersionColumns(version), data) == map[]
  {
    var t := VersionColumns(version);
    var r := RenameRecord(t, data);
    forall k | k in r ensures k in set c | c in t :: c.name {
      var i :| 0 <= i < |t| && t[i].name == k && t[i].heading in data && r[k] == data[t[i].heading];
      assert t[i] in t;
    }
  }

  /** For a known version each renamed record holds, under every field name, the value the
      extracted record had under that field's heading, and nothing else. */
  lemma StandardRename<V>(version: string, data: Record<V>)
    requires StandardColumns(version).Some?
    ensures var t, r := StandardColumns(version).value, RenameRecord(StandardColumns(version).value, data);
            && (forall i :: 0 <= i < |t| && t[i].heading in data ==> t[i].name in r && r[t[i].name] == data[t[i].heading])
            && r.Keys <= set c | c in t :: c.name
  {
    StandardColumnsWellFormed(version);
    RenameRecordWellFormed(StandardColumns(version).value, data);
    RenamedKeys(version, data);
  }

  /** The loop closing `parsing` (lines 86-90): one renamed record per serialized record, in
      order. */
  method Parsing<V>(version: string, serialized: seq<Record<V>>) returns (result: seq<Record<V>>)
    ensures |result| == |serialized|
    ensures forall i :: 0 <= i < |serialized| ==> result[i] == RenameRecord(VersionColumns(version), serialized[i])
  {
    result := [];
    var k := 0;
    while k < |serialized|
      invariant 0 <= k <= |serialized|
      invariant |result| == k
      invariant forall i :: 0 <= i < k ==> result[i] == RenameRecord(VersionColumns(version), serialized[i])
    {
      var versionColumn := VersionColumns(version);
      var transformed := RenameRecord(versionColumn, serialized[k]);
      result := result + [transformed];
      k := k + 1;
    }
  }

  // ---------------------------------------------------------------- download

  /** `existing_columns`: the desired field names the stored rows have, in their order. */
  function ExistingColumns(desired: seq<string>, frame: set<string>): (r: seq<string>)
    ensures |r| <= |desired|
    ensures IsSubsequence(r, desired)
    ensures forall i :: 0 <= i < |r| ==> r[i] in frame && r[i] in desired
    ensures forall i :: 0 <= i < |desired| && desired[i] in frame ==> desired[i] in r
    ensures Distinct(desired) ==> Distinct(r)
    ensures multiset(r) <= multiset(desired)
    ensures forall c :: c in desired && c in frame ==> multiset(r)[c] == multiset(desired)[c]
  {
    Filter(desired, c => c in frame)
  }

  /** The list comprehension looks at one name at a time. */
  lemma ExistingColumnsCons(name: string, rest: seq<string>, frame: set<string>)
    ensures ExistingColumns([name] + rest, frame)
            == (if name in frame then [name] else []) + ExistingColumns(rest, frame)
  {
    assert ([name] + rest)[1..] == rest;
  }

  /** `{v: k for k, v in table.items()}`: a later entry with the same value overwrites an
      earlier one. */
  function InverseMapping(table: seq<Column>): (r: map<string, string>)
    ensures forall i :: 0 <= i < |table| ==> table[i].name in r
    ensures forall k :: k in r ==> exists i :: 0 <= i < |table| && table[i].name == k && r[k] == table[i].heading
    decreases |table|
  {
    if table == [] then map[]
    else
      var last := table[|table| - 1];
      InverseMapping(table[..|table| - 1])[last.name := last.heading]
  }

  /** On a table with distinct values the inverse undoes the table: each field name maps back
      to its own heading (and, by the contract above, each key maps to the heading of a column
      with that name). */
  lemma {:induction false} InverseMappingWellFormed(table: seq<Column>)
    requires Distinct(Names(table))
    ensures forall i :: 0 <= i < |table| ==> InverseMapping(table)[table[i].name] == table[i].heading
    decreases |table|
  {
    if table != [] {
      var init := table[..|table| - 1];
      assert Names(init) == Names(table)[..|table| - 1];
      InverseMappingWellFormed(init);
    }
  }

  /** `mapping[STANDARD_COLUMNS[version][k]] == k` for every heading `k` of a known version. */
  lemma StandardInverse(version: string)
    requires StandardColumns(version).Some?
    ensures var t := StandardColumns(version).value;
            forall i :: 0 <= i < |t| ==> InverseMapping(t)[t[i].name] == t[i].heading
  {
    StandardColumnsWellFormed(version);
    InverseMappingWellFormed(StandardColumns(version).value);
  }

  /** Every field name of a table is a key of its inverse. */
  lemma NamesInInverse(table: seq<Column>)
    ensures forall x :: x in Names(table) ==> x in InverseMapping(table)
  {
    forall x | x in Names(table) ensures x in InverseMapping(table) {
      var j :| 0 <= j < |table| && Names(table)[j] == x;
    }
  }

  /** `df.rename(columns=mapping)` on a list of column names all of which the mapping has. */
  function Renamed(columns: seq<string>, mapping: map<string, string>): (r: seq<string>)
    requires forall i :: 0 <= i < |columns| ==> columns[i] in mapping
    ensures |r| == |columns| && forall i :: 0 <= i < |columns| ==> r[i] == mapping[columns[i]]
  {
    if columns == [] then [] else [mapping[columns[0]]] + Renamed(columns[1..], mapping)
  }

  /** The frame's columns after the rename at line 157, before `transExcel`: the version's
      existing columns renamed through the inverse mapping (lines 152-157). `STANDARD_COLUMNS[version]` raises `KeyError` for a
      version without a table (`None`). */
  function DownloadColumns(version: string, frame: set<string>): (r: Option<seq<string>>)
    ensures r.None? <==> StandardColumns(version).None?
    ensures r.Some? ==> |r.value| <= |StandardColumns(version).value|
  {
    if StandardColumns(version).None? then None
    else
      var table := StandardColumns(version).value;
      var existing := ExistingColumns(Names(table), frame);
      NamesInInverse(table);
      Some(Renamed(existing, InverseMapping(table)))
  }

  /** The columns of `table` whose field the stored rows have, in table order: the reference
      the download is checked against. */
  function ColumnsIn(table: seq<Column>, frame: set<string>): (r: seq<Column>)
    ensures IsSubsequence(r, table)
    ensures forall i :: 0 <= i < |r| ==> r[i] in table && r[i].name in frame
    ensures forall c :: c in table && c.name in frame ==> c in r
    ensures multiset(r) <= multiset(table)
    ensures forall c :: c in table && c.name in frame ==> multiset(r)[c] == multiset(table)[c]
  {
    if table == [] then []
    else
      var rest := ColumnsIn(table[1..], frame);
      assert table == [table[0]] + table[1..];
      if table[0].name in frame then
        var r := [table[0]] + rest;
        assert r[1..] == rest;
        KeptCounts(table, (c: Column) => c.name in frame, rest, r);
        r
      else
        KeptCounts(table, (c: Column) => c.name in frame, rest, rest);
        rest
  }

  /** `ColumnsIn` looks at one column at a time. */
  lemma ColumnsInCons(table: seq<Column>, frame: set<string>)
    requires table != []
    ensures ColumnsIn(table, frame) == (if table[0].name in frame then [table[0]] else []) + ColumnsIn(table[1..], frame)
  {
  }

  /** The existing names are among the table's names, so a mapping that has every name has them. */
  lemma ExistingInMapping(table: seq<Column>, frame: set<string>, mapping: map<string, string>)
    requires forall i :: 0 <= i < |table| ==> table[i].name in mapping
    ensures forall i :: 0 <= i < |ExistingColumns(Names(table), frame)| ==> ExistingColumns(Names(table), frame)[i] in mapping
  {
    var existing := ExistingColumns(Names(table), frame);
    forall i | 0 <= i < |existing| ensures existing[i] in mapping {
      var j :| 0 <= j < |table| && Names(table)[j] == existing[i];
    }
  }

  /** Renaming the existing names through a mapping that sends each column's name to its
      heading gives the headings of the columns the rows have. */
  lemma {:induction false} RenameExisting(table: seq<Column>, frame: set<string>, mapping: map<string, string>)
    requires forall i :: 0 <= i < |table| ==> table[i].name in mapping && mapping[table[i].name] == table[i].heading
    ensures forall i :: 0 <= i < |ExistingColumns(Names(table), frame)| ==> ExistingColumns(Names(table), frame)[i] in mapping
    ensures Renamed(ExistingColumns(Names(table), frame), mapping) == Headings(ColumnsIn(table, frame))
    decreases |table|
  {
    var existing := ExistingColumns(Names(table), frame);
    ExistingInMapping(table, frame, mapping);
    if table != [] {
      RenameExisting(table[1..], frame, mapping);
      ExistingColumnsCons(table[0].name, Names(table[1..]), frame);
      ColumnsInCons(table, frame);
      var rest := ExistingColumns(Names(table[1..]), frame);
      if table[0].name in frame {
        assert existing == [table[0].name] + rest;
        assert existing[1..] == rest;
      } else {
        assert existing == rest;
      }
    }
  }

  /** The renamed frame's columns, stated without the inverse mapping: the headings of the
      version's columns whose field the stored rows have, in the table's order. */
  lemma DownloadColumnsAreHeadings(version: string, frame: set<string>)
    requires StandardColumns(version).Some?
    ensures DownloadColumns(version, frame) == Some(Headings(ColumnsIn(StandardColumns(version).value, frame)))
  {
    var table := StandardColumns(version).value;
    StandardColumnsWellFormed(version);
    InverseMappingWellFormed(table);
    RenameExisting(table, frame, InverseMapping(table));
  }

  /** Every version's table has a `measurement_location` column, so the sheet grouping's
      `mapping['measurement_location']` (line 161) finds that version's location heading. */
  lemma LocationHeadingExists(version: string)
    requires StandardColumns(version).Some?
    ensures "measurement_location" in InverseMapping(StandardColumns(version).value)
    ensures InverseMapping(StandardColumns(version).value)["measurement_location"]
            == (if version == "간단이" then "구분" else if version == "복잡이" then "측정위치" else "계측위치")
  {
    var t := StandardColumns(version).value;
    StandardInverse(version);
    if version == "간단이" {
      assert t[1] == Column("구분", "measurement_location");
    } else if version == "복잡이" {
      assert t[5] == Column("측정위치", "measurement_location");
    } else {
      assert t[1] == Column("계측위치", "measurement_location");
    }
  }

  // ---------------------------------------------------------------- isNestedList

  /** The Python values a statistics column can hold. */
  datatype PyValue =
    | PyNone
    | PyNum(n: int)
    | PyStr(s: string)
    | PyList(items: seq<PyValue>)

  /** `all(isinstance(item, list) for item in items)`. */
  function AllLists(items: seq<PyValue>): (r: bool)
    ensures r <==> forall i :: 0 <= i < |items| ==> items[i].PyList?
  {
    if items == [] then true
    else items[0].PyList? && AllLists(items[1..])
  }

  /** `isNestedList(value)` (lines 227-231): a list all of whose items are lists; `[]` is one,
      and anything that is not a list is not. */
  function IsNestedList(value: PyValue): (r: bool)
    ensures !value.PyList? ==> !r
    ensures value.PyList? ==> (r <==> forall i :: 0 <= i < |value.items| ==> value.items[i].PyList?)
  {
    value.PyList? && AllLists(value.items)
  }

  /** The list of [low, high] pairs a range column yields is nested; a list of plain numbers,
      or one with a single missing reading, is not. */
  lemma NestedListExamples(lo: int, hi: int)
    ensures IsNestedList(PyList([]))
    ensures IsNestedList(PyList([PyList([PyNum(lo), PyNum(hi)]), PyList([])]))
    ensures !IsNestedList(PyList([PyNum(lo), PyNum(hi)]))
    ensures !IsNestedList(PyList([PyList([PyNum(lo)]), PyNone]))
    ensures !IsNestedList(PyNum(lo))
  {
    assert PyList([PyList([PyNum(lo)]), PyNone]).items[1] == PyNone;
  }
}
