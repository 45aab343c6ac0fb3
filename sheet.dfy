/**
 * A worksheet as the two export routes fill it: a name, an optional list of
 * keyed columns (whose headers form the first displayed row) and the data
 * rows appended one at a time. An object row is placed by column key; an
 * array row is taken as it is.
 */
module Sheet {

  import opened Wrappers
  import opened MsQuery

  datatype Column = Column(header: string, key: string, width: Option<nat>)

  /** An object row: its keys in insertion order with their values. */
  datatype Record = Record(entries: seq<(string, Value)>)

  /** `Object.keys(r)`. */
  function Keys(r: Record): (ks: seq<string>)
    ensures |ks| == |r.entries|
    ensures forall i :: 0 <= i < |ks| ==> ks[i] == r.entries[i].0
  {
    seq(|r.entries|, i requires 0 <= i < |r.entries| => r.entries[i].0)
  }

  /**
   * Reading a record by each of its own keys gives back that key's value, when
   * no key repeats; a key it does not have reads as undefined.
   */
  lemma KeysGet(r: Record, k: string)
    requires forall i, j :: 0 <= i < j < |r.entries| ==> r.entries[i].0 != r.entries[j].0
    ensures forall i :: 0 <= i < |r.entries| ==> Get(r, Keys(r)[i]) == r.entries[i].1
    ensures k !in Keys(r) ==> Get(r, k) == Undefined
  {
    var es := r.entries;
    forall i | 0 <= i < |es| ensures Get(r, Keys(r)[i]) == es[i].1 {
      assert forall j :: 0 <= j < i ==> es[j].0 != es[i].0;
    }
    if k !in Keys(r) {
      assert forall i :: 0 <= i < |es| ==> es[i].0 == Keys(r)[i];
    }
  }

  /** `r[k]`, undefined when the record has no such key. */
  function Get(r: Record, k: string): Value {
    GetFrom(r.entries, k)
  }

  function GetFrom(es: seq<(string, Value)>, k: string): (v: Value)
    ensures (forall i :: 0 <= i < |es| ==> es[i].0 != k) ==> v == Undefined
    ensures forall i :: 0 <= i < |es| && es[i].0 == k && (forall j :: 0 <= j < i ==> es[j].0 != k) ==> v == es[i].1
  {
    if es == [] then Undefined
    else if es[0].0 == k then es[0].1
    else
      var rest := es[1..];
      var v := GetFrom(rest, k);
      assert forall i :: 1 <= i < |es| ==> es[i] == rest[i - 1];
      assert forall i :: 0 <= i < |es| && es[i].0 == k && (forall j :: 0 <= j < i ==> es[j].0 != k) ==> v == es[i].1 by {
        forall i | 0 <= i < |es| && es[i].0 == k && (forall j :: 0 <= j < i ==> es[j].0 != k)
          ensures v == es[i].1
        {
          assert rest[i - 1] == es[i];
          forall j | 0 <= j < i - 1
            ensures rest[j].0 != k
          {
            assert rest[j] == es[j + 1];
          }
        }
      }
      v
  }

  /** The cells an object row fills, one per column by key; a key with no column is dropped. */
  function Place(columns: seq<Column>, r: Record): (cells: seq<Value>)
    ensures |cells| == |columns|
    ensures forall i :: 0 <= i < |columns| ==> cells[i] == Get(r, columns[i].key)
  {
    seq(|columns|, i requires 0 <= i < |columns| => Get(r, columns[i].key))
  }

  /**
   * A record whose keys are, in order, those of the first columns fills those
   * columns with its values and leaves the rest empty, when the column keys are distinct.
   */
  lemma PlaceAligned(columns: seq<Column>, r: Record)
    requires |r.entries| <= |columns|
    requires forall i :: 0 <= i < |r.entries| ==> r.entries[i].0 == columns[i].key
    requires forall i, j :: 0 <= i < j < |columns| ==> columns[i].key != columns[j].key
    ensures forall i :: 0 <= i < |r.entries| ==> Place(columns, r)[i] == r.entries[i].1
    ensures forall i :: |r.entries| <= i < |columns| ==> Place(columns, r)[i] == Undefined
  {
    var es := r.entries;
    forall i | 0 <= i < |es| ensures Place(columns, r)[i] == es[i].1 {
      assert forall j :: 0 <= j < i ==> es[j].0 == columns[j].key != columns[i].key;
    }
    forall i | |es| <= i < |columns| ensures Place(columns, r)[i] == Undefined {
      assert forall j :: 0 <= j < |es| ==> es[j].0 == columns[j].key != columns[i].key;
    }
  }

  /** Columns keyed and titled by the given names, in order. */
  function ColumnsFor(keys: seq<string>): (cs: seq<Column>)
    ensures |cs| == |keys|
    ensures forall i :: 0 <= i < |keys| ==> cs[i] == Column(keys[i], keys[i], None)
  {
    seq(|keys|, i requires 0 <= i < |keys| => Column(keys[i], keys[i], None))
  }

  /**
   * Columns made from a record's own keys line up header and data: the i-th
   * header cell names the record's i-th key and the i-th cell of the placed
   * record holds that key's value.
   */
  lemma OwnColumns(r: Record)
    requires forall i, j :: 0 <= i < j < |r.entries| ==> r.entries[i].0 != r.entries[j].0
    ensures var cs := ColumnsFor(Keys(r));
      && |HeaderCells(cs)| == |Place(cs, r)| == |r.entries|
      && forall i :: 0 <= i < |r.entries| ==>
           HeaderCells(cs)[i] == Str(r.entries[i].0) && Place(cs, r)[i] == r.entries[i].1
  {
    var cs := ColumnsFor(Keys(r));
    forall i, j | 0 <= i < j < |cs| ensures cs[i].key != cs[j].key {
      assert cs[i].key == r.entries[i].0 && cs[j].key == r.entries[j].0;
    }
    PlaceAligned(cs, r);
  }

  /** What a sheet shows: the header row when there are columns, then the data rows. */
  function ShownOf(columns: seq<Column>, rows: seq<seq<Value>>): (shown: seq<seq<Value>>)
    ensures columns == [] ==> shown == rows
    ensures columns != [] ==> shown == [HeaderCells(columns)] + rows
  {
    (if columns == [] then [] else [HeaderCells(columns)]) + rows
  }

  /**
   * A sheet shows one row more than it holds exactly when it has columns; that
   * first row has one cell per column, and the held rows follow unchanged.
   */
  lemma ShownSpec(columns: seq<Column>, rows: seq<seq<Value>>)
    ensures var shown := ShownOf(columns, rows);
      && |shown| == |rows| + (if columns == [] then 0 else 1)
      && shown[|shown| - |rows|..] == rows
      && (columns != [] ==> |shown[0]| == |columns| && shown[0] == HeaderCells(columns))
  {
  }

  class Worksheet {
    var name: string
    var columns: seq<Column>
    var rows: seq<seq<Value>>

    /** `workbook.addWorksheet(name)`: no columns and no rows. */
    constructor(name: string)
      ensures this.name == name && columns == [] && rows == []
    {
      this.name := name;
      columns := [];
      rows := [];
    }

    function Shown(): seq<seq<Value>>
      reads this
    {
      ShownOf(columns, rows)
    }

    /** `sheet.columns = cs`. */
    method SetColumns(cs: seq<Column>)
      modifies this
      ensures columns == cs && rows == old(rows) && name == old(name)
    {
      columns := cs;
    }

    /** `sheet.addRow(object)`: the record placed by column key, after the existing rows. */
    method AddRecord(r: Record)
      modifies this
      ensures rows == old(rows) + [Place(columns, r)]
      ensures columns == old(columns) && name == old(name)
    {
      rows := rows + [Place(columns, r)];
    }

    /** `sheet.addRow(array)`: the values as they are, after the existing rows. */
    method AddValues(vs: seq<Value>)
      modifies this
      ensures rows == old(rows) + [vs]
      ensures columns == old(columns) && name == old(name)
    {
      rows := rows + [vs];
    }
  }

  function HeaderCells(columns: seq<Column>): (cells: seq<Value>)
    ensures |cells| == |columns|
    ensures forall i :: 0 <= i < |columns| ==> cells[i] == Str(columns[i].header)
  {
    seq(|columns|, i requires 0 <= i < |columns| => Str(columns[i].header))
  }
}
