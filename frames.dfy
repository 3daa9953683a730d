/**
 * The mutable objects of the workflows: a DataFrame that the cleaning
 * actions change in place, and the `action_log` list kept in Streamlit's
 * session state, to which actions append.
 */
module Frames {
  import opened Tables
  import opened Cleaning
  import opened TableOps

  /** `datetime.now().strftime("%Y-%m-%d %H:%M:%S")`, supplied by the caller. */
  type Timestamp = string

  /** A pandas DataFrame object: its header, dtypes and rows change in place. */
  class Frame {
    var names: seq<string>
    var kinds: seq<Kind>
    var rows: seq<Row>

    /** The table the frame currently holds. */
    function Value(): Table
      reads this
    {
      Table(names, kinds, rows)
    }

    predicate Valid()
      reads this
    {
      WellFormed(Value())
    }

    constructor (t: Table)
      requires WellFormed(t)
      ensures Valid() && Value() == t
    {
      names, kinds, rows := t.names, t.kinds, t.rows;
    }

    /** `dataset.copy()`: a new frame holding the same table. */
    method Copy() returns (c: Frame)
      requires Valid()
      ensures fresh(c) && c.Valid() && c.Value() == Value()
    {
      c := new Frame(Value());
    }

    /** An in-place operation (`inplace=True`) that replaces the whole table. */
    method Assign(t: Table)
      requires WellFormed(t)
      modifies this
      ensures Valid() && Value() == t
    {
      names, kinds, rows := t.names, t.kinds, t.rows;
    }

    /** `dataset[col] = cells`: one column replaced, every other column kept. */
    method AssignColumn(j: nat, cells: seq<Cell>, k: Kind)
      requires Valid() && j < |names| && |cells| == |rows|
      requires forall i :: 0 <= i < |cells| ==> Fits(k, cells[i])
      modifies this
      ensures Valid() && Value() == SetColumn(old(Value()), j, cells, k)
    {
      var t := SetColumn(Value(), j, cells, k);
      names, kinds, rows := t.names, t.kinds, t.rows;
    }

    /** `for col in dataset.columns: dataset[col] = op(dataset[col])`. */
    method MapColumnsInPlace(op: ColumnOp, codec: Codec)
      requires Valid()
      modifies this
      ensures Valid() && Value() == MapAllColumns(old(Value()), op, codec)
    {
      ghost var t0 := Value();
      for j := 0 to |names|
        invariant Valid() && Value() == MapColumns(t0, op, codec, j)
        invariant names == t0.names
      {
        var t := Value();
        var c := ApplyColumnOp(op, codec, t.names[j], t.kinds[j], Column(t, j));
        AssignColumn(j, c.1, c.0);
      }
      MapAllIsMapColumns(t0, op, codec);
    }

    /**
     * `before = len(dataset); dataset = dataset.drop_duplicates()` stored
     * back, reporting `before - len(dataset)`: the number of rows that
     * repeated an earlier one, after which none repeats.
     */
    method DropDuplicates() returns (removed: nat)
      requires Valid()
      modifies this
      ensures Valid() && Value() == DropDuplicateRows(old(Value()))
      ensures removed == |old(rows)| - |rows| == DuplicateRows(old(Value()))
      ensures DuplicateRows(Value()) == 0
    {
      var before := |rows|;
      Assign(DropDuplicateRows(Value()));
      removed := before - |rows|;
    }
  }

  /** A session-state list of log entries: `append` is the only way it changes. */
  class ActionLog<E> {
    var entries: seq<E>

    constructor ()
      ensures entries == []
    {
      entries := [];
    }

    /** `action_log.append(e)`: exactly one entry is added, at the end. */
    method Append(e: E)
      modifies this
      ensures entries == old(entries) + [e]
    {
      entries := entries + [e];
    }
  }
}
