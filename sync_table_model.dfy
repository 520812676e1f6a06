/**
 * The table model behind the GUI's result tables: a header row and rows of cells,
 * built once from a report's file map or directory list and then only read.
 */
module SyncTable {
  import opened Sequences
  import opened Paths

  datatype Option<T> = None | Some(value: T)

  /** The printed form of each path, in list order. */
  function Printed(values: seq<Path>): seq<string> {
    seq(|values|, i requires 0 <= i < |values| => ToString(values[i]))
  }

  /** Texts each followed by one space, in order, as a string builder appends them. */
  function SpaceTerminated(texts: seq<string>): string {
    if texts == [] then ""
    else SpaceTerminated(texts[..|texts| - 1]) + texts[|texts| - 1] + " "
  }

  /** Concatenating two lists concatenates their renderings. */
  lemma {:induction false} SpaceTerminatedAppend(a: seq<string>, b: seq<string>)
    ensures SpaceTerminated(a + b) == SpaceTerminated(a) + SpaceTerminated(b)
  {
    if b == [] {
      assert a + b == a;
    } else {
      assert (a + b)[..|a + b| - 1] == a + b[..|b| - 1];
      SpaceTerminatedAppend(a, b[..|b| - 1]);
    }
  }

  /**
   * Text i appears in the rendering right after the rendering of the texts before
   * it, and is followed by exactly one space.
   */
  lemma SpaceTerminatedAt(texts: seq<string>, i: int)
    requires 0 <= i < |texts|
    ensures var s := SpaceTerminated(texts);
            var start := |SpaceTerminated(texts[..i])|;
            && start + |texts[i]| < |s|
            && s[start..start + |texts[i]|] == texts[i]
            && s[start + |texts[i]|] == ' '
  {
    var front, rest := texts[..i + 1], texts[i + 1..];
    assert texts == front + rest;
    SpaceTerminatedAppend(front, rest);
    assert front[..|front| - 1] == texts[..i];
  }

  class SyncTableModel {
    const tableHeader: seq<string>
    const tableContent: seq<seq<string>>
    /** The source files in the order of their rows; empty for a directory table. */
    ghost const rowKeys: seq<Path>

    /** Every row has one cell per column. */
    predicate Valid() {
      forall r :: 0 <= r < |tableContent| ==> |tableContent[r]| == |tableHeader|
    }

    /**
     * A table of copied files: two columns, source location and target location, and
     * one row per entry of the map, each row the printed source path and its target.
     */
    constructor FromFiles(files: map<Path, string>)
      ensures Valid()
      ensures tableHeader == ["Location in source folder", "Location in target folder"]
      ensures |tableContent| == |files|
      ensures Distinct(rowKeys) && Elements(rowKeys) == files.Keys && |rowKeys| == |tableContent|
      ensures forall r :: 0 <= r < |tableContent| ==>
                tableContent[r] == [ToString(rowKeys[r]), files[rowKeys[r]]]
      ensures GetRowCount() == |files| && GetColumnCount() == 2
      ensures GetColumnName(0) == Some("Location in source folder")
      ensures GetColumnName(1) == Some("Location in target folder")
      ensures forall r :: 0 <= r < GetRowCount() ==>
                GetValueAt(r, 0) == Some(ToString(rowKeys[r])) && GetValueAt(r, 1) == Some(files[rowKeys[r]])
    {
      var rows, keys := GetChangedFiles(files);
      tableContent := rows;
      tableHeader := GetTableHeader();
      rowKeys := keys;
    }

    /** A table of created directories: one column, "New Directories", and one row per directory in list order. */
    constructor FromDirectories(directories: seq<Path>)
      ensures Valid()
      ensures tableHeader == ["New Directories"]
      ensures |tableContent| == |directories|
      ensures forall r :: 0 <= r < |tableContent| ==> tableContent[r] == [ToString(directories[r])]
      ensures GetRowCount() == |directories| && GetColumnCount() == 1
      ensures GetColumnName(0) == Some("New Directories")
      ensures forall r :: 0 <= r < GetRowCount() ==> GetValueAt(r, 0) == Some(ToString(directories[r]))
    {
      var rows := ToTableContent(directories);
      tableContent := rows;
      tableHeader := ToTableHeader("New Directories");
      rowKeys := [];
    }

    function GetRowCount(): (n: nat)
      ensures n == |tableContent|
    {
      |tableContent|
    }

    function GetColumnCount(): (n: nat)
      ensures n == |tableHeader|
    {
      |tableHeader|
    }

    /**
     * The cell at (row, column), or None where the list lookup would fail. In a valid
     * table a cell exists exactly at the positions below the row and column counts.
     */
    function GetValueAt(row: int, column: int): (v: Option<string>)
      ensures v.Some? <==> 0 <= row < |tableContent| && 0 <= column < |tableContent[row]|
      ensures v.Some? ==> v.value == tableContent[row][column]
      ensures Valid() ==> (v.Some? <==> 0 <= row < GetRowCount() && 0 <= column < GetColumnCount())
    {
      if 0 <= row < |tableContent| && 0 <= column < |tableContent[row]| then
        Some(tableContent[row][column])
      else
        None
    }

    /** No cell can be edited. */
    function IsCellEditable(row: int, column: int): (b: bool)
      ensures !b
    {
      false
    }

    /** The header of a column, or None where the list lookup would fail. */
    function GetColumnName(column: int): (name: Option<string>)
      ensures name.Some? <==> 0 <= column < GetColumnCount()
      ensures name.Some? ==> name.value == tableHeader[column]
    {
      if 0 <= column < |tableHeader| then Some(tableHeader[column]) else None
    }

    /** The header of a file table. */
    static function GetTableHeader(): (header: seq<string>)
      ensures |header| == 2
      ensures header[0] == "Location in source folder" && header[1] == "Location in target folder"
    {
      ["Location in source folder", "Location in target folder"]
    }

    /** A one-column header. */
    static function ToTableHeader(name: string): (header: seq<string>)
      ensures |header| == 1 && header[0] == name
    {
      [name]
    }

    /**
     * One row per map entry, in the map's iteration order: the printed source path and
     * its value. `keys` is that order; it lists every key exactly once.
     */
    static method GetChangedFiles(files: map<Path, string>) returns (rows: seq<seq<string>>, keys: seq<Path>)
      ensures Distinct(keys) && Elements(keys) == files.Keys
      ensures |rows| == |keys| == |files|
      ensures forall r :: 0 <= r < |rows| ==> rows[r] == [ToString(keys[r]), files[keys[r]]]
    {
      keys := EntryOrder(files);
      rows := [];
      for r := 0 to |keys|
        invariant |rows| == r
        invariant forall i :: 0 <= i < r ==> rows[i] == [ToString(keys[i]), files[keys[i]]]
      {
        var row := [ToString(keys[r]), files[keys[r]]];
        rows := rows + [row];
      }
    }

    /**
     * One row per map entry, in the map's iteration order: the printed source path and
     * all its target paths, each followed by one space.
     */
    static method GetConcatenatedFileNames(files: map<Path, seq<Path>>) returns (rows: seq<seq<string>>, keys: seq<Path>)
      ensures Distinct(keys) && Elements(keys) == files.Keys
      ensures |rows| == |keys| == |files|
      ensures forall r :: 0 <= r < |rows| ==> rows[r] == [ToString(keys[r]), SpaceTerminated(Printed(files[keys[r]]))]
    {
      keys := EntryOrder(files);
      rows := [];
      for r := 0 to |keys|
        invariant |rows| == r
        invariant forall i :: 0 <= i < r ==> rows[i] == [ToString(keys[i]), SpaceTerminated(Printed(files[keys[i]]))]
      {
        var key := keys[r];
        var targetPaths := JoinTargetPaths(files[key]);
        var row := [ToString(key), targetPaths];
        rows := rows + [row];
      }
    }

    /** The order in which a map's entries are visited: every key exactly once. */
    static method EntryOrder<V>(files: map<Path, V>) returns (keys: seq<Path>)
      ensures Distinct(keys) && Elements(keys) == files.Keys
      ensures |keys| == |files|
      ensures forall i :: 0 <= i < |keys| ==> keys[i] in files
    {
      keys := [];
      var remaining := files.Keys;
      while remaining != {}
        invariant remaining <= files.Keys
        invariant Elements(keys) == files.Keys - remaining
        invariant Distinct(keys)
        invariant |keys| + |remaining| == |files.Keys|
        decreases |remaining|
      {
        var key :| key in remaining;
        ElementsAppend(keys, key);
        DistinctAppend(keys, key);
        keys := keys + [key];
        remaining := remaining - {key};
      }
      assert |files.Keys| == |files|;
      forall i | 0 <= i < |keys| ensures keys[i] in files {
        assert keys[i] in Elements(keys);
      }
    }

    /** The string builder of one row: each target path printed and followed by one space, in list order. */
    static method JoinTargetPaths(values: seq<Path>) returns (targetPaths: string)
      ensures targetPaths == SpaceTerminated(Printed(values))
    {
      targetPaths := "";
      var j := 0;
      while j < |values|
        invariant 0 <= j <= |values|
        invariant targetPaths == SpaceTerminated(Printed(values[..j]))
      {
        assert Printed(values[..j + 1])[..j] == Printed(values[..j]);
        targetPaths := targetPaths + ToString(values[j]) + " ";
        j := j + 1;
      }
      assert values[..j] == values;
    }

    /** One single-cell row per directory, in list order. */
    static method ToTableContent(directories: seq<Path>) returns (rows: seq<seq<string>>)
      ensures |rows| == |directories|
      ensures forall r :: 0 <= r < |rows| ==> rows[r] == [ToString(directories[r])]
    {
      rows := [];
      for i := 0 to |directories|
        invariant |rows| == i
        invariant forall r :: 0 <= r < i ==> rows[r] == [ToString(directories[r])]
      {
        rows := rows + [[ToString(directories[i])]];
      }
    }
  }
}
