/**
 * The loader object: four row-aligned arrays, the class inventory, the split
 * it performs in place, the cache it reads and writes, and the SEA and Usenet
 * loaders that fill it from a CSV file.
 */
module Loader {
  import opened Common
  import opened Split
  import opened Cells
  import opened Cache

  /** Why loading stopped: the file could not be read, or an array was missing (`None`). */
  datatype LoaderError =
    | Unreadable(cause: ReadError)
    | NoFeatures      // `len(self.X)` with `X` still None
    | NoLabels        // `self.y[:n]` with `y` still None
    | NoLastColumn    // `data[:, -1]` on records without cells
    | EmptyForScaler  // `MinMaxScaler` given a historical part or stream without rows

  datatype Status = Done | Failed(error: LoaderError)

  /** Around an index `n`, the classes of `s` are those before it, after it, and at it. */
  lemma {:induction false} ClassesAround<T>(s: seq<T>, n: nat)
    requires n < |s|
    ensures Classes(s) == Classes(s[..n]) + Classes(s[n + 1..]) + {s[n]}
  {
    var h, d, t := s[..n], [s[n]], s[n + 1..];
    assert s == h + d + t;
    ClassesOfConcat(h + d, t);
    ClassesOfConcat(h, d);
    assert d[..0] == [];
  }

  /**
   * The class inventory covers the whole label vector: it is exactly the classes
   * of the historical part, of the stream and of the one dropped record.
   */
  lemma {:induction false} InventoryCoversSplit<T>(labels: seq<T>, p: real)
    requires 0.0 <= p <= 1.0
    ensures var n := HistoricalCount(p, |labels|);
      Classes(labels) ==
        Classes(Historical(labels, n)) + Classes(Stream(labels, n)) +
        (if n < |labels| then {labels[n]} else {})
  {
    var n := HistoricalCount(p, |labels|);
    if n < |labels| {
      ClassesAround(labels, n);
    } else {
      assert Historical(labels, n) == labels && Stream(labels, n) == [];
    }
  }

  class DataLoader {
    const dataPath: string
    const percentage: real
    var x: Option<Table>
    var y: Option<seq<Cell>>
    var xHistorical: Option<Table>
    var yHistorical: Option<seq<Cell>>
    var classes: Option<set<Cell>>

    /** Features and labels are present together and row-aligned, both for the stream and the historical part. */
    ghost predicate Aligned()
      reads this
    {
      x.Some? == y.Some? && xHistorical.Some? == yHistorical.Some? &&
      (x.Some? ==> |x.value| == |y.value|) &&
      (xHistorical.Some? ==> |xHistorical.value| == |yHistorical.value|)
    }

    /** The four arrays hold the split of `features`/`labels` with this loader's percentage. */
    ghost predicate HoldsSplitOf(features: Table, labels: seq<Cell>)
      reads this
    {
      var n := HistoricalCount(percentage, |features|);
      xHistorical == Some(Historical(features, n)) && yHistorical == Some(Historical(labels, n)) &&
      x == Some(Stream(features, n)) && y == Some(Stream(labels, n))
    }

    /** The dictionary that `save_data` pickles. */
    function Snapshot(): (b: Bundle)
      reads this
      ensures b.x == x && b.y == y && b.xHistorical == xHistorical && b.yHistorical == yHistorical
    {
      Bundle(x, y, xHistorical, yHistorical)
    }

    /** `DataLoader.__init__`: the configuration is kept and nothing is loaded yet. */
    constructor (dataPath: string, percentage: real)
      ensures this.dataPath == dataPath && this.percentage == percentage
      ensures x == None && y == None && xHistorical == None && yHistorical == None
      ensures classes == None
      ensures Aligned()
    {
      this.dataPath := dataPath;
      this.percentage := percentage;
      x, y, xHistorical, yHistorical := None, None, None, None;
      classes := None;
    }

    /** `return_data`: the stream arrays, as they are. */
    method ReturnData() returns (features: Option<Table>, labels: Option<seq<Cell>>)
      ensures features == x && labels == y
    {
      features, labels := x, y;
    }

    /** `return_historical_data`: the historical arrays, as they are. */
    method ReturnHistoricalData() returns (features: Option<Table>, labels: Option<seq<Cell>>)
      ensures features == xHistorical && labels == yHistorical
    {
      features, labels := xHistorical, yHistorical;
    }

    /** `get_classes`: the inventory, `None` when no loader computed it. */
    method GetClasses() returns (c: Option<set<Cell>>)
      ensures c == classes
    {
      c := classes;
    }

    /**
     * `split_data`: with `n = int(p * len(X))`, the first `n` rows become the
     * historical arrays and the rows from `n + 1` on become the stream. Both
     * arrays are cut at the `n` computed from `X`. A missing `X` fails before
     * anything changes; a missing `y` fails after `X_historical` was assigned.
     */
    method SplitData() returns (status: Status)
      modifies this`x, this`y, this`xHistorical, this`yHistorical
      ensures old(x).None? ==> status == Failed(NoFeatures) && unchanged(this)
      ensures old(x).Some? && old(y).None? ==>
        status == Failed(NoLabels) &&
        xHistorical == Some(Historical(old(x).value, HistoricalCount(percentage, |old(x).value|))) &&
        x == old(x) && y == old(y) && yHistorical == old(yHistorical)
      ensures old(x).Some? && old(y).Some? ==> status == Done && HoldsSplitOf(old(x).value, old(y).value)
      ensures old(Aligned()) ==> Aligned()
    {
      if x.None? {
        return Failed(NoFeatures);
      }
      var n := HistoricalCount(percentage, |x.value|);
      xHistorical := Some(Historical(x.value, n));
      if y.None? {
        return Failed(NoLabels);
      }
      if |x.value| == |y.value| {
        SplitKeepsAlignment(x.value, y.value, n);
      }
      yHistorical := Some(Historical(y.value, n));
      x := Some(Stream(x.value, n));
      y := Some(Stream(y.value, n));
      status := Done;
    }

    /** `load_from_pickle`: the four arrays are replaced by the cached ones; the inventory is left alone. */
    method LoadFromPickle(fs: FileSystem) returns (status: Status)
      modifies this`x, this`y, this`xHistorical, this`yHistorical
      ensures ReadPickle(fs, dataPath).Err? ==>
        status == Failed(Unreadable(ReadPickle(fs, dataPath).error)) && unchanged(this)
      ensures ReadPickle(fs, dataPath).Ok? ==>
        status == Done && Snapshot() == ReadPickle(fs, dataPath).value
      ensures classes == old(classes)
    {
      var r := ReadPickle(fs, dataPath);
      if r.Err? {
        return Failed(Unreadable(r.error));
      }
      x, y, xHistorical, yHistorical := r.value.x, r.value.y, r.value.xHistorical, r.value.yHistorical;
      status := Done;
    }

    /** `save_data` corrected: the write-once cache at `path` that it is meant to be. */
    method SaveData(fs: FileSystem, path: string) returns (fs': FileSystem)
      ensures fs' == SaveOnce(fs, path, Snapshot())
    {
      if path !in fs {
        fs' := fs[path := Pickle(Snapshot())];
      } else {
        fs' := fs;
      }
    }

    /** `save_data(path)` as written: the existence test is on `path`, the write goes to `data_path`. */
    method SaveDataAsWritten(fs: FileSystem, path: string) returns (fs': FileSystem)
      ensures fs' == SaveAsWritten(fs, path, dataPath, Snapshot())
    {
      if path !in fs {
        fs' := fs[dataPath := Pickle(Snapshot())];
      } else {
        fs' := fs;
      }
    }

    /**
     * The steps both CSV loaders share once the features are assigned: take the
     * labels, record their inventory, then split.
     */
    method LabelAndSplit(features: Table, labels: seq<Cell>)
      requires x == Some(features)
      modifies this`x, this`y, this`xHistorical, this`yHistorical, this`classes
      ensures classes == Some(Classes(labels))
      ensures HoldsSplitOf(features, labels)
      ensures |features| == |labels| ==> Aligned()
    {
      y := Some(labels);
      classes := Some(Classes(labels));
      var status := SplitData();
      if |features| == |labels| {
        var n := HistoricalCount(percentage, |features|);
        assert |Historical(features, n)| == |Historical(labels, n)|;
        assert |Stream(features, n)| == |Stream(labels, n)|;
      }
    }

    /**
     * `SEALoader.__init__` after the base constructor: either load the cache, or
     * read the CSV, keep columns 1 and 2 as features and the last column as label,
     * record the inventory and split. The normalisation that follows rejects a
     * historical part or a stream without rows.
     */
    method LoadSea(fs: FileSystem, usePickle: bool) returns (status: Status)
      modifies this`x, this`y, this`xHistorical, this`yHistorical, this`classes
      ensures usePickle && ReadPickle(fs, dataPath).Err? ==>
        status == Failed(Unreadable(ReadPickle(fs, dataPath).error)) && unchanged(this)
      ensures usePickle && ReadPickle(fs, dataPath).Ok? ==>
        status == Done && Snapshot() == ReadPickle(fs, dataPath).value && classes == old(classes)
      ensures !usePickle && ReadCsv(fs, dataPath).Err? ==>
        status == Failed(Unreadable(ReadCsv(fs, dataPath).error)) && unchanged(this)
      ensures !usePickle && ReadCsv(fs, dataPath).Ok? && !HasLastColumn(ReadCsv(fs, dataPath).value) ==>
        status == Failed(NoLastColumn) && x == Some(SeaFeatures(ReadCsv(fs, dataPath).value)) &&
        y == old(y) && xHistorical == old(xHistorical) && yHistorical == old(yHistorical) && classes == old(classes)
      ensures !usePickle && ReadCsv(fs, dataPath).Ok? && HasLastColumn(ReadCsv(fs, dataPath).value) ==>
        var raw := ReadCsv(fs, dataPath).value;
        var n := HistoricalCount(percentage, |raw|);
        status == (if |Historical(raw, n)| == 0 || |Stream(raw, n)| == 0 then Failed(EmptyForScaler) else Done) &&
        classes == Some(Classes(LastColumn(raw))) &&
        HoldsSplitOf(SeaFeatures(raw), LastColumn(raw)) && Aligned()
    {
      if usePickle {
        status := LoadFromPickle(fs);
        return;
      }
      var r := ReadCsv(fs, dataPath);
      if r.Err? {
        return Failed(Unreadable(r.error));
      }
      x := Some(SeaFeatures(r.value));
      if !HasLastColumn(r.value) {
        return Failed(NoLastColumn);
      }
      LabelAndSplit(SeaFeatures(r.value), LastColumn(r.value));
      if |xHistorical.value| == 0 || |x.value| == 0 {
        return Failed(EmptyForScaler);
      }
      status := Done;
    }

    /**
     * `UsenetLoader.__init__` after the base constructor: either load the cache, or
     * read the CSV, replace the tokens in every cell, keep all but the last column
     * as features and the last column as label, record the inventory and split.
     */
    method LoadUsenet(fs: FileSystem, usePickle: bool) returns (status: Status)
      modifies this`x, this`y, this`xHistorical, this`yHistorical, this`classes
      ensures usePickle && ReadPickle(fs, dataPath).Err? ==>
        status == Failed(Unreadable(ReadPickle(fs, dataPath).error)) && unchanged(this)
      ensures usePickle && ReadPickle(fs, dataPath).Ok? ==>
        status == Done && Snapshot() == ReadPickle(fs, dataPath).value && classes == old(classes)
      ensures !usePickle && ReadCsv(fs, dataPath).Err? ==>
        status == Failed(Unreadable(ReadCsv(fs, dataPath).error)) && unchanged(this)
      ensures !usePickle && ReadCsv(fs, dataPath).Ok? && !HasLastColumn(ReadCsv(fs, dataPath).value) ==>
        status == Failed(NoLastColumn) && x == Some(UsenetFeatures(ReadCsv(fs, dataPath).value)) &&
        y == old(y) && xHistorical == old(xHistorical) && yHistorical == old(yHistorical) && classes == old(classes)
      ensures !usePickle && ReadCsv(fs, dataPath).Ok? && HasLastColumn(ReadCsv(fs, dataPath).value) ==>
        var raw := ReadCsv(fs, dataPath).value;
        status == Done && classes == Some(Classes(UsenetLabels(raw))) &&
        HoldsSplitOf(UsenetFeatures(raw), UsenetLabels(raw)) && Aligned()
    {
      if usePickle {
        status := LoadFromPickle(fs);
        return;
      }
      var r := ReadCsv(fs, dataPath);
      if r.Err? {
        return Failed(Unreadable(r.error));
      }
      x := Some(UsenetFeatures(r.value));
      if !HasLastColumn(r.value) {
        return Failed(NoLastColumn);
      }
      LabelAndSplit(UsenetFeatures(r.value), UsenetLabels(r.value));
      status := Done;
    }
  }

  /**
   * The cache round trip: a loader created on a path that `a` has just saved to
   * gets `a`'s four arrays back, but no class inventory.
   */
  method CachedCopy(a: DataLoader, fs: FileSystem, path: string) returns (b: DataLoader, fs': FileSystem)
    requires path !in fs
    ensures fs' == SaveOnce(fs, path, a.Snapshot())
    ensures b.dataPath == path && b.Snapshot() == a.Snapshot() && b.classes == None
  {
    fs' := a.SaveData(fs, path);
    b := new DataLoader(path, a.percentage);
    SaveThenRead(fs, path, a.Snapshot());
    var status := b.LoadSea(fs', true);
  }
}
