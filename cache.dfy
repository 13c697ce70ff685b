/**
 * The pickle cache: a snapshot of the four arrays of a loader, stored in a
 * file system that is modelled as a map from paths to file contents.
 */
module Cache {
  import opened Common
  import opened Cells

  /** The dictionary `save_data` pickles: the keys `X`, `y`, `X_historical`, `y_historical`. */
  datatype Bundle = Bundle(
    x: Option<Table>,
    y: Option<seq<Cell>>,
    xHistorical: Option<Table>,
    yHistorical: Option<seq<Cell>>)

  /** What a path holds: a CSV file as the parser reads it, or a pickled bundle. */
  datatype File = Csv(rows: Table) | Pickle(bundle: Bundle)

  type FileSystem = map<string, File>

  datatype ReadError = FileNotFound(path: string) | NotAPickle(path: string) | NotACsv(path: string)

  /** `pickle.load(open(path, 'rb'))`. */
  function ReadPickle(fs: FileSystem, path: string): (r: Result<Bundle, ReadError>)
    ensures r.Ok? <==> path in fs && fs[path].Pickle?
    ensures r.Ok? ==> fs[path] == Pickle(r.value)
    ensures path !in fs ==> r == Err(FileNotFound(path))
  {
    if path !in fs then Err(FileNotFound(path))
    else if fs[path].Csv? then Err(NotAPickle(path))
    else Ok(fs[path].bundle)
  }

  /** `pd.read_csv(path, header=None).values`: the records of the file. */
  function ReadCsv(fs: FileSystem, path: string): (r: Result<Table, ReadError>)
    ensures r.Ok? <==> path in fs && fs[path].Csv?
    ensures r.Ok? ==> fs[path] == Csv(r.value)
    ensures path !in fs ==> r == Err(FileNotFound(path))
  {
    if path !in fs then Err(FileNotFound(path))
    else if fs[path].Pickle? then Err(NotACsv(path))
    else Ok(fs[path].rows)
  }

  /**
   * `save_data(path)` as written: the existence test is made on `path`, but the
   * file that is opened and written is the loader's own `data_path`.
   */
  function SaveAsWritten(fs: FileSystem, path: string, dataPath: string, b: Bundle): (fs': FileSystem)
    ensures path in fs ==> fs' == fs
    ensures path !in fs ==> fs'.Keys == fs.Keys + {dataPath} && fs'[dataPath] == Pickle(b)
    ensures forall q :: q in fs && q != dataPath ==> fs'[q] == fs[q]
  {
    if path in fs then fs else fs[dataPath := Pickle(b)]
  }

  /**
   * The write-once cache as intended: when `path` is free, write the bundle
   * there; when it exists, do nothing. No other path is touched.
   */
  function SaveOnce(fs: FileSystem, path: string, b: Bundle): (fs': FileSystem)
    ensures path in fs' && fs'.Keys == fs.Keys + {path}
    ensures path in fs ==> fs'[path] == fs[path]
    ensures path !in fs ==> fs'[path] == Pickle(b)
    ensures forall q :: q in fs && q != path ==> fs'[q] == fs[q]
  {
    if path in fs then fs else fs[path := Pickle(b)]
  }

  /** Saving a second time at the same path changes nothing, whatever is saved. */
  lemma SaveOnceIsWriteOnce(fs: FileSystem, path: string, b1: Bundle, b2: Bundle)
    ensures SaveOnce(SaveOnce(fs, path, b1), path, b2) == SaveOnce(fs, path, b1)
  {
  }

  /** A bundle saved at a free path is read back unchanged. */
  lemma SaveThenRead(fs: FileSystem, path: string, b: Bundle)
    requires path !in fs
    ensures ReadPickle(SaveOnce(fs, path, b), path) == Ok(b)
  {
  }

  /**
   * The save as written is not write-once and does not fill the cache it checks:
   * asked to cache at a free path other than `data_path`, it leaves that path
   * empty, overwrites the data file, and a second save overwrites it again.
   */
  lemma SaveAsWrittenMissesPath(fs: FileSystem, path: string, dataPath: string, b1: Bundle, b2: Bundle)
    requires path !in fs && path != dataPath
    ensures var once := SaveAsWritten(fs, path, dataPath, b1);
      path !in once && once[dataPath] == Pickle(b1) &&
      ReadPickle(once, path) == Err(FileNotFound(path)) &&
      SaveAsWritten(once, path, dataPath, b2)[dataPath] == Pickle(b2)
  {
  }

  /** A concrete instance: caching `sea.csv`'s loader at `sea.pkl` replaces the CSV file by the pickle. */
  lemma SaveAsWrittenExample(rows: Table, b: Bundle)
    ensures var fs := map["sea.csv" := Csv(rows)];
      var fs' := SaveAsWritten(fs, "sea.pkl", "sea.csv", b);
      "sea.pkl" !in fs' && fs'["sea.csv"] == Pickle(b) && ReadCsv(fs', "sea.csv") == Err(NotACsv("sea.csv"))
  {
  }
}
