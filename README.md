# DataLoader model

A Dafny model of the data-preparation core of a concept-drift experiment
framework (`data_management/DataLoader.py`). A loader holds four row-aligned
arrays: the stream features `X` and labels `y`, and their historical
counterparts `X_historical` and `y_historical`. It also holds a class
inventory (`list_classes`). A loader reads a labelled CSV file and turns each
record into a feature row and a label. It records the distinct labels, then
cuts the data into a historical prefix, which is used to pre-train a model,
and a streaming suffix, which emulates the online phase. Instead of reading
the CSV, it can load the four arrays from a pickle cache.

Modules:

- `Common`: `Option` (Python's `None`) and `Result`.
- `Slices`: Python's `int()` on a float (truncation toward zero) and slice
  notation `s[lo:hi]`. Negative bounds count from the end, and bounds are
  clamped. This is how `split_data` behaves for every percentage, not only
  for one in [0, 1].
- `Split`: the split policy. With `n = int(p * len(X))`, the historical part
  is `X[:n]` and the stream is `X[n + 1:]`. The record at index `n` is in
  neither part. The source does this, and the model keeps it.
- `Cells`: the cell type (number or text). Also the SEA projection (columns
  1 and 2 as features, the last column as label), the Usenet token map
  (`no`/`f` to 0, `yes`/`t`/`tt` to 1, applied to every cell), and the class
  inventory.
- `Cache`: the pickle cache over a file system, which is modelled as a map
  from path to file contents. It holds the cache save as the code writes it
  and the write-once save the cache is meant to be (see Findings).
- `Loader`: the class `DataLoader`. Its fields are the ones the source
  updates in place. `SplitData`, `LoadFromPickle`, `LoadSea` and `LoadUsenet`
  modify them in the source's order: transform, then labels, then inventory,
  then split. `SplitData` states the whole new state. It fails exactly where
  Python raises: with `X` missing before anything changes, and with `y`
  missing after `X_historical` was already assigned.

The file system is a parameter (`FileSystem`), and CSV parsing is not part
of the model: a CSV file is given as its parsed records. The base
constructor is `DataLoader.__init__`. The bodies of the `SEALoader` and
`UsenetLoader` constructors are the methods `LoadSea` and `LoadUsenet`, run on
a freshly constructed loader. A Dafny constructor cannot report the errors
Python raises from `__init__`, so those bodies return a `Status` instead.

Where the intended design and the code differ:

- `split_data` accepts any percentage and never fails on an empty
  partition. The model follows the code.
- `save_data` tests `path` but writes to `data_path`. The code's save is
  `Cache.SaveAsWritten`, which the loader exposes as
  `DataLoader.SaveDataAsWritten`. `DataLoader.SaveData` and `CachedCopy` use
  the corrected write-once save at `path` (see Findings).

## Model

| member | source | states |
|---|---|---|
| `Slices.Truncate` | data_management/DataLoader.py:91 | `int()` truncates toward zero: for x >= 0 the result is the floor, within one below x; for x < 0 it is within one above x |
| `Slices.Bound` | data_management/DataLoader.py:92-95 | a slice bound lands in [0, len]: in-range bounds are kept, negative ones count from the end, and out-of-range ones are clamped |
| `Slices.Slice` | data_management/DataLoader.py:92-95 | `s[lo:hi]` is no longer than what follows `lo`, equals `s[lo..hi]` for in-range bounds, has length bound(hi) - bound(lo) (0 when they cross) for every pair of bounds, and is the contiguous run of `s` that starts at the bound of `lo` |
| `Slices.Take` | data_management/DataLoader.py:92-93 | `s[:n]` is the prefix of `s` whose length is the bound of n |
| `Slices.Drop` | data_management/DataLoader.py:94-95 | `s[m:]` is the suffix of `s` that starts at the bound of m |
| `Split.ScaledWithin` | data_management/DataLoader.py:91 | a percentage in [0, 1] of a non-negative length lies between 0 and that length |
| `Split.HistoricalCount` | data_management/DataLoader.py:91 | for 0 <= p <= 1, `int(p * len(X))` is floor(p * len) and lies in [0, len] |
| `Split.Historical` | data_management/DataLoader.py:92-93 | the historical part is exactly the first n records when 0 <= n <= len |
| `Split.Stream` | data_management/DataLoader.py:94-95 | the stream is the records from n + 1 on when n < len, and empty when n >= len |
| `Split.SplitLengths` | data_management/DataLoader.py:91-95 | there are n historical records, and the stream has len - n - 1 records, or 0 when n == len |
| `Split.SplitReassembles` | data_management/DataLoader.py:92-95 | when n < len, historical + [record n] + stream == the original: nothing is reordered and exactly one record is lost |
| `Split.SplitAllHistorical` | data_management/DataLoader.py:91-95 | when n == len, everything is historical and the stream is empty |
| `Split.SplitAtEdges` | data_management/DataLoader.py:91-95 | p = 0 gives an empty history and drops the first record; p = 1 gives the whole data as history and an empty stream |
| `Split.SplitKeepsAlignment` | data_management/DataLoader.py:91-95 | features and labels cut with the same n keep equal lengths, and the i-th entries of each part come from the same original index |
| `Split.SplitOfTenRecords` | data_management/DataLoader.py:91-95 | with 10 records and the default 0.2: 2 historical, 7 streamed, record 2 dropped |
| `Cells.Classes` | data_management/DataLoader.py:134 | the inventory contains every label of the vector and nothing else |
| `Cells.ClassesOfConcat` | data_management/DataLoader.py:134 | the inventory of a concatenation is the union of the inventories |
| `Cells.SeaFeatures` | data_management/DataLoader.py:132 | one feature row per record; a four-column record gives `[row[1], row[2]]` |
| `Cells.LastColumn` | data_management/DataLoader.py:133 | one label per record, its last cell |
| `Cells.SeaRecordRecovered` | data_management/DataLoader.py:130-133 | a four-column SEA record is column 0, then its features, then its label: only column 0 is dropped |
| `Cells.EncodeCell` | data_management/DataLoader.py:234-235 | the result is never a token; a cell changes exactly when it is a token, and then becomes 0 or 1 |
| `Cells.EncodeCellTokens` | data_management/DataLoader.py:234 | `no` and `f` become 0; `yes`, `t` and `tt` become 1 |
| `Cells.EncodeRow` | data_management/DataLoader.py:235 | the token map is applied to every cell of a record, label included, and keeps its length |
| `Cells.EncodeTable` | data_management/DataLoader.py:235 | the token map is applied to every record |
| `Cells.EncodeTableIdempotent` | data_management/DataLoader.py:234-235 | encoding already-encoded data changes nothing |
| `Cells.UsenetFeatures` | data_management/DataLoader.py:236 | one feature row per record, with every encoded cell but the last |
| `Cells.UsenetLabels` | data_management/DataLoader.py:237 | one label per record, its encoded last cell, so there are as many labels as feature rows |
| `Cells.UsenetRecordRecovered` | data_management/DataLoader.py:235-237 | a record's features followed by its label give the encoded record |
| `Cells.UsenetHasNoTokens` | data_management/DataLoader.py:234-237 | no token is left in the Usenet features or labels |
| `Cells.UsenetRecordExample` | data_management/DataLoader.py:234-237 | the record `yes, f, tt, no, L` gives the features `1, 0, 1, 0` and keeps the label L as it is |
| `Cache.ReadPickle` | data_management/DataLoader.py:113-114 | loading succeeds exactly when the path holds a pickle, and returns that bundle; a missing file is reported as not found |
| `Cache.ReadCsv` | data_management/DataLoader.py:130 | reading succeeds exactly when the path holds a CSV file, and returns its records |
| `Cache.SaveAsWritten` | data_management/DataLoader.py:106-110 | as written: nothing happens when `path` exists; otherwise the bundle is written to `data_path` and no other path changes |
| `Cache.SaveAsWrittenMissesPath` | data_management/DataLoader.py:107-108 | as written, a save to a free path other than `data_path` leaves that path empty, overwrites the data file, and a second save overwrites it again |
| `Cache.SaveAsWrittenExample` | data_management/DataLoader.py:107-108 | caching the loader of `sea.csv` at `sea.pkl` destroys `sea.csv` and creates no `sea.pkl` |
| `Cache.SaveOnce` | data_management/DataLoader.py:106-110 | write-once: an existing file is kept, a free path gets the bundle, and no other path changes |
| `Cache.SaveOnceIsWriteOnce` | data_management/DataLoader.py:106-110 | a second save at the same path changes nothing |
| `Cache.SaveThenRead` | data_management/DataLoader.py:106-118 | a bundle saved at a free path is loaded back unchanged |
| `Loader.ClassesAround` | data_management/DataLoader.py:134 | the inventory of a vector is the inventory before index n, plus the one after it, plus the label at n |
| `Loader.InventoryCoversSplit` | data_management/DataLoader.py:133-135 | the inventory is exactly the classes of the historical part, plus those of the stream, plus the label of the dropped record |
| `Loader.DataLoader.Snapshot` | data_management/DataLoader.py:109 | the cached bundle holds exactly the four arrays |
| `Loader.DataLoader.constructor` | data_management/DataLoader.py:64-71 | keeps path and percentage; all four arrays and the inventory are `None` |
| `Loader.DataLoader.ReturnData` | data_management/DataLoader.py:73-78 | returns the stream arrays and changes nothing |
| `Loader.DataLoader.ReturnHistoricalData` | data_management/DataLoader.py:80-85 | returns the historical arrays and changes nothing |
| `Loader.DataLoader.GetClasses` | data_management/DataLoader.py:120-121 | returns the inventory and changes nothing |
| `Loader.DataLoader.SplitData` | data_management/DataLoader.py:87-95 | the new four arrays are the split of the old X and y at n = int(p * len(X)); the inventory is untouched; with X missing nothing changes; with y missing only `X_historical` is assigned; alignment is preserved |
| `Loader.DataLoader.LoadFromPickle` | data_management/DataLoader.py:112-118 | the four arrays become the cached ones and the inventory is left as it was; an unreadable cache changes nothing |
| `Loader.DataLoader.SaveData` | data_management/DataLoader.py:106-110 | corrected save: the file system after it is the write-once save of the four arrays at `path` |
| `Loader.DataLoader.SaveDataAsWritten` | data_management/DataLoader.py:106-110 | as written: the four arrays are written to `data_path` when `path` does not exist, and nothing happens otherwise |
| `Loader.DataLoader.LabelAndSplit` | data_management/DataLoader.py:133-135 | the inventory is that of the full label vector, taken before the split, and the arrays hold the split of features and labels |
| `Loader.DataLoader.LoadSea` | data_management/DataLoader.py:125-135 | from the cache: the arrays as cached, no inventory; from the CSV: the inventory of all labels, and the split of the SEA projection, aligned, failing as the scaler does when the historical part or the stream has no rows; each read error leaves the loader unchanged |
| `Loader.DataLoader.LoadUsenet` | data_management/DataLoader.py:228-239 | from the cache: the arrays as cached, no inventory; from the CSV: the inventory of all encoded labels, and the split of the encoded features and labels, aligned |
| `Loader.CachedCopy` | data_management/DataLoader.py:106-128 | with the corrected save: a loader that loads from the path another loader just saved to gets its four arrays back, but no class inventory |

## Left out

- Min-max normalisation (`normalization`, lines 97-104) is left out. It is floating-point arithmetic inside scikit-learn's `MinMaxScaler`, whose degenerate-range convention is not visible here.
- Loader.DataLoader.LoadSea: stops after the split. The normalisation of lines 136 and 138-139 is not applied, so the features it states are the unnormalised ones. Only the scaler's rejection of a part without rows is kept, as `Failed(EmptyForScaler)` (for p = 0, for p = 1, and for fewer than 5 records at 0.2). Its other input checks (no feature columns, non-finite values) are not modelled.
- Loader.DataLoader.LoadSea: does not enforce the four-column shape that `pd.read_csv(..., names=HEADER_NAMES['SEA'])` gives every record (line 130). pandas pads short records with NaN and moves surplus leading columns into the index; the model projects `row[1:3]` and the last cell of each record as given.
- Loader.DataLoader.ReturnData and Loader.DataLoader.ReturnHistoricalData: return the arrays as values. The source hands out the loader's own numpy arrays, so a caller's in-place write shows up in the loader; that aliasing is not modelled.
- The KDD Cup loader (lines 142-209) is left out. Its encoding rests on `pd.get_dummies`, `LabelEncoder` and the column order of `columns.difference`, none of which are visible here.
- CSV parsing (`pd.read_csv`) is left out. A CSV file is modelled by its parsed records, and the header names of lines 9-60 have no effect beyond the SEA column count (`Cells.SeaHeader`).
- Cells.Classes: `np.unique` returns a sorted array; the model gives the set of distinct labels. The order is not modelled, and neither is the `TypeError` numpy raises on labels of mixed types.
- Split.HistoricalCount: computes `p * len(X)` on exact reals. Float rounding can make Python's `int(p * len(X))` one smaller (0.29 * 100 is 28.999999999999996 in binary floating point).
- Cells.EncodeCell: the source maps `tt` to the integer `1` and the other tokens to floats. The model writes 1.0 for all of them, since Python compares the two as equal.
- Cache.ReadPickle: a pickle lacking one of the four keys, which Python reports only after assigning the keys before it, is not modelled. Neither are unpickling errors beyond "not a pickle", permissions or other I/O errors.
- `data_path` and `percentage_historical_data` are constants of the loader: the source never reassigns them.

## Findings

| source | as written | input that shows it | evidently intended | confidence | as-written member | corrected member |
|---|---|---|---|---|---|---|
| data_management/DataLoader.py:107-108 | `save_data(path)` tests whether `path` exists but opens and writes `self.data_path` | a loader of `sea.csv` saved with `path = "sea.pkl"`, a file that does not exist: the pickle overwrites `sea.csv`, `sea.pkl` is never created, and every later save overwrites again | write the bundle to `path`, once | high; not executed | `Cache.SaveAsWritten`, `Cache.SaveAsWrittenMissesPath`, `Cache.SaveAsWrittenExample`, `Loader.DataLoader.SaveDataAsWritten` | `Cache.SaveOnce`, `Cache.SaveOnceIsWriteOnce`, `Cache.SaveThenRead`, `Loader.DataLoader.SaveData` |
