/**
 * Table cells and the per-row transforms the loaders apply before splitting:
 * the SEA column projection, the Usenet token map and the class inventory.
 */
module Cells {
  import opened Slices

  /** A value read from a CSV file: a number or a piece of text. */
  datatype Cell = Num(value: real) | Text(text: string)

  /** A parsed file: one sequence of cells per record. */
  type Table = seq<seq<Cell>>

  /** Every record has at least one cell, so its last column exists. */
  predicate HasLastColumn<T>(t: seq<seq<T>>)
  {
    forall i :: 0 <= i < |t| ==> |t[i]| > 0
  }

  // ---------------------------------------------------------------- classes

  /** `np.unique(y)`, taken as a set: the distinct labels occurring in `y`. */
  function Classes<T>(y: seq<T>): (c: set<T>)
    ensures forall i :: 0 <= i < |y| ==> y[i] in c
    ensures forall v :: v in c ==> v in y
  {
    if y == [] then {} else Classes(y[..|y| - 1]) + {y[|y| - 1]}
  }

  /** The classes of a concatenation are the classes of its parts. */
  lemma {:induction false} ClassesOfConcat<T>(a: seq<T>, b: seq<T>)
    ensures Classes(a + b) == Classes(a) + Classes(b)
  {
    if b == [] {
      assert a + b == a;
    } else {
      var b' := b[..|b| - 1];
      assert (a + b)[..|a + b| - 1] == a + b';
      ClassesOfConcat(a, b');
    }
  }

  // ---------------------------------------------------------------- SEA

  /** The column names the SEA file is read with. */
  const SeaHeader: seq<string> := ["attribute_1", "attribute_2", "attribute_3", "label"]

  /** The SEA feature matrix `sea_data[:, 1:3]`: columns 1 and 2 of every record. */
  function SeaFeatures<T>(raw: seq<seq<T>>): (x: seq<seq<T>>)
    ensures |x| == |raw|
    ensures forall i :: 0 <= i < |raw| && |raw[i]| == |SeaHeader| ==> x[i] == [raw[i][1], raw[i][2]]
  {
    seq(|raw|, i requires 0 <= i < |raw| => Slice(raw[i], 1, 3))
  }

  /** The label vector `data[:, -1]`: the last cell of every record. */
  function LastColumn<T>(raw: seq<seq<T>>): (y: seq<T>)
    requires HasLastColumn(raw)
    ensures |y| == |raw|
    ensures forall i :: 0 <= i < |raw| ==> y[i] == raw[i][|raw[i]| - 1]
  {
    seq(|raw|, i requires 0 <= i < |raw| => Last(raw[i]))
  }

  /**
   * A SEA record read with its four named columns is recovered from its
   * dropped column 0, its feature row and its label: nothing but column 0 is lost.
   */
  lemma SeaRecordRecovered<T>(raw: seq<seq<T>>, i: int)
    requires HasLastColumn(raw)
    requires 0 <= i < |raw| && |raw[i]| == |SeaHeader|
    ensures [raw[i][0]] + SeaFeatures(raw)[i] + [LastColumn(raw)[i]] == raw[i]
  {
  }

  // ---------------------------------------------------------------- Usenet

  /** The Usenet token table; `tt` is a typo in the data set and means "true". */
  const UsenetTokens: map<string, real> := map["no" := 0.0, "yes" := 1.0, "t" := 1.0, "f" := 0.0, "tt" := 1.0]

  /** A cell that the Usenet map rewrites. */
  predicate IsToken(c: Cell)
  {
    c.Text? && c.text in UsenetTokens
  }

  /** `DataFrame.replace` with the token table, on one cell. */
  function EncodeCell(c: Cell): (e: Cell)
    ensures !IsToken(e)
    ensures IsToken(c) <==> e != c
    ensures IsToken(c) ==> e == Num(0.0) || e == Num(1.0)
  {
    if IsToken(c) then Num(UsenetTokens[c.text]) else c
  }

  /** The five tokens and what they become. */
  lemma EncodeCellTokens()
    ensures EncodeCell(Text("no")) == Num(0.0) && EncodeCell(Text("f")) == Num(0.0)
    ensures EncodeCell(Text("yes")) == Num(1.0) && EncodeCell(Text("t")) == Num(1.0)
    ensures EncodeCell(Text("tt")) == Num(1.0)
  {
  }

  /** The token map applied to every cell of a record, label included. */
  function EncodeRow(row: seq<Cell>): (r: seq<Cell>)
    ensures |r| == |row|
    ensures forall j :: 0 <= j < |row| ==> r[j] == EncodeCell(row[j])
  {
    seq(|row|, j requires 0 <= j < |row| => EncodeCell(row[j]))
  }

  /** The token map applied to every cell of the table. */
  function EncodeTable(raw: Table): (t: Table)
    ensures |t| == |raw|
    ensures forall i :: 0 <= i < |raw| ==> t[i] == EncodeRow(raw[i])
  {
    seq(|raw|, i requires 0 <= i < |raw| => EncodeRow(raw[i]))
  }

  /** Encoding already-encoded data changes nothing. */
  lemma EncodeTableIdempotent(raw: Table)
    ensures EncodeTable(EncodeTable(raw)) == EncodeTable(raw)
  {
    var t := EncodeTable(raw);
    forall i | 0 <= i < |t|
      ensures EncodeRow(t[i]) == t[i]
    {
    }
  }

  /** The Usenet features `data[:, :-1]`: every encoded record without its last cell. */
  function UsenetFeatures(raw: Table): (x: Table)
    ensures |x| == |raw|
    ensures forall i :: 0 <= i < |raw| && |raw[i]| > 0 ==> |x[i]| == |raw[i]| - 1
    ensures forall i, j :: 0 <= i < |raw| && 0 <= j < |raw[i]| - 1 ==> x[i][j] == EncodeCell(raw[i][j])
  {
    var t := EncodeTable(raw);
    seq(|t|, i requires 0 <= i < |t| => Slice(t[i], 0, -1))
  }

  /** The Usenet labels `data[:, -1]`: the encoded last cell of every record. */
  function UsenetLabels(raw: Table): (y: seq<Cell>)
    requires HasLastColumn(raw)
    ensures |y| == |raw|
    ensures forall i :: 0 <= i < |raw| ==> y[i] == EncodeCell(Last(raw[i]))
  {
    LastColumn(EncodeTable(raw))
  }

  /** Features and label of a Usenet record put back together give the encoded record. */
  lemma UsenetRecordRecovered(raw: Table, i: int)
    requires HasLastColumn(raw)
    requires 0 <= i < |raw|
    ensures UsenetFeatures(raw)[i] + [UsenetLabels(raw)[i]] == EncodeRow(raw[i])
  {
  }

  /** No token survives in the Usenet features or labels. */
  lemma UsenetHasNoTokens(raw: Table)
    requires HasLastColumn(raw)
    ensures forall i, j :: 0 <= i < |raw| && 0 <= j < |UsenetFeatures(raw)[i]| ==> !IsToken(UsenetFeatures(raw)[i][j])
    ensures forall i :: 0 <= i < |raw| ==> !IsToken(UsenetLabels(raw)[i])
  {
  }

  /** A record `yes, f, tt, no, labelA` gives the features `1, 0, 1, 0` and keeps its label `name` verbatim. */
  lemma UsenetRecordExample(name: string)
    requires name !in UsenetTokens
    ensures var raw := [[Text("yes"), Text("f"), Text("tt"), Text("no"), Text(name)]];
      UsenetFeatures(raw) == [[Num(1.0), Num(0.0), Num(1.0), Num(0.0)]] &&
      UsenetLabels(raw) == [Text(name)]
  {
    var raw := [[Text("yes"), Text("f"), Text("tt"), Text("no"), Text(name)]];
    EncodeCellTokens();
    assert UsenetFeatures(raw)[0] == [Num(1.0), Num(0.0), Num(1.0), Num(0.0)];
  }
}
