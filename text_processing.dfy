/** Turning the dataset dictionaries into a DataFrame with a combined text
    field, and the guards around the TF-IDF fit and the cosine similarity.
    The DataFrame is column-oriented, as in pandas: a row count and a map from
    column name to column. The scikit-learn calls are oracles whose outputs
    are constrained only by their shapes. */
module TextProcessing {
  import opened Common

  /** A dataset dictionary: column name -> value; `None` stands for Python's None. */
  type Record = map<string, Option<string>>

  /** A DataFrame column; `None` is a missing value (NaN). */
  type Column = seq<Option<string>>

  datatype Frame = Frame(length: nat, columns: map<string, Column>)

  /** Every column has one cell per row. */
  ghost predicate WellFormed(f: Frame) {
    forall c :: c in f.columns ==> |f.columns[c]| == f.length
  }

  /** `DataFrame.empty`: no rows or no columns. */
  predicate Empty(f: Frame) {
    f.length == 0 || |f.columns| == 0
  }

  const Title := "title"
  const ExperimentType := "experiment_type"
  const Summary := "summary"
  const Organism := "organism"
  const OverallDesign := "overall_design"
  const CombinedText := "combined_text"

  /** The text columns, in the order in which they are filled and combined. */
  const TextColumns: seq<string> := [Title, ExperimentType, Summary, Organism, OverallDesign]

  /** The value a record gives column `c`: missing keys are NaN. */
  function Cell(r: Record, c: string): Option<string> {
    if c in r then r[c] else None
  }

  /** The column names of `pd.DataFrame(records)`: every key of any record. */
  function KeysOf(records: seq<Record>): (ks: set<string>)
    ensures forall c :: c in ks <==> exists i :: 0 <= i < |records| && c in records[i]
  {
    if records == [] then {}
    else
      var n := |records| - 1;
      assert forall i :: 0 <= i < n ==> records[..n][i] == records[i];
      KeysOf(records[..n]) + records[n].Keys
  }

  function ColumnOf(records: seq<Record>, c: string): (col: Column)
    ensures |col| == |records| && forall i :: 0 <= i < |records| ==> col[i] == Cell(records[i], c)
  {
    seq(|records|, i requires 0 <= i < |records| => Cell(records[i], c))
  }

  /** `pd.DataFrame(records)`: one row per record, in order, and one column per key. */
  function FromRecords(records: seq<Record>): (f: Frame)
    ensures WellFormed(f) && f.length == |records| && f.columns.Keys == KeysOf(records)
    ensures forall c :: c in f.columns ==> f.columns[c] == ColumnOf(records, c)
  {
    Frame(|records|, map c | c in KeysOf(records) :: ColumnOf(records, c))
  }

  /** `column.fillna('')`. */
  function FillNa(col: Column): (r: Column)
    ensures |r| == |col| && forall i :: 0 <= i < |col| ==> r[i] == Some(col[i].GetOr(""))
  {
    seq(|col|, i requires 0 <= i < |col| => Some(col[i].GetOr("")))
  }

  /** The text a record contributes for column `c` once NaN has been blanked. */
  function TextOf(r: Record, c: string): string {
    Cell(r, c).GetOr("")
  }

  function Combine(title: string, experimentType: string, summary: string, organism: string, overallDesign: string): string {
    title + " " + experimentType + " " + summary + " " + organism + " " + overallDesign
  }

  /** The `combined_text` of one record. */
  function CombinedOf(r: Record): string {
    Combine(TextOf(r, Title), TextOf(r, ExperimentType), TextOf(r, Summary), TextOf(r, Organism), TextOf(r, OverallDesign))
  }

  /** Every existing text column with its missing values blanked; every
      other column as it was. */
  function Filled(df: Frame): (r: Frame)
    ensures r.length == df.length && r.columns.Keys == df.columns.Keys
    ensures WellFormed(df) ==> WellFormed(r)
    ensures forall c :: c in df.columns && c in TextColumns ==> r.columns[c] == FillNa(df.columns[c])
    ensures forall c :: c in df.columns && c !in TextColumns ==> r.columns[c] == df.columns[c]
  {
    df.(columns := map c | c in df.columns :: if c in TextColumns then FillNa(df.columns[c]) else df.columns[c])
  }

  /** The fill loop of `preprocess_datasets`, over the five text columns. */
  method FillTextColumns(df: Frame) returns (filled: Frame)
    ensures filled == Filled(df)
  {
    filled := df;
    var i := 0;
    while i < |TextColumns|
      invariant 0 <= i <= |TextColumns|
      invariant filled.length == df.length && filled.columns.Keys == df.columns.Keys
      invariant forall c :: c in df.columns ==>
                  filled.columns[c] == if c in TextColumns[..i] then FillNa(df.columns[c]) else df.columns[c]
    {
      var col := TextColumns[i];
      assert TextColumns[..i + 1] == TextColumns[..i] + [col];
      if col in filled.columns {
        filled := filled.(columns := filled.columns[col := FillNa(filled.columns[col])]);
      }
      i := i + 1;
    }
    assert TextColumns[..i] == TextColumns;
    assert filled.columns == Filled(df).columns;
  }

  lemma CombinedIsNotText()
    ensures CombinedText !in TextColumns
  {
  }

  /** The text columns are all among `keys`. */
  predicate CoversText(keys: set<string>) {
    forall c :: c in TextColumns ==> c in keys
  }

  /** The `combined_text` assignment: the five text columns joined row by row. */
  function WithCombined(df: Frame): (r: Result<Frame>)
    requires WellFormed(df)
    ensures r.Raised? <==> !CoversText(df.columns.Keys)
    ensures r.Raised? ==> r.error == KeyError
    ensures r.Ok? ==> CombinedText in r.value.columns && WellFormed(r.value)
    ensures r.Ok? ==> r.value == df.(columns := df.columns[CombinedText := r.value.columns[CombinedText]])
    ensures r.Ok? ==> |r.value.columns[CombinedText]| == df.length
    ensures r.Ok? ==> forall k :: 0 <= k < df.length ==>
              r.value.columns[CombinedText][k] ==
                Some(Combine(df.columns[Title][k].GetOr(""), df.columns[ExperimentType][k].GetOr(""),
                             df.columns[Summary][k].GetOr(""), df.columns[Organism][k].GetOr(""),
                             df.columns[OverallDesign][k].GetOr("")))
  {
    if !CoversText(df.columns.Keys) then Raised(KeyError)
    else
      var t, e, s, o, d := df.columns[Title], df.columns[ExperimentType], df.columns[Summary],
                           df.columns[Organism], df.columns[OverallDesign];
      var combined := seq(df.length, k requires 0 <= k < df.length =>
                            Some(Combine(t[k].GetOr(""), e[k].GetOr(""), s[k].GetOr(""), o[k].GetOr(""), d[k].GetOr(""))));
      Ok(df.(columns := df.columns[CombinedText := combined]))
  }

  /** What `preprocess_datasets` computes. */
  function Preprocessed(datasets: seq<Record>): Result<Frame> {
    if datasets == [] then Ok(Frame(0, map[]))
    else WithCombined(Filled(FromRecords(datasets)))
  }

  /** `preprocess_datasets`. */
  method PreprocessDatasets(datasets: seq<Record>) returns (r: Result<Frame>)
    ensures r == Preprocessed(datasets)
  {
    if datasets == [] {
      return Ok(Frame(0, map[]));
    }
    var df := FromRecords(datasets);
    df := FillTextColumns(df);
    r := WithCombined(df);
  }

  /** No records give the empty frame; otherwise the result is an exception
      (always `KeyError`) exactly when some text column is a key of no record. */
  lemma {:induction false} PreprocessedOutcome(datasets: seq<Record>)
    ensures datasets == [] ==> Preprocessed(datasets) == Ok(Frame(0, map[]))
    ensures datasets != [] ==> (Preprocessed(datasets).Raised? <==> !CoversText(KeysOf(datasets)))
    ensures Preprocessed(datasets).Raised? ==> Preprocessed(datasets).error == KeyError
  {
    if datasets != [] {
      assert WellFormed(Filled(FromRecords(datasets)));
    }
  }

  /** A frame from records has one row per record and a column for every key
      plus `combined_text`. */
  lemma {:induction false} PreprocessedShape(datasets: seq<Record>)
    requires datasets != [] && Preprocessed(datasets).Ok?
    ensures WellFormed(Preprocessed(datasets).value)
    ensures Preprocessed(datasets).value.length == |datasets|
    ensures Preprocessed(datasets).value.columns.Keys == KeysOf(datasets) + {CombinedText}
  {
    assert WellFormed(Filled(FromRecords(datasets)));
  }

  /** Row `i` of each text column is record `i`'s text, blanked when missing;
      every other column of the input is kept as given. */
  lemma {:induction false} PreprocessedColumns(datasets: seq<Record>, c: string, i: nat)
    requires i < |datasets| && Preprocessed(datasets).Ok?
    requires c in KeysOf(datasets) && c != CombinedText
    ensures Preprocessed(datasets).value.columns[c][i] == if c in TextColumns then Some(TextOf(datasets[i], c)) else Cell(datasets[i], c)
  {
    var df := Filled(FromRecords(datasets));
    assert WellFormed(df);
    assert Preprocessed(datasets).value.columns[c] == df.columns[c];
  }

  /** Row `i` of `combined_text` joins record `i`'s five text fields. */
  lemma {:induction false} PreprocessedCombined(datasets: seq<Record>, i: nat)
    requires i < |datasets| && Preprocessed(datasets).Ok?
    ensures CombinedText in Preprocessed(datasets).value.columns
    ensures Preprocessed(datasets).value.columns[CombinedText][i] == Some(CombinedOf(datasets[i]))
  {
    var df := Filled(FromRecords(datasets));
    assert WellFormed(df);
    assert df.columns[Title][i] == Some(TextOf(datasets[i], Title));
    assert df.columns[ExperimentType][i] == Some(TextOf(datasets[i], ExperimentType));
    assert df.columns[Summary][i] == Some(TextOf(datasets[i], Summary));
    assert df.columns[Organism][i] == Some(TextOf(datasets[i], Organism));
    assert df.columns[OverallDesign][i] == Some(TextOf(datasets[i], OverallDesign));
  }

  /** Number of space characters in `s`. */
  function Spaces(s: string): nat {
    if s == [] then 0 else Spaces(s[..|s| - 1]) + (if s[|s| - 1] == ' ' then 1 else 0)
  }

  lemma {:induction false} SpacesAppend(a: string, b: string)
    ensures Spaces(a + b) == Spaces(a) + Spaces(b)
  {
    if b == [] {
      assert a + b == a;
    } else {
      assert (a + b)[..|a + b| - 1] == a + b[..|b| - 1];
      SpacesAppend(a, b[..|b| - 1]);
    }
  }

  lemma SpacesJoin(a: string, b: string)
    ensures Spaces(a + " " + b) == Spaces(a) + 1 + Spaces(b)
  {
    assert Spaces(" ") == 1 by { assert " "[..0] == []; }
    SpacesAppend(a, " ");
    SpacesAppend(a + " ", b);
  }

  /** `combined_text` adds exactly four separators to the spaces of its five
      fields, and starts with the title followed by a space. */
  lemma CombinedSeparators(r: Record)
    ensures Spaces(CombinedOf(r)) == Spaces(TextOf(r, Title)) + Spaces(TextOf(r, ExperimentType))
              + Spaces(TextOf(r, Summary)) + Spaces(TextOf(r, Organism)) + Spaces(TextOf(r, OverallDesign)) + 4
    ensures CombinedOf(r)[..|TextOf(r, Title)| + 1] == TextOf(r, Title) + " "
  {
    var t, e, s, o, d := TextOf(r, Title), TextOf(r, ExperimentType), TextOf(r, Summary), TextOf(r, Organism), TextOf(r, OverallDesign);
    SpacesJoin(t, e);
    SpacesJoin(t + " " + e, s);
    SpacesJoin(t + " " + e + " " + s, o);
    SpacesJoin(t + " " + e + " " + s + " " + o, d);
    var rest := e + " " + s + " " + o + " " + d;
    assert CombinedOf(r) == (t + " ") + rest;
  }

  // ---------------------------------------------------------------------
  // create_tfidf_vectors
  // ---------------------------------------------------------------------

  /** A `TfidfVectorizer`, by its configuration. */
  datatype Vectorizer = Vectorizer(maxFeatures: Option<nat>, minDf: nat, maxDf: real,
                                   stopWords: Option<string>, ngramRange: (nat, nat))

  /** `TfidfVectorizer()`, returned unfitted when there is no text. */
  const DefaultVectorizer := Vectorizer(None, 1, 1.0, None, (1, 1))

  /** The configuration the pipeline fits. */
  const PipelineVectorizer := Vectorizer(Some(5000), 2, 0.7, Some("english"), (1, 2))

  datatype Tfidf = Tfidf(matrix: Matrix, features: seq<string>, vectorizer: Vectorizer)

  /** A fitted matrix: one row per document and one column per feature. */
  ghost predicate Shaped(m: Matrix, features: seq<string>, documents: nat) {
    |m| == documents && forall i :: 0 <= i < |m| ==> |m[i]| == |features|
  }

  /** What scikit-learn promises of `fit_transform` followed by
      `get_feature_names_out`: a well-shaped result, with no more features than
      `max_features`, or an exception. */
  ghost predicate FitContract(fit: (Vectorizer, Column) -> Result<(Matrix, seq<string>)>) {
    forall v, docs :: fit(v, docs).Ok? ==>
      && Shaped(fit(v, docs).value.0, fit(v, docs).value.1, |docs|)
      && (v.maxFeatures.Some? ==> |fit(v, docs).value.1| <= v.maxFeatures.value)
  }

  /** `create_tfidf_vectors`: without a `combined_text` column or without data
      the result is empty with an unfitted default vectorizer; otherwise the
      pipeline configuration is fitted on the `combined_text` column, giving
      one row per frame row and at most 5000 features (or the fit's exception). */
  function CreateTfidfVectors(df: Frame, fit: (Vectorizer, Column) -> Result<(Matrix, seq<string>)>): (r: Result<Tfidf>)
    requires WellFormed(df) && FitContract(fit)
    ensures CombinedText !in df.columns || Empty(df) ==> r == Ok(Tfidf([], [], DefaultVectorizer))
    ensures CombinedText in df.columns && !Empty(df) ==>
      && (r.Ok? <==> fit(PipelineVectorizer, df.columns[CombinedText]).Ok?)
      && (r.Ok? ==> && r.value.vectorizer == PipelineVectorizer
                    && Shaped(r.value.matrix, r.value.features, df.length)
                    && |r.value.features| <= 5000)
  {
    if CombinedText !in df.columns || Empty(df) then Ok(Tfidf([], [], DefaultVectorizer))
    else
      match fit(PipelineVectorizer, df.columns[CombinedText])
      case Raised(e) => Raised(e)
      case Ok((m, features)) => Ok(Tfidf(m, features, PipelineVectorizer))
  }

  // ---------------------------------------------------------------------
  // calculate_similarity_matrix
  // ---------------------------------------------------------------------

  /** Number of non-zero entries: `.size` of a sparse matrix counts its stored
      (non-zero) values, and is 0 for the empty array. */
  function NonZeros(m: Matrix): nat {
    if m == [] then 0 else NonZeros(m[..|m| - 1]) + RowNonZeros(m[|m| - 1])
  }

  function RowNonZeros(row: seq<real>): nat {
    if row == [] then 0 else RowNonZeros(row[..|row| - 1]) + (if row[|row| - 1] != 0.0 then 1 else 0)
  }

  /** The count is zero exactly when every entry is zero. */
  lemma {:induction false} NonZerosZero(m: Matrix)
    ensures NonZeros(m) == 0 <==> forall i, j :: 0 <= i < |m| && 0 <= j < |m[i]| ==> m[i][j] == 0.0
  {
    if m != [] {
      var n := |m| - 1;
      NonZerosZero(m[..n]);
      RowNonZerosZero(m[n]);
      assert forall i :: 0 <= i < n ==> m[..n][i] == m[i];
    }
  }

  lemma {:induction false} RowNonZerosZero(row: seq<real>)
    ensures RowNonZeros(row) == 0 <==> forall j :: 0 <= j < |row| ==> row[j] == 0.0
  {
    if row != [] {
      var n := |row| - 1;
      RowNonZerosZero(row[..n]);
      assert forall j :: 0 <= j < n ==> row[..n][j] == row[j];
    }
  }

  /** What `cosine_similarity(m)` promises: an n x n matrix for n rows. */
  ghost predicate CosineContract(cosine: Matrix -> Matrix) {
    forall m :: |cosine(m)| == |m| && forall i :: 0 <= i < |m| ==> |cosine(m)[i]| == |m|
  }

  /** `calculate_similarity_matrix`: empty for a matrix with no stored value,
      otherwise the cosine similarity, square with one row per input row. */
  function CalculateSimilarityMatrix(m: Matrix, cosine: Matrix -> Matrix): (r: Matrix)
    requires CosineContract(cosine)
    ensures NonZeros(m) == 0 ==> r == []
    ensures NonZeros(m) > 0 ==> && r == cosine(m) && 1 <= |r| == |m|
                                && forall i :: 0 <= i < |r| ==> |r[i]| == |m|
  {
    NonZerosZero(m);
    if NonZeros(m) == 0 then [] else cosine(m)
  }
}
