/**
 * The feature vector handed to the hotness model: the model's declared
 * feature count chooses the columns, and each column is read from the
 * feature dictionary with 0.0 for a missing entry.
 */
module Features {
  import opened Wrappers

  const BaseCols: seq<string> := ["access_1h", "access_24h", "size_bytes", "recency_s", "hour_of_day", "day_of_week"]
  const NoSizeCols: seq<string> := ["access_1h", "access_24h", "recency_s", "hour_of_day", "day_of_week"]
  const PartialCols: seq<string> := BaseCols + ["partial_upload"]
  /** The six columns of the second `n == 6` branch, which an earlier branch always pre-empts. */
  const NoSizePartialCols: seq<string> := NoSizeCols + ["partial_upload"]

  /** `_choose_cols`: the columns for a model declaring `n` features (`None` when it declares none). */
  function ChooseCols(n: Option<int>): seq<string> {
    if n == Some(6) then BaseCols
    else if n == Some(5) then NoSizeCols
    else if n == Some(7) then PartialCols
    else if n == Some(6) then NoSizePartialCols
    else BaseCols
  }

  /**
   * The column table: five columns without `size_bytes` for 5, seven ending
   * in `partial_upload` for 7, and the default six otherwise (6 included);
   * the column count matches a declared count of 5, 6 or 7; the second
   * six-column list is never chosen.
   */
  lemma ChooseColsTable(n: Option<int>)
    ensures n == Some(5) ==> ChooseCols(n) == NoSizeCols && "size_bytes" !in ChooseCols(n)
    ensures n == Some(7) ==> |ChooseCols(n)| == 7 && ChooseCols(n)[6] == "partial_upload"
    ensures n != Some(5) && n != Some(7) ==> ChooseCols(n) == BaseCols
    ensures n.Some? && 5 <= n.value <= 7 ==> |ChooseCols(n)| == n.value
    ensures ChooseCols(n) != NoSizePartialCols
  {
    assert BaseCols[2] != NoSizePartialCols[2];
  }

  /** A feature's value, 0.0 when the dictionary has no entry for it. */
  function Feature(feat: map<string, real>, col: string): real {
    if col in feat then feat[col] else 0.0
  }

  /** The feature vector for the columns `cols`: one entry per column, in column order. */
  function FeatureVector(feat: map<string, real>, cols: seq<string>): (x: seq<real>)
    ensures |x| == |cols|
    ensures forall i :: 0 <= i < |cols| ==> x[i] == (if cols[i] in feat then feat[cols[i]] else 0.0)
  {
    if cols == [] then [] else [Feature(feat, cols[0])] + FeatureVector(feat, cols[1..])
  }

  /** The model input of `predict_proba`: as many entries as the columns chosen, recent activity first. */
  lemma ModelInputShape(n: Option<int>, feat: map<string, real>)
    ensures var x := FeatureVector(feat, ChooseCols(n));
            && |x| == |ChooseCols(n)|
            && x[0] == Feature(feat, "access_1h") && x[1] == Feature(feat, "access_24h")
            && (n.Some? && 5 <= n.value <= 7 ==> |x| == n.value)
  {
    ChooseColsTable(n);
  }
}
