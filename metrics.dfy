/**
 * The model-analytics panel: the fetch started once on mount and its two
 * ways of settling, the guards that decide which sections render, and the
 * fixed placement of the confusion-matrix cells.
 */
module MetricsPanel {
  import opened Values
  import opened Maybe

  const LoadFailure := "Failed to load metrics. Make sure training has generated results.json and backend is running."

  class Panel {
    var loading: bool
    var error: string
    var metrics: Value
    /** Fetches started; the effect has an empty dependency list. */
    var fetches: nat
    var settled: bool

    ghost predicate Valid()
      reads this
    {
      && fetches == 1
      && (loading <==> !settled)
      && (!settled ==> metrics == Null && error == "")
      && (error == "" || (error == LoadFailure && metrics == Null))
    }

    /** Mounting starts the one fetch with `loading` set, no error and no metrics. */
    constructor ()
      ensures Valid()
      ensures loading && error == "" && metrics == Null && fetches == 1 && !settled
    {
      loading, error, metrics := true, "", Null;
      fetches, settled := 1, false;
    }

    /** The fetch answers: the data is stored and `loading` cleared. */
    method FetchSucceeded(data: Value)
      requires Valid() && !settled
      modifies this
      ensures Valid()
      ensures metrics == data && error == "" && !loading && settled && fetches == 1
    {
      metrics := data;
      loading := false;
      settled := true;
    }

    /** The fetch fails: the fixed message is set, `metrics` stays null and `loading` is cleared. */
    method FetchFailed()
      requires Valid() && !settled
      modifies this
      ensures Valid()
      ensures metrics == Null && error == LoadFailure && !loading && settled && fetches == 1
      ensures !ShowReport(loading, error, metrics)
    {
      error := LoadFailure;
      loading := false;
      settled := true;
    }
  }

  /** `metrics?.classification_report`. */
  function Report(metrics: Value): Value { Get(metrics, "classification_report") }

  /** `metrics?.confusion_matrix`. */
  function Matrix(metrics: Value): Value { Get(metrics, "confusion_matrix") }

  /** `!loading && !error && report`: the report section. */
  predicate ShowReport(loading: bool, error: string, metrics: Value) {
    !loading && error == "" && JsTruthy(Report(metrics))
  }

  /** `cm && Array.isArray(cm) && cm.length === 2`: the confusion-matrix block inside the report section. */
  function ShowMatrix(metrics: Value): (r: bool)
    ensures r <==> Matrix(metrics).Arr? && |Matrix(metrics).items| == 2
  {
    var cm := Matrix(metrics);
    JsTruthy(cm) && cm.Arr? && |cm.items| == 2
  }

  /** The confusion-matrix block renders: its guard holds inside a rendered report section. */
  predicate MatrixRenders(loading: bool, error: string, metrics: Value) {
    ShowReport(loading, error, metrics) && ShowMatrix(metrics)
  }

  /** A well-shaped matrix stays hidden when the response has no truthy classification report. */
  lemma MatrixNeedsReport(loading: bool, error: string, metrics: Value)
    requires ShowMatrix(metrics) && !JsTruthy(Report(metrics))
    ensures !MatrixRenders(loading, error, metrics)
  {
  }

  /** Once the panel has settled cleanly on a response with a report, the guard at the matrix alone decides. */
  lemma MatrixRendersWithReport(metrics: Value)
    requires JsTruthy(Report(metrics))
    ensures MatrixRenders(false, "", metrics) <==> Matrix(metrics).Arr? && |Matrix(metrics).items| == 2
  {
  }

  /** While loading, or after a failure, nothing of the report renders. */
  lemma NoReportUnlessSettledCleanly(loading: bool, error: string, metrics: Value)
    requires loading || error != "" || metrics == Null
    ensures !ShowReport(loading, error, metrics)
  {
  }

  /** `v[i]` for a row or column index: `None` where JavaScript throws, on `null` or `undefined`. */
  function Index(v: Value, i: nat): (r: Option<Value>)
    requires i < 2
    ensures r.None? <==> v.Null? || v.Undefined?
    ensures v.Arr? ==> r == Some(if i < |v.items| then v.items[i] else Undefined)
  {
    match v
    case Null => None
    case Undefined => None
    case Arr(items) => Some(if i < |items| then items[i] else Undefined)
    case Obj(_) => Some(Get(v, if i == 0 then "0" else "1"))
    case Str(s) => Some(if i < |s| then Str([s[i]]) else Undefined)
    case _ => Some(Undefined)
  }

  /** `cm[row][col]`. */
  function CellAt(cm: Value, row: nat, col: nat): Option<Value>
    requires row < 2 && col < 2
  {
    match Index(cm, row)
    case None => None
    case Some(r) => Index(r, col)
  }

  function ClassName(k: nat): string
    requires k < 2
  {
    if k == 0 then "Ham" else "Spam"
  }

  /** A quadrant of the rendered matrix: the caption under a cell, and the cell's row and column. */
  datatype Quadrant = Quadrant(caption: string, row: nat, col: nat)

  /** The four cells in rendering order. */
  const Quadrants: seq<Quadrant> := [
    Quadrant("True Ham", 0, 0), Quadrant("False Spam", 0, 1),
    Quadrant("False Ham", 1, 0), Quadrant("True Spam", 1, 1)
  ]

  /**
   * Rows are the actual class and columns the predicted one: each caption
   * says whether the prediction was right and names the predicted class,
   * and each of the four cells appears exactly once.
   */
  lemma QuadrantCaptions()
    ensures |Quadrants| == 4
    ensures forall k :: 0 <= k < 4 ==>
      && Quadrants[k].row < 2 && Quadrants[k].col < 2
      && Quadrants[k].caption == (if Quadrants[k].row == Quadrants[k].col then "True " else "False ") + ClassName(Quadrants[k].col)
    ensures forall a, b :: 0 <= a < b < 4 ==> (Quadrants[a].row, Quadrants[a].col) != (Quadrants[b].row, Quadrants[b].col)
  {
  }

  /** The table lists the classes in the order of the matrix rows. */
  const TableRows: seq<string> := ["Ham", "Spam"]

  lemma TableRowsFollowMatrix()
    ensures |TableRows| == 2 && forall k :: 0 <= k < 2 ==> TableRows[k] == ClassName(k)
  {
  }

  /** The cells of a matrix of the shape the training script writes are its four numbers. */
  lemma TwoByTwoCells(tn: real, fp: real, fn: real, tp: real, report: Value)
    ensures var cm := Arr([Arr([Num(tn), Num(fp)]), Arr([Num(fn), Num(tp)])]);
      var m := Obj(map["classification_report" := report, "confusion_matrix" := cm]);
      && ShowMatrix(m)
      && CellAt(cm, 0, 0) == Some(Num(tn)) && CellAt(cm, 0, 1) == Some(Num(fp))
      && CellAt(cm, 1, 0) == Some(Num(fn)) && CellAt(cm, 1, 1) == Some(Num(tp))
  {
  }

  /** Two rows pass the guard, but a `null` row makes `cm[0][0]` throw while rendering. */
  lemma NullRowPassesGuard(row: Value)
    ensures var m := Obj(map["confusion_matrix" := Arr([Null, row])]);
      ShowMatrix(m) && CellAt(Matrix(m), 0, 0).None?
  {
  }
}
