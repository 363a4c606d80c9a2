/**
 * The matrix transformation: the log views of the users of one course become a matrix
 * whose rows are the user ids, whose columns are the resource (module) ids and whose
 * values are the view counts.
 *
 * `IsViewMatrixOf` is the contract every transformation must meet;
 * `TransformQueriedData` is the dense decimal transformation, proved to meet it.
 */
module ViewMatrix {

  /** One row of the queried log views: how many times a user viewed a resource. */
  datatype LogView = LogView(user: int, resource: int, views: nat)

  /** A view matrix: the column order (resource ids) and, per user id, one row of view counts. */
  datatype Matrix = Matrix(resources: seq<int>, rows: map<int, seq<int>>)

  /** No id appears twice. */
  predicate Distinct(ids: seq<int>)
  {
    forall i, j :: 0 <= i < j < |ids| ==> ids[i] != ids[j]
  }

  /** The source of the log views never holds two records for the same (user, resource) pair. */
  predicate UniquePairs(records: seq<LogView>)
  {
    forall i, j :: 0 <= i < j < |records| ==>
      records[i].user != records[j].user || records[i].resource != records[j].resource
  }

  /** The user ids that appear in the log views. */
  function Users(records: seq<LogView>): set<int>
  {
    set rec | rec in records :: rec.user
  }

  /** The distinct resource ids of the log views, in order of first appearance. */
  function ResourceColumns(records: seq<LogView>): (cols: seq<int>)
    ensures Distinct(cols)
    ensures forall r :: r in cols <==> exists rec :: rec in records && rec.resource == r
  {
    if records == [] then []
    else
      var init := records[..|records| - 1];
      var last := records[|records| - 1];
      assert records == init + [last];
      var prefix := ResourceColumns(init);
      if last.resource in prefix then prefix else prefix + [last.resource]
  }

  /** The views of `user` on `resource`: those of the last matching record, 0 when none matches. */
  function ViewsOf(records: seq<LogView>, user: int, resource: int): (v: nat)
    ensures (forall rec :: rec in records ==> rec.user != user || rec.resource != resource) ==> v == 0
    ensures v != 0 ==> exists rec :: rec in records && rec.user == user && rec.resource == resource && rec.views == v
  {
    if records == [] then 0
    else
      var init := records[..|records| - 1];
      var last := records[|records| - 1];
      assert records == init + [last];
      if last.user == user && last.resource == resource then last.views
      else ViewsOf(init, user, resource)
  }

  /**
   * The contract of a matrix transformation: every user of the log views is a row,
   * every resource a column (each once), every row has one value per column, and the
   * value in row u, column r is u's view count for r.
   */
  ghost predicate IsViewMatrixOf(records: seq<LogView>, m: Matrix)
  {
    Distinct(m.resources)
    && (forall r :: r in m.resources <==> exists rec :: rec in records && rec.resource == r)
    && m.rows.Keys == Users(records)
    && (forall u :: u in m.rows ==> |m.rows[u]| == |m.resources|)
    && (forall u, j :: u in m.rows && 0 <= j < |m.resources| ==>
          m.rows[u][j] == ViewsOf(records, u, m.resources[j]))
  }

  /** Every entry of every row is a view count, so none is negative. */
  predicate NonNegativeRows(rows: map<int, seq<int>>)
  {
    forall u, j :: u in rows && 0 <= j < |rows[u]| ==> 0 <= rows[u][j]
  }

  /** The dense transformation: a missing (user, resource) pair reads 0. */
  function TransformQueriedData(records: seq<LogView>): (m: Matrix)
    ensures IsViewMatrixOf(records, m)
    ensures NonNegativeRows(m.rows)
  {
    var cols := ResourceColumns(records);
    Matrix(cols, map u | u in Users(records) ::
                   seq(|cols|, j requires 0 <= j < |cols| => ViewsOf(records, u, cols[j]) as int))
  }

  // ---------------------------------------------------------------------------
  // Properties
  // ---------------------------------------------------------------------------

  /** With unique pairs, the views of a record's own (user, resource) pair are that record's views. */
  lemma {:induction false} ViewsOfRecord(records: seq<LogView>, k: nat)
    requires UniquePairs(records) && k < |records|
    ensures ViewsOf(records, records[k].user, records[k].resource) == records[k].views
  {
    var init := records[..|records| - 1];
    var last := records[|records| - 1];
    if k < |records| - 1 {
      assert init[k] == records[k];
      assert last.user != records[k].user || last.resource != records[k].resource;
      assert UniquePairs(init) by {
        forall i, j | 0 <= i < j < |init|
          ensures init[i].user != init[j].user || init[i].resource != init[j].resource
        {
          assert init[i] == records[i] && init[j] == records[j];
        }
      }
      ViewsOfRecord(init, k);
    }
  }

  /** Every record shows up in the matrix: its user is a row, and its views sit in its resource's column. */
  lemma RecordInMatrix(records: seq<LogView>, k: nat)
    requires UniquePairs(records) && k < |records|
    ensures var m := TransformQueriedData(records);
      records[k].user in m.rows &&
      exists j :: 0 <= j < |m.resources| && m.resources[j] == records[k].resource
                  && m.rows[records[k].user][j] == records[k].views
  {
    var m := TransformQueriedData(records);
    var rec := records[k];
    assert rec in records;
    assert rec.user in m.rows;
    assert rec.resource in m.resources;
    var j :| 0 <= j < |m.resources| && m.resources[j] == rec.resource;
    ViewsOfRecord(records, k);
    assert m.rows[rec.user][j] == rec.views;
  }

  /** A (user, resource) pair with no record reads 0 in the matrix. */
  lemma MissingPairIsZero(records: seq<LogView>, u: int, j: nat)
    requires var m := TransformQueriedData(records); u in m.rows && j < |m.resources|
    requires forall rec :: rec in records ==>
               rec.user != u || rec.resource != TransformQueriedData(records).resources[j]
    ensures TransformQueriedData(records).rows[u][j] == 0
  {
  }

  /** No log views give a matrix with no rows and no columns. */
  lemma EmptyLogViews()
    ensures TransformQueriedData([]) == Matrix([], map[])
  {
    var m := TransformQueriedData([]);
    assert m.rows.Keys == {};
  }
}
