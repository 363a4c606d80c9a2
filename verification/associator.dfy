/**
 * The associator: from the view vectors of the current users and of the historic users
 * it builds the association matrix, with the current users as rows, the historic users
 * as columns and, in each cell, the association coefficient of the two users.
 *
 * `IsAssociationsMatrix` is the shape every associator must produce;
 * `CreateAssociationsMatrix` is the cosine-similarity associator, proved to meet it.
 */
module Associator {
  import opened CosineSimilarity
  import ViewMatrix

  /** Association coefficients: current user id -> historic user id -> coefficient. */
  type AssociationMatrix = map<int, map<int, real>>

  /** Every current row and every historic row have the same length: one shared column space. */
  predicate SameColumns(current: map<int, seq<int>>, historic: map<int, seq<int>>)
  {
    forall u, h :: u in current && h in historic ==> |current[u]| == |historic[h]|
  }

  /** Every user has at least one view, so every module is non-zero. */
  predicate NonZeroRows(rows: map<int, seq<int>>)
  {
    forall u :: u in rows ==> SumOfSquares(rows[u]) > 0
  }

  /** The shape of an association matrix: one row per current user, one column per historic user. */
  ghost predicate IsAssociationsMatrix(current: map<int, seq<int>>, historic: map<int, seq<int>>,
                                       m: AssociationMatrix)
  {
    m.Keys == current.Keys && forall u :: u in m ==> m[u].Keys == historic.Keys
  }

  /**
   * The cosine-similarity associator: the cell of current user u and historic user h is
   * the cosine similarity of their view vectors, in [-1, 1] (in [0, 1] for view counts,
   * see CoefficientsOfViewCounts).
   */
  function CreateAssociationsMatrix(current: map<int, seq<int>>, historic: map<int, seq<int>>,
                                    sqrt: real -> real): (m: AssociationMatrix)
    requires IsSquareRoot(sqrt) && SameColumns(current, historic)
    requires NonZeroRows(current) && NonZeroRows(historic)
    ensures IsAssociationsMatrix(current, historic, m)
    ensures forall u, h :: u in current && h in historic ==>
              m[u][h] == Cosine(current[u], historic[h], sqrt)
    ensures forall u, h :: u in m && h in m[u] ==> -1.0 <= m[u][h] <= 1.0
  {
    map u | u in current :: map h | h in historic :: Cosine(current[u], historic[h], sqrt)
  }

  // ---------------------------------------------------------------------------
  // Properties
  // ---------------------------------------------------------------------------

  /** For view counts (no negative entry) every coefficient lies in [0, 1]. */
  lemma CoefficientsOfViewCounts(current: map<int, seq<int>>, historic: map<int, seq<int>>, sqrt: real -> real)
    requires IsSquareRoot(sqrt) && SameColumns(current, historic)
    requires NonZeroRows(current) && NonZeroRows(historic)
    requires ViewMatrix.NonNegativeRows(current) && ViewMatrix.NonNegativeRows(historic)
    ensures var m := CreateAssociationsMatrix(current, historic, sqrt);
      forall u, h :: u in m && h in m[u] ==> 0.0 <= m[u][h] <= 1.0
  {
    var m := CreateAssociationsMatrix(current, historic, sqrt);
    forall u, h | u in m && h in m[u] ensures 0.0 <= m[u][h] <= 1.0 {
      var a, b := current[u], historic[h];
      assert NonNegative(a) by {
        forall i | 0 <= i < |a| ensures 0 <= a[i] {
          assert 0 <= current[u][i];
        }
      }
      assert NonNegative(b) by {
        forall i | 0 <= i < |b| ensures 0 <= b[i] {
          assert 0 <= historic[h][i];
        }
      }
      assert m[u][h] == Cosine(a, b, sqrt);
    }
  }

  /** With no current users there are no rows; with no historic users every row is empty. */
  lemma EmptyInputs(current: map<int, seq<int>>, historic: map<int, seq<int>>, sqrt: real -> real)
    requires IsSquareRoot(sqrt) && SameColumns(current, historic)
    requires NonZeroRows(current) && NonZeroRows(historic)
    ensures current == map[] ==> CreateAssociationsMatrix(current, historic, sqrt) == map[]
    ensures historic == map[] ==>
              forall u :: u in current ==> CreateAssociationsMatrix(current, historic, sqrt)[u] == map[]
  {
    var m := CreateAssociationsMatrix(current, historic, sqrt);
    if current == map[] {
      assert m.Keys == {};
    }
    if historic == map[] {
      forall u | u in current ensures m[u] == map[] {
        assert m[u].Keys == {};
      }
    }
  }

  /**
   * Swapping the roles of the two groups transposes the matrix: the coefficient of
   * (u, h) is the coefficient of (h, u) once historic users are taken as current.
   */
  lemma AssociationsTranspose(current: map<int, seq<int>>, historic: map<int, seq<int>>, sqrt: real -> real)
    requires IsSquareRoot(sqrt) && SameColumns(current, historic)
    requires NonZeroRows(current) && NonZeroRows(historic)
    ensures SameColumns(historic, current)
    ensures forall u, h :: u in current && h in historic ==>
              CreateAssociationsMatrix(current, historic, sqrt)[u][h]
              == CreateAssociationsMatrix(historic, current, sqrt)[h][u]
  {
    var m := CreateAssociationsMatrix(current, historic, sqrt);
    var t := CreateAssociationsMatrix(historic, current, sqrt);
    forall u, h | u in current && h in historic ensures m[u][h] == t[h][u] {
      CosineSymmetric(current[u], historic[h], sqrt);
    }
  }

  /** Associating a group of users with itself puts 1 on the diagonal. */
  lemma SelfAssociationDiagonal(users: map<int, seq<int>>, sqrt: real -> real)
    requires IsSquareRoot(sqrt) && SameColumns(users, users) && NonZeroRows(users)
    ensures forall u :: u in users ==> CreateAssociationsMatrix(users, users, sqrt)[u][u] == 1.0
  {
    forall u | u in users ensures CreateAssociationsMatrix(users, users, sqrt)[u][u] == 1.0 {
      CosineWithItself(users[u], sqrt);
    }
  }

  /** Two matrices built over the same resource columns share their column space. */
  lemma TransformedMatricesComparable(currentLogs: seq<ViewMatrix.LogView>, historicLogs: seq<ViewMatrix.LogView>)
    requires ViewMatrix.TransformQueriedData(currentLogs).resources
          == ViewMatrix.TransformQueriedData(historicLogs).resources
    ensures SameColumns(ViewMatrix.TransformQueriedData(currentLogs).rows,
                        ViewMatrix.TransformQueriedData(historicLogs).rows)
  {
  }
}
