# Course recommendations: eligibility filter, view matrix and cosine associator

This project models the decision and arithmetic core of the `block_mycourse_recommendations`
Moodle block. The block recommends course resources to the students of a current course by
comparing how they view resources with how the students of the same course in earlier years
did.

- **Course filter** (`course_filter.dfy`, module `CourseFilter`). It decides whether a course
  is "personalizable". It runs five sub-checks in a fixed order and stops at the first
  failure: previous courses, weeks, resources, students, resource variation. Three of them
  read a count from Moodle's core tables first. When that count misses its minimum, they
  read the plugin's historic tables instead; the two counts are never added. The minimums
  are weeks 4, previous courses 1, students 20 and resources 40. The database helper is a
  class, `DatabaseHelper`, with fixed answers (`Tables`) and a ghost `log` of the queries
  issued, in order. So the contracts can state which sub-checks and which queries run.
- **Cosine arithmetic** (`cosine_similarity.dfy`, module `CosineSimilarity`). It models the
  dot product, the sum of squares, the vector "module" (Euclidean norm) and the cosine
  similarity. The module is the non-negative real whose square is the sum of squares. It
  is obtained from a `sqrt` parameter that is only required to be a square root
  (`IsSquareRoot`). The tested vectors are proved to give dot product 10806, a module
  within 0.0001 of 68.6367 and a similarity within 0.0001 of 0.9263.
- **Matrix transformation** (`view_matrix.dfy`, module `ViewMatrix`). Log views (user,
  resource, views) become a matrix: users are rows, resources are columns, views are the
  values. `IsViewMatrixOf` is the interface contract. `TransformQueriedData` is a dense
  transformation proved to meet it; a missing pair reads 0.
- **Associator** (`associator.dfy`, module `Associator`). It builds the association matrix
  from the current and historic view vectors: current users are rows, historic users are
  columns. `IsAssociationsMatrix` is the interface's shape. `CreateAssociationsMatrix` is
  the cosine-similarity associator, proved to meet it.

The two PHP interfaces are modelled as contract predicates that the concrete functions are
proved to satisfy, not as Dafny types with several implementations.

## Model

| member | source | states |
|---|---|---|
| CourseFilter.DatabaseHelper.constructor | classes/course_filter/course_filter.php:61 | a fresh database helper has the given answers and an empty query log |
| CourseFilter.DatabaseHelper.GetCourseStartYear | classes/course_filter/course_filter.php:64 | returns the course's start year and logs exactly that query |
| CourseFilter.DatabaseHelper.FindCoursePreviousTeachingIdsCoreTables | classes/course_filter/course_filter.php:111 | returns the core-table ids of previous teachings and logs exactly that query |
| CourseFilter.DatabaseHelper.FindCoursePreviousTeachingIdsHistoricTables | classes/course_filter/course_filter.php:120 | returns the historic-table ids of previous teachings and logs exactly that query |
| CourseFilter.DatabaseHelper.GetPreviousCoursesResourcesNumberCoreTables | classes/course_filter/course_filter.php:141 | returns the core resource count and logs exactly that query |
| CourseFilter.DatabaseHelper.GetPreviousCoursesResourcesNumberHistoricTables | classes/course_filter/course_filter.php:150 | returns the historic resource count and logs exactly that query |
| CourseFilter.DatabaseHelper.GetPreviousCoursesStudentsNumberCoreTables | classes/course_filter/course_filter.php:171 | returns the core student count and logs exactly that query |
| CourseFilter.DatabaseHelper.GetPreviousCoursesStudentsNumberHistoricTables | classes/course_filter/course_filter.php:180 | returns the historic student count and logs exactly that query; only the corrected students check calls it |
| CourseFilter.Thresholds | classes/course_filter/course_filter.php:41-44 | the minimums are the literals 4, 1, 20 and 40; the resource minimum is its own literal |
| CourseFilter.MeetsMinimumWeeks | classes/course_filter/course_filter.php:95-97 | the weeks check passes for every course |
| CourseFilter.MeetsResourceVariation | classes/course_filter/course_filter.php:198-200 | the resource-variation check passes for every course |
| CourseFilter.MeetsMinimumPreviousCourses | classes/course_filter/course_filter.php:110-128 | passes iff the core id list has at least 1 element or, failing that, the historic list has; the log gains the core query, then the historic query only when the core list misses |
| CourseFilter.MeetsMinimumResources | classes/course_filter/course_filter.php:140-158 | passes iff the core resource count reaches 40 or, failing that, the historic one does; the historic query is issued only when the core count misses |
| CourseFilter.MeetsMinimumPreviousStudents | classes/course_filter/course_filter.php:170-188 | as written: passes iff the core student count reaches 20 or, failing that, the historic resource count does; the log shows the historic resource query |
| CourseFilter.Passes | classes/course_filter/course_filter.php:95-200 | the verdict of each sub-check for a course and year: previous courses, resources and students by the core-else-historic policy against 1, 40 and 20 (students falling back to the historic resource count, as at line 180), weeks and variation always true |
| CourseFilter.QueriesOf | classes/course_filter/course_filter.php:110-188 | the queries each sub-check issues, in order: the core query, then the historic one only when the core count misses; none for weeks and variation |
| CourseFilter.Personalizable | classes/course_filter/course_filter.php:60-85 | the filter's outcome: the five sub-checks run in order on the course's fetched start year |
| CourseFilter.Run | classes/course_filter/course_filter.php:66-84 | running checks in order yields true iff every check passes; the checks invoked are a prefix of the order; on failure the last invoked check is the only one that failed |
| CourseFilter.IsCoursePersonalizable | classes/course_filter/course_filter.php:60-85 | result and invoked checks are those of the five checks run in order on the course's fetched start year, whatever `year` is; the log is the start-year query followed by the queries of the invoked checks only |
| CourseFilter.PersonalizableIffAllPass | classes/course_filter/course_filter.php:60-85 | a course is personalizable exactly when previous-courses, weeks, resources, students and variation all pass for its start year |
| CourseFilter.ShortCircuit | classes/course_filter/course_filter.php:66-82 | when check i is the first to fail, the run fails and invokes exactly checks 0..i |
| CourseFilter.NoPreviousCoursesStopsEarly | classes/course_filter/course_filter.php:66-68 | with no previous teaching in either table the course is rejected after the first check, and only the two teaching-id queries follow the start-year query |
| CourseFilter.FallbackNeverSums | classes/course_filter/course_filter.php:140-158 | two counts each below the minimum fail the two-source check, whatever their sum |
| CourseFilter.ResourcesNotSummed | classes/course_filter/course_filter.php:140-158 | 39 core resources and 39 historic resources fail the resource check |
| CourseFilter.HistoricQueriedOnlyOnMiss | classes/course_filter/course_filter.php:110-188 | for previous courses, resources and students the core query comes first and the historic query is issued iff the core count misses its minimum; for students that query is the historic resource count |
| CourseFilter.StudentsFallbackReadsResources | classes/course_filter/course_filter.php:170-188 | as written, the students check is decided by core students or historic resources against 20, and never queries historic students |
| CourseFilter.StudentsFallbackCounterexample | classes/course_filter/course_filter.php:180 | with 0 core students, 25 historic students and 0 historic resources, the check as written fails and the corrected one passes |
| CourseFilter.MeetsMinimumPreviousStudentsCorrected | classes/course_filter/course_filter.php:170-188 | corrected students check: passes iff core or else historic student count reaches 20, issuing the historic student query only on a miss |
| CourseFilter.CorrectedStudentsReadsStudentCounts | classes/course_filter/course_filter.php:170-188 | the corrected verdict depends only on the two student counts and is their two-source policy |
| CosineSimilarity.DotProduct | tests/cosine_similarity_associator_test.php:71-89 | the sum of a[i] * b[i] over the indexes 0 .. n - 1 of two vectors of equal length n; its properties are DotProductSymmetric, NonNegativeDotProduct, SumOfSquaresIsSelfDot and CauchySchwarz |
| CosineSimilarity.DotProductOfTestVectors | tests/cosine_similarity_associator_test.php:71-89 | the dot product of [1,5,67,14] and [7,71,154,9] is exactly 10806 |
| CosineSimilarity.DotProductSymmetric | tests/cosine_similarity_associator_test.php:73-86 | pairing elements by index and summing the products does not depend on argument order |
| CosineSimilarity.NonNegativeDotProduct | tests/cosine_similarity_associator_test.php:73-86 | the dot product of two view-count vectors is not negative |
| CosineSimilarity.SumOfSquares | tests/cosine_similarity_associator_test.php:91-105 | the sum of squares is non-negative, and zero iff every entry is zero |
| CosineSimilarity.SumOfSquaresIsSelfDot | tests/cosine_similarity_associator_test.php:91-105 | the sum of squares is the dot product of a vector with itself |
| CosineSimilarity.SumOfSquaresOfTestVectors | tests/cosine_similarity_associator_test.php:91-105 | the tested vectors have sums of squares 4711 and 28887 |
| CosineSimilarity.VectorModule | tests/cosine_similarity_associator_test.php:91-105 | the module is non-negative, its square is the sum of squares, and it is zero iff the vector is |
| CosineSimilarity.SquareRootUnique | tests/cosine_similarity_associator_test.php:91-105 | two non-negative reals with the same square are equal, so the module is determined |
| CosineSimilarity.ModuleOfTestVector | tests/cosine_similarity_associator_test.php:91-105 | the module of [1,5,67,14] is within 0.0001 of 68.6367 |
| CosineSimilarity.CauchySchwarz | tests/cosine_similarity_associator_test.php:108-127 | the squared dot product is at most the product of the two sums of squares |
| CosineSimilarity.Cosine | tests/cosine_similarity_associator_test.php:108-127 | the similarity lies in [-1, 1], its square is dot^2 / (sum-of-squares product), its sign is the dot product's, and it lies in [0, 1] for view counts |
| CosineSimilarity.CosineSymmetric | tests/cosine_similarity_associator_test.php:108-127 | the similarity does not depend on argument order |
| CosineSimilarity.CosineWithItself | tests/cosine_similarity_associator_test.php:108-127 | a non-zero vector has similarity 1 with itself |
| CosineSimilarity.CosineOfTestVectors | tests/cosine_similarity_associator_test.php:108-127 | the similarity of the two tested vectors is within 0.0001 of 0.9263 |
| ViewMatrix.ResourceColumns | classes/matrix/abstract_matrix.php:38-43 | the columns are the distinct resource ids of the log views, each once, and no other id |
| ViewMatrix.ViewsOf | classes/matrix/abstract_matrix.php:38-39 | a pair with no record reads 0; a non-zero value is the views of a record of that pair |
| ViewMatrix.IsViewMatrixOf | classes/matrix/abstract_matrix.php:37-45 | the contract of a matrix transformation: every user is a row, every distinct resource a column (each once), every row is as long as the columns, and each cell is that user's views of that resource |
| ViewMatrix.TransformQueriedData | classes/matrix/abstract_matrix.php:37-45 | meets the matrix contract: users are the rows, distinct resources the columns, every row is as long as the columns, each cell holds that user's views of that resource, and no cell is negative |
| ViewMatrix.ViewsOfRecord | classes/matrix/abstract_matrix.php:38-39 | with one record per pair, a record's own pair reads that record's views |
| ViewMatrix.RecordInMatrix | classes/matrix/abstract_matrix.php:38-43 | every log view appears in the matrix: its user is a row and its views sit in its resource's column |
| ViewMatrix.MissingPairIsZero | classes/matrix/abstract_matrix.php:38-39 | a (user, resource) cell without a record holds 0 |
| ViewMatrix.EmptyLogViews | classes/matrix/abstract_matrix.php:41-43 | no log views give a matrix with no rows and no columns |
| Associator.IsAssociationsMatrix | classes/associator/abstract_associator.php:37-46 | the shape of an association matrix: one row per current user and, in every row, one column per historic user |
| Associator.CreateAssociationsMatrix | classes/associator/abstract_associator.php:37-46 | one row per current user, one column per historic user, each cell the cosine similarity of the two users' views, every cell in [-1, 1] |
| Associator.CoefficientsOfViewCounts | classes/associator/abstract_associator.php:38-39 | for view counts every association coefficient lies in [0, 1] |
| Associator.EmptyInputs | classes/associator/abstract_associator.php:38-44 | no current users give no rows; no historic users give empty rows |
| Associator.AssociationsTranspose | classes/associator/abstract_associator.php:38-42 | swapping current and historic users transposes the matrix |
| Associator.SelfAssociationDiagonal | classes/associator/abstract_associator.php:38-39 | associating users with themselves puts 1 on the diagonal |
| Associator.TransformedMatricesComparable | classes/associator/abstract_associator.php:41-42 | two transformed matrices with the same resource columns give rows of equal length, as the associator requires |

## Findings

| source | as written | input that shows it | evidently intended | confidence | as-written member | corrected member |
|---|---|---|---|---|---|---|
| classes/course_filter/course_filter.php:180 | the students fallback reads the historic resource count | 0 core students, 25 historic students, 0 historic resources: the check fails | the fallback reads the historic student count, so that input passes | high; not executed | CourseFilter.StudentsFallbackCounterexample | CourseFilter.MeetsMinimumPreviousStudentsCorrected |

`IsCoursePersonalizable` and `Run` keep the code's behaviour at line 180, so the model
matches what the block does. The corrected check and its properties
(`PassesStudentsCorrected`, `CorrectedStudentsReadsStudentCounts`) sit beside it: there,
as in the other two two-source checks, the fallback reads the same metric as the primary
count.

## Left out

- IsCoursePersonalizable: PHP's `&=` turns `$personalizable` into the integer 0 or 1. The model returns a boolean with the same truth value.
- The database is not modelled as SQL. The start-year query is an opaque total function of the course id alone; every other helper query is an opaque total function of (course id, year) that returns an id list or a count. Missing data reads as empty or zero. The helper is `classes/db/database_helper.php`, which is not part of this model.
- IsCoursePersonalizable: the source builds a fresh database helper inside the call (course_filter.php:61); the model receives the helper from its caller, so the query log it extends may already hold earlier queries. `DatabaseHelper.constructor` states what a fresh helper starts with but is not called from the filter.
- Cosine: both vectors must be non-zero. The implementation file `classes/associator/cosine_similarity_associator.php` is not part of this model, and no shown code says what a zero module gives. Dividing by it is therefore excluded, not given a result.
- CreateAssociationsMatrix: every current and historic row must be non-zero and all rows must have the same length. This is the same zero-module exclusion, plus the shared column space the caller provides.
- VectorModule: the module is an exact real characterised by its square. The `sqrt` argument stands for the square root. Floating-point rounding of `sqrt` and of the division is not modelled; the tests' 0.0001 tolerance is proved against the exact reals.
- TransformQueriedData: the implementation file `classes/matrix/decimal_matrix.php` is not part of this model. This transformation is dense: every user row has a slot for every resource seen, a missing pair reads 0, and columns follow the first-seen order of resource ids. If a (user, resource) pair appeared twice, the last record would win; the log-view source never produces that (`UniquePairs`).
- User-row order: the rows of `ViewMatrix.Matrix` and of `Associator.AssociationMatrix` are keyed by user id in a map, so the order in which the PHP arrays keep user rows is not modelled; only the column order of resources is.
- The `$trace` progress-output parameter of `create_associations_matrix` is left out, because it only prints progress.
- The PHP interfaces are represented by contract predicates (`IsViewMatrixOf`, `IsAssociationsMatrix`) and one proved implementation each. Substituting other implementations at run time is not modelled.
- The CSV importer, the recommendations renderer (which caps lists at 3 items) and the import page are not part of this model: they are I/O, HTML and form handling around the core.
