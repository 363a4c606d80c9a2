/**
 * The course "personalizability" filter: before recommendations are computed for a
 * course, five sub-checks decide whether enough historic data exists. They run in a
 * fixed order and the filter stops at the first one that fails. Three of them follow a
 * "core tables first, else historic tables" policy against a constant minimum.
 *
 * The database helper is modelled as an object whose answers are fixed (`Tables`) and
 * whose ghost `log` records, in order, every query the filter issues.
 */
module CourseFilter {

  const MinimumWeeks: nat := 4
  const MinimumPreviousCourses: nat := 1
  const MinimumPreviousStudents: nat := 20
  /** An independent literal: it is not computed from MinimumPreviousStudents. */
  const MinimumPreviousResources: nat := 40

  /**
   * The answers of the database, as total functions of (course id, year). Missing data
   * reads as an empty id list or a zero count, never as an error.
   */
  datatype Tables = Tables(
    startYear: int -> int,
    previousTeachingIdsCore: (int, int) -> seq<int>,
    previousTeachingIdsHistoric: (int, int) -> seq<int>,
    resourcesCore: (int, int) -> nat,
    resourcesHistoric: (int, int) -> nat,
    studentsCore: (int, int) -> nat,
    studentsHistoric: (int, int) -> nat)

  /** One database query, with the arguments it was issued with. */
  datatype Query =
    | CourseStartWeekAndYear(course: int)
    | PreviousTeachingIdsCore(course: int, year: int)
    | PreviousTeachingIdsHistoric(course: int, year: int)
    | ResourcesNumberCore(course: int, year: int)
    | ResourcesNumberHistoric(course: int, year: int)
    | StudentsNumberCore(course: int, year: int)
    | StudentsNumberHistoric(course: int, year: int)

  /** The five sub-checks of the filter. */
  datatype Check = PreviousCourses | Weeks | Resources | Students | Variation

  /** The order in which the filter runs its sub-checks. */
  const CheckOrder: seq<Check> := [PreviousCourses, Weeks, Resources, Students, Variation]

  /** Count source of the filter: fixed answers plus a log of the queries asked so far. */
  class DatabaseHelper {
    const tables: Tables
    ghost var log: seq<Query>

    constructor (tables: Tables)
      ensures this.tables == tables && log == []
    {
      this.tables := tables;
      log := [];
    }

    method GetCourseStartYear(course: int) returns (year: int)
      modifies this`log
      ensures year == tables.startYear(course)
      ensures log == old(log) + [CourseStartWeekAndYear(course)]
    {
      year := tables.startYear(course);
      log := log + [CourseStartWeekAndYear(course)];
    }

    method FindCoursePreviousTeachingIdsCoreTables(course: int, year: int) returns (ids: seq<int>)
      modifies this`log
      ensures ids == tables.previousTeachingIdsCore(course, year)
      ensures log == old(log) + [PreviousTeachingIdsCore(course, year)]
    {
      ids := tables.previousTeachingIdsCore(course, year);
      log := log + [PreviousTeachingIdsCore(course, year)];
    }

    method FindCoursePreviousTeachingIdsHistoricTables(course: int, year: int) returns (ids: seq<int>)
      modifies this`log
      ensures ids == tables.previousTeachingIdsHistoric(course, year)
      ensures log == old(log) + [PreviousTeachingIdsHistoric(course, year)]
    {
      ids := tables.previousTeachingIdsHistoric(course, year);
      log := log + [PreviousTeachingIdsHistoric(course, year)];
    }

    method GetPreviousCoursesResourcesNumberCoreTables(course: int, year: int) returns (n: nat)
      modifies this`log
      ensures n == tables.resourcesCore(course, year)
      ensures log == old(log) + [ResourcesNumberCore(course, year)]
    {
      n := tables.resourcesCore(course, year);
      log := log + [ResourcesNumberCore(course, year)];
    }

    method GetPreviousCoursesResourcesNumberHistoricTables(course: int, year: int) returns (n: nat)
      modifies this`log
      ensures n == tables.resourcesHistoric(course, year)
      ensures log == old(log) + [ResourcesNumberHistoric(course, year)]
    {
      n := tables.resourcesHistoric(course, year);
      log := log + [ResourcesNumberHistoric(course, year)];
    }

    method GetPreviousCoursesStudentsNumberCoreTables(course: int, year: int) returns (n: nat)
      modifies this`log
      ensures n == tables.studentsCore(course, year)
      ensures log == old(log) + [StudentsNumberCore(course, year)]
    {
      n := tables.studentsCore(course, year);
      log := log + [StudentsNumberCore(course, year)];
    }

    method GetPreviousCoursesStudentsNumberHistoricTables(course: int, year: int) returns (n: nat)
      modifies this`log
      ensures n == tables.studentsHistoric(course, year)
      ensures log == old(log) + [StudentsNumberHistoric(course, year)]
    {
      n := tables.studentsHistoric(course, year);
      log := log + [StudentsNumberHistoric(course, year)];
    }
  }

  // ---------------------------------------------------------------------------
  // Specification of the sub-checks
  // ---------------------------------------------------------------------------

  /** The two-source policy: the primary count alone, or else the historic count alone. */
  function Fallback(primary: nat, historic: nat, minimum: nat): bool
  {
    primary >= minimum || historic >= minimum
  }

  /** The queries of a two-source sub-check: the historic one only when the primary misses. */
  function FallbackQueries(primary: Query, historic: Query, primaryCount: nat, minimum: nat): seq<Query>
  {
    if primaryCount >= minimum then [primary] else [primary, historic]
  }

  /** Duration check: a stub that always passes. */
  function MeetsMinimumWeeks(course: int): (pass: bool)
    ensures pass
  {
    true
  }

  /** Resource-variation check: a stub that always passes. */
  function MeetsResourceVariation(course: int): (pass: bool)
    ensures pass
  {
    true
  }

  /** Whether sub-check `k` passes for `course`, given the year the checks receive. */
  function Passes(t: Tables, course: int, year: int, k: Check): bool
  {
    match k
    case PreviousCourses =>
      Fallback(|t.previousTeachingIdsCore(course, year)|, |t.previousTeachingIdsHistoric(course, year)|,
               MinimumPreviousCourses)
    case Weeks => MeetsMinimumWeeks(course)
    case Resources =>
      Fallback(t.resourcesCore(course, year), t.resourcesHistoric(course, year), MinimumPreviousResources)
    case Students =>
      // As written: the fallback reads the historic RESOURCE count.
      Fallback(t.studentsCore(course, year), t.resourcesHistoric(course, year), MinimumPreviousStudents)
    case Variation => MeetsResourceVariation(course)
  }

  /** The queries sub-check `k` issues, in order. */
  function QueriesOf(t: Tables, course: int, year: int, k: Check): seq<Query>
  {
    match k
    case PreviousCourses =>
      FallbackQueries(PreviousTeachingIdsCore(course, year), PreviousTeachingIdsHistoric(course, year),
                      |t.previousTeachingIdsCore(course, year)|, MinimumPreviousCourses)
    case Weeks => []
    case Resources =>
      FallbackQueries(ResourcesNumberCore(course, year), ResourcesNumberHistoric(course, year),
                      t.resourcesCore(course, year), MinimumPreviousResources)
    case Students =>
      FallbackQueries(StudentsNumberCore(course, year), ResourcesNumberHistoric(course, year),
                      t.studentsCore(course, year), MinimumPreviousStudents)
    case Variation => []
  }

  /** The queries of a sequence of sub-checks, one after the other. */
  function QueriesOfAll(t: Tables, course: int, year: int, ks: seq<Check>): seq<Query>
  {
    if ks == [] then [] else QueriesOf(t, course, year, ks[0]) + QueriesOfAll(t, course, year, ks[1..])
  }

  /** The verdict of a run of sub-checks and the sub-checks that were actually invoked. */
  datatype Outcome = Outcome(pass: bool, ran: seq<Check>)

  /**
   * Runs `checks` in order and stops at the first failure: the verdict is the
   * conjunction of all of them, and the invoked ones are the prefix up to and including
   * the first failing check.
   */
  function Run(t: Tables, course: int, year: int, checks: seq<Check>): (o: Outcome)
    ensures |o.ran| <= |checks| && o.ran == checks[..|o.ran|]
    ensures o.pass <==> forall i :: 0 <= i < |checks| ==> Passes(t, course, year, checks[i])
    ensures o.pass ==> o.ran == checks
    ensures !o.pass ==>
              0 < |o.ran| && !Passes(t, course, year, o.ran[|o.ran| - 1]) &&
              forall i :: 0 <= i < |o.ran| - 1 ==> Passes(t, course, year, o.ran[i])
  {
    if checks == [] then Outcome(true, [])
    else if !Passes(t, course, year, checks[0]) then Outcome(false, [checks[0]])
    else
      var rest := Run(t, course, year, checks[1..]);
      Outcome(rest.pass, [checks[0]] + rest.ran)
  }

  /** What the filter decides for `course`: every check receives the course's own start year. */
  function Personalizable(t: Tables, course: int): Outcome
  {
    Run(t, course, t.startYear(course), CheckOrder)
  }

  // ---------------------------------------------------------------------------
  // The filter, as the source runs it
  // ---------------------------------------------------------------------------

  method MeetsMinimumPreviousCourses(course: int, currentYear: int, db: DatabaseHelper) returns (minimum: bool)
    modifies db`log
    ensures minimum == Passes(db.tables, course, currentYear, PreviousCourses)
    ensures db.log == old(db.log) + QueriesOf(db.tables, course, currentYear, PreviousCourses)
  {
    var previousCourses := db.FindCoursePreviousTeachingIdsCoreTables(course, currentYear);
    minimum := false;
    if |previousCourses| >= MinimumPreviousCourses {
      minimum := true;
    }
    if !minimum {
      previousCourses := db.FindCoursePreviousTeachingIdsHistoricTables(course, currentYear);
      if |previousCourses| >= MinimumPreviousCourses {
        minimum := true;
      }
    }
  }

  method MeetsMinimumResources(course: int, currentYear: int, db: DatabaseHelper) returns (minimum: bool)
    modifies db`log
    ensures minimum == Passes(db.tables, course, currentYear, Resources)
    ensures db.log == old(db.log) + QueriesOf(db.tables, course, currentYear, Resources)
  {
    var previousResourceNumber := db.GetPreviousCoursesResourcesNumberCoreTables(course, currentYear);
    minimum := false;
    if previousResourceNumber >= MinimumPreviousResources {
      minimum := true;
    }
    if !minimum {
      previousResourceNumber := db.GetPreviousCoursesResourcesNumberHistoricTables(course, currentYear);
      if previousResourceNumber >= MinimumPreviousResources {
        minimum := true;
      }
    }
  }

  /** As written: the fallback query is the historic resource count. */
  method MeetsMinimumPreviousStudents(course: int, currentYear: int, db: DatabaseHelper) returns (minimum: bool)
    modifies db`log
    ensures minimum == Passes(db.tables, course, currentYear, Students)
    ensures db.log == old(db.log) + QueriesOf(db.tables, course, currentYear, Students)
  {
    var previousStudents := db.GetPreviousCoursesStudentsNumberCoreTables(course, currentYear);
    minimum := false;
    if previousStudents >= MinimumPreviousStudents {
      minimum := true;
    }
    if !minimum {
      previousStudents := db.GetPreviousCoursesResourcesNumberHistoricTables(course, currentYear);
      if previousStudents >= MinimumPreviousStudents {
        minimum := true;
      }
    }
  }

  /**
   * Decides whether `course` is personalizable. The `year` argument is not used: every
   * year-dependent sub-check receives the start year fetched for the course. The ghost
   * result `invoked` lists the sub-checks that were called, in call order.
   */
  method IsCoursePersonalizable(course: int, year: int, db: DatabaseHelper)
    returns (personalizable: bool, ghost invoked: seq<Check>)
    modifies db`log
    ensures personalizable == Personalizable(db.tables, course).pass
    ensures invoked == Personalizable(db.tables, course).ran
    ensures db.log == old(db.log) + [CourseStartWeekAndYear(course)]
                      + QueriesOfAll(db.tables, course, db.tables.startYear(course), invoked)
  {
    personalizable := true;
    var courseStartYear := db.GetCourseStartYear(course);
    ghost var t, y := db.tables, courseStartYear;
    ghost var start := db.log;

    var meets := MeetsMinimumPreviousCourses(course, courseStartYear, db);
    personalizable := personalizable && meets;
    invoked := [PreviousCourses];
    QueriesOfAllAppend(t, course, y, [], PreviousCourses);
    assert Stage(t, course, y, personalizable, invoked, db.log, start, 1);

    if personalizable {
      meets := MeetsMinimumWeeks(course);
      personalizable := personalizable && meets;
      QueriesOfAllAppend(t, course, y, invoked, Weeks);
      invoked := invoked + [Weeks];
    }
    assert Stage(t, course, y, personalizable, invoked, db.log, start, 2);

    if personalizable {
      meets := MeetsMinimumResources(course, courseStartYear, db);
      personalizable := personalizable && meets;
      QueriesOfAllAppend(t, course, y, invoked, Resources);
      invoked := invoked + [Resources];
    }
    assert Stage(t, course, y, personalizable, invoked, db.log, start, 3);

    if personalizable {
      meets := MeetsMinimumPreviousStudents(course, courseStartYear, db);
      personalizable := personalizable && meets;
      QueriesOfAllAppend(t, course, y, invoked, Students);
      invoked := invoked + [Students];
    }
    assert Stage(t, course, y, personalizable, invoked, db.log, start, 4);

    if personalizable {
      meets := MeetsResourceVariation(course);
      personalizable := personalizable && meets;
      QueriesOfAllAppend(t, course, y, invoked, Variation);
      invoked := invoked + [Variation];
    }
    assert Stage(t, course, y, personalizable, invoked, db.log, start, 5);

    ProgressComplete(t, course, y, personalizable, invoked);
  }

  /**
   * The filter after its k-th `if`: its progress, the log so far, and, while every
   * check has passed, exactly k checks invoked.
   */
  ghost predicate Stage(t: Tables, course: int, year: int, pass: bool, invoked: seq<Check>,
                        log: seq<Query>, start: seq<Query>, k: nat)
  {
    Progress(t, course, year, pass, invoked)
    && log == start + QueriesOfAll(t, course, year, invoked)
    && (pass ==> |invoked| == k)
  }

  /**
   * The state of the filter after some of its calls: the checks invoked so far are a
   * prefix of CheckOrder, all but the last passed, and `pass` is the last one's verdict.
   */
  ghost predicate Progress(t: Tables, course: int, year: int, pass: bool, invoked: seq<Check>)
  {
    0 < |invoked| <= |CheckOrder| && invoked == CheckOrder[..|invoked|]
    && (forall i :: 0 <= i < |invoked| - 1 ==> Passes(t, course, year, invoked[i]))
    && pass == Passes(t, course, year, invoked[|invoked| - 1])
  }

  /** Once the filter stops (a failure, or all five checks run), its state is the outcome of Run. */
  lemma ProgressComplete(t: Tables, course: int, year: int, pass: bool, invoked: seq<Check>)
    requires Progress(t, course, year, pass, invoked)
    requires !pass || |invoked| == |CheckOrder|
    ensures Run(t, course, year, CheckOrder) == Outcome(pass, invoked)
  {
    if !pass {
      ShortCircuit(t, course, year, CheckOrder, |invoked| - 1);
    } else {
      assert invoked == CheckOrder;
    }
  }

  /** The queries of one more check come after those of the checks before it. */
  lemma {:induction false} QueriesOfAllAppend(t: Tables, course: int, year: int, ks: seq<Check>, k: Check)
    ensures QueriesOfAll(t, course, year, ks + [k]) == QueriesOfAll(t, course, year, ks) + QueriesOf(t, course, year, k)
  {
    if ks != [] {
      assert (ks + [k])[1..] == ks[1..] + [k];
      QueriesOfAllAppend(t, course, year, ks[1..], k);
    }
  }

  // ---------------------------------------------------------------------------
  // Properties
  // ---------------------------------------------------------------------------

  /** Run unfolded over the five checks of CheckOrder. */
  lemma RunOfCheckOrder(t: Tables, course: int, year: int)
    ensures var o := Run(t, course, year, CheckOrder);
      if !Passes(t, course, year, PreviousCourses) then o == Outcome(false, [PreviousCourses])
      else if !Passes(t, course, year, Weeks) then o == Outcome(false, [PreviousCourses, Weeks])
      else if !Passes(t, course, year, Resources) then o == Outcome(false, [PreviousCourses, Weeks, Resources])
      else if !Passes(t, course, year, Students) then o == Outcome(false, [PreviousCourses, Weeks, Resources, Students])
      else o == Outcome(Passes(t, course, year, Variation), CheckOrder)
  {
    var tail4: seq<Check> := [Variation];
    var tail3: seq<Check> := [Students, Variation];
    var tail2: seq<Check> := [Resources, Students, Variation];
    var tail1: seq<Check> := [Weeks, Resources, Students, Variation];
    assert tail4[1..] == [] && tail3[1..] == tail4 && tail2[1..] == tail3;
    assert tail1[1..] == tail2 && CheckOrder[1..] == tail1;
    var o4 := Run(t, course, year, tail4);
    var o3 := Run(t, course, year, tail3);
    var o2 := Run(t, course, year, tail2);
    var o1 := Run(t, course, year, tail1);
    assert o4 == Outcome(Passes(t, course, year, Variation), [Variation]);
    assert Passes(t, course, year, Students) ==> o3 == Outcome(o4.pass, [Students, Variation]);
    assert Passes(t, course, year, Resources) ==> o2 == Outcome(o3.pass, [Resources] + o3.ran);
    assert Passes(t, course, year, Weeks) ==> o1 == Outcome(o2.pass, [Weeks] + o2.ran);
  }

  /** QueriesOfAll unfolded over every prefix of CheckOrder. */
  lemma QueriesOfAllPrefixes(t: Tables, course: int, year: int)
    ensures QueriesOfAll(t, course, year, [PreviousCourses]) == QueriesOf(t, course, year, PreviousCourses)
    ensures QueriesOfAll(t, course, year, [PreviousCourses, Weeks]) == QueriesOf(t, course, year, PreviousCourses)
    ensures QueriesOfAll(t, course, year, [PreviousCourses, Weeks, Resources])
         == QueriesOf(t, course, year, PreviousCourses) + QueriesOf(t, course, year, Resources)
    ensures QueriesOfAll(t, course, year, [PreviousCourses, Weeks, Resources, Students])
         == QueriesOf(t, course, year, PreviousCourses) + QueriesOf(t, course, year, Resources)
            + QueriesOf(t, course, year, Students)
    ensures QueriesOfAll(t, course, year, CheckOrder)
         == QueriesOf(t, course, year, PreviousCourses) + QueriesOf(t, course, year, Resources)
            + QueriesOf(t, course, year, Students)
  {
    var p, r, s := QueriesOf(t, course, year, PreviousCourses), QueriesOf(t, course, year, Resources),
                   QueriesOf(t, course, year, Students);
    assert QueriesOfAll(t, course, year, [Variation]) == [];
    assert QueriesOfAll(t, course, year, [Students, Variation]) == s;
    assert QueriesOfAll(t, course, year, [Students]) == s;
    assert QueriesOfAll(t, course, year, [Resources, Students, Variation]) == r + s;
    assert QueriesOfAll(t, course, year, [Resources, Students]) == r + s;
    assert QueriesOfAll(t, course, year, [Resources]) == r;
    assert QueriesOfAll(t, course, year, [Weeks, Resources, Students, Variation]) == r + s;
    assert QueriesOfAll(t, course, year, [Weeks, Resources, Students]) == r + s;
    assert QueriesOfAll(t, course, year, [Weeks, Resources]) == r;
    assert QueriesOfAll(t, course, year, [Weeks]) == [];
    assert (p + r) + s == p + (r + s);
  }

  /** The course is personalizable exactly when all five sub-checks pass for its start year. */
  lemma PersonalizableIffAllPass(t: Tables, course: int)
    ensures var y := t.startYear(course);
      Personalizable(t, course).pass <==>
        Passes(t, course, y, PreviousCourses) && Passes(t, course, y, Weeks) && Passes(t, course, y, Resources)
        && Passes(t, course, y, Students) && Passes(t, course, y, Variation)
  {
    RunOfCheckOrder(t, course, t.startYear(course));
  }

  /**
   * Short-circuit: when sub-check `i` of a run is the first to fail, the run fails and
   * nothing after it is invoked.
   */
  lemma {:induction false} ShortCircuit(t: Tables, course: int, year: int, checks: seq<Check>, i: nat)
    requires i < |checks| && !Passes(t, course, year, checks[i])
    requires forall j :: 0 <= j < i ==> Passes(t, course, year, checks[j])
    ensures Run(t, course, year, checks) == Outcome(false, checks[..i + 1])
  {
    if i > 0 {
      ShortCircuit(t, course, year, checks[1..], i - 1);
      assert [checks[0]] + checks[1..][..i] == checks[..i + 1];
    }
  }

  /**
   * When no previous teaching is found, only the start-year query and the two teaching
   * id queries are issued, no other sub-check is invoked and the course is rejected.
   */
  lemma NoPreviousCoursesStopsEarly(t: Tables, course: int)
    requires |t.previousTeachingIdsCore(course, t.startYear(course))| < MinimumPreviousCourses
    requires |t.previousTeachingIdsHistoric(course, t.startYear(course))| < MinimumPreviousCourses
    ensures Personalizable(t, course) == Outcome(false, [PreviousCourses])
    ensures QueriesOfAll(t, course, t.startYear(course), Personalizable(t, course).ran)
         == [PreviousTeachingIdsCore(course, t.startYear(course)),
             PreviousTeachingIdsHistoric(course, t.startYear(course))]
  {
    RunOfCheckOrder(t, course, t.startYear(course));
    QueriesOfAllPrefixes(t, course, t.startYear(course));
  }

  /** The four thresholds are fixed literals; the resource one is not twice the student one by construction. */
  lemma Thresholds()
    ensures MinimumWeeks == 4 && MinimumPreviousCourses == 1
    ensures MinimumPreviousStudents == 20 && MinimumPreviousResources == 40
  {
  }

  /** The two counts of a two-source check are never added: each must reach the minimum alone. */
  lemma FallbackNeverSums(primary: nat, historic: nat, minimum: nat)
    ensures primary < minimum && historic < minimum ==> !Fallback(primary, historic, minimum)
  {
  }

  /** 39 core resources and 39 historic resources fail the resource check, although 39 + 39 >= 40. */
  lemma ResourcesNotSummed(t: Tables, course: int, year: int)
    requires t.resourcesCore(course, year) == 39 && t.resourcesHistoric(course, year) == 39
    ensures !Passes(t, course, year, Resources)
  {
  }

  /**
   * The historic query of a two-source check is issued exactly when the core count misses;
   * for the students check (as written) that query is the historic resource count.
   */
  lemma HistoricQueriedOnlyOnMiss(t: Tables, course: int, year: int)
    ensures PreviousTeachingIdsHistoric(course, year) in QueriesOf(t, course, year, PreviousCourses)
        <==> |t.previousTeachingIdsCore(course, year)| < MinimumPreviousCourses
    ensures ResourcesNumberHistoric(course, year) in QueriesOf(t, course, year, Resources)
        <==> t.resourcesCore(course, year) < MinimumPreviousResources
    ensures ResourcesNumberHistoric(course, year) in QueriesOf(t, course, year, Students)
        <==> t.studentsCore(course, year) < MinimumPreviousStudents
    ensures QueriesOf(t, course, year, PreviousCourses)[0] == PreviousTeachingIdsCore(course, year)
    ensures QueriesOf(t, course, year, Resources)[0] == ResourcesNumberCore(course, year)
    ensures QueriesOf(t, course, year, Students)[0] == StudentsNumberCore(course, year)
  {
  }

  // ---------------------------------------------------------------------------
  // The students fallback
  // ---------------------------------------------------------------------------

  /**
   * As written, the students check passes when the core student count reaches 20 or
   * the historic RESOURCE count does; the historic student count is never read.
   */
  lemma StudentsFallbackReadsResources(t: Tables, course: int, year: int)
    ensures Passes(t, course, year, Students)
        <==> t.studentsCore(course, year) >= MinimumPreviousStudents
             || t.resourcesHistoric(course, year) >= MinimumPreviousStudents
    ensures forall q :: q in QueriesOf(t, course, year, Students) ==> !q.StudentsNumberHistoric?
  {
  }

  /** The intended students check: the fallback reads the historic student count. */
  function PassesStudentsCorrected(t: Tables, course: int, year: int): bool
  {
    Fallback(t.studentsCore(course, year), t.studentsHistoric(course, year), MinimumPreviousStudents)
  }

  /** The intended students check, issuing the matching historic query. */
  method MeetsMinimumPreviousStudentsCorrected(course: int, currentYear: int, db: DatabaseHelper)
    returns (minimum: bool)
    modifies db`log
    ensures minimum == PassesStudentsCorrected(db.tables, course, currentYear)
    ensures db.log == old(db.log) + FallbackQueries(StudentsNumberCore(course, currentYear),
                                                    StudentsNumberHistoric(course, currentYear),
                                                    db.tables.studentsCore(course, currentYear),
                                                    MinimumPreviousStudents)
  {
    var previousStudents := db.GetPreviousCoursesStudentsNumberCoreTables(course, currentYear);
    minimum := false;
    if previousStudents >= MinimumPreviousStudents {
      minimum := true;
    }
    if !minimum {
      previousStudents := db.GetPreviousCoursesStudentsNumberHistoricTables(course, currentYear);
      if previousStudents >= MinimumPreviousStudents {
        minimum := true;
      }
    }
  }

  /**
   * The corrected check depends on student counts only: two databases that agree on the
   * core and historic student counts give the same verdict, whatever their resource counts.
   */
  lemma CorrectedStudentsReadsStudentCounts(t1: Tables, t2: Tables, course: int, year: int)
    requires t1.studentsCore(course, year) == t2.studentsCore(course, year)
    requires t1.studentsHistoric(course, year) == t2.studentsHistoric(course, year)
    ensures PassesStudentsCorrected(t1, course, year) == PassesStudentsCorrected(t2, course, year)
    ensures PassesStudentsCorrected(t1, course, year)
        <==> t1.studentsCore(course, year) >= MinimumPreviousStudents
             || t1.studentsHistoric(course, year) >= MinimumPreviousStudents
  {
  }

  /** Database with no core students, 25 historic students and no historic resources. */
  const StudentsOnlyInHistoricTables: Tables :=
    Tables(
      c => 2016,
      (c, y) => [], (c, y) => [],
      (c, y) => 0, (c, y) => 0,
      (c, y) => 0, (c, y) => 25)

  /**
   * The input that shows the discrepancy: 25 students in the historic tables fail the
   * students check as written, and pass the corrected one.
   */
  lemma StudentsFallbackCounterexample()
    ensures !Passes(StudentsOnlyInHistoricTables, 0, 2016, Students)
    ensures PassesStudentsCorrected(StudentsOnlyInHistoricTables, 0, 2016)
  {
    var t := StudentsOnlyInHistoricTables;
    assert t.studentsCore(0, 2016) == 0 && t.studentsHistoric(0, 2016) == 25;
    assert t.resourcesHistoric(0, 2016) == 0;
    StudentsFallbackReadsResources(t, 0, 2016);
  }
}
