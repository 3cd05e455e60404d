/** Collecting the assignments of every active course into one classified,
    recent list (src/services/canvasApi.ts, `getAllAssignments`). The network
    calls are inputs: the settled outcome of the course listing, and the
    settled outcome of the assignment listing of each course by course id. */
module Aggregator {
  import opened Wrappers
  import opened Seqs
  import opened Canvas
  import opened Classifier

  /** What a rejected request carried: an `Error` with its message, or some
      other thrown value. */
  datatype FetchError = ErrorMessage(message: string) | NonError

  /** The outcome of listing the assignments of one course, by course id. */
  type AssignmentFetch = int -> Result<seq<Assignment>, FetchError>

  /** One week in milliseconds: the look-back of the recency window. */
  const WeekMs: int := 7 * 24 * 60 * 60 * 1000

  /** Prefix of the error raised when the course listing fails. */
  const FailurePrefix: string := "Failed to fetch assignments: "

  /** The record built for a real assignment of a course: unselected, hidden
      exactly when it is due in class, labelled with the course's name. */
  function Classify(course: Course, a: Assignment): (x: AssignmentWithSelection)
    ensures x.assignment == a
    ensures !x.isSelected
    ensures x.isDueInClass == IsDueInClass(a)
    ensures x.isHidden == x.isDueInClass
    ensures x.courseName == Some(course.name)
  {
    var dueInClass := IsDueInClass(a);
    AssignmentWithSelection(a, false, Some(course.name), dueInClass, dueInClass)
  }

  /** The fields a freshly aggregated record carries for a real assignment of
      the course named `courseName`. */
  ghost predicate FreshlyClassified(x: AssignmentWithSelection, courseName: string)
  {
    && IsRealAssignment(x.assignment)
    && !x.isSelected
    && x.isDueInClass == IsDueInClass(x.assignment)
    && x.isHidden == x.isDueInClass
    && x.courseName == Some(courseName)
  }

  /** The records one course contributes: its real assignments, classified,
      in the order the API returned them; nothing when its request failed. */
  function CourseContribution(course: Course, outcome: Result<seq<Assignment>, FetchError>): (r: seq<AssignmentWithSelection>)
    ensures outcome.Failure? ==> r == []
    ensures outcome.Success? ==> |r| <= |outcome.value|
  {
    match outcome
    case Failure(_) => []
    case Success(assignments) =>
      var kept := Filter(IsRealAssignment, assignments);
      seq(|kept|, i requires 0 <= i < |kept| => Classify(course, kept[i]))
  }

  /** A course's records are exactly its real assignments, freshly classified:
      every record is one of them, and each of them has a record. */
  lemma ContributionClassified(course: Course, outcome: Result<seq<Assignment>, FetchError>)
    ensures forall x :: x in CourseContribution(course, outcome) ==>
      outcome.Success? && x.assignment in outcome.value && FreshlyClassified(x, course.name)
    ensures outcome.Success? ==>
      forall a :: a in outcome.value && IsRealAssignment(a) ==> Classify(course, a) in CourseContribution(course, outcome)
  {
    if outcome.Success? {
      var assignments := outcome.value;
      var kept := Filter(IsRealAssignment, assignments);
      var r := CourseContribution(course, outcome);
      forall a | a in assignments && IsRealAssignment(a)
        ensures Classify(course, a) in r
      {
        var i :| 0 <= i < |assignments| && assignments[i] == a;
        var k :| 0 <= k < |kept| && kept[k] == a;
        assert r[k] == Classify(course, a);
      }
      forall x | x in r
        ensures x.assignment in assignments && FreshlyClassified(x, course.name)
      {
        var k :| 0 <= k < |r| && r[k] == x;
        assert kept[k] in assignments;
      }
    }
  }

  /** A course's records keep the order the API returned its assignments in:
      the contribution of a listing is the contributions of its two halves,
      concatenated. */
  lemma ContributionAppend(course: Course, xs: seq<Assignment>, ys: seq<Assignment>)
    ensures CourseContribution(course, Success(xs + ys)) ==
      CourseContribution(course, Success(xs)) + CourseContribution(course, Success(ys))
  {
    var kx, ky := Filter(IsRealAssignment, xs), Filter(IsRealAssignment, ys);
    FilterAppend(IsRealAssignment, xs, ys);
    var both := CourseContribution(course, Success(xs + ys));
    var rx, ry := CourseContribution(course, Success(xs)), CourseContribution(course, Success(ys));
    assert |both| == |kx| + |ky| == |rx| + |ry|;
    forall k | 0 <= k < |both|
      ensures both[k] == (rx + ry)[k]
    {
      if k < |kx| {
        assert (kx + ky)[k] == kx[k];
      } else {
        assert (kx + ky)[k] == ky[k - |kx|];
      }
    }
  }

  /** A one-assignment listing contributes that assignment's record when it is
      real and nothing otherwise; with `ContributionAppend` this fixes the
      contribution of every listing. */
  lemma ContributionSingle(course: Course, a: Assignment)
    ensures CourseContribution(course, Success([a])) == if IsRealAssignment(a) then [Classify(course, a)] else []
  {
    assert [a][1..] == [];
  }

  /** The contribution of each course, given the per-course outcomes. */
  function Contribution(fetch: AssignmentFetch): Course -> seq<AssignmentWithSelection>
  {
    (course: Course) => CourseContribution(course, fetch(course.id))
  }

  /** The contributions of `courses`, concatenated in course order. */
  function Collect(courses: seq<Course>, fetch: AssignmentFetch): seq<AssignmentWithSelection>
  {
    FlatMap(Contribution(fetch), courses)
  }

  /** Collecting two runs of courses is collecting each and concatenating. */
  lemma CollectAppend(xs: seq<Course>, ys: seq<Course>, fetch: AssignmentFetch)
    ensures Collect(xs + ys, fetch) == Collect(xs, fetch) + Collect(ys, fetch)
  {
    FlatMapAppend(Contribution(fetch), xs, ys);
  }

  /** Every collected record is a freshly classified real assignment of one of
      the courses whose request succeeded, carried over unchanged. */
  lemma CollectClassified(courses: seq<Course>, fetch: AssignmentFetch)
    ensures forall x :: x in Collect(courses, fetch) ==>
      exists i :: (0 <= i < |courses| && fetch(courses[i].id).Success?
        && x.assignment in fetch(courses[i].id).value && FreshlyClassified(x, courses[i].name))
  {
    forall x | x in Collect(courses, fetch)
      ensures exists i :: (0 <= i < |courses| && fetch(courses[i].id).Success?
        && x.assignment in fetch(courses[i].id).value && FreshlyClassified(x, courses[i].name))
    {
      FlatMapMember(Contribution(fetch), courses, x);
      var i :| 0 <= i < |courses| && x in Contribution(fetch)(courses[i]);
      ContributionClassified(courses[i], fetch(courses[i].id));
    }
  }

  /** A course whose request fails contributes nothing and does not disturb
      what the other courses contribute. */
  lemma FailedCourseContributesNothing(before: seq<Course>, course: Course, after: seq<Course>, fetch: AssignmentFetch)
    requires fetch(course.id).Failure?
    ensures Collect(before + [course] + after, fetch) == Collect(before + after, fetch)
  {
    CollectAppend(before + [course], after, fetch);
    CollectAppend(before, [course], fetch);
    CollectAppend(before, after, fetch);
    assert Contribution(fetch)(course) == [];
    FlatMapEmpty(Contribution(fetch), [course]);
  }

  /** Every real assignment of a course whose request succeeded is collected,
      classified and labelled with that course's name. */
  lemma CollectComplete(courses: seq<Course>, fetch: AssignmentFetch, i: int, a: Assignment)
    requires 0 <= i < |courses| && fetch(courses[i].id).Success?
    requires a in fetch(courses[i].id).value && IsRealAssignment(a)
    ensures Classify(courses[i], a) in Collect(courses, fetch)
  {
    ContributionClassified(courses[i], fetch(courses[i].id));
    assert Classify(courses[i], a) in Contribution(fetch)(courses[i]);
    FlatMapMember(Contribution(fetch), courses, Classify(courses[i], a));
  }

  /** Course A's request fails and course B's returns two real assignments
      without due dates: the call succeeds with exactly B's two records. */
  lemma OneCourseFailingScenario(courseA: Course, courseB: Course, a1: Assignment, a2: Assignment, fetch: AssignmentFetch, now: int)
    requires fetch(courseA.id).Failure?
    requires fetch(courseB.id) == Success([a1, a2])
    requires IsRealAssignment(a1) && IsRealAssignment(a2)
    requires !a1.dueAt.IsTruthy() && !a2.dueAt.IsTruthy()
    ensures GetAllAssignments(Success([courseA, courseB]), fetch, now) == Success([Classify(courseB, a1), Classify(courseB, a2)])
  {
    var b := [Classify(courseB, a1), Classify(courseB, a2)];
    assert [a1, a2][1..] == [a2] && [a2][1..] == [];
    assert Filter(IsRealAssignment, [a1, a2]) == [a1, a2];
    assert Contribution(fetch)(courseB) == b;
    assert Contribution(fetch)(courseA) == [];
    assert [courseA] + [courseB] == [courseA, courseB];
    CollectAppend([courseA], [courseB], fetch);
    assert [courseA][1..] == [] && [courseB][1..] == [];
    assert Collect([courseA], fetch) == [];
    assert Collect([courseB], fetch) == b;
    assert Collect([courseA, courseB], fetch) == b;
    FilterAll(x => IsRecent(now, x), b);
    assert RecentOnly(b, now) == b;
  }

  /** The recency window: no due date (`null` or `""`), or a due date no more
      than a week before `now`. An unparseable date is an invalid `Date`, which
      compares false, so it is dropped. */
  predicate IsRecent(now: int, x: AssignmentWithSelection)
  {
    match x.assignment.dueAt
    case NoDue => true
    case BlankDue => true
    case DueOn(ms) => ms >= now - WeekMs
    case UnparseableDue => false
  }

  /** The records of `xs` inside the recency window, in their original order:
      a record is kept exactly when it has no due date or is due no earlier
      than a week before `now`. */
  function RecentOnly(xs: seq<AssignmentWithSelection>, now: int): (r: seq<AssignmentWithSelection>)
    ensures |r| <= |xs|
    ensures forall i :: 0 <= i < |r| ==> r[i] in xs && IsRecent(now, r[i])
    ensures forall i :: 0 <= i < |xs| ==> (xs[i] in r <==> IsRecent(now, xs[i]))
  {
    Filter(x => IsRecent(now, x), xs)
  }

  /** A record due ten days before `now` is dropped from the list, not merely hidden. */
  lemma StaleRecordDropped(xs: seq<AssignmentWithSelection>, now: int, i: int)
    requires 0 <= i < |xs| && xs[i].assignment.dueAt == DueOn(now - 10 * 24 * 60 * 60 * 1000)
    ensures xs[i] !in RecentOnly(xs, now)
  {
  }

  /** The recency window only removes records and keeps the relative order:
      it distributes over concatenation. */
  lemma RecentOnlyAppend(xs: seq<AssignmentWithSelection>, ys: seq<AssignmentWithSelection>, now: int)
    ensures RecentOnly(xs + ys, now) == RecentOnly(xs, now) + RecentOnly(ys, now)
  {
    FilterAppend(x => IsRecent(now, x), xs, ys);
  }

  /** `getAllAssignments`: fails, with the listing's message wrapped, only when
      the course listing fails; otherwise the recent records of all courses. */
  function GetAllAssignments(courses: Result<seq<Course>, FetchError>, fetch: AssignmentFetch, now: int): (r: Result<seq<AssignmentWithSelection>, string>)
    ensures courses.Failure? && courses.error.ErrorMessage? ==> r == Failure(FailurePrefix + courses.error.message)
    ensures courses.Failure? && courses.error.NonError? ==> r == Failure(FailurePrefix + "Unknown error")
    ensures courses.Success? <==> r.Success?
    ensures r.Success? ==> forall i :: 0 <= i < |r.value| ==> IsRecent(now, r.value[i]) && r.value[i] in Collect(courses.value, fetch)
  {
    match courses
    case Failure(ErrorMessage(m)) => Failure(FailurePrefix + m)
    case Failure(NonError) => Failure(FailurePrefix + "Unknown error")
    case Success(cs) => Success(RecentOnly(Collect(cs, fetch), now))
  }

  /** Every record returned is a freshly classified, recent, real assignment
      of a course whose request succeeded. */
  lemma AggregatedRecords(courses: seq<Course>, fetch: AssignmentFetch, now: int)
    ensures forall x :: x in GetAllAssignments(Success(courses), fetch, now).value ==>
      && IsRecent(now, x)
      && exists i :: (0 <= i < |courses| && fetch(courses[i].id).Success?
        && x.assignment in fetch(courses[i].id).value && FreshlyClassified(x, courses[i].name))
  {
    CollectClassified(courses, fetch);
  }

  /** Every real assignment of a course whose request succeeded, once inside
      the recency window, is returned, classified with that course's name. */
  lemma AggregatedComplete(courses: seq<Course>, fetch: AssignmentFetch, now: int, i: int, a: Assignment)
    requires 0 <= i < |courses| && fetch(courses[i].id).Success?
    requires a in fetch(courses[i].id).value && IsRealAssignment(a)
    requires IsRecent(now, Classify(courses[i], a))
    ensures Classify(courses[i], a) in GetAllAssignments(Success(courses), fetch, now).value
  {
    CollectComplete(courses, fetch, i, a);
    var all := Collect(courses, fetch);
    var k :| 0 <= k < |all| && all[k] == Classify(courses[i], a);
    assert all[k] in RecentOnly(all, now);
  }

  /** The returned list follows course order: the records of the earlier
      courses come first. */
  lemma AggregatedInCourseOrder(xs: seq<Course>, ys: seq<Course>, fetch: AssignmentFetch, now: int)
    ensures GetAllAssignments(Success(xs + ys), fetch, now).value ==
      GetAllAssignments(Success(xs), fetch, now).value + GetAllAssignments(Success(ys), fetch, now).value
  {
    CollectAppend(xs, ys, fetch);
    RecentOnlyAppend(Collect(xs, fetch), Collect(ys, fetch), now);
  }

  /** Courses whose requests all fail contribute nothing. */
  lemma CollectFailing(courses: seq<Course>, fetch: AssignmentFetch)
    requires forall i :: 0 <= i < |courses| ==> fetch(courses[i].id).Failure?
    ensures Collect(courses, fetch) == []
  {
    forall i | 0 <= i < |courses|
      ensures Contribution(fetch)(courses[i]) == []
    {
      assert fetch(courses[i].id).Failure?;
    }
    FlatMapEmpty(Contribution(fetch), courses);
  }

  /** When every course's request fails the call still succeeds, with nothing:
      only a failed course listing is an error. */
  lemma AllCoursesFailing(courses: seq<Course>, fetch: AssignmentFetch, now: int)
    requires forall i :: 0 <= i < |courses| ==> fetch(courses[i].id).Failure?
    ensures GetAllAssignments(Success(courses), fetch, now) == Success([])
  {
    CollectFailing(courses, fetch);
  }
}
