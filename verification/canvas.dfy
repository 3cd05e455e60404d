/** The records exchanged with the learning-management API and kept by the
    store (src/types/canvas.ts). */
module Canvas {
  import opened Wrappers

  /** An assignment's `due_at` as it arrives: `null`, the empty string, a date
      string that parses to an instant (milliseconds since the epoch), or a
      non-empty string that does not parse (an invalid `Date`). */
  datatype DueAt = NoDue | BlankDue | DueOn(ms: int) | UnparseableDue {

    /** JavaScript truthiness of the `due_at` field: `null` and `""` are falsy. */
    predicate IsTruthy()
    {
      DueOn? || UnparseableDue?
    }
  }

  /** JavaScript truthiness of `points_possible`: `null` and `0` are falsy. */
  predicate PointsTruthy(points: Option<real>)
  {
    points.Some? && points.value != 0.0
  }

  datatype WorkflowState = Published | Unpublished

  /** An assignment as returned by the API. */
  datatype Assignment = Assignment(
    id: int,
    name: string,
    description: Option<string>,
    dueAt: DueAt,
    pointsPossible: Option<real>,
    courseId: int,
    htmlUrl: string,
    submissionTypes: Option<seq<string>>,
    hasSubmittedSubmissions: bool,
    workflowState: WorkflowState)

  /** A course the user is actively enrolled in. */
  datatype Course = Course(id: int, name: string, courseCode: string, workflowState: string)

  /** Where the API lives and the access token used to call it. */
  datatype ApiConfig = ApiConfig(baseUrl: string, apiKey: string)

  /** An assignment together with what the application derives and the user toggles. */
  datatype AssignmentWithSelection = AssignmentWithSelection(
    assignment: Assignment,
    isSelected: bool,
    courseName: Option<string>,
    isDueInClass: bool,
    isHidden: bool)
  {
    function Id(): int
    {
      assignment.id
    }
  }
}
