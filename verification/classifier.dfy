/** The two keyword classifiers of the API service
    (src/services/canvasApi.ts, `isDueInClass` and `isRealAssignment`). */
module Classifier {
  import opened Wrappers
  import opened Text
  import opened Canvas

  /** Indicators that an assignment is handed in or done during class. */
  const InClassKeywords: seq<string> := [
    "due in class",
    "in-class",
    "in class",
    "class discussion",
    "class participation",
    "attendance",
    "present in class",
    "class presentation",
    "oral presentation",
    "class activity",
    "class work",
    "classwork",
    "participation",
    "discussion post",
    "forum",
    "peer review",
    "group work",
    "lab work",
    "workshop"
  ]

  /** Indicators that an "assignment" is course content rather than work to hand in. */
  const NonAssignmentKeywords: seq<string> := [
    "syllabus",
    "course info",
    "course information",
    "welcome",
    "introduction",
    "getting started",
    "orientation",
    "announcement",
    "calendar",
    "schedule",
    "resources",
    "links",
    "extra credit",
    "bonus",
    "optional",
    "practice",
    "sample",
    "example",
    "template",
    "rubric"
  ]

  /** `assignment.description?.toLowerCase() || ''`: a missing description reads as empty. */
  function LowerDescription(a: Assignment): (r: string)
    ensures a.description.None? ==> r == ""
    ensures a.description.Some? ==> r == Lower(a.description.value)
  {
    Lower(a.description.GetOr(""))
  }

  /** The lower-cased name or description of `a` contains `keyword`. */
  ghost predicate Mentions(a: Assignment, keyword: string)
  {
    Occurs(Lower(a.name), keyword) || Occurs(LowerDescription(a), keyword)
  }

  /** Some keyword of `keywords` is mentioned by `a`. */
  ghost predicate MentionsAny(a: Assignment, keywords: seq<string>)
  {
    exists j :: 0 <= j < |keywords| && Mentions(a, keywords[j])
  }

  /** `keywords.some(k => name.includes(k) || description.includes(k))`. */
  predicate SomeKeyword(keywords: seq<string>, name: string, description: string)
  {
    exists j :: 0 <= j < |keywords| && (Includes(name, keywords[j]) || Includes(description, keywords[j]))
  }

  /** The search succeeds exactly when some keyword occurs in the name or in the description. */
  lemma SomeKeywordOccurs(keywords: seq<string>, name: string, description: string)
    ensures SomeKeyword(keywords, name, description) <==>
      exists j :: 0 <= j < |keywords| && (Occurs(name, keywords[j]) || Occurs(description, keywords[j]))
  {
    forall j | 0 <= j < |keywords|
      ensures Includes(name, keywords[j]) <==> Occurs(name, keywords[j])
      ensures Includes(description, keywords[j]) <==> Occurs(description, keywords[j])
    {
      IncludesOccurs(name, keywords[j]);
      IncludesOccurs(description, keywords[j]);
    }
  }

  /** `isDueInClass`: the lower-cased name or description mentions an in-class keyword. */
  function IsDueInClass(a: Assignment): bool
  {
    SomeKeyword(InClassKeywords, Lower(a.name), LowerDescription(a))
  }

  /** An assignment is due in class exactly when some in-class keyword occurs,
      as a substring, in its lower-cased name or description. */
  lemma DueInClassIffMentioned(a: Assignment)
    ensures IsDueInClass(a) <==> MentionsAny(a, InClassKeywords)
  {
    SomeKeywordOccurs(InClassKeywords, Lower(a.name), LowerDescription(a));
  }

  /** `isRealAssignment`: no deny-list keyword, a due date or a non-zero point
      value, and a submission type other than nothing or the lone tag "none".
      The checks run in the order `isRealAssignment` tests them; the first that
      fails rejects. */
  function IsRealAssignment(a: Assignment): (r: bool)
    ensures a.dueAt in {NoDue, BlankDue} && a.pointsPossible in {None, Some(0.0)} ==> !r
    ensures a.submissionTypes in {None, Some([]), Some(["none"])} ==> !r
    ensures r ==> a.submissionTypes.Some? && |a.submissionTypes.value| > 0
  {
    if SomeKeyword(NonAssignmentKeywords, Lower(a.name), LowerDescription(a)) then false
    else if !a.dueAt.IsTruthy() && !PointsTruthy(a.pointsPossible) then false
    else if
      || a.submissionTypes.None?
      || |a.submissionTypes.value| == 0
      || (|a.submissionTypes.value| == 1 && a.submissionTypes.value[0] == "none")
    then false
    else true
  }

  /** The three rejection rules are the only ones: an assignment is real
      exactly when it mentions no deny-list keyword, has a due date (not `null`
      or `""`) or a non-zero point value, and has a submission-type list that
      is neither empty nor exactly ["none"]. */
  lemma RealIffNoRuleRejects(a: Assignment)
    ensures IsRealAssignment(a) <==>
      && !MentionsAny(a, NonAssignmentKeywords)
      && (a.dueAt.DueOn? || a.dueAt.UnparseableDue? || (a.pointsPossible.Some? && a.pointsPossible.value != 0.0))
      && a.submissionTypes.Some? && a.submissionTypes.value != [] && a.submissionTypes.value != ["none"]
  {
    SomeKeywordOccurs(NonAssignmentKeywords, Lower(a.name), LowerDescription(a));
    if a.submissionTypes.Some? && |a.submissionTypes.value| == 1 && a.submissionTypes.value[0] == "none" {
      assert a.submissionTypes.value == ["none"];
    }
  }

  /** Wherever a word spelling a keyword (in any ASCII case) appears in the
      name or the description, the keyword is mentioned: matching is by
      substring, not by whole word. */
  lemma MentionedAnywhere(a: Assignment, prefix: string, word: string, suffix: string, keywords: seq<string>, j: int)
    requires 0 <= j < |keywords| && Lower(word) == keywords[j]
    requires a.name == prefix + word + suffix || a.description == Some(prefix + word + suffix)
    ensures MentionsAny(a, keywords)
  {
    LowerAppend(prefix + word, suffix);
    LowerAppend(prefix, word);
    OccursInside(Lower(prefix), keywords[j], Lower(suffix));
    assert Mentions(a, keywords[j]);
  }

  /** A deny-list keyword anywhere in the name or description, in any case,
      rejects the assignment whatever its other fields are. */
  lemma DenyKeywordRejects(a: Assignment, prefix: string, word: string, suffix: string, j: int)
    requires 0 <= j < |NonAssignmentKeywords| && Lower(word) == NonAssignmentKeywords[j]
    requires a.name == prefix + word + suffix || a.description == Some(prefix + word + suffix)
    ensures !IsRealAssignment(a)
  {
    MentionedAnywhere(a, prefix, word, suffix, NonAssignmentKeywords, j);
    RealIffNoRuleRejects(a);
  }

  /** An in-class keyword anywhere in the name or description, in any case,
      classifies the assignment as due in class. */
  lemma InClassKeywordClassifies(a: Assignment, prefix: string, word: string, suffix: string, j: int)
    requires 0 <= j < |InClassKeywords| && Lower(word) == InClassKeywords[j]
    requires a.name == prefix + word + suffix || a.description == Some(prefix + word + suffix)
    ensures IsDueInClass(a)
  {
    MentionedAnywhere(a, prefix, word, suffix, InClassKeywords, j);
    DueInClassIffMentioned(a);
  }

  /** A name containing "Syllabus" in any case is never a real assignment. */
  lemma SyllabusIsNeverReal(a: Assignment, prefix: string, word: string, suffix: string)
    requires Lower(word) == "syllabus"
    requires a.name == prefix + word + suffix
    ensures !IsRealAssignment(a)
  {
    DenyKeywordRejects(a, prefix, word, suffix, 0);
  }

  /** Only an empty list or the lone tag "none" is rejected: a list of two or
      more types that includes "none" anywhere passes the submission-type rule,
      so an otherwise qualifying assignment is real. */
  lemma NoneAmongOthersAccepted(a: Assignment)
    requires a.submissionTypes.Some? && |a.submissionTypes.value| >= 2 && "none" in a.submissionTypes.value
    requires !MentionsAny(a, NonAssignmentKeywords)
    requires a.dueAt.IsTruthy() || PointsTruthy(a.pointsPossible)
    ensures IsRealAssignment(a)
  {
    RealIffNoRuleRejects(a);
  }
}
