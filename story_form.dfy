/** StoryFormSchema: the validation of the story form, as a parse of already-typed field
    values into either the accepted values or the list of issues, in the order the schema
    reports them (fields in declaration order, then the minSP/maxSP refinement). */
module StoryForm {
  import opened Stories
  import opened SprintSearch
  import opened Timeline

  const MinTextLength: int := 2
  const MaxTextLength: int := 100
  const MinStoryPoints: int := 1
  const MaxStoryPoints: int := 8

  /** The form's fields; `epic`, `dependencies` and `priority` are optional. */
  datatype FormValues = FormValues(
    title: string,
    epic: Option<string>,
    minSP: int,
    maxSP: int,
    dependencies: Option<seq<string>>,
    priority: Option<Priority>)

  /** The path an issue is reported on. */
  datatype Field = Title | Epic | MinSP | MaxSP

  datatype Problem =
    | TooSmall(minimum: int)   // a length or a number below the minimum
    | TooBig(maximum: int)     // a length or a number above the maximum
    | MaxBelowMin              // "Max SP must be greater than or equal to Min SP"

  datatype Issue = Issue(path: Field, problem: Problem)

  datatype ParseResult = Success(data: FormValues) | Failure(issues: seq<Issue>)

  /** A `.min(lo).max(hi)` chain: one issue per bound the value breaks. */
  function RangeIssues(path: Field, value: int, lo: int, hi: int): (issues: seq<Issue>)
    ensures issues == [] <==> lo <= value <= hi
    ensures forall i :: i in issues ==> i.path == path && i.problem != MaxBelowMin
  {
    (if value < lo then [Issue(path, TooSmall(lo))] else []) +
    (if value > hi then [Issue(path, TooBig(hi))] else [])
  }

  /** The epic's preprocessing `val || undefined`: an empty epic counts as absent. */
  function PresentEpic(epic: Option<string>): (r: Option<string>)
    ensures r.Some? <==> epic.Some? && epic.value != ""
    ensures r.Some? ==> r == epic
  {
    match epic
    case Some(e) => if e == "" then None else epic
    case None => None
  }

  /** The issues of the field schemas. */
  function FieldIssues(v: FormValues): seq<Issue>
  {
    RangeIssues(Title, |v.title|, MinTextLength, MaxTextLength) +
    (match PresentEpic(v.epic)
     case Some(e) => RangeIssues(Epic, |e|, MinTextLength, MaxTextLength)
     case None => []) +
    RangeIssues(MinSP, v.minSP, MinStoryPoints, MaxStoryPoints) +
    RangeIssues(MaxSP, v.maxSP, MinStoryPoints, MaxStoryPoints)
  }

  /** The refinement, reported on the maxSP path. Typed field values never abort the
      object parse, so it runs even when a field check has failed. */
  function RefineIssues(v: FormValues): seq<Issue>
  {
    if v.minSP <= v.maxSP then [] else [Issue(MaxSP, MaxBelowMin)]
  }

  /** What an accepted form satisfies, written out bound by bound. */
  predicate WellFormed(v: FormValues)
  {
    MinTextLength <= |v.title| <= MaxTextLength &&
    (v.epic.Some? && v.epic.value != "" ==> MinTextLength <= |v.epic.value| <= MaxTextLength) &&
    MinStoryPoints <= v.minSP <= MaxStoryPoints &&
    MinStoryPoints <= v.maxSP <= MaxStoryPoints &&
    v.minSP <= v.maxSP
  }

  /** StoryFormSchema.safeParse. */
  function Parse(v: FormValues): (r: ParseResult)
    ensures r.Success? <==> WellFormed(v)
    ensures r.Success? ==> r.data == v.(epic := PresentEpic(v.epic))
    ensures r.Failure? ==> |r.issues| > 0
  {
    var issues := FieldIssues(v) + RefineIssues(v);
    if issues == [] then Success(v.(epic := PresentEpic(v.epic))) else Failure(issues)
  }

  /** minSP > maxSP is rejected with an issue on the maxSP path, and that is the only
      cause of a MaxBelowMin issue. */
  lemma RefineReportedOnMaxSP(v: FormValues)
    ensures v.minSP > v.maxSP ==> Parse(v).Failure? && Issue(MaxSP, MaxBelowMin) in Parse(v).issues
    ensures forall i :: Parse(v).Failure? && i in Parse(v).issues && i.problem == MaxBelowMin ==>
      v.minSP > v.maxSP && i.path == MaxSP
  {
    var issues := FieldIssues(v) + RefineIssues(v);
    forall i | i in issues && i.problem == MaxBelowMin ensures v.minSP > v.maxSP && i.path == MaxSP {
      assert i !in FieldIssues(v);
    }
  }

  /** An empty epic is treated exactly like a missing one. */
  lemma EmptyEpicIsAbsent(v: FormValues)
    ensures Parse(v.(epic := Some(""))) == Parse(v.(epic := None))
  {
  }

  /** The optional dependencies and priority never cause an issue. */
  lemma OptionalFieldsAccepted(v: FormValues, dependencies: Option<seq<string>>, priority: Option<Priority>)
    ensures Parse(v.(dependencies := dependencies, priority := priority)).Success? <==> Parse(v).Success?
  {
  }

  /** A story carrying an accepted form's story points fits into a sprint of one developer
      in either estimation mode, and its optimistic estimate is the smaller. */
  lemma AcceptedStoryFitsSprint(v: FormValues, story: Story, estimationType: Estimation)
    requires Parse(v).Success?
    requires story.minSP == v.minSP && story.maxSP == v.maxSP
    ensures 1 <= StoryPoints(story, estimationType) <= StoryPointsPerDeveloperPerSprint
    ensures StoryPoints(story, Min) <= StoryPoints(story, Max)
  {
  }

  /** Stories that all carry story points of accepted forms satisfy the scheduler's
      termination precondition for any team of at least one developer. */
  lemma AcceptedStoriesSchedulable(forms: seq<FormValues>, stories: seq<Story>, estimationType: Estimation, teamSize: int)
    requires teamSize >= 1 && |forms| == |stories|
    requires forall k :: 0 <= k < |forms| ==> Parse(forms[k]).Success?
    requires forall k :: 0 <= k < |forms| ==> stories[k].minSP == forms[k].minSP && stories[k].maxSP == forms[k].maxSP
    ensures Schedulable(stories, estimationType, teamSize)
  {
    forall s | s in stories ensures StoryPoints(s, estimationType) <= StoryPointsPerDeveloperPerSprint {
      var k :| 0 <= k < |stories| && stories[k] == s;
      AcceptedStoryFitsSprint(forms[k], s, estimationType);
    }
  }
}
