/** The executable calculateTimeline and calculateProjectEndDate, proved against the
    functions of module Timeline. */
module TimelineCalculator {
  import opened Stories
  import opened Calendar
  import opened SprintSearch
  import opened Timeline

  /** The body of the forEach callback for a story whose dependencies are all completed:
      its latest dependency end date, its (developer, sprint) slot, its start and end dates. */
  method PlanStory(
    timeline: seq<TimelineStory>, developerSprintAssignments: Assignments, story: Story,
    startDate: int, estimationType: Estimation, teamSize: int)
    returns (entry: TimelineStory)
    requires teamSize >= 1 && StoryPoints(story, estimationType) <= StoryPointsPerDeveloperPerSprint
    ensures entry == ScheduledEntry(timeline, developerSprintAssignments, story, startDate, estimationType, teamSize)
  {
    var latestDependencyEndDate := startDate;
    if |story.dependencies| > 0 {
      var dependencyEndDates := DependencyEndDates(timeline, story.dependencies, startDate);
      latestDependencyEndDate := MaxDay(dependencyEndDates);
      latestDependencyEndDate := GetNextWorkingDay(latestDependencyEndDate);
    }
    assert latestDependencyEndDate == LatestDependencyEndDate(timeline, story.dependencies, startDate);

    var assignedDeveloper, sprintStartDate, storyPoints :=
      FindAvailableDeveloperAndSprint(story, latestDependencyEndDate, developerSprintAssignments, teamSize, estimationType);

    var storyStartDate := GetNextWorkingDay(latestDependencyEndDate);

    // the duration equals the story points, counted in calendar days
    var endDate := storyStartDate;
    var i := 0;
    while i < storyPoints - 1
      invariant 0 <= i <= (if storyPoints > 1 then storyPoints - 1 else 0)
      invariant endDate == storyStartDate + i
    {
      endDate := endDate + 1;
      i := i + 1;
    }
    if IsWeekend(endDate) {
      endDate := GetNextWorkingDay(endDate);
    }
    assert endDate == StoryEndDate(storyStartDate, storyPoints);

    entry := TimelineStory(story, storyStartDate, endDate, storyPoints, storyPoints,
                           assignedDeveloper + 1, sprintStartDate);
  }

  /** The state one calculateTimeline call keeps and its processStories closure updates:
      the timeline array, the completedStories set and the developerSprintAssignments map. */
  class Scheduler {
    const userStories: seq<Story>
    const startDate: int
    const estimationType: Estimation
    const teamSize: int
    var timeline: seq<TimelineStory>
    var completedStories: set<string>
    var developerSprintAssignments: Assignments

    ghost function Current(): State
      reads this
    {
      State(timeline, completedStories, developerSprintAssignments)
    }

    /** The inputs admit termination; ValidState of Current() is kept by the caller's loop. */
    ghost predicate Valid()
      reads this
    {
      Schedulable(userStories, estimationType, teamSize)
    }

    constructor (userStories: seq<Story>, startDate: int, estimationType: Estimation, teamSize: int)
      requires Schedulable(userStories, estimationType, teamSize)
      ensures this.userStories == userStories && this.startDate == startDate
      ensures this.estimationType == estimationType && this.teamSize == teamSize
      ensures Current() == Initial
      ensures Valid()
    {
      this.userStories := userStories;
      this.startDate := startDate;
      this.estimationType := estimationType;
      this.teamSize := teamSize;
      timeline := [];
      completedStories := {};
      developerSprintAssignments := map[];
    }

    /** The forEach callback of processStories for one story. */
    method VisitStory(story: Story) returns (scheduled: bool)
      requires Valid() && story in userStories
      modifies this
      ensures Valid()
      ensures Current() == Visit(old(Current()), story, startDate, estimationType, teamSize)
      ensures |old(timeline)| <= |timeline|
      ensures scheduled <==> |timeline| > |old(timeline)|
    {
      scheduled := false;
      if story.id in completedStories {
        return;
      }
      if AreDependenciesCompleted(story.dependencies, completedStories) {
        var entry := PlanStory(timeline, developerSprintAssignments, story, startDate, estimationType, teamSize);
        var assignedDeveloper := entry.assignedDeveloper - 1;
        if assignedDeveloper != -1 {
          developerSprintAssignments := developerSprintAssignments[(assignedDeveloper, entry.sprintStartDate) :=
            Booked(developerSprintAssignments, assignedDeveloper, entry.sprintStartDate) + entry.storyPoints];
          timeline := timeline + [entry];
          completedStories := completedStories + {story.id};
          scheduled := true;
        }
      }
    }

    /** processStories: one pass over all stories in input order; reports whether it scheduled any. */
    method ProcessStories() returns (hasProgress: bool)
      requires Valid()
      modifies this
      ensures Valid()
      ensures Current() == Pass(userStories, |userStories|, old(Current()), startDate, estimationType, teamSize)
      ensures hasProgress <==> |timeline| > |old(timeline)|
    {
      ghost var start := Current();
      hasProgress := false;
      var k := 0;
      while k < |userStories|
        invariant 0 <= k <= |userStories|
        invariant Current() == Pass(userStories, k, start, startDate, estimationType, teamSize)
        invariant |start.timeline| <= |timeline|
        invariant hasProgress <==> |timeline| > |start.timeline|
      {
        var scheduled := VisitStory(userStories[k]);
        hasProgress := hasProgress || scheduled;
        k := k + 1;
      }
    }
  }

  /** calculateTimeline. The source loops forever when teamSize <= 0 or a story's chosen
      points exceed the per-sprint capacity; both are excluded. What the result satisfies
      is proved about TimelineOf in module Timeline. */
  method CalculateTimeline(userStories: seq<Story>, startDate: int, estimationType: Estimation, teamSize: int)
    returns (timeline: seq<TimelineStory>)
    requires Schedulable(userStories, estimationType, teamSize)
    ensures timeline == TimelineOf(userStories, startDate, estimationType, teamSize)
  {
    var scheduler := new Scheduler(userStories, startDate, estimationType, teamSize);
    InitialValid(userStories, startDate, estimationType, teamSize);
    while |scheduler.completedStories| < |userStories|
      invariant scheduler.Valid()
      invariant scheduler.userStories == userStories && scheduler.startDate == startDate
      invariant scheduler.estimationType == estimationType && scheduler.teamSize == teamSize
      invariant ValidState(scheduler.Current(), userStories, startDate, estimationType, teamSize)
      invariant Run(userStories, scheduler.Current(), startDate, estimationType, teamSize)
             == Run(userStories, Initial, startDate, estimationType, teamSize)
      decreases StoryIds(userStories) - scheduler.completedStories
    {
      ghost var before := scheduler.Current();
      var progress := scheduler.ProcessStories();
      PassKeepsValid(userStories, |userStories|, before, startDate, estimationType, teamSize);
      if !progress {
        assert Run(userStories, before, startDate, estimationType, teamSize) == scheduler.Current();
        break;
      }
      assert Run(userStories, before, startDate, estimationType, teamSize)
          == Run(userStories, scheduler.Current(), startDate, estimationType, teamSize);
      ProgressShrinks(userStories, before, startDate, estimationType, teamSize);
    }
    timeline := scheduler.timeline;
  }

  /** calculateProjectEndDate: the latest end date of the timeline calculateTimeline
      returns, or the start date when that timeline is empty. */
  method CalculateProjectEndDate(userStories: seq<Story>, startDate: int, estimationType: Estimation, teamSize: int)
    returns (projectEnd: int)
    requires Schedulable(userStories, estimationType, teamSize)
    ensures projectEnd == ProjectEndDate(TimelineOf(userStories, startDate, estimationType, teamSize), startDate)
  {
    var timeline := CalculateTimeline(userStories, startDate, estimationType, teamSize);
    if |timeline| == 0 {
      return startDate;
    }
    projectEnd := MaxDay(EndDates(timeline));
  }
}
