/** The scheduling engine: calculateTimeline books every story whose dependencies are
    done into a (developer, sprint) slot, pass after pass, until every story is completed
    or a pass makes no progress. */
module Timeline {
  import opened Stories
  import opened Calendar
  import opened SprintSearch

  /** A scheduled story: the input story plus its dates, points and booking. */
  datatype TimelineStory = TimelineStory(
    story: Story,
    startDate: int,
    endDate: int,
    duration: int,
    storyPoints: int,
    assignedDeveloper: int,   // 1-based
    sprintStartDate: int)

  /** The inputs the source needs to terminate: at least one developer, and no story
      whose chosen points exceed what one developer can take in a sprint. */
  predicate Schedulable(userStories: seq<Story>, estimationType: Estimation, teamSize: int)
  {
    teamSize >= 1 &&
    forall s :: s in userStories ==> StoryPoints(s, estimationType) <= StoryPointsPerDeveloperPerSprint
  }

  /** areDependenciesCompleted: `every` over the dependency list, left to right. */
  function AreDependenciesCompleted(dependencies: seq<string>, completedStories: set<string>): (r: bool)
    ensures r <==> forall dep :: dep in dependencies ==> dep in completedStories
  {
    if |dependencies| == 0 then true
    else
      assert forall dep :: dep in dependencies ==> dep == dependencies[0] || dep in dependencies[1..];
      dependencies[0] in completedStories && AreDependenciesCompleted(dependencies[1..], completedStories)
  }

  /** The ids of the scheduled stories. */
  ghost function Ids(timeline: seq<TimelineStory>): set<string>
  {
    set i | 0 <= i < |timeline| :: timeline[i].story.id
  }

  /** The ids of the input stories. */
  ghost function StoryIds(userStories: seq<Story>): set<string>
  {
    set s | s in userStories :: s.id
  }

  ghost predicate UniqueIds(timeline: seq<TimelineStory>)
  {
    forall i, j :: 0 <= i < j < |timeline| ==> timeline[i].story.id != timeline[j].story.id
  }

  /** `timeline.find((s) => s.id === id)`: the first scheduled story with that id. */
  function Find(timeline: seq<TimelineStory>, id: string): (r: Option<TimelineStory>)
    ensures r.Some? ==> r.value in timeline && r.value.story.id == id
    ensures r.None? ==> id !in Ids(timeline)
  {
    if |timeline| == 0 then None
    else if timeline[0].story.id == id then Some(timeline[0])
    else
      var r := Find(timeline[1..], id);
      assert r.None? ==> forall i :: 0 < i < |timeline| ==> timeline[i] == timeline[1..][i - 1];
      r
  }

  /** The end date of a dependency, or the project start when it is not scheduled. */
  function DependencyEndDate(timeline: seq<TimelineStory>, depId: string, startDate: int): int
  {
    match Find(timeline, depId)
    case Some(depStory) => depStory.endDate
    case None => startDate
  }

  /** `story.dependencies.map(...)`: the end date of each dependency. */
  function DependencyEndDates(timeline: seq<TimelineStory>, dependencies: seq<string>, startDate: int): seq<int>
  {
    seq(|dependencies|, i requires 0 <= i < |dependencies| => DependencyEndDate(timeline, dependencies[i], startDate))
  }

  /** `Math.max(...)` of a non-empty list of days. */
  function MaxDay(days: seq<int>): (m: int)
    requires |days| > 0
    ensures m in days
    ensures forall d :: d in days ==> d <= m
  {
    if |days| == 1 then days[0]
    else
      var rest := MaxDay(days[1..]);
      assert forall d :: d in days ==> d == days[0] || d in days[1..];
      if days[0] >= rest then days[0] else rest
  }

  /** latestDependencyEndDate: the project start for a story without dependencies,
      otherwise the working day after the latest dependency end. */
  ghost function LatestDependencyEndDate(timeline: seq<TimelineStory>, dependencies: seq<string>, startDate: int): int
  {
    if |dependencies| == 0 then startDate
    else NextWorkingDay(MaxDay(DependencyEndDates(timeline, dependencies, startDate)))
  }

  /** The end date: `storyPoints - 1` calendar days after the start, moved off a weekend. */
  ghost function StoryEndDate(storyStartDate: int, storyPoints: int): int
  {
    FirstWorkingDayFrom(storyStartDate + (if storyPoints > 1 then storyPoints - 1 else 0))
  }

  /** The timeline entry for an eligible story, given the timeline and bookings so far. */
  ghost function ScheduledEntry(
    timeline: seq<TimelineStory>, assignments: Assignments, story: Story,
    startDate: int, estimationType: Estimation, teamSize: int): TimelineStory
    requires teamSize >= 1 && StoryPoints(story, estimationType) <= StoryPointsPerDeveloperPerSprint
  {
    var latest := LatestDependencyEndDate(timeline, story.dependencies, startDate);
    var storyPoints := StoryPoints(story, estimationType);
    var slot := FindSlot(assignments, teamSize, storyPoints, SprintStart(latest));
    var storyStartDate := NextWorkingDay(latest);
    TimelineStory(story, storyStartDate, StoryEndDate(storyStartDate, storyPoints),
                  storyPoints, storyPoints, slot.0 + 1, slot.1)
  }

  /** The three pieces of state calculateTimeline updates in place. */
  datatype State = State(
    timeline: seq<TimelineStory>,
    completedStories: set<string>,
    developerSprintAssignments: Assignments)

  const Initial := State([], {}, map[])

  /** Booking an eligible story: append its entry, mark it completed, add its points to one key. */
  ghost function Schedule(st: State, story: Story, startDate: int, estimationType: Estimation, teamSize: int): State
    requires teamSize >= 1 && StoryPoints(story, estimationType) <= StoryPointsPerDeveloperPerSprint
  {
    var e := ScheduledEntry(st.timeline, st.developerSprintAssignments, story, startDate, estimationType, teamSize);
    var dev := e.assignedDeveloper - 1;
    State(st.timeline + [e],
          st.completedStories + {story.id},
          st.developerSprintAssignments[(dev, e.sprintStartDate) :=
            Booked(st.developerSprintAssignments, dev, e.sprintStartDate) + e.storyPoints])
  }

  /** One call of the forEach callback: skip a completed story, book an eligible one. */
  ghost function Visit(st: State, story: Story, startDate: int, estimationType: Estimation, teamSize: int): State
    requires teamSize >= 1 && StoryPoints(story, estimationType) <= StoryPointsPerDeveloperPerSprint
  {
    if story.id in st.completedStories then st
    else if AreDependenciesCompleted(story.dependencies, st.completedStories) then
      Schedule(st, story, startDate, estimationType, teamSize)
    else st
  }

  /** The state after processStories has visited userStories[..k]. */
  ghost function Pass(userStories: seq<Story>, k: nat, st: State, startDate: int, estimationType: Estimation, teamSize: int): State
    requires k <= |userStories| && Schedulable(userStories, estimationType, teamSize)
    decreases k
  {
    if k == 0 then st
    else Visit(Pass(userStories, k - 1, st, startDate, estimationType, teamSize), userStories[k - 1],
               startDate, estimationType, teamSize)
  }

  /** The points booked to (dev, sprint) by the scheduled stories (dev 0-based). */
  ghost function Load(timeline: seq<TimelineStory>, dev: int, sprint: int): int
    decreases |timeline|
  {
    if |timeline| == 0 then 0
    else
      var last := timeline[|timeline| - 1];
      Load(timeline[..|timeline| - 1], dev, sprint)
        + (if last.assignedDeveloper - 1 == dev && last.sprintStartDate == sprint then last.storyPoints else 0)
  }

  /** What holds of every scheduled story, given the stories scheduled before it. */
  ghost predicate WellScheduled(
    before: seq<TimelineStory>, e: TimelineStory, userStories: seq<Story>,
    startDate: int, estimationType: Estimation, teamSize: int)
  {
    var latest := LatestDependencyEndDate(before, e.story.dependencies, startDate);
    e.story in userStories &&
    1 <= e.assignedDeveloper <= teamSize &&
    e.storyPoints == StoryPoints(e.story, estimationType) &&
    e.duration == e.storyPoints &&
    (forall dep :: dep in e.story.dependencies ==> dep in Ids(before)) &&
    e.startDate == NextWorkingDay(latest) &&
    e.endDate == StoryEndDate(e.startDate, e.storyPoints) &&
    e.sprintStartDate >= SprintStart(latest)
  }

  /** Every entry is well scheduled, given the entries before it. */
  ghost predicate AllWellScheduled(
    t: seq<TimelineStory>, userStories: seq<Story>, startDate: int, estimationType: Estimation, teamSize: int)
    decreases |t|
  {
    |t| == 0 ||
    (AllWellScheduled(t[..|t| - 1], userStories, startDate, estimationType, teamSize) &&
     WellScheduled(t[..|t| - 1], t[|t| - 1], userStories, startDate, estimationType, teamSize))
  }

  lemma {:induction false} WellScheduledAt(
    t: seq<TimelineStory>, userStories: seq<Story>, startDate: int, estimationType: Estimation, teamSize: int, i: int)
    requires AllWellScheduled(t, userStories, startDate, estimationType, teamSize) && 0 <= i < |t|
    ensures WellScheduled(t[..i], t[i], userStories, startDate, estimationType, teamSize)
    decreases |t|
  {
    if i < |t| - 1 {
      var init := t[..|t| - 1];
      WellScheduledAt(init, userStories, startDate, estimationType, teamSize, i);
      assert init[..i] == t[..i] && init[i] == t[i];
    }
  }

  /** The invariant of calculateTimeline's state. */
  ghost predicate ValidState(st: State, userStories: seq<Story>, startDate: int, estimationType: Estimation, teamSize: int)
  {
    st.completedStories == Ids(st.timeline) &&
    UniqueIds(st.timeline) &&
    AllWellScheduled(st.timeline, userStories, startDate, estimationType, teamSize) &&
    (forall dev, sprint :: Booked(st.developerSprintAssignments, dev, sprint) == Load(st.timeline, dev, sprint)) &&
    (forall dev, sprint :: Load(st.timeline, dev, sprint) <= StoryPointsPerDeveloperPerSprint)
  }

  lemma InitialValid(userStories: seq<Story>, startDate: int, estimationType: Estimation, teamSize: int)
    ensures ValidState(Initial, userStories, startDate, estimationType, teamSize)
  {
  }

  lemma IdsAppend(timeline: seq<TimelineStory>, e: TimelineStory)
    ensures Ids(timeline + [e]) == Ids(timeline) + {e.story.id}
  {
    var t := timeline + [e];
    forall id | id in Ids(t) ensures id in Ids(timeline) + {e.story.id} {
      var i :| 0 <= i < |t| && t[i].story.id == id;
      if i < |timeline| { assert timeline[i] == t[i]; }
    }
    forall id | id in Ids(timeline) ensures id in Ids(t) {
      var i :| 0 <= i < |timeline| && timeline[i].story.id == id;
      assert t[i] == timeline[i];
    }
    assert t[|timeline|] == e;
  }

  lemma LoadAppend(timeline: seq<TimelineStory>, e: TimelineStory, dev: int, sprint: int)
    ensures Load(timeline + [e], dev, sprint)
         == Load(timeline, dev, sprint)
            + (if e.assignedDeveloper - 1 == dev && e.sprintStartDate == sprint then e.storyPoints else 0)
  {
    assert (timeline + [e])[..|timeline|] == timeline;
  }

  /** Appending a story whose id is new keeps ids unique. */
  lemma UniqueIdsAppend(t: seq<TimelineStory>, e: TimelineStory)
    requires UniqueIds(t) && e.story.id !in Ids(t)
    ensures UniqueIds(t + [e])
  {
    var t' := t + [e];
    forall i, j | 0 <= i < j < |t'| ensures t'[i].story.id != t'[j].story.id {
      assert t'[i] == t[i];
      if j < |t| {
        assert t'[j] == t[j];
      }
    }
  }

  lemma WellScheduledAppend(
    t: seq<TimelineStory>, e: TimelineStory, userStories: seq<Story>,
    startDate: int, estimationType: Estimation, teamSize: int)
    requires AllWellScheduled(t, userStories, startDate, estimationType, teamSize)
    requires WellScheduled(t, e, userStories, startDate, estimationType, teamSize)
    ensures AllWellScheduled(t + [e], userStories, startDate, estimationType, teamSize)
  {
    assert (t + [e])[..|t|] == t;
  }

  /** Booking an entry into a slot where it fits keeps bookings equal to loads, within capacity. */
  lemma LoadsAppend(t: seq<TimelineStory>, a: Assignments, e: TimelineStory)
    requires forall dev, sprint :: Booked(a, dev, sprint) == Load(t, dev, sprint)
    requires forall dev, sprint :: Load(t, dev, sprint) <= StoryPointsPerDeveloperPerSprint
    requires Fits(a, e.assignedDeveloper - 1, e.sprintStartDate, e.storyPoints)
    ensures var a' := a[(e.assignedDeveloper - 1, e.sprintStartDate) :=
                        Booked(a, e.assignedDeveloper - 1, e.sprintStartDate) + e.storyPoints];
      (forall dev, sprint :: Booked(a', dev, sprint) == Load(t + [e], dev, sprint)) &&
      (forall dev, sprint :: Load(t + [e], dev, sprint) <= StoryPointsPerDeveloperPerSprint)
  {
    forall dev, sprint ensures Load(t + [e], dev, sprint) <= StoryPointsPerDeveloperPerSprint {
      LoadAppend(t, e, dev, sprint);
      assert Booked(a, dev, sprint) == Load(t, dev, sprint);
    }
    forall dev, sprint ensures Load(t + [e], dev, sprint) == Load(t, dev, sprint)
        + (if e.assignedDeveloper - 1 == dev && e.sprintStartDate == sprint then e.storyPoints else 0) {
      LoadAppend(t, e, dev, sprint);
    }
  }

  /** The entry of an eligible story is well scheduled and fits its slot. */
  lemma ScheduledEntryWellScheduled(
    t: seq<TimelineStory>, a: Assignments, story: Story, userStories: seq<Story>,
    startDate: int, estimationType: Estimation, teamSize: int)
    requires Schedulable(userStories, estimationType, teamSize) && story in userStories
    requires forall dep :: dep in story.dependencies ==> dep in Ids(t)
    ensures var e := ScheduledEntry(t, a, story, startDate, estimationType, teamSize);
      WellScheduled(t, e, userStories, startDate, estimationType, teamSize) &&
      Fits(a, e.assignedDeveloper - 1, e.sprintStartDate, e.storyPoints)
  {
  }

  /** Appending a well-scheduled entry with a new id, booked into a slot where it fits,
      keeps the invariant. */
  lemma AppendKeepsValid(st: State, e: TimelineStory, userStories: seq<Story>, startDate: int, estimationType: Estimation, teamSize: int)
    requires ValidState(st, userStories, startDate, estimationType, teamSize)
    requires WellScheduled(st.timeline, e, userStories, startDate, estimationType, teamSize)
    requires e.story.id !in st.completedStories
    requires Fits(st.developerSprintAssignments, e.assignedDeveloper - 1, e.sprintStartDate, e.storyPoints)
    ensures var a := st.developerSprintAssignments;
      ValidState(State(st.timeline + [e], st.completedStories + {e.story.id},
                       a[(e.assignedDeveloper - 1, e.sprintStartDate) :=
                         Booked(a, e.assignedDeveloper - 1, e.sprintStartDate) + e.storyPoints]),
                 userStories, startDate, estimationType, teamSize)
  {
    var t := st.timeline;
    IdsAppend(t, e);
    UniqueIdsAppend(t, e);
    WellScheduledAppend(t, e, userStories, startDate, estimationType, teamSize);
    LoadsAppend(t, st.developerSprintAssignments, e);
  }

  /** Booking an eligible story keeps the invariant. */
  lemma ScheduleKeepsValid(st: State, story: Story, userStories: seq<Story>, startDate: int, estimationType: Estimation, teamSize: int)
    requires Schedulable(userStories, estimationType, teamSize)
    requires ValidState(st, userStories, startDate, estimationType, teamSize)
    requires story in userStories && story.id !in st.completedStories
    requires AreDependenciesCompleted(story.dependencies, st.completedStories)
    ensures ValidState(Schedule(st, story, startDate, estimationType, teamSize), userStories, startDate, estimationType, teamSize)
  {
    var e := ScheduledEntry(st.timeline, st.developerSprintAssignments, story, startDate, estimationType, teamSize);
    ScheduledEntryWellScheduled(st.timeline, st.developerSprintAssignments, story, userStories, startDate, estimationType, teamSize);
    AppendKeepsValid(st, e, userStories, startDate, estimationType, teamSize);
  }

  lemma VisitKeepsValid(st: State, story: Story, userStories: seq<Story>, startDate: int, estimationType: Estimation, teamSize: int)
    requires Schedulable(userStories, estimationType, teamSize)
    requires ValidState(st, userStories, startDate, estimationType, teamSize)
    requires story in userStories
    ensures ValidState(Visit(st, story, startDate, estimationType, teamSize), userStories, startDate, estimationType, teamSize)
  {
    if story.id !in st.completedStories && AreDependenciesCompleted(story.dependencies, st.completedStories) {
      ScheduleKeepsValid(st, story, userStories, startDate, estimationType, teamSize);
    }
  }

  /** A visit appends at most one entry, and changes nothing when it appends none. */
  lemma VisitExtends(st: State, story: Story, startDate: int, estimationType: Estimation, teamSize: int)
    requires teamSize >= 1 && StoryPoints(story, estimationType) <= StoryPointsPerDeveloperPerSprint
    ensures st.timeline <= Visit(st, story, startDate, estimationType, teamSize).timeline
    ensures |Visit(st, story, startDate, estimationType, teamSize).timeline| <= |st.timeline| + 1
    ensures |Visit(st, story, startDate, estimationType, teamSize).timeline| == |st.timeline|
        ==> Visit(st, story, startDate, estimationType, teamSize) == st
    ensures |Visit(st, story, startDate, estimationType, teamSize).timeline| == |st.timeline|
        <==> story.id in st.completedStories || !AreDependenciesCompleted(story.dependencies, st.completedStories)
  {
  }

  lemma PassStepKeepsValid(userStories: seq<Story>, k: nat, st: State, startDate: int, estimationType: Estimation, teamSize: int)
    requires 0 < k <= |userStories| && Schedulable(userStories, estimationType, teamSize)
    requires ValidState(Pass(userStories, k - 1, st, startDate, estimationType, teamSize), userStories, startDate, estimationType, teamSize)
    ensures ValidState(Pass(userStories, k, st, startDate, estimationType, teamSize), userStories, startDate, estimationType, teamSize)
  {
    var before := Pass(userStories, k - 1, st, startDate, estimationType, teamSize);
    VisitKeepsValid(before, userStories[k - 1], userStories, startDate, estimationType, teamSize);
  }

  /** A pass keeps the invariant. */
  lemma PassKeepsValid(userStories: seq<Story>, k: nat, st: State, startDate: int, estimationType: Estimation, teamSize: int)
    requires k <= |userStories| && Schedulable(userStories, estimationType, teamSize)
    requires ValidState(st, userStories, startDate, estimationType, teamSize)
    ensures ValidState(Pass(userStories, k, st, startDate, estimationType, teamSize), userStories, startDate, estimationType, teamSize)
    decreases k
  {
    if k == 0 {
      assert Pass(userStories, k, st, startDate, estimationType, teamSize) == st;
    } else {
      PassKeepsValid(userStories, k - 1, st, startDate, estimationType, teamSize);
      PassStepKeepsValid(userStories, k, st, startDate, estimationType, teamSize);
    }
  }

  /** A pass only appends to the timeline. */
  lemma {:induction false} PassExtends(userStories: seq<Story>, k: nat, st: State, startDate: int, estimationType: Estimation, teamSize: int)
    requires k <= |userStories| && Schedulable(userStories, estimationType, teamSize)
    ensures st.timeline <= Pass(userStories, k, st, startDate, estimationType, teamSize).timeline
    decreases k
  {
    if k > 0 {
      PassExtends(userStories, k - 1, st, startDate, estimationType, teamSize);
      var before := Pass(userStories, k - 1, st, startDate, estimationType, teamSize);
      VisitExtends(before, userStories[k - 1], startDate, estimationType, teamSize);
    }
  }

  /** A pass that schedules nothing leaves the state as it was, and then every story
      is either completed or waits for a dependency that is not. */
  lemma {:induction false} StalledPass(userStories: seq<Story>, k: nat, st: State, startDate: int, estimationType: Estimation, teamSize: int)
    requires k <= |userStories| && Schedulable(userStories, estimationType, teamSize)
    requires |Pass(userStories, k, st, startDate, estimationType, teamSize).timeline| == |st.timeline|
    ensures Pass(userStories, k, st, startDate, estimationType, teamSize) == st
    ensures forall j :: 0 <= j < k ==>
      userStories[j].id in st.completedStories
      || !AreDependenciesCompleted(userStories[j].dependencies, st.completedStories)
    decreases k
  {
    if k > 0 {
      var before := Pass(userStories, k - 1, st, startDate, estimationType, teamSize);
      PassExtends(userStories, k - 1, st, startDate, estimationType, teamSize);
      VisitExtends(before, userStories[k - 1], startDate, estimationType, teamSize);
      StalledPass(userStories, k - 1, st, startDate, estimationType, teamSize);
    }
  }

  lemma IdsWithin(st: State, userStories: seq<Story>, startDate: int, estimationType: Estimation, teamSize: int)
    requires ValidState(st, userStories, startDate, estimationType, teamSize)
    ensures st.completedStories <= StoryIds(userStories)
  {
    forall id | id in st.completedStories ensures id in StoryIds(userStories) {
      var i :| 0 <= i < |st.timeline| && st.timeline[i].story.id == id;
      WellScheduledAt(st.timeline, userStories, startDate, estimationType, teamSize, i);
    }
  }

  /** A pass that schedules something completes at least one more input story. */
  lemma ProgressShrinks(userStories: seq<Story>, st: State, startDate: int, estimationType: Estimation, teamSize: int)
    requires Schedulable(userStories, estimationType, teamSize)
    requires ValidState(st, userStories, startDate, estimationType, teamSize)
    requires |Pass(userStories, |userStories|, st, startDate, estimationType, teamSize).timeline| > |st.timeline|
    ensures StoryIds(userStories) - Pass(userStories, |userStories|, st, startDate, estimationType, teamSize).completedStories
          < StoryIds(userStories) - st.completedStories
  {
    var next := Pass(userStories, |userStories|, st, startDate, estimationType, teamSize);
    PassKeepsValid(userStories, |userStories|, st, startDate, estimationType, teamSize);
    PassExtends(userStories, |userStories|, st, startDate, estimationType, teamSize);
    IdsWithin(next, userStories, startDate, estimationType, teamSize);
    var t, t' := st.timeline, next.timeline;
    var e := t'[|t|];
    assert e.story.id in next.completedStories;
    forall i | 0 <= i < |t| ensures t[i].story.id != e.story.id {
      assert t'[i] == t[i];
    }
    assert e.story.id !in st.completedStories;
    forall id | id in st.completedStories ensures id in next.completedStories {
      var i :| 0 <= i < |t| && t[i].story.id == id;
      assert t'[i] == t[i];
    }
  }

  /** The outer while loop: passes until all stories are completed or a pass stalls. */
  ghost function Run(userStories: seq<Story>, st: State, startDate: int, estimationType: Estimation, teamSize: int): (r: State)
    requires Schedulable(userStories, estimationType, teamSize)
    requires ValidState(st, userStories, startDate, estimationType, teamSize)
    ensures ValidState(r, userStories, startDate, estimationType, teamSize)
    decreases StoryIds(userStories) - st.completedStories
  {
    if |st.completedStories| >= |userStories| then st
    else
      var next := Pass(userStories, |userStories|, st, startDate, estimationType, teamSize);
      PassKeepsValid(userStories, |userStories|, st, startDate, estimationType, teamSize);
      if |next.timeline| <= |st.timeline| then next
      else
        ProgressShrinks(userStories, st, startDate, estimationType, teamSize);
        Run(userStories, next, startDate, estimationType, teamSize)
  }

  /** The timeline calculateTimeline returns. */
  ghost function TimelineOf(userStories: seq<Story>, startDate: int, estimationType: Estimation, teamSize: int): seq<TimelineStory>
    requires Schedulable(userStories, estimationType, teamSize)
  {
    InitialValid(userStories, startDate, estimationType, teamSize);
    Run(userStories, Initial, startDate, estimationType, teamSize).timeline
  }

  lemma {:induction false} StoryIdsBound(userStories: seq<Story>)
    ensures |StoryIds(userStories)| <= |userStories|
  {
    if |userStories| > 0 {
      var init := userStories[..|userStories| - 1];
      StoryIdsBound(init);
      assert userStories == init + [userStories[|userStories| - 1]];
      assert StoryIds(userStories) == StoryIds(init) + {userStories[|userStories| - 1].id};
    }
  }

  lemma SubsetOfNoSmallerSize<T>(a: set<T>, b: set<T>)
    requires a <= b && |a| >= |b|
    ensures a == b
  {
    assert b == a + (b - a);
    assert a * (b - a) == {};
    assert |b| == |a| + |b - a|;
    assert b - a == {};
  }

  /** When calculateTimeline returns, every input story is scheduled or waits on a
      dependency that is not: the loop stops only at a fixed point. */
  lemma RunStopsAtFixpoint(userStories: seq<Story>, st: State, startDate: int, estimationType: Estimation, teamSize: int)
    requires Schedulable(userStories, estimationType, teamSize)
    requires ValidState(st, userStories, startDate, estimationType, teamSize)
    ensures forall s :: s in userStories ==>
      var r := Run(userStories, st, startDate, estimationType, teamSize);
      s.id in r.completedStories || !AreDependenciesCompleted(s.dependencies, r.completedStories)
    decreases StoryIds(userStories) - st.completedStories
  {
    if |st.completedStories| >= |userStories| {
      assert Run(userStories, st, startDate, estimationType, teamSize) == st;
      IdsWithin(st, userStories, startDate, estimationType, teamSize);
      StoryIdsBound(userStories);
      SubsetOfNoSmallerSize(st.completedStories, StoryIds(userStories));
    } else {
      var next := Pass(userStories, |userStories|, st, startDate, estimationType, teamSize);
      PassKeepsValid(userStories, |userStories|, st, startDate, estimationType, teamSize);
      PassExtends(userStories, |userStories|, st, startDate, estimationType, teamSize);
      if |next.timeline| <= |st.timeline| {
        StalledPass(userStories, |userStories|, st, startDate, estimationType, teamSize);
        assert Run(userStories, st, startDate, estimationType, teamSize) == st;
        forall s | s in userStories
          ensures s.id in st.completedStories || !AreDependenciesCompleted(s.dependencies, st.completedStories)
        {
          var j :| 0 <= j < |userStories| && userStories[j] == s;
        }
      } else {
        ProgressShrinks(userStories, st, startDate, estimationType, teamSize);
        assert Run(userStories, st, startDate, estimationType, teamSize)
            == Run(userStories, next, startDate, estimationType, teamSize);
        RunStopsAtFixpoint(userStories, next, startDate, estimationType, teamSize);
      }
    }
  }

  /** The latest dependency end date is at least one working-day step after the end
      of every scheduled dependency. */
  lemma LatestAfterDependency(before: seq<TimelineStory>, deps: seq<string>, startDate: int, dep: string)
    requires dep in deps && dep in Ids(before)
    ensures exists j :: (0 <= j < |before| && before[j].story.id == dep &&
                         NextWorkingDay(before[j].endDate) <= LatestDependencyEndDate(before, deps, startDate))
  {
    var e := Find(before, dep).value;
    var j :| 0 <= j < |before| && before[j] == e;
    var k :| 0 <= k < |deps| && deps[k] == dep;
    var ends := DependencyEndDates(before, deps, startDate);
    assert |ends| == |deps| && ends[k] == e.endDate;
    assert ends[k] in ends;
    NextWorkingDayMonotone(e.endDate, MaxDay(ends));
  }

  /** Every dependency of a scheduled story was scheduled before it, and the story starts
      at least two working-day steps after that dependency's end. */
  lemma DependencyPrecedes(
    st: State, userStories: seq<Story>, startDate: int, estimationType: Estimation, teamSize: int,
    i: int, dep: string)
    requires ValidState(st, userStories, startDate, estimationType, teamSize)
    requires 0 <= i < |st.timeline| && dep in st.timeline[i].story.dependencies
    ensures exists j :: (0 <= j < i && st.timeline[j].story.id == dep &&
                         NextWorkingDay(NextWorkingDay(st.timeline[j].endDate)) <= st.timeline[i].startDate)
  {
    var t := st.timeline;
    var before := t[..i];
    var deps := t[i].story.dependencies;
    WellScheduledAt(t, userStories, startDate, estimationType, teamSize, i);
    assert dep in Ids(before);
    LatestAfterDependency(before, deps, startDate, dep);
    var j :| 0 <= j < |before| && before[j].story.id == dep
      && NextWorkingDay(before[j].endDate) <= LatestDependencyEndDate(before, deps, startDate);
    NextWorkingDayMonotone(NextWorkingDay(before[j].endDate), LatestDependencyEndDate(before, deps, startDate));
    assert t[j] == before[j];
  }

  /** A scheduled story with dependencies starts exactly two working-day steps after the
      end of one of them: the latest one. */
  lemma LatestDependencyDecidesStart(
    st: State, userStories: seq<Story>, startDate: int, estimationType: Estimation, teamSize: int, i: int)
    requires ValidState(st, userStories, startDate, estimationType, teamSize)
    requires 0 <= i < |st.timeline| && |st.timeline[i].story.dependencies| > 0
    ensures exists j :: (0 <= j < i && st.timeline[j].story.id in st.timeline[i].story.dependencies &&
                         st.timeline[i].startDate == NextWorkingDay(NextWorkingDay(st.timeline[j].endDate)))
  {
    var t := st.timeline;
    var before := t[..i];
    var deps := t[i].story.dependencies;
    WellScheduledAt(t, userStories, startDate, estimationType, teamSize, i);
    var ends := DependencyEndDates(before, deps, startDate);
    var k :| 0 <= k < |ends| && ends[k] == MaxDay(ends);
    assert deps[k] in deps;
    var e := Find(before, deps[k]).value;
    var j :| 0 <= j < |before| && before[j] == e;
    assert t[j] == before[j];
  }

  /** The input stories have distinct ids (the callers' responsibility). */
  ghost predicate UniqueStoryIds(userStories: seq<Story>)
  {
    forall a, b :: a in userStories && b in userStories && a.id == b.id ==> a == b
  }

  /** A story listing an id that no input story has is never scheduled. */
  lemma UnknownDependencyOmitted(
    st: State, userStories: seq<Story>, startDate: int, estimationType: Estimation, teamSize: int,
    s: Story, dep: string)
    requires ValidState(st, userStories, startDate, estimationType, teamSize)
    requires dep in s.dependencies && dep !in StoryIds(userStories)
    ensures forall i :: 0 <= i < |st.timeline| ==> st.timeline[i].story != s
  {
    var t := st.timeline;
    forall i, d | 0 <= i < |t| && d in t[i].story.dependencies ensures d in StoryIds(userStories) {
      DependencyPrecedes(st, userStories, startDate, estimationType, teamSize, i, d);
      var j :| 0 <= j < i && t[j].story.id == d;
      WellScheduledAt(t, userStories, startDate, estimationType, teamSize, j);
    }
  }

  /** A dependency cycle: each story lists the next one's id, and the last is the first. */
  ghost predicate IsCycle(cycle: seq<Story>)
  {
    |cycle| >= 2 && cycle[0] == cycle[|cycle| - 1] &&
    forall k, l :: 0 <= k < l < |cycle| && l == k + 1 ==> cycle[l].id in cycle[k].dependencies
  }

  /** Following a cycle forward from a scheduled member leads to members scheduled
      strictly earlier, one position per step. */
  lemma {:induction false} CycleWalksBackwards(
    st: State, userStories: seq<Story>, startDate: int, estimationType: Estimation, teamSize: int,
    cycle: seq<Story>, a: nat, b: nat, i: int) returns (j: int)
    requires ValidState(st, userStories, startDate, estimationType, teamSize) && UniqueStoryIds(userStories)
    requires IsCycle(cycle) && forall k :: 0 <= k < |cycle| ==> cycle[k] in userStories
    requires a <= b < |cycle|
    requires 0 <= i < |st.timeline| && st.timeline[i].story == cycle[a]
    ensures 0 <= j <= i - (b - a) && st.timeline[j].story == cycle[b]
    decreases b - a
  {
    if a == b {
      j := i;
    } else {
      var t := st.timeline;
      var dep := cycle[a + 1].id;
      assert dep in t[i].story.dependencies;
      DependencyPrecedes(st, userStories, startDate, estimationType, teamSize, i, dep);
      var i' :| 0 <= i' < i && t[i'].story.id == dep;
      WellScheduledAt(t, userStories, startDate, estimationType, teamSize, i');
      j := CycleWalksBackwards(st, userStories, startDate, estimationType, teamSize, cycle, a + 1, b, i');
    }
  }

  /** No story on a dependency cycle is ever scheduled. */
  lemma CycleOmitted(
    st: State, userStories: seq<Story>, startDate: int, estimationType: Estimation, teamSize: int,
    cycle: seq<Story>)
    requires ValidState(st, userStories, startDate, estimationType, teamSize) && UniqueStoryIds(userStories)
    requires IsCycle(cycle) && forall k :: 0 <= k < |cycle| ==> cycle[k] in userStories
    ensures forall i, k :: 0 <= i < |st.timeline| && 0 <= k < |cycle| ==> st.timeline[i].story != cycle[k]
  {
    forall i, k | 0 <= i < |st.timeline| && 0 <= k < |cycle| ensures st.timeline[i].story != cycle[k] {
      if st.timeline[i].story == cycle[k] {
        var last := |cycle| - 1;
        var j1 := CycleWalksBackwards(st, userStories, startDate, estimationType, teamSize, cycle, k, last, i);
        var j2 := CycleWalksBackwards(st, userStories, startDate, estimationType, teamSize, cycle, 0, k, j1);
        assert false;
      }
    }
  }

  /** The end dates of a timeline, in timeline order. */
  function EndDates(timeline: seq<TimelineStory>): (ends: seq<int>)
    ensures |ends| == |timeline|
    ensures forall i :: 0 <= i < |timeline| ==> ends[i] == timeline[i].endDate
  {
    seq(|timeline|, i requires 0 <= i < |timeline| => timeline[i].endDate)
  }

  /** The project end: the start date for an empty timeline, else the latest end date. */
  function ProjectEndDate(timeline: seq<TimelineStory>, startDate: int): (r: int)
    ensures |timeline| == 0 ==> r == startDate
    ensures |timeline| > 0 ==> exists i :: 0 <= i < |timeline| && r == timeline[i].endDate
    ensures forall i :: 0 <= i < |timeline| ==> timeline[i].endDate <= r
  {
    if |timeline| == 0 then startDate
    else
      var ends := EndDates(timeline);
      assert forall i :: 0 <= i < |timeline| ==> ends[i] in ends;
      MaxDay(ends)
  }

  /** Every story calculateTimeline returns: an input story, once, on a developer of the
      team, booked at its chosen points, starting and ending on working days, lasting its
      points in calendar days (pushed off a weekend by at most two days). */
  lemma TimelineEntries(userStories: seq<Story>, startDate: int, estimationType: Estimation, teamSize: int)
    requires Schedulable(userStories, estimationType, teamSize)
    ensures var t := TimelineOf(userStories, startDate, estimationType, teamSize);
      UniqueIds(t) &&
      forall i :: 0 <= i < |t| ==>
        t[i].story in userStories &&
        1 <= t[i].assignedDeveloper <= teamSize &&
        t[i].storyPoints == StoryPoints(t[i].story, estimationType) &&
        t[i].duration == t[i].storyPoints &&
        !IsWeekend(t[i].startDate) && !IsWeekend(t[i].endDate) &&
        (t[i].storyPoints <= 1 ==> t[i].endDate == t[i].startDate) &&
        (t[i].storyPoints >= 1 ==>
           t[i].startDate + t[i].storyPoints - 1 <= t[i].endDate <= t[i].startDate + t[i].storyPoints + 1) &&
        (|t[i].story.dependencies| == 0 ==> t[i].startDate == NextWorkingDay(startDate))
  {
    var t := TimelineOf(userStories, startDate, estimationType, teamSize);
    forall i | 0 <= i < |t|
      ensures WellScheduled(t[..i], t[i], userStories, startDate, estimationType, teamSize)
    {
      WellScheduledAt(t, userStories, startDate, estimationType, teamSize, i);
    }
  }

  /** In the timeline calculateTimeline returns, every dependency of a story is scheduled
      before it and ends at least two working-day steps before the story starts, and a
      story with dependencies starts exactly two working-day steps after one of them ends. */
  lemma TimelineDependenciesPrecede(userStories: seq<Story>, startDate: int, estimationType: Estimation, teamSize: int)
    requires Schedulable(userStories, estimationType, teamSize)
    ensures var t := TimelineOf(userStories, startDate, estimationType, teamSize);
      forall i, dep :: 0 <= i < |t| && dep in t[i].story.dependencies ==>
        exists j :: (0 <= j < i && t[j].story.id == dep &&
                     NextWorkingDay(NextWorkingDay(t[j].endDate)) <= t[i].startDate)
    ensures var t := TimelineOf(userStories, startDate, estimationType, teamSize);
      forall i :: 0 <= i < |t| && |t[i].story.dependencies| > 0 ==>
        exists j :: (0 <= j < i && t[j].story.id in t[i].story.dependencies &&
                     t[i].startDate == NextWorkingDay(NextWorkingDay(t[j].endDate)))
  {
    InitialValid(userStories, startDate, estimationType, teamSize);
    var st := Run(userStories, Initial, startDate, estimationType, teamSize);
    forall i, dep | 0 <= i < |st.timeline| && dep in st.timeline[i].story.dependencies
      ensures exists j :: (0 <= j < i && st.timeline[j].story.id == dep &&
                           NextWorkingDay(NextWorkingDay(st.timeline[j].endDate)) <= st.timeline[i].startDate)
    {
      DependencyPrecedes(st, userStories, startDate, estimationType, teamSize, i, dep);
    }
    forall i | 0 <= i < |st.timeline| && |st.timeline[i].story.dependencies| > 0
      ensures exists j :: (0 <= j < i && st.timeline[j].story.id in st.timeline[i].story.dependencies &&
                           st.timeline[i].startDate == NextWorkingDay(NextWorkingDay(st.timeline[j].endDate)))
    {
      LatestDependencyDecidesStart(st, userStories, startDate, estimationType, teamSize, i);
    }
  }

  /** In the timeline calculateTimeline returns, no developer carries more than
      StoryPointsPerDeveloperPerSprint points in any sprint. */
  lemma TimelineWithinCapacity(userStories: seq<Story>, startDate: int, estimationType: Estimation, teamSize: int)
    requires Schedulable(userStories, estimationType, teamSize)
    ensures var t := TimelineOf(userStories, startDate, estimationType, teamSize);
      forall dev, sprint :: Load(t, dev, sprint) <= StoryPointsPerDeveloperPerSprint
  {
  }

  /** A story missing from the timeline calculateTimeline returns has a dependency that
      is missing too. */
  lemma TimelineFixpoint(userStories: seq<Story>, startDate: int, estimationType: Estimation, teamSize: int)
    requires Schedulable(userStories, estimationType, teamSize)
    ensures var t := TimelineOf(userStories, startDate, estimationType, teamSize);
      forall s :: s in userStories ==>
        s.id in Ids(t) || exists dep :: dep in s.dependencies && dep !in Ids(t)
  {
    InitialValid(userStories, startDate, estimationType, teamSize);
    RunStopsAtFixpoint(userStories, Initial, startDate, estimationType, teamSize);
  }

  /** A story without dependencies starts on the working day after the project start,
      not on the start itself: a project started on a Monday begins its stories on Tuesday. */
  lemma RootStoryStartsAfterProjectStart(userStories: seq<Story>, startDate: int, estimationType: Estimation, teamSize: int, i: int)
    requires Schedulable(userStories, estimationType, teamSize)
    requires 0 <= i < |TimelineOf(userStories, startDate, estimationType, teamSize)|
    requires |TimelineOf(userStories, startDate, estimationType, teamSize)[i].story.dependencies| == 0
    ensures TimelineOf(userStories, startDate, estimationType, teamSize)[i].startDate > startDate
    ensures Weekday(startDate) == 1 ==> TimelineOf(userStories, startDate, estimationType, teamSize)[i].startDate == startDate + 1
  {
    TimelineEntries(userStories, startDate, estimationType, teamSize);
    NextWorkingDayByWeekday(startDate);
  }
}
