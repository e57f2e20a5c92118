# Sprint timeline calculator, story form validator and epic list — a Dafny model

This project models the scheduling core of a Gantt-chart planner for user stories. It also models two pure helpers next to it.

- **calculateTimeline**: books every story whose dependencies are done into a (developer, sprint) slot. It makes pass after pass over the story list until every story is completed or a pass books nothing.
  - Each developer takes at most 8 story points per sprint.
  - A story lasts its story points in calendar days, moved off a weekend.
  - A story starts on the working day after the working day that follows the end of its latest dependency.
- **calculateProjectEndDate**: the latest end date of that timeline, or the start date when the timeline is empty.
- **StoryFormSchema**: the validation of the "add story" form.
- **getEpicsFromStories**: the distinct epics of a story list, in the order of their first occurrence.

## How the model is built

Dates are day numbers. Day 0 is Thursday 1 January 1970, and weekdays are numbered as `Date.getDay()` numbers them (Sunday = 0).

The source's loops are methods, and each is proved equal to a specification function:
- `GetNextWorkingDay` and `GetSprintEndDate`
- `FindAvailableDeveloperAndSprint`, the two nested search loops
- `PlanStory`, the end-date loop
- `Scheduler.ProcessStories`, the `forEach` pass
- `CalculateTimeline`, the outer `while`

The state that `calculateTimeline` closes over is the class `Scheduler`. Its fields are `timeline`, `completedStories` and `developerSprintAssignments`. The callback and the pass are methods that update those fields.

The specification functions are:
- `NextWorkingDay`, `SprintStart`, `SprintEnd`
- `FindSlot`
- `ScheduledEntry`, `Schedule`, `Visit`, `Pass`, `Run` and `TimelineOf`

What the source promises is proved about these functions:
- an invariant `ValidState` that every pass keeps
- the precedence, capacity and fixed-point lemmas
- lemmas showing that unknown dependencies are never scheduled, and neither are dependency cycles when the input ids are distinct

Some behaviours of the code are worth stating outright:
- **Duration.** The duration is the raw story-point value in calendar days. There is no quantisation table.
- **Start of a story without dependencies.** Every story starts on `getNextWorkingDay(latestDependencyEndDate)`. A story without dependencies therefore starts on the working day after the project start, never on the start itself (`RootStoryStartsAfterProjectStart`). A project started on Monday 2024-01-01 begins its first story on Tuesday 2024-01-02.
- **What capacity is checked.** Capacity is only a point count per (developer, sprint key). There are no per-developer interval lists, and nothing checks that a story's dates fall inside the sprint it is booked in.
- **Sprint keys.**
  - The key the search tries first is the Monday of the week holding the latest dependency date (`SprintStart`).
  - After a full sprint, the next key tried is the working day after that sprint's tenth working day.
  - From a Monday that is the Tuesday fifteen days later (`MondaySprint`), so the keys tried drift away from Mondays.
  - A dependent story's first key is the Monday of the week holding the working day after its latest dependency's end, so it can be booked under a later key than its dependency even when that sprint still has room. For a project started on a Monday, a story that depends on an 8-point story without dependencies has its search start at the next week's key, whatever room the first week has.

## Model

| member | source | states |
|---|---|---|
| Stories.StoryPoints | src/utils/timelineCalculator.ts:68 | the points booked for a story: its minSP in the optimistic mode, its maxSP in the pessimistic one; AcceptedStoryFitsSprint bounds them for accepted forms |
| Calendar.Weekday | src/utils/timelineCalculator.ts:42 | `getDay()` of a day number: a weekday in 0..6, Sunday 0, with day 0 a Thursday; NextWorkingDayByWeekday and SprintStartFixesMondays state what follows from it |
| Calendar.IsWeekend | src/utils/timelineCalculator.ts:33 | `isWeekend`: Saturday or Sunday; NoThreeWeekendDays bounds runs of weekend days |
| Calendar.NoThreeWeekendDays | src/utils/timelineCalculator.ts:33-35 | no three consecutive days are all weekend days, so the weekend-skipping loop ends |
| Calendar.NextWorkingDay | src/utils/timelineCalculator.ts:31-37 | the result is strictly after the date, at most three days later, not a weekend day, and every day in between is a weekend day |
| Calendar.NextWorkingDayUnique | src/utils/timelineCalculator.ts:31-37 | any later working day with only weekend days before it is the next working day |
| Calendar.NextWorkingDayMonotone | src/utils/timelineCalculator.ts:31-37 | a later date never has an earlier next working day |
| Calendar.NextWorkingDayByWeekday | src/utils/timelineCalculator.ts:31-37 | Sunday to Thursday step one day, Friday skips to Monday, Saturday to Monday |
| Calendar.GetNextWorkingDay | src/utils/timelineCalculator.ts:31-37 | the loop returns the next working day |
| Calendar.FirstWorkingDayFrom | src/utils/timelineCalculator.ts:149-151 | the date itself when it is a working day, otherwise the next working day, at most two days later |
| Calendar.SprintStart | src/utils/timelineCalculator.ts:40-45 | the result is a Monday within the six days up to the date |
| Calendar.SprintStartFixesMondays | src/utils/timelineCalculator.ts:40-45 | a Monday is its own sprint start; a Sunday maps six days back |
| Calendar.SprintStartMonotone | src/utils/timelineCalculator.ts:40-45 | a later date never has an earlier sprint start |
| Calendar.AdvanceWorkingDays | src/utils/timelineCalculator.ts:52-55 | the date after n steps of the next-working-day loop; AdvanceWorkingDaysCounts proves it passes exactly n working days |
| Calendar.AdvanceWorkingDaysCounts | src/utils/timelineCalculator.ts:52-55 | n steps of the next working day pass exactly n working days and land on a working day |
| Calendar.SprintEnd | src/utils/timelineCalculator.ts:48-58 | the sprint end is a working day with exactly 10 working days after the start, up to and including it |
| Calendar.GetSprintEndDate | src/utils/timelineCalculator.ts:48-58 | the loop returns the sprint end |
| Calendar.MondaySprint | src/utils/timelineCalculator.ts:48-58 | a Monday's sprint ends 14 days later, and the next sprint tried is the Tuesday 15 days later |
| SprintSearch.Booked | src/utils/timelineCalculator.ts:82 | the points booked under a (developer, sprint) key, 0 for a key never booked; LoadsAppend and ValidState tie it to the scheduled stories |
| SprintSearch.Fits | src/utils/timelineCalculator.ts:84 | the capacity test: the booked points plus the story's stay within 8; FindSlot returns only fitting slots |
| SprintSearch.NextSprintTry | src/utils/timelineCalculator.ts:91-94 | the next sprint tried is more than 10 days later |
| SprintSearch.Candidate | src/utils/timelineCalculator.ts:76-95 | the n-th sprint the search tries; CandidateIncreasing, FindSlotIsCandidate and FindSlotSkipsOnlyFullSprints state how the search walks them |
| SprintSearch.FirstFittingDeveloper | src/utils/timelineCalculator.ts:80-89 | the developer loop picks the lowest developer with room, or none |
| SprintSearch.FullSprintShrinksKeys | src/utils/timelineCalculator.ts:76-95 | a sprint without room leaves one booked key behind, so the sprint search terminates |
| SprintSearch.FindSlot | src/utils/timelineCalculator.ts:61-102 | the slot found has a developer of the team, a sprint on or after the first one tried, room for the story, and no lower developer with room in that sprint |
| SprintSearch.FindSlotSkipsOnlyFullSprints | src/utils/timelineCalculator.ts:76-95 | every sprint tried before the one returned had no developer with room |
| SprintSearch.FindSlotIsCandidate | src/utils/timelineCalculator.ts:76-95 | the sprint returned is one of the sprints the search tries |
| SprintSearch.FindAvailableDeveloperAndSprint | src/utils/timelineCalculator.ts:61-102 | the points are those of the estimation mode, and the loops return the slot of the search |
| Timeline.AreDependenciesCompleted | src/utils/timelineCalculator.ts:26-28 | true exactly when every dependency is completed |
| Timeline.Find | src/utils/timelineCalculator.ts:122 | a found story is in the timeline with that id; nothing is found only when the id is not scheduled |
| Timeline.MaxDay | src/utils/timelineCalculator.ts:125 | the maximum is one of the days and no day exceeds it |
| Timeline.DependencyEndDate | src/utils/timelineCalculator.ts:122-123 | the end date of the scheduled story with that id, or the project start when none is scheduled; LatestAfterDependency uses it |
| Timeline.DependencyEndDates | src/utils/timelineCalculator.ts:121-124 | one such end date per dependency, in dependency order; LatestAfterDependency and LatestDependencyDecidesStart use it |
| Timeline.LatestDependencyEndDate | src/utils/timelineCalculator.ts:119-128 | the project start without dependencies, else the working day after the latest dependency end; LatestAfterDependency and LatestDependencyDecidesStart state its relation to each dependency |
| Timeline.StoryEndDate | src/utils/timelineCalculator.ts:142-151 | points minus one calendar days after the start, moved to the next working day from a weekend; TimelineEntries bounds it |
| Timeline.ScheduledEntry | src/utils/timelineCalculator.ts:117-166 | the entry the callback pushes for an eligible story; PlanStory computes it and ScheduledEntryWellScheduled states its properties |
| Timeline.Schedule | src/utils/timelineCalculator.ts:153-170 | booking an entry: add its points to its key, push it, mark it completed; ScheduleKeepsValid keeps the invariant |
| Timeline.Visit | src/utils/timelineCalculator.ts:114-171 | one callback call: skip a completed or waiting story, otherwise schedule it; VisitExtends and VisitKeepsValid state its effect |
| Timeline.Pass | src/utils/timelineCalculator.ts:111-175 | the state after the callback has visited the first k stories in order; PassExtends, PassKeepsValid and StalledPass state its effect |
| Timeline.InitialValid | src/utils/timelineCalculator.ts:106-108 | the empty timeline, set and map satisfy the invariant |
| Timeline.WellScheduledAt | src/utils/timelineCalculator.ts:114-171 | every entry of a valid timeline is well scheduled given the entries before it |
| Timeline.ScheduledEntryWellScheduled | src/utils/timelineCalculator.ts:117-166 | the entry of an eligible story is built from an input story, a developer of the team, the mode's points, a start on the working day after the latest dependency date, and the end date rule; it fits its slot |
| Timeline.AppendKeepsValid | src/utils/timelineCalculator.ts:153-170 | booking a fitting, new, well-scheduled entry keeps ids unique, completed ids equal to scheduled ids, bookings equal to loads, and loads within capacity |
| Timeline.ScheduleKeepsValid | src/utils/timelineCalculator.ts:117-170 | booking an eligible story keeps the invariant |
| Timeline.VisitKeepsValid | src/utils/timelineCalculator.ts:114-171 | the callback keeps the invariant |
| Timeline.VisitExtends | src/utils/timelineCalculator.ts:114-171 | the callback only appends, appends at most one story, and appends nothing exactly when the story is completed or waits on a dependency |
| Timeline.PassKeepsValid | src/utils/timelineCalculator.ts:111-175 | a pass keeps the invariant |
| Timeline.PassExtends | src/utils/timelineCalculator.ts:111-175 | a pass only appends to the timeline |
| Timeline.StalledPass | src/utils/timelineCalculator.ts:111-175 | a pass that appends nothing changes nothing, and every story it visited is completed or waits on a dependency |
| Timeline.IdsWithin | src/utils/timelineCalculator.ts:168 | only ids of input stories are completed |
| Timeline.ProgressShrinks | src/utils/timelineCalculator.ts:178-181 | a pass with progress completes one more input id, so the outer loop terminates |
| Timeline.Run | src/utils/timelineCalculator.ts:178-181 | the state the outer loop stops in satisfies the invariant |
| Timeline.TimelineOf | src/utils/timelineCalculator.ts:105-184 | the timeline the outer loop returns from the empty state; TimelineEntries, TimelineDependenciesPrecede, TimelineWithinCapacity and TimelineFixpoint state its properties |
| Timeline.StoryIdsBound | src/utils/timelineCalculator.ts:178 | there are no more distinct input ids than input stories |
| Timeline.RunStopsAtFixpoint | src/utils/timelineCalculator.ts:178-181 | when the loop stops, every input story is completed or has a dependency that is not |
| Timeline.LatestAfterDependency | src/utils/timelineCalculator.ts:119-128 | the latest dependency date is at least one working-day step after each scheduled dependency's end |
| Timeline.DependencyPrecedes | src/utils/timelineCalculator.ts:117-140 | each dependency of a scheduled story is scheduled earlier and ends at least two working-day steps before the story starts |
| Timeline.LatestDependencyDecidesStart | src/utils/timelineCalculator.ts:125-140 | a scheduled story with dependencies starts exactly two working-day steps after the end of one of its dependencies, the latest one |
| Timeline.UnknownDependencyOmitted | src/utils/timelineCalculator.ts:117 | a story naming an id no input story has is never scheduled |
| Timeline.CycleWalksBackwards | src/utils/timelineCalculator.ts:117 | the step of CycleOmitted's proof by contradiction: for input stories with distinct ids, if a cycle member were scheduled, following the cycle from it would reach members scheduled strictly earlier; CycleOmitted shows no such timeline exists |
| Timeline.CycleOmitted | src/utils/timelineCalculator.ts:117 | for input stories with distinct ids, no story on a dependency cycle is ever scheduled |
| Timeline.EndDates | src/utils/timelineCalculator.ts:189 | one end date per scheduled story, in order |
| Timeline.ProjectEndDate | src/utils/timelineCalculator.ts:189 | the start date for an empty timeline, else an end date of the timeline that no end date exceeds |
| Timeline.TimelineEntries | src/utils/timelineCalculator.ts:105-184 | the result has unique ids; each entry is an input story on developer 1..teamSize with the mode's points as duration, starts and ends on working days, ends points-1 to points+1 days after its start, and starts on the working day after the project start when it has no dependencies |
| Timeline.TimelineDependenciesPrecede | src/utils/timelineCalculator.ts:105-184 | in the result, each dependency precedes its story and ends at least two working-day steps before the story starts, and a story with dependencies starts exactly two working-day steps after the end of one of them |
| Timeline.TimelineWithinCapacity | src/utils/timelineCalculator.ts:84 | in the result, no developer holds more than 8 points under one sprint key |
| Timeline.TimelineFixpoint | src/utils/timelineCalculator.ts:177-183 | a story missing from the result has a dependency missing from it too |
| Timeline.RootStoryStartsAfterProjectStart | src/utils/timelineCalculator.ts:119-140 | a story without dependencies starts after the project start, on the Tuesday when the project starts on a Monday |
| TimelineCalculator.PlanStory | src/utils/timelineCalculator.ts:118-151 | the callback's computation returns the scheduled entry of the story |
| TimelineCalculator.Scheduler.constructor | src/utils/timelineCalculator.ts:106-108 | the state starts empty |
| TimelineCalculator.Scheduler.VisitStory | src/utils/timelineCalculator.ts:114-171 | the new state is the callback applied to the old one; it reports exactly whether the timeline grew |
| TimelineCalculator.Scheduler.ProcessStories | src/utils/timelineCalculator.ts:111-175 | the new state is a full pass over the stories in order; it reports exactly whether the timeline grew |
| TimelineCalculator.CalculateTimeline | src/utils/timelineCalculator.ts:105-184 | the result is the timeline of the specification, so the TimelineEntries, TimelineDependenciesPrecede, TimelineWithinCapacity and TimelineFixpoint lemmas hold of it |
| TimelineCalculator.CalculateProjectEndDate | src/utils/timelineCalculator.ts:187-190 | the result is the project end date of that timeline |
| StoryForm.RangeIssues | src/components/StoryForm/types/StoryForm.definition.ts:5-8 | a min/max chain reports nothing exactly when the value is within the bounds, and reports only on its own path |
| StoryForm.PresentEpic | src/components/StoryForm/types/StoryForm.definition.ts:6 | an empty epic counts as absent; a non-empty epic is kept |
| StoryForm.Parse | src/components/StoryForm/types/StoryForm.definition.ts:3-15 | a form is accepted exactly when the title is 2..100 long, a non-empty epic is 2..100 long, both story points are 1..8 and minSP ≤ maxSP; accepted values come back with an empty epic made absent; a rejection lists at least one issue |
| StoryForm.RefineReportedOnMaxSP | src/components/StoryForm/types/StoryForm.definition.ts:12-15 | minSP > maxSP is rejected with an issue on the maxSP path, and that is the only cause of such an issue |
| StoryForm.EmptyEpicIsAbsent | src/components/StoryForm/types/StoryForm.definition.ts:6 | an empty epic parses exactly as a missing one |
| StoryForm.OptionalFieldsAccepted | src/components/StoryForm/types/StoryForm.definition.ts:9-10 | the optional dependencies and priority never decide acceptance |
| StoryForm.AcceptedStoryFitsSprint | src/components/StoryForm/types/StoryForm.definition.ts:7-8 | an accepted story's points are 1..8 in either mode, and the optimistic estimate is the smaller |
| StoryForm.AcceptedStoriesSchedulable | src/components/StoryForm/types/StoryForm.definition.ts:7-8 | stories with accepted points satisfy the scheduler's termination precondition |
| Epics.FirstIndex | src/utils/epicUtils.ts:4 | the position of the first occurrence: the element is there and not before it |
| Epics.Distinct | src/utils/epicUtils.ts:4 | inserting into an insertion-ordered set gives no duplicates, exactly the input's elements, no more elements than the input, in first-occurrence order |
| Epics.EpicsOf | src/utils/epicUtils.ts:4 | one epic per story, in story order |
| Epics.GetEpicsFromStories | src/utils/epicUtils.ts:3-6 | no duplicates; every story's epic is listed; every listed epic belongs to a story; no longer than the story list; empty for no stories |
| Epics.EpicsInFirstOccurrenceOrder | src/utils/epicUtils.ts:4 | epics are listed by their first occurrence among the stories |
| Epics.DistinctOfNoDuplicates | src/utils/epicUtils.ts:4 | a list without duplicates comes back unchanged |
| Epics.GetEpicsIdempotent | src/utils/epicUtils.ts:3-6 | stories carrying the returned epics give the same epics back |
| Epics.DistinctUnique | src/utils/epicUtils.ts:4 | the result is the only duplicate-free list of the input's elements in first-occurrence order |

## Left out

- Dates, time zones and daylight-saving time. Dates are whole day numbers. The source's `Date` values keep the start date's time of day, and every date in one run shares it, so the day number carries the whole schedule.
- The string keys `${dev}-${time}` of the assignment map are modelled as (developer, day) pairs. Two different pairs never give the same key.
- TimelineCalculator.CalculateTimeline: requires teamSize ≥ 1 and the chosen points of every input story ≤ 8. The source's sprint search never ends for a story that breaks this once it becomes eligible; the source still returns when such a story never becomes eligible (it waits on an unknown id, say), and the model does not cover that input. The story form only accepts points in 1..8 (AcceptedStoriesSchedulable).
- SprintSearch.FindAvailableDeveloperAndSprint: requires teamSize ≥ 1 and every story's chosen points ≤ 8, for the same reason.
- TimelineCalculator.CalculateProjectEndDate: requires teamSize ≥ 1 and every story's chosen points ≤ 8, for the same reason.
- Timeline.CycleOmitted: requires distinct input ids, as does Timeline.CycleWalksBackwards. The source does not check that ids are distinct. With a repeated id, a story on a cycle can be scheduled: the story that shares the id of a completed story is skipped as completed, and the cycle through it is then broken.
- TimelineCalculator.Scheduler.Valid: the class invariant says only that these inputs admit termination. The stronger invariant `ValidState` of the three fields is carried by the loop in `CalculateTimeline`, with the lemma `PassKeepsValid`.
- Story points are integers. The form accepts fractional numbers in 1..8, and `z.coerce.number()` turns text into numbers; neither is modelled.
- StoryForm.Parse: the field values are already typed. A value of the wrong type, or one that coerces to NaN, aborts the parse before the refinement; that is not modelled. The texts of the default length messages are not modelled either; issues carry their path and kind.
- Title and epic lengths count characters, where JavaScript counts UTF-16 code units.
- The `sprintStartDate` truthiness test of the booking is left out, because the search always returns a date. The `assignedDeveloper !== -1` test is kept, though the search never returns -1.
- The `priority` of a story is carried along but unused by the scheduler, as in the source.
- The React components, the Gantt chart rendering, local storage and the application shell are not part of this model.
