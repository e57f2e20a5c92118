/** The greedy capacity search of the scheduler: the first sprint, tried in order,
    that has a developer with room for a story, and the lowest such developer. */
module SprintSearch {
  import opened Stories
  import opened Calendar

  /** Story points one developer may take on in one sprint. */
  const StoryPointsPerDeveloperPerSprint: int := 8

  /** The key `${dev}-${sprintStart.getTime()}`: a developer index and a sprint start day. */
  type Slot = (int, int)

  /** developerSprintAssignments: story points booked per (developer, sprint start). */
  type Assignments = map<Slot, int>

  /** `developerSprintAssignments[key] || 0`: an absent key reads as 0. */
  function Booked(assignments: Assignments, dev: int, sprint: int): int
  {
    if (dev, sprint) in assignments then assignments[(dev, sprint)] else 0
  }

  /** The capacity test of the search: the booked points plus the story's stay within the limit. */
  predicate Fits(assignments: Assignments, dev: int, sprint: int, storyPoints: int)
  {
    Booked(assignments, dev, sprint) + storyPoints <= StoryPointsPerDeveloperPerSprint
  }

  /** The sprint tried after `sprint` when it has no room: the working day after its end. */
  ghost function NextSprintTry(sprint: int): (next: int)
    ensures next > sprint + SprintDurationDays
  {
    NextWorkingDay(SprintEnd(sprint))
  }

  /** The `n`-th sprint the search tries, starting from `sprint`. */
  ghost function Candidate(sprint: int, n: nat): int
    decreases n
  {
    if n == 0 then sprint else Candidate(NextSprintTry(sprint), n - 1)
  }

  lemma {:induction false} CandidateIncreasing(sprint: int, m: nat, n: nat)
    requires m < n
    ensures Candidate(sprint, m) < Candidate(sprint, n)
    decreases n
  {
    if m == 0 {
      if n > 1 {
        CandidateIncreasing(NextSprintTry(sprint), 0, n - 1);
      }
    } else {
      CandidateIncreasing(NextSprintTry(sprint), m - 1, n - 1);
    }
  }

  /** The lowest developer in [from, teamSize) with room in `sprint`, or teamSize if none. */
  ghost function FirstFittingDeveloper(assignments: Assignments, teamSize: int, sprint: int, storyPoints: int, from: int): (dev: int)
    requires 0 <= from <= teamSize
    ensures from <= dev <= teamSize
    ensures dev < teamSize ==> Fits(assignments, dev, sprint, storyPoints)
    ensures forall d :: from <= d < dev ==> !Fits(assignments, d, sprint, storyPoints)
    decreases teamSize - from
  {
    if from == teamSize then teamSize
    else if Fits(assignments, from, sprint, storyPoints) then from
    else FirstFittingDeveloper(assignments, teamSize, sprint, storyPoints, from + 1)
  }

  /** The booked keys whose sprint starts on or after `sprint`: a finite set that the search shrinks. */
  ghost function KeysFrom(assignments: Assignments, sprint: int): set<Slot>
  {
    set k | k in assignments && k.1 >= sprint
  }

  /** A sprint without room for any developer has a booking for developer 0,
      which the next sprint tried leaves behind. */
  lemma FullSprintShrinksKeys(assignments: Assignments, teamSize: int, sprint: int, storyPoints: int)
    requires teamSize >= 1 && storyPoints <= StoryPointsPerDeveloperPerSprint
    requires !Fits(assignments, 0, sprint, storyPoints)
    ensures KeysFrom(assignments, NextSprintTry(sprint)) < KeysFrom(assignments, sprint)
  {
    assert (0, sprint) in KeysFrom(assignments, sprint);
  }

  /** The (developer, sprint) slot the search settles on, starting from `sprint`. */
  ghost function FindSlot(assignments: Assignments, teamSize: int, storyPoints: int, sprint: int): (slot: Slot)
    requires teamSize >= 1 && storyPoints <= StoryPointsPerDeveloperPerSprint
    ensures 0 <= slot.0 < teamSize
    ensures slot.1 >= sprint
    ensures Fits(assignments, slot.0, slot.1, storyPoints)
    ensures forall d :: 0 <= d < slot.0 ==> !Fits(assignments, d, slot.1, storyPoints)
    decreases KeysFrom(assignments, sprint)
  {
    var dev := FirstFittingDeveloper(assignments, teamSize, sprint, storyPoints, 0);
    if dev < teamSize then (dev, sprint)
    else
      FullSprintShrinksKeys(assignments, teamSize, sprint, storyPoints);
      FindSlot(assignments, teamSize, storyPoints, NextSprintTry(sprint))
  }

  /** Every sprint the search tried before the one it returns had no developer with room. */
  lemma {:induction false} FindSlotSkipsOnlyFullSprints(assignments: Assignments, teamSize: int, storyPoints: int, sprint: int, n: nat)
    requires teamSize >= 1 && storyPoints <= StoryPointsPerDeveloperPerSprint
    requires Candidate(sprint, n) < FindSlot(assignments, teamSize, storyPoints, sprint).1
    ensures forall d :: 0 <= d < teamSize ==> !Fits(assignments, d, Candidate(sprint, n), storyPoints)
    decreases n
  {
    var dev := FirstFittingDeveloper(assignments, teamSize, sprint, storyPoints, 0);
    if n > 0 {
      CandidateIncreasing(sprint, 0, n);
      assert dev == teamSize;
      FindSlotSkipsOnlyFullSprints(assignments, teamSize, storyPoints, NextSprintTry(sprint), n - 1);
    }
  }

  /** The sprint the search returns is one of the sprints it tries. */
  lemma {:induction false} FindSlotIsCandidate(assignments: Assignments, teamSize: int, storyPoints: int, sprint: int) returns (n: nat)
    requires teamSize >= 1 && storyPoints <= StoryPointsPerDeveloperPerSprint
    ensures FindSlot(assignments, teamSize, storyPoints, sprint).1 == Candidate(sprint, n)
    decreases KeysFrom(assignments, sprint)
  {
    var dev := FirstFittingDeveloper(assignments, teamSize, sprint, storyPoints, 0);
    if dev < teamSize {
      n := 0;
    } else {
      FullSprintShrinksKeys(assignments, teamSize, sprint, storyPoints);
      var m := FindSlotIsCandidate(assignments, teamSize, storyPoints, NextSprintTry(sprint));
      n := m + 1;
    }
  }

  /** findAvailableDeveloperAndSprint. The source loops forever when teamSize <= 0 or
      the story's points exceed the per-sprint capacity; both are excluded here. */
  method FindAvailableDeveloperAndSprint(
    story: Story, latestDependencyEndDate: int, developerSprintAssignments: Assignments,
    teamSize: int, estimationType: Estimation)
    returns (assignedDeveloper: int, sprintStartDate: int, storyPoints: int)
    requires teamSize >= 1
    requires StoryPoints(story, estimationType) <= StoryPointsPerDeveloperPerSprint
    ensures storyPoints == StoryPoints(story, estimationType)
    ensures (assignedDeveloper, sprintStartDate)
         == FindSlot(developerSprintAssignments, teamSize, storyPoints, SprintStart(latestDependencyEndDate))
  {
    storyPoints := StoryPoints(story, estimationType);
    var currentSprintStart := SprintStart(latestDependencyEndDate);
    ghost var goal := FindSlot(developerSprintAssignments, teamSize, storyPoints, currentSprintStart);
    assignedDeveloper := -1;
    sprintStartDate := currentSprintStart;
    while assignedDeveloper == -1
      invariant assignedDeveloper == -1 ==>
        FindSlot(developerSprintAssignments, teamSize, storyPoints, currentSprintStart) == goal
      invariant assignedDeveloper != -1 ==> (assignedDeveloper, sprintStartDate) == goal
      decreases KeysFrom(developerSprintAssignments, currentSprintStart), if assignedDeveloper == -1 then 1 else 0
    {
      var sprintEnd := GetSprintEndDate(currentSprintStart);
      var dev := 0;
      while dev < teamSize
        invariant 0 <= dev <= teamSize
        invariant assignedDeveloper == -1
        invariant forall d :: 0 <= d < dev ==> !Fits(developerSprintAssignments, d, currentSprintStart, storyPoints)
      {
        var currentSP := Booked(developerSprintAssignments, dev, currentSprintStart);
        if currentSP + storyPoints <= StoryPointsPerDeveloperPerSprint {
          assert Fits(developerSprintAssignments, dev, currentSprintStart, storyPoints);
          assert FirstFittingDeveloper(developerSprintAssignments, teamSize, currentSprintStart, storyPoints, 0) == dev;
          assignedDeveloper := dev;
          sprintStartDate := currentSprintStart;
          break;
        }
        dev := dev + 1;
      }
      if assignedDeveloper == -1 {
        FullSprintShrinksKeys(developerSprintAssignments, teamSize, currentSprintStart, storyPoints);
        currentSprintStart := GetNextWorkingDay(sprintEnd);
      }
    }
  }
}
