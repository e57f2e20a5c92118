/** The user-story record shared by the scheduler, the epic helper and the form. */
module Stories {

  datatype Option<T> = None | Some(value: T)

  /** Priority levels offered by the story form. */
  datatype Priority = Low | Medium | High

  /** A user story as the scheduler receives it; `priority` is `null` in the source when unset. */
  datatype Story = Story(
    id: string,
    title: string,
    epic: string,
    minSP: int,
    maxSP: int,
    dependencies: seq<string>,
    priority: Option<Priority>)

  /** The two estimation modes: optimistic ("min") and pessimistic ("max"). */
  datatype Estimation = Min | Max

  /** The story points the scheduler books for a story under an estimation mode. */
  function StoryPoints(story: Story, estimation: Estimation): int
  {
    if estimation == Min then story.minSP else story.maxSP
  }
}
