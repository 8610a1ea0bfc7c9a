/**
 * The goal list of `social.ts`, the copy of `Goals` in which a click on a
 * goal's text toggles it like the complete button, and any other click inside an
 * item returns before saving.
 */
module Social {
  import opened Wrappers
  import opened Goals

  const GoalsStorageKey: string := "socialGoals"
  const GoalVariant: Variant := TextToggles

  /** A click on the text does what the complete button does, save included. */
  lemma TextClickToggles(goals: seq<Goal>, goalId: Option<string>)
    ensures AfterAction(goals, goalId, ItemText, GoalVariant) == AfterAction(goals, goalId, CompleteButton, GoalVariant)
    ensures Saves(goals, goalId, ItemText, GoalVariant) == Saves(goals, goalId, CompleteButton, GoalVariant)
  {
  }

  /** A click that is neither a toggle nor a delete changes nothing and saves nothing. */
  lemma OtherClickIgnored(goals: seq<Goal>, goalId: Option<string>)
    ensures AfterAction(goals, goalId, Elsewhere, GoalVariant) == goals
    ensures !Saves(goals, goalId, Elsewhere, GoalVariant)
  {
  }
}
