/**
 * The goal list that six pages repeat (`preventiva.ts`, `espiritual.ts`,
 * `financeira.ts`, `mental.ts`, `familiar.ts`, `social.ts`): a stored list of
 * goals, a click handler that toggles or deletes the goal whose id the clicked
 * item carries, and a form that puts a new, trimmed goal at the front. The
 * copies differ in one point only, captured by `Variant`: in four of them a
 * click on the goal's text toggles it and a click elsewhere returns before
 * saving; in `preventiva.ts` and `espiritual.ts` only the complete button
 * toggles and every other click still saves the unchanged list.
 */
module Goals {
  import opened Text
  import opened Seqs
  import opened Wrappers

  datatype Goal = Goal(id: string, text: string, completed: bool)

  /** Where a click inside the list lands. */
  datatype GoalClick = CompleteButton | ItemText | DeleteButton | Elsewhere

  datatype Variant =
    | ButtonOnly   // preventiva.ts, espiritual.ts
    | TextToggles  // financeira.ts, mental.ts, familiar.ts, social.ts

  function IdIs(id: string): Goal -> bool {
    (g: Goal) => g.id == id
  }

  predicate Toggles(click: GoalClick, variant: Variant) {
    click == CompleteButton || (click == ItemText && variant == TextToggles)
  }

  /** The index the handler acts on: none for a click outside an item, an item without id, or an unknown id. */
  function Target(goals: seq<Goal>, goalId: Option<string>): (i: int)
    ensures -1 <= i < |goals|
    ensures i >= 0 ==> goalId.Some? && goals[i].id == goalId.value && forall k :: 0 <= k < i ==> goals[k].id != goalId.value
    ensures i == -1 <==> goalId.None? || goalId.value == [] || forall k :: 0 <= k < |goals| ==> goals[k].id != goalId.value
  {
    if goalId.None? || goalId.value == [] then -1 else FindIndex(goals, IdIs(goalId.value))
  }

  /** The list after `handleGoalAction`. */
  function AfterAction(goals: seq<Goal>, goalId: Option<string>, click: GoalClick, variant: Variant): (r: seq<Goal>)
    ensures var i := Target(goals, goalId);
      && (i == -1 ==> r == goals)
      && (i >= 0 && Toggles(click, variant) ==>
            |r| == |goals| && r[i] == goals[i].(completed := !goals[i].completed)
            && forall k :: 0 <= k < |r| && k != i ==> r[k] == goals[k])
      && (i >= 0 && click == DeleteButton ==>
            |r| == |goals| - 1
            && (forall k :: 0 <= k < i ==> r[k] == goals[k])
            && (forall k :: i <= k < |r| ==> r[k] == goals[k + 1])
            && multiset(r) == multiset(goals) - multiset{goals[i]})
      && (!Toggles(click, variant) && click != DeleteButton ==> r == goals)
  {
    var i := Target(goals, goalId);
    if i == -1 then goals
    else if Toggles(click, variant) then goals[i := goals[i].(completed := !goals[i].completed)]
    else if click == DeleteButton then
      assert goals == goals[..i] + [goals[i]] + goals[i + 1..];
      goals[..i] + goals[i + 1..]
    else goals
  }

  /** Whether the handler reaches `saveItems`. */
  function Saves(goals: seq<Goal>, goalId: Option<string>, click: GoalClick, variant: Variant): (b: bool)
    ensures b ==> Target(goals, goalId) >= 0
    ensures variant == TextToggles ==> (b <==> Target(goals, goalId) >= 0 && (Toggles(click, variant) || click == DeleteButton))
  {
    Target(goals, goalId) >= 0 && (variant == ButtonOnly || Toggles(click, variant) || click == DeleteButton)
  }

  /** A save without a change only happens in the button-only copies. */
  lemma IdleSaveOnlyButtonOnly(goals: seq<Goal>, goalId: Option<string>, click: GoalClick, variant: Variant)
    requires Saves(goals, goalId, click, variant) && AfterAction(goals, goalId, click, variant) == goals
    ensures variant == ButtonOnly
  {
  }

  /** Toggling the same goal twice restores the list. */
  lemma {:induction false} ToggleTwice(goals: seq<Goal>, id: string, variant: Variant)
    requires id != []
    ensures AfterAction(AfterAction(goals, Some(id), CompleteButton, variant), Some(id), CompleteButton, variant) == goals
  {
    var i := Target(goals, Some(id));
    if i >= 0 {
      var once := AfterAction(goals, Some(id), CompleteButton, variant);
      assert once[i].id == id;
      assert forall k :: 0 <= k < i ==> once[k].id != id;
      assert Target(once, Some(id)) == i;
    }
  }

  /** The list after `handleAddGoal`. */
  function AfterAdd(goals: seq<Goal>, input: string, newId: string): (r: seq<Goal>)
    ensures Trim(input) == [] ==> r == goals
    ensures Trim(input) != [] ==>
      |r| == |goals| + 1 && r[0] == Goal(newId, Trim(input), false) && r[1..] == goals
  {
    var text := Trim(input);
    if text != [] then [Goal(newId, text, false)] + goals else goals
  }

  /** `loadItems(key) || []`. */
  function Loaded(stored: Option<seq<Goal>>): (r: seq<Goal>)
    ensures stored.None? ==> r == []
    ensures stored.Some? ==> r == stored.value
  {
    if stored.Some? then stored.value else []
  }

  class GoalList {
    var goals: seq<Goal>
    const variant: Variant

    /** Showing the page loads the stored list, or starts empty. */
    constructor (variant: Variant, stored: Option<seq<Goal>>)
      ensures this.variant == variant && goals == Loaded(stored)
    {
      this.variant := variant;
      goals := if stored.Some? then stored.value else [];
    }

    /** `handleGoalAction`; `saved` tells whether the list was written back. */
    method HandleGoalAction(goalId: Option<string>, click: GoalClick) returns (saved: bool)
      modifies this
      ensures goals == AfterAction(old(goals), goalId, click, variant)
      ensures saved == Saves(old(goals), goalId, click, variant)
    {
      if goalId.None? || goalId.value == [] {
        return false;
      }
      var goalIndex := FindIndex(goals, IdIs(goalId.value));
      if goalIndex == -1 {
        return false;
      }
      if click == CompleteButton || (variant == TextToggles && click == ItemText) {
        goals := goals[goalIndex := goals[goalIndex].(completed := !goals[goalIndex].completed)];
      } else if click == DeleteButton {
        goals := goals[..goalIndex] + goals[goalIndex + 1..];
      } else if variant == TextToggles {
        return false;
      }
      return true;
    }

    /** `handleAddGoal`. */
    method HandleAddGoal(input: string, newId: string)
      modifies this
      ensures goals == AfterAdd(old(goals), input, newId)
    {
      var text := Trim(input);
      if Truthy(text) {
        goals := [Goal(newId, text, false)] + goals;
      }
    }
  }
}
