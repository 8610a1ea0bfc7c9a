/**
 * `setupListManagement` in `index.tsx`: one stored list of goals or of
 * activities per page section. The complete button flips the item at its index,
 * the delete button splices it out and the form appends a new, incomplete item
 * when its trimmed text (or name) is not empty.
 */
module IndexLists {
  import opened Text
  import opened Wrappers

  datatype Item =
    | Goal(text: string, completed: bool)
    | Activity(name: string, duration: string, completed: bool)

  /** What the section's form holds: a goal text, or an activity name with an optional duration field. */
  datatype FormInput =
    | GoalText(text: string)
    | ActivityFields(name: string, duration: Option<string>)
    | NoInput

  /** The item that a submit appends, if any. */
  function NewItem(input: FormInput): (r: Option<Item>)
    ensures r.Some? ==> !r.value.completed
    ensures input.GoalText? ==> (r.Some? <==> Trim(input.text) != []) && (r.Some? ==> r.value == Goal(Trim(input.text), false))
    ensures input.ActivityFields? ==> (r.Some? <==> Trim(input.name) != [])
    ensures input.ActivityFields? && r.Some? ==>
      r.value == Activity(Trim(input.name), if input.duration.Some? then Trim(input.duration.value) else "", false)
    ensures input.NoInput? ==> r.None?
  {
    match input
    case GoalText(text) =>
      var t := Trim(text);
      if t != [] then Some(Goal(t, false)) else None
    case ActivityFields(name, duration) =>
      var n := Trim(name);
      var d := if duration.Some? then Trim(duration.value) else "";
      if n != [] then Some(Activity(n, d, false)) else None
    case NoInput => None
  }

  function Flip(item: Item): (r: Item)
    ensures r.completed == !item.completed
    ensures r.Goal? == item.Goal?
    ensures r.Goal? ==> r.text == item.text
    ensures r.Activity? ==> r.name == item.name && r.duration == item.duration
  {
    item.(completed := !item.completed)
  }

  /** Flipping twice restores the item. */
  lemma FlipTwice(item: Item)
    ensures Flip(Flip(item)) == item
  {
  }

  class ListManager {
    var items: seq<Item>

    /** The list loaded from storage, or an empty one. */
    constructor (stored: Option<seq<Item>>)
      ensures items == if stored.Some? then stored.value else []
    {
      items := if stored.Some? then stored.value else [];
    }

    /** The complete button of the item at `index` (the index it was rendered with). */
    method Toggle(index: nat)
      requires index < |items|
      modifies this
      ensures |items| == |old(items)|
      ensures items[index] == Flip(old(items)[index])
      ensures forall k :: 0 <= k < |items| && k != index ==> items[k] == old(items)[k]
    {
      items := items[index := Flip(items[index])];
    }

    /** The delete button: `items.splice(index, 1)`. */
    method Delete(index: nat)
      requires index < |items|
      modifies this
      ensures items == old(items)[..index] + old(items)[index + 1..]
      ensures |items| == |old(items)| - 1
      ensures forall k :: 0 <= k < index ==> items[k] == old(items)[k]
      ensures forall k :: index <= k < |items| ==> items[k] == old(items)[k + 1]
    {
      items := items[..index] + items[index + 1..];
    }

    /** The form submit: appends the new item, or changes nothing. */
    method Submit(input: FormInput)
      modifies this
      ensures var n := NewItem(input);
        items == if n.Some? then old(items) + [n.value] else old(items)
    {
      var n := NewItem(input);
      if n.Some? {
        items := items + [n.value];
      }
    }
  }
}
