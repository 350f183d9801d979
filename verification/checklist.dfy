/** The Ops Copilot's QA checklist: labelled items that a click ticks or
    unticks. An item's `label` is called `title` here, since `label` is a
    Dafny keyword. */
module Checklist {

  datatype Item = Item(title: string, done: bool)

  /** The checklist as it first appears: five labels, nothing ticked. */
  const InitialQa: seq<Item> := [
    Item("UTM params present & correct", false),
    Item("Creative sizes mapped to placements", false),
    Item("Budget pacing within guardrails", false),
    Item("Brand safety & geo targeting", false),
    Item("Naming conventions (Campaign/AdSet/Ad)", false)
  ]

  /** `toggle(i)`: flips `done` on the item at index `i` and keeps every other
      item as it is. */
  function Toggle(list: seq<Item>, i: int): (r: seq<Item>)
    ensures |r| == |list|
    ensures forall k :: 0 <= k < |list| ==> r[k].title == list[k].title
    ensures forall k :: 0 <= k < |list| && k != i ==> r[k] == list[k]
    ensures 0 <= i < |list| ==> r[i].done != list[i].done
  {
    seq(|list|, k requires 0 <= k < |list| =>
      if k == i then list[k].(done := !list[k].done) else list[k])
  }

  /** Ticking the same box twice restores the list. */
  lemma ToggleTwice(list: seq<Item>, i: int)
    ensures Toggle(Toggle(list, i), i) == list
  {
  }

  /** An index outside the list changes nothing. */
  lemma ToggleOutOfRange(list: seq<Item>, i: int)
    requires i < 0 || i >= |list|
    ensures Toggle(list, i) == list
  {
  }

  /** Clicks on two boxes give the same list in either order. */
  lemma ToggleCommutes(list: seq<Item>, i: int, j: int)
    ensures Toggle(Toggle(list, i), j) == Toggle(Toggle(list, j), i)
  {
  }

  /** The number of ticked items. */
  function DoneCount(list: seq<Item>): (n: nat)
    ensures n <= |list|
    decreases |list|
  {
    if list == [] then 0
    else DoneCount(list[..|list| - 1]) + (if list[|list| - 1].done then 1 else 0)
  }

  /** Ticking raises the count by one and unticking lowers it by one. */
  lemma {:induction false} ToggleCount(list: seq<Item>, i: int)
    requires 0 <= i < |list|
    ensures list[i].done ==> DoneCount(Toggle(list, i)) == DoneCount(list) - 1
    ensures !list[i].done ==> DoneCount(Toggle(list, i)) == DoneCount(list) + 1
    decreases |list|
  {
    var n := |list| - 1;
    var t := Toggle(list, i);
    if i < n {
      ToggleCount(list[..n], i);
      assert t[..n] == Toggle(list[..n], i);
    } else {
      assert t[..n] == list[..n];
    }
  }

  /** A list with no ticked item counts zero. */
  lemma {:induction false} NoneDone(list: seq<Item>)
    requires forall k :: 0 <= k < |list| ==> !list[k].done
    ensures DoneCount(list) == 0
    decreases |list|
  {
    if list != [] {
      NoneDone(list[..|list| - 1]);
    }
  }

  /** The initial list has five items and nothing ticked. */
  lemma InitialNothingDone()
    ensures |InitialQa| == 5 && DoneCount(InitialQa) == 0
  {
    NoneDone(InitialQa);
  }
}
