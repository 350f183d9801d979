/** The guided tour: a modal that steps through six cards with a Next button
    and offers Finish on the last one. */
module Tour {

  /** The keys of the tour's cards, in order. */
  const StepKeys: seq<string> := ["welcome", "auditor", "content", "seo", "ops", "cv"]

  /** The last card's index, `TOUR.length - 1`. */
  const LastStep: int := |StepKeys| - 1

  /** `TOUR[step]` names a card. */
  predicate Valid(step: int) {
    0 <= step < |StepKeys|
  }

  datatype Button = Next | Finish

  /** `step < TOUR.length - 1 ? Next : Finish`. */
  function ButtonAt(step: int): (b: Button)
    ensures Valid(step) ==> (b == Finish <==> step == LastStep)
  {
    if step < |StepKeys| - 1 then Next else Finish
  }

  /** The modal shows a card, or has been closed or finished. */
  datatype State = Showing(step: int) | Closed

  /** The state when the modal opens: `useState(0)`. */
  const Start: State := Showing(0)

  /** Pressing the primary button, closing the modal, or opening the tour
      with "Start tour" on the page (or the welcome screen's launch). */
  datatype Event = Press | Close | Open

  /** Pressing the primary button advances on Next and ends on Finish; Close
      ends the tour at any card. Opening a closed tour mounts a fresh modal
      on the first card; while the modal is shown the tour is already open
      and opening it again changes nothing. */
  function Step(s: State, e: Event): (r: State)
    ensures Invariant(s) ==> Invariant(r)
    ensures s.Closed? ==> (r.Showing? <==> e == Open) && (r.Showing? ==> r == Start)
    ensures s.Showing? && r.Showing? ==> s.step <= r.step <= s.step + 1
    ensures s.Showing? && Valid(s.step) ==> (r.Closed? <==> e == Close || (e == Press && s.step == LastStep))
  {
    match s
    case Closed => if e == Open then Start else Closed
    case Showing(k) =>
      if e == Open then s
      else if e == Close then Closed
      else if ButtonAt(k) == Next then Showing(k + 1)
      else
        // the remaining event is a press
        assert e == Press;
        Closed
  }

  function Run(s: State, es: seq<Event>): State
    decreases |es|
  {
    if es == [] then s else Run(Step(s, es[0]), es[1..])
  }

  predicate Invariant(s: State) {
    s.Showing? ==> Valid(s.step)
  }

  /** From the opening card, whatever is pressed, the shown card is always
      one of the tour's cards. */
  lemma {:induction false} RunKeepsValid(s: State, es: seq<Event>)
    requires Invariant(s)
    ensures Invariant(Run(s, es))
    decreases |es|
  {
    if es != [] {
      RunKeepsValid(Step(s, es[0]), es[1..]);
    }
  }

  /** `n` presses of the primary button.  */
  function Presses(n: nat): (es: seq<Event>)
    ensures |es| == n
    ensures forall i :: 0 <= i < n ==> es[i] == Press
  {
    seq(n, i => Press)
  }

  /** Pressing `n` times from card `k` walks forward card by card until the
      last card, where the next press finishes the tour. */
  lemma {:induction false} PressesWalk(k: int, n: nat)
    requires Valid(k)
    ensures k + n <= LastStep ==> Run(Showing(k), Presses(n)) == Showing(k + n)
    ensures k + n > LastStep ==> Run(Showing(k), Presses(n)) == Closed
    decreases n
  {
    if n > 0 {
      assert Presses(n)[1..] == Presses(n - 1);
      if k < LastStep {
        PressesWalk(k + 1, n - 1);
      } else {
        ClosedUntilOpened(Presses(n - 1));
      }
    }
  }

  /** Running two event sequences one after the other. */
  lemma {:induction false} RunAppend(s: State, a: seq<Event>, b: seq<Event>)
    ensures Run(s, a + b) == Run(Run(s, a), b)
    decreases |a|
  {
    if a != [] {
      assert (a + b)[0] == a[0] && (a + b)[1..] == a[1..] + b;
      RunAppend(Step(s, a[0]), a[1..], b);
    } else {
      assert a + b == b;
    }
  }

  /** A closed or finished tour stays closed until it is opened again. */
  lemma {:induction false} ClosedUntilOpened(es: seq<Event>)
    requires Open !in es
    ensures Run(Closed, es) == Closed
    decreases |es|
  {
    if es != [] {
      assert es[0] != Open;
      ClosedUntilOpened(es[1..]);
    }
  }

  /** Opening a closed or finished tour starts it over at the first card,
      whatever card it was closed on. */
  lemma ReopenRestarts(s: State, es: seq<Event>)
    requires Run(s, es) == Closed
    ensures Run(s, es + [Open]) == Start
  {
    RunAppend(s, es, [Open]);
  }

  /** Five presses reach the last card, and the sixth finishes the tour. */
  lemma TourLength()
    ensures Run(Start, Presses(5)) == Showing(LastStep)
    ensures Run(Start, Presses(6)) == Closed
  {
    PressesWalk(0, 5);
    PressesWalk(0, 6);
  }
}
