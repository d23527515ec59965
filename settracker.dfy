/**
 * One set card of components.tsx (`SetCard`): a done flag flipped by a click
 * on the card, and a free-text load typed into an input whose wrapper stops
 * the click from reaching the card.
 */
module SetTracker {

  /** Where a click lands: on the card, or inside the load wrapper (`e.stopPropagation()`). */
  datatype Target = CardBody | LoadWrapper

  datatype Input =
    | ClickOn(target: Target)   // a click, delivered to the card unless stopped on the way
    | TypeLoad(text: string)     // the input's onChange with its new value

  /** The card's state: `isDone` and `weight`. */
  datatype Entry = Entry(done: bool, load: string)

  /** A card as first rendered: not done, empty load. */
  const Fresh := Entry(false, "")

  /** The effect of one input on the card. */
  function Apply(e: Entry, i: Input): (r: Entry)
    // only a click that reaches the card flips the flag; no click touches the load
    ensures i.ClickOn? ==> r.load == e.load && (r.done <==> (e.done != (i.target == CardBody)))
    // typing replaces the load by the typed text and never changes the flag
    ensures i.TypeLoad? ==> r.done == e.done && r.load == i.text
  {
    match i
    case ClickOn(t) => if t == CardBody then e.(done := !e.done) else e
    case TypeLoad(text) => e.(load := text)
  }

  function ApplyAll(e: Entry, inputs: seq<Input>): Entry
    decreases |inputs|
  {
    if inputs == [] then e else ApplyAll(Apply(e, inputs[0]), inputs[1..])
  }

  /** How many clicks reached the card. */
  function CardClicks(inputs: seq<Input>): nat
    decreases |inputs|
  {
    if inputs == [] then 0
    else (if inputs[0] == ClickOn(CardBody) then 1 else 0) + CardClicks(inputs[1..])
  }

  /** The last text typed, or `load` if nothing was typed. */
  function LastTyped(load: string, inputs: seq<Input>): string
    decreases |inputs|
  {
    if inputs == [] then load
    else LastTyped(if inputs[0].TypeLoad? then inputs[0].text else load, inputs[1..])
  }

  /** The card is done iff an odd number of clicks reached it (counting from its initial flag). */
  lemma {:induction false} DoneParity(e: Entry, inputs: seq<Input>)
    ensures ApplyAll(e, inputs).done <==> (e.done != (CardClicks(inputs) % 2 == 1))
    decreases |inputs|
  {
    if inputs != [] {
      DoneParity(Apply(e, inputs[0]), inputs[1..]);
    }
  }

  /** The load shown is the last text typed; clicks never change it. */
  lemma {:induction false} LoadIsLastTyped(e: Entry, inputs: seq<Input>)
    ensures ApplyAll(e, inputs).load == LastTyped(e.load, inputs)
    decreases |inputs|
  {
    if inputs != [] {
      LoadIsLastTyped(Apply(e, inputs[0]), inputs[1..]);
    }
  }

  /** Working inside the load area (typing, clicking in the input) never changes the done flag. */
  lemma {:induction false} LoadAreaKeepsDone(e: Entry, inputs: seq<Input>)
    requires forall k :: 0 <= k < |inputs| ==> inputs[k] != ClickOn(CardBody)
    ensures ApplyAll(e, inputs).done == e.done
    decreases |inputs|
  {
    if inputs != [] {
      LoadAreaKeepsDone(Apply(e, inputs[0]), inputs[1..]);
    }
  }

  class SetCard {
    var isDone: bool
    var weight: string

    function State(): Entry
      reads this
    {
      Entry(isDone, weight)
    }

    constructor ()
      ensures State() == Fresh
    {
      isDone, weight := false, "";
    }

    /** A click somewhere on the card; one inside the load wrapper is stopped there. */
    method Click(target: Target)
      modifies this
      ensures State() == Apply(old(State()), ClickOn(target))
    {
      if target == CardBody {
        isDone := !isDone;
      }
    }

    /** The input's onChange: `setWeight(e.target.value)`. */
    method Type(text: string)
      modifies this
      ensures State() == Apply(old(State()), TypeLoad(text))
    {
      weight := text;
    }
  }
}
