/** The answer map and its one update rule, `handleToggle` of src/App.js.
    The map is replaced as a whole on every toggle, so it is modelled as a
    value and the toggle as a function from the old map to the new one. */
module Answers {

  /** Answers by item id. A key may be absent: nothing is answered yet. */
  type AnswerSet = map<int, bool>

  /** The item is checked: its key is present and maps to true. An absent
      key reads as undefined in the source, which is falsy. */
  predicate Checked(answers: AnswerSet, id: int) {
    id in answers && answers[id]
  }

  /** The answer map after the switch of item `id` is flipped: the new map
      holds the negation of the old truth value at `id`, reading an absent
      key as false, and nothing else changes. */
  function Toggle(answers: AnswerSet, id: int): (r: AnswerSet)
    ensures id in r && r[id] == !Checked(answers, id)
    ensures r.Keys == answers.Keys + {id}
    ensures forall k :: k in answers && k != id ==> r[k] == answers[k]
    ensures forall k :: k != id ==> (Checked(r, k) <==> Checked(answers, k))
  {
    answers[id := !Checked(answers, id)]
  }

  /** Every item checked in `a` is also checked in `b`. */
  predicate Subsumes(a: AnswerSet, b: AnswerSet) {
    forall id :: id in a && a[id] ==> Checked(b, id)
  }

  /** Toggling twice restores the truth value of every key. A key that was
      present comes back unchanged; an absent key comes back as an explicit
      false. */
  lemma ToggleTwice(answers: AnswerSet, id: int)
    ensures forall k :: Checked(Toggle(Toggle(answers, id), id), k) <==> Checked(answers, k)
    ensures id in answers ==> Toggle(Toggle(answers, id), id) == answers
    ensures id !in answers ==> Toggle(Toggle(answers, id), id) == answers[id := false]
  {
  }

  /** Switching an unchecked item on only adds checked items, and switching
      a checked item off only removes them. */
  lemma ToggleDirection(answers: AnswerSet, id: int)
    ensures !Checked(answers, id) ==> Subsumes(answers, Toggle(answers, id))
    ensures Checked(answers, id) ==> Subsumes(Toggle(answers, id), answers)
  {
  }
}
