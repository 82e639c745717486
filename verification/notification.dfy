/** The single notification slot of the to-do list: a visibility flag and
    an optional kind, written when an add, update or delete settles and
    reset by the dismissal that every settlement schedules. The dismissal
    timer is the explicit `Clear` event. */
module Notification {
  import opened Wrappers
  import opened Types

  /** The slot: whether the banner is shown, and what it says. */
  datatype Slot = Slot(visible: bool, kind: Option<NotificationType>)

  const Initial: Slot := Slot(false, None)

  /** The mutations that report through the slot (completing a record
      does not). */
  datatype Mutation = AddMutation | UpdateMutation | DeleteMutation

  /** A mutation settling with success or with an error's text, or the
      dismissal. */
  datatype Event = Settled(mutation: Mutation, outcome: Result<(), string>) | Clear

  function SuccessKind(m: Mutation): NotificationType {
    match m
    case AddMutation => SuccessAdd
    case UpdateMutation => SuccessUpdate
    case DeleteMutation => SuccessDelete
  }

  /** The kind an event writes into the slot, if it writes one. */
  function KindOf(e: Event): Option<NotificationType> {
    match e
    case Settled(m, Ok(_)) => Some(SuccessKind(m))
    case Settled(_, Err(message)) => Some(Error(message))
    case Clear => None
  }

  predicate IsSuccess(e: Event) {
    e.Settled? && e.outcome.Ok?
  }

  /** What the effects and the dismissal do to the slot: a success shows
      the banner with its kind; an error only records its text and leaves
      the banner as it was; `Clear` hides it and forgets the kind. */
  function Step(s: Slot, e: Event): Slot {
    match e
    case Settled(m, Ok(_)) => Slot(true, Some(SuccessKind(m)))
    case Settled(_, Err(message)) => Slot(s.visible, Some(Error(message)))
    case Clear => Slot(false, None)
  }

  /** The slot after a sequence of events. */
  function Run(s: Slot, events: seq<Event>): Slot
    decreases |events|
  {
    if |events| == 0 then s
    else Step(Run(s, events[..|events| - 1]), events[|events| - 1])
  }

  /** The banner text: a fixed sentence per success, the error's own
      text, and nothing for an empty slot. */
  function Message(kind: Option<NotificationType>): string {
    match kind
    case Some(SuccessAdd) => "Todo item added successfully!"
    case Some(SuccessUpdate) => "Todo item updated successfully!"
    case Some(SuccessDelete) => "Todo item deleted successfully!"
    case Some(Error(message)) => message
    case None => ""
  }

  /** One step: a success shows its own fixed message; an error keeps the
      visibility and carries its text; `Clear` empties the slot. */
  lemma StepEffects(s: Slot, m: Mutation, message: string)
    ensures Step(s, Settled(m, Ok(()))) == Slot(true, Some(SuccessKind(m)))
    ensures Step(s, Settled(m, Err(message))).visible == s.visible
    ensures Message(Step(s, Settled(m, Err(message))).kind) == message
    ensures Step(s, Clear) == Initial && Message(Step(s, Clear).kind) == ""
  {
  }

  /** The success messages are non-empty and tell the three mutations
      apart. */
  lemma SuccessMessagesIdentifyMutation(m1: Mutation, m2: Mutation)
    ensures Message(Some(SuccessKind(m1))) != ""
    ensures Message(Some(SuccessKind(m1))) == Message(Some(SuccessKind(m2))) <==> m1 == m2
  {
  }

  /** The banner is blank exactly for an empty slot or an error without
      text; every other kind has something to say. */
  lemma BlankMessageMeansNothingToSay(kind: Option<NotificationType>)
    ensures Message(kind) == "" <==> kind == None || kind == Some(Error(""))
  {
  }

  /** The slot holds one notification: the latest event decides the kind,
      overwriting whatever was there. */
  lemma LatestEventWins(s: Slot, events: seq<Event>)
    ensures |events| > 0 ==> Run(s, events).kind == KindOf(events[|events| - 1])
    ensures |events| == 0 ==> Run(s, events) == s
  {
  }

  /** The success at position `i` has not been dismissed since. */
  predicate StillShowing(events: seq<Event>, i: int)
    requires 0 <= i < |events|
  {
    IsSuccess(events[i]) && forall j :: i < j < |events| ==> !events[j].Clear?
  }

  /** From the initial slot, the banner is visible exactly when some
      success settled after the last dismissal. */
  lemma {:induction false} VisibleIffSuccessSinceClear(events: seq<Event>)
    ensures Run(Initial, events).visible <==>
              exists i :: 0 <= i < |events| && StillShowing(events, i)
    decreases |events|
  {
    if |events| > 0 {
      var n := |events| - 1;
      var prefix := events[..n];
      VisibleIffSuccessSinceClear(prefix);
      var last := events[n];
      if IsSuccess(last) {
        assert StillShowing(events, n);
      } else if last.Clear? {
        forall i | 0 <= i < |events| ensures !StillShowing(events, i) {
          if i < n {
            assert events[n].Clear?;
          }
        }
      } else {
        assert Run(Initial, events).visible == Run(Initial, prefix).visible;
        if Run(Initial, prefix).visible {
          var i :| 0 <= i < n && StillShowing(prefix, i);
          assert StillShowing(events, i);
        }
        forall i | 0 <= i < |events| && StillShowing(events, i) ensures StillShowing(prefix, i) {
        }
      }
    }
  }

  /** An error that settles while no banner is up is recorded but never
      shown: the slot carries the error text with the banner hidden. */
  lemma ErrorOnHiddenSlotStaysHidden(m: Mutation, message: string)
    ensures Run(Initial, [Settled(m, Err(message))]) == Slot(false, Some(Error(message)))
  {
    assert [Settled(m, Err(message))][..0] == [];
  }
}
