/**
 Any later use of an auction, as a sequence of observations and questions: a restored
 auction answers as the original does, with times shifted to its clock.
 */
module AuctionTraces {
  import opened Wrappers
  import opened Capacity
  import opened Bids
  import opened AuctionRules
  import opened AuctionSnapshot

  datatype Event = Observing(bid: Bid) | Asking(now: real, taken: set<string>)

  datatype Answer = Observed(error: Option<ObserveError>) | Answered(result: Result<AuctionResult, EvaluateError>)

  /** The book after one sighting; a refused one changes nothing. */
  function After(book: Book, b: Bid): (next: Book)
    requires book.Valid()
    ensures next.Valid()
  {
    if Observe(book, b).Success? then
      ObserveKeeps(book, b);
      Observe(book, b).value
    else book
  }

  function Step(s: SearchSettings, a: AuctionState, e: Event): (Answer, AuctionState)
    requires a.book.Valid()
    ensures Step(s, a, e).1.book.Valid()
  {
    match e
    case Observing(b) =>
      (Observed(if Observe(a.book, b).Failure? then Some(Observe(a.book, b).error) else None),
       a.(book := After(a.book, b)))
    case Asking(now, taken) => (Answered(Evaluate(s, a, now, taken)), a)
  }

  /** All answers, in order. */
  function Trace(s: SearchSettings, a: AuctionState, events: seq<Event>): seq<Answer>
    requires a.book.Valid()
    decreases |events|
  {
    if events == [] then []
    else [Step(s, a, events[0]).0] + Trace(s, Step(s, a, events[0]).1, events[1..])
  }

  function ShiftEvent(e: Event, delta: real): Event {
    match e
    case Observing(b) => Observing(ShiftBid(delta)(b))
    case Asking(now, taken) => Asking(now + delta, taken)
  }

  function ShiftEvents(events: seq<Event>, delta: real): seq<Event> {
    seq(|events|, i requires 0 <= i < |events| => ShiftEvent(events[i], delta))
  }

  function ShiftAnswer(answer: Answer, delta: real): Answer {
    match answer
    case Observed(error) => answer
    case Answered(result) => Answered(ShiftResult(result, delta))
  }

  function ShiftAnswers(answers: seq<Answer>, delta: real): seq<Answer> {
    seq(|answers|, i requires 0 <= i < |answers| => ShiftAnswer(answers[i], delta))
  }

  lemma StepShifts(s: SearchSettings, a: AuctionState, e: Event, delta: real)
    requires a.book.Valid()
    ensures Shift(a, delta).book.Valid()
    ensures Step(s, Shift(a, delta), ShiftEvent(e, delta))
         == (ShiftAnswer(Step(s, a, e).0, delta), Shift(Step(s, a, e).1, delta))
  {
    hide Observe, Evaluate, ShiftBook, ShiftResult, Book.Valid;
    ShiftBookValid(a.book, delta);
    match e
    case Observing(b) => ObserveShifts(a.book, b, delta);
    case Asking(now, taken) => EvaluateShifts(s, a, now, taken, delta);
  }

  /** Every later sequence of calls on a shifted auction gives the shifted answers. */
  lemma {:induction false} TraceShifts(s: SearchSettings, a: AuctionState, events: seq<Event>, delta: real)
    requires a.book.Valid()
    ensures Shift(a, delta).book.Valid()
    ensures Trace(s, Shift(a, delta), ShiftEvents(events, delta)) == ShiftAnswers(Trace(s, a, events), delta)
    decreases |events|
  {
    hide Step, ShiftEvent, ShiftAnswer, Shift, Book.Valid;
    ShiftIsValid(a, delta);
    if events != [] {
      var next := Step(s, a, events[0]).1;
      StepShifts(s, a, events[0], delta);
      TraceShifts(s, next, events[1..], delta);
      assert ShiftEvents(events, delta)[1..] == ShiftEvents(events[1..], delta);
      ConsShifts(Step(s, a, events[0]).0, Trace(s, next, events[1..]), delta);
    }
  }

  lemma ShiftIsValid(a: AuctionState, delta: real)
    requires a.book.Valid()
    ensures Shift(a, delta).book.Valid()
  {
    ShiftBookValid(a.book, delta);
  }

  lemma ConsShifts(first: Answer, rest: seq<Answer>, delta: real)
    ensures ShiftAnswers([first] + rest, delta) == [ShiftAnswer(first, delta)] + ShiftAnswers(rest, delta)
  {
  }

  /** A restored auction cannot be told from the original, whatever happens to both afterwards. */
  lemma RestoredBehavesAlike(
    s: SearchSettings, a: AuctionState, scope: Option<string>, rebase: real, events: seq<Event>)
    requires a.Valid() && scope != Some("")
    ensures var delta := rebase - a.terms.startedAt;
            var restored := Restore(TakeSnapshot(a, scope).value, scope, Some(rebase));
            && restored.Success? && restored.value.book.Valid()
            && Trace(s, restored.value, ShiftEvents(events, delta)) == ShiftAnswers(Trace(s, a, events), delta)
  {
    hide Restore, Trace, Evaluate, Observe, ShiftAnswers, ShiftEvents, Shift, Book.Valid;
    RestoreRebases(a, scope, rebase);
    TraceShifts(s, a, events, rebase - a.terms.startedAt);
  }
}
