/** The condition of a feed: a state of increasing badness and the errors that explain it. */
module FeedConditions {

  /** Best first. */
  datatype FeedState = Good | Stale | NotReady | Error

  datatype Condition = Condition(state: FeedState, errors: seq<string>)

  function Rank(s: FeedState): nat {
    match s
    case Good => 0
    case Stale => 1
    case NotReady => 2
    case Error => 3
  }

  /** The maximum in the order good, stale, not ready, error. */
  function Worse(s: FeedState, t: FeedState): (r: FeedState)
    ensures r == Error <==> s == Error || t == Error
    ensures r == NotReady <==> (s == NotReady || t == NotReady) && s != Error && t != Error
    ensures r == Stale <==> (s == Stale || t == Stale) && s in {Good, Stale} && t in {Good, Stale}
    ensures r == Good <==> s == Good && t == Good
  {
    if Rank(s) < Rank(t) then t else s
  }

  function Merged(a: Condition, b: Condition): Condition {
    Condition(Worse(a.state, b.state), a.errors + b.errors)
  }

  class FeedCondition {
    var state: FeedState
    var errors: seq<string>

    function Value(): Condition
      reads this
    {
      Condition(state, errors)
    }

    constructor ()
      ensures Value() == Condition(NotReady, [])
    {
      state, errors := NotReady, [];
    }

    method MergeState(s: FeedState)
      modifies this`state
      ensures Value() == Condition(Worse(old(state), s), old(errors))
    {
      if Rank(state) < Rank(s) {
        state := s;
      }
    }

    method Merge(r: FeedCondition)
      modifies this
      ensures Value() == Merged(old(Value()), old(r.Value()))
    {
      MergeState(r.state);
      errors := errors + r.errors;
    }

    method Reset(s: FeedState)
      modifies this
      ensures Value() == Condition(s, [])
    {
      state := s;
      errors := [];
    }
  }
}
