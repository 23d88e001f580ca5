/** The demo counter (client/src/features/contact/counterReducer.ts). */
module Counter {
  import opened Wrappers

  datatype CounterState = CounterState(data: int)

  /** `initialState`. */
  const InitialState := CounterState(42)

  /** `counterReducer`; a missing state is the initial one. */
  function CounterReducer(state: Option<CounterState>, actionType: string): (r: CounterState)
    ensures actionType == "increment" ==> r.data == state.GetOr(InitialState).data + 1
    ensures actionType == "decrement" ==> r.data == state.GetOr(InitialState).data - 1
    ensures actionType != "increment" && actionType != "decrement" ==> r == state.GetOr(InitialState)
  {
    var s := state.GetOr(InitialState);
    if actionType == "increment" then s.(data := s.data + 1)
    else if actionType == "decrement" then s.(data := s.data - 1)
    else s
  }

  /** Incrementing then decrementing, or the reverse, gives the state back. */
  lemma IncrementDecrementInverse(s: CounterState)
    ensures CounterReducer(Some(CounterReducer(Some(s), "increment")), "decrement") == s
    ensures CounterReducer(Some(CounterReducer(Some(s), "decrement")), "increment") == s
  {
  }

  /** The state after a run of actions, first to last. */
  function Run(s: CounterState, actions: seq<string>): CounterState
    decreases |actions|
  {
    if |actions| == 0 then s else CounterReducer(Some(Run(s, actions[..|actions| - 1])), actions[|actions| - 1])
  }

  /** How many actions of a kind a run holds. */
  function Occurrences(actions: seq<string>, kind: string): nat
    decreases |actions|
  {
    if |actions| == 0 then 0
    else Occurrences(actions[..|actions| - 1], kind) + (if actions[|actions| - 1] == kind then 1 else 0)
  }

  /** A run moves the count by its increments less its decrements, whatever their order. */
  lemma {:induction false} RunCounts(s: CounterState, actions: seq<string>)
    ensures Run(s, actions).data == s.data + Occurrences(actions, "increment") - Occurrences(actions, "decrement")
    decreases |actions|
  {
    if |actions| > 0 {
      RunCounts(s, actions[..|actions| - 1]);
    }
  }
}
