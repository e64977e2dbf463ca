/** Sequences of requests served one after another, as the single-threaded
    server does, and what holds across them: the invariant, ids that are
    never handed out twice, and calls rejected by the gate changing nothing. */
module ItemTrace {
  import opened ItemModel

  /** One incoming request together with the `x-api-key` header it carries. */
  datatype Call = Call(apiKey: Option<string>, request: Request)

  function Step(s: State, c: Call): (State, Response)
  {
    Serve(s, c.apiKey, c.request)
  }

  /** The states the service passes through: s, then the state after each call. */
  function Run(s: State, calls: seq<Call>): (states: seq<State>)
    ensures |states| == |calls| + 1
    ensures states[0] == s
    decreases |calls|
  {
    if calls == [] then [s] else [s] + Run(Step(s, calls[0]).0, calls[1..])
  }

  /** The response the j-th call receives. */
  function ReplyAt(s: State, calls: seq<Call>, j: int): Response
    requires 0 <= j < |calls|
  {
    Step(Run(s, calls)[j], calls[j]).1
  }

  /** Each state of a run is the one before it with the next call applied. */
  lemma {:induction false} RunStep(s: State, calls: seq<Call>, j: int)
    requires 0 <= j < |calls|
    ensures Run(s, calls)[j + 1] == Step(Run(s, calls)[j], calls[j]).0
    decreases j
  {
    if j > 0 {
      RunStep(Step(s, calls[0]).0, calls[1..], j - 1);
    }
  }

  /** Every state a run passes through satisfies the invariant. */
  lemma {:induction false} RunKeepsWellFormed(s: State, calls: seq<Call>, j: int)
    requires WellFormed(s) && 0 <= j <= |calls|
    ensures WellFormed(Run(s, calls)[j])
    decreases j
  {
    if j > 0 {
      RunKeepsWellFormed(s, calls, j - 1);
      RunStep(s, calls, j - 1);
      ServeKeepsWellFormed(Run(s, calls)[j - 1], calls[j - 1].apiKey, calls[j - 1].request);
    }
  }

  /** The counter never goes back. */
  lemma {:induction false} CounterNeverDecreases(s: State, calls: seq<Call>, i: int, j: int)
    requires 0 <= i <= j <= |calls|
    ensures Run(s, calls)[i].currentId <= Run(s, calls)[j].currentId
    decreases j
  {
    if i < j {
      CounterNeverDecreases(s, calls, i, j - 1);
      RunStep(s, calls, j - 1);
      ServeCounter(Run(s, calls)[j - 1], calls[j - 1].apiKey, calls[j - 1].request);
    }
  }

  /** A created item gets the counter value of the state it was created in. */
  lemma CreatedTakesCounter(s: State, calls: seq<Call>, j: int)
    requires 0 <= j < |calls| && ReplyAt(s, calls, j).Created?
    ensures ReplyAt(s, calls, j).item.id == Run(s, calls)[j].currentId
    ensures Run(s, calls)[j + 1].currentId == Run(s, calls)[j].currentId + 1
  {
    RunStep(s, calls, j);
  }

  /** Ids are never reused: an item created by the j-th call has an id larger
      than that of every item stored at any earlier point of the run, even
      items deleted since. */
  lemma IdsNeverReused(s: State, calls: seq<Call>, i: int, j: int)
    requires WellFormed(s)
    requires 0 <= i <= j < |calls| && ReplyAt(s, calls, j).Created?
    ensures forall it :: it in Run(s, calls)[i].items ==> it.id < ReplyAt(s, calls, j).item.id
  {
    RunKeepsWellFormed(s, calls, i);
    CounterNeverDecreases(s, calls, i, j);
    CreatedTakesCounter(s, calls, j);
    var items := Run(s, calls)[i].items;
    assert forall it :: it in items ==> exists k :: 0 <= k < |items| && items[k] == it;
  }

  /** Two creates in one run never hand out the same id; later ones get
      larger ids. */
  lemma CreatedIdsIncrease(s: State, calls: seq<Call>, i: int, j: int)
    requires 0 <= i < j < |calls|
    requires ReplyAt(s, calls, i).Created? && ReplyAt(s, calls, j).Created?
    ensures ReplyAt(s, calls, i).item.id < ReplyAt(s, calls, j).item.id
  {
    CreatedTakesCounter(s, calls, i);
    CreatedTakesCounter(s, calls, j);
    CounterNeverDecreases(s, calls, i + 1, j);
  }

  /** A run of calls that all lack the right key is answered Forbidden
      throughout and leaves the state as it found it. */
  lemma {:induction false} RejectedCallsChangeNothing(s: State, calls: seq<Call>)
    requires forall k :: 0 <= k < |calls| ==> !Authorized(calls[k].apiKey)
    ensures forall j :: 0 <= j <= |calls| ==> Run(s, calls)[j] == s
    ensures forall j :: 0 <= j < |calls| ==> ReplyAt(s, calls, j) == Forbidden
    decreases |calls|
  {
    if calls != [] {
      RejectedRequest(s, calls[0].apiKey, calls[0].request);
      RejectedCallsChangeNothing(s, calls[1..]);
      forall j | 0 < j <= |calls|
        ensures Run(s, calls)[j] == s
      {
        assert Run(s, calls)[j] == Run(s, calls[1..])[j - 1];
      }
    }
  }
}
