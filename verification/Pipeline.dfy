/** The agent graph: seven wrapped nodes, their routing, and the progress events of a run. */
module Pipeline {
  import opened Options

  datatype Node =
    | DataFetch
    | ConstraintValidation
    | ClassicalOptimization
    | QuantumDispatch
    | Comparison
    | FrontierComputation
    | LlmExplanation

  datatype State = State(
    tickers: nat,
    runQuantum: bool,
    hasMarketData: bool,
    frontierEnabled: bool,
    hasClassical: bool,
    hasQuantum: bool,
    error: Option<string>,
    failedNode: Option<Node>,
    completed: seq<Node>,
    notes: Notes)

  /** A warning of the constraint check, or of an optional node that failed. */
  datatype Warning = Given(text: string) | SoftFailure(node: Node, text: string)

  /** The warnings so far, and how long each node took. */
  datatype Notes = Notes(warnings: seq<Warning>, timings: map<Node, real>)

  /** What the code behind a node does, and how long it takes: return its data, raise where the node catches it,
      or raise where it does not. */
  datatype Body =
    | Succeeds(tickers: nat, frontier: bool, warnings: seq<string>, elapsed: real)
    | Fails(text: string, elapsed: real)
    | Raises(text: string)

  datatype Event = Started(node: Node) | Completed(node: Node) | Failed(node: Node)

  const NO_MARKET_DATA := "'expected_returns'"

  function Stage(node: Node): nat {
    match node
    case DataFetch => 0
    case ConstraintValidation => 1
    case ClassicalOptimization => 2
    case QuantumDispatch => 3
    case Comparison => 4
    case FrontierComputation => 5
    case LlmExplanation => 6
  }

  predicate IsFatal(node: Node) {
    Stage(node) <= 2
  }

  /** An error counts only when its text is not empty. */
  predicate Halted(state: State) {
    state.error.Some? && state.error.value != "" && state.failedNode.Some?
  }

  function Initial(tickers: nat, runQuantum: bool): State {
    State(tickers, runQuantum, false, false, false, false, None, None, [], Notes([], map[]))
  }

  // ---- Nodes ----

  /** The nodes that read market data before their own error handling begins. */
  predicate NeedsMarketData(node: Node, state: State) {
    match node
    case ConstraintValidation => true
    case ClassicalOptimization => true
    case QuantumDispatch => true
    case FrontierComputation => state.frontierEnabled
    case _ => false
  }

  function Effective(node: Node, state: State, body: Body): Body {
    if NeedsMarketData(node, state) && !state.hasMarketData then Raises(NO_MARKET_DATA) else body
  }

  function WithError(state: State, node: Node, text: string): State {
    state.(error := Some(text), failedNode := Some(node))
  }

  function WithCompleted(state: State, node: Node): State {
    if node in state.completed then state else state.(completed := state.completed + [node])
  }

  function GivenAll(texts: seq<string>): (w: seq<Warning>)
    ensures |w| == |texts| && forall i :: 0 <= i < |w| ==> w[i] == Given(texts[i])
  {
    seq(|texts|, i requires 0 <= i < |texts| => Given(texts[i]))
  }

  /** The warnings a node that handles its outcome leaves. */
  function WarningsAfter(node: Node, before: seq<Warning>, body: Body): seq<Warning> {
    if node.ConstraintValidation? && body.Succeeds? then GivenAll(body.warnings)
    else if (node.QuantumDispatch? || node.FrontierComputation?) && body.Fails? then before + [SoftFailure(node, body.text)]
    else before
  }

  /** A node that handles its outcome records its time; a disabled frontier does nothing. */
  function WithNotes(node: Node, state: State, body: Body): State
    requires !body.Raises?
  {
    if node.FrontierComputation? && !state.frontierEnabled then state
    else state.(notes := Notes(WarningsAfter(node, state.notes.warnings, body), state.notes.timings[node := body.elapsed]))
  }

  /** What a node that succeeds puts in the state. */
  function WithResult(node: Node, state: State, body: Body): State
    requires body.Succeeds?
  {
    match node
    case DataFetch => state.(hasMarketData := true, tickers := body.tickers)
    case ConstraintValidation => state.(frontierEnabled := body.frontier)
    case ClassicalOptimization => state.(hasClassical := true)
    case QuantumDispatch => state.(hasQuantum := true)
    case _ => state
  }

  /** The wrapper: the state a node leaves and the events it publishes. */
  function Wrapped(node: Node, state: State, body: Body): (State, seq<Event>) {
    if Halted(state) && state.failedNode != Some(node) then (state, [])
    else
      match Effective(node, state, body)
      case Raises(text) => (WithError(state, node, text), [Started(node), Event.Failed(node)])
      case Fails(text, _) =>
        if IsFatal(node) then
          (WithError(WithNotes(node, state, body), node, text),
           [Started(node), if text != "" then Event.Failed(node) else Completed(node)])
        else
          (WithCompleted(WithNotes(node, state, body), node),
           [Started(node), if Halted(state) then Event.Failed(node) else Completed(node)])
      case Succeeds(_, _, _, _) =>
        (WithCompleted(WithNotes(node, WithResult(node, state, body), body), node),
         [Started(node), if Halted(state) then Event.Failed(node) else Completed(node)])
  }

  // ---- Routing ----

  function Next(limit: nat, node: Node, state: State): Option<Node> {
    match node
    case DataFetch => if Halted(state) then None else Some(ConstraintValidation)
    case ConstraintValidation => if Halted(state) then None else Some(ClassicalOptimization)
    case ClassicalOptimization =>
      if Halted(state) && IsFatal(state.failedNode.value) then None
      else if state.runQuantum && state.tickers <= limit then Some(QuantumDispatch)
      else Some(Comparison)
    case QuantumDispatch => Some(Comparison)
    case Comparison =>
      if state.frontierEnabled && state.hasClassical then Some(FrontierComputation) else Some(LlmExplanation)
    case FrontierComputation => Some(LlmExplanation)
    case LlmExplanation => None
  }

  datatype Run = Run(visited: seq<Node>, state: State, events: seq<Event>)

  /** A run of the graph from a node on. */
  function Execute(limit: nat, node: Node, state: State, bodies: Node -> Body): Run
    decreases 7 - Stage(node)
  {
    var (after, events) := Wrapped(node, state, bodies(node));
    match Next(limit, node, after)
    case None => Run([node], after, events)
    case Some(next) =>
      var rest := Execute(limit, next, after, bodies);
      Run([node] + rest.visited, rest.state, events + rest.events)
  }

  /** One step of a run. */
  lemma ExecuteStep(limit: nat, node: Node, state: State, bodies: Node -> Body)
    ensures var (after, events) := Wrapped(node, state, bodies(node));
      Execute(limit, node, state, bodies) == match Next(limit, node, after)
        case None => Run([node], after, events)
        case Some(next) =>
          var rest := Execute(limit, next, after, bodies);
          Run([node] + rest.visited, rest.state, events + rest.events)
  {
    hide Wrapped, Next;
  }

  lemma NextAdvances(limit: nat, node: Node, state: State)
    ensures var next := Next(limit, node, state);
      if next.Some? then Stage(node) < Stage(next.value)
      else node.LlmExplanation? || (IsFatal(node) && Halted(state))
  {
  }

  class Graph {
    const limit: nat
    var events: seq<Event>

    constructor (limit: nat)
      ensures this.limit == limit && events == []
    {
      this.limit, events := limit, [];
    }

    method RunNode(node: Node, state: State, body: Body) returns (result: State, raised: Option<string>)
      requires !Halted(state) || state.failedNode == Some(node)
      ensures raised == if Effective(node, state, body).Raises? then Some(Effective(node, state, body).text) else None
      ensures raised.None? ==> result == Wrapped(node, state, body).0
    {
      if NeedsMarketData(node, state) && !state.hasMarketData {
        return state, Some(NO_MARKET_DATA);
      }
      match body
      case Raises(text) =>
        return state, Some(text);
      case Fails(text, _) =>
        result := WithNotes(node, state, body);
        if IsFatal(node) {
          result := WithError(result, node, text);
        } else {
          result := WithCompleted(result, node);
        }
        return result, None;
      case Succeeds(_, _, _, _) =>
        result := WithResult(node, state, body);
        result := WithNotes(node, result, body);
        result := WithCompleted(result, node);
        return result, None;
    }

    /** The state a node leaves, and one of two outcomes after the start. */
    static lemma OutcomeEvent(node: Node, state: State, body: Body)
      requires !(Halted(state) && state.failedNode != Some(node))
      ensures var (after, events) := Wrapped(node, state, body);
        events == [Started(node)] + [if Effective(node, state, body).Raises? || (Halted(after) && after.failedNode == Some(node))
                                     then Event.Failed(node) else Completed(node)]
      ensures Effective(node, state, body).Raises? ==>
        Wrapped(node, state, body).0 == WithError(state, node, Effective(node, state, body).text)
    {
      StepShape(node, state, body);
      hide WithNotes, WithResult, WithCompleted;
    }

    static lemma Appended(before: seq<Event>, a: Event, b: Event)
      ensures before + [a] + [b] == before + ([a] + [b])
    {
    }

    method RunWrapped(node: Node, state: State, body: Body) returns (result: State)
      modifies this
      ensures result == Wrapped(node, state, body).0
      ensures events == old(events) + Wrapped(node, state, body).1
    {
      if Halted(state) && state.failedNode != Some(node) {
        return state;
      }
      OutcomeEvent(node, state, body);
      hide Effective, Wrapped, Halted, WithError;
      events := events + [Started(node)];
      var raised;
      result, raised := RunNode(node, state, body);
      if raised.Some? {
        events := events + [Event.Failed(node)];
        result := WithError(state, node, raised.value);
      } else if Halted(result) && result.failedNode == Some(node) {
        events := events + [Event.Failed(node)];
      } else {
        events := events + [Completed(node)];
      }
      Appended(old(events), Started(node), events[|events| - 1]);
    }

    method Invoke(initial: State, bodies: Node -> Body) returns (result: State, ghost visited: seq<Node>)
      modifies this
      ensures Run(visited, result, events)
           == var run := Execute(limit, DataFetch, initial, bodies); run.(events := old(events) + run.events)
    {
      var current := Some(DataFetch);
      result := initial;
      visited := [];
      ghost var whole := Execute(limit, DataFetch, initial, bodies);
      hide Wrapped, Next, Execute;
      while current.Some?
        invariant match current
                  case None => Run(visited, result, events) == whole.(events := old(events) + whole.events)
                  case Some(node) =>
                    var rest := Execute(limit, node, result, bodies);
                    && visited + rest.visited == whole.visited
                    && rest.state == whole.state
                    && events + rest.events == old(events) + whole.events
        decreases if current.Some? then 7 - Stage(current.value) else 0
      {
        var node := current.value;
        ghost var before := events;
        ghost var rest := Execute(limit, node, result, bodies);
        ghost var published := Wrapped(node, result, bodies(node)).1;
        ExecuteStep(limit, node, result, bodies);
        result := RunWrapped(node, result, bodies(node));
        visited := visited + [node];
        current := Next(limit, node, result);
        NextAdvances(limit, node, result);
        assert current.Some? ==>
          before + (published + Execute(limit, current.value, result, bodies).events)
            == events + Execute(limit, current.value, result, bodies).events;
      }
    }
  }

  // ---- Order ----

  ghost predicate InOrder(nodes: seq<Node>) {
    forall i, j :: 0 <= i < j < |nodes| ==> Stage(nodes[i]) < Stage(nodes[j])
  }

  /** Every run visits at most seven nodes, each at most once, in pipeline order. It ends after the
      explanation, or at a fatal node that left an error. */
  lemma {:induction false} RunsAreOrdered(limit: nat, node: Node, state: State, bodies: Node -> Body)
    ensures var run := Execute(limit, node, state, bodies);
      && InOrder(run.visited) && run.visited != [] && run.visited[0] == node
      && |run.visited| <= 7 - Stage(node)
      && var last := run.visited[|run.visited| - 1];
         last.LlmExplanation? || (IsFatal(last) && Halted(run.state))
    decreases 7 - Stage(node)
  {
    hide Wrapped, Next, Execute, Halted;
    ExecuteStep(limit, node, state, bodies);
    var after := Wrapped(node, state, bodies(node)).0;
    NextAdvances(limit, node, after);
    match Next(limit, node, after)
    case None =>
    case Some(next) => RunsAreOrdered(limit, next, after, bodies);
  }

  /** Quantum runs only when asked for and within the asset limit, on the tickers that were fetched;
      the frontier only when enabled and after a classical result. */
  lemma {:induction false} OptionalNodesAreGuarded(limit: nat, node: Node, state: State, bodies: Node -> Body)
    requires Stage(node) <= 2
    ensures var run := Execute(limit, node, state, bodies);
      && (QuantumDispatch in run.visited ==> run.state.runQuantum && run.state.tickers <= limit)
      && (QuantumDispatch !in run.visited && Comparison in run.visited ==>
            !run.state.runQuantum || run.state.tickers > limit)
      && (FrontierComputation in run.visited <==>
            Comparison in run.visited && run.state.frontierEnabled && run.state.hasClassical)
    decreases 7 - Stage(node)
  {
    hide Wrapped, Execute;
    ExecuteStep(limit, node, state, bodies);
    var after := Wrapped(node, state, bodies(node)).0;
    match Next(limit, node, after)
    case None =>
    case Some(next) =>
      if Stage(next) <= 2 {
        OptionalNodesAreGuarded(limit, next, after, bodies);
      } else {
        TailOfRun(limit, next, after, bodies);
      }
  }

  /** The parts of the state that later routing reads. */
  predicate SameRouting(a: State, b: State) {
    && b.runQuantum == a.runQuantum && b.tickers == a.tickers
    && b.frontierEnabled == a.frontierEnabled && b.hasClassical == a.hasClassical
  }

  lemma LateStepKeeps(node: Node, state: State, body: Body)
    requires Stage(node) >= 3
    ensures SameRouting(state, Wrapped(node, state, body).0)
  {
    hide WithError, WithCompleted, WithResult, WithNotes, Halted;
    match Effective(node, state, body)
    case Raises(text) => ErrorKeepsRouting(node, state, text);
    case Fails(text, _) => FailureKeepsRouting(node, state, body);
    case Succeeds(_, _, _, _) => ResultKeepsRouting(node, state, body);
  }

  lemma ErrorKeepsRouting(node: Node, state: State, text: string)
    ensures SameRouting(state, WithError(state, node, text))
  {
  }

  lemma FailureKeepsRouting(node: Node, state: State, body: Body)
    requires body.Fails?
    ensures SameRouting(state, WithCompleted(WithNotes(node, state, body), node))
    ensures SameRouting(state, WithError(WithNotes(node, state, body), node, body.text))
  {
    hide WarningsAfter;
  }

  lemma ResultKeepsRouting(node: Node, state: State, body: Body)
    requires Stage(node) >= 3 && body.Succeeds?
    ensures SameRouting(state, WithCompleted(WithNotes(node, WithResult(node, state, body), body), node))
  {
    hide WarningsAfter;
  }

  lemma {:induction false} TailOfRun(limit: nat, node: Node, state: State, bodies: Node -> Body)
    requires Stage(node) >= 3
    ensures var run := Execute(limit, node, state, bodies);
      && SameRouting(state, run.state)
      && (QuantumDispatch in run.visited <==> node == QuantumDispatch)
      && (Comparison in run.visited <==> Stage(node) <= 4)
      && (FrontierComputation in run.visited <==>
            node == FrontierComputation || (Stage(node) <= 4 && state.frontierEnabled && state.hasClassical))
    decreases 7 - Stage(node)
  {
    hide Wrapped, Execute;
    ExecuteStep(limit, node, state, bodies);
    LateStepKeeps(node, state, bodies(node));
    var after := Wrapped(node, state, bodies(node)).0;
    match Next(limit, node, after)
    case None =>
    case Some(next) => TailOfRun(limit, next, after, bodies);
  }

  // ---- Failures ----

  /** Once an earlier node has failed, the rest of the run only passes the state on. */
  lemma {:induction false} HaltedRunsSkip(limit: nat, node: Node, state: State, bodies: Node -> Body)
    requires Halted(state) && Stage(state.failedNode.value) < Stage(node)
    ensures var run := Execute(limit, node, state, bodies); run.state == state && run.events == []
    decreases 7 - Stage(node)
  {
    match Next(limit, node, state)
    case None =>
    case Some(next) => HaltedRunsSkip(limit, next, state, bodies);
  }

  function CompletedIn(events: seq<Event>): seq<Node> {
    if events == [] then []
    else CompletedIn(events[..|events| - 1]) + if events[|events| - 1].Completed? then [events[|events| - 1].node] else []
  }

  lemma {:induction false} CompletedInAppend(a: seq<Event>, b: seq<Event>)
    ensures CompletedIn(a + b) == CompletedIn(a) + CompletedIn(b)
  {
    if b == [] {
      assert a + b == a;
    } else {
      assert (a + b)[..|a + b| - 1] == a + b[..|b| - 1];
      CompletedInAppend(a, b[..|b| - 1]);
    }
  }

  /** Each node that runs publishes its start and then exactly one outcome. */
  ghost predicate Paired(events: seq<Event>) {
    && |events| % 2 == 0
    && forall i :: 0 <= 2 * i < |events| ==>
         events[2 * i].Started? && !events[2 * i + 1].Started? && events[2 * i].node == events[2 * i + 1].node
  }

  lemma {:induction false} EventsArePaired(limit: nat, node: Node, state: State, bodies: Node -> Body)
    ensures Paired(Execute(limit, node, state, bodies).events)
    decreases 7 - Stage(node)
  {
    var (after, events) := Wrapped(node, state, bodies(node));
    assert Paired(events);
    hide Wrapped, Next, Execute;
    ExecuteStep(limit, node, state, bodies);
    NextAdvances(limit, node, after);
    match Next(limit, node, after)
    case None =>
    case Some(next) =>
      EventsArePaired(limit, next, after, bodies);
      PairedAppend(events, Execute(limit, next, after, bodies).events);
  }

  lemma PairedAppend(a: seq<Event>, b: seq<Event>)
    requires Paired(a) && Paired(b)
    ensures Paired(a + b)
  {
    forall i | 0 <= 2 * i < |a + b|
      ensures (a + b)[2 * i].Started? && !(a + b)[2 * i + 1].Started? && (a + b)[2 * i].node == (a + b)[2 * i + 1].node
    {
      if 2 * i >= |a| {
        var j := i - |a| / 2;
        assert (a + b)[2 * i] == b[2 * j] && (a + b)[2 * i + 1] == b[2 * j + 1];
      }
    }
  }

  /** A node that runs and fails for good leaves an error with no text. */
  predicate Silent(node: Node, state: State, body: Body) {
    !Halted(state) &&
    match Effective(node, state, body)
    case Succeeds(_, _, _, _) => false
    case Fails(text, _) => IsFatal(node) && text == ""
    case Raises(text) => text == ""
  }

  predicate SilentSomewhere(limit: nat, node: Node, state: State, bodies: Node -> Body)
    decreases 7 - Stage(node)
  {
    || Silent(node, state, bodies(node))
    || var after := Wrapped(node, state, bodies(node)).0;
       match Next(limit, node, after)
       case None => false
       case Some(next) => SilentSomewhere(limit, next, after, bodies)
  }

  /** The published events tell the run's outcome: the completed list is what was announced as completed,
      the run failed exactly when the last event says so, and no failure is followed by more work. */
  ghost predicate Faithful(completed: seq<Node>, run: Run) {
    && run.state.completed == completed + CompletedIn(run.events)
    && (Halted(run.state) <==> run.events != [] && run.events[|run.events| - 1].Failed?)
    && forall i :: 0 <= i < |run.events| - 1 ==> !run.events[i].Failed?
  }

  /** A state no earlier node has failed in. */
  ghost predicate Clean(node: Node, state: State) {
    state.error == None && state.failedNode == None && forall m :: m in state.completed ==> Stage(m) < Stage(node)
  }

  /** From a clean state, a step that is not silent either stays clean or halts the run. */
  lemma CleanStep(limit: nat, node: Node, state: State, body: Body)
    requires Clean(node, state) && !Silent(node, state, body)
    ensures var (after, events) := Wrapped(node, state, body);
      && |events| == 2 && events[0] == Started(node)
      && (Halted(after) ==> events[1] == Event.Failed(node) && after.failedNode == Some(node)
                            && after.completed == state.completed)
      && (!Halted(after) ==> events[1] == Completed(node) && after.completed == state.completed + [node]
                             && after.error == None && after.failedNode == None)
      && forall next :: Next(limit, node, after) == Some(next) && !Halted(after) ==> Clean(next, after)
  {
    StepShape(node, state, body);
    StepEvents(node, state, body);
    StepCompletes(node, state, body);
    NextAdvances(limit, node, Wrapped(node, state, body).0);
    hide Wrapped, Next, Effective;
  }

  lemma StepEvents(node: Node, state: State, body: Body)
    requires !Halted(state)
    ensures var events, effective := Wrapped(node, state, body).1, Effective(node, state, body);
      events == [Started(node)] + [if effective.Raises? || (effective.Fails? && IsFatal(node) && effective.text != "")
                                   then Event.Failed(node) else Completed(node)]
  {
    hide WithError, WithCompleted, WithResult, WithNotes;
  }

  lemma StepCompletes(node: Node, state: State, body: Body)
    requires !Halted(state)
    ensures var after, effective := Wrapped(node, state, body).0, Effective(node, state, body);
      after.completed == if effective.Raises? || (effective.Fails? && IsFatal(node)) || node in state.completed
                         then state.completed else state.completed + [node]
  {
    hide WithError, WithCompleted, WithResult, WithNotes, Halted;
    var effective := Effective(node, state, body);
    match effective
    case Raises(text) => ErrorKeepsCompleted(node, state, text);
    case Fails(_, _) => FailureCompletes(node, state, body);
    case Succeeds(_, _, _, _) => ResultCompletes(node, state, body);
  }

  lemma CompletedInStep(node: Node, last: Event)
    requires !last.Started?
    ensures CompletedIn([Started(node), last]) == if last.Completed? then [last.node] else []
  {
    assert [Started(node), last][..1] == [Started(node)];
    assert CompletedIn([Started(node)]) == [];
  }

  /** With a text on every failure the events are faithful. */
  lemma {:induction false} LoudRunsAreFaithful(limit: nat, node: Node, state: State, bodies: Node -> Body)
    requires Clean(node, state) && !SilentSomewhere(limit, node, state, bodies)
    ensures Faithful(state.completed, Execute(limit, node, state, bodies))
    ensures Execute(limit, node, state, bodies).events != []
    decreases 7 - Stage(node)
  {
    hide Wrapped, Next, Execute, CompletedIn, Faithful, Halted, Clean, Silent, SilentSomewhere;
    LoudStep(limit, node, state, bodies);
    CleanStep(limit, node, state, bodies(node));
    var (after, events) := Wrapped(node, state, bodies(node));
    assert events == [Started(node), events[1]];
    CompletedInStep(node, events[1]);
    ExecuteStep(limit, node, state, bodies);
    NextAdvances(limit, node, after);
    match Next(limit, node, after)
    case None =>
      FaithfulStep(state.completed, Run([node], after, events));
    case Some(next) =>
      var rest := Execute(limit, next, after, bodies);
      if Halted(after) {
        HaltedRunsSkip(limit, next, after, bodies);
        assert events + rest.events == events;
        FaithfulStep(state.completed, Run([node] + rest.visited, after, events));
      } else {
        LoudRunsAreFaithful(limit, next, after, bodies);
        FaithfulJoin(state.completed, node, events, rest);
      }
  }

  lemma LoudStep(limit: nat, node: Node, state: State, bodies: Node -> Body)
    requires !SilentSomewhere(limit, node, state, bodies)
    ensures !Silent(node, state, bodies(node))
    ensures var next := Next(limit, node, Wrapped(node, state, bodies(node)).0);
      next.Some? ==> !SilentSomewhere(limit, next.value, Wrapped(node, state, bodies(node)).0, bodies)
  {
    hide Wrapped, Next, Silent;
  }

  lemma FaithfulStep(completed: seq<Node>, run: Run)
    requires |run.events| == 2 && run.events[0].Started?
    requires Halted(run.state) <==> run.events[1].Failed?
    requires run.state.completed == completed + CompletedIn(run.events)
    ensures Faithful(completed, run)
  {
  }

  lemma FaithfulJoin(completed: seq<Node>, node: Node, events: seq<Event>, rest: Run)
    requires |events| == 2 && events[0].Started? && events[1] == Completed(node) && CompletedIn(events) == [node]
    requires rest.events != [] && Faithful(completed + [node], rest)
    ensures Faithful(completed, Run([node] + rest.visited, rest.state, events + rest.events))
  {
    hide CompletedIn, Halted;
    CompletedInAppend(events, rest.events);
    assert completed + ([node] + CompletedIn(rest.events)) == completed + [node] + CompletedIn(rest.events);
    var all := events + rest.events;
    forall i | 0 <= i < |all| - 1 ensures !all[i].Failed? {
      if i >= 2 { assert all[i] == rest.events[i - 2]; }
    }
    assert all[|all| - 1] == rest.events[|rest.events| - 1];
  }

  // ---- Silent failures break it ----

  lemma {:induction false} HaltedIsNotSilent(limit: nat, node: Node, state: State, bodies: Node -> Body)
    requires Halted(state) && Stage(state.failedNode.value) < Stage(node)
    ensures !SilentSomewhere(limit, node, state, bodies)
    decreases 7 - Stage(node)
  {
    match Next(limit, node, state)
    case None =>
    case Some(next) => HaltedIsNotSilent(limit, next, state, bodies);
  }

  lemma StepCompletesOnlyItself(node: Node, state: State, body: Body)
    ensures Wrapped(node, state, body).0.completed in {state.completed, Marked(node, state)}
  {
    hide Halted, WithResult, WithError, WithCompleted, WithNotes;
    match Effective(node, state, body)
    case Raises(text) => ErrorKeepsCompleted(node, state, text);
    case Fails(_, _) => FailureCompletes(node, state, body);
    case Succeeds(_, _, _, _) => ResultCompletes(node, state, body);
  }

  lemma ErrorKeepsCompleted(node: Node, state: State, text: string)
    ensures WithError(state, node, text).completed == state.completed
  {
  }

  lemma FailureCompletes(node: Node, state: State, body: Body)
    requires body.Fails?
    ensures WithError(WithNotes(node, state, body), node, body.text).completed == state.completed
    ensures WithCompleted(WithNotes(node, state, body), node).completed == Marked(node, state)
  {
    hide WarningsAfter;
  }

  lemma ResultCompletes(node: Node, state: State, body: Body)
    requires body.Succeeds?
    ensures WithCompleted(WithNotes(node, WithResult(node, state, body), body), node).completed == Marked(node, state)
  {
    hide WarningsAfter, WithResult, WithNotes;
    ResultKeepsMarks(node, state, body);
    NotesKeepMarks(node, WithResult(node, state, body), body);
  }

  /** The completed nodes once node is among them. */
  function Marked(node: Node, state: State): seq<Node> {
    if node in state.completed then state.completed else state.completed + [node]
  }

  lemma ResultKeepsMarks(node: Node, state: State, body: Body)
    requires body.Succeeds?
    ensures WithResult(node, state, body).completed == state.completed
  {
  }

  lemma NotesKeepMarks(node: Node, state: State, body: Body)
    requires !body.Raises?
    ensures WithNotes(node, state, body).completed == state.completed
  {
    hide WarningsAfter;
  }

  lemma {:induction false} CompletesOnlyLaterNodes(limit: nat, node: Node, state: State, bodies: Node -> Body, m: Node)
    requires m !in state.completed && Stage(m) < Stage(node)
    ensures m !in Execute(limit, node, state, bodies).state.completed
    decreases 7 - Stage(node)
  {
    var after := Wrapped(node, state, bodies(node)).0;
    StepCompletesOnlyItself(node, state, bodies(node));
    hide Wrapped, Next, Execute;
    ExecuteStep(limit, node, state, bodies);
    NextAdvances(limit, node, after);
    match Next(limit, node, after)
    case None =>
    case Some(next) => CompletesOnlyLaterNodes(limit, next, after, bodies, m);
  }

  ghost predicate NoDuplicates(nodes: seq<Node>) {
    forall i, j :: 0 <= i < j < |nodes| ==> nodes[i] != nodes[j]
  }

  /** No run lists a node as completed twice, whatever fails. */
  lemma {:induction false} CompletedWithoutDuplicates(limit: nat, node: Node, state: State, bodies: Node -> Body)
    requires NoDuplicates(state.completed)
    ensures NoDuplicates(Execute(limit, node, state, bodies).state.completed)
    decreases 7 - Stage(node)
  {
    var after := Wrapped(node, state, bodies(node)).0;
    StepCompletesOnlyItself(node, state, bodies(node));
    hide Wrapped, Next, Execute;
    ExecuteStep(limit, node, state, bodies);
    NextAdvances(limit, node, after);
    match Next(limit, node, after)
    case None =>
    case Some(next) => CompletedWithoutDuplicates(limit, next, after, bodies);
  }

  lemma SilentStep(node: Node, state: State, body: Body)
    requires Clean(node, state) && Silent(node, state, body)
    ensures var (after, events) := Wrapped(node, state, body);
      && !Halted(after) && after.completed == state.completed && |events| == 2 && events[0] == Started(node)
      && events[1] in {Completed(node), Event.Failed(node)}
  {
  }

  lemma SilentHereIsUnfaithful(limit: nat, node: Node, state: State, bodies: Node -> Body)
    requires Clean(node, state) && Silent(node, state, bodies(node))
    ensures !Faithful(state.completed, Execute(limit, node, state, bodies))
  {
    var (after, events) := Wrapped(node, state, bodies(node));
    SilentStep(node, state, bodies(node));
    assert node !in state.completed;
    CompletedInStep(node, events[1]);
    var run := Execute(limit, node, state, bodies);
    ExecuteStep(limit, node, state, bodies);
    NextAdvances(limit, node, after);
    hide Wrapped, Next, Execute, CompletedIn, Halted, Clean;
    match Next(limit, node, after)
    case None =>
    case Some(next) =>
      var rest := Execute(limit, next, after, bodies);
      CompletedInAppend(events, rest.events);
      CompletesOnlyLaterNodes(limit, next, after, bodies, node);
      SomethingPublished(limit, next, after, bodies);
      assert run.events[1] == events[1];
  }

  lemma SomethingPublished(limit: nat, node: Node, state: State, bodies: Node -> Body)
    requires !Halted(state)
    ensures Execute(limit, node, state, bodies).events != []
  {
  }

  lemma FaithfulRest(completed: seq<Node>, node: Node, events: seq<Event>, rest: Run)
    requires |events| == 2 && CompletedIn(events) == [node] && rest.events != []
    requires Faithful(completed, Run([node] + rest.visited, rest.state, events + rest.events))
    ensures Faithful(completed + [node], rest)
  {
    hide CompletedIn, Halted;
    CompletedInAppend(events, rest.events);
    assert completed + ([node] + CompletedIn(rest.events)) == completed + [node] + CompletedIn(rest.events);
    var all := events + rest.events;
    forall i | 0 <= i < |rest.events| - 1 ensures !rest.events[i].Failed? {
      assert all[i + 2] == rest.events[i];
    }
    assert all[|all| - 1] == rest.events[|rest.events| - 1];
  }

  lemma {:induction false} SilentRunsAreUnfaithful(limit: nat, node: Node, state: State, bodies: Node -> Body)
    requires Clean(node, state) && SilentSomewhere(limit, node, state, bodies)
    ensures !Faithful(state.completed, Execute(limit, node, state, bodies))
    decreases 7 - Stage(node)
  {
    if Silent(node, state, bodies(node)) {
      SilentHereIsUnfaithful(limit, node, state, bodies);
    } else {
      hide Wrapped, Next, Execute, CompletedIn, Faithful, Silent, Effective;
      var (after, events) := Wrapped(node, state, bodies(node));
      CleanStep(limit, node, state, bodies(node));
      CompletedInStep(node, events[1]);
      ExecuteStep(limit, node, state, bodies);
      NextAdvances(limit, node, after);
      var next := Next(limit, node, after).value;
      if Halted(after) { HaltedIsNotSilent(limit, next, after, bodies); }
      SomethingPublished(limit, next, after, bodies);
      SilentRunsAreUnfaithful(limit, next, after, bodies);
      if Faithful(state.completed, Execute(limit, node, state, bodies)) {
        FaithfulRest(state.completed, node, events, Execute(limit, next, after, bodies));
      }
    }
  }

  /** The events of a run tell its outcome exactly when no node that runs fails without a text. */
  lemma EventsAreFaithfulExactlyWhen(limit: nat, tickers: nat, runQuantum: bool, bodies: Node -> Body)
    ensures Faithful([], Execute(limit, DataFetch, Initial(tickers, runQuantum), bodies))
       <==> !SilentSomewhere(limit, DataFetch, Initial(tickers, runQuantum), bodies)
  {
    hide Execute, SilentSomewhere, Faithful;
    var state := Initial(tickers, runQuantum);
    if SilentSomewhere(limit, DataFetch, state, bodies) {
      SilentRunsAreUnfaithful(limit, DataFetch, state, bodies);
    } else {
      LoudRunsAreFaithful(limit, DataFetch, state, bodies);
    }
  }

  /** Whether the outcome of a node breaks the run: any failure of the first three nodes, and for the
      others only an exception they do not catch. */
  predicate Breaks(node: Node, body: Body) {
    body.Raises? || (body.Fails? && IsFatal(node))
  }

  /** When no failure is silent, a run fails exactly when a node that ran broke it; that node publishes last,
      and the recorded error is its own. */
  lemma {:induction false} FailureIsGenuine(limit: nat, node: Node, state: State, bodies: Node -> Body)
    requires Clean(node, state) && (node.DataFetch? || state.hasMarketData)
    requires !SilentSomewhere(limit, node, state, bodies)
    ensures var run := Execute(limit, node, state, bodies);
      if Halted(run.state) then
        var failed := run.state.failedNode.value;
        && Breaks(failed, bodies(failed)) && run.state.error == Some(bodies(failed).text)
        && run.events != [] && run.events[|run.events| - 1] == Event.Failed(failed)
      else
        forall m :: m in run.visited ==> !Breaks(m, bodies(m))
    decreases 7 - Stage(node)
  {
    hide Wrapped, Next, Execute, Clean, Breaks, Halted, Silent, SilentSomewhere;
    LoudStep(limit, node, state, bodies);
    CleanStep(limit, node, state, bodies(node));
    BreakingStep(node, state, bodies(node));
    var (after, events) := Wrapped(node, state, bodies(node));
    ExecuteStep(limit, node, state, bodies);
    NextAdvances(limit, node, after);
    match Next(limit, node, after)
    case None =>
    case Some(next) =>
      if Halted(after) {
        HaltedRunsSkip(limit, next, after, bodies);
      } else {
        FailureIsGenuine(limit, next, after, bodies);
      }
  }

  lemma BreakingStep(node: Node, state: State, body: Body)
    requires Clean(node, state) && (node.DataFetch? || state.hasMarketData) && !Silent(node, state, body)
    ensures var after := Wrapped(node, state, body).0;
      if Halted(after) then Breaks(node, body) && after.error == Some(body.text)
      else !Breaks(node, body) && after.hasMarketData
  {
  }

  // ---- Warnings and timings ----

  /** The warnings after the visited nodes have left theirs. */
  function WarningsOver(before: seq<Warning>, visited: seq<Node>, bodies: Node -> Body): seq<Warning>
    decreases |visited|
  {
    if visited == [] then before
    else WarningsOver(WarningsAfter(visited[0], before, bodies(visited[0])), visited[1..], bodies)
  }

  /** What a node does to the error and to the notes. */
  lemma StepShape(node: Node, state: State, body: Body)
    requires !(Halted(state) && state.failedNode != Some(node))
    ensures var after, effective := Wrapped(node, state, body).0, Effective(node, state, body);
      && after.notes == (if effective.Raises? then state.notes else WithNotes(node, state, effective).notes)
      && if effective.Raises? || (effective.Fails? && IsFatal(node)) then
           after.error == Some(effective.text) && after.failedNode == Some(node)
         else
           after.error == state.error && after.failedNode == state.failedNode
  {
    hide WithError, WithCompleted, WithResult, WithNotes, Halted;
    var effective := Effective(node, state, body);
    match effective
    case Raises(text) => ErrorShape(state, node, text);
    case Fails(text, _) =>
      ErrorShape(WithNotes(node, state, effective), node, text);
      CompletedShape(WithNotes(node, state, effective), node);
      NotesShape(node, state, effective);
    case Succeeds(_, _, _, _) =>
      CompletedShape(WithNotes(node, WithResult(node, state, effective), effective), node);
      NotesShape(node, WithResult(node, state, effective), effective);
      ResultShape(node, state, effective);
      ResultNotes(node, state, effective);
  }

  lemma ErrorShape(state: State, node: Node, text: string)
    ensures var after := WithError(state, node, text);
      && after.error == Some(text) && after.failedNode == Some(node) && after.notes == state.notes
      && after.hasMarketData == state.hasMarketData && after.hasQuantum == state.hasQuantum
  {
  }

  lemma CompletedShape(state: State, node: Node)
    ensures var after := WithCompleted(state, node);
      && after.error == state.error && after.failedNode == state.failedNode && after.notes == state.notes
      && after.hasMarketData == state.hasMarketData && after.hasQuantum == state.hasQuantum
  {
  }

  lemma NotesShape(node: Node, state: State, body: Body)
    requires !body.Raises?
    ensures var after := WithNotes(node, state, body);
      && after.error == state.error && after.failedNode == state.failedNode
      && after.hasMarketData == state.hasMarketData && after.hasQuantum == state.hasQuantum
  {
    hide WarningsAfter;
  }

  lemma ResultShape(node: Node, state: State, body: Body)
    requires body.Succeeds?
    ensures var after := WithResult(node, state, body);
      && after.error == state.error && after.failedNode == state.failedNode
      && (state.hasMarketData ==> after.hasMarketData)
      && after.hasQuantum == (state.hasQuantum || node == QuantumDispatch)
  {
  }

  lemma ResultNotes(node: Node, state: State, body: Body)
    requires body.Succeeds?
    ensures WithNotes(node, WithResult(node, state, body), body).notes == WithNotes(node, state, body).notes
  {
    hide WarningsAfter;
    assert WithResult(node, state, body).notes == state.notes;
    assert node.FrontierComputation? ==> WithResult(node, state, body) == state;
  }

  /** The nodes that a list of events announces, in order. */
  function StartedIn(events: seq<Event>): seq<Node> {
    if events == [] then []
    else StartedIn(events[..|events| - 1]) + if events[|events| - 1].Started? then [events[|events| - 1].node] else []
  }

  lemma {:induction false} StartedInAppend(a: seq<Event>, b: seq<Event>)
    ensures StartedIn(a + b) == StartedIn(a) + StartedIn(b)
  {
    if b == [] {
      assert a + b == a;
    } else {
      assert (a + b)[..|a + b| - 1] == a + b[..|b| - 1];
      StartedInAppend(a, b[..|b| - 1]);
    }
  }

  lemma NothingStarted()
    ensures StartedIn([]) == []
  {
  }

  /** A node that runs announces itself and nothing else. */
  lemma StepStarts(node: Node, state: State, body: Body)
    requires !Halted(state)
    ensures StartedIn(Wrapped(node, state, body).1) == [node]
  {
    StepEvents(node, state, body);
    hide Wrapped, Effective;
    PairStarts(node, Wrapped(node, state, body).1[1]);
  }

  lemma PairStarts(node: Node, last: Event)
    requires !last.Started?
    ensures StartedIn([Started(node), last]) == [node]
  {
    var first := Started(node);
    assert [first, last][..1] == [first] && [first][..0] == [];
    assert StartedIn([first]) == [node];
  }

  /** The times the nodes of a list record: a node an exception escapes records none. */
  function TimesOf(nodes: seq<Node>, bodies: Node -> Body): map<Node, real> {
    map n | n in nodes && !bodies(n).Raises? :: bodies(n).elapsed
  }

  lemma NotesStep(node: Node, state: State, body: Body)
    requires !Halted(state) && (NeedsMarketData(node, state) ==> state.hasMarketData)
    requires node.FrontierComputation? ==> state.frontierEnabled
    ensures var notes := Wrapped(node, state, body).0.notes;
      && notes.warnings == WarningsAfter(node, state.notes.warnings, body)
      && notes.timings == if body.Raises? then state.notes.timings else state.notes.timings[node := body.elapsed]
  {
    StepShape(node, state, body);
    hide Wrapped;
  }

  lemma TimesFirst(t: map<Node, real>, node: Node, rest: seq<Node>, bodies: Node -> Body)
    ensures (if bodies(node).Raises? then t else t[node := bodies(node).elapsed]) + TimesOf(rest, bodies)
         == t + TimesOf([node] + rest, bodies)
    ensures forall m: map<Node, real> :: m + TimesOf([], bodies) == m
  {
  }

  lemma NextFrontier(limit: nat, node: Node, state: State)
    ensures Next(limit, node, state) == Some(FrontierComputation) ==> state.frontierEnabled
  {
  }

  /** With market data at hand every node that runs leaves its warnings and its time, and no other does. */
  lemma {:induction false} NotesAccumulate(limit: nat, node: Node, state: State, bodies: Node -> Body)
    requires !Halted(state) && state.hasMarketData && (node.FrontierComputation? ==> state.frontierEnabled)
    ensures var run := Execute(limit, node, state, bodies);
      && run.state.notes.warnings == WarningsOver(state.notes.warnings, StartedIn(run.events), bodies)
      && run.state.notes.timings == state.notes.timings + TimesOf(StartedIn(run.events), bodies)
    decreases 7 - Stage(node)
  {
    NotesStep(node, state, bodies(node));
    StepStarts(node, state, bodies(node));
    StepKeepsMarketData(node, state, bodies(node));
    HaltedByItself(node, state, bodies(node));
    hide Wrapped, Next, Execute, Halted, WarningsAfter, WarningsOver, TimesOf, StartedIn;
    ExecuteStep(limit, node, state, bodies);
    var (after, events) := Wrapped(node, state, bodies(node));
    NextAdvances(limit, node, after);
    NextFrontier(limit, node, after);
    WarningsFirst(state.notes.warnings, node, [], bodies);
    TimesFirst(state.notes.timings, node, [], bodies);
    assert [node] + [] == [node];
    match Next(limit, node, after)
    case None =>
    case Some(next) =>
      var rest := Execute(limit, next, after, bodies);
      if Halted(after) {
        HaltedRunsSkip(limit, next, after, bodies);
        assert events + [] == events;
      } else {
        NotesAccumulate(limit, next, after, bodies);
        StartedInAppend(events, rest.events);
        WarningsFirst(state.notes.warnings, node, StartedIn(rest.events), bodies);
        TimesFirst(state.notes.timings, node, StartedIn(rest.events), bodies);
      }
  }

  /** A step from a state that is not halted halts it in its own name or not at all. */
  lemma HaltedByItself(node: Node, state: State, body: Body)
    requires !Halted(state)
    ensures var after := Wrapped(node, state, body).0; Halted(after) ==> after.failedNode == Some(node)
  {
    StepShape(node, state, body);
    hide Wrapped;
  }

  lemma WarningsFirst(before: seq<Warning>, node: Node, rest: seq<Node>, bodies: Node -> Body)
    ensures WarningsOver(before, [node] + rest, bodies) == WarningsOver(WarningsAfter(node, before, bodies(node)), rest, bodies)
    ensures forall w :: WarningsOver(w, [], bodies) == w
  {
    hide WarningsAfter;
    assert ([node] + rest)[1..] == rest;
  }

  function Soft(node: Node, visited: seq<Node>, bodies: Node -> Body): seq<Warning> {
    if node in visited && bodies(node).Fails? then [SoftFailure(node, bodies(node).text)] else []
  }

  /** What the constraint check said, if it ran and succeeded, and otherwise what was there. */
  function Checked(before: seq<Warning>, visited: seq<Node>, bodies: Node -> Body): seq<Warning> {
    if ConstraintValidation in visited && bodies(ConstraintValidation).Succeeds?
    then GivenAll(bodies(ConstraintValidation).warnings) else before
  }

  /** Over nodes in pipeline order: what the constraint check said, then each optional node that failed. */
  lemma {:induction false} WarningsInOrder(before: seq<Warning>, visited: seq<Node>, bodies: Node -> Body)
    requires InOrder(visited)
    ensures WarningsOver(before, visited, bodies)
         == Checked(before, visited, bodies) + Soft(QuantumDispatch, visited, bodies) + Soft(FrontierComputation, visited, bodies)
    decreases |visited|
  {
    hide InOrder, Soft;
    if visited == [] {
      NoSoft(bodies);
      assert before + [] + [] == before;
    } else {
      var node, rest := visited[0], visited[1..];
      OrderOfRest(visited);
      WarningsInOrder(WarningsAfter(node, before, bodies(node)), rest, bodies);
      assert visited == [node] + rest;
      WarningsJoin(before, node, rest, bodies);
    }
  }

  lemma WarningsJoin(before: seq<Warning>, node: Node, rest: seq<Node>, bodies: Node -> Body)
    requires forall m :: m in rest ==> Stage(node) < Stage(m)
    ensures var first := WarningsAfter(node, before, bodies(node));
      Checked(first, rest, bodies) + Soft(QuantumDispatch, rest, bodies) + Soft(FrontierComputation, rest, bodies)
      == Checked(before, [node] + rest, bodies)
         + Soft(QuantumDispatch, [node] + rest, bodies) + Soft(FrontierComputation, [node] + rest, bodies)
  {
    WarningsOrdered(before, node, rest, bodies);
    SoftStep(QuantumDispatch, node, rest, bodies);
    SoftStep(FrontierComputation, node, rest, bodies);
    hide WarningsAfter;
    SoftAbsent(QuantumDispatch, rest, bodies);
    SoftAbsent(FrontierComputation, rest, bodies);
    hide Soft;
    assert ConstraintValidation in [node] + rest <==> node == ConstraintValidation || ConstraintValidation in rest;
  }

  lemma SoftAbsent(n: Node, visited: seq<Node>, bodies: Node -> Body)
    ensures n !in visited ==> Soft(n, visited, bodies) == []
  {
  }

  lemma NoSoft(bodies: Node -> Body)
    ensures forall n: Node :: Soft(n, [], bodies) == []
  {
  }

  lemma OrderOfRest(visited: seq<Node>)
    requires visited != [] && InOrder(visited)
    ensures InOrder(visited[1..]) && forall m :: m in visited[1..] ==> Stage(visited[0]) < Stage(m)
  {
    assert forall i, j :: 0 <= i < j < |visited| - 1 ==> visited[1..][i] == visited[i + 1] && visited[1..][j] == visited[j + 1];
  }

  /** A node's soft failure belongs to its own visit. */
  lemma SoftStep(n: Node, node: Node, rest: seq<Node>, bodies: Node -> Body)
    ensures Soft(n, [node] + rest, bodies)
         == if node == n && bodies(n).Fails? then [SoftFailure(n, bodies(n).text)] else Soft(n, rest, bodies)
  {
  }

  lemma WarningsOrdered(before: seq<Warning>, node: Node, rest: seq<Node>, bodies: Node -> Body)
    requires forall m :: m in rest ==> Stage(node) < Stage(m)
    ensures var first := WarningsAfter(node, before, bodies(node));
      var own := if node in {QuantumDispatch, FrontierComputation} && bodies(node).Fails?
                 then [SoftFailure(node, bodies(node).text)] else [];
      && first == Checked(before, [node], bodies) + own
      && (node == ConstraintValidation ==> ConstraintValidation !in rest)
      && (node == QuantumDispatch ==> ConstraintValidation !in rest && QuantumDispatch !in rest)
      && (node == FrontierComputation ==>
            ConstraintValidation !in rest && QuantumDispatch !in rest && FrontierComputation !in rest)
  {
  }

  /** Every run warns of what the constraint check said and of each optional node that failed, in that order, and
      records a time for exactly the nodes that ran and were not left by an exception. When the data fetch does not
      succeed, no other node gets to its own work. */
  lemma NotesOfRun(limit: nat, tickers: nat, runQuantum: bool, bodies: Node -> Body)
    ensures var run := Execute(limit, DataFetch, Initial(tickers, runQuantum), bodies);
      var ran := if bodies(DataFetch).Succeeds? then StartedIn(run.events) else [DataFetch];
      && run.state.notes.warnings
           == Checked([], ran, bodies) + Soft(QuantumDispatch, ran, bodies) + Soft(FrontierComputation, ran, bodies)
      && run.state.notes.timings == TimesOf(ran, bodies)
  {
    var start := Initial(tickers, runQuantum);
    var (after, events) := Wrapped(DataFetch, start, bodies(DataFetch));
    var rest := Execute(limit, ConstraintValidation, after, bodies);
    NotesStep(DataFetch, start, bodies(DataFetch));
    ExecuteStep(limit, DataFetch, start, bodies);
    WarningsFirst([], DataFetch, [], bodies);
    TimesFirst(map[], DataFetch, [], bodies);
    assert [DataFetch] + [] == [DataFetch];
    var none: map<Node, real> := map[];
    assert none + TimesOf([DataFetch], bodies) == TimesOf([DataFetch], bodies);
    if bodies(DataFetch).Succeeds? {
      FetchedState(start, bodies(DataFetch));
      StepStarts(DataFetch, start, bodies(DataFetch));
      hide Execute, Wrapped, WarningsAfter, WarningsOver, StartedIn, TimesOf, Soft, Checked, Halted, InOrder;
      NotesAccumulate(limit, ConstraintValidation, after, bodies);
      StartedInAppend(events, rest.events);
      WarningsFirst([], DataFetch, StartedIn(rest.events), bodies);
      TimesFirst(none, DataFetch, StartedIn(rest.events), bodies);
      NothingBefore(StartedIn(Execute(limit, DataFetch, start, bodies).events), bodies);
      StartedInOrder(limit, DataFetch, start, bodies);
      WarningsInOrder([], StartedIn(Execute(limit, DataFetch, start, bodies).events), bodies);
    } else {
      FailedFetchEnds(limit, tickers, runQuantum, bodies);
    }
  }

  lemma NothingBefore(ran: seq<Node>, bodies: Node -> Body)
    ensures map[] + TimesOf(ran, bodies) == TimesOf(ran, bodies)
  {
  }

  /** After a data fetch that does not succeed, nothing more is noted. */
  lemma FailedFetchEnds(limit: nat, tickers: nat, runQuantum: bool, bodies: Node -> Body)
    requires !bodies(DataFetch).Succeeds?
    ensures var start := Initial(tickers, runQuantum);
      && Execute(limit, DataFetch, start, bodies).state.notes == Wrapped(DataFetch, start, bodies(DataFetch)).0.notes
      && Wrapped(DataFetch, start, bodies(DataFetch)).0.notes == Notes([], TimesOf([DataFetch], bodies))
  {
    var start := Initial(tickers, runQuantum);
    var after := Wrapped(DataFetch, start, bodies(DataFetch)).0;
    NotesStep(DataFetch, start, bodies(DataFetch));
    ExecuteStep(limit, DataFetch, start, bodies);
    ExecuteStep(limit, ConstraintValidation, after, bodies);
    hide Execute, WarningsAfter;
    assert NO_MARKET_DATA != "";
  }

  /** Nodes announce themselves in pipeline order. */
  lemma {:induction false} StartedInOrder(limit: nat, node: Node, state: State, bodies: Node -> Body)
    ensures var started := StartedIn(Execute(limit, node, state, bodies).events);
      InOrder(started) && forall m :: m in started ==> Stage(node) <= Stage(m)
    decreases 7 - Stage(node)
  {
    var (after, events) := Wrapped(node, state, bodies(node));
    if !Halted(state) { StepStarts(node, state, bodies(node)); } else { HaltedStarts(node, state, bodies(node)); }
    hide Wrapped, Next, Execute, StartedIn;
    ExecuteStep(limit, node, state, bodies);
    NextAdvances(limit, node, after);
    match Next(limit, node, after)
    case None =>
    case Some(next) =>
      StartedInOrder(limit, next, after, bodies);
      StartedInAppend(events, Execute(limit, next, after, bodies).events);
  }

  lemma HaltedStarts(node: Node, state: State, body: Body)
    ensures StartedIn(Wrapped(node, state, body).1) in {[], [node]}
  {
    hide Effective, Halted, WithError, WithCompleted, WithNotes, WithResult;
    var events := Wrapped(node, state, body).1;
    if events != [] {
      PairStarts(node, events[1]);
      assert events == [Started(node), events[1]];
    }
  }

  // ---- What a run is made of, in terms of what the nodes do ----

  /** A node's own work is done: it succeeded, or it is not fatal and handled its failure. */
  predicate Works(node: Node, body: Body) {
    body.Succeeds? || (body.Fails? && !IsFatal(node))
  }

  /** The way a run takes. */
  function Path(limit: nat, runQuantum: bool, bodies: Node -> Body): seq<Node> {
    var fetch, check, solve := bodies(DataFetch), bodies(ConstraintValidation), bodies(ClassicalOptimization);
    if BreaksLoudly(DataFetch, fetch) then [DataFetch]
    else if !fetch.Succeeds? || BreaksLoudly(ConstraintValidation, check) then [DataFetch, ConstraintValidation]
    else
      [DataFetch, ConstraintValidation, ClassicalOptimization]
      + if BreaksLoudly(ClassicalOptimization, solve) then []
        else (if runQuantum && fetch.tickers <= limit then [QuantumDispatch] else [])
             + [Comparison]
             + (if check.Succeeds? && check.frontier && solve.Succeeds? then [FrontierComputation] else [])
             + [LlmExplanation]
  }

  /** The way from the third stage on. */
  lemma {:induction false} TailPath(limit: nat, node: Node, state: State, bodies: Node -> Body)
    requires Stage(node) >= 3
    ensures Execute(limit, node, state, bodies).visited
         == (if node == QuantumDispatch then [QuantumDispatch] else [])
            + (if Stage(node) <= 4 then [Comparison] else [])
            + (if node == FrontierComputation || (Stage(node) <= 4 && state.frontierEnabled && state.hasClassical)
               then [FrontierComputation] else [])
            + [LlmExplanation]
    decreases 7 - Stage(node)
  {
    hide Wrapped, Execute;
    ExecuteStep(limit, node, state, bodies);
    LateStepKeeps(node, state, bodies(node));
    var after := Wrapped(node, state, bodies(node)).0;
    match Next(limit, node, after)
    case None =>
    case Some(next) => TailPath(limit, next, after, bodies);
  }

  /** Whether the quantum stage has left a result depends on its own success alone. */
  lemma {:induction false} QuantumResult(limit: nat, node: Node, state: State, bodies: Node -> Body)
    requires Stage(node) >= 3 && state.hasMarketData && (node == QuantumDispatch ==> !Halted(state))
    ensures Execute(limit, node, state, bodies).state.hasQuantum
         == (state.hasQuantum || (node == QuantumDispatch && bodies(QuantumDispatch).Succeeds?))
    decreases 7 - Stage(node)
  {
    QuantumStep(node, state, bodies(node));
    StepKeepsMarketData(node, state, bodies(node));
    hide Wrapped, Execute, Halted;
    ExecuteStep(limit, node, state, bodies);
    var after := Wrapped(node, state, bodies(node)).0;
    match Next(limit, node, after)
    case None =>
    case Some(next) => QuantumResult(limit, next, after, bodies);
  }

  lemma QuantumStep(node: Node, state: State, body: Body)
    requires state.hasMarketData && (node == QuantumDispatch ==> !Halted(state))
    ensures Wrapped(node, state, body).0.hasQuantum == (state.hasQuantum || (node == QuantumDispatch && body.Succeeds?))
  {
    hide WithError, WithCompleted, WithResult, WithNotes, Halted;
    var effective := Effective(node, state, body);
    match effective
    case Raises(text) => ErrorShape(state, node, text);
    case Fails(text, _) =>
      NotesShape(node, state, effective);
      ErrorShape(WithNotes(node, state, effective), node, text);
      CompletedShape(WithNotes(node, state, effective), node);
    case Succeeds(_, _, _, _) =>
      ResultShape(node, state, effective);
      NotesShape(node, WithResult(node, state, effective), effective);
      CompletedShape(WithNotes(node, WithResult(node, state, effective), effective), node);
  }

  /** The state after the two nodes before the optimisation, when nothing stops the run there. */
  lemma FirstSteps(limit: nat, tickers: nat, runQuantum: bool, bodies: Node -> Body) returns (checked: State)
    requires bodies(DataFetch).Succeeds? && !BreaksLoudly(ConstraintValidation, bodies(ConstraintValidation))
    ensures !Halted(checked) && checked.hasMarketData && checked.runQuantum == runQuantum
    ensures checked.tickers == bodies(DataFetch).tickers && !checked.hasClassical && !checked.hasQuantum
    ensures checked.frontierEnabled
         == (bodies(ConstraintValidation).Succeeds? && bodies(ConstraintValidation).frontier)
    ensures var run, rest := Execute(limit, DataFetch, Initial(tickers, runQuantum), bodies),
                             Execute(limit, ClassicalOptimization, checked, bodies);
      run.visited == [DataFetch, ConstraintValidation] + rest.visited && run.state == rest.state
  {
    var start := Initial(tickers, runQuantum);
    var fetched := Wrapped(DataFetch, start, bodies(DataFetch)).0;
    checked := Wrapped(ConstraintValidation, fetched, bodies(ConstraintValidation)).0;
    FetchStep(start, bodies(DataFetch));
    CheckStep(fetched, bodies(ConstraintValidation));
    hide Wrapped, Execute;
    ExecuteStep(limit, DataFetch, start, bodies);
    ExecuteStep(limit, ConstraintValidation, fetched, bodies);
  }

  lemma FetchStep(start: State, body: Body)
    requires start == Initial(start.tickers, start.runQuantum) && body.Succeeds?
    ensures var after := Wrapped(DataFetch, start, body).0;
      && !Halted(after) && after.hasMarketData && after.tickers == body.tickers && after.runQuantum == start.runQuantum
      && !after.frontierEnabled && !after.hasClassical && !after.hasQuantum
  {
    hide WarningsAfter;
  }

  lemma CheckStep(state: State, body: Body)
    requires !Halted(state) && state.hasMarketData && !state.frontierEnabled
    requires !BreaksLoudly(ConstraintValidation, body)
    ensures var after := Wrapped(ConstraintValidation, state, body).0;
      && !Halted(after) && after.hasMarketData && after.tickers == state.tickers && after.runQuantum == state.runQuantum
      && after.frontierEnabled == (body.Succeeds? && body.frontier)
      && after.hasClassical == state.hasClassical && after.hasQuantum == state.hasQuantum
  {
    hide WarningsAfter;
  }

  lemma SolveStep(state: State, body: Body)
    requires !Halted(state) && state.hasMarketData && !state.hasClassical
    ensures var after := Wrapped(ClassicalOptimization, state, body).0;
      && (Halted(after) <==> BreaksLoudly(ClassicalOptimization, body))
      && (Halted(after) ==> after.failedNode == Some(ClassicalOptimization))
      && after.hasMarketData && after.tickers == state.tickers && after.runQuantum == state.runQuantum
      && after.frontierEnabled == state.frontierEnabled
      && after.hasClassical == body.Succeeds? && after.hasQuantum == state.hasQuantum
  {
    hide WarningsAfter;
  }

  /** Every run takes the way its nodes' own outcomes decide, and its results are those of the nodes visited: the
      ticker count is the fetched one, and a result is there exactly when its node was visited and succeeded. */
  lemma RunFollowsBodies(limit: nat, tickers: nat, runQuantum: bool, bodies: Node -> Body)
    ensures var run, fetched := Execute(limit, DataFetch, Initial(tickers, runQuantum), bodies), bodies(DataFetch).Succeeds?;
      && run.visited == Path(limit, runQuantum, bodies)
      && run.state.hasMarketData == fetched
      && run.state.tickers == (if fetched then bodies(DataFetch).tickers else tickers)
      && run.state.frontierEnabled
           == (fetched && bodies(ConstraintValidation).Succeeds? && bodies(ConstraintValidation).frontier)
      && run.state.hasClassical == (ClassicalOptimization in run.visited && bodies(ClassicalOptimization).Succeeds?)
      && run.state.hasQuantum == (QuantumDispatch in run.visited && bodies(QuantumDispatch).Succeeds?)
  {
    hide Execute;
    var fetch, check, solve := bodies(DataFetch), bodies(ConstraintValidation), bodies(ClassicalOptimization);
    if !fetch.Succeeds? || BreaksLoudly(ConstraintValidation, check) {
      EarlyEnd(limit, tickers, runQuantum, bodies);
    } else {
      var checked := FirstSteps(limit, tickers, runQuantum, bodies);
      PathFromSolve(limit, checked, bodies);
    }
  }

  lemma EarlyEnd(limit: nat, tickers: nat, runQuantum: bool, bodies: Node -> Body)
    requires !bodies(DataFetch).Succeeds? || BreaksLoudly(ConstraintValidation, bodies(ConstraintValidation))
    ensures var run := Execute(limit, DataFetch, Initial(tickers, runQuantum), bodies);
      && run.visited == Path(limit, runQuantum, bodies)
      && run.state.hasMarketData == bodies(DataFetch).Succeeds?
      && run.state.tickers == (if bodies(DataFetch).Succeeds? then bodies(DataFetch).tickers else tickers)
      && !run.state.frontierEnabled && !run.state.hasClassical && !run.state.hasQuantum
  {
    var start := Initial(tickers, runQuantum);
    var after := Wrapped(DataFetch, start, bodies(DataFetch)).0;
    ExecuteStep(limit, DataFetch, start, bodies);
    ExecuteStep(limit, ConstraintValidation, after, bodies);
    hide Execute, WarningsAfter;
    assert NO_MARKET_DATA != "";
  }

  lemma PathFromSolve(limit: nat, checked: State, bodies: Node -> Body)
    requires !Halted(checked) && checked.hasMarketData && !checked.hasClassical && !checked.hasQuantum
    ensures var run, solve := Execute(limit, ClassicalOptimization, checked, bodies), bodies(ClassicalOptimization);
      && run.visited == [ClassicalOptimization]
           + (if BreaksLoudly(ClassicalOptimization, solve) then []
              else (if checked.runQuantum && checked.tickers <= limit then [QuantumDispatch] else [])
                   + [Comparison]
                   + (if checked.frontierEnabled && solve.Succeeds? then [FrontierComputation] else [])
                   + [LlmExplanation])
      && run.state.tickers == checked.tickers && run.state.frontierEnabled == checked.frontierEnabled
      && run.state.hasMarketData && run.state.hasClassical == solve.Succeeds?
      && run.state.hasQuantum == (QuantumDispatch in run.visited && bodies(QuantumDispatch).Succeeds?)
  {
    SolveStep(checked, bodies(ClassicalOptimization));
    hide Wrapped, Execute, BreaksLoudly;
    ExecuteStep(limit, ClassicalOptimization, checked, bodies);
    var after := Wrapped(ClassicalOptimization, checked, bodies(ClassicalOptimization)).0;
    var next := Next(limit, ClassicalOptimization, after);
    if next.Some? {
      TailPath(limit, next.value, after, bodies);
      TailOfRun(limit, next.value, after, bodies);
      QuantumResult(limit, next.value, after, bodies);
      KeepsMarketData(limit, next.value, after, bodies);
    }
  }

  lemma {:induction false} KeepsMarketData(limit: nat, node: Node, state: State, bodies: Node -> Body)
    requires state.hasMarketData
    ensures Execute(limit, node, state, bodies).state.hasMarketData
    decreases 7 - Stage(node)
  {
    var after := Wrapped(node, state, bodies(node)).0;
    StepKeepsMarketData(node, state, bodies(node));
    hide Wrapped, Next, Execute;
    ExecuteStep(limit, node, state, bodies);
    NextAdvances(limit, node, after);
    match Next(limit, node, after)
    case None =>
    case Some(next) => KeepsMarketData(limit, next, after, bodies);
  }

  /** What a step that runs does: it announces itself, halts the run or not, and completes at most itself. */
  lemma RunningStep(node: Node, state: State, body: Body, m: Node)
    requires !Halted(state) && state.hasMarketData
    ensures var (after, events) := Wrapped(node, state, body);
      && StartedIn(events) == [node] && after.hasMarketData
      && (Halted(after) <==> BreaksLoudly(node, body)) && (Halted(after) ==> after.failedNode == Some(node))
      && (m in after.completed <==> m in state.completed || (m == node && Works(node, body)))
  {
    StepStarts(node, state, body);
    StepKeepsMarketData(node, state, body);
    HaltedByItself(node, state, body);
    StepShape(node, state, body);
    StepCompletes(node, state, body);
    hide Wrapped, StartedIn, WithNotes;
  }

  ghost predicate NoneBefore(nodes: seq<Node>, m: Node, bodies: Node -> Body) {
    forall h :: h in nodes && Stage(h) < Stage(m) ==> !BreaksLoudly(h, bodies(h))
  }

  lemma NoneBeforeFirst(node: Node, rest: seq<Node>, m: Node, bodies: Node -> Body)
    requires Stage(node) <= Stage(m) && forall h :: h in rest ==> Stage(node) < Stage(h)
    ensures NoneBefore([node] + rest, m, bodies)
       <==> m == node || (!BreaksLoudly(node, bodies(node)) && NoneBefore(rest, m, bodies))
    ensures NoneBefore([node], m, bodies) <==> m == node || !BreaksLoudly(node, bodies(node))
  {
    hide BreaksLoudly;
    assert forall h :: h in [node] + rest <==> h == node || h in rest;
  }

  lemma LaterThanFirst(node: Node, rest: seq<Node>)
    requires rest != [] && InOrder(rest) && Stage(node) < Stage(rest[0])
    ensures forall h :: h in rest ==> Stage(node) < Stage(rest[0]) <= Stage(h)
  {
  }

  /** With market data at hand a visited node runs exactly when no earlier one broke the run with a text. */
  lemma {:induction false} StartedExactlyWhen(limit: nat, node: Node, state: State, bodies: Node -> Body, m: Node)
    requires !Halted(state) && state.hasMarketData && Stage(node) <= Stage(m)
    ensures var run := Execute(limit, node, state, bodies);
      m in StartedIn(run.events) <==> m in run.visited && NoneBefore(run.visited, m, bodies)
    decreases 7 - Stage(node), 2
  {
    RunningStep(node, state, bodies(node), m);
    hide Wrapped, Next, Execute, StartedIn, BreaksLoudly, Works, NoneBefore, InOrder, Halted;
    ExecuteStep(limit, node, state, bodies);
    var (after, events) := Wrapped(node, state, bodies(node));
    NextAdvances(limit, node, after);
    match Next(limit, node, after)
    case None => NoneBeforeFirst(node, [], m, bodies);
    case Some(next) =>
      var rest := Execute(limit, next, after, bodies);
      RunsAreOrdered(limit, next, after, bodies);
      LaterThanFirst(node, rest.visited);
      NoneBeforeFirst(node, rest.visited, m, bodies);
      StartsOfRest(limit, next, after, bodies, node, events, m);
  }

  /** The nodes that run after a step: none if it halted the run. */
  lemma {:induction false} StartsOfRest(limit: nat, next: Node, after: State, bodies: Node -> Body, node: Node, events: seq<Event>, m: Node)
    requires StartedIn(events) == [node] && Stage(node) < Stage(next) && Stage(node) <= Stage(m) && after.hasMarketData
    requires Halted(after) ==> after.failedNode == Some(node)
    ensures var rest := Execute(limit, next, after, bodies);
      m in StartedIn(events + rest.events) <==>
        m == node || (!Halted(after) && m in rest.visited && NoneBefore(rest.visited, m, bodies))
    decreases 7 - Stage(next), 3
  {
    hide Execute, StartedIn, NoneBefore, InOrder;
    var rest := Execute(limit, next, after, bodies);
    StartedInAppend(events, rest.events);
    if Halted(after) {
      HaltedRunsSkip(limit, next, after, bodies);
      NothingStarted();
    } else if Stage(m) < Stage(next) {
      StartedInOrder(limit, next, after, bodies);
      RunsAreOrdered(limit, next, after, bodies);
      LaterThanFirst(node, rest.visited);
      assert m !in rest.visited;
    } else {
      StartedExactlyWhen(limit, next, after, bodies, m);
    }
  }

  /** A run that halts blames the first node that broke it with a text, and reports that text. */
  lemma {:induction false} FirstBreakIsBlamed(limit: nat, node: Node, state: State, bodies: Node -> Body)
    requires !Halted(state) && state.hasMarketData
    ensures var run := Execute(limit, node, state, bodies);
      Halted(run.state) ==>
        var failed := run.state.failedNode.value;
        && failed in run.visited && BreaksLoudly(failed, bodies(failed)) && NoneBefore(run.visited, failed, bodies)
        && run.state.error == Some(bodies(failed).text)
    decreases 7 - Stage(node)
  {
    RunningStep(node, state, bodies(node), node);
    StepShape(node, state, bodies(node));
    assert BreaksLoudly(node, bodies(node)) ==> Wrapped(node, state, bodies(node)).0.error == Some(bodies(node).text);
    hide Wrapped, Next, Execute, StartedIn, BreaksLoudly, Works, NoneBefore, InOrder, Halted, WithNotes, Effective;
    ExecuteStep(limit, node, state, bodies);
    var after := Wrapped(node, state, bodies(node)).0;
    NextAdvances(limit, node, after);
    match Next(limit, node, after)
    case None => NoneBeforeFirst(node, [], node, bodies);
    case Some(next) =>
      var rest := Execute(limit, next, after, bodies);
      RunsAreOrdered(limit, next, after, bodies);
      LaterThanFirst(node, rest.visited);
      if Halted(after) {
        HaltedRunsSkip(limit, next, after, bodies);
        NoneBeforeFirst(node, rest.visited, node, bodies);
      } else {
        FirstBreakIsBlamed(limit, next, after, bodies);
        if Halted(rest.state) { NoneBeforeFirst(node, rest.visited, rest.state.failedNode.value, bodies); }
      }
  }

  /** A node is completed exactly when it ran and did its work. */
  lemma {:induction false} CompletedExactlyWhen(limit: nat, node: Node, state: State, bodies: Node -> Body, m: Node)
    requires !Halted(state) && state.hasMarketData && Stage(node) <= Stage(m) && m !in state.completed
    ensures var run := Execute(limit, node, state, bodies);
      m in run.state.completed <==> m in StartedIn(run.events) && Works(m, bodies(m))
    decreases 7 - Stage(node), 2
  {
    RunningStep(node, state, bodies(node), m);
    hide Wrapped, Next, Execute, StartedIn, BreaksLoudly, Works, Halted, InOrder;
    ExecuteStep(limit, node, state, bodies);
    var (after, events) := Wrapped(node, state, bodies(node));
    NextAdvances(limit, node, after);
    match Next(limit, node, after)
    case None =>
    case Some(next) =>
      StartedInAppend(events, Execute(limit, next, after, bodies).events);
      CompletedOfRest(limit, next, after, bodies, node, m);
  }

  /** What the rest of a run completes after a step. */
  lemma {:induction false} CompletedOfRest(limit: nat, next: Node, after: State, bodies: Node -> Body, node: Node, m: Node)
    requires Stage(node) < Stage(next) && Stage(node) <= Stage(m) && after.hasMarketData
    requires Halted(after) ==> after.failedNode == Some(node)
    requires m in after.completed ==> m == node
    ensures var rest := Execute(limit, next, after, bodies);
      && (m in rest.state.completed <==> m in after.completed || (m in StartedIn(rest.events) && Works(m, bodies(m))))
      && (m == node ==> m !in StartedIn(rest.events))
    decreases 7 - Stage(next), 3
  {
    hide Execute, StartedIn, BreaksLoudly, Works, InOrder;
    StartedInOrder(limit, next, after, bodies);
    if Halted(after) {
      HaltedRunsSkip(limit, next, after, bodies);
      NothingStarted();
    } else if m in after.completed {
      CompletedStays(limit, next, after, bodies, m);
    } else if Stage(m) < Stage(next) {
      CompletesOnlyLaterNodes(limit, next, after, bodies, m);
    } else {
      CompletedExactlyWhen(limit, next, after, bodies, m);
    }
  }

  lemma {:induction false} CompletedStays(limit: nat, node: Node, state: State, bodies: Node -> Body, m: Node)
    requires m in state.completed
    ensures m in Execute(limit, node, state, bodies).state.completed
    decreases 7 - Stage(node)
  {
    var after := Wrapped(node, state, bodies(node)).0;
    StepCompletesOnlyItself(node, state, bodies(node));
    hide Wrapped, Next, Execute;
    ExecuteStep(limit, node, state, bodies);
    NextAdvances(limit, node, after);
    match Next(limit, node, after)
    case None =>
    case Some(next) => CompletedStays(limit, next, after, bodies, m);
  }

  // ---- The report of a run ----

  datatype RunStatus = RunCompleted | RunFailed

  /** Status, error and the node blamed in the error message. */
  datatype Report = Report(status: RunStatus, error: Option<string>, blamed: Option<Node>)

  function Detail(state: State): Report {
    var failed := state.error.Some? && state.error.value != "";
    Report(if failed then RunFailed else RunCompleted, state.error, if failed then state.failedNode else None)
  }

  lemma {:induction false} ErrorsNameTheirNode(limit: nat, node: Node, state: State, bodies: Node -> Body)
    requires state.error.Some? ==> state.failedNode.Some?
    ensures var end := Execute(limit, node, state, bodies).state; end.error.Some? ==> end.failedNode.Some?
    decreases 7 - Stage(node)
  {
    var after := Wrapped(node, state, bodies(node)).0;
    ErrorStep(node, state, bodies(node));
    hide Wrapped, Next, Execute;
    ExecuteStep(limit, node, state, bodies);
    NextAdvances(limit, node, after);
    match Next(limit, node, after)
    case None =>
    case Some(next) => ErrorsNameTheirNode(limit, next, after, bodies);
  }

  lemma ErrorStep(node: Node, state: State, body: Body)
    requires state.error.Some? ==> state.failedNode.Some?
    ensures var after := Wrapped(node, state, body).0; after.error.Some? ==> after.failedNode.Some?
  {
    if !(Halted(state) && state.failedNode != Some(node)) {
      StepShape(node, state, body);
    }
  }

  /** The run is reported as failed exactly when it halted, and then blames the node that failed. */
  lemma FailedExactlyWhenHalted(limit: nat, tickers: nat, runQuantum: bool, bodies: Node -> Body)
    ensures var end := Execute(limit, DataFetch, Initial(tickers, runQuantum), bodies).state;
      && (Detail(end).status.RunFailed? <==> Halted(end))
      && (Halted(end) ==> Detail(end).blamed == end.failedNode && Detail(end).blamed.Some?)
  {
    hide Execute;
    ErrorsNameTheirNode(limit, DataFetch, Initial(tickers, runQuantum), bodies);
  }

  // ---- What a run reports, and what silent failures lead to ----

  predicate BreaksLoudly(node: Node, body: Body) {
    Breaks(node, body) && body.text != ""
  }

  predicate BreaksSilently(node: Node, body: Body) {
    Breaks(node, body) && body.text == ""
  }

  lemma StepKeepsMarketData(node: Node, state: State, body: Body)
    requires state.hasMarketData
    ensures Wrapped(node, state, body).0.hasMarketData
  {
    hide WithError, WithCompleted, WithResult, WithNotes, Halted;
    var effective := Effective(node, state, body);
    match effective
    case Raises(text) => ErrorShape(state, node, text);
    case Fails(text, _) =>
      NotesShape(node, state, effective);
      ErrorShape(WithNotes(node, state, effective), node, text);
      CompletedShape(WithNotes(node, state, effective), node);
    case Succeeds(_, _, _, _) =>
      ResultShape(node, state, effective);
      NotesShape(node, WithResult(node, state, effective), effective);
      CompletedShape(WithNotes(node, WithResult(node, state, effective), effective), node);
  }

  /** With market data at hand a run halts exactly when some visited node breaks it with a text. */
  lemma {:induction false} HaltsExactlyWhen(limit: nat, node: Node, state: State, bodies: Node -> Body)
    requires !Halted(state) && state.hasMarketData
    ensures var run := Execute(limit, node, state, bodies);
      Halted(run.state) <==> exists m :: m in run.visited && BreaksLoudly(m, bodies(m))
    decreases 7 - Stage(node)
  {
    StepShape(node, state, bodies(node));
    StepKeepsMarketData(node, state, bodies(node));
    hide Wrapped, Next, Execute, WithNotes;
    ExecuteStep(limit, node, state, bodies);
    var after := Wrapped(node, state, bodies(node)).0;
    NextAdvances(limit, node, after);
    assert Halted(after) <==> BreaksLoudly(node, bodies(node));
    match Next(limit, node, after)
    case None =>
    case Some(next) =>
      hide BreaksLoudly;
      if Halted(after) {
        HaltedRunsSkip(limit, next, after, bodies);
      } else {
        HaltsExactlyWhen(limit, next, after, bodies);
      }
  }

  /** Any run is reported as failed exactly when some visited node breaks it with a text, or the data fetch
      breaks it without one, for then constraint validation finds no market data and is blamed. */
  lemma FailsExactlyWhen(limit: nat, tickers: nat, runQuantum: bool, bodies: Node -> Body)
    ensures var run := Execute(limit, DataFetch, Initial(tickers, runQuantum), bodies);
      Detail(run.state).status.RunFailed? <==>
        BreaksSilently(DataFetch, bodies(DataFetch)) || exists m :: m in run.visited && BreaksLoudly(m, bodies(m))
  {
    var start := Initial(tickers, runQuantum);
    FailedExactlyWhenHalted(limit, tickers, runQuantum, bodies);
    if BreaksSilently(DataFetch, bodies(DataFetch)) {
      SilentFetchBlamesValidation(limit, tickers, runQuantum, bodies);
    } else {
      StepShape(DataFetch, start, bodies(DataFetch));
      FetchGivesMarketData(start, bodies(DataFetch));
      ExecuteStep(limit, DataFetch, start, bodies);
      var after := Wrapped(DataFetch, start, bodies(DataFetch)).0;
      hide Wrapped, Execute, WithNotes, Detail;
      if !Halted(after) {
        HaltsExactlyWhen(limit, ConstraintValidation, after, bodies);
      }
    }
  }

  lemma FetchGivesMarketData(start: State, body: Body)
    requires !Halted(start)
    ensures Wrapped(DataFetch, start, body).0.hasMarketData || Breaks(DataFetch, body)
  {
    hide WarningsAfter;
  }

  /** A data fetch that breaks without a text: the error is pinned on constraint validation. A handled failure
      is announced as completed before that. */
  lemma SilentFetchBlamesValidation(limit: nat, tickers: nat, runQuantum: bool, bodies: Node -> Body)
    requires BreaksSilently(DataFetch, bodies(DataFetch))
    ensures var run := Execute(limit, DataFetch, Initial(tickers, runQuantum), bodies);
      && run.visited == [DataFetch, ConstraintValidation]
      && run.events == [Started(DataFetch), if bodies(DataFetch).Fails? then Completed(DataFetch) else Event.Failed(DataFetch),
                        Started(ConstraintValidation), Event.Failed(ConstraintValidation)]
      && Detail(run.state) == Report(RunFailed, Some(NO_MARKET_DATA), Some(ConstraintValidation))
  {
    var start := Initial(tickers, runQuantum);
    ExecuteStep(limit, DataFetch, start, bodies);
    var after := Wrapped(DataFetch, start, bodies(DataFetch)).0;
    ExecuteStep(limit, ConstraintValidation, after, bodies);
    hide Execute, WarningsAfter;
    assert NO_MARKET_DATA != "";
  }

  /** A constraint validation that fails without a text is announced as completed, and the optimisation runs
      without validated constraints; the frontier is never computed. Unless another node breaks the run, it is
      reported as completed and nobody is blamed. */
  lemma SilentValidationRunsUnconstrained(limit: nat, tickers: nat, runQuantum: bool, bodies: Node -> Body)
    requires bodies(DataFetch).Succeeds?
    requires bodies(ConstraintValidation).Fails? && bodies(ConstraintValidation).text == ""
    ensures var run := Execute(limit, DataFetch, Initial(tickers, runQuantum), bodies);
      && Completed(ConstraintValidation) in run.events && ConstraintValidation !in run.state.completed
      && ClassicalOptimization in run.visited && !run.state.frontierEnabled && FrontierComputation !in run.visited
      && ((forall m :: m in run.visited ==> !BreaksLoudly(m, bodies(m))) ==>
            Detail(run.state).status.RunCompleted? && Detail(run.state).blamed == None)
  {
    var start := Initial(tickers, runQuantum);
    var fetched := Wrapped(DataFetch, start, bodies(DataFetch)).0;
    var checked := Wrapped(ConstraintValidation, fetched, bodies(ConstraintValidation)).0;
    var events := Wrapped(ConstraintValidation, fetched, bodies(ConstraintValidation)).1;
    FetchedState(start, bodies(DataFetch));
    SilentState(ConstraintValidation, fetched, bodies(ConstraintValidation));
    ExecuteStep(limit, DataFetch, start, bodies);
    ExecuteStep(limit, ConstraintValidation, fetched, bodies);
    NeverFrontier(limit, checked, bodies);
    CompletesOnlyLaterNodes(limit, ClassicalOptimization, checked, bodies, ConstraintValidation);
    RunsAreOrdered(limit, ClassicalOptimization, checked, bodies);
    QuietRunIsReportedCompleted(limit, tickers, runQuantum, bodies);
    hide Wrapped, Execute, Detail;
    assert events[1] == Completed(ConstraintValidation);
  }

  /** A classical optimisation that fails without a text is announced as completed, and the run goes on to the
      comparison without a classical result. Unless another node breaks it, it is reported as completed. */
  lemma SilentOptimisationLeavesNoResult(limit: nat, tickers: nat, runQuantum: bool, bodies: Node -> Body)
    requires bodies(DataFetch).Succeeds? && bodies(ConstraintValidation).Succeeds?
    requires bodies(ClassicalOptimization).Fails? && bodies(ClassicalOptimization).text == ""
    ensures var run := Execute(limit, DataFetch, Initial(tickers, runQuantum), bodies);
      && Completed(ClassicalOptimization) in run.events && ClassicalOptimization !in run.state.completed
      && Comparison in run.visited && !run.state.hasClassical && FrontierComputation !in run.visited
      && ((forall m :: m in run.visited ==> !BreaksLoudly(m, bodies(m))) ==>
            Detail(run.state).status.RunCompleted? && Detail(run.state).blamed == None)
  {
    var start := Initial(tickers, runQuantum);
    var fetched := Wrapped(DataFetch, start, bodies(DataFetch)).0;
    var checked := Wrapped(ConstraintValidation, fetched, bodies(ConstraintValidation)).0;
    FetchedState(start, bodies(DataFetch));
    CheckedState(fetched, bodies(ConstraintValidation));
    hide Wrapped, Execute, Detail;
    ExecuteStep(limit, DataFetch, start, bodies);
    ExecuteStep(limit, ConstraintValidation, fetched, bodies);
    SilentlyOptimised(limit, checked, bodies);
    QuietRunIsReportedCompleted(limit, tickers, runQuantum, bodies);
  }

  lemma SilentlyOptimised(limit: nat, checked: State, bodies: Node -> Body)
    requires !Halted(checked) && checked.hasMarketData && !checked.hasClassical
    requires ClassicalOptimization !in checked.completed
    requires bodies(ClassicalOptimization).Fails? && bodies(ClassicalOptimization).text == ""
    ensures var run := Execute(limit, ClassicalOptimization, checked, bodies);
      && Completed(ClassicalOptimization) in run.events && ClassicalOptimization !in run.state.completed
      && Comparison in run.visited && !run.state.hasClassical && FrontierComputation !in run.visited
  {
    var after := Wrapped(ClassicalOptimization, checked, bodies(ClassicalOptimization)).0;
    var events := Wrapped(ClassicalOptimization, checked, bodies(ClassicalOptimization)).1;
    SilentState(ClassicalOptimization, checked, bodies(ClassicalOptimization));
    hide Wrapped, Execute;
    ExecuteStep(limit, ClassicalOptimization, checked, bodies);
    var next := Next(limit, ClassicalOptimization, after).value;
    TailOfRun(limit, next, after, bodies);
    CompletesOnlyLaterNodes(limit, next, after, bodies, ClassicalOptimization);
    assert events[1] == Completed(ClassicalOptimization);
  }

  lemma QuietRunIsReportedCompleted(limit: nat, tickers: nat, runQuantum: bool, bodies: Node -> Body)
    requires !BreaksSilently(DataFetch, bodies(DataFetch))
    ensures var run := Execute(limit, DataFetch, Initial(tickers, runQuantum), bodies);
      (forall m :: m in run.visited ==> !BreaksLoudly(m, bodies(m))) ==>
        Detail(run.state).status.RunCompleted? && Detail(run.state).blamed == None
  {
    hide Execute, BreaksLoudly;
    FailsExactlyWhen(limit, tickers, runQuantum, bodies);
  }

  /** An exception without a text is announced as a failure, and the run goes on all the same. */
  lemma SilentExceptionGoesOn(limit: nat, node: Node, state: State, bodies: Node -> Body)
    requires !Halted(state) && node !in state.completed && node != LlmExplanation
    requires bodies(node).Raises? && bodies(node).text == "" && (NeedsMarketData(node, state) ==> state.hasMarketData)
    ensures var run := Execute(limit, node, state, bodies);
      && run.events[..2] == [Started(node), Event.Failed(node)] && node !in run.state.completed
      && |run.visited| > 1 && |run.events| > 2
  {
    var after := WithError(state, node, "");
    var next := Next(limit, node, after).value;
    assert Wrapped(node, state, bodies(node)) == (after, [Started(node), Event.Failed(node)]);
    ExecuteStep(limit, node, state, bodies);
    NextAdvances(limit, node, after);
    SomethingPublished(limit, next, after, bodies);
    CompletesOnlyLaterNodes(limit, next, after, bodies, node);
  }

  lemma FetchedState(start: State, body: Body)
    requires start == Initial(start.tickers, start.runQuantum) && body.Succeeds?
    ensures var after := Wrapped(DataFetch, start, body).0;
      && !Halted(after) && after.hasMarketData && !after.frontierEnabled && !after.hasClassical
      && after.completed == [DataFetch]
  {
    hide WarningsAfter;
  }

  lemma CheckedState(fetched: State, body: Body)
    requires !Halted(fetched) && fetched.hasMarketData && fetched.completed == [DataFetch] && body.Succeeds?
    ensures var after := Wrapped(ConstraintValidation, fetched, body).0;
      && !Halted(after) && after.hasMarketData && after.hasClassical == fetched.hasClassical
      && after.completed == [DataFetch, ConstraintValidation]
  {
    hide WarningsAfter;
  }

  /** A fatal node whose handled failure has no text: announced as completed, nothing halted, no result. */
  lemma SilentState(node: Node, state: State, body: Body)
    requires IsFatal(node) && !Halted(state) && state.hasMarketData && body.Fails? && body.text == ""
    ensures var (after, events) := Wrapped(node, state, body);
      && events == [Started(node), Completed(node)] && !Halted(after) && after.hasMarketData
      && after.completed == state.completed && SameRouting(state, after)
  {
    hide WarningsAfter;
  }

  /** Without validated constraints the frontier stays off from the optimisation on. */
  lemma NeverFrontier(limit: nat, state: State, bodies: Node -> Body)
    requires !state.frontierEnabled
    ensures var run := Execute(limit, ClassicalOptimization, state, bodies);
      !run.state.frontierEnabled && FrontierComputation !in run.visited
  {
    var after := Wrapped(ClassicalOptimization, state, bodies(ClassicalOptimization)).0;
    OptimisationKeepsFrontier(state, bodies(ClassicalOptimization));
    ExecuteStep(limit, ClassicalOptimization, state, bodies);
    hide Wrapped, Execute, Halted;
    var next := Next(limit, ClassicalOptimization, after);
    if next.Some? {
      TailOfRun(limit, next.value, after, bodies);
    }
  }

  lemma OptimisationKeepsFrontier(state: State, body: Body)
    ensures Wrapped(ClassicalOptimization, state, body).0.frontierEnabled == state.frontierEnabled
  {
    hide WarningsAfter;
  }
}
