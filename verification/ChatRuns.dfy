/** Whole runs of one session: its requests in turn, against any assistant, queue, clock and database. */
module ChatRuns {
  import opened Options
  import opened ChatSessions
  import opened ChatService

  /** The stored row before each request and after the last. */
  function Trace(rules: Rules, row: Row, requests: seq<Request>): (t: seq<Row>)
    ensures |t| == |requests| + 1
    decreases |requests|
  {
    if requests == [] then [row] else [row] + Trace(rules, After(rules, row, requests[0]), requests[1..])
  }

  function Final(rules: Rules, row: Row, requests: seq<Request>): Row
    decreases |requests|
  {
    if requests == [] then row else Final(rules, After(rules, row, requests[0]), requests[1..])
  }

  /** Everything the run puts on the worker queue. */
  function AllQueued(rules: Rules, row: Row, requests: seq<Request>): seq<Task>
    decreases |requests|
  {
    if requests == [] then []
    else Queued(rules, row, requests[0]) + AllQueued(rules, After(rules, row, requests[0]), requests[1..])
  }

  /** Requests are taken by value: one at a time, never two at once. */
  lemma {:induction false} TraceStep(rules: Rules, row: Row, requests: seq<Request>, i: nat)
    requires i < |requests|
    ensures Trace(rules, row, requests)[0] == row
    ensures Trace(rules, row, requests)[i + 1] == After(rules, Trace(rules, row, requests)[i], requests[i])
    decreases |requests|
  {
    var next := After(rules, row, requests[0]);
    if i > 0 {
      TraceStep(rules, next, requests[1..], i - 1);
    } else {
      assert Trace(rules, next, requests[1..])[0] == next;
    }
  }

  lemma {:induction false} TraceEnds(rules: Rules, row: Row, requests: seq<Request>)
    ensures Trace(rules, row, requests)[|requests|] == Final(rules, row, requests)
    decreases |requests|
  {
    if requests != [] {
      TraceEnds(rules, After(rules, row, requests[0]), requests[1..]);
    }
  }

  // ---- What every stored row satisfies ----

  /** Turns alternate and the assistant has the last word. */
  ghost predicate Alternates(messages: seq<Message>) {
    && messages != []
    && messages[|messages| - 1].role.Assistant?
    && forall i :: 0 <= i < |messages| - 1 ==> messages[i].role != messages[i + 1].role
  }

  ghost predicate Sound(rules: Rules, row: Row) {
    && (row.runId.Some? <==> row.status.Confirmed?)
    && row.Known().Keys <= FIELDS
    && (row.status.PendingConfirmation? || row.status.Confirmed? ==> {"tickers", "budget"} <= row.Known().Keys)
    && Alternates(row.messages)
    && (|row.messages| <= rules.maxMessages || row.messages == [Message(Assistant, Welcome)])
  }

  lemma TurnKeepsAlternation(messages: seq<Message>, question: Content, answer: Content)
    requires messages == [] || Alternates(messages)
    ensures Alternates(messages + [Message(User, question)] + [Message(Assistant, answer)])
  {
  }

  /** What the assistant answers once it knows these slots: a summary when they are usable and complete, otherwise
      its own question, or failing that a question for whatever is missing. */
  function AnswerTo(known: Slots, question: string): Content {
    var usable := if Consistent(known) then known else map[];
    if "tickers" !in Unfilled(usable) && "budget" !in Unfilled(usable) then Summary(usable)
    else if question != "" then Question(question)
    else Fallback(Unfilled(usable))
  }

  /** The required slots a reader would still ask for: fewer than two tickers, or no positive budget. */
  function Unfilled(known: Slots): seq<string> {
    (if "tickers" in known && known["tickers"].Names? && |known["tickers"].names| > 1 then [] else ["tickers"])
    + (if "budget" in known && known["budget"].Amount? && known["budget"].amount > 0.0 then [] else ["budget"])
  }

  /** A processed message: on success one whole turn with the answer its slots call for, and the slots only grow. */
  lemma ProcessedTurn(rules: Rules, row: Row, content: string, reply: Reply)
    requires Processed(rules, row, content, reply).error.None?
    ensures var out := Processed(rules, row, content, reply).row;
      && reply.Extracted? && |row.messages| + 2 <= rules.maxMessages
      && out.messages == row.messages + [Message(User, Typed(content))]
                         + [Message(Assistant, AnswerTo(out.Known(), reply.question))]
      && row.Known().Keys <= out.Known().Keys
      && (row.Known().Keys <= FIELDS ==> out.Known().Keys <= FIELDS)
      && out.runId == row.runId && out.expiresAt == row.expiresAt
      && (out.status == row.status || out.status.PendingConfirmation?)
      && (out.status != row.status ==> {"tickers", "budget"} <= out.Known().Keys)
  {
    var out := Processed(rules, row, content, reply).row;
    assert Missing(Validated(out.Known())) == Unfilled(Validated(out.Known()));
  }

  /** What a committed message adds to the history: the user's words and the answer to what is known by then. */
  lemma TurnIsStored(rules: Rules, row: Row, request: Request)
    requires request.Send? && Commits(rules, row, request)
    ensures var out := After(rules, row, request);
      out.messages == row.messages + [Message(User, Typed(request.content))]
                      + [Message(Assistant, AnswerTo(out.Known(), request.reply.question))]
  {
    hide Processed;
    ProcessedTurn(rules, row, request.content, request.reply);
  }

  lemma StepKeepsSound(rules: Rules, row: Row, request: Request)
    requires Sound(rules, row)
    ensures Sound(rules, After(rules, row, request))
  {
    if Commits(rules, row, request) && request.Send? {
      hide Processed, AnswerTo;
      ProcessedTurn(rules, row, request.content, request.reply);
      var out := After(rules, row, request);
      TurnKeepsAlternation(row.messages, Typed(request.content), AnswerTo(out.Known(), request.reply.question));
    }
  }

  lemma CreatedIsSound(rules: Rules, expires: int, first: Option<(string, Reply)>, commits: bool)
    ensures var made := Created(rules, expires, first, commits);
      made.Some? ==> Sound(rules, made.value) && made.value.status in {Collecting, PendingConfirmation}
  {
    hide Processed, AnswerTo;
    if Created(rules, expires, first, commits).Some? && first.Some? {
      var (content, reply) := first.value;
      var blank := Row(Collecting, [], None, None, expires);
      ProcessedTurn(rules, blank, content, reply);
      var out := Processed(rules, blank, content, reply).row;
      TurnKeepsAlternation([], Typed(content), AnswerTo(out.Known(), reply.question));
    }
  }

  /** Every row a session ever stores is sound, whatever the assistant and the queue do. */
  lemma {:induction false} EveryRowIsSound(rules: Rules, expires: int, first: Option<(string, Reply)>, commits: bool,
                                           requests: seq<Request>, i: nat)
    requires Created(rules, expires, first, commits).Some? && i <= |requests|
    ensures Sound(rules, Trace(rules, Created(rules, expires, first, commits).value, requests)[i])
  {
    hide Sound, Created, After;
    var row := Created(rules, expires, first, commits).value;
    CreatedIsSound(rules, expires, first, commits);
    if i > 0 {
      EveryRowIsSound(rules, expires, first, commits, requests, i - 1);
      TraceStep(rules, row, requests, i - 1);
      StepKeepsSound(rules, Trace(rules, row, requests)[i - 1], requests[i - 1]);
    } else if requests != [] {
      TraceStep(rules, row, requests, 0);
    }
  }

  /** Keys are never lost, so confirming never finds the slots empty. */
  lemma ConfirmAlwaysHasSlots(rules: Rules, row: Row, request: Request)
    requires Sound(rules, row)
    ensures Handled(rules, row, request).error != Some(NoSlots)
  {
  }

  // ---- Runs only move forward ----

  function Rank(status: Status): nat {
    match status
    case Collecting => 0
    case PendingConfirmation => 1
    case Confirmed => 2
    case Expired => 2
  }

  /** History only grows, slot keys stay, status climbs, and a terminal row is frozen. */
  ghost predicate Later(a: Row, b: Row) {
    && Rank(a.status) <= Rank(b.status)
    && a.messages <= b.messages
    && a.Known().Keys <= b.Known().Keys
    && a.expiresAt == b.expiresAt
    && (a.IsTerminal() ==> b == a)
  }

  lemma StepIsLater(rules: Rules, row: Row, request: Request)
    ensures Later(row, After(rules, row, request))
  {
    if Commits(rules, row, request) && request.Send? {
      hide Processed;
      ProcessedTurn(rules, row, request.content, request.reply);
    }
  }

  lemma {:induction false} RunsMoveForward(rules: Rules, row: Row, requests: seq<Request>, i: nat, j: nat)
    requires i <= j <= |requests|
    ensures Later(Trace(rules, row, requests)[i], Trace(rules, row, requests)[j])
  {
    hide After;
    if i < j {
      RunsMoveForward(rules, row, requests, i, j - 1);
      TraceStep(rules, row, requests, j - 1);
      StepIsLater(rules, Trace(rules, row, requests)[j - 1], requests[j - 1]);
    }
  }

  /** Where a run of a created session ends: sound, and after every row the session stored. */
  lemma RunsEndSound(rules: Rules, expires: int, first: Option<(string, Reply)>, commits: bool, requests: seq<Request>,
                     i: nat)
    requires Created(rules, expires, first, commits).Some? && i <= |requests|
    ensures var row := Created(rules, expires, first, commits).value;
      Sound(rules, Final(rules, row, requests)) && Later(Trace(rules, row, requests)[i], Final(rules, row, requests))
  {
    hide Sound, Later, Created;
    var row := Created(rules, expires, first, commits).value;
    EveryRowIsSound(rules, expires, first, commits, requests, |requests|);
    RunsMoveForward(rules, row, requests, i, |requests|);
    TraceEnds(rules, row, requests);
  }

  // ---- Dispatch ----

  /** A delivery whose request did not commit: the dispatch raised after delivering, or the commit failed. */
  predicate Orphans(rules: Rules, row: Row, request: Request) {
    Queued(rules, row, request) != [] && (request.dispatch.Raised? || !request.commits)
  }

  function OrphanCount(rules: Rules, row: Row, requests: seq<Request>): nat
    decreases |requests|
  {
    if requests == [] then 0
    else
      (if Orphans(rules, row, requests[0]) then 1 else 0)
      + OrphanCount(rules, After(rules, row, requests[0]), requests[1..])
  }

  function Dispatched(row: Row): nat {
    if row.status.Confirmed? then 1 else 0
  }

  lemma QueuedOnlyByConfirm(rules: Rules, row: Row, request: Request)
    ensures Queued(rules, row, request) != [] ==> request.Confirm?
    ensures |Queued(rules, row, request)| <= 1
    ensures |Queued(rules, row, request)|
         == Dispatched(After(rules, row, request)) - Dispatched(row) + if Orphans(rules, row, request) then 1 else 0
  {
  }

  /** Tasks on the queue are the committed run, if any, plus the orphans: nothing else is ever sent. */
  lemma {:induction false} DispatchesAreConserved(rules: Rules, row: Row, requests: seq<Request>)
    ensures |AllQueued(rules, row, requests)|
         == Dispatched(Final(rules, row, requests)) - Dispatched(row) + OrphanCount(rules, row, requests)
    decreases |requests|
  {
    hide After, Queued, Orphans;
    if requests != [] {
      QueuedOnlyByConfirm(rules, row, requests[0]);
      DispatchesAreConserved(rules, After(rules, row, requests[0]), requests[1..]);
    }
  }

  lemma ConfirmedRunWasQueued(rules: Rules, row: Row, request: Request)
    requires !row.status.Confirmed? && After(rules, row, request).status.Confirmed?
    ensures request.Confirm? && |Queued(rules, row, request)| == 1
    ensures After(rules, row, request).runId == Some(Queued(rules, row, request)[0].runId)
  {
  }

  /** Without orphans a session dispatches at most once, and the run it names is the one on the queue. */
  lemma {:induction false} AtMostOneDispatch(rules: Rules, row: Row, requests: seq<Request>)
    requires !row.status.Confirmed? && OrphanCount(rules, row, requests) == 0
    ensures var end, sent := Final(rules, row, requests), AllQueued(rules, row, requests);
      if end.status.Confirmed? then |sent| == 1 && end.runId == Some(sent[0].runId) else sent == []
    decreases |requests|
  {
    DispatchesAreConserved(rules, row, requests);
    if requests != [] {
      hide After, Queued, Orphans;
      var next := After(rules, row, requests[0]);
      if next.status.Confirmed? {
        ConfirmedRunWasQueued(rules, row, requests[0]);
        ConfirmedStays(rules, next, requests[1..]);
      } else {
        AtMostOneDispatch(rules, next, requests[1..]);
        DispatchesAreConserved(rules, next, requests[1..]);
      }
    }
  }

  lemma {:induction false} ConfirmedStays(rules: Rules, row: Row, requests: seq<Request>)
    requires row.IsTerminal()
    ensures Final(rules, row, requests) == row && AllQueued(rules, row, requests) == []
    decreases |requests|
  {
    if requests != [] {
      assert After(rules, row, requests[0]) == row && Queued(rules, row, requests[0]) == [] by {
        StepIsLater(rules, row, requests[0]);
      }
      hide After, Queued;
      ConfirmedStays(rules, row, requests[1..]);
    }
  }

  /** The task is queued before the commit: when the commit fails, confirming again dispatches again. */
  lemma FailedCommitCanDispatchTwice(rules: Rules, row: Row, a: string, b: string)
    requires row.status.PendingConfirmation? && row.Known() != map[] && row.expiresAt > 0
    requires rules.accepts(WithDefaults(row.Known()))
    ensures var requests := [Confirm(0, map[], Dispatch.Sent(a), false), Confirm(0, map[], Dispatch.Sent(b), true)];
      && AllQueued(rules, row, requests) == [Task(a, WithDefaults(row.Known())), Task(b, WithDefaults(row.Known()))]
      && Final(rules, row, requests).runId == Some(b)
  {
    var first, second := Confirm(0, map[], Dispatch.Sent(a), false), Confirm(0, map[], Dispatch.Sent(b), true);
    assert Merged(row.Known(), map[]) == row.Known();
    assert After(rules, row, first) == row;
    var end := After(rules, row, second);
    assert [first, second][1..] == [second] && [second][1..] == [];
    assert AllQueued(rules, row, [second]) == Queued(rules, row, second) + AllQueued(rules, end, []);
    assert Final(rules, row, [second]) == Final(rules, end, []);
  }

  /** Only accepted requests are queued, and they carry every slot collected so far. */
  lemma {:induction false} QueuedRequestsAreValid(rules: Rules, row: Row, requests: seq<Request>, k: nat)
    requires k < |AllQueued(rules, row, requests)|
    ensures var task := AllQueued(rules, row, requests)[k];
      rules.accepts(task.request) && row.Known().Keys <= task.request.Keys
    decreases |requests|
  {
    hide After, Queued;
    var here, next := Queued(rules, row, requests[0]), After(rules, row, requests[0]);
    QueuedOnlyByConfirm(rules, row, requests[0]);
    StepIsLater(rules, row, requests[0]);
    assert AllQueued(rules, row, requests) == here + AllQueued(rules, next, requests[1..]);
    if k < |here| {
      QueuedIsValid(rules, row, requests[0]);
    } else {
      QueuedRequestsAreValid(rules, next, requests[1..], k - |here|);
    }
  }

  /** Overrides win over stored slots, and stored slots over defaults; unknown or too many overrides
      are never sent. */
  lemma QueuedIsValid(rules: Rules, row: Row, request: Request)
    requires Queued(rules, row, request) != []
    ensures rules.accepts(Queued(rules, row, request)[0].request)
    ensures row.Known().Keys <= Queued(rules, row, request)[0].request.Keys
    ensures forall key :: key in row.Known() && key !in request.overrides ==>
              Queued(rules, row, request)[0].request[key] == row.Known()[key]
    ensures forall key :: key in request.overrides ==>
              Queued(rules, row, request)[0].request[key] == request.overrides[key]
    ensures var sent := Queued(rules, row, request)[0].request;
      && sent.Keys == row.Known().Keys + request.overrides.Keys + {"lookback_days", "run_quantum"}
      && Defaulted(row.Known(), request.overrides, sent)
    ensures request.overrides.Keys <= FIELDS
    ensures request.overrides == map[] || |request.overrides.Keys| <= rules.maxOverrideKeys
  {
    hide Built;
    BuiltIsValid(rules, row, request.overrides);
  }

  lemma BuiltIsValid(rules: Rules, row: Row, overrides: Slots)
    requires Built(rules, row, overrides).1.None?
    ensures var request, known := Built(rules, row, overrides).0, row.Known();
      && rules.accepts(request)
      && (forall key :: key in known || key in overrides ==>
            key in request && request[key] == if key in overrides then overrides[key] else known[key])
    ensures var request, known := Built(rules, row, overrides).0, row.Known();
      request.Keys == known.Keys + overrides.Keys + {"lookback_days", "run_quantum"} && Defaulted(known, overrides, request)
    ensures overrides.Keys <= FIELDS && (overrides == map[] || |overrides.Keys| <= rules.maxOverrideKeys)
  {
  }

  /** What nobody asked for otherwise: a lookback of 365 days, and the quantum stage. */
  predicate Defaulted(known: Slots, overrides: Slots, request: Slots) {
    && ("lookback_days" !in known && "lookback_days" !in overrides ==>
          "lookback_days" in request && request["lookback_days"] == Amount(365.0))
    && ("run_quantum" !in known && "run_quantum" !in overrides ==>
          "run_quantum" in request && request["run_quantum"] == Other("true"))
  }

  // ---- Expiry ----

  ghost predicate ClockNeverGoesBack(requests: seq<Request>) {
    forall i, j :: 0 <= i < j < |requests| ==> requests[i].now <= requests[j].now
  }

  /** A request at or after the expiry time sends nothing and at most turns the status to expired. */
  lemma LateRequest(rules: Rules, row: Row, request: Request)
    requires request.now >= row.expiresAt
    ensures Queued(rules, row, request) == []
    ensures After(rules, row, request)
         == if request.Get? && request.commits && !row.IsTerminal() then row.(status := Expired) else row
  {
  }

  /** From the first request at or after expiry on, no message is stored and nothing is dispatched,
      although an expiry noticed while sending or confirming is rolled back. */
  lemma {:induction false} NothingAfterExpiry(rules: Rules, row: Row, requests: seq<Request>)
    requires requests != [] ==> requests[0].now >= row.expiresAt
    requires ClockNeverGoesBack(requests)
    ensures AllQueued(rules, row, requests) == []
    ensures Final(rules, row, requests) == row || Final(rules, row, requests) == row.(status := Expired)
    ensures Final(rules, row, requests).status.Expired? <==>
      row.status.Expired? || (!row.IsTerminal() && exists r :: r in requests && r.Get? && r.commits)
    decreases |requests|
  {
    if requests != [] {
      var request, rest := requests[0], requests[1..];
      LateRequest(rules, row, request);
      hide After, Queued;
      NothingAfterExpiry(rules, After(rules, row, request), rest);
      assert requests == [request] + rest;
      assert forall r :: r in requests <==> r == request || r in rest;
    }
  }

  /** A row turns expired only through a read: every other request that notices expiry rolls back. */
  lemma OnlyReadsStoreExpiry(rules: Rules, row: Row, request: Request)
    requires !row.status.Expired?
    ensures After(rules, row, request).status.Expired? <==>
      request.Get? && request.commits && request.now >= row.expiresAt && !row.status.Confirmed?
  {
  }

  // ---- Message limit ----

  function TurnCount(rules: Rules, row: Row, requests: seq<Request>): nat
    decreases |requests|
  {
    if requests == [] then 0
    else
      (if requests[0].Send? && Commits(rules, row, requests[0]) then 1 else 0)
      + TurnCount(rules, After(rules, row, requests[0]), requests[1..])
  }

  lemma StepCountsTurn(rules: Rules, row: Row, request: Request)
    ensures |After(rules, row, request).messages|
         == |row.messages| + if request.Send? && Commits(rules, row, request) then 2 else 0
  {
  }

  /** History grows by exactly one question and one answer per committed message. */
  lemma {:induction false} HistoryCountsTurns(rules: Rules, row: Row, requests: seq<Request>)
    ensures |Final(rules, row, requests).messages| == |row.messages| + 2 * TurnCount(rules, row, requests)
    decreases |requests|
  {
    hide After, Commits;
    if requests != [] {
      StepCountsTurn(rules, row, requests[0]);
      HistoryCountsTurns(rules, After(rules, row, requests[0]), requests[1..]);
    }
  }

  /** A full conversation still collecting can only expire: it never dispatches. */
  lemma {:induction false} FullConversationIsStuck(rules: Rules, row: Row, requests: seq<Request>)
    requires row.status.Collecting? && |row.messages| + 2 > rules.maxMessages
    ensures var end := Final(rules, row, requests); end == row || end == row.(status := Expired)
    ensures AllQueued(rules, row, requests) == []
    decreases |requests|
  {
    if requests != [] {
      var next := After(rules, row, requests[0]);
      assert next == row || next == row.(status := Expired);
      assert Queued(rules, row, requests[0]) == [];
      hide After, Queued;
      if next == row {
        FullConversationIsStuck(rules, row, requests[1..]);
      } else {
        ConfirmedStays(rules, next, requests[1..]);
      }
    }
  }

  // ---- Slots ----

  /** A committed message stores what was extracted over what was known, and leaves the session awaiting
      confirmation exactly when it already was or both required slots are there and no two contradict. */
  lemma ExtractionWins(rules: Rules, row: Row, request: Request)
    requires request.Send? && Commits(rules, row, request)
    ensures var out, extracted := After(rules, row, request), request.reply.slots;
      && (forall key :: key in out.Known() <==>
            key in row.Known() || (extracted.Some? && key in extracted.value))
      && (forall key :: key in out.Known() ==>
            out.Known()[key] == if extracted.Some? && key in extracted.value then extracted.value[key] else row.Known()[key])
      && (out.status.PendingConfirmation? <==>
            row.status.PendingConfirmation? || (HasRequired(out.Known()) && Consistent(out.Known())))
  {
  }

  /** Weight bounds from different turns that contradict each other keep a session collecting, however
      complete its tickers and budget are; bounds that leave room let it go on. */
  lemma ContradictionBlocksConfirmation(rules: Rules, row: Row, low: real, high: real)
    requires row.status.Collecting? && |row.messages| + 2 <= rules.maxMessages && row.expiresAt > 0
    requires HasRequired(row.Known()) && row.Known().Keys <= FIELDS
    requires "max_weight_per_asset" in row.Known() && row.Known()["max_weight_per_asset"] == Amount(high)
    ensures var bound := Send(0, "", Extracted(Some(map["min_weight_per_asset" := Amount(low)]), ""), true);
      var next := After(rules, row, bound);
      && next.status == (if low < high then PendingConfirmation else Collecting) && HasRequired(next.Known())
      && (low >= high ==> next.messages[|next.messages| - 1].content == Fallback(["tickers", "budget"]))
  {
    assert Missing(map[]) == ["tickers", "budget"];
  }

  /** Awaiting confirmation does not mean the slots are still complete: a later turn can shrink the
      ticker list without the status going back. */
  lemma PendingCanBecomeIncomplete(rules: Rules, row: Row, name: string)
    requires row.status.PendingConfirmation? && |row.messages| + 2 <= rules.maxMessages && row.expiresAt > 0
    ensures var shrink := Send(0, "", Extracted(Some(map["tickers" := Names([name])]), ""), true);
      var next := After(rules, row, shrink);
      next.status.PendingConfirmation? && !HasRequired(next.Known())
  {
  }

  /** A message fills a required slot exactly when it extracts a filled value, or extracts none over a filled one;
      a session awaiting confirmation keeps awaiting it either way. */
  lemma MessageFillsExactlyWhen(rules: Rules, row: Row, request: Request)
    requires request.Send? && Commits(rules, row, request) && request.reply.slots.Some?
    ensures var next, extracted := After(rules, row, request), request.reply.slots.value;
      && (HasTickers(next.Known()) <==> HasTickers(if "tickers" in extracted then extracted else row.Known()))
      && (HasBudget(next.Known()) <==> HasBudget(if "budget" in extracted then extracted else row.Known()))
      && (row.status.PendingConfirmation? ==> next.status.PendingConfirmation?)
  {
    ExtractionWins(rules, row, request);
    hide After, Commits;
  }

  /** No required slot is replaced by a value that does not fill it. */
  predicate KeepsRequired(request: Request) {
    request.Send? && request.reply.Extracted? && request.reply.slots.Some? ==>
      var extracted := request.reply.slots.value;
      && ("tickers" in extracted ==> HasTickers(extracted))
      && ("budget" in extracted ==> HasBudget(extracted))
  }

  /** A session that awaits confirmation, or has been confirmed, with the required slots filled. */
  predicate Complete(row: Row) {
    row.status.PendingConfirmation? || row.status.Confirmed? ==> HasRequired(row.Known())
  }

  predicate Kept(rules: Rules, row: Row, request: Request) {
    row.status.PendingConfirmation? && Commits(rules, row, request) ==> KeepsRequired(request)
  }

  lemma StepStaysCompleteExactlyWhen(rules: Rules, row: Row, request: Request)
    requires Complete(row)
    ensures Complete(After(rules, row, request)) <==> Kept(rules, row, request)
  {
    if request.Send? && Commits(rules, row, request) {
      ExtractionWins(rules, row, request);
      if request.reply.slots.Some? {
        MessageFillsExactlyWhen(rules, row, request);
      }
      assert !row.IsTerminal() && !After(rules, row, request).IsTerminal();
      hide After, Handled;
    }
  }

  /** From its creation on, a session awaiting confirmation has its required slots filled exactly as long as no
      message it stores while waiting replaces one of them by a value that does not fill it. */
  lemma {:induction false} PendingMeansCompleteExactlyWhen(rules: Rules, expires: int,
                                                           first: Option<(string, Reply)>, commits: bool,
                                                           requests: seq<Request>)
    requires Created(rules, expires, first, commits).Some?
    ensures var rows := Trace(rules, Created(rules, expires, first, commits).value, requests);
      (forall i :: 0 <= i <= |requests| ==> Complete(rows[i]))
        <==> forall i :: 0 <= i < |requests| ==> Kept(rules, rows[i], requests[i])
  {
    CreatedComplete(rules, expires, first, commits);
    hide Complete, Kept, Created;
    StaysCompleteExactlyWhen(rules, Created(rules, expires, first, commits).value, requests);
  }

  lemma CreatedComplete(rules: Rules, expires: int, first: Option<(string, Reply)>, commits: bool)
    ensures var made := Created(rules, expires, first, commits); made.Some? ==> Complete(made.value)
  {
  }

  lemma {:induction false} StaysCompleteExactlyWhen(rules: Rules, row: Row, requests: seq<Request>)
    requires Complete(row)
    ensures var rows := Trace(rules, row, requests);
      (forall i :: 0 <= i <= |requests| ==> Complete(rows[i]))
        <==> forall i :: 0 <= i < |requests| ==> Kept(rules, rows[i], requests[i])
    decreases |requests|
  {
    hide Complete, Kept, After;
    if requests != [] {
      var next, rest := After(rules, row, requests[0]), requests[1..];
      var rows, others := Trace(rules, row, requests), Trace(rules, next, rest);
      assert rows == [row] + others && others[0] == next;
      StepStaysCompleteExactlyWhen(rules, row, requests[0]);
      assert forall i :: 0 <= i <= |rest| ==> rows[i + 1] == others[i];
      assert forall i :: 0 <= i < |rest| ==> requests[i + 1] == rest[i];
      if Kept(rules, row, requests[0]) {
        StaysCompleteExactlyWhen(rules, next, rest);
        CompleteShift(row, others);
        KeptShift(rules, row, requests[0], others, rest);
      } else {
        assert !Complete(rows[1]) && !Kept(rules, rows[0], requests[0]);
      }
    }
  }

  lemma CompleteShift(row: Row, others: seq<Row>)
    requires Complete(row)
    ensures (forall i :: 0 <= i < |others| ==> Complete(others[i]))
       <==> forall i :: 0 <= i < |others| + 1 ==> Complete(([row] + others)[i])
  {
    hide Complete;
    if forall i :: 0 <= i < |others| + 1 ==> Complete(([row] + others)[i]) {
      forall i | 0 <= i < |others| ensures Complete(others[i]) {
        assert Complete(([row] + others)[i + 1]);
      }
    }
  }

  lemma KeptShift(rules: Rules, row: Row, request: Request, others: seq<Row>, rest: seq<Request>)
    requires Kept(rules, row, request) && |others| == |rest| + 1
    ensures (forall i :: 0 <= i < |rest| ==> Kept(rules, others[i], rest[i]))
       <==> forall i :: 0 <= i < |rest| + 1 ==> Kept(rules, ([row] + others)[i], ([request] + rest)[i])
  {
    hide Kept;
    if forall i :: 0 <= i < |rest| + 1 ==> Kept(rules, ([row] + others)[i], ([request] + rest)[i]) {
      forall i | 0 <= i < |rest| ensures Kept(rules, others[i], rest[i]) {
        assert Kept(rules, ([row] + others)[i + 1], ([request] + rest)[i + 1]);
      }
    }
  }

  /** A conversation whose first message names its tickers and its budget awaits confirmation exactly when there
      are at least two tickers and the budget is positive. */
  lemma FirstMessageSufficesExactlyWhen(rules: Rules, expires: int, content: string, question: string,
                                        names: seq<string>, budget: real)
    requires rules.maxMessages >= 2
    ensures var told := map["tickers" := Names(names), "budget" := Amount(budget)];
      var made := Created(rules, expires, Some((content, Extracted(Some(told), question))), true);
      made.Some? && (made.value.status.PendingConfirmation? <==> |names| >= 2 && budget > 0.0)
  {
  }

  // ---- When requests succeed ----

  /** A session is created exactly when the transaction commits and its first message, if any, is processed. */
  lemma CreatedExactlyWhen(rules: Rules, expires: int, first: Option<(string, Reply)>, commits: bool)
    ensures var made := Created(rules, expires, first, commits);
      && (made.Some? <==> commits && (first.Some? ==> rules.maxMessages >= 2 && first.value.1.Extracted?))
      && (made.Some? ==> made.value.expiresAt == expires && made.value.runId == None)
      && (made.Some? && first.None? ==> made.value.messages == [Message(Assistant, Welcome)])
      && (made.Some? && first.Some? ==>
            made.value.messages == [Message(User, Typed(first.value.0)),
                                    Message(Assistant, AnswerTo(made.value.Known(), first.value.1.question))])
  {
    if first.Some? && rules.maxMessages >= 2 && first.value.1.Extracted? {
      ProcessedTurn(rules, Row(Collecting, [], None, None, expires), first.value.0, first.value.1);
      hide AnswerTo;
    }
  }

  /** How a message can fail, each way exactly when nothing before it in this order applies. */
  lemma SendErrors(rules: Rules, row: Row, request: Request)
    requires request.Send?
    ensures var error, late := Handled(rules, row, request).error, request.now >= row.expiresAt;
      && (error == Some(AlreadyConfirmed) <==> row.status.Confirmed?)
      && (error == Some(SessionExpired) <==> row.status.Expired? || (late && !row.status.Confirmed?))
      && (error == Some(TooManyMessages) <==> !row.IsTerminal() && !late && |row.messages| + 2 > rules.maxMessages)
      && (error == Some(ExtractionFailed) <==>
            !row.IsTerminal() && !late && |row.messages| + 2 <= rules.maxMessages && request.reply.LlmFailure?)
      && (error == None <==>
            !row.IsTerminal() && !late && |row.messages| + 2 <= rules.maxMessages && request.reply.Extracted?)
  {
  }

  /** The overrides are few enough and all known, and the merged request passes validation. */
  predicate Buildable(rules: Rules, row: Row, overrides: Slots) {
    && row.Known() != map[] && (overrides == map[] || |overrides.Keys| <= rules.maxOverrideKeys)
    && overrides.Keys <= FIELDS && rules.accepts(WithDefaults(Merged(row.Known(), overrides)))
  }

  /** A confirmation reaches the queue exactly when the session awaits it in time, the request can be built, and the
      dispatch delivers; it confirms the session exactly when the dispatch also returns and the transaction commits. */
  lemma ConfirmedExactlyWhen(rules: Rules, row: Row, request: Request)
    requires request.Confirm? && !row.status.Confirmed?
    ensures var ready := row.status.PendingConfirmation? && request.now < row.expiresAt
                         && Buildable(rules, row, request.overrides);
      && (Queued(rules, row, request) != [] <==> ready && (request.dispatch.Sent? || request.dispatch.delivered))
      && (Queued(rules, row, request) != [] ==> Queued(rules, row, request)[0].runId == request.dispatch.runId)
      && (After(rules, row, request).status.Confirmed? <==> ready && request.dispatch.Sent? && request.commits)
  {
  }

  /** How a confirmation can fail. */
  lemma ConfirmErrors(rules: Rules, row: Row, request: Request)
    requires request.Confirm? && Sound(rules, row)
    ensures var error, late, pending := Handled(rules, row, request).error, request.now >= row.expiresAt,
                                        row.status.PendingConfirmation? && request.now < row.expiresAt;
      var tooMany := request.overrides != map[] && |request.overrides.Keys| > rules.maxOverrideKeys;
      var rejected := tooMany || !(request.overrides.Keys <= FIELDS);
      && (error == Some(AlreadyConfirmed) <==> row.status.Confirmed?)
      && (error == Some(SessionExpired) <==> row.status.Expired? || (late && !row.status.Confirmed?))
      && (error == Some(InvalidState) <==> row.status.Collecting? && !late)
      && (error == Some(OverrideRejected) <==> pending && rejected)
      && (error == Some(RequestRejected) <==> pending && !rejected && !Buildable(rules, row, request.overrides))
      && (error == Some(DispatchFailed) <==>
            pending && Buildable(rules, row, request.overrides) && request.dispatch.Raised?)
  {
    ConfirmAlwaysHasSlots(rules, row, request);
  }
}
