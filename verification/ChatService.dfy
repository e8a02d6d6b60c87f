/** The chat operations, and the transaction that commits or rolls back each request. */
module ChatService {
  import opened Options
  import opened ChatSessions

  datatype Error =
    | SessionExpired
    | AlreadyConfirmed
    | InvalidState
    | NoSlots
    | TooManyMessages
    | ExtractionFailed
    | OverrideRejected
    | RequestRejected
    | DispatchFailed

  /** The configured limits, and the validator of optimization requests. */
  datatype Rules = Rules(maxMessages: int, maxOverrideKeys: int, accepts: Slots -> bool)

  /** What the slot filler answers. */
  datatype Reply = Extracted(slots: Option<Extraction>, question: string) | LlmFailure

  /** How a dispatch ends; one that raises may have reached the queue or not. */
  datatype Dispatch = Sent(runId: string) | Raised(runId: string, delivered: bool)

  /** A message on the worker queue. */
  datatype Task = Task(runId: string, request: Slots)

  datatype Request =
    | Send(now: int, content: string, reply: Reply, commits: bool)
    | Confirm(now: int, overrides: Slots, dispatch: Dispatch, commits: bool)
    | Get(now: int, commits: bool)

  /** The session as an operation leaves it, its error if it raises, and what it put on the queue. */
  datatype Outcome = Outcome(row: Row, error: Option<Error>, sent: seq<Task>)

  // ---- Slots ----

  /** Values extracted in different turns can contradict each other. */
  predicate Consistent(m: Slots) {
    "min_weight_per_asset" in m && "max_weight_per_asset" in m ==>
      var low, high := m["min_weight_per_asset"], m["max_weight_per_asset"];
      low.Amount? && high.Amount? ==> low.amount < high.amount
  }

  /** The slots as validated again after a merge: all of them, or none. */
  function Validated(m: Slots): Slots {
    if Consistent(m) then m else map[]
  }

  predicate HasTickers(m: Slots) {
    "tickers" in m && m["tickers"].Names? && |m["tickers"].names| >= 2
  }

  predicate HasBudget(m: Slots) {
    "budget" in m && m["budget"].Amount? && m["budget"].amount > 0.0
  }

  function Missing(m: Slots): seq<string> {
    (if HasTickers(m) then [] else ["tickers"]) + if HasBudget(m) then [] else ["budget"]
  }

  predicate HasRequired(m: Slots) {
    HasTickers(m) && HasBudget(m)
  }

  function Merged(existing: Slots, extracted: Slots): Slots {
    existing + extracted
  }

  function WithDefaults(m: Slots): Slots {
    var m := if "lookback_days" in m then m else m["lookback_days" := Amount(365.0)];
    if "run_quantum" in m then m else m["run_quantum" := Other("true")]
  }

  // ---- Operations on values ----

  function Processed(rules: Rules, row: Row, content: string, reply: Reply): Outcome {
    if |row.messages| + 2 > rules.maxMessages then Outcome(row, Some(TooManyMessages), [])
    else
      var asked := row.Saying(User, Typed(content));
      if reply.LlmFailure? then Outcome(asked, Some(ExtractionFailed), [])
      else
        var filled := match reply.slots
                      case None => asked
                      case Some(slots) => asked.(slots := Some(Merged(row.Known(), slots)));
        var current := Validated(filled.Known());
        if HasRequired(current) then
          var pending := if filled.status.PendingConfirmation? then filled
                         else filled.(status := PendingConfirmation, slots := Some(filled.Known()));
          Outcome(pending.Saying(Assistant, Summary(current)), None, [])
        else
          var answer := if reply.question != "" then Question(reply.question) else Fallback(Missing(current));
          Outcome(filled.Saying(Assistant, answer), None, [])
  }

  function Lapsed(row: Row, now: int): Row {
    if now >= row.expiresAt && !row.IsTerminal() then row.(status := Expired) else row
  }

  function SendOutcome(rules: Rules, row: Row, now: int, content: string, reply: Reply): Outcome {
    var row := Lapsed(row, now);
    match row.status
    case Expired => Outcome(row, Some(SessionExpired), [])
    case Confirmed => Outcome(row, Some(AlreadyConfirmed), [])
    case _ => Processed(rules, row, content, reply)
  }

  function Built(rules: Rules, row: Row, overrides: Slots): (Slots, Option<Error>) {
    if row.Known() == map[] then (map[], Some(NoSlots))
    else if |overrides.Keys| > rules.maxOverrideKeys && overrides != map[] then (map[], Some(OverrideRejected))
    else if !(overrides.Keys <= FIELDS) then (map[], Some(OverrideRejected))
    else
      var request := WithDefaults(Merged(row.Known(), overrides));
      if rules.accepts(request) then (request, None) else (map[], Some(RequestRejected))
  }

  function ConfirmOutcome(rules: Rules, row: Row, now: int, overrides: Slots, dispatch: Dispatch): Outcome {
    if row.status.Confirmed? then Outcome(row, Some(AlreadyConfirmed), [])
    else if row.status.Expired? || now >= row.expiresAt then Outcome(row.(status := Expired), Some(SessionExpired), [])
    else if !row.status.PendingConfirmation? then Outcome(row, Some(InvalidState), [])
    else
      var (request, error) := Built(rules, row, overrides);
      if error.Some? then Outcome(row, error, [])
      else
        match dispatch
        case Raised(run, delivered) => Outcome(row, Some(DispatchFailed), if delivered then [Task(run, request)] else [])
        case Sent(run) => Outcome(row.(status := Confirmed, runId := Some(run)), None, [Task(run, request)])
  }

  function Handled(rules: Rules, row: Row, request: Request): Outcome {
    match request
    case Send(now, content, reply, _) => SendOutcome(rules, row, now, content, reply)
    case Confirm(now, overrides, dispatch, _) => ConfirmOutcome(rules, row, now, overrides, dispatch)
    case Get(now, _) => Outcome(Lapsed(row, now), None, [])
  }

  predicate Commits(rules: Rules, row: Row, request: Request) {
    Handled(rules, row, request).error.None? && request.commits
  }

  /** The stored row after a request: an error or a failed commit leaves it as it was. */
  function After(rules: Rules, row: Row, request: Request): Row {
    if Commits(rules, row, request) then Handled(rules, row, request).row else row
  }

  /** What a request puts on the queue, which no rollback takes back. */
  function Queued(rules: Rules, row: Row, request: Request): seq<Task> {
    Handled(rules, row, request).sent
  }

  /** A new session with its first message, or the welcome; none if the transaction fails. */
  function Created(rules: Rules, expires: int, first: Option<(string, Reply)>, commits: bool): Option<Row> {
    var row := Row(Collecting, [], None, None, expires);
    var made := match first
                case None => Outcome(row.Saying(Assistant, Welcome), None, [])
                case Some((content, reply)) => Processed(rules, row, content, reply);
    if made.error.None? && commits then Some(made.row) else None
  }

  // ---- The service ----

  class Service {
    const rules: Rules
    var stored: Option<Row>
    var queue: seq<Task>

    constructor (rules: Rules)
      ensures this.rules == rules && stored == None && queue == []
    {
      this.rules, stored, queue := rules, None, [];
    }

    method ProcessMessage(session: ChatSession, content: string, reply: Reply) returns (error: Option<Error>)
      modifies session
      ensures Outcome(session.Columns(), error, []) == Processed(rules, old(session.Columns()), content, reply)
    {
      if |session.messages| + 2 > rules.maxMessages {
        return Some(TooManyMessages);
      }
      var existing := session.Columns().Known();
      session.AppendMessage(User, Typed(content));
      if reply.LlmFailure? {
        return Some(ExtractionFailed);
      }
      if reply.slots.Some? {
        session.extractedSlots := Some(Merged(existing, reply.slots.value));
      }
      var current := Validated(session.Columns().Known());
      var answer;
      if HasRequired(current) {
        if !session.status.PendingConfirmation? {
          session.MarkPendingConfirmation(session.Columns().Known());
        }
        answer := Summary(current);
      } else if reply.question != "" {
        answer := Question(reply.question);
      } else {
        answer := Fallback(Missing(current));
      }
      session.AppendMessage(Assistant, answer);
      return None;
    }

    method AssertAcceptingMessages(session: ChatSession, now: int) returns (error: Option<Error>)
      modifies session
      ensures session.Columns() == Lapsed(old(session.Columns()), now)
      ensures error == match session.status
                       case Expired => Some(SessionExpired)
                       case Confirmed => Some(AlreadyConfirmed)
                       case _ => None
    {
      if session.IsExpired(now) && !session.IsTerminal() {
        session.MarkExpired();
      }
      if session.status.Expired? {
        return Some(SessionExpired);
      }
      if session.status.Confirmed? {
        return Some(AlreadyConfirmed);
      }
      return None;
    }

    method SendMessage(session: ChatSession, now: int, content: string, reply: Reply) returns (error: Option<Error>)
      modifies session
      ensures Outcome(session.Columns(), error, []) == SendOutcome(rules, old(session.Columns()), now, content, reply)
    {
      error := AssertAcceptingMessages(session, now);
      if error.None? {
        error := ProcessMessage(session, content, reply);
      }
    }

    method BuildRequest(session: ChatSession, overrides: Slots) returns (request: Slots, error: Option<Error>)
      ensures (request, error) == Built(rules, session.Columns(), overrides)
    {
      var known := session.Columns().Known();
      if known == map[] {
        return map[], Some(NoSlots);
      }
      if overrides != map[] {
        if |overrides.Keys| > rules.maxOverrideKeys || !(overrides.Keys <= FIELDS) {
          return map[], Some(OverrideRejected);
        }
      }
      request := WithDefaults(Merged(known, overrides));
      if !rules.accepts(request) {
        return map[], Some(RequestRejected);
      }
      return request, None;
    }

    method ConfirmSession(session: ChatSession, now: int, overrides: Slots, dispatch: Dispatch)
      returns (error: Option<Error>, sent: seq<Task>)
      modifies session
      ensures Outcome(session.Columns(), error, sent)
           == ConfirmOutcome(rules, old(session.Columns()), now, overrides, dispatch)
    {
      if session.status.Confirmed? {
        return Some(AlreadyConfirmed), [];
      }
      if session.status.Expired? || session.IsExpired(now) {
        if !session.IsTerminal() {
          session.MarkExpired();
        }
        return Some(SessionExpired), [];
      }
      if !session.status.PendingConfirmation? {
        return Some(InvalidState), [];
      }
      var request;
      request, error := BuildRequest(session, overrides);
      if error.Some? {
        return error, [];
      }
      match dispatch
      case Raised(run, delivered) =>
        session.status := PendingConfirmation;
        return Some(DispatchFailed), if delivered then [Task(run, request)] else [];
      case Sent(run) =>
        session.MarkConfirmed(run);
        return None, [Task(run, request)];
    }

    method GetSession(session: ChatSession, now: int)
      modifies session
      ensures session.Columns() == Lapsed(old(session.Columns()), now)
    {
      if !session.IsTerminal() && session.IsExpired(now) {
        session.MarkExpired();
      }
    }

    /** One request in its transaction: load the row, run the operation, then commit or roll back. */
    method Serve(request: Request) returns (error: Option<Error>)
      requires stored.Some?
      modifies this
      ensures stored == Some(After(rules, old(stored).value, request))
      ensures queue == old(queue) + Queued(rules, old(stored).value, request)
      ensures error == Handled(rules, old(stored).value, request).error
    {
      var session := new ChatSession.Load(stored.value);
      error := None;
      match request {
        case Send(now, content, reply, _) =>
          error := SendMessage(session, now, content, reply);
        case Confirm(now, overrides, dispatch, _) =>
          var sent;
          error, sent := ConfirmSession(session, now, overrides, dispatch);
          queue := queue + sent;
        case Get(now, _) =>
          GetSession(session, now);
      }
      if error.None? && request.commits {
        stored := Some(session.Columns());
      }
    }

    method CreateSession(expires: int, first: Option<(string, Reply)>, commits: bool)
      requires stored.None?
      modifies this
      ensures stored == Created(rules, expires, first, commits) && queue == old(queue)
    {
      var session := new ChatSession(expires);
      var error := None;
      match first {
        case None =>
          session.AppendMessage(Assistant, Welcome);
        case Some((content, reply)) =>
          error := ProcessMessage(session, content, reply);
      }
      if error.None? && commits {
        stored := Some(session.Columns());
      }
    }
  }
}
