/** The worker task: attempts, retries with backoff, and what it publishes on the run's channel. */
module Worker {
  import opened Options
  import opened Pipeline

  datatype Message = Progress(event: Event) | Retrying(countdown: nat) | Result(status: RunStatus) | Error(code: string)

  predicate IsTerminal(m: Message) {
    m.Result? || m.Error?
  }

  /** How an attempt ends: it returns; the time limit strikes, before or after its result is published;
      or it raises, and the retry may then fail to be scheduled. */
  datatype End = Returns(status: RunStatus) | TimesOut(result: Option<RunStatus>) | Breaks(scheduled: bool)

  /** One attempt: the progress it publishes before it ends, if it gets that far, and its end. */
  datatype Attempt = Attempt(progress: seq<Event>, end: End)

  const MAX_RETRIES: nat := 3

  const RETRY_BASE_DELAY: nat := 30

  function PowerOfTwo(n: nat): nat {
    if n == 0 then 1 else 2 * PowerOfTwo(n - 1)
  }

  function Countdown(retries: nat): nat {
    RETRY_BASE_DELAY * PowerOfTwo(retries)
  }

  function Announced(progress: seq<Event>): seq<Message> {
    if progress == [] then [] else [Progress(progress[0])] + Announced(progress[1..])
  }

  /** The result an attempt publishes, if it gets there. */
  function Outcome(end: End): seq<Message> {
    match end
    case Returns(status) => [Result(status)]
    case TimesOut(Some(status)) => [Result(status)]
    case _ => []
  }

  /** What the exception handlers of the task publish. */
  function Handling(end: End, retries: nat): seq<Message> {
    match end
    case Returns(_) => []
    case TimesOut(_) => [Message.Error("QUANTUM_TIMEOUT")]
    case Breaks(_) =>
      if retries < MAX_RETRIES then [Retrying(Countdown(retries))] else [Message.Error("AGENT_EXECUTION_ERROR")]
  }

  /** What one attempt publishes. */
  function Published(a: Attempt, retries: nat): seq<Message> {
    Announced(a.progress) + Outcome(a.end) + Handling(a.end, retries)
  }

  predicate RunsAgain(a: Attempt, retries: nat) {
    a.end.Breaks? && retries < MAX_RETRIES && a.end.scheduled
  }

  /** The channel from the attempt after the given number of retries on. */
  function Channel(attempts: nat -> Attempt, retries: nat): seq<Message>
    decreases MAX_RETRIES - retries
  {
    Published(attempts(retries), retries)
    + if RunsAgain(attempts(retries), retries) then Channel(attempts, retries + 1) else []
  }

  /** The number of retries made before the last attempt. */
  function LastAttempt(attempts: nat -> Attempt, retries: nat): nat
    decreases MAX_RETRIES - retries
  {
    if RunsAgain(attempts(retries), retries) then LastAttempt(attempts, retries + 1) else retries
  }

  /** The total time spent waiting between attempts, in seconds. */
  function Backoff(attempts: nat -> Attempt, retries: nat): nat
    decreases MAX_RETRIES - retries
  {
    if RunsAgain(attempts(retries), retries) then Countdown(retries) + Backoff(attempts, retries + 1) else 0
  }

  // ---- One attempt: the graph and what surrounds it ----

  /** Where an attempt can be interrupted: before the graph, while it runs and is turned into a report, and after
      that. What goes wrong while publishing or persisting is swallowed and interrupts nothing. */
  datatype Spot = BeforeGraph | AroundGraph | AfterGraph

  /** What interrupts an attempt. An interruption around the graph lets some of its events out first. */
  datatype Trouble =
    | Smooth
    | Exception(at: Spot, progressed: nat)
    | TimeLimit(at: Spot, progressed: nat)
    | TimeLimitAfterResult

  datatype Job = Job(limit: nat, tickers: nat, runQuantum: bool)

  /** One attempt at a job: what the nodes do, what happens around the graph, and whether a retry could be queued. */
  datatype Plan = Plan(bodies: Node -> Body, trouble: Trouble, scheduled: bool)

  function GraphRun(job: Job, plan: Plan): Run {
    Execute(job.limit, DataFetch, Initial(job.tickers, job.runQuantum), plan.bodies)
  }

  /** The worker announces the first node, then the graph publishes its own events. */
  function Reached(events: seq<Event>, at: Spot, progressed: nat): seq<Event> {
    match at
    case BeforeGraph => []
    case AroundGraph => [Started(DataFetch)] + if progressed < |events| then events[..progressed] else events
    case AfterGraph => [Started(DataFetch)] + events
  }

  /** The attempt a plan makes. A graph that returns is a success to the worker, whatever status it reports. */
  function AttemptOf(job: Job, plan: Plan): Attempt {
    var run := GraphRun(job, plan);
    match plan.trouble
    case Smooth => Attempt([Started(DataFetch)] + run.events, Returns(Detail(run.state).status))
    case Exception(at, n) => Attempt(Reached(run.events, at, n), Breaks(plan.scheduled))
    case TimeLimit(at, n) => Attempt(Reached(run.events, at, n), TimesOut(None))
    case TimeLimitAfterResult => Attempt([Started(DataFetch)] + run.events, TimesOut(Some(Detail(run.state).status)))
  }

  function Attempts(job: Job, plans: nat -> Plan): nat -> Attempt {
    (n: nat) => AttemptOf(job, plans(n))
  }

  class OptimizationTask {
    const job: Job
    var channel: seq<Message>
    var waited: nat

    constructor (job: Job)
      ensures this.job == job && channel == [] && waited == 0
    {
      this.job, channel, waited := job, [], 0;
    }

    method PublishAll(progress: seq<Event>)
      modifies this
      ensures channel == old(channel) + Announced(progress) && waited == old(waited)
    {
      var i := 0;
      while i < |progress|
        invariant i <= |progress| && waited == old(waited)
        invariant channel + Announced(progress[i..]) == old(channel) + Announced(progress)
      {
        ghost var rest := Announced(progress[i + 1..]);
        assert progress[i..][1..] == progress[i + 1..];
        assert channel + ([Progress(progress[i])] + rest) == channel + [Progress(progress[i])] + rest;
        channel := channel + [Progress(progress[i])];
        i := i + 1;
      }
    }

    /** Run the graph, report whatever it returns, and publish the report. */
    method ExecuteOptimization(plan: Plan) returns (end: End)
      modifies this
      ensures end == AttemptOf(job, plan).end && waited == old(waited)
      ensures channel == old(channel) + Announced(AttemptOf(job, plan).progress) + Outcome(end)
    {
      hide Execute, Announced;
      if plan.trouble.Exception? && plan.trouble.at.BeforeGraph? {
        NothingAnnounced();
        return Breaks(plan.scheduled);
      }
      if plan.trouble.TimeLimit? && plan.trouble.at.BeforeGraph? {
        NothingAnnounced();
        return TimesOut(None);
      }
      var graph := new Graph(job.limit);
      var state, _ := graph.Invoke(Initial(job.tickers, job.runQuantum), plan.bodies);
      var events := graph.events;
      assert events == GraphRun(job, plan).events;
      if plan.trouble.Exception? {
        PublishAll(Reached(events, plan.trouble.at, plan.trouble.progressed));
        return Breaks(plan.scheduled);
      }
      if plan.trouble.TimeLimit? {
        PublishAll(Reached(events, plan.trouble.at, plan.trouble.progressed));
        return TimesOut(None);
      }
      PublishAll([Started(DataFetch)] + events);
      var report := Detail(state);
      channel := channel + [Result(report.status)];
      return if plan.trouble.TimeLimitAfterResult? then TimesOut(Some(report.status)) else Returns(report.status);
    }

    method RunAttempt(plan: Plan, retries: nat) returns (again: bool)
      modifies this
      ensures channel == old(channel) + Published(AttemptOf(job, plan), retries)
      ensures again == RunsAgain(AttemptOf(job, plan), retries) && (again ==> retries < MAX_RETRIES)
      ensures waited == old(waited) + if again then Countdown(retries) else 0
    {
      hide AttemptOf, Announced;
      var end := ExecuteOptimization(plan);
      again := false;
      match end {
        case Returns(_) =>
        case TimesOut(_) =>
          channel := channel + [Message.Error("QUANTUM_TIMEOUT")];
        case Breaks(scheduled) =>
          if retries < MAX_RETRIES {
            var countdown := Countdown(retries);
            channel := channel + [Retrying(countdown)];
            if scheduled {
              waited := waited + countdown;
              again := true;
            }
          } else {
            channel := channel + [Message.Error("AGENT_EXECUTION_ERROR")];
          }
      }
      PublishedInParts(old(channel), AttemptOf(job, plan), retries);
    }

    method Run(plans: nat -> Plan) returns (retries: nat)
      modifies this
      ensures channel == old(channel) + Channel(Attempts(job, plans), 0)
      ensures waited == old(waited) + Backoff(Attempts(job, plans), 0)
      ensures retries == LastAttempt(Attempts(job, plans), 0)
    {
      hide Published, Countdown, Channel, Backoff, LastAttempt, RunsAgain, AttemptOf;
      ghost var attempts := Attempts(job, plans);
      ghost var target, wait, last := channel + Channel(attempts, 0), waited + Backoff(attempts, 0), LastAttempt(attempts, 0);
      var again := true;
      retries := 0;
      while again
        invariant retries <= MAX_RETRIES
        invariant again ==>
          && channel + Channel(attempts, retries) == target
          && waited + Backoff(attempts, retries) == wait
          && LastAttempt(attempts, retries) == last
        invariant !again ==> channel == target && waited == wait && retries == last
        decreases MAX_RETRIES - retries, again
      {
        RunStep(attempts, retries, channel);
        assert attempts(retries) == AttemptOf(job, plans(retries));
        again := RunAttempt(plans(retries), retries);
        if again {
          retries := retries + 1;
        }
      }
    }
  }

  lemma NothingAnnounced()
    ensures Announced([]) == []
  {
  }

  lemma PublishedInParts(before: seq<Message>, a: Attempt, retries: nat)
    ensures before + Published(a, retries) == before + Announced(a.progress) + Outcome(a.end) + Handling(a.end, retries)
  {
    hide Announced, Outcome, Handling;
  }

  /** One attempt taken off the front of a run. */
  lemma RunStep(attempts: nat -> Attempt, retries: nat, before: seq<Message>)
    ensures var here, again := before + Published(attempts(retries), retries), RunsAgain(attempts(retries), retries);
      && before + Channel(attempts, retries) == (if again then here + Channel(attempts, retries + 1) else here)
      && Backoff(attempts, retries) == (if again then Countdown(retries) + Backoff(attempts, retries + 1) else 0)
      && LastAttempt(attempts, retries) == if again then LastAttempt(attempts, retries + 1) else retries
  {
    hide Published, Countdown;
  }

  // ---- What is retried ----

  /** An attempt is retried exactly when an exception leaves the code around the graph, retries are left and one
      could be queued: nothing a node does is ever retried. */
  lemma RetriesExactlyWhen(job: Job, plan: Plan, retries: nat)
    ensures RunsAgain(AttemptOf(job, plan), retries) <==>
      plan.trouble.Exception? && plan.scheduled && retries < MAX_RETRIES
  {
    hide GraphRun, Reached, Detail;
  }

  /** A job makes at least r retries exactly when each of its first r attempts is left by such an exception. */
  lemma {:induction false} RetryCountExactly(job: Job, plans: nat -> Plan, done: nat, r: nat)
    requires done <= r <= MAX_RETRIES
    ensures LastAttempt(Attempts(job, plans), done) >= r <==>
      forall i :: done <= i < r ==> plans(i).trouble.Exception? && plans(i).scheduled
    decreases r - done
  {
    hide AttemptOf;
    var attempts := Attempts(job, plans);
    RetriesExactlyWhen(job, plans(done), done);
    RetriesAreBounded(attempts, done);
    if done < r {
      assert attempts(done) == AttemptOf(job, plans(done));
      RetryCountExactly(job, plans, done + 1, r);
    }
  }

  /** A graph that returns, also from a failed run, ends the job at once: no retry, no waiting, and after the
      announcements one result, which says failed exactly when the run halted. */
  lemma GraphFailureIsNotRetried(job: Job, plans: nat -> Plan)
    requires plans(0).trouble.Smooth?
    ensures var run := GraphRun(job, plans(0));
      var status := Detail(run.state).status;
      && LastAttempt(Attempts(job, plans), 0) == 0 && Backoff(Attempts(job, plans), 0) == 0
      && Channel(Attempts(job, plans), 0) == Announced([Started(DataFetch)] + run.events) + [Result(status)]
      && (status.RunFailed? <==> Halted(run.state))
  {
    var plan, attempts := plans(0), Attempts(job, plans);
    FailedExactlyWhenHalted(job.limit, job.tickers, job.runQuantum, plan.bodies);
    RetriesExactlyWhen(job, plan, 0);
    SmoothAttempt(job, plan);
    hide AttemptOf, GraphRun, Announced, Execute, Detail, RunsAgain;
    assert attempts(0) == AttemptOf(job, plan);
    PublishedInParts([], AttemptOf(job, plan), 0);
  }

  lemma SmoothAttempt(job: Job, plan: Plan)
    requires plan.trouble.Smooth?
    ensures var run := GraphRun(job, plan);
      AttemptOf(job, plan) == Attempt([Started(DataFetch)] + run.events, Returns(Detail(run.state).status))
  {
    hide GraphRun, Detail;
  }

  // ---- Retries are bounded ----

  lemma {:induction false} RetriesAreBounded(attempts: nat -> Attempt, retries: nat)
    requires retries <= MAX_RETRIES
    ensures retries <= LastAttempt(attempts, retries) <= MAX_RETRIES
    ensures Backoff(attempts, retries)
         == RETRY_BASE_DELAY * (PowerOfTwo(LastAttempt(attempts, retries)) - PowerOfTwo(retries))
    decreases MAX_RETRIES - retries
  {
    if RunsAgain(attempts(retries), retries) {
      RetriesAreBounded(attempts, retries + 1);
    }
  }

  /** At most four attempts, and at most 210 seconds of backoff in all. */
  lemma AtMostFourAttempts(attempts: nat -> Attempt)
    ensures LastAttempt(attempts, 0) + 1 <= 4 && Backoff(attempts, 0) <= 210
  {
    RetriesAreBounded(attempts, 0);
    var last := LastAttempt(attempts, 0);
    assert PowerOfTwo(last) <= 8 by {
      assert PowerOfTwo(1) == 2 && PowerOfTwo(2) == 4 && PowerOfTwo(3) == 8;
    }
  }

  // ---- Terminal messages ----

  function Terminals(s: seq<Message>): nat {
    if s == [] then 0 else Terminals(s[..|s| - 1]) + if IsTerminal(s[|s| - 1]) then 1 else 0
  }

  lemma {:induction false} TerminalsAppend(a: seq<Message>, b: seq<Message>)
    ensures Terminals(a + b) == Terminals(a) + Terminals(b)
  {
    if b == [] {
      assert a + b == a;
    } else {
      assert (a + b)[..|a + b| - 1] == a + b[..|b| - 1];
      TerminalsAppend(a, b[..|b| - 1]);
    }
  }

  lemma {:induction false} NoneAnnounced(progress: seq<Event>)
    ensures Terminals(Announced(progress)) == 0
  {
    if progress != [] {
      NoneAnnounced(progress[1..]);
      TerminalsAppend([Progress(progress[0])], Announced(progress[1..]));
      assert Terminals([]) == 0;
    }
  }

  /** A retry that could not be scheduled: the run ends without telling anyone. */
  predicate RetryLost(a: Attempt, retries: nat) {
    a.end.Breaks? && retries < MAX_RETRIES && !a.end.scheduled
  }

  /** The time limit struck between the result and the return. */
  predicate LateTimeout(end: End) {
    end.TimesOut? && end.result.Some?
  }

  lemma TerminalsOfAttempt(a: Attempt, retries: nat)
    ensures Terminals(Published(a, retries))
         == if a.end.Breaks? && retries < MAX_RETRIES then 0 else if LateTimeout(a.end) then 2 else 1
  {
    hide Terminals, Announced;
    NoneAnnounced(a.progress);
    TerminalsAppend(Announced(a.progress) + Outcome(a.end), Handling(a.end, retries));
    TerminalsAppend(Announced(a.progress), Outcome(a.end));
    TerminalsOfOne();
  }

  lemma TerminalsOfOne()
    ensures Terminals([]) == 0 && forall m: Message :: Terminals([m]) == if IsTerminal(m) then 1 else 0
  {
    assert forall m: Message :: [m][..0] == [];
  }

  lemma {:induction false} TerminalsOfRun(attempts: nat -> Attempt, retries: nat)
    ensures Terminals(Channel(attempts, retries))
         == Terminals(Published(attempts(LastAttempt(attempts, retries)), LastAttempt(attempts, retries)))
    decreases MAX_RETRIES - retries
  {
    hide Terminals, Published;
    var here := Published(attempts(retries), retries);
    if RunsAgain(attempts(retries), retries) {
      TerminalsOfRun(attempts, retries + 1);
      TerminalsOfAttempt(attempts(retries), retries);
      TerminalsAppend(here, Channel(attempts, retries + 1));
    } else {
      assert here + [] == here;
    }
  }

  /** A run publishes exactly one terminal message exactly when its last attempt neither loses its retry
      nor times out after publishing its result. */
  lemma ExactlyOneTerminal(attempts: nat -> Attempt)
    ensures var n := LastAttempt(attempts, 0);
      Terminals(Channel(attempts, 0)) == 1 <==> !RetryLost(attempts(n), n) && !LateTimeout(attempts(n).end)
  {
    hide Terminals, Published, Channel;
    var n := LastAttempt(attempts, 0);
    TerminalsOfRun(attempts, 0);
    TerminalsOfAttempt(attempts(n), n);
    LastDoesNotRunAgain(attempts, 0);
  }

  lemma {:induction false} LastDoesNotRunAgain(attempts: nat -> Attempt, retries: nat)
    ensures var n := LastAttempt(attempts, retries); !RunsAgain(attempts(n), n)
    decreases MAX_RETRIES - retries
  {
    if RunsAgain(attempts(retries), retries) {
      LastDoesNotRunAgain(attempts, retries + 1);
    }
  }

  /** The one terminal message is the last on the channel. */
  lemma {:induction false} TerminalComesLast(attempts: nat -> Attempt, retries: nat)
    requires Terminals(Channel(attempts, retries)) == 1
    ensures var c := Channel(attempts, retries); c != [] && IsTerminal(c[|c| - 1])
    decreases MAX_RETRIES - retries
  {
    hide Terminals, Published, IsTerminal;
    var here, c := Published(attempts(retries), retries), Channel(attempts, retries);
    if RunsAgain(attempts(retries), retries) {
      TerminalsOfAttempt(attempts(retries), retries);
      TerminalsAppend(here, Channel(attempts, retries + 1));
      TerminalComesLast(attempts, retries + 1);
    } else {
      TerminalsOfAttempt(attempts(retries), retries);
      assert c == here;
      LastOfAttempt(attempts(retries), retries);
    }
  }

  lemma LastOfAttempt(a: Attempt, retries: nat)
    requires !a.end.Breaks? || retries >= MAX_RETRIES
    ensures var p := Published(a, retries); p != [] && IsTerminal(p[|p| - 1])
  {
    hide Announced;
  }

  // ---- How a run ends, and what it says about retries ----

  /** The message a job's channel ends with, by what happened to the last attempt: the report of a graph that
      returned, one error code for a time limit, another for an exception after the third retry, and otherwise the
      announcement of a retry that never comes. */
  lemma ChannelEndsWith(job: Job, plans: nat -> Plan)
    ensures var c, n := Channel(Attempts(job, plans), 0), LastAttempt(Attempts(job, plans), 0);
      && c != [] && n <= 3
      && c[|c| - 1] == match plans(n).trouble
         case Smooth => Result(Detail(GraphRun(job, plans(n)).state).status)
         case Exception(_, _) => if n == 3 then Message.Error("AGENT_EXECUTION_ERROR") else Retrying([30, 60, 120][n])
         case _ => Message.Error("QUANTUM_TIMEOUT")
  {
    hide Published, Channel, Detail, GraphRun, LastAttempt;
    var n := LastAttempt(Attempts(job, plans), 0);
    RetriesAreBounded(Attempts(job, plans), 0);
    EndsWithLast(Attempts(job, plans), 0);
    EndOfAttempt(AttemptOf(job, plans(n)), n);
    CountdownValues();
    EndOfPlan(job, plans(n));
  }

  lemma EndOfPlan(job: Job, plan: Plan)
    ensures AttemptOf(job, plan).end == match plan.trouble
      case Smooth => Returns(Detail(GraphRun(job, plan).state).status)
      case Exception(_, _) => Breaks(plan.scheduled)
      case TimeLimit(_, _) => TimesOut(None)
      case TimeLimitAfterResult => TimesOut(Some(Detail(GraphRun(job, plan).state).status))
  {
    hide GraphRun, Detail;
  }

  lemma CountdownValues()
    ensures Countdown(0) == 30 && Countdown(1) == 60 && Countdown(2) == 120
  {
    assert PowerOfTwo(1) == 2 && PowerOfTwo(2) == 4;
  }

  lemma EndOfAttempt(a: Attempt, retries: nat)
    ensures var p := Published(a, retries);
      p != [] && p[|p| - 1] == match a.end
        case Returns(status) => Result(status)
        case TimesOut(_) => Message.Error("QUANTUM_TIMEOUT")
        case Breaks(_) => if retries < 3 then Retrying(Countdown(retries)) else Message.Error("AGENT_EXECUTION_ERROR")
  {
    hide Announced, Countdown;
  }

  lemma {:induction false} EndsWithLast(attempts: nat -> Attempt, retries: nat)
    ensures var c, n := Channel(attempts, retries), LastAttempt(attempts, retries);
      var p := Published(attempts(n), n);
      c != [] && p != [] && c[|c| - 1] == p[|p| - 1]
    decreases MAX_RETRIES - retries
  {
    hide Published;
    EndOfAttempt(attempts(retries), retries);
    if RunsAgain(attempts(retries), retries) {
      EndsWithLast(attempts, retries + 1);
    }
  }

  /** The countdowns a list of messages announces, in order. */
  function Countdowns(s: seq<Message>): seq<nat> {
    if s == [] then []
    else Countdowns(s[..|s| - 1]) + if s[|s| - 1].Retrying? then [s[|s| - 1].countdown] else []
  }

  lemma {:induction false} CountdownsAppend(a: seq<Message>, b: seq<Message>)
    ensures Countdowns(a + b) == Countdowns(a) + Countdowns(b)
  {
    if b == [] {
      assert a + b == a;
    } else {
      assert (a + b)[..|a + b| - 1] == a + b[..|b| - 1];
      CountdownsAppend(a, b[..|b| - 1]);
    }
  }

  lemma CountdownsOfOne()
    ensures Countdowns([]) == [] && forall m: Message :: Countdowns([m]) == if m.Retrying? then [m.countdown] else []
  {
    assert forall m: Message :: [m][..0] == [];
  }

  lemma {:induction false} NoneCounted(progress: seq<Event>)
    ensures Countdowns(Announced(progress)) == []
  {
    CountdownsOfOne();
    if progress != [] {
      NoneCounted(progress[1..]);
      CountdownsAppend([Progress(progress[0])], Announced(progress[1..]));
    }
  }

  lemma CountdownsOfAttempt(a: Attempt, retries: nat)
    ensures Countdowns(Published(a, retries)) == if a.end.Breaks? && retries < MAX_RETRIES then [Countdown(retries)] else []
  {
    hide Countdowns, Announced, Countdown;
    NoneCounted(a.progress);
    CountdownsAppend(Announced(a.progress) + Outcome(a.end), Handling(a.end, retries));
    CountdownsAppend(Announced(a.progress), Outcome(a.end));
    CountdownsOfOne();
  }

  /** A run announces the countdowns 30, 60 and 120 in this order: one for each retry, and one more if the last
      could not be queued. */
  lemma CountdownsOfRun(attempts: nat -> Attempt)
    ensures var n := LastAttempt(attempts, 0);
      && n + (if RetryLost(attempts(n), n) then 1 else 0) <= 3
      && Countdowns(Channel(attempts, 0)) == [30, 60, 120][..n + if RetryLost(attempts(n), n) then 1 else 0]
  {
    hide Channel, LastAttempt, Countdowns;
    RetriesAreBounded(attempts, 0);
    CountdownsFrom(attempts, 0);
    CountdownValues();
  }

  /** The countdowns after the given number of retries. */
  lemma {:induction false} CountdownsFrom(attempts: nat -> Attempt, retries: nat)
    requires retries <= MAX_RETRIES
    ensures var n := LastAttempt(attempts, retries);
      var more := n + if RetryLost(attempts(n), n) then 1 else 0;
      && retries <= more <= 3
      && Countdowns(Channel(attempts, retries)) == [Countdown(0), Countdown(1), Countdown(2)][retries..more]
    decreases MAX_RETRIES - retries
  {
    hide Countdowns, Published, Countdown;
    RetriesAreBounded(attempts, retries);
    LastDoesNotRunAgain(attempts, retries);
    CountdownsOfAttempt(attempts(retries), retries);
    if RunsAgain(attempts(retries), retries) {
      CountdownsFrom(attempts, retries + 1);
      CountdownsAppend(Published(attempts(retries), retries), Channel(attempts, retries + 1));
      SliceStep([Countdown(0), Countdown(1), Countdown(2)], retries);
    } else {
      assert Channel(attempts, retries) == Published(attempts(retries), retries);
    }
  }

  lemma SliceStep(s: seq<nat>, i: nat)
    requires i < |s|
    ensures forall j :: i < j <= |s| ==> [s[i]] + s[i + 1..j] == s[i..j]
  {
  }

  /** Whatever interrupts an attempt, what it announced by then is the beginning of what an attempt that is left
      alone announces: nothing before the graph, and the worker's own announcement and as many of the graph's events
      as got out while it ran. */
  lemma InterruptedAttemptsStopShort(job: Job, plan: Plan)
    ensures AttemptOf(job, plan).progress <= [Started(DataFetch)] + GraphRun(job, plan).events
    ensures var n, out := |GraphRun(job, plan).events|, |AttemptOf(job, plan).progress|;
      if plan.trouble.Smooth? || plan.trouble.TimeLimitAfterResult? || plan.trouble.at.AfterGraph? then out == 1 + n
      else if plan.trouble.at.BeforeGraph? then out == 0
      else out == 1 + if plan.trouble.progressed < n then plan.trouble.progressed else n
  {
    hide GraphRun, Detail;
  }

  // ---- The graph's events on the channel ----

  /** The worker announces the first node before the graph does, so on the channel it starts twice. */
  lemma FirstNodeStartsTwice(job: Job, plan: Plan, retries: nat)
    requires plan.trouble.Smooth? || plan.trouble.TimeLimitAfterResult?
    ensures var channel := Published(AttemptOf(job, plan), retries);
      |channel| > 2 && channel[0] == channel[1] == Progress(Started(DataFetch))
  {
    var run := GraphRun(job, plan);
    StartsFirst(job.limit, job.tickers, job.runQuantum, plan.bodies);
    hide Execute;
    var all := [Started(DataFetch)] + run.events;
    assert all[1..] == run.events && all[0] == Started(DataFetch);
    assert Announced(all) == [Progress(all[0])] + Announced(run.events);
    assert Announced(run.events) == [Progress(run.events[0])] + Announced(run.events[1..]);
  }

  lemma StartsFirst(limit: nat, tickers: nat, runQuantum: bool, bodies: Node -> Body)
    ensures var events := Execute(limit, DataFetch, Initial(tickers, runQuantum), bodies).events;
      events != [] && events[0] == Started(DataFetch)
  {
    ExecuteStep(limit, DataFetch, Initial(tickers, runQuantum), bodies);
    hide Execute;
  }
}
