/** The progress relay: forwards a run's channel to a client until a terminal message or the deadline. */
module Relay {
  import opened Worker

  /** What one poll of the subscription yields. */
  datatype Got = Nothing | Control | Garbage | Scalar | Delivered(message: Message) | PollFails

  datatype Poll = Poll(now: real, got: Got)

  datatype Frame = Forward(message: Message) | ForwardScalar | Ping(at: real) | TimeoutError | HandlerError

  const WS_TIMEOUT := 300.0

  const PING_INTERVAL := 30.0

  /** Whether the client reads the frame as the end of the stream. */
  predicate EndsStream(f: Frame) {
    match f
    case Forward(m) => IsTerminal(m)
    case TimeoutError => true
    case HandlerError => true
    case _ => false
  }

  function PingDue(lastPing: real, now: real): seq<Frame> {
    if now - lastPing >= PING_INTERVAL then [Ping(now)] else []
  }

  function AfterPing(lastPing: real, now: real): real {
    if now - lastPing >= PING_INTERVAL then now else lastPing
  }

  /** Decoded JSON that is no object is forwarded before the handler trips over it. */
  function Reaction(got: Got): seq<Frame> {
    match got
    case Delivered(m) => [Forward(m)]
    case Scalar => [ForwardScalar, HandlerError]
    case PollFails => [HandlerError]
    case _ => []
  }

  predicate Stops(got: Got) {
    got.Scalar? || got.PollFails? || (got.Delivered? && IsTerminal(got.message))
  }

  /** The frames sent for a sequence of polls. */
  function Stream(deadline: real, lastPing: real, polls: seq<Poll>): seq<Frame>
    decreases |polls|
  {
    if polls == [] then []
    else if polls[0].now >= deadline then [TimeoutError]
    else
      PingDue(lastPing, polls[0].now) + Reaction(polls[0].got)
      + if Stops(polls[0].got) then [] else Stream(deadline, AfterPing(lastPing, polls[0].now), polls[1..])
  }

  /** Taking the poll at i off a stream, after the frames already sent. */
  lemma StreamStep(deadline: real, lastPing: real, polls: seq<Poll>, i: nat, sent: seq<Frame>)
    requires i < |polls|
    ensures var poll := polls[i];
      sent + Stream(deadline, lastPing, polls[i..])
        == if poll.now >= deadline then sent + [TimeoutError]
           else if Stops(poll.got) then sent + PingDue(lastPing, poll.now) + Reaction(poll.got)
           else sent + PingDue(lastPing, poll.now) + Reaction(poll.got)
                + Stream(deadline, AfterPing(lastPing, poll.now), polls[i + 1..])
  {
    assert polls[i..][0] == polls[i] && polls[i..][1..] == polls[i + 1..];
  }

  lemma StreamEnds(deadline: real, lastPing: real, sent: seq<Frame>)
    ensures sent + Stream(deadline, lastPing, []) == sent
  {
  }

  /** The frames that reach a client to which the n-th send succeeds when arrives(n). */
  function Received(frames: seq<Frame>, arrives: nat -> bool): seq<Frame> {
    if frames == [] then []
    else Received(frames[..|frames| - 1], arrives) + if arrives(|frames| - 1) then [frames[|frames| - 1]] else []
  }

  lemma ReceivedStep(frames: seq<Frame>, f: Frame, arrives: nat -> bool)
    ensures Received(frames + [f], arrives) == Received(frames, arrives) + if arrives(|frames|) then [f] else []
  {
    assert (frames + [f])[..|frames|] == frames;
  }

  /** A failed send, to a client that is gone for instance, is swallowed: the relay goes on as before. */
  class Connection {
    const arrives: nat -> bool
    var frames: seq<Frame>
    var received: seq<Frame>

    constructor (arrives: nat -> bool)
      ensures this.arrives == arrives && frames == [] && received == []
    {
      this.arrives, frames, received := arrives, [], [];
    }

    method SafeSend(f: Frame)
      requires received == Received(frames, arrives)
      modifies this
      ensures frames == old(frames) + [f] && received == Received(frames, arrives)
    {
      ReceivedStep(frames, f, arrives);
      if arrives(|frames|) {
        received := received + [f];
      }
      frames := frames + [f];
    }

    /** One turn of the loop: ping if due, then forward what the poll yields. */
    method HandlePoll(poll: Poll, lastPing: real) returns (next: real, stop: bool)
      requires received == Received(frames, arrives)
      modifies this
      ensures frames == old(frames) + PingDue(lastPing, poll.now) + Reaction(poll.got)
      ensures received == Received(frames, arrives)
      ensures next == AfterPing(lastPing, poll.now) && stop == Stops(poll.got)
    {
      hide Received;
      next, stop := lastPing, false;
      if poll.now - lastPing >= PING_INTERVAL {
        SafeSend(Ping(poll.now));
        next := poll.now;
      }
      match poll.got
      case Delivered(m) =>
        SafeSend(Forward(m));
        stop := IsTerminal(m);
      case Scalar =>
        SafeSend(ForwardScalar);
        SafeSend(HandlerError);
        stop := true;
      case PollFails =>
        SafeSend(HandlerError);
        stop := true;
      case _ =>
    }

    method Relay(start: real, polls: seq<Poll>)
      requires received == Received(frames, arrives)
      modifies this
      ensures frames == old(frames) + Stream(start + 300.0, start, polls)
      ensures received == Received(frames, arrives)
    {
      var deadline, lastPing := start + WS_TIMEOUT, start;
      var i := 0;
      assert polls[0..] == polls;
      hide Stream, Received, PingDue, Reaction, AfterPing, Stops;
      ghost var target := frames + Stream(deadline, start, polls);
      while i < |polls|
        invariant i <= |polls| && received == Received(frames, arrives)
        invariant frames + Stream(deadline, lastPing, polls[i..]) == target
      {
        StreamStep(deadline, lastPing, polls, i, frames);
        if deadline - polls[i].now <= 0.0 {
          SafeSend(TimeoutError);
          return;
        }
        var stop;
        lastPing, stop := HandlePoll(polls[i], lastPing);
        if stop { return; }
        i := i + 1;
      }
      StreamEnds(deadline, lastPing, frames);
    }
  }

  // ---- What reaches the client ----

  function Forwarded(frames: seq<Frame>): seq<Message> {
    if frames == [] then []
    else (if frames[0].Forward? then [frames[0].message] else []) + Forwarded(frames[1..])
  }

  lemma {:induction false} ForwardedAppend(a: seq<Frame>, b: seq<Frame>)
    ensures Forwarded(a + b) == Forwarded(a) + Forwarded(b)
  {
    if a == [] {
      assert a + b == b;
    } else {
      var first := if a[0].Forward? then [a[0].message] else [];
      assert (a + b)[0] == a[0] && (a + b)[1..] == a[1..] + b;
      ForwardedAppend(a[1..], b);
      assert first + (Forwarded(a[1..]) + Forwarded(b)) == first + Forwarded(a[1..]) + Forwarded(b);
    }
  }

  /** Polls before the deadline and before anything that breaks the handler. */
  function Usable(deadline: real, polls: seq<Poll>): seq<Poll> {
    if polls == [] || polls[0].now >= deadline || polls[0].got.Scalar? || polls[0].got.PollFails? then []
    else [polls[0]] + Usable(deadline, polls[1..])
  }

  function Messages(polls: seq<Poll>): seq<Message> {
    if polls == [] then []
    else (if polls[0].got.Delivered? then [polls[0].got.message] else []) + Messages(polls[1..])
  }

  function UpToTerminal(s: seq<Message>): (r: seq<Message>)
    ensures r <= s
  {
    if s == [] then [] else if IsTerminal(s[0]) then [s[0]] else [s[0]] + UpToTerminal(s[1..])
  }

  /** The client gets, in order, exactly the messages up to the first terminal one that arrive before the
      deadline and before a failure: none lost, none repeated, none after the end. */
  lemma {:induction false} ForwardsUpToTerminal(deadline: real, lastPing: real, polls: seq<Poll>)
    ensures Forwarded(Stream(deadline, lastPing, polls)) == UpToTerminal(Messages(Usable(deadline, polls)))
    decreases |polls|
  {
    if polls != [] && polls[0].now < deadline {
      var head, rest := Split(deadline, lastPing, polls);
      ForwardedAppend(head, rest);
      StepForwarded(lastPing, polls[0]);
      UsableStep(deadline, polls);
      assert Forwarded([]) == [];
      hide Stream, Forwarded, Messages, Usable;
      if !Stops(polls[0].got) {
        ForwardsUpToTerminal(deadline, AfterPing(lastPing, polls[0].now), polls[1..]);
      }
      if polls[0].got.Delivered? {
        UpToStep(polls[0].got.message, Messages(Usable(deadline, polls[1..])));
      }
    }
  }

  /** The frames of the first poll, and the rest of the stream. */
  lemma Split(deadline: real, lastPing: real, polls: seq<Poll>) returns (head: seq<Frame>, rest: seq<Frame>)
    requires polls != [] && polls[0].now < deadline
    ensures head == PingDue(lastPing, polls[0].now) + Reaction(polls[0].got)
    ensures rest == if Stops(polls[0].got) then []
                    else Stream(deadline, AfterPing(lastPing, polls[0].now), polls[1..])
    ensures Stream(deadline, lastPing, polls) == head + rest
  {
    head := PingDue(lastPing, polls[0].now) + Reaction(polls[0].got);
    rest := if Stops(polls[0].got) then [] else Stream(deadline, AfterPing(lastPing, polls[0].now), polls[1..]);
  }

  lemma UpToStep(m: Message, s: seq<Message>)
    ensures UpToTerminal([m] + s) == if IsTerminal(m) then [m] else [m] + UpToTerminal(s)
  {
    assert ([m] + s)[1..] == s;
  }

  lemma StepForwarded(lastPing: real, poll: Poll)
    ensures Forwarded(PingDue(lastPing, poll.now) + Reaction(poll.got))
         == if poll.got.Delivered? then [poll.got.message] else []
  {
    ForwardedAppend(PingDue(lastPing, poll.now), Reaction(poll.got));
    assert [ForwardScalar, HandlerError][1..] == [HandlerError];
    assert Forwarded([HandlerError]) == [];
  }

  lemma UsableStep(deadline: real, polls: seq<Poll>)
    requires polls != [] && polls[0].now < deadline
    ensures var got := polls[0].got;
      Messages(Usable(deadline, polls))
        == if got.Scalar? || got.PollFails? then []
           else if got.Delivered? then [got.message] + Messages(Usable(deadline, polls[1..]))
           else Messages(Usable(deadline, polls[1..]))
  {
    var rest := Usable(deadline, polls[1..]);
    assert ([polls[0]] + rest)[1..] == rest;
  }

  ghost predicate EndsOnlyLast(frames: seq<Frame>) {
    forall i :: 0 <= i < |frames| - 1 ==> !EndsStream(frames[i])
  }

  /** Only the last frame ends the stream: nothing follows a result, an error or the timeout. */
  lemma {:induction false} NothingAfterTheEnd(deadline: real, lastPing: real, polls: seq<Poll>)
    ensures EndsOnlyLast(Stream(deadline, lastPing, polls))
    decreases |polls|
  {
    if polls != [] && polls[0].now < deadline {
      hide Stream, EndsOnlyLast;
      var head, rest := Split(deadline, lastPing, polls);
      HeadOfStream(lastPing, polls[0]);
      if Stops(polls[0].got) {
        assert head + [] == head;
      } else {
        NothingAfterTheEnd(deadline, AfterPing(lastPing, polls[0].now), polls[1..]);
        EndJoin(head, rest);
      }
    }
  }

  lemma HeadOfStream(lastPing: real, poll: Poll)
    ensures var head := PingDue(lastPing, poll.now) + Reaction(poll.got);
      EndsOnlyLast(head) && (!Stops(poll.got) ==> forall i :: 0 <= i < |head| ==> !EndsStream(head[i]))
  {
  }

  lemma EndJoin(head: seq<Frame>, rest: seq<Frame>)
    requires EndsOnlyLast(rest) && forall i :: 0 <= i < |head| ==> !EndsStream(head[i])
    ensures EndsOnlyLast(head + rest)
  {
    hide EndsStream;
    var frames := head + rest;
    forall i | 0 <= i < |frames| - 1 ensures !EndsStream(frames[i]) {
      if i >= |head| { assert frames[i] == rest[i - |head|]; }
    }
  }

  /** A poll that decides the stream: it comes at or after the deadline, delivers a terminal message or something
      that is no object, or fails. */
  predicate Decides(deadline: real, poll: Poll) {
    || poll.now >= deadline || poll.got.Scalar? || poll.got.PollFails?
    || (poll.got.Delivered? && IsTerminal(poll.got.message))
  }

  /** How the stream ends at such a poll. */
  function Ending(deadline: real, poll: Poll): seq<Frame> {
    if poll.now >= deadline then [TimeoutError]
    else
      match poll.got
      case Delivered(m) => [Forward(m)]
      case Scalar => [ForwardScalar, HandlerError]
      case _ => [HandlerError]
  }

  ghost predicate Undecided(frames: seq<Frame>) {
    forall f :: f in frames ==> !EndsStream(f) && f != ForwardScalar
  }

  /** The first poll that decides the stream ends it, and decides how; until then nothing of the kind is sent. */
  lemma {:induction false} StreamEndsWith(deadline: real, lastPing: real, quiet: seq<Poll>, rest: seq<Poll>)
    returns (before: seq<Frame>)
    requires forall p :: p in quiet ==> !Decides(deadline, p)
    requires rest != [] ==> Decides(deadline, rest[0])
    ensures Stream(deadline, lastPing, quiet + rest) == before + if rest == [] then [] else Ending(deadline, rest[0])
    ensures Undecided(before)
    decreases |quiet|
  {
    if quiet == [] {
      assert quiet + rest == rest;
      before := DecidedAtOnce(deadline, lastPing, rest);
    } else {
      var poll, all := quiet[0], quiet + rest;
      assert !Decides(deadline, poll);
      assert all[0] == poll && all[1..] == quiet[1..] + rest;
      QuietStep(deadline, lastPing, all);
      var head := PingDue(lastPing, poll.now) + Reaction(poll.got);
      hide Stream, Decides, Ending, Undecided, PingDue, Reaction;
      var later := StreamEndsWith(deadline, AfterPing(lastPing, poll.now), quiet[1..], rest);
      before := head + later;
      UndecidedJoin(head, later);
      var end := if rest == [] then [] else Ending(deadline, rest[0]);
      assert head + (later + end) == before + end;
    }
  }

  lemma DecidedAtOnce(deadline: real, lastPing: real, polls: seq<Poll>) returns (before: seq<Frame>)
    requires polls != [] ==> Decides(deadline, polls[0])
    ensures Stream(deadline, lastPing, polls) == before + if polls == [] then [] else Ending(deadline, polls[0])
    ensures Undecided(before)
  {
    before := if polls == [] || polls[0].now >= deadline then [] else PingDue(lastPing, polls[0].now);
    if polls != [] && polls[0].now < deadline {
      var head, rest := Split(deadline, lastPing, polls);
      HeadDecides(deadline, lastPing, polls[0]);
      assert head + [] == head;
    }
  }

  lemma QuietStep(deadline: real, lastPing: real, polls: seq<Poll>)
    requires polls != [] && !Decides(deadline, polls[0])
    ensures var head := PingDue(lastPing, polls[0].now) + Reaction(polls[0].got);
      && Undecided(head)
      && Stream(deadline, lastPing, polls) == head + Stream(deadline, AfterPing(lastPing, polls[0].now), polls[1..])
  {
    var head, rest := Split(deadline, lastPing, polls);
    HeadDecides(deadline, lastPing, polls[0]);
  }

  /** The frames of one poll. */
  lemma HeadDecides(deadline: real, lastPing: real, poll: Poll)
    requires poll.now < deadline
    ensures var ping, reaction := PingDue(lastPing, poll.now), Reaction(poll.got);
      && Undecided(ping)
      && if Decides(deadline, poll) then Stops(poll.got) && reaction == Ending(deadline, poll)
         else !Stops(poll.got) && Undecided(ping + reaction)
  {
  }

  lemma UndecidedJoin(a: seq<Frame>, b: seq<Frame>)
    requires Undecided(a) && Undecided(b)
    ensures Undecided(a + b)
  {
  }

  ghost predicate Spaced(frames: seq<Frame>, since: real) {
    && (forall i :: 0 <= i < |frames| && frames[i].Ping? ==> frames[i].at >= since + 30.0)
    && forall i, j :: 0 <= i < j < |frames| && frames[i].Ping? && frames[j].Ping? ==>
         frames[j].at >= frames[i].at + 30.0
  }

  /** Nor does the client, whatever it misses, receive anything after such a frame. */
  lemma {:induction false} NothingReceivedAfterTheEnd(frames: seq<Frame>, arrives: nat -> bool)
    requires EndsOnlyLast(frames)
    ensures var r := Received(frames, arrives);
      |r| <= |frames| && (forall f :: f in r ==> f in frames) && EndsOnlyLast(r)
  {
    if frames != [] {
      var front := frames[..|frames| - 1];
      NothingReceivedAfterTheEnd(front, arrives);
      AllBeforeTheEnd(front, arrives);
      assert forall f :: f in front ==> f in frames;
    }
  }

  lemma {:induction false} AllBeforeTheEnd(frames: seq<Frame>, arrives: nat -> bool)
    requires forall f :: f in frames ==> !EndsStream(f)
    ensures forall f :: f in Received(frames, arrives) ==> !EndsStream(f)
  {
    if frames != [] {
      AllBeforeTheEnd(frames[..|frames| - 1], arrives);
    }
  }

  /** Pings are at least thirty seconds apart, and the first is that long after the start. */
  lemma {:induction false} PingsAreSpaced(deadline: real, lastPing: real, polls: seq<Poll>)
    ensures Spaced(Stream(deadline, lastPing, polls), lastPing)
    decreases |polls|
  {
    if polls != [] && polls[0].now < deadline {
      hide Stream, Spaced;
      var head, rest := Split(deadline, lastPing, polls);
      if Stops(polls[0].got) {
        SpacedEmpty(AfterPing(lastPing, polls[0].now));
      } else {
        PingsAreSpaced(deadline, AfterPing(lastPing, polls[0].now), polls[1..]);
      }
      SpacedJoin(lastPing, polls[0].now, Reaction(polls[0].got), rest);
    }
  }

  lemma SpacedEmpty(since: real)
    ensures Spaced([], since)
  {
  }

  lemma SpacedJoin(lastPing: real, now: real, said: seq<Frame>, rest: seq<Frame>)
    requires forall i :: 0 <= i < |said| ==> !said[i].Ping?
    requires Spaced(rest, AfterPing(lastPing, now))
    ensures Spaced(PingDue(lastPing, now) + said + rest, lastPing)
  {
    SpacedPrepend(said, rest, AfterPing(lastPing, now));
    var tail := said + rest;
    var frames := PingDue(lastPing, now) + tail;
    assert frames == PingDue(lastPing, now) + said + rest;
    if now - lastPing < PING_INTERVAL {
      assert frames == tail;
    } else {
      forall i | 0 < i < |frames| && frames[i].Ping? ensures frames[i].at >= now + PING_INTERVAL {
        assert frames[i] == tail[i - 1];
      }
      forall i, j | 0 < i < j < |frames| && frames[i].Ping? && frames[j].Ping?
        ensures frames[j].at >= frames[i].at + PING_INTERVAL
      {
        assert frames[i] == tail[i - 1] && frames[j] == tail[j - 1];
      }
    }
  }

  lemma SpacedPrepend(said: seq<Frame>, rest: seq<Frame>, since: real)
    requires forall i :: 0 <= i < |said| ==> !said[i].Ping?
    requires Spaced(rest, since)
    ensures Spaced(said + rest, since)
  {
    var frames := said + rest;
    assert forall i :: 0 <= i < |said| ==> frames[i] == said[i];
    assert forall i :: |said| <= i < |frames| ==> frames[i] == rest[i - |said|];
  }

  /** When the client is pinged. */
  function PingTimes(frames: seq<Frame>): seq<real> {
    if frames == [] then []
    else (if frames[0].Ping? then [frames[0].at] else []) + PingTimes(frames[1..])
  }

  lemma {:induction false} PingTimesAppend(a: seq<Frame>, b: seq<Frame>)
    ensures PingTimes(a + b) == PingTimes(a) + PingTimes(b)
  {
    if a == [] {
      assert a + b == b;
    } else {
      var first := if a[0].Ping? then [a[0].at] else [];
      assert (a + b)[0] == a[0] && (a + b)[1..] == a[1..] + b;
      PingTimesAppend(a[1..], b);
      assert first + (PingTimes(a[1..]) + PingTimes(b)) == first + PingTimes(a[1..]) + PingTimes(b);
    }
  }

  /** The time of the last ping sent, or the start. */
  function LastPing(times: seq<real>, since: real): real {
    if times == [] then since else times[|times| - 1]
  }

  /** No two pings in a row, nor the start and the first, are as far apart as the gap. */
  ghost predicate Frequent(times: seq<real>, since: real, gap: real) {
    && (times != [] ==> times[0] - since < gap)
    && forall i :: 0 < i < |times| ==> times[i] - times[i - 1] < gap
  }

  lemma FrequentPrepend(now: real, times: seq<real>, since: real, gap: real)
    requires Frequent(times, now, gap) && now - since < gap
    ensures Frequent([now] + times, since, gap)
    ensures LastPing([now] + times, since) == LastPing(times, now)
  {
    var all := [now] + times;
    forall i | 0 < i < |all| ensures all[i] - all[i - 1] < gap {
      assert all[i] == times[i - 1];
      if i > 1 { assert all[i - 1] == times[i - 2]; }
    }
  }

  /** Polls at most d apart, the first at most d after the previous one. */
  ghost predicate Steady(polls: seq<Poll>, previous: real, d: real) {
    && (polls != [] ==> polls[0].now - previous <= d)
    && forall i :: 0 < i < |polls| ==> polls[i].now - polls[i - 1].now <= d
  }

  lemma SteadyTail(polls: seq<Poll>, previous: real, d: real)
    requires polls != [] && Steady(polls, previous, d)
    ensures Steady(polls[1..], polls[0].now, d)
  {
    var rest := polls[1..];
    forall i | 0 < i < |rest| ensures rest[i].now - rest[i - 1].now <= d {
      assert rest[i] == polls[i + 1] && rest[i - 1] == polls[i];
    }
  }

  /** No poll reaches the deadline or stops the stream. */
  predicate Live(deadline: real, polls: seq<Poll>) {
    forall i :: 0 <= i < |polls| ==> polls[i].now < deadline && !Stops(polls[i].got)
  }

  lemma HeadPings(lastPing: real, now: real, got: Got)
    ensures PingTimes(PingDue(lastPing, now) + Reaction(got))
         == if now - lastPing >= PING_INTERVAL then [now] else []
  {
    PingTimesAppend(PingDue(lastPing, now), Reaction(got));
    assert [ForwardScalar, HandlerError][1..] == [HandlerError];
    assert PingTimes([HandlerError]) == [];
  }

  /** The pings of the stream that follows the first poll. */
  function LaterPings(deadline: real, lastPing: real, polls: seq<Poll>): seq<real>
    requires polls != []
  {
    if Stops(polls[0].got) then [] else PingTimes(Stream(deadline, AfterPing(lastPing, polls[0].now), polls[1..]))
  }

  lemma PingStep(deadline: real, lastPing: real, polls: seq<Poll>)
    requires polls != [] && polls[0].now < deadline
    ensures var later := LaterPings(deadline, lastPing, polls);
      PingTimes(Stream(deadline, lastPing, polls))
        == if polls[0].now - lastPing >= PING_INTERVAL then [polls[0].now] + later else later
  {
    var head, rest := Split(deadline, lastPing, polls);
    PingTimesAppend(head, rest);
    HeadPings(lastPing, polls[0].now, polls[0].got);
    assert PingTimes([]) == [];
    hide Stream, PingTimes;
    assert [] + PingTimes(rest) == PingTimes(rest);
  }

  /** With polls at most d seconds apart the pings of a stream are less than 30 + d seconds apart, and as long as
      it lasts the last of them is less than 30 seconds old. */
  lemma {:induction false} KeepsAlive(deadline: real, lastPing: real, previous: real, polls: seq<Poll>, d: real)
    requires previous - lastPing < PING_INTERVAL && Steady(polls, previous, d)
    ensures Frequent(PingTimes(Stream(deadline, lastPing, polls)), lastPing, PING_INTERVAL + d)
    ensures polls != [] && Live(deadline, polls) ==>
      polls[|polls| - 1].now - LastPing(PingTimes(Stream(deadline, lastPing, polls)), lastPing) < PING_INTERVAL
    decreases |polls|, 1
  {
    if polls == [] {
    } else if polls[0].now >= deadline {
      assert PingTimes([TimeoutError]) == [];
    } else {
      hide Stream, PingTimes, Frequent, Live, Steady, LastPing, Stops;
      PingStep(deadline, lastPing, polls);
      FirstPoll(polls, previous, d);
      LaterKeepsAlive(deadline, lastPing, polls, d);
      if polls[0].now - lastPing >= PING_INTERVAL {
        FrequentPrepend(polls[0].now, LaterPings(deadline, lastPing, polls), lastPing, PING_INTERVAL + d);
      }
    }
  }

  lemma LaterKeepsAlive(deadline: real, lastPing: real, polls: seq<Poll>, d: real)
    requires polls != [] && Steady(polls, polls[0].now - d, d)
    ensures var later, next := LaterPings(deadline, lastPing, polls), AfterPing(lastPing, polls[0].now);
      && Frequent(later, next, PING_INTERVAL + d)
      && (Live(deadline, polls) ==> polls[|polls| - 1].now - LastPing(later, next) < PING_INTERVAL)
    decreases |polls|, 0
  {
    hide Stream, PingTimes, Frequent, Live, Steady;
    var next := AfterPing(lastPing, polls[0].now);
    LiveTail(deadline, polls);
    NoPings(next, PING_INTERVAL + d);
    if !Stops(polls[0].got) {
      SteadyTail(polls, polls[0].now - d, d);
      NothingYet(deadline, next);
      KeepsAlive(deadline, next, polls[0].now, polls[1..], d);
    }
  }

  lemma FirstPoll(polls: seq<Poll>, previous: real, d: real)
    requires polls != [] && Steady(polls, previous, d)
    ensures polls[0].now - previous <= d && Steady(polls, polls[0].now - d, d)
  {
  }

  lemma LiveTail(deadline: real, polls: seq<Poll>)
    requires polls != []
    ensures Live(deadline, polls) ==> !Stops(polls[0].got) && Live(deadline, polls[1..])
  {
  }

  lemma NothingYet(deadline: real, lastPing: real)
    ensures PingTimes(Stream(deadline, lastPing, [])) == []
  {
  }

  lemma NoPings(since: real, gap: real)
    ensures PingTimes([]) == [] && Frequent([], since, gap)
  {
  }

  /** A stream whose polls reach the deadline has ended: the relay never waits longer. */
  lemma {:induction false} EndsByDeadline(deadline: real, lastPing: real, polls: seq<Poll>, k: nat)
    requires k < |polls| && polls[k].now >= deadline
    ensures var frames := Stream(deadline, lastPing, polls); frames != [] && EndsStream(frames[|frames| - 1])
    decreases |polls|
  {
    if polls[0].now < deadline {
      var head, rest := Split(deadline, lastPing, polls);
      if !Stops(polls[0].got) {
        EndsByDeadline(deadline, AfterPing(lastPing, polls[0].now), polls[1..], k - 1);
      }
    }
  }

  // ---- Worker to client ----

  lemma {:induction false} NoTerminals(s: seq<Message>, i: nat)
    requires Terminals(s) == 0 && i < |s|
    ensures !IsTerminal(s[i])
  {
    if i < |s| - 1 {
      NoTerminals(s[..|s| - 1], i);
    }
  }

  lemma {:induction false} UpToSkips(a: seq<Message>, b: seq<Message>)
    requires forall i :: 0 <= i < |a| ==> !IsTerminal(a[i])
    ensures UpToTerminal(a + b) == a + UpToTerminal(b)
  {
    if a == [] {
      assert a + b == b;
    } else {
      assert (a + b)[1..] == a[1..] + b;
      UpToSkips(a[1..], b);
    }
  }

  lemma TerminalLastMeansAll(s: seq<Message>)
    requires Terminals(s) == 1 && s != [] && IsTerminal(s[|s| - 1])
    ensures UpToTerminal(s) == s
  {
    var front, last := s[..|s| - 1], s[|s| - 1];
    forall i | 0 <= i < |front| ensures !IsTerminal(front[i]) { NoTerminals(front, i); }
    UpToSkips(front, [last]);
    assert s == front + [last];
  }

  /** When the channel delivers all a run publishes before the deadline, and the run tells its end once,
      the client receives the whole run and the stream ends there. */
  lemma ClientSeesWholeRun(attempts: nat -> Attempt, start: real, polls: seq<Poll>)
    requires var n := LastAttempt(attempts, 0); !RetryLost(attempts(n), n) && !LateTimeout(attempts(n).end)
    requires Messages(Usable(start + WS_TIMEOUT, polls)) == Channel(attempts, 0)
    ensures var frames := Stream(start + WS_TIMEOUT, start, polls);
      Forwarded(frames) == Channel(attempts, 0) && frames != [] && EndsStream(frames[|frames| - 1])
  {
    hide Channel, Stream, Terminals, RetryLost;
    var frames := Stream(start + WS_TIMEOUT, start, polls);
    ExactlyOneTerminal(attempts);
    TerminalComesLast(attempts, 0);
    TerminalLastMeansAll(Channel(attempts, 0));
    ForwardsUpToTerminal(start + WS_TIMEOUT, start, polls);
    NothingAfterTheEnd(start + WS_TIMEOUT, start, polls);
    LastForwarded(frames);
  }

  lemma {:induction false} LastForwarded(frames: seq<Frame>)
    requires var f := Forwarded(frames); f != [] && IsTerminal(f[|f| - 1])
    requires EndsOnlyLast(frames)
    ensures frames != [] && EndsStream(frames[|frames| - 1])
  {
    if |frames| > 1 {
      assert Forwarded(frames) == (if frames[0].Forward? then [frames[0].message] else []) + Forwarded(frames[1..]);
      assert !EndsStream(frames[0]);
      LastForwarded(frames[1..]);
    }
  }
}
