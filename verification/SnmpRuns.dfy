/** The pending requests of an SNMP session as a state machine, one atomic step for each thing that can happen to
    them, and what holds over all its runs. */
module SnmpRuns {
  import opened JavaArithmetic

  type Handle = int
  type Key = int

  datatype Option<T> = None | Some(value: T)

  /** A pending request. due is the time its timer task runs at, if it is scheduled. */
  datatype Request = Request(retries: nat, timeout: nat, retryCount: nat, requestStatus: nat, finished: bool, due: Option<nat>)

  /** What becomes of a message: sent, refused before its handle is assigned, or broken off by the transport after. */
  datatype Fate = Delivered | Refused | Broken

  /** The first variable binding of a report, or none. */
  datatype Cause = UnknownEngineIds | NotInTimeWindows | OtherCause | Illegal

  /** What the peer and the listener of a request get to see. */
  datatype Event =
    | Sent(handle: Handle)
    | Responded(handle: Handle)
    | Reported(handle: Handle)
    | TimedOut(handle: Handle, at: nat)
    | Failed(handle: Handle)

  /** Something that happens. A request without a key is a synchronous one, whose caller wakes up in the end. */
  datatype Input =
    | Send(key: Option<Key>, handle: Handle, retries: nat, timeout: nat, fate: Fate)
    | Elapse(until: nat)
    | Fire(handle: Handle, fate: Fate)
    | Response(handle: Handle)
    | Report(handle: Handle, cause: Cause, fate: Fate)
    | Cancel(cancelled: Key)
    | Wake(handle: Handle)

  /** What the user asked for under a handle, and when. */
  datatype Ask = Ask(key: Option<Key>, retries: nat, timeout: nat, at: nat)

  datatype World = World(now: nat, pending: map<Handle, Request>, async: map<Key, Handle>,
                         asked: map<Handle, Ask>, log: seq<Event>)

  // ---- DefaultTimeoutModel

  function RetryTimeout(retryCount: int, totalNumberOfRetries: nat, targetTimeout: nat): nat
  {
    targetTimeout
  }

  function RequestTimeout(totalNumberOfRetries: nat, targetTimeout: nat): int
  {
    Long(Int(totalNumberOfRetries + 1) * targetTimeout)
  }

  // ---- one step

  function Fresh(a: Ask, now: nat): Request
  {
    Request(a.retries, a.timeout, a.retries, 0, false, Some(now + RetryTimeout(0, a.retries, a.timeout)))
  }

  /** The copy that takes the place of a request when it is sent again by its timer. */
  function Retry(r: Request, now: nat): Request
    requires 0 < r.retryCount
  {
    Request(r.retries, r.timeout, r.retryCount - 1, r.requestStatus, false,
            Some(now + RetryTimeout(r.retries - (r.retryCount - 1), r.retries, r.timeout)))
  }

  /** The status after a report that has the request sent again; None when it does not. */
  function Resend(status: nat, cause: Cause): Option<nat>
  {
    if status == 0 && cause == UnknownEngineIds then Some(1)
    else if status == 0 && cause == NotInTimeWindows then Some(2)
    else if status == 1 && cause == NotInTimeWindows then Some(2)
    else None
  }

  /** Timers run when they are due; a handle and a key are used for one request of the user. */
  ghost predicate Enabled(w: World, i: Input)
  {
    match i
    case Send(key, h, _, _, _) => h !in w.asked && (key.Some? ==> key.value !in w.async)
    case Elapse(t) => w.now <= t && forall h :: h in w.pending && w.pending[h].due.Some? ==> t <= w.pending[h].due.value
    case Fire(h, _) => h in w.pending && w.pending[h].due == Some(w.now)
    case Wake(h) => h in w.asked && w.asked[h].key == None
    case _ => true
  }

  /** No more of a request. */
  function Without(m: map<Handle, Request>, h: Handle): map<Handle, Request>
  {
    m - {h}
  }

  function Sending(h: Handle, fate: Fate): seq<Event>
  {
    if fate == Refused then [] else [Sent(h)]
  }

  function SendStep(w: World, key: Option<Key>, h: Handle, retries: nat, timeout: nat, fate: Fate): World
  {
    var a := Ask(key, retries, timeout, w.now);
    if fate == Refused then w.(asked := w.asked[h := a])
    else
      World(w.now, w.pending[h := Fresh(a, w.now)], if key.Some? then w.async[key.value := h] else w.async,
            w.asked[h := a], w.log + [Sent(h)])
  }

  function FireStep(w: World, h: Handle, fate: Fate): World
    requires h in w.pending
  {
    var r := w.pending[h];
    if !r.finished && r.retryCount > 0 then
      match fate
      case Delivered => w.(pending := w.pending[h := Retry(r, w.now)], log := w.log + [Sent(h)])
      case Refused => w.(pending := w.pending[h := r.(finished := true, due := None)], log := w.log + [Failed(h)])
      case Broken => w.(pending := w.pending[h := Retry(r, w.now)], log := w.log + [Sent(h), Failed(h)])
    else if !r.finished then
      w.(pending := Without(w.pending, h), log := w.log + [TimedOut(h, w.now)])
    else
      w.(pending := w.pending[h := r.(due := None)])
  }

  function ReportStep(w: World, h: Handle, cause: Cause, fate: Fate): World
  {
    if h !in w.pending || cause == Illegal then w
    else
      var r := w.pending[h];
      match Resend(r.requestStatus, cause)
      case Some(status) =>
        w.(pending := w.pending[h := r.(requestStatus := status)], log := w.log + Sending(h, fate))
      case None =>
        w.(pending := Without(w.pending, h), log := w.log + if r.due.Some? then [Reported(h)] else [])
  }

  function CancelStep(w: World, key: Key): World
  {
    if key !in w.async then w
    else w.(pending := Without(w.pending, w.async[key]), async := w.async - {key})
  }

  function Step(w: World, i: Input): World
    requires Enabled(w, i)
  {
    match i
    case Send(key, h, retries, timeout, fate) => SendStep(w, key, h, retries, timeout, fate)
    case Elapse(t) => w.(now := t)
    case Fire(h, fate) => FireStep(w, h, fate)
    case Response(h) => if h in w.pending then w.(log := w.log + [Responded(h)]) else w
    case Report(h, cause, fate) => ReportStep(w, h, cause, fate)
    case Cancel(key) => CancelStep(w, key)
    case Wake(h) => w.(pending := Without(w.pending, h))
  }

  const START := World(0, map[], map[], map[], [])

  /** The inputs can happen one after the other. */
  ghost predicate Possible(w: World, inputs: seq<Input>)
    decreases |inputs|
  {
    inputs == [] || (Enabled(w, inputs[0]) && Possible(Step(w, inputs[0]), inputs[1..]))
  }

  ghost function Run(w: World, inputs: seq<Input>): World
    requires Possible(w, inputs)
    decreases |inputs|
  {
    if inputs == [] then w else Run(Step(w, inputs[0]), inputs[1..])
  }

  // ---- what the log says of a handle

  /** How often a request was sent. */
  function Sends(log: seq<Event>, h: Handle): nat
    decreases |log|
  {
    if log == [] then 0
    else Sends(log[..|log| - 1], h) + if log[|log| - 1] == Sent(h) then 1 else 0
  }

  /** The times at which a request was told to have timed out. */
  function Timeouts(log: seq<Event>, h: Handle): seq<nat>
    decreases |log|
  {
    if log == [] then []
    else
      var e := log[|log| - 1];
      Timeouts(log[..|log| - 1], h) + if e.TimedOut? && e.handle == h then [e.at] else []
  }

  /** Everything that was seen of a request. */
  function About(log: seq<Event>, h: Handle): seq<Event>
    decreases |log|
  {
    if log == [] then []
    else About(log[..|log| - 1], h) + if log[|log| - 1].handle == h then [log[|log| - 1]] else []
  }

  lemma LogOne(log: seq<Event>, e: Event, h: Handle)
    ensures Sends(log + [e], h) == Sends(log, h) + if e == Sent(h) then 1 else 0
    ensures Timeouts(log + [e], h) == Timeouts(log, h) + if e.TimedOut? && e.handle == h then [e.at] else []
    ensures About(log + [e], h) == About(log, h) + if e.handle == h then [e] else []
  {
    assert (log + [e])[..|log|] == log;
  }

  function Mark(e: Event, h: Handle): nat
  {
    if e == Sent(h) then 1 else 0
  }

  function Time(e: Event, h: Handle): seq<nat>
  {
    if e.TimedOut? && e.handle == h then [e.at] else []
  }

  function Only(e: Event, h: Handle): seq<Event>
  {
    if e.handle == h then [e] else []
  }

  /** What up to two more events add. */
  lemma LogGrows(l: seq<Event>, m: seq<Event>, h: Handle)
    requires l <= m && |m| <= |l| + 2
    ensures |m| == |l| ==> m == l
    ensures |m| == |l| + 1 ==>
              && Sends(m, h) == Sends(l, h) + Mark(m[|l|], h)
              && Timeouts(m, h) == Timeouts(l, h) + Time(m[|l|], h)
              && About(m, h) == About(l, h) + Only(m[|l|], h)
    ensures |m| == |l| + 2 ==>
              && Sends(m, h) == Sends(l, h) + Mark(m[|l|], h) + Mark(m[|l| + 1], h)
              && Timeouts(m, h) == Timeouts(l, h) + Time(m[|l|], h) + Time(m[|l| + 1], h)
              && About(m, h) == About(l, h) + Only(m[|l|], h) + Only(m[|l| + 1], h)
  {
    hide Sends, Timeouts, About;
    if |m| == |l| + 1 {
      LogOne(l, m[|l|], h);
      assert m == l + [m[|l|]];
    } else if |m| == |l| + 2 {
      LogOne(l, m[|l|], h);
      LogOne(l + [m[|l|]], m[|l| + 1], h);
      assert m == l + [m[|l|]] + [m[|l| + 1]];
    }
  }

  // ---- a request is sent at most retries + 1 + 2 times

  ghost predicate Bounded(w: World, h: Handle)
  {
    if h !in w.asked then h !in w.pending && Sends(w.log, h) == 0
    else if h in w.pending then
      var r := w.pending[h];
      && r.retries == w.asked[h].retries && r.retryCount <= r.retries && r.requestStatus <= 2
      && Sends(w.log, h) + r.retryCount <= r.retries + 1 + r.requestStatus
    else Sends(w.log, h) <= w.asked[h].retries + 3
  }

  /** The handle a step is about, where it is about one. */
  function HandleOf(w: World, i: Input): Option<Handle>
  {
    match i
    case Elapse(_) => None
    case Cancel(key) => if key in w.async then Some(w.async[key]) else None
    case _ => Some(i.handle)
  }

  /** Nothing changes for the other handles. */
  lemma OthersKept(w: World, i: Input, h: Handle)
    requires Enabled(w, i) && HandleOf(w, i) != Some(h)
    ensures var v := Step(w, i);
            && (h in v.pending <==> h in w.pending) && (h in w.pending ==> v.pending[h] == w.pending[h])
            && (h in v.asked <==> h in w.asked) && (h in w.asked ==> v.asked[h] == w.asked[h])
            && About(v.log, h) == About(w.log, h) && Sends(v.log, h) == Sends(w.log, h)
            && Timeouts(v.log, h) == Timeouts(w.log, h)
  {
    hide About, Sends, Timeouts;
    var v := Step(w, i);
    LogGrows(w.log, v.log, h);
  }

  lemma BoundedStep(w: World, i: Input, h: Handle)
    requires Enabled(w, i) && Bounded(w, h)
    ensures Bounded(Step(w, i), h)
  {
    hide Sends, Timeouts, About;
    if HandleOf(w, i) != Some(h) {
      OthersKept(w, i, h);
    } else {
      LogGrows(w.log, Step(w, i).log, h);
    }
  }

  /** In every run, and whatever the peer and the transport do, a request is sent at most once for itself, once
      for each retry, and twice for reports. */
  lemma {:induction false} SendsBounded(w: World, inputs: seq<Input>, h: Handle)
    requires Possible(w, inputs) && Bounded(w, h)
    ensures Bounded(Run(w, inputs), h)
    ensures h in Run(w, inputs).asked ==> Sends(Run(w, inputs).log, h) <= Run(w, inputs).asked[h].retries + 1 + 2
    decreases |inputs|
  {
    hide Sends, Enabled, Step;
    if inputs != [] {
      BoundedStep(w, inputs[0], h);
      SendsBounded(Step(w, inputs[0]), inputs[1..], h);
    }
  }

  lemma BoundedAtStart(h: Handle)
    ensures Bounded(START, h)
  {}

  /** The bound is reached: no reply in time to any retry, and both reports before. */
  function Worst(h: Handle, timeout: nat, at: nat, retries: nat): seq<Input>
    decreases retries
  {
    if retries == 0 then []
    else [Elapse(at + timeout), Fire(h, Delivered)] + Worst(h, timeout, at + timeout, retries - 1)
  }

  lemma {:induction false} WorstRun(w: World, h: Handle, timeout: nat, left: nat)
    requires h in w.pending && w.pending.Keys == {h}
    requires var r := w.pending[h];
             r.retryCount == left && !r.finished && r.due == Some(w.now + timeout) && r.timeout == timeout
    ensures Possible(w, Worst(h, timeout, w.now, left))
    ensures Sends(Run(w, Worst(h, timeout, w.now, left)).log, h) == Sends(w.log, h) + left
    decreases left
  {
    hide Sends;
    if left > 0 {
      var e, f := Elapse(w.now + timeout), Fire(h, Delivered);
      var rest := Worst(h, timeout, w.now + timeout, left - 1);
      var all := Worst(h, timeout, w.now, left);
      var v := Step(w, e);
      var u := Step(v, f);
      LogOne(v.log, Sent(h), h);
      WorstRun(u, h, timeout, left - 1);
      assert all[0] == e && all[1..][0] == f && all[1..][1..] == rest;
    }
  }

  lemma BoundReached(h: Handle, retries: nat, timeout: nat)
    ensures var inputs := [Send(None, h, retries, timeout, Delivered), Report(h, UnknownEngineIds, Delivered),
                           Report(h, NotInTimeWindows, Delivered)] + Worst(h, timeout, 0, retries);
            Possible(START, inputs) && Sends(Run(START, inputs).log, h) == retries + 1 + 2
  {
    hide Sends, Worst, Run, Possible, Step;
    var a, b, c := Send(None, h, retries, timeout, Delivered), Report(h, UnknownEngineIds, Delivered),
                   Report(h, NotInTimeWindows, Delivered);
    var rest := Worst(h, timeout, 0, retries);
    var inputs := [a, b, c] + rest;
    assert inputs[0] == a && inputs[1..][0] == b && inputs[1..][1..][0] == c && inputs[1..][1..][1..] == rest;
    var u, v, w := After(h, retries, timeout, 0, 1), After(h, retries, timeout, 1, 2), After(h, retries, timeout, 2, 3);
    ThreeSteps(h, retries, timeout);
    WorstRun(w, h, timeout, retries);
    RunFrom(v, inputs[1..][1..], c, w);
    RunFrom(u, inputs[1..], b, v);
    RunFrom(START, inputs, a, u);
  }

  /** The request when it was sent n times and its status is as given, with its timer still at the first round. */
  function After(h: Handle, retries: nat, timeout: nat, status: nat, n: nat): World
  {
    World(0, map[h := Request(retries, timeout, retries, status, false, Some(timeout))], map[],
          map[h := Ask(None, retries, timeout, 0)], seq(n, _ => Sent(h)))
  }

  lemma ThreeSteps(h: Handle, retries: nat, timeout: nat)
    ensures var a := Send(None, h, retries, timeout, Delivered);
            Enabled(START, a) && Step(START, a) == After(h, retries, timeout, 0, 1)
    ensures Step(After(h, retries, timeout, 0, 1), Report(h, UnknownEngineIds, Delivered)) == After(h, retries, timeout, 1, 2)
    ensures Step(After(h, retries, timeout, 1, 2), Report(h, NotInTimeWindows, Delivered)) == After(h, retries, timeout, 2, 3)
    ensures Sends(After(h, retries, timeout, 2, 3).log, h) == 3
  {
    hide Sends;
    SendsNone(h);
    LogOne([], Sent(h), h);
    LogOne([Sent(h)], Sent(h), h);
    LogOne([Sent(h), Sent(h)], Sent(h), h);
    assert [] + [Sent(h)] == [Sent(h)] == seq(1, _ => Sent(h));
    assert [Sent(h)] + [Sent(h)] == [Sent(h), Sent(h)] == seq(2, _ => Sent(h));
    assert [Sent(h), Sent(h)] + [Sent(h)] == seq(3, _ => Sent(h));
    var r := Request(retries, timeout, retries, 0, false, Some(timeout));
    assert map[h := r][h := r.(requestStatus := 1)] == map[h := r.(requestStatus := 1)];
    assert map[h := r.(requestStatus := 1)][h := r.(requestStatus := 2)] == map[h := r.(requestStatus := 2)];
  }

  lemma RunFrom(w: World, inputs: seq<Input>, i: Input, v: World)
    requires inputs != [] && inputs[0] == i && Enabled(w, i) && Step(w, i) == v && Possible(v, inputs[1..])
    ensures Possible(w, inputs) && Run(w, inputs) == Run(v, inputs[1..])
  {
    hide Enabled, Step;
  }

  lemma SendsNone(h: Handle)
    ensures Sends([], h) == 0
  {}

  // ---- after cancel

  /** Keys lead to requests that were made. */
  ghost predicate Keyed(w: World)
  {
    forall k :: k in w.async ==> w.async[k] in w.asked
  }

  lemma {:induction false} KeyedRun(w: World, inputs: seq<Input>)
    requires Possible(w, inputs) && Keyed(w)
    ensures Keyed(Run(w, inputs))
    decreases |inputs|
  {
    if inputs != [] {
      KeyedRun(Step(w, inputs[0]), inputs[1..]);
    }
  }

  lemma SilentStep(w: World, i: Input, h: Handle)
    requires Enabled(w, i) && h in w.asked && h !in w.pending
    ensures var v := Step(w, i); h in v.asked && h !in v.pending && About(v.log, h) == About(w.log, h)
  {
    hide About, Sends, Timeouts;
    if HandleOf(w, i) != Some(h) {
      OthersKept(w, i, h);
    }
  }

  /** Once a request is no longer pending nothing more is seen of it: it is neither sent again nor is its
      listener called. */
  lemma {:induction false} Silent(w: World, inputs: seq<Input>, h: Handle)
    requires Possible(w, inputs) && h in w.asked && h !in w.pending
    ensures h !in Run(w, inputs).pending && About(Run(w, inputs).log, h) == About(w.log, h)
    decreases |inputs|
  {
    hide About, Enabled, Step;
    if inputs != [] {
      SilentStep(w, inputs[0], h);
      Silent(Step(w, inputs[0]), inputs[1..], h);
    }
  }

  /** In every run, cancelling an asynchronous request is the end of it. */
  lemma CancelSilences(before: seq<Input>, key: Key, after: seq<Input>)
    requires Possible(START, before)
    requires var w := Run(START, before); key in w.async && Possible(Step(w, Cancel(key)), after)
    ensures var w := Run(START, before);
            var v := Run(Step(w, Cancel(key)), after);
            About(v.log, w.async[key]) == About(w.log, w.async[key])
  {
    hide About, Possible, Run;
    var w := Run(START, before);
    KeyedRun(START, before);
    Silent(Step(w, Cancel(key)), after, w.async[key]);
  }

  // ---- timeouts

  ghost predicate AtMostOnce(w: World, h: Handle)
  {
    && (h !in w.asked || h in w.pending ==> Timeouts(w.log, h) == [])
    && (h !in w.asked ==> h !in w.pending)
    && |Timeouts(w.log, h)| <= 1
  }

  /** The listener is told of a timeout at most once. */
  lemma {:induction false} TimedOutOnce(w: World, inputs: seq<Input>, h: Handle)
    requires Possible(w, inputs) && AtMostOnce(w, h)
    ensures AtMostOnce(Run(w, inputs), h)
    decreases |inputs|
  {
    hide Timeouts, Sends, About;
    if inputs != [] {
      var v := Step(w, inputs[0]);
      OnceStep(w, inputs[0], h);
      TimedOutOnce(v, inputs[1..], h);
    }
  }

  lemma OnceStep(w: World, i: Input, h: Handle)
    requires Enabled(w, i) && AtMostOnce(w, h)
    ensures AtMostOnce(Step(w, i), h)
  {
    hide Timeouts, Sends, About;
    if HandleOf(w, i) != Some(h) {
      OthersKept(w, i, h);
    } else {
      LogGrows(w.log, Step(w, i).log, h);
    }
  }

  lemma OnceAtStart(h: Handle)
    ensures AtMostOnce(START, h)
  {}

  /** From the start on, whatever happens: at most retries + 3 transmissions of a request, and one timeout. */
  lemma FromStart(inputs: seq<Input>, h: Handle)
    requires Possible(START, inputs)
    ensures var v := Run(START, inputs);
            && Bounded(v, h) && AtMostOnce(v, h) && |Timeouts(v.log, h)| <= 1
            && (if h in v.asked then Sends(v.log, h) <= v.asked[h].retries + 3 else Sends(v.log, h) == 0)
  {
    hide Run, Possible, Sends, Timeouts;
    BoundedAtStart(h);
    OnceAtStart(h);
    SendsBounded(START, inputs, h);
    TimedOutOnce(START, inputs, h);
  }

  /** Nobody answers, cancels or wakes up for h, and what is sent for it gets through. */
  ghost predicate Quiet(w: World, inputs: seq<Input>, h: Handle)
    requires Possible(w, inputs)
    decreases |inputs|
  {
    inputs == [] ||
    ((HandleOf(w, inputs[0]) == Some(h) ==> inputs[0] == Fire(h, Delivered)) && Quiet(Step(w, inputs[0]), inputs[1..], h))
  }

  /** The n-th time the timer of a request is due. */
  function DueAt(a: Ask, n: nat): nat
  {
    if n == 0 then a.at else DueAt(a, n - 1) + a.timeout
  }

  lemma {:induction false} DueIsMultiple(a: Ask, n: nat)
    ensures DueAt(a, n) == a.at + n * a.timeout
  {
    if n > 0 {
      DueIsMultiple(a, n - 1);
      OneMore(n - 1, a.timeout);
    }
  }

  lemma OneMore(n: nat, a: nat)
    ensures n * a + a == (n + 1) * a
  {}

  /** A request that is left alone. */
  ghost predicate Ticking(w: World, h: Handle)
  {
    && h in w.asked
    && var a := w.asked[h];
       if h in w.pending then
         var r := w.pending[h];
         && r.retries == a.retries && r.timeout == a.timeout && r.retryCount <= a.retries && !r.finished
         && var n := a.retries - r.retryCount + 1;
            Sends(w.log, h) == n && Timeouts(w.log, h) == [] && r.due == Some(DueAt(a, n)) && w.now <= DueAt(a, n)
       else
         Sends(w.log, h) == a.retries + 1 && Timeouts(w.log, h) == [DueAt(a, a.retries + 1)]
  }

  lemma TickingStep(w: World, i: Input, h: Handle)
    requires Enabled(w, i) && Ticking(w, h) && (HandleOf(w, i) == Some(h) ==> i == Fire(h, Delivered))
    ensures Ticking(Step(w, i), h) && Step(w, i).asked[h] == w.asked[h]
  {
    hide Timeouts, Sends, About;
    if HandleOf(w, i) != Some(h) {
      OthersKept(w, i, h);
    } else {
      LogGrows(w.log, Step(w, i).log, h);
    }
  }

  lemma {:induction false} TickingRun(w: World, inputs: seq<Input>, h: Handle)
    requires Possible(w, inputs) && Ticking(w, h) && Quiet(w, inputs, h)
    ensures Ticking(Run(w, inputs), h) && Run(w, inputs).asked[h] == w.asked[h]
    decreases |inputs|
  {
    hide Ticking, Enabled, Step;
    if inputs != [] {
      TickingStep(w, inputs[0], h);
      TickingRun(Step(w, inputs[0]), inputs[1..], h);
    }
  }

  lemma {:induction false} DueGrows(a: Ask, m: nat, n: nat)
    requires m <= n
    ensures DueAt(a, m) <= DueAt(a, n)
    decreases n
  {
    if m < n {
      DueGrows(a, m, n - 1);
    }
  }

  /** Without response, report or error, among any other traffic, a request is sent exactly retries + 1 times and
      its listener is told of the timeout once, after retries + 1 times its timeout. */
  lemma TimeoutIsExact(w: World, key: Option<Key>, h: Handle, retries: nat, timeout: nat, after: seq<Input>)
    requires Bounded(w, h) && AtMostOnce(w, h) && Enabled(w, Send(key, h, retries, timeout, Delivered))
    requires var u := Step(w, Send(key, h, retries, timeout, Delivered)); Possible(u, after) && Quiet(u, after, h)
    ensures var v := Run(Step(w, Send(key, h, retries, timeout, Delivered)), after);
            var end := w.now + (retries + 1) * timeout;
            && (if h in v.pending then Timeouts(v.log, h) == [] && v.now <= end && 1 <= Sends(v.log, h) <= retries + 1
                else Timeouts(v.log, h) == [end] && Sends(v.log, h) == retries + 1)
  {
    hide Timeouts, Sends, About, Run, Possible, Quiet;
    var u := Step(w, Send(key, h, retries, timeout, Delivered));
    LogOne(w.log, Sent(h), h);
    var a := u.asked[h];
    DueOnce(a);
    TickingRun(u, after, h);
    var v := Run(u, after);
    DueIsMultiple(a, retries + 1);
    if h in v.pending {
      DueGrows(a, a.retries - v.pending[h].retryCount + 1, a.retries + 1);
    }
  }

  lemma DueOnce(a: Ask)
    ensures DueAt(a, 1) == a.at + a.timeout
  {
    assert DueAt(a, 0) == a.at;
  }

  /** getRequestTimeout is that time, as long as it fits: the retries plus one in an int, the product in a long. */
  lemma RequestTimeoutFits(retries: nat, timeout: nat)
    requires retries < 0x8000_0000 && timeout < 0x8000_0000_0000_0000
    ensures RequestTimeout(retries, timeout) == (retries + 1) * timeout <==>
            timeout == 0 || (retries < 0x7fff_ffff && (retries + 1) * timeout < 0x8000_0000_0000_0000)
  {
    if retries < 0x7fff_ffff {
      assert Int(retries + 1) == retries + 1;
      LongFits((retries + 1) * timeout);
    } else {
      assert Int(retries + 1) == -0x8000_0000;
      LongFits(0x8000_0000 * timeout);
    }
  }

  /** With the most retries there are the number of transmissions is negative as an int. */
  lemma RequestTimeoutWraps()
    ensures RequestTimeout(0x7fff_ffff, 1) == -0x8000_0000
  {
    assert Int(0x7fff_ffff + 1) == -0x8000_0000;
  }

  lemma LongFits(p: int)
    requires 0 <= p
    ensures Long(p) == p <==> p < 0x8000_0000_0000_0000
    ensures p < 0x8000_0000_0000_0000 ==> Long(-p) == -p
    ensures Long(p) < 0x8000_0000_0000_0000 && Long(-p) < 0x8000_0000_0000_0000
  {}
}
