/** Snmp and its PendingRequest: tables of requests that are changed in place, and timer tasks that replace
    themselves. Every method does exactly one step of the state machine. */
module Snmp {
  import opened SnmpRuns

  /** The synchronous and the asynchronous kind, told apart by the key. */
  class PendingRequest {
    const asyncKey: Option<Key>
    const retries: nat
    const timeout: nat
    var key: Option<Handle>
    var retryCount: nat
    var requestStatus: nat
    var maxRequestStatus: nat
    var finished: bool
    var due: Option<nat>

    constructor (asyncKey: Option<Key>, retries: nat, timeout: nat)
      ensures this.asyncKey == asyncKey && key == None && maxRequestStatus == 2
      ensures Abs() == Request(retries, timeout, retries, 0, false, None)
    {
      this.asyncKey, this.retries, this.timeout := asyncKey, retries, timeout;
      key, retryCount, requestStatus, maxRequestStatus := None, retries, 0, 2;
      finished, due := false, None;
    }

    /** The copy for the next retry: it does not take the maximum status along, nor its kind. */
    constructor Copy(other: PendingRequest)
      requires 0 < other.retryCount
      ensures asyncKey == None && key == None && maxRequestStatus == 2
      ensures Abs() == other.Abs().(retryCount := other.retryCount - 1, finished := false, due := None)
    {
      asyncKey, retries, timeout := None, other.retries, other.timeout;
      key, retryCount, requestStatus, maxRequestStatus := None, other.retryCount - 1, other.requestStatus, 2;
      finished, due := false, None;
    }

    ghost function Abs(): Request
      reads this
    {
      Request(retries, timeout, retryCount, requestStatus, finished, due)
    }
  }

  class Snmp {
    var pendingRequests: map<Handle, PendingRequest>
    var asyncRequests: map<Key, Handle>
    /** The tasks that are scheduled. */
    var timer: set<PendingRequest>
    var now: nat
    ghost var asked: map<Handle, Ask>
    ghost var log: seq<Event>

    /** Requests know their handle, and the scheduled tasks are those of pending requests: a handle has one task at
        most, that of its request. */
    ghost predicate Valid()
      reads this`pendingRequests, this`timer, this`asked, pendingRequests.Values, timer
    {
      && pendingRequests.Keys <= asked.Keys
      && (forall h :: h in pendingRequests ==> pendingRequests[h].key == Some(h) && pendingRequests[h].maxRequestStatus == 2)
      && (forall h :: h in pendingRequests ==> (pendingRequests[h] in timer <==> pendingRequests[h].due.Some?))
      && (forall t :: t in timer ==> t.key.Some? && t.key.value in pendingRequests && pendingRequests[t.key.value] == t)
    }

    /** The request is not in the table. */
    ghost predicate Absent(request: PendingRequest)
      reads this`pendingRequests
    {
      forall h :: h in pendingRequests ==> pendingRequests[h] != request
    }

    ghost function Requests(): map<Handle, Request>
      reads this`pendingRequests, pendingRequests.Values
    {
      map h | h in pendingRequests :: pendingRequests[h].Abs()
    }

    ghost function State(): World
      reads this, pendingRequests.Values
    {
      World(now, Requests(), asyncRequests, asked, log)
    }

    constructor ()
      ensures Valid() && State() == START
    {
      pendingRequests, asyncRequests, timer, now := map[], map[], {}, 0;
      asked, log := map[], [];
    }

    // ---- the small steps the others are made of

    /** timer.schedule, of a request that is in the table. */
    method Schedule(handle: Handle, request: PendingRequest, delay: nat)
      requires Valid() && handle in pendingRequests && pendingRequests[handle] == request && request.due == None
      modifies this`timer, request`due
      ensures Valid() && Requests() == old(Requests())[handle := old(request.Abs()).(due := Some(now + delay))]
    {
      assert forall h :: h in pendingRequests && pendingRequests[h] == request ==> request.key == Some(h);
      timer := timer + {request};
      request.due := Some(now + delay);
    }

    /** pendingRequests.put, with registerRequest: the request knows its handle, and an asynchronous one can be
        found by its key. */
    method Register(handle: Handle, request: PendingRequest)
      requires Valid() && handle in asked && request.key == None && request.maxRequestStatus == 2
      requires Absent(request) && request.due == None
      requires handle in pendingRequests ==> pendingRequests[handle].due == None
      modifies this`pendingRequests, this`asyncRequests, request`key
      ensures Valid() && request.key == Some(handle) && pendingRequests == old(pendingRequests)[handle := request]
      ensures Requests() == old(Requests())[handle := old(request.Abs())]
      ensures asyncRequests == if request.asyncKey.Some? then old(asyncRequests)[request.asyncKey.value := handle] else old(asyncRequests)
    {
      ghost var m := pendingRequests;
      assert forall h :: h in m ==> m[h] != request;
      request.key := Some(handle);
      pendingRequests := pendingRequests[handle := request];
      if request.asyncKey.Some? {
        asyncRequests := asyncRequests[request.asyncKey.value := handle];
      }
    }

    /** pduHandleAssigned: a request that has no handle yet takes this one, and its place in the table. */
    method PduHandleAssigned(request: PendingRequest, handle: Handle)
      requires Valid() && handle in asked
      requires request.key == None && !request.finished && request.maxRequestStatus == 2
      requires Absent(request) && request.due == None
      requires handle in pendingRequests ==> pendingRequests[handle].due == None
      modifies this`pendingRequests, this`asyncRequests, this`timer, request
      ensures Valid() && pendingRequests == old(pendingRequests)[handle := request]
      ensures Requests() == old(Requests())[handle := old(request.Abs()).(due := Some(now + request.timeout))]
      ensures asyncRequests == if request.asyncKey.Some? then old(asyncRequests)[request.asyncKey.value := handle] else old(asyncRequests)
    {
      hide Valid, Requests;
      if request.key == None {
        Register(handle, request);
        var delay := RetryTimeout(request.retries - request.retryCount, request.retries, request.timeout);
        if !request.finished {
          Schedule(handle, request, delay);
        }
      }
    }

    /** sendMessage with the request as callback: false when it throws, before the handle is assigned or after. */
    method SendMessage(handle: Handle, request: PendingRequest, fate: Fate) returns (ok: bool)
      requires Valid() && handle in asked
      requires request.key == None && !request.finished && request.maxRequestStatus == 2
      requires Absent(request) && request.due == None
      requires handle in pendingRequests ==> pendingRequests[handle].due == None
      modifies this`pendingRequests, this`asyncRequests, this`timer, this`log, request
      ensures Valid() && ok == (fate == Delivered) && log == old(log) + Sending(handle, fate)
      ensures fate == Refused ==> pendingRequests == old(pendingRequests) && Requests() == old(Requests()) && asyncRequests == old(asyncRequests)
      ensures fate != Refused ==>
                && pendingRequests == old(pendingRequests)[handle := request]
                && Requests() == old(Requests())[handle := old(request.Abs()).(due := Some(now + request.timeout))]
                && asyncRequests == if request.asyncKey.Some? then old(asyncRequests)[request.asyncKey.value := handle] else old(asyncRequests)
    {
      if fate == Refused {
        return false;
      }
      PduHandleAssigned(request, handle);
      log := log + [Sent(handle)];
      return fate == Delivered;
    }

    /** sendMessage without a callback. */
    method SendAgain(handle: Handle, fate: Fate) returns (ok: bool)
      modifies this`log
      ensures ok == (fate == Delivered) && log == old(log) + Sending(handle, fate)
    {
      if fate == Refused {
        return false;
      }
      log := log + [Sent(handle)];
      return fate == Delivered;
    }

    /** TimerTask.cancel: whether the task was scheduled. Its running takes it off the timer in the same way. */
    method CancelTask(request: PendingRequest) returns (intime: bool)
      requires Valid()
      modifies this`timer, request`due
      ensures Valid() && intime == (request in old(timer)) && request !in timer
      ensures forall h :: h in pendingRequests && pendingRequests[h] == request ==>
                intime == old(request.due).Some? && Requests() == old(Requests())[h := old(request.Abs()).(due := None)]
      ensures Absent(request) ==> Requests() == old(Requests())
    {
      ghost var m := Requests();
      intime := request in timer;
      timer := timer - {request};
      if intime {
        request.due := None;
      }
      assert forall h :: h in pendingRequests && pendingRequests[h] == request ==> request.key == Some(h);
      if Absent(request) {
        assert forall h :: h in m ==> Requests()[h] == m[h];
        assert Requests() == m;
      }
    }

    /** setFinished */
    method SetFinished(request: PendingRequest)
      requires Valid()
      modifies request`finished
      ensures Valid() && request.finished
      ensures forall h :: h in pendingRequests && pendingRequests[h] == request ==>
                Requests() == old(Requests())[h := old(request.Abs()).(finished := true)]
      ensures Absent(request) ==> Requests() == old(Requests())
    {
      ghost var m := Requests();
      request.finished := true;
      assert forall h :: h in pendingRequests && pendingRequests[h] == request ==> request.key == Some(h);
      if Absent(request) {
        assert forall h :: h in m ==> Requests()[h] == m[h];
        assert Requests() == m;
      }
    }

    /** pendingRequests.remove, of a request without a task. */
    method Remove(handle: Handle)
      requires Valid() && (handle in pendingRequests ==> pendingRequests[handle].due == None)
      modifies this`pendingRequests
      ensures Valid() && pendingRequests == old(pendingRequests) - {handle}
      ensures Requests() == Without(old(Requests()), handle)
    {
      pendingRequests := pendingRequests - {handle};
    }

    // ---- the steps

    /** send: the request is pending from when its handle is assigned, even if the caller gets an exception then. */
    method Send(asyncKey: Option<Key>, handle: Handle, retries: nat, timeout: nat, fate: Fate) returns (ok: bool)
      requires Valid() && Enabled(State(), Input.Send(asyncKey, handle, retries, timeout, fate))
      modifies this
      ensures Valid() && State() == Step(old(State()), Input.Send(asyncKey, handle, retries, timeout, fate))
      ensures ok == (fate == Delivered)
    {
      hide Requests;
      InRequests(handle);
      var request := new PendingRequest(asyncKey, retries, timeout);
      asked := asked[handle := Ask(asyncKey, retries, timeout, now)];
      ok := SendMessage(handle, request, fate);
    }

    /** The clock goes on, to no later than the next task. */
    method Tick(until: nat)
      requires Valid() && Enabled(State(), Elapse(until))
      modifies this`now
      ensures Valid() && State() == Step(old(State()), Elapse(until))
    {
      now := until;
    }

    /** run: a retry takes the place of a request that has retries left; another one times out. */
    method RunTask(handle: Handle, fate: Fate)
      requires Valid() && Enabled(State(), Fire(handle, fate))
      modifies this, pendingRequests.Values
      ensures Valid() && State() == Step(old(State()), Fire(handle, fate))
    {
      var request := pendingRequests[handle];
      if !request.finished && request.retryCount > 0 {
        SendRetry(handle, request, fate);
      } else {
        TimeOut(handle, request);
      }
    }

    /** The branch of run for a request with retries left. */
    method SendRetry(handle: Handle, request: PendingRequest, fate: Fate)
      requires Valid() && handle in pendingRequests && request == pendingRequests[handle] && request.due == Some(now)
      requires !request.finished && request.retryCount > 0
      modifies this, request
      ensures Valid() && State() == FireStep(old(State()), handle, fate)
    {
      hide Valid, Requests, FireStep;
      InTable(handle);
      ghost var w := State();
      RetryIs(w, handle, fate);
      var _ := CancelTask(request);
      assert forall h :: h in pendingRequests && h != handle ==> pendingRequests[h] != request;
      var nextRetry := new PendingRequest.Copy(request);
      ghost var r, m := w.pending[handle], Requests();
      assert m == w.pending[handle := r.(due := None)];
      var ok := SendMessage(handle, nextRetry, fate);
      assert fate == Refused ==> Requests() == m;
      assert fate != Refused ==> Requests() == m[handle := Retry(r, now)];
      if !ok {
        assert fate == Refused ==> pendingRequests[handle] == request && request.Abs() == r.(due := None);
        assert fate == Broken ==> Absent(request);
        Fail(handle, request);
        assert fate == Refused ==> handle in pendingRequests && pendingRequests[handle] == request;
      }
      assert fate == Refused ==> Requests() == m[handle := r.(due := None).(finished := true)];
      assert fate != Refused ==> Requests() == m[handle := Retry(r, now)];
      assert State().now == w.now && State().async == w.async && State().asked == w.asked;
      assert State().log == FireStep(w, handle, fate).log;
      assert State().pending == FireStep(w, handle, fate).pending;
    }

    /** The catch of an exception while a retry is sent. */
    method Fail(handle: Handle, request: PendingRequest)
      requires Valid()
      modifies this`log, request`finished
      ensures Valid() && log == old(log) + [Failed(handle)]
      ensures forall h :: h in pendingRequests && pendingRequests[h] == request ==>
                Requests() == old(Requests())[h := old(request.Abs()).(finished := true)]
      ensures Absent(request) ==> Requests() == old(Requests())
    {
      hide Valid, Requests;
      SetFinished(request);
      log := log + [Failed(handle)];
    }

    lemma RetryIs(w: World, h: Handle, fate: Fate)
      requires h in w.pending && !w.pending[h].finished && w.pending[h].retryCount > 0
      ensures var r, v := w.pending[h], FireStep(w, h, fate);
              && v.log == (if fate == Delivered then w.log + Sending(h, fate) else w.log + Sending(h, fate) + [Failed(h)])
              && v.pending == w.pending[h := r.(due := None)]
                                       [h := if fate == Refused then r.(due := None).(finished := true) else Retry(r, w.now)]
              && v.now == w.now && v.async == w.async && v.asked == w.asked
    {}

    lemma TimeOutIs(w: World, h: Handle)
      requires h in w.pending && (w.pending[h].finished || w.pending[h].retryCount == 0)
      ensures var r, v := w.pending[h], FireStep(w, h, Delivered);
              && v.log == (if r.finished then w.log else w.log + [TimedOut(h, w.now)])
              && v.pending == (if r.finished then w.pending[h := r.(due := None)]
                               else Without(w.pending[h := r.(due := None)][h := r.(due := None, finished := true)], h))
              && v.now == w.now && v.async == w.async && v.asked == w.asked
    {}

    lemma InTable(handle: Handle)
      requires Valid() && handle in pendingRequests
      ensures handle in asked && pendingRequests[handle].key == Some(handle) && pendingRequests[handle].maxRequestStatus == 2
      ensures pendingRequests[handle] in timer <==> pendingRequests[handle].due.Some?
      ensures forall h :: h in pendingRequests && h != handle ==> pendingRequests[h] != pendingRequests[handle]
      ensures handle in Requests() && Requests()[handle] == pendingRequests[handle].Abs()
    {}

    /** The branch of run for a request without. */
    method TimeOut(handle: Handle, request: PendingRequest)
      requires Valid() && handle in pendingRequests && request == pendingRequests[handle] && request.due == Some(now)
      requires request.finished || request.retryCount == 0
      modifies this, request
      ensures Valid() && State() == FireStep(old(State()), handle, Delivered)
    {
      hide Valid, Requests, FireStep;
      InTable(handle);
      TimeOutIs(State(), handle);
      var _ := CancelTask(request);
      if !request.finished {
        SetFinished(request);
        Remove(handle);
        log := log + [TimedOut(handle, now)];
      }
    }

    /** processPdu of a response: the listener is called, the request stays. */
    method ProcessResponse(handle: Handle)
      requires Valid()
      modifies this`log
      ensures Valid() && State() == Step(old(State()), Response(handle))
    {
      if handle in pendingRequests {
        log := log + [Responded(handle)];
      }
    }

    /** The status to wait for after a report, if it has the request sent again. */
    method StatusAfter(request: PendingRequest, cause: Cause) returns (resend: bool, status: nat)
      requires request.maxRequestStatus == 2
      ensures Resend(request.requestStatus, cause) == if resend then Some(status + 1) else None
    {
      resend, status := false, request.requestStatus;
      if request.requestStatus < request.maxRequestStatus {
        match request.requestStatus {
          case 0 =>
            if cause == UnknownEngineIds {
              resend := true;
            } else if cause == NotInTimeWindows {
              status := status + 1;
              resend := true;
            }
          case 1 =>
            if cause == NotInTimeWindows {
              resend := true;
            }
          case _ =>
        }
      }
    }

    /** request.requestStatus = status; request.key = resentHandle, which is the handle it has. */
    method SetStatus(handle: Handle, request: PendingRequest, status: nat)
      requires Valid() && handle in pendingRequests && pendingRequests[handle] == request
      modifies request`requestStatus, request`key
      ensures Valid() && Requests() == old(Requests())[handle := old(request.Abs()).(requestStatus := status)]
    {
      InTable(handle);
      assert forall h :: h in pendingRequests && pendingRequests[h] == request ==> h == handle;
      request.requestStatus := status;
      request.key := Some(handle);
    }

    /** processReport: send the request again, or take it away and call its listener if it was in time. */
    method ProcessReport(handle: Handle, cause: Cause, fate: Fate)
      requires Valid()
      modifies this, pendingRequests.Values
      ensures Valid() && State() == Step(old(State()), Report(handle, cause, fate))
    {
      hide Valid, Requests, Resend;
      InRequests(handle);
      if handle !in pendingRequests || cause == Illegal {
        return;
      }
      var request := pendingRequests[handle];
      InTable(handle);
      var resend, status := StatusAfter(request, cause);
      if resend {
        SetStatus(handle, request, status + 1);
        var _ := SendAgain(handle, fate);
      } else {
        var intime := CancelTask(request);
        Remove(handle);
        if intime {
          log := log + [Reported(handle)];
        }
      }
    }

    lemma InRequests(handle: Handle)
      ensures handle in Requests() <==> handle in pendingRequests
    {}

    /** cancel */
    method CancelRequest(key: Key)
      requires Valid()
      modifies this, pendingRequests.Values
      ensures Valid() && State() == Step(old(State()), Input.Cancel(key))
    {
      hide Valid, Requests;
      if key in asyncRequests {
        var pending := asyncRequests[key];
        asyncRequests := asyncRequests - {key};
        TakeAway(pending);
      }
    }

    /** Remove, set finished and cancel what is pending under a handle, if there is anything. */
    method TakeAway(handle: Handle)
      requires Valid()
      modifies this`pendingRequests, this`timer, pendingRequests.Values`finished, pendingRequests.Values`due
      ensures Valid() && Requests() == Without(old(Requests()), handle) && handle !in pendingRequests
    {
      hide Valid, Requests;
      InRequests(handle);
      if handle in pendingRequests {
        var request := pendingRequests[handle];
        InTable(handle);
        SetFinished(request);
        var _ := CancelTask(request);
        Remove(handle);
      }
    }

    lemma WakeIs(w: World, h: Handle)
      requires Enabled(w, Wake(h))
      ensures Step(w, Wake(h)) == w.(pending := Without(w.pending, h))
    {}

    lemma NotThere(handle: Handle, request: PendingRequest)
      requires Valid() && handle !in pendingRequests && request.key == Some(handle)
      ensures Absent(request)
    {}

    /** The end of a synchronous send, after its listener was called: the first request and the one that is there
        now are both finished and cancelled. */
    method WakeUp(handle: Handle, request: PendingRequest)
      requires Valid() && Enabled(State(), Wake(handle)) && request.key == Some(handle)
      modifies this, request, pendingRequests.Values
      ensures Valid() && State() == Step(old(State()), Wake(handle))
    {
      hide Valid, Requests, Step;
      ghost var w := State();
      WakeIs(w, handle);
      TakeAway(handle);
      NotThere(handle, request);
      SetFinished(request);
      var _ := CancelTask(request);
      assert State().pending == Without(w.pending, handle);
      assert State().now == w.now && State().async == w.async && State().asked == w.asked && State().log == w.log;
      assert State() == Step(w, Wake(handle));
    }
  }
}
