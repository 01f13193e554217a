// The admission protocol of MlInferenceQueue (apps/api/app/runtime/ml_inference_queue.py) under every interleaving of
// callers, executor threads, timeouts and shutdown. ParserWorkerPool (apps/api/app/runtime/parser_worker.py) is the same
// protocol without the counters: the machine with `counted` false.
module InferenceQueue {
  import opened Options

  // How the job ends: with a value, a TimeoutError, another Exception, or a BaseException that is no Exception.
  datatype Outcome = Value(value: int) | RaisedTimeout | RaisedError | RaisedFatal

  // What `execute` gives its caller; `Escaped` is a fatal exception that passes through all its handlers.
  datatype Status = Succeeded | TimedOut | Failed | LimitExceeded | Escaped

  // Where the caller's thread stands in `execute`, one constructor for each point between two atomic actions.
  datatype Phase =
    | Arrived          // at the non-blocking acquire
    | Refused          // no slot: about to count the refusal
    | Acquired         // about to count the submission
    | Recorded         // about to submit
    | SubmitFailed     // about to release the slot
    | SubmitReleased   // about to lower the reserved counter
    | SubmitSettled    // about to count the failure
    | Submitted        // about to register the done-callback
    | Waiting          // in future.result(timeout)
    | GaveUp           // in the timeout handler, about to cancel
    | CancelAsked      // about to count the timeout
    | GotValue         // about to count the success
    | GotFailure       // about to count the failure
    | Returned(status: Status)

  datatype Future = NoFuture | Pending | Running | Finished(outcome: Outcome) | Cancelled {
    predicate Done() {
      Finished? || Cancelled?
    }
  }

  // The done-callback: it releases the slot and only then lowers the reserved counter.
  datatype Callback = Unregistered | Registered | Released | Settled

  // `taken` and `given` remember how often the call took and returned a slot; `result` is the value collected, if any.
  datatype Call = Call(phase: Phase, future: Future, callback: Callback, taken: nat, given: nat, result: Option<int>)

  datatype State = State(counted: bool, capacity: nat, permits: nat, reserved: nat, submitted: nat, succeeded: nat,
                         timeouts: nat, failed: nat, limited: nat, shutdown: bool, calls: seq<Call>)

  function Initial(counted: bool, maxWorkers: nat, maxQueueSize: nat): State {
    State(counted, maxWorkers + maxQueueSize, maxWorkers + maxQueueSize, 0, 0, 0, 0, 0, 0, false, [])
  }

  // ---------------------------------------------------------------- steps

  datatype Action =
    | Acquire | RecordLimit | RecordSubmitted | Submit(accepted: bool)
    | ReleaseUnsubmitted | DecrementUnsubmitted | AddCallback
    | WaitExpires | Cancel | RecordTimeout | Collect | RecordSucceeded | RecordFailed
    | WorkerStarts | WorkerFinishes(outcome: Outcome) | ShutdownCancels
    | CallbackReleases | CallbackDecrements

  datatype Event = Arrive | ShutDown | Do(call: nat, action: Action)

  function ResultOf(outcome: Outcome): Option<int> {
    if outcome.Value? then Some(outcome.value) else None
  }

  predicate CanDo(s: State, c: Call, a: Action) {
    match a
    case Acquire => c.phase.Arrived?
    case RecordLimit => c.phase.Refused?
    case RecordSubmitted => c.phase.Acquired?
    case Submit(accepted) => c.phase.Recorded? && (accepted ==> !s.shutdown)
    case ReleaseUnsubmitted => c.phase.SubmitFailed?
    case DecrementUnsubmitted => c.phase.SubmitReleased?
    case AddCallback => c.phase.Submitted?
    case WaitExpires => c.phase.Waiting? && !c.future.Done()
    case Cancel => c.phase.GaveUp?
    case RecordTimeout => c.phase.CancelAsked?
    case Collect => c.phase.Waiting? && c.future.Done()
    case RecordSucceeded => c.phase.GotValue?
    case RecordFailed => c.phase.SubmitSettled? || c.phase.GotFailure?
    case WorkerStarts => c.future.Pending?
    case WorkerFinishes(_) => c.future.Running?
    case ShutdownCancels => s.shutdown && c.future.Pending?
    case CallbackReleases => c.callback.Registered? && c.future.Done()
    case CallbackDecrements => c.callback.Released?
  }

  predicate Enabled(s: State, e: Event) {
    match e
    case Arrive => true
    case ShutDown => true
    case Do(i, a) => i < |s.calls| && CanDo(s, s.calls[i], a)
  }

  // BoundedSemaphore.release raises rather than go above its initial value; max(0, n - 1) clamps the counter.
  function Release(s: State): State {
    if s.permits < s.capacity then s.(permits := s.permits + 1) else s
  }

  function Decrement(s: State): State {
    s.(reserved := if s.reserved == 0 then 0 else s.reserved - 1)
  }

  // The effect of an action on the call itself; without counters the counting points are skipped.
  function CallAfter(s: State, c: Call, a: Action): Call
    requires CanDo(s, c, a)
  {
    match a
    case Acquire =>
      if s.permits > 0 then c.(phase := if s.counted then Acquired else Recorded, taken := c.taken + 1)
      else c.(phase := if s.counted then Refused else Returned(LimitExceeded))
    case RecordLimit => c.(phase := Returned(LimitExceeded))
    case RecordSubmitted => c.(phase := Recorded)
    case Submit(accepted) => if accepted then c.(phase := Submitted, future := Pending) else c.(phase := SubmitFailed)
    case ReleaseUnsubmitted => c.(phase := if s.counted then SubmitReleased else Returned(Failed), given := c.given + 1)
    case DecrementUnsubmitted => c.(phase := SubmitSettled)
    case AddCallback => c.(phase := Waiting, callback := Registered)
    case WaitExpires => c.(phase := GaveUp)
    case Cancel =>
      c.(phase := if s.counted then CancelAsked else Returned(TimedOut),
         future := if c.future.Pending? then Cancelled else c.future)
    case RecordTimeout => c.(phase := Returned(TimedOut))
    case Collect =>
      if c.future.Cancelled? || c.future.outcome.RaisedError? then
        c.(phase := if s.counted then GotFailure else Returned(Failed))
      else if c.future.outcome.RaisedTimeout? then c.(phase := GaveUp)
      else if c.future.outcome.RaisedFatal? then c.(phase := Returned(Escaped))
      else c.(phase := if s.counted then GotValue else Returned(Succeeded), result := ResultOf(c.future.outcome))
    case RecordSucceeded => c.(phase := Returned(Succeeded))
    case RecordFailed => c.(phase := Returned(Failed))
    case WorkerStarts => c.(future := Running)
    case WorkerFinishes(outcome) => c.(future := Finished(outcome))
    case ShutdownCancels => c.(future := Cancelled)
    case CallbackReleases => c.(callback := if s.counted then Released else Settled, given := c.given + 1)
    case CallbackDecrements => c.(callback := Settled)
  }

  // The effect of an action on the shared semaphore and counters.
  function SharedAfter(s: State, a: Action): State {
    match a
    case Acquire => if s.permits > 0 then s.(permits := s.permits - 1) else s
    case RecordLimit => s.(limited := s.limited + 1)
    case RecordSubmitted => s.(reserved := s.reserved + 1, submitted := s.submitted + 1)
    case ReleaseUnsubmitted => Release(s)
    case DecrementUnsubmitted => Decrement(s)
    case RecordTimeout => s.(timeouts := s.timeouts + 1)
    case RecordSucceeded => s.(succeeded := s.succeeded + 1)
    case RecordFailed => s.(failed := s.failed + 1)
    case CallbackReleases => Release(s)
    case CallbackDecrements => Decrement(s)
    case _ => s
  }

  function Next(s: State, e: Event): State
    requires Enabled(s, e)
  {
    match e
    case Arrive => s.(calls := s.calls + [Call(Arrived, NoFuture, Unregistered, 0, 0, None)])
    case ShutDown => s.(shutdown := true)
    case Do(i, a) => SharedAfter(s, a).(calls := s.calls[i := CallAfter(s, s.calls[i], a)])
  }

  predicate StepAt(states: seq<State>, events: seq<Event>, i: nat)
    requires i < |events| && |states| == |events| + 1
  {
    Enabled(states[i], events[i]) && states[i + 1] == Next(states[i], events[i])
  }

  // A run is a list of states, each a step from the one before.
  ghost predicate Run(states: seq<State>, events: seq<Event>) {
    && |states| == |events| + 1
    && (exists counted, w: nat, q: nat :: w >= 1 && q >= 1 && states[0] == Initial(counted, w, q))
    && forall i :: 0 <= i < |events| ==> StepAt(states, events, i)
  }


  // ---------------------------------------------------------------- what a single call can look like

  predicate CallOk(c: Call) {
    && (c.future.NoFuture? ==> c.callback.Unregistered?)
    && (c.callback.Released? || c.callback.Settled? ==> c.future.Done())
    && match c.phase
       case Arrived => NeverHeld(c)
       case Refused => NeverHeld(c)
       case Acquired => c.future.NoFuture? && c.taken == 1 && c.given == 0
       case Recorded => c.future.NoFuture? && c.taken == 1 && c.given == 0
       case SubmitFailed => c.future.NoFuture? && c.taken == 1 && c.given == 0
       case SubmitReleased => GaveBackUnsubmitted(c)
       case SubmitSettled => GaveBackUnsubmitted(c)
       case Submitted => !c.future.NoFuture? && c.callback.Unregistered? && c.taken == 1 && c.given == 0
       case Waiting => InExecutor(c)
       case GaveUp => InExecutor(c)
       case CancelAsked => InExecutor(c) && NeverStartsLate(c)
       case GotValue => InExecutor(c) && HasValue(c)
       case GotFailure => InExecutor(c) && JobFailed(c.future)
       case Returned(status) =>
         match status
         case LimitExceeded => NeverHeld(c)
         case Failed => GaveBackUnsubmitted(c) || (InExecutor(c) && JobFailed(c.future))
         case TimedOut => InExecutor(c) && NeverStartsLate(c)
         case Succeeded => InExecutor(c) && HasValue(c)
         case Escaped => InExecutor(c) && c.future == Finished(RaisedFatal)
  }

  // The call's own job finished with the value that the call has.
  predicate HasValue(c: Call) {
    c.future.Finished? && c.future.outcome.Value? && c.result == Some(c.future.outcome.value)
  }

  predicate JobFailed(f: Future) {
    f.Cancelled? || f == Finished(RaisedError)
  }

  predicate NeverHeld(c: Call) {
    c.future.NoFuture? && c.taken == 0 && c.given == 0
  }

  predicate GaveBackUnsubmitted(c: Call) {
    c.future.NoFuture? && c.taken == 1 && c.given == 1
  }

  // From registration of the callback on, the slot is returned exactly when the callback has run its release.
  predicate InExecutor(c: Call) {
    && !c.future.NoFuture? && !c.callback.Unregistered?
    && c.taken == 1 && c.given == if c.callback.Registered? then 0 else 1
  }

  // A job that had not started when its caller gave up never starts.
  predicate NeverStartsLate(c: Call) {
    !c.future.Pending?
  }

  // ---------------------------------------------------------------- counting calls

  // How many calls hold a slot, are in the reserved counter, and so on.
  datatype Tally = Tally(holders: nat, reserved: nat, acquired: nat, releasing: nat, active: nat, submitted: nat,
                         succeeded: nat, timeouts: nat, failed: nat, limited: nat, escaped: nat, open: nat)

  const Zero := Tally(0, 0, 0, 0, 0, 0, 0, 0, 0, 0, 0, 0)

  function One(p: bool): nat {
    if p then 1 else 0
  }

  predicate Holds(c: Call) {
    c.taken > c.given
  }

  predicate EndedAs(c: Call, status: Status) {
    c.phase.Returned? && c.phase.status == status
  }

  predicate InReserved(c: Call) {
    c.phase.Recorded? || c.phase.SubmitFailed? || c.phase.SubmitReleased? || (!c.future.NoFuture? && !c.callback.Settled?)
  }

  function TallyOf(c: Call): Tally {
    Tally(
      One(Holds(c)),
      One(InReserved(c)),
      One(c.phase.Acquired?),
      One(c.phase.SubmitReleased? || c.callback.Released?),
      One(c.future.Pending? || c.future.Running?),
      One(!(c.phase.Arrived? || c.phase.Refused? || c.phase.Acquired? || EndedAs(c, LimitExceeded))),
      One(EndedAs(c, Succeeded)),
      One(EndedAs(c, TimedOut)),
      One(EndedAs(c, Failed)),
      One(EndedAs(c, LimitExceeded)),
      One(EndedAs(c, Escaped)),
      One(!c.phase.Returned?))
  }

  function Plus(a: Tally, b: Tally): Tally {
    Tally(a.holders + b.holders, a.reserved + b.reserved, a.acquired + b.acquired, a.releasing + b.releasing,
          a.active + b.active, a.submitted + b.submitted, a.succeeded + b.succeeded, a.timeouts + b.timeouts,
          a.failed + b.failed, a.limited + b.limited, a.escaped + b.escaped, a.open + b.open)
  }

  function Total(calls: seq<Call>): Tally {
    if calls == [] then Zero else Plus(Total(calls[..|calls| - 1]), TallyOf(calls[|calls| - 1]))
  }

  lemma {:induction false} PlusSwaps(a: Tally, b: Tally, c: Tally)
    ensures Plus(Plus(a, b), c) == Plus(Plus(a, c), b)
  {
  }

  // The others: the count of all calls but one, whatever that one becomes.
  lemma {:induction false} TotalSplits(calls: seq<Call>, i: nat, c: Call) returns (others: Tally)
    requires i < |calls|
    ensures Total(calls) == Plus(others, TallyOf(calls[i]))
    ensures Total(calls[i := c]) == Plus(others, TallyOf(c))
  {
    var n := |calls| - 1;
    if i == n {
      others := Total(calls[..n]);
      assert calls[i := c][..n] == calls[..n];
    } else {
      var fewer := TotalSplits(calls[..n], i, c);
      others := Plus(fewer, TallyOf(calls[n]));
      assert calls[i := c][..n] == calls[..n][i := c];
      PlusSwaps(fewer, TallyOf(calls[i]), TallyOf(calls[n]));
      PlusSwaps(fewer, TallyOf(c), TallyOf(calls[n]));
    }
  }

  lemma {:induction false} TotalAppend(calls: seq<Call>, c: Call)
    ensures Total(calls + [c]) == Plus(Total(calls), TallyOf(c))
  {
    assert (calls + [c])[..|calls|] == calls;
  }

  // ---------------------------------------------------------------- the invariant

  // Free permits and holders share the capacity, and every counter counts the calls it is meant to count.
  predicate Balanced(s: State, t: Tally) {
    && s.permits + t.holders == s.capacity
    && (s.counted ==>
          && s.reserved == t.reserved && s.submitted == t.submitted && s.succeeded == t.succeeded
          && s.timeouts == t.timeouts && s.failed == t.failed && s.limited == t.limited)
  }

  predicate AllOk(calls: seq<Call>) {
    forall i :: 0 <= i < |calls| ==> CallOk(calls[i])
  }

  predicate Inv(s: State) {
    s.capacity >= 2 && AllOk(s.calls) && Balanced(s, Total(s.calls))
  }

  lemma {:induction false} CallKept(s: State, c: Call, a: Action)
    requires CallOk(c) && CanDo(s, c, a)
    ensures CallOk(CallAfter(s, c, a))
  {
  }

  predicate IsRelease(a: Action) {
    a.ReleaseUnsubmitted? || a.CallbackReleases?
  }

  predicate IsDecrement(a: Action) {
    a.DecrementUnsubmitted? || a.CallbackDecrements?
  }

  predicate IsAdmission(a: Action) {
    a.Acquire? || a.RecordLimit? || a.RecordSubmitted? || a.Submit?
  }

  lemma {:induction false} AdmissionBalanced(s: State, c: Call, a: Action, others: Tally)
    requires CallOk(c) && CanDo(s, c, a) && Balanced(s, Plus(others, TallyOf(c))) && IsAdmission(a)
    ensures Balanced(SharedAfter(s, a), Plus(others, TallyOf(CallAfter(s, c, a))))
  {
  }

  lemma {:induction false} ReleaseBalanced(s: State, c: Call, a: Action, others: Tally)
    requires CallOk(c) && CanDo(s, c, a) && Balanced(s, Plus(others, TallyOf(c))) && (IsRelease(a) || IsDecrement(a))
    ensures Balanced(SharedAfter(s, a), Plus(others, TallyOf(CallAfter(s, c, a))))
  {
  }

  lemma {:induction false} RestBalanced(s: State, c: Call, a: Action, others: Tally)
    requires CallOk(c) && CanDo(s, c, a) && Balanced(s, Plus(others, TallyOf(c)))
    requires !IsAdmission(a) && !IsRelease(a) && !IsDecrement(a)
    ensures Balanced(SharedAfter(s, a), Plus(others, TallyOf(CallAfter(s, c, a))))
  {
  }

  lemma {:induction false} BalanceKept(s: State, c: Call, a: Action, others: Tally)
    requires CallOk(c) && CanDo(s, c, a) && Balanced(s, Plus(others, TallyOf(c)))
    ensures Balanced(SharedAfter(s, a), Plus(others, TallyOf(CallAfter(s, c, a))))
  {
    if IsAdmission(a) {
      AdmissionBalanced(s, c, a, others);
    } else if IsRelease(a) || IsDecrement(a) {
      ReleaseBalanced(s, c, a, others);
    } else {
      RestBalanced(s, c, a, others);
    }
  }

  // A call about to release holds a slot, and one about to decrement is in the counter.
  lemma {:induction false} ReleaseHasRoom(s: State, c: Call, a: Action, others: Tally)
    requires CallOk(c) && CanDo(s, c, a) && Balanced(s, Plus(others, TallyOf(c)))
    ensures IsRelease(a) ==> s.permits < s.capacity
    ensures IsDecrement(a) && s.counted ==> s.reserved >= 1
  {
  }

  lemma {:induction false} SharedLeavesCalls(s: State, a: Action, calls: seq<Call>)
    ensures var t := SharedAfter(s, a);
            t.capacity == s.capacity && t.counted == s.counted && forall n :: Balanced(t.(calls := calls), n) <==> Balanced(t, n)
  {
  }

  lemma {:induction false} StepKeeps(s: State, e: Event)
    requires Inv(s) && Enabled(s, e)
    ensures Inv(Next(s, e))
  {
    match e
    case Arrive => TotalAppend(s.calls, Call(Arrived, NoFuture, Unregistered, 0, 0, None));
    case ShutDown =>
    case Do(i, a) =>
      var c := CallAfter(s, s.calls[i], a);
      var others := TotalSplits(s.calls, i, c);
      CallKept(s, s.calls[i], a);
      BalanceKept(s, s.calls[i], a, others);
      SharedLeavesCalls(s, a, s.calls[i := c]);
  }

  lemma {:induction false} RunKeeps(states: seq<State>, events: seq<Event>, i: nat)
    requires Run(states, events) && i < |states|
    ensures Inv(states[i])
  {
    if i > 0 {
      RunKeeps(states, events, i - 1);
      assert StepAt(states, events, i - 1);
      StepKeeps(states[i - 1], events[i - 1]);
    }
  }

  // ---------------------------------------------------------------- what every run keeps

  // What holds of the tally of n calls because it holds of each.
  predicate Bounded(t: Tally, n: nat) {
    && t.active <= t.holders
    && t.reserved + t.acquired == t.holders + t.releasing
    && n == t.limited + t.succeeded + t.timeouts + t.failed + t.escaped + t.open
  }

  lemma {:induction false} CallBounded(c: Call)
    requires CallOk(c)
    ensures Bounded(TallyOf(c), 1)
  {
    StatusOne(c);
    match c.callback
    case Unregistered =>
    case Registered =>
    case Released =>
    case Settled =>
  }

  // A call counts in one of the totals or is still open.
  lemma {:induction false} StatusOne(c: Call)
    ensures var t := TallyOf(c); t.limited + t.succeeded + t.timeouts + t.failed + t.escaped + t.open == 1
  {
    if c.phase.Returned? {
      match c.phase.status
      case Succeeded =>
      case TimedOut =>
      case Failed =>
      case LimitExceeded =>
      case Escaped =>
    }
  }

  lemma {:induction false} BoundedPlus(a: Tally, m: nat, b: Tally, n: nat)
    requires Bounded(a, m) && Bounded(b, n)
    ensures Bounded(Plus(a, b), m + n)
  {
  }

  lemma {:induction false} TotalBounded(calls: seq<Call>)
    requires AllOk(calls)
    ensures Bounded(Total(calls), |calls|)
  {
    if calls != [] {
      var n := |calls| - 1;
      TotalBounded(calls[..n]);
      CallBounded(calls[n]);
      BoundedPlus(Total(calls[..n]), n, TallyOf(calls[n]), 1);
    }
  }

  // In every interleaving free permits and slot holders add up to the capacity; jobs pending or running hold slots,
  // also those whose callers have given up, so there are never more of them than the capacity.
  lemma {:induction false} SlotsConserved(states: seq<State>, events: seq<Event>, i: nat)
    requires Run(states, events) && i < |states|
    ensures states[i].permits + Total(states[i].calls).holders == states[i].capacity
    ensures Total(states[i].calls).active <= states[i].capacity
  {
    RunKeeps(states, events, i);
    TotalBounded(states[i].calls);
  }

  // The semaphore is never released above its bound and the clamp of the counter never acts.
  lemma {:induction false} ReleaseIsMatched(states: seq<State>, events: seq<Event>, i: nat)
    requires Run(states, events) && i < |events| && events[i].Do?
    ensures IsRelease(events[i].action) ==> states[i].permits < states[i].capacity
    ensures IsDecrement(events[i].action) && states[i].counted ==> states[i].reserved >= 1
  {
    RunKeeps(states, events, i);
    assert StepAt(states, events, i);
    var c := states[i].calls[events[i].call];
    var others := TotalSplits(states[i].calls, events[i].call, c);
    ReleaseHasRoom(states[i], c, events[i].action, others);
  }

  // What a snapshot shows as in flight or queued: the holders, plus the slots released but not yet taken off the
  // counter, minus the slots acquired but not yet counted. It is above the capacity exactly when more releases are
  // under way than there are free permits and uncounted slots.
  lemma {:induction false} SnapshotExact(states: seq<State>, events: seq<Event>, i: nat)
    requires Run(states, events) && i < |states| && states[i].counted
    ensures var t := Total(states[i].calls);
            states[i].reserved + t.acquired == t.holders + t.releasing
            && (states[i].reserved > states[i].capacity <==> t.releasing > states[i].permits + t.acquired)
  {
    RunKeeps(states, events, i);
    TotalBounded(states[i].calls);
  }

  // Each call takes at most one slot and returns it at most once. One that has returned to its caller and still holds a
  // slot has a job that is still running, or a callback that can release right now; and a job that had not started
  // when its caller gave up never starts.
  lemma {:induction false} SlotReturnedOnce(states: seq<State>, events: seq<Event>, i: nat, k: nat)
    requires Run(states, events) && i < |states| && k < |states[i].calls|
    ensures var c := states[i].calls[k];
            && c.given <= c.taken <= 1
            && (c.phase.Returned? && Holds(c) ==> c.future.Running? || CanDo(states[i], c, CallbackReleases))
            && (c.phase == Returned(TimedOut) ==> !c.future.Pending?)
            && (c.phase == Returned(LimitExceeded) <==> c.phase.Returned? && c.taken == 0)
            && (c.phase == Returned(Succeeded) ==> HasValue(c))
  {
    RunKeeps(states, events, i);
    SlotFacts(states[i], states[i].calls[k]);
  }

  lemma {:induction false} SlotFacts(s: State, c: Call)
    requires CallOk(c)
    ensures c.given <= c.taken <= 1
    ensures c.phase.Returned? && Holds(c) ==> c.future.Running? || CanDo(s, c, CallbackReleases)
    ensures c.phase == Returned(TimedOut) ==> !c.future.Pending?
    ensures c.phase == Returned(LimitExceeded) <==> c.phase.Returned? && c.taken == 0
    ensures c.phase == Returned(Succeeded) ==> HasValue(c)
  {
  }

  // ---------------------------------------------------------------- which answer a call gets

  // Among the first i events, the wait of call k has expired.
  ghost predicate WaitExpired(events: seq<Event>, k: nat, i: nat)
    requires i <= |events|
  {
    exists j :: 0 <= j < i && events[j] == Do(k, WaitExpires)
  }

  lemma {:induction false} ExpiredNext(events: seq<Event>, k: nat, i: nat)
    requires i < |events|
    ensures WaitExpired(events, k, i + 1) <==> WaitExpired(events, k, i) || events[i] == Do(k, WaitExpires)
  {
  }

  predicate OnTimeoutPath(phase: Phase) {
    phase.GaveUp? || phase.CancelAsked? || phase == Returned(TimedOut)
  }

  // On the way to TimedOut exactly because the wait has expired or the job itself raised a timeout; only a call still at
  // its wait may not have noticed the latter yet.
  predicate TimeoutOk(c: Call, expired: bool) {
    && (OnTimeoutPath(c.phase) ==> expired || c.future == Finished(RaisedTimeout))
    && (expired ==> OnTimeoutPath(c.phase))
  }

  lemma {:induction false} CallTimeoutKept(s: State, c: Call, a: Action, expired: bool)
    requires CanDo(s, c, a) && CallOk(c) && TimeoutOk(c, expired)
    ensures TimeoutOk(CallAfter(s, c, a), expired || a == WaitExpires)
  {
  }

  // One event, seen by call k: its own action, or nothing.
  lemma {:induction false} CallMoves(s: State, e: Event, k: nat)
    requires Enabled(s, e) && k < |Next(s, e).calls|
    ensures k == |s.calls| ==> e == Arrive && Next(s, e).calls[k] == Call(Arrived, NoFuture, Unregistered, 0, 0, None)
    ensures k < |s.calls| ==>
      Next(s, e).calls[k] == if e.Do? && e.call == k then CallAfter(s, s.calls[k], e.action) else s.calls[k]
    ensures k <= |s.calls|
  {
  }

  // Nothing happens to a call before it arrives.
  lemma {:induction false} NotExpiredYet(states: seq<State>, events: seq<Event>, i: nat, k: nat)
    requires Run(states, events) && i < |states| && k >= |states[i].calls|
    ensures !WaitExpired(events, k, i)
  {
    if i > 0 {
      assert StepAt(states, events, i - 1);
      NotExpiredYet(states, events, i - 1, k);
      ExpiredNext(events, k, i - 1);
    }
  }

  lemma {:induction false} TimeoutKept(states: seq<State>, events: seq<Event>, i: nat, k: nat)
    requires Run(states, events) && i < |states| && k < |states[i].calls|
    ensures TimeoutOk(states[i].calls[k], WaitExpired(events, k, i))
  {
    if i > 0 {
      var s, e := states[i - 1], events[i - 1];
      assert StepAt(states, events, i - 1);
      CallMoves(s, e, k);
      ExpiredNext(events, k, i - 1);
      if k < |s.calls| {
        TimeoutKept(states, events, i - 1, k);
        RunKeeps(states, events, i - 1);
        if e.Do? && e.call == k { CallTimeoutKept(s, s.calls[k], e.action, WaitExpired(events, k, i - 1)); }
      } else {
        NotExpiredYet(states, events, i - 1, k);
      }
    }
  }

  // In every run the answer is TimedOut exactly when the call's wait expired or its job raised a timeout. Otherwise it is what
  // became of the job: Succeeded with its value, Failed when it raised an error, was cancelled or could not be
  // submitted, and the fatal exception passes through.
  lemma {:induction false} AnswerExactly(states: seq<State>, events: seq<Event>, i: nat, k: nat)
    requires Run(states, events) && i < |states| && k < |states[i].calls| && states[i].calls[k].phase.Returned?
    ensures var c, expired := states[i].calls[k], WaitExpired(events, k, i);
            && (c.phase.status == TimedOut <==> expired || c.future == Finished(RaisedTimeout))
            && (c.phase.status == LimitExceeded <==> c.taken == 0)
            && (!expired ==>
                  && (c.phase.status == Succeeded <==> c.future.Finished? && c.future.outcome.Value?)
                  && (c.phase.status == Failed
                      <==> c.future == Finished(RaisedError) || c.future.Cancelled? || (c.future.NoFuture? && c.taken == 1))
                  && (c.phase.status == Escaped <==> c.future == Finished(RaisedFatal)))
            && (c.phase.status == Succeeded ==> c.result == ResultOf(c.future.outcome))
  {
    RunKeeps(states, events, i);
    TimeoutKept(states, events, i, k);
    AnswerOf(states[i].calls[k], WaitExpired(events, k, i));
  }

  lemma {:induction false} AnswerOf(c: Call, expired: bool)
    requires CallOk(c) && TimeoutOk(c, expired) && c.phase.Returned?
    ensures c.phase.status == TimedOut <==> expired || c.future == Finished(RaisedTimeout)
    ensures c.phase.status == LimitExceeded <==> c.taken == 0
    ensures !expired ==>
      && (c.phase.status == Succeeded <==> c.future.Finished? && c.future.outcome.Value?)
      && (c.phase.status == Failed
          <==> c.future == Finished(RaisedError) || c.future.Cancelled? || (c.future.NoFuture? && c.taken == 1))
      && (c.phase.status == Escaped <==> c.future == Finished(RaisedFatal))
    ensures c.phase.status == Succeeded ==> c.future.Finished? && c.result == ResultOf(c.future.outcome)
  {
  }

  // A call is refused only when it found every slot held by another.
  lemma {:induction false} RefusedWhenFull(states: seq<State>, events: seq<Event>, i: nat, k: nat) returns (j: nat)
    requires Run(states, events) && i < |states| && k < |states[i].calls|
    requires states[i].calls[k].phase.Refused? || states[i].calls[k].phase == Returned(LimitExceeded)
    ensures j < i && events[j] == Do(k, Acquire) && Total(states[j].calls).holders == states[j].capacity
  {
    var s, e := states[i - 1], events[i - 1];
    assert StepAt(states, events, i - 1);
    CallMoves(s, e, k);
    RunKeeps(states, events, i - 1);
    if e == Do(k, Acquire) {
      j := i - 1;
    } else {
      j := RefusedWhenFull(states, events, i - 1, k);
    }
  }

  // ... and admitted whenever it found one free.
  lemma {:induction false} AdmittedWhenFree(states: seq<State>, events: seq<Event>, i: nat, k: nat)
    requires Run(states, events) && i < |events| && events[i] == Do(k, Acquire)
    ensures k < |states[i + 1].calls| && (states[i + 1].calls[k].taken == 1 <==> Total(states[i].calls).holders < states[i].capacity)
  {
    RunKeeps(states, events, i);
    assert StepAt(states, events, i);
    assert CallOk(states[i].calls[k]);
  }

  function CountEnded(calls: seq<Call>, status: Status): nat {
    if calls == [] then 0 else CountEnded(calls[..|calls| - 1], status) + if calls[|calls| - 1].phase == Returned(status) then 1 else 0
  }

  lemma {:induction false} TallyCounts(calls: seq<Call>)
    ensures Total(calls).succeeded == CountEnded(calls, Succeeded) && Total(calls).timeouts == CountEnded(calls, TimedOut)
    ensures Total(calls).failed == CountEnded(calls, Failed) && Total(calls).limited == CountEnded(calls, LimitExceeded)
  {
    if calls != [] { TallyCounts(calls[..|calls| - 1]); }
  }

  // Each total of a snapshot counts exactly the calls that got its answer.
  lemma {:induction false} TotalsCountAnswers(states: seq<State>, events: seq<Event>, i: nat)
    requires Run(states, events) && i < |states| && states[i].counted
    ensures var s := states[i];
            && s.succeeded == CountEnded(s.calls, Succeeded) && s.timeouts == CountEnded(s.calls, TimedOut)
            && s.failed == CountEnded(s.calls, Failed) && s.limited == CountEnded(s.calls, LimitExceeded)
  {
    RunKeeps(states, events, i);
    TallyCounts(states[i].calls);
  }

  // ---------------------------------------------------------------- quiescence

  // Nothing left to do for any call, in any thread.
  predicate AllSettled(calls: seq<Call>) {
    forall k :: 0 <= k < |calls| ==> SettledCall(calls[k])
  }

  predicate SettledCall(c: Call) {
    c.phase.Returned? && (c.future.NoFuture? || c.callback.Settled?)
  }

  predicate Rested(t: Tally, n: nat) {
    && t.holders == 0 && t.reserved == 0
    && t.submitted == t.succeeded + t.timeouts + t.failed + t.escaped
    && n == t.submitted + t.limited
  }

  lemma {:induction false} CallRested(c: Call)
    requires CallOk(c) && SettledCall(c)
    ensures Rested(TallyOf(c), 1)
  {
    StatusOne(c);
  }

  lemma {:induction false} RestedPlus(a: Tally, m: nat, b: Tally, n: nat)
    requires Rested(a, m) && Rested(b, n)
    ensures Rested(Plus(a, b), m + n)
  {
  }

  lemma {:induction false} TotalRested(calls: seq<Call>)
    requires AllOk(calls) && AllSettled(calls)
    ensures Rested(Total(calls), |calls|)
  {
    if calls != [] {
      var n := |calls| - 1;
      TotalRested(calls[..n]);
      CallRested(calls[n]);
      RestedPlus(Total(calls[..n]), n, TallyOf(calls[n]), 1);
    }
  }

  // At quiescence every slot is back, nothing is reserved, and each submission was counted as exactly one of success,
  // timeout and failure, unless a fatal exception escaped with it.
  lemma {:induction false} QuiescentCounts(states: seq<State>, events: seq<Event>, i: nat)
    requires Run(states, events) && i < |states| && AllSettled(states[i].calls)
    ensures states[i].permits == states[i].capacity
    ensures var s, t := states[i], Total(states[i].calls);
            s.counted ==>
              && s.reserved == 0
              && s.submitted == s.succeeded + s.timeouts + s.failed + t.escaped
              && |s.calls| == s.submitted + s.limited
              && (s.submitted == s.succeeded + s.timeouts + s.failed
                  <==> FatalAfterTimeout(s.calls))
  {
    RunKeeps(states, events, i);
    TotalRested(states[i].calls);
    NoneEscaped(states[i].calls);
  }

  // Every job that ended with a fatal exception did so when its caller had already given up on it.
  predicate FatalAfterTimeout(calls: seq<Call>) {
    forall k :: 0 <= k < |calls| ==> calls[k].future == Finished(RaisedFatal) ==> calls[k].phase == Returned(TimedOut)
  }

  lemma {:induction false} EscapedIsFatal(c: Call)
    requires CallOk(c) && SettledCall(c)
    ensures c.phase == Returned(Escaped) <==> c.future == Finished(RaisedFatal) && c.phase != Returned(TimedOut)
  {
  }

  lemma {:induction false} FatalLast(calls: seq<Call>)
    requires calls != []
    ensures FatalAfterTimeout(calls)
            <==> FatalAfterTimeout(calls[..|calls| - 1]) && FatalAfterTimeout([calls[|calls| - 1]])
  {
    var init, last := calls[..|calls| - 1], calls[|calls| - 1];
    assert calls == init + [last];
    assert [last][0] == last && calls[|init|] == last;
    assert forall k :: 0 <= k < |init| ==> calls[k] == init[k];
  }

  lemma {:induction false} NoneEscaped(calls: seq<Call>)
    requires AllOk(calls) && AllSettled(calls)
    ensures Total(calls).escaped == 0 <==> FatalAfterTimeout(calls)
  {
    if calls != [] {
      var init, last := calls[..|calls| - 1], calls[|calls| - 1];
      NoneEscaped(init);
      FatalLast(calls);
      EscapedIsFatal(last);
      assert Total(calls).escaped == Total(init).escaped + One(EndedAs(last, Escaped));
      assert [last][0] == last;
    }
  }

  // A run that reaches it: the job of the only call ends with a fatal exception, everything is settled, and the call is in
  // none of the totals.
  lemma {:induction false} FatalIsUncounted() returns (states: seq<State>, events: seq<Event>)
    ensures Run(states, events)
    ensures var s := states[|states| - 1];
            && s.counted && AllSettled(s.calls)
            && s.submitted == 1 && s.succeeded == s.timeouts == s.failed == 0
  {
    var s0 := Initial(true, 1, 1);
    assert s0 == Initial(true, 1, 1) && Run([s0], []);
    states, events := Admit([s0], []);
    states, events := FinishFirst(states, events, RaisedFatal);
    states, events := Extend(states, events, Do(0, CallbackDecrements));
    states, events := Extend(states, events, Do(0, Collect));
  }

  // ---------------------------------------------------------------- the counter can pass the capacity

  lemma {:induction false} Extend(states: seq<State>, events: seq<Event>, e: Event) returns (more: seq<State>, longer: seq<Event>)
    requires Run(states, events) && Enabled(states[|states| - 1], e)
    ensures Run(more, longer) && |more| == |states| + 1 && more[|states|] == Next(states[|states| - 1], e)
    ensures longer == events + [e]
  {
    more, longer := states + [Next(states[|states| - 1], e)], events + [e];
    forall i | 0 <= i < |longer| ensures StepAt(more, longer, i) {
      if i < |events| { assert StepAt(states, events, i); }
    }
  }

  // A queue with one worker and one waiting place, and three calls: the snapshot shows three in flight.
  lemma {:induction false} SnapshotCanExceedCapacity() returns (states: seq<State>, events: seq<Event>)
    ensures Run(states, events)
    ensures var s := states[|states| - 1]; s.counted && s.capacity == 2 && s.reserved == 3
  {
    var s0 := Initial(true, 1, 1);
    assert s0 == Initial(true, 1, 1) && Run([s0], []);
    states, events := Admit([s0], []);
    states, events := FinishFirst(states, events, Value(7));
    states, events := Admit(states, events);
    states, events := Admit(states, events);
  }

  // A call arrives, gets a slot and counts itself.
  lemma {:induction false} Admit(states: seq<State>, events: seq<Event>) returns (more: seq<State>, longer: seq<Event>)
    requires Run(states, events) && states[|states| - 1].permits > 0 && states[|states| - 1].counted
    ensures Run(more, longer)
    ensures var s, t := states[|states| - 1], more[|more| - 1];
            t == s.(permits := s.permits - 1, reserved := s.reserved + 1, submitted := s.submitted + 1,
                                         calls := s.calls + [Call(Recorded, NoFuture, Unregistered, 1, 0, None)])
  {
    var i := |states[|states| - 1].calls|;
    more, longer := Extend(states, events, Arrive);
    more, longer := Extend(more, longer, Do(i, Acquire));
    more, longer := Extend(more, longer, Do(i, RecordSubmitted));
  }

  // The first call's job is submitted, runs and ends, and its callback has released the slot.
  lemma {:induction false} FinishFirst(states: seq<State>, events: seq<Event>, outcome: Outcome) returns (more: seq<State>, longer: seq<Event>)
    requires Run(states, events)
    requires var s := states[|states| - 1];
             s.calls == [Call(Recorded, NoFuture, Unregistered, 1, 0, None)] && !s.shutdown && s.counted && s.permits < s.capacity
    ensures Run(more, longer)
    ensures var s, t := states[|states| - 1], more[|more| - 1];
            t == s.(permits := s.permits + 1, calls := [Call(Waiting, Finished(outcome), Released, 1, 1, None)])
  {
    more, longer := Extend(states, events, Do(0, Submit(true)));
    more, longer := Extend(more, longer, Do(0, AddCallback));
    more, longer := Extend(more, longer, Do(0, WorkerStarts));
    more, longer := Extend(more, longer, Do(0, WorkerFinishes(outcome)));
    more, longer := Extend(more, longer, Do(0, CallbackReleases));
  }

  // ---------------------------------------------------------------- the queue object

  // What the executor does with a job that is not interleaved with other calls.
  datatype Script = SubmitRaises | NotStarted | StillRunning | Ends(outcome: Outcome)

  function StatusOf(script: Script): Status {
    match script
    case SubmitRaises => Failed
    case NotStarted => TimedOut
    case StillRunning => TimedOut
    case Ends(Value(_)) => Succeeded
    case Ends(RaisedTimeout) => TimedOut
    case Ends(RaisedError) => Failed
    case Ends(RaisedFatal) => Escaped
  }

  ghost predicate OnlyCall(before: seq<Call>, after: seq<Call>, i: nat, c: Call) {
    |after| == |before| && i < |after| && after[i] == c && forall k :: 0 <= k < |after| && k != i ==> after[k] == before[k]
  }

  function FinalCall(script: Script): Call {
    match script
    case SubmitRaises => Call(Returned(Failed), NoFuture, Unregistered, 1, 1, None)
    case NotStarted => Call(Returned(TimedOut), Cancelled, Settled, 1, 1, None)
    case StillRunning => Call(Returned(TimedOut), Running, Registered, 1, 0, None)
    case Ends(outcome) => Call(Returned(StatusOf(script)), Finished(outcome), Settled, 1, 1, ResultOf(outcome))
  }

  // An admitted call, once over, has moved one total, and keeps its slot only while its job outlives the timeout.
  function AfterCall(s: State, script: Script): State {
    var status, kept := StatusOf(script), One(script.StillRunning?);
    if s.permits == 0 then
      s.(limited := s.limited + 1, calls := s.calls + [Call(Returned(LimitExceeded), NoFuture, Unregistered, 0, 0, None)])
    else
      s.(permits := s.permits - kept, reserved := s.reserved + kept, submitted := s.submitted + 1,
         succeeded := s.succeeded + One(status.Succeeded?), timeouts := s.timeouts + One(status.TimedOut?),
         failed := s.failed + One(status.Failed?), calls := s.calls + [FinalCall(script)])
  }

  lemma {:induction false} FinalTally(script: Script)
    ensures CallOk(FinalCall(script))
    ensures var status, kept := StatusOf(script), One(script.StillRunning?);
            TallyOf(FinalCall(script))
            == Tally(kept, kept, 0, 0, kept, 1, One(status.Succeeded?), One(status.TimedOut?), One(status.Failed?), 0,
                     One(status.Escaped?), 0)
  {
    if script.Ends? { assert StatusOf(script) != LimitExceeded; }
  }

  lemma {:induction false} AppendOk(calls: seq<Call>, c: Call)
    requires AllOk(calls) && CallOk(c)
    ensures AllOk(calls + [c])
  {
  }

  lemma {:induction false} CallBalanced(s: State, t: Tally, script: Script)
    requires Balanced(s, t) && s.counted
    ensures s.permits > 0 ==> Balanced(AfterCall(s, script), Plus(t, TallyOf(FinalCall(script))))
    ensures s.permits == 0 ==> Balanced(AfterCall(s, script), Plus(t, Zero.(limited := 1)))
  {
    FinalTally(script);
  }

  // An uninterrupted call keeps the invariant of the interleaved ones.
  lemma {:induction false} AfterCallKeeps(s: State, script: Script)
    requires Inv(s) && s.counted
    ensures Inv(AfterCall(s, script))
  {
    var refused := Call(Returned(LimitExceeded), NoFuture, Unregistered, 0, 0, None);
    assert TallyOf(refused) == Zero.(limited := 1) && CallOk(refused);
    FinalTally(script);
    CallBalanced(s, Total(s.calls), script);
    if s.permits == 0 {
      TotalAppend(s.calls, refused);
      AppendOk(s.calls, refused);
    } else {
      TotalAppend(s.calls, FinalCall(script));
      AppendOk(s.calls, FinalCall(script));
    }
  }

  // An admitted call moved the totals by these numbers and refused nobody.
  predicate Moved(s: State, t: State, succeeded: nat, timeouts: nat, failed: nat) {
    && t.submitted == s.submitted + 1 && t.limited == s.limited
    && t.succeeded == s.succeeded + succeeded && t.timeouts == s.timeouts + timeouts && t.failed == s.failed + failed
  }

  // The answer and the totals, script by script.
  predicate Answered(s: State, script: Script, t: State, status: Status, value: Option<int>) {
    if s.permits == 0 then
      && status == LimitExceeded && value == None && t.(calls := s.calls) == s.(limited := s.limited + 1)
    else
      && t.permits == (if script.StillRunning? then s.permits - 1 else s.permits)
      && t.reserved == (if script.StillRunning? then s.reserved + 1 else s.reserved)
      && match script
         case SubmitRaises => status == Failed && value == None && Moved(s, t, 0, 0, 1)
         case NotStarted => status == TimedOut && value == None && Moved(s, t, 0, 1, 0)
         case StillRunning => status == TimedOut && value == None && Moved(s, t, 0, 1, 0)
         case Ends(Value(v)) => status == Succeeded && value == Some(v) && Moved(s, t, 1, 0, 0)
         case Ends(RaisedTimeout) => status == TimedOut && value == None && Moved(s, t, 0, 1, 0)
         case Ends(RaisedError) => status == Failed && value == None && Moved(s, t, 0, 0, 1)
         case Ends(RaisedFatal) => status == Escaped && value == None && Moved(s, t, 0, 0, 0)
  }

  class MlInferenceQueue {
    const capacityLimit: nat
    var permits: nat
    var reservedCount: nat
    var submittedTotal: nat
    var succeededTotal: nat
    var timeoutTotal: nat
    var failedTotal: nat
    var limitExceededTotal: nat
    ghost var closed: bool
    ghost var calls: seq<Call>

    ghost function View(): State
      reads this
    {
      State(true, capacityLimit, permits, reservedCount, submittedTotal, succeededTotal, timeoutTotal, failedTotal,
            limitExceededTotal, closed, calls)
    }

    constructor (maxWorkers: nat, maxQueueSize: nat)
      requires maxWorkers >= 1 && maxQueueSize >= 1
      ensures View() == Initial(true, maxWorkers, maxQueueSize) && Inv(View())
    {
      capacityLimit, permits := maxWorkers + maxQueueSize, maxWorkers + maxQueueSize;
      reservedCount, submittedTotal, succeededTotal, timeoutTotal, failedTotal, limitExceededTotal := 0, 0, 0, 0, 0, 0;
      closed, calls := false, [];
    }

    // An action of the caller, the executor or shutdown that touches no shared field.
    ghost method Note(i: nat, a: Action)
      requires Enabled(View(), Do(i, a)) && SharedAfter(View(), a) == View()
      modifies this`calls
      ensures View() == Next(old(View()), Do(i, a))
    {
      calls := calls[i := CallAfter(View(), calls[i], a)];
    }

    ghost method Begin() returns (i: nat)
      modifies this`calls
      ensures View() == Next(old(View()), Arrive) && i == |old(calls)|
    {
      i := |calls|;
      calls := calls + [Call(Arrived, NoFuture, Unregistered, 0, 0, None)];
    }

    method TryAcquire(ghost i: nat) returns (ok: bool)
      requires Enabled(View(), Do(i, Acquire))
      modifies this`permits, this`calls
      ensures View() == Next(old(View()), Do(i, Acquire)) && ok == (old(permits) > 0)
    {
      calls := calls[i := CallAfter(View(), calls[i], Acquire)];
      ok := permits > 0;
      if ok { permits := permits - 1; }
    }

    method RecordSubmitted(ghost i: nat)
      requires Enabled(View(), Do(i, Action.RecordSubmitted))
      modifies this`reservedCount, this`submittedTotal, this`calls
      ensures View() == Next(old(View()), Do(i, Action.RecordSubmitted))
    {
      calls := calls[i := CallAfter(View(), calls[i], Action.RecordSubmitted)];
      reservedCount, submittedTotal := reservedCount + 1, submittedTotal + 1;
    }

    // The first half of _release_capacity. Above its bound the semaphore would raise.
    method ReleaseSlot(ghost i: nat, ghost a: Action)
      requires Enabled(View(), Do(i, a)) && IsRelease(a) && permits < capacityLimit
      modifies this`permits, this`calls
      ensures View() == Next(old(View()), Do(i, a))
    {
      calls := calls[i := CallAfter(View(), calls[i], a)];
      permits := permits + 1;
    }

    // The second half, under the statistics lock.
    method DecrementReserved(ghost i: nat, ghost a: Action)
      requires Enabled(View(), Do(i, a)) && IsDecrement(a)
      modifies this`reservedCount, this`calls
      ensures View() == Next(old(View()), Do(i, a))
    {
      calls := calls[i := CallAfter(View(), calls[i], a)];
      reservedCount := if reservedCount as int - 1 > 0 then reservedCount - 1 else 0;
    }

    method RecordSucceeded(ghost i: nat)
      requires Enabled(View(), Do(i, Action.RecordSucceeded))
      modifies this`succeededTotal, this`calls
      ensures View() == Next(old(View()), Do(i, Action.RecordSucceeded))
    {
      calls := calls[i := CallAfter(View(), calls[i], Action.RecordSucceeded)];
      succeededTotal := succeededTotal + 1;
    }

    method RecordTimeout(ghost i: nat)
      requires Enabled(View(), Do(i, Action.RecordTimeout))
      modifies this`timeoutTotal, this`calls
      ensures View() == Next(old(View()), Do(i, Action.RecordTimeout))
    {
      calls := calls[i := CallAfter(View(), calls[i], Action.RecordTimeout)];
      timeoutTotal := timeoutTotal + 1;
    }

    method RecordFailed(ghost i: nat)
      requires Enabled(View(), Do(i, Action.RecordFailed))
      modifies this`failedTotal, this`calls
      ensures View() == Next(old(View()), Do(i, Action.RecordFailed))
    {
      calls := calls[i := CallAfter(View(), calls[i], Action.RecordFailed)];
      failedTotal := failedTotal + 1;
    }

    method RecordLimitExceeded(ghost i: nat)
      requires Enabled(View(), Do(i, RecordLimit))
      modifies this`limitExceededTotal, this`calls
      ensures View() == Next(old(View()), Do(i, RecordLimit))
    {
      calls := calls[i := CallAfter(View(), calls[i], RecordLimit)];
      limitExceededTotal := limitExceededTotal + 1;
    }

    // The submit-failure handler.
    method HandleSubmitFailure(ghost i: nat)
      requires i < |calls| && calls[i] == Call(SubmitFailed, NoFuture, Unregistered, 1, 0, None)
      requires reservedCount >= 1 && permits < capacityLimit
      modifies this
      ensures var s := old(View());
              View().(calls := s.calls) == s.(permits := s.permits + 1, reserved := s.reserved - 1, failed := s.failed + 1)
              && OnlyCall(s.calls, calls, i, FinalCall(SubmitRaises))
    {
      ReleaseSlot(i, ReleaseUnsubmitted);
      DecrementReserved(i, DecrementUnsubmitted);
      RecordFailed(i);
    }

    // The done-callback, _release_capacity.
    method ReleaseCapacity(ghost i: nat)
      requires i < |calls| && calls[i].callback.Registered? && calls[i].future.Done()
      requires reservedCount >= 1 && permits < capacityLimit
      modifies this
      ensures var s, c := old(View()), old(calls[i]);
              View().(calls := s.calls) == s.(permits := s.permits + 1, reserved := s.reserved - 1)
              && OnlyCall(s.calls, calls, i, c.(callback := Settled, given := c.given + 1))
    {
      ReleaseSlot(i, CallbackReleases);
      DecrementReserved(i, CallbackDecrements);
    }

    // The timeout handler.
    method HandleTimeout(ghost i: nat, started: bool)
      requires i < |calls|
      requires calls[i] == Call(Waiting, if started then Running else Pending, Registered, 1, 0, None)
      requires reservedCount >= 1 && permits < capacityLimit
      modifies this
      ensures var s, kept := old(View()), One(started);
              View().(calls := s.calls) == s.(permits := s.permits + 1 - kept, reserved := s.reserved - 1 + kept, timeouts := s.timeouts + 1)
              && OnlyCall(s.calls, calls, i, FinalCall(if started then StillRunning else NotStarted))
    {
      Note(i, WaitExpires);
      Note(i, Cancel);
      if !started {
        ReleaseCapacity(i);
      }
      RecordTimeout(i);
    }

    method CollectResult(ghost i: nat, outcome: Outcome)
      requires i < |calls| && calls[i] == Call(Waiting, Finished(outcome), Settled, 1, 1, None)
      modifies this
      ensures var s, status := old(View()), StatusOf(Ends(outcome));
              View().(calls := s.calls) == s.(succeeded := s.succeeded + One(status.Succeeded?), timeouts := s.timeouts + One(status.TimedOut?),
                           failed := s.failed + One(status.Failed?))
              && OnlyCall(s.calls, calls, i, FinalCall(Ends(outcome)))
    {
      Note(i, Collect);
      match outcome
      case Value(_) => RecordSucceeded(i);
      case RaisedTimeout =>
        Note(i, Cancel);
        RecordTimeout(i);
      case RaisedError => RecordFailed(i);
      case RaisedFatal =>
    }

    // From the submission on.
    method RunJob(ghost i: nat, script: Script)
      requires i < |calls| && calls[i] == Call(Recorded, NoFuture, Unregistered, 1, 0, None)
      requires (closed ==> script.SubmitRaises?) && reservedCount >= 1 && permits < capacityLimit
      modifies this
      ensures var s, status, kept := old(View()), StatusOf(script), One(script.StillRunning?);
              View().(calls := s.calls) == s.(permits := s.permits + 1 - kept, reserved := s.reserved - 1 + kept,
                              succeeded := s.succeeded + One(status.Succeeded?), timeouts := s.timeouts + One(status.TimedOut?),
                              failed := s.failed + One(status.Failed?))
              && OnlyCall(s.calls, calls, i, FinalCall(script))
    {
      Note(i, Submit(!script.SubmitRaises?));
      if script.SubmitRaises? {
        HandleSubmitFailure(i);
        return;
      }
      Note(i, AddCallback);
      match script
      case NotStarted => HandleTimeout(i, false);
      case StillRunning =>
        Note(i, WorkerStarts);
        HandleTimeout(i, true);
      case Ends(outcome) =>
        Note(i, WorkerStarts);
        Note(i, WorkerFinishes(outcome));
        ReleaseCapacity(i);
        CollectResult(i, outcome);
    }

    // `execute` from its first acquire to its return, when no other thread interferes.
    method Execute(script: Script) returns (status: Status, value: Option<int>)
      requires permits <= capacityLimit && (closed ==> script.SubmitRaises?)
      modifies this
      ensures View() == AfterCall(old(View()), script)
      ensures Answered(old(View()), script, View(), status, value)
      ensures status == if old(permits) == 0 then LimitExceeded else StatusOf(script)
      ensures value == if old(permits) > 0 && script.Ends? then ResultOf(script.outcome) else None
    {
      ghost var i := Begin();
      var ok := TryAcquire(i);
      if !ok {
        RecordLimitExceeded(i);
        assert calls == old(calls) + [Call(Returned(LimitExceeded), NoFuture, Unregistered, 0, 0, None)];
        return LimitExceeded, None;
      }
      RecordSubmitted(i);
      RunJob(i, script);
      assert calls == old(calls) + [FinalCall(script)];
      return StatusOf(script), if script.Ends? then ResultOf(script.outcome) else None;
    }
  }
}
