// The long-lived worker subprocess (apps/api/app/runtime/resident_worker_process.py): callers, the single rpc thread, the
// child process and restarts, in every interleaving.
module ResidentWorker {
  import opened Options

  // A line on one of the child's pipes, by the request it belongs to: request text written, or the answer to it. A
  // payload with line breaks inside is several request lines.
  datatype Line = Line(job: nat, part: nat)

  // A child with the request lines it has not answered yet and the output nobody has read yet.
  datatype Child = Child(alive: bool, requests: seq<Line>, output: seq<Line>)

  // What `_request_locked` returns: a line or None.
  datatype Reply = Answer(line: Line) | NoAnswer

  // How a submitted job ends; only starting the child can raise, possibly a TimeoutError.
  datatype Outcome = Replied(reply: Reply) | Raised(timeout: bool)

  datatype Job = NoJob | Queued | Running | Over(outcome: Outcome) | Cancelled

  datatype Verdict = QueueFull | Succeeded | NoResponse | TimedOut | RequestFailed

  // Where a caller stands in `request`.
  datatype Phase =
    | Arrived                                    // at the non-blocking acquire
    | Refused                                    // no slot: about to count the failure
    | Acquired                                   // about to count the request
    | Recorded                                   // about to submit
    | Waiting                                    // in future.result(timeout)
    | Got(reply: Reply)                          // about to count success or no response
    | GaveUp                                     // about to count the timeout
    | Broke                                      // about to count the failure
    | WantsRestart(verdict: Verdict)             // waiting for the lock
    | Restarting(verdict: Verdict)               // holding the lock, about to stop the child
    | Restarted(verdict: Verdict)                // about to give the lock back
    | Finishing(verdict: Verdict, reply: Reply)  // about to lower the in-flight counter
    | Releasing(verdict: Verdict, reply: Reply)  // about to return the slot
    | Returned(verdict: Verdict, reply: Reply)

  // `lines` is the number of lines of the payload as it is written.
  datatype Caller = Caller(lines: nat, phase: Phase, job: Job)

  // Where the rpc thread stands in `_request_locked`. From Ready on it has its own reference to the child.
  datatype Rpc =
    | Idle
    | WantsLock(job: nat)
    | Locked(job: nat)
    | Ready(job: nat, child: nat)
    | Written(job: nat, child: nat)
    | Failing(job: nat)
    | Leaving(job: nat, outcome: Outcome)
    | Reporting(job: nat, outcome: Outcome)

  // Who holds `_lock`; `ByOther` is a restart or close from outside `request`.
  datatype Owner = Free | ByRpc | ByCaller(caller: nat) | ByOther

  datatype State = State(capacity: nat, slots: nat, inFlight: nat, requests: nat, succeeded: nat, timeouts: nat, failed: nat,
                         restarts: nat, lock: Owner, process: Option<nat>, children: seq<Child>, queue: seq<nat>, rpc: Rpc,
                         closed: bool, callers: seq<Caller>)

  function Initial(maxPending: int): State {
    var capacity := if maxPending > 1 then maxPending else 1;
    State(capacity, capacity, 0, 0, 0, 0, 0, 0, Free, None, [], [], Idle, false, [])
  }

  // ---------------------------------------------------------------- steps of a caller

  datatype CallerAction =
    | Acquire | RecordQueueFull | RecordSubmitted | Submit(accepted: bool) | WaitExpires | Collect
    | RecordReply | RecordTimeout | RecordRequestFailed
    | RestartLocks | RestartStops | RestartUnlocks | RecordFinished | ReleaseSlot

  predicate CallerCan(s: State, c: Caller, a: CallerAction) {
    match a
    case Acquire => c.phase.Arrived?
    case RecordQueueFull => c.phase.Refused?
    case RecordSubmitted => c.phase.Acquired?
    case Submit(accepted) => c.phase.Recorded? && (accepted ==> !s.closed)
    case WaitExpires => c.phase.Waiting? && !c.job.Over? && !c.job.Cancelled?
    case Collect => c.phase.Waiting? && (c.job.Over? || c.job.Cancelled?)
    case RecordReply => c.phase.Got?
    case RecordTimeout => c.phase.GaveUp?
    case RecordRequestFailed => c.phase.Broke?
    case RestartLocks => c.phase.WantsRestart? && s.lock.Free?
    case RestartStops => c.phase.Restarting?
    case RestartUnlocks => c.phase.Restarted?
    case RecordFinished => c.phase.Finishing?
    case ReleaseSlot => c.phase.Releasing?
  }

  function CallerAfter(s: State, c: Caller, a: CallerAction): Caller
    requires CallerCan(s, c, a)
  {
    match a
    case Acquire => c.(phase := if s.slots > 0 then Acquired else Refused)
    case RecordQueueFull => c.(phase := Returned(QueueFull, NoAnswer))
    case RecordSubmitted => c.(phase := Recorded)
    case Submit(accepted) => if accepted then c.(phase := Waiting, job := Queued) else c.(phase := Broke)
    case WaitExpires => c.(phase := GaveUp)
    case Collect =>
      if c.job.Cancelled? then c.(phase := Broke)
      else if c.job.outcome.Replied? then c.(phase := Got(c.job.outcome.reply))
      else c.(phase := if c.job.outcome.timeout then GaveUp else Broke)
    case RecordReply => c.(phase := Finishing(if c.phase.reply.Answer? then Succeeded else NoResponse, c.phase.reply))
    case RecordTimeout => c.(phase := WantsRestart(TimedOut))
    case RecordRequestFailed => c.(phase := WantsRestart(RequestFailed))
    case RestartLocks => c.(phase := Restarting(c.phase.verdict))
    case RestartStops => c.(phase := Restarted(c.phase.verdict))
    case RestartUnlocks => c.(phase := Finishing(c.phase.verdict, NoAnswer))
    case RecordFinished => c.(phase := Releasing(c.phase.verdict, c.phase.reply))
    case ReleaseSlot => c.(phase := Returned(c.phase.verdict, c.phase.reply))
  }

  // `_stop_locked`: forget the child. What becomes of the forgotten process no longer matters to anybody.
  function Stop(s: State): State {
    if s.process.None? then s else s.(process := None, restarts := s.restarts + 1)
  }

  function SharedAfter(s: State, i: nat, c: Caller, a: CallerAction): State {
    match a
    case Acquire => if s.slots > 0 then s.(slots := s.slots - 1) else s
    case RecordQueueFull => s.(failed := s.failed + 1)
    case RecordSubmitted => s.(inFlight := s.inFlight + 1, requests := s.requests + 1)
    case Submit(accepted) => if accepted then s.(queue := s.queue + [i]) else s
    case RecordReply =>
      if c.phase.Got? && c.phase.reply.Answer? then s.(succeeded := s.succeeded + 1) else s.(failed := s.failed + 1)
    case RecordTimeout => s.(timeouts := s.timeouts + 1)
    case RecordRequestFailed => s.(failed := s.failed + 1)
    case RestartLocks => s.(lock := ByCaller(i))
    case RestartStops => Stop(s)
    case RestartUnlocks => s.(lock := Free)
    case RecordFinished => s.(inFlight := if s.inFlight == 0 then 0 else s.inFlight - 1)
    case ReleaseSlot => if s.slots < s.capacity then s.(slots := s.slots + 1) else s
    case _ => s
  }

  // ---------------------------------------------------------------- steps of the rpc thread

  datatype RpcAction =
    | Take | Lock | EnsureStarted | StartFails(timeout: bool) | Write | WriteFails(written: nat)
    | ReadLine | ReadEof | ReadFails | StopAfterFailure | Unlock | Report

  function RequestLines(job: nat, n: nat): (r: seq<Line>)
    ensures |r| == n
  {
    seq(n, k requires 0 <= k < n => Line(job, k))
  }

  predicate ChildRuns(s: State) {
    s.process.Some? && s.process.value < |s.children| && s.children[s.process.value].alive
  }

  predicate RpcCan(s: State, a: RpcAction) {
    match a
    case Take => s.rpc.Idle? && s.queue != [] && s.queue[0] < |s.callers|
    case Lock => s.rpc.WantsLock? && s.lock.Free?
    case EnsureStarted => s.rpc.Locked?
    case StartFails(_) => s.rpc.Locked? && !ChildRuns(s)
    case Write => s.rpc.Ready? && s.rpc.child < |s.children| && s.rpc.job < |s.callers|
    case WriteFails(written) => s.rpc.Ready? && s.rpc.child < |s.children| && s.rpc.job < |s.callers|
                                && written <= s.callers[s.rpc.job].lines
    case ReadLine => s.rpc.Written? && s.rpc.child < |s.children| && s.children[s.rpc.child].output != []
    case ReadEof => s.rpc.Written? && s.rpc.child < |s.children| && s.children[s.rpc.child].output == []
                    && !s.children[s.rpc.child].alive
    case ReadFails => s.rpc.Written?
    case StopAfterFailure => s.rpc.Failing?
    case Unlock => s.rpc.Leaving?
    case Report => s.rpc.Reporting? && s.rpc.job < |s.callers|
  }

  function Send(s: State, n: nat): State
    requires s.rpc.Ready? && s.rpc.child < |s.children|
  {
    var child := s.children[s.rpc.child];
    s.(children := s.children[s.rpc.child := child.(requests := child.requests + RequestLines(s.rpc.job, n))])
  }

  function RpcAfter(s: State, a: RpcAction): State
    requires RpcCan(s, a)
  {
    match a
    case Take =>
      var j := s.queue[0];
      s.(rpc := WantsLock(j), queue := s.queue[1..], callers := s.callers[j := s.callers[j].(job := Job.Running)])
    case Lock => s.(rpc := Locked(s.rpc.job), lock := ByRpc)
    case EnsureStarted =>
      if ChildRuns(s) then s.(rpc := Ready(s.rpc.job, s.process.value))
      else s.(rpc := Ready(s.rpc.job, |s.children|), process := Some(|s.children|),
              children := s.children + [Child(true, [], [])])
    case StartFails(timeout) => s.(rpc := Leaving(s.rpc.job, Raised(timeout)))
    case Write => Send(s, s.callers[s.rpc.job].lines).(rpc := Written(s.rpc.job, s.rpc.child))
    case WriteFails(written) => Send(s, written).(rpc := Failing(s.rpc.job))
    case ReadLine =>
      var child := s.children[s.rpc.child];
      s.(rpc := Leaving(s.rpc.job, Replied(Answer(child.output[0]))),
         children := s.children[s.rpc.child := child.(output := child.output[1..])])
    case ReadEof => s.(rpc := Failing(s.rpc.job))
    case ReadFails => s.(rpc := Failing(s.rpc.job))
    case StopAfterFailure => Stop(s).(rpc := Leaving(s.rpc.job, Replied(NoAnswer)))
    case Unlock => s.(rpc := Reporting(s.rpc.job, s.rpc.outcome), lock := Free)
    case Report =>
      var j := s.rpc.job;
      s.(rpc := Idle, callers := s.callers[j := s.callers[j].(job := Over(s.rpc.outcome))])
  }

  // ---------------------------------------------------------------- all steps

  datatype Event =
    | Arrive(lines: nat)
    | Call(caller: nat, step: CallerAction)
    | Rpc(rpcStep: RpcAction)
    | ChildAnswers(child: nat)
    | ChildDies(child: nat)
    | OtherLocks | OtherStops | OtherUnlocks
    | ShutDown | CancelHead

  predicate Enabled(s: State, e: Event) {
    match e
    case Arrive(lines) => lines >= 1
    case Call(i, a) => i < |s.callers| && CallerCan(s, s.callers[i], a)
    case Rpc(a) => RpcCan(s, a)
    case ChildAnswers(p) => p < |s.children| && s.children[p].alive && s.children[p].requests != []
    case ChildDies(p) => p < |s.children| && s.children[p].alive
    case OtherLocks => s.lock.Free?
    case OtherStops => s.lock.ByOther?
    case OtherUnlocks => s.lock.ByOther?
    case ShutDown => true
    case CancelHead => s.closed && s.queue != [] && s.queue[0] < |s.callers|
  }

  function Next(s: State, e: Event): State
    requires Enabled(s, e)
  {
    match e
    case Arrive(lines) => s.(callers := s.callers + [Caller(lines, Arrived, NoJob)])
    case Call(i, a) =>
      var c := s.callers[i];
      SharedAfter(s, i, c, a).(callers := s.callers[i := CallerAfter(s, c, a)])
    case Rpc(a) => RpcAfter(s, a)
    case ChildAnswers(p) =>
      var child := s.children[p];
      s.(children := s.children[p := child.(requests := child.requests[1..], output := child.output + [child.requests[0]])])
    case ChildDies(p) => s.(children := s.children[p := s.children[p].(alive := false)])
    case OtherLocks => s.(lock := ByOther)
    case OtherStops => Stop(s)
    case OtherUnlocks => s.(lock := Free)
    case ShutDown => s.(closed := true)
    case CancelHead =>
      var j := s.queue[0];
      s.(queue := s.queue[1..], callers := s.callers[j := s.callers[j].(job := Cancelled)])
  }


  predicate StepAt(states: seq<State>, events: seq<Event>, i: nat)
    requires i < |events| && |states| == |events| + 1
  {
    Enabled(states[i], events[i]) && states[i + 1] == Next(states[i], events[i])
  }

  ghost predicate Run(states: seq<State>, events: seq<Event>) {
    && |states| == |events| + 1
    && (exists maxPending :: states[0] == Initial(maxPending))
    && forall i :: 0 <= i < |events| ==> StepAt(states, events, i)
  }

  // ---------------------------------------------------------------- the lock and the jobs

  predicate RpcHolds(rpc: Rpc) {
    rpc.Locked? || rpc.Ready? || rpc.Written? || rpc.Failing? || rpc.Leaving?
  }

  predicate HoldsLock(c: Caller) {
    c.phase.Restarting? || c.phase.Restarted?
  }

  // Exactly the owner is inside the locked region.
  ghost predicate LockOk(s: State) {
    && (RpcHolds(s.rpc) <==> s.lock.ByRpc?)
    && (s.lock.ByCaller? ==> s.lock.caller < |s.callers|)
    && forall i :: 0 <= i < |s.callers| ==> (HoldsLock(s.callers[i]) <==> s.lock == ByCaller(i))
  }

  // A job exists once submitted, and a reply in hand is the job's.
  predicate CallerOk(c: Caller) {
    match c.phase
    case Arrived => c.job.NoJob?
    case Refused => c.job.NoJob?
    case Acquired => c.job.NoJob?
    case Recorded => c.job.NoJob?
    case Waiting => !c.job.NoJob?
    case Got(reply) => c.job == Over(Replied(reply))
    case GaveUp => true
    case Broke => true
    case WantsRestart(v) => v.TimedOut? || v.RequestFailed?
    case Restarting(v) => v.TimedOut? || v.RequestFailed?
    case Restarted(v) => v.TimedOut? || v.RequestFailed?
    case Finishing(v, reply) => ReplyOk(c.job, v, reply)
    case Releasing(v, reply) => ReplyOk(c.job, v, reply)
    case Returned(v, reply) => if v.QueueFull? then c.job.NoJob? && reply.NoAnswer? else ReplyOk(c.job, v, reply)
  }

  predicate ReplyOk(job: Job, v: Verdict, reply: Reply) {
    && (v.Succeeded? <==> reply.Answer?)
    && (v.Succeeded? || v.NoResponse? ==> job == Over(Replied(reply)))
    && !v.QueueFull?
  }

  // Queued jobs wait once each in the queue; the rpc thread's job is the running one.
  ghost predicate JobsOk(s: State) {
    && (forall i :: 0 <= i < |s.callers| ==> CallerOk(s.callers[i]))
    && (forall k :: 0 <= k < |s.queue| ==> s.queue[k] < |s.callers| && s.callers[s.queue[k]].job.Queued?)
    && (forall k, l :: 0 <= k < l < |s.queue| ==> s.queue[k] != s.queue[l])
    && (!s.rpc.Idle? ==> s.rpc.job < |s.callers| && s.callers[s.rpc.job].job.Running?)
  }

  lemma {:induction false} CallerStaysOk(s: State, c: Caller, a: CallerAction)
    requires CallerOk(c) && CallerCan(s, c, a)
    ensures CallerOk(CallerAfter(s, c, a))
    ensures c.job.NoJob? || CallerAfter(s, c, a).job == c.job
    ensures CallerAfter(s, c, a).job == if a == Submit(true) then Queued else c.job
    ensures c.phase.Recorded? ==> c.job.NoJob?
  {
  }

  lemma {:induction false} CallerKeepsJobs(s: State, i: nat, a: CallerAction)
    requires JobsOk(s) && Enabled(s, Call(i, a))
    ensures JobsOk(Next(s, Call(i, a)))
  {
    var t := Next(s, Call(i, a));
    CallerStaysOk(s, s.callers[i], a);
    assert CallerOk(s.callers[i]);
    assert t.queue == if a == Submit(true) then s.queue + [i] else s.queue;
    assert t.rpc == s.rpc;
  }

  lemma {:induction false} CallerKeepsLock(s: State, i: nat, a: CallerAction)
    requires LockOk(s) && Enabled(s, Call(i, a))
    ensures LockOk(Next(s, Call(i, a)))
  {
    var c, t := s.callers[i], Next(s, Call(i, a));
    assert HoldsLock(c) <==> s.lock == ByCaller(i);
    assert t.rpc == s.rpc;
    assert t.lock == if a.RestartLocks? then ByCaller(i) else if a.RestartUnlocks? then Free else s.lock;
  }

  // Every rpc step but these two leaves callers, queue and its own job alone.
  lemma {:induction false} RpcKeepsJobs(s: State, a: RpcAction)
    requires JobsOk(s) && Enabled(s, Rpc(a))
    ensures JobsOk(RpcAfter(s, a))
  {
    var t := RpcAfter(s, a);
    if !a.Take? && !a.Report? {
      assert t.callers == s.callers && t.queue == s.queue && t.rpc.Idle? == s.rpc.Idle?;
      assert !t.rpc.Idle? ==> t.rpc.job == s.rpc.job;
    }
  }

  lemma {:induction false} RpcKeepsLock(s: State, a: RpcAction)
    requires LockOk(s) && Enabled(s, Rpc(a))
    ensures LockOk(RpcAfter(s, a))
  {
    var t := RpcAfter(s, a);
    assert t.lock == if a.Lock? then ByRpc else if a.Unlock? then Free else s.lock;
    assert forall i :: 0 <= i < |s.callers| ==> t.callers[i].phase == s.callers[i].phase;
  }

  lemma {:induction false} CancelKeeps(s: State)
    requires JobsOk(s) && LockOk(s) && Enabled(s, CancelHead)
    ensures JobsOk(Next(s, CancelHead)) && LockOk(Next(s, CancelHead))
  {
    var t, j := Next(s, CancelHead), s.queue[0];
    assert forall k :: 0 <= k < |t.queue| ==> t.queue[k] == s.queue[k + 1];
    assert forall i :: 0 <= i < |s.callers| ==> t.callers[i].phase == s.callers[i].phase;
    assert CallerOk(s.callers[j]);
  }

  lemma {:induction false} ArriveKeeps(s: State, lines: nat)
    requires JobsOk(s) && LockOk(s) && Enabled(s, Arrive(lines))
    ensures JobsOk(Next(s, Arrive(lines))) && LockOk(Next(s, Arrive(lines)))
  {
    var t := Next(s, Arrive(lines));
    assert forall i :: 0 <= i < |s.callers| ==> t.callers[i] == s.callers[i];
  }

  lemma {:induction false} OthersKeep(s: State, e: Event)
    requires JobsOk(s) && LockOk(s) && Enabled(s, e) && !e.Call? && !e.Rpc?
    ensures JobsOk(Next(s, e)) && LockOk(Next(s, e))
  {
    if e.Arrive? {
      ArriveKeeps(s, e.lines);
    } else if e.CancelHead? {
      CancelKeeps(s);
    } else {
      assert Next(s, e).callers == s.callers && Next(s, e).queue == s.queue && Next(s, e).rpc == s.rpc;
    }
  }

  // ---------------------------------------------------------------- the child in use

  // The rpc thread's own reference is the process field for as long as it holds the lock.
  predicate ProcessOk(s: State) {
    && (s.process.Some? ==> s.process.value < |s.children|)
    && (s.rpc.Ready? || s.rpc.Written? ==> s.process == Some(s.rpc.child))
  }

  lemma {:induction false} ProcessAfterCall(s: State, i: nat, a: CallerAction)
    requires ProcessOk(s) && LockOk(s) && Enabled(s, Call(i, a))
    ensures ProcessOk(Next(s, Call(i, a)))
  {
    var t := Next(s, Call(i, a));
    assert HoldsLock(s.callers[i]) <==> s.lock == ByCaller(i);
    assert t.rpc == s.rpc && t.children == s.children;
    assert t.process == s.process || (t.process.None? && a.RestartStops?);
  }

  lemma {:induction false} ProcessKept(s: State, e: Event)
    requires ProcessOk(s) && LockOk(s) && Enabled(s, e)
    ensures ProcessOk(Next(s, e))
  {
    var t := Next(s, e);
    if e.Call? {
      ProcessAfterCall(s, e.caller, e.step);
    } else if e.Rpc? {
      assert |t.children| >= |s.children|;
    } else {
      assert t.rpc == s.rpc && |t.children| == |s.children|;
      assert t.process == s.process || t.process.None?;
    }
  }

  // What a child still has to say, in order: unread output, then the answers to come.
  function Pending(child: Child): seq<Line> {
    child.output + child.requests
  }

  lemma {:induction false} PendingKept(s: State, e: Event, p: nat)
    requires Enabled(s, e) && p < |s.children| && !(e.Rpc? && e.rpcStep in {Write, ReadLine}) && !(e.Rpc? && e.rpcStep.WriteFails?)
    ensures p < |Next(s, e).children| && Pending(Next(s, e).children[p]) == Pending(s.children[p])
  {
    if e.ChildAnswers? && e.child == p {
      var c := s.children[p];
      assert c.output + [c.requests[0]] + c.requests[1..] == c.output + c.requests;
    }
  }

  // ---------------------------------------------------------------- one line per request

  // Once a request's text may have been written its job is under way or over.
  predicate Sent(s: State, j: nat) {
    && j < |s.callers|
    && (s.callers[j].job.Over?
        || (s.callers[j].job.Running? && (s.rpc.Written? || s.rpc.Failing? || s.rpc.Leaving? || s.rpc.Reporting?) && s.rpc.job == j))
  }

  ghost predicate SentOk(s: State) {
    forall p, l :: 0 <= p < |s.children| && l in Pending(s.children[p]) ==> Sent(s, l.job)
  }

  lemma {:induction false} SentStays(s: State, e: Event, j: nat)
    requires JobsOk(s) && Enabled(s, e) && Sent(s, j)
    ensures Sent(Next(s, e), j)
  {
  }

  // The only new lines are those of the request being written.
  lemma {:induction false} PendingGrows(s: State, e: Event, p: nat, l: Line)
    requires ProcessOk(s) && Enabled(s, e) && p < |Next(s, e).children| && l in Pending(Next(s, e).children[p])
    ensures (p < |s.children| && l in Pending(s.children[p]))
            || (e.Rpc? && (e.rpcStep.Write? || e.rpcStep.WriteFails?) && l.job == s.rpc.job)
  {
    if p < |s.children| && !(e.Rpc? && (e.rpcStep.Write? || e.rpcStep.WriteFails? || e.rpcStep.ReadLine?)) {
      PendingKept(s, e, p);
    }
  }

  lemma {:induction false} SentKept(s: State, e: Event)
    requires SentOk(s) && JobsOk(s) && ProcessOk(s) && Enabled(s, e)
    ensures SentOk(Next(s, e))
  {
    var t := Next(s, e);
    forall p, l | 0 <= p < |t.children| && l in Pending(t.children[p])
      ensures Sent(t, l.job)
    {
      PendingGrows(s, e, p, l);
      if p < |s.children| && l in Pending(s.children[p]) { SentStays(s, e, l.job); }
    }
  }

  // With one line per request: outside an exchange the child is quiet, inside it owes exactly the answer asked for.
  predicate Aligned(s: State) {
    s.process.Some? && s.process.value < |s.children| && !s.rpc.Failing? ==>
      Pending(s.children[s.process.value]) == if s.rpc.Written? then [Line(s.rpc.job, 0)] else []
  }

  // Every reply in hand is the answer to its own request.
  ghost predicate OwnReplies(s: State) {
    && (s.rpc.Leaving? || s.rpc.Reporting? ==> OwnOutcome(s.rpc.job, s.rpc.outcome))
    && (forall i :: 0 <= i < |s.callers| && s.callers[i].job.Over? ==> OwnOutcome(i, s.callers[i].job.outcome))
  }

  predicate OwnOutcome(j: nat, o: Outcome) {
    o.Replied? && o.reply.Answer? ==> o.reply.line == Line(j, 0)
  }

  predicate OneLine(s: State) {
    forall i :: 0 <= i < |s.callers| ==> s.callers[i].lines == 1
  }

  lemma {:induction false} AlignedAfterRpc(s: State, a: RpcAction)
    requires Aligned(s) && OneLine(s) && ProcessOk(s) && Enabled(s, Rpc(a))
    ensures Aligned(RpcAfter(s, a))
  {
    var t := RpcAfter(s, a);
    if a.Write? || a.ReadLine? {
      var was, now := s.children[s.rpc.child], t.children[s.rpc.child];
      if a.Write? { assert Pending(now) == [Line(s.rpc.job, 0)]; } else { assert Pending(was) == [was.output[0]] + Pending(now); }
    } else if s.process.Some? && !a.WriteFails? {
      PendingKept(s, Rpc(a), s.process.value);
    }
  }

  lemma {:induction false} AlignedKept(s: State, e: Event)
    requires Aligned(s) && OneLine(s) && ProcessOk(s) && LockOk(s) && Enabled(s, e)
    ensures Aligned(Next(s, e))
  {
    if e.Rpc? {
      AlignedAfterRpc(s, e.rpcStep);
    } else {
      var t := Next(s, e);
      assert t.rpc == s.rpc && |t.children| == |s.children| && (t.process == s.process || t.process.None?);
      if s.process.Some? { PendingKept(s, e, s.process.value); }
    }
  }

  lemma {:induction false} RepliesAfterCall(s: State, i: nat, a: CallerAction)
    requires OwnReplies(s) && JobsOk(s) && Enabled(s, Call(i, a))
    ensures OwnReplies(Next(s, Call(i, a)))
  {
    var t := Next(s, Call(i, a));
    CallerStaysOk(s, s.callers[i], a);
    assert t.rpc == s.rpc;
    assert t.callers[i].job.Over? ==> s.callers[i].job == t.callers[i].job;
  }

  lemma {:induction false} RepliesAfterRpc(s: State, a: RpcAction)
    requires OwnReplies(s) && Aligned(s) && ProcessOk(s) && Enabled(s, Rpc(a))
    ensures OwnReplies(RpcAfter(s, a))
  {
    var t := RpcAfter(s, a);
    if a.ReadLine? {
      var child := s.children[s.rpc.child];
      assert Pending(child)[0] == child.output[0];
    }
    assert t.rpc.Leaving? || t.rpc.Reporting? ==> OwnOutcome(t.rpc.job, t.rpc.outcome);
    if a.Take? || a.Report? {
      assert forall i :: 0 <= i < |s.callers| && t.callers[i] != s.callers[i] && t.callers[i].job.Over? ==> i == s.rpc.job;
    } else {
      assert t.callers == s.callers;
    }
  }

  lemma {:induction false} RepliesKept(s: State, e: Event)
    requires OwnReplies(s) && Aligned(s) && ProcessOk(s) && JobsOk(s) && Enabled(s, e)
    ensures OwnReplies(Next(s, e))
  {
    match e
    case Call(i, a) => RepliesAfterCall(s, i, a);
    case Rpc(a) => RepliesAfterRpc(s, a);
    case _ =>
      var t := Next(s, e);
      assert t.rpc == s.rpc;
      assert forall i :: 0 <= i < |t.callers| && t.callers[i].job.Over? ==> i < |s.callers| && t.callers[i].job == s.callers[i].job;
  }

  lemma {:induction false} OneLineKept(s: State, e: Event)
    requires OneLine(s) && Enabled(s, e) && (e.Arrive? ==> e.lines == 1)
    ensures OneLine(Next(s, e))
  {
  }

  // ---------------------------------------------------------------- slots and counters

  datatype Tally = Tally(holders: nat, inFlight: nat, requests: nat, succeeded: nat, timeouts: nat, failed: nat,
                         refused: nat, open: nat)

  function One(p: bool): nat {
    if p then 1 else 0
  }

  // The verdict once it has been counted.
  function Counted(c: Caller): Option<Verdict> {
    match c.phase
    case WantsRestart(v) => Some(v)
    case Restarting(v) => Some(v)
    case Restarted(v) => Some(v)
    case Finishing(v, _) => Some(v)
    case Releasing(v, _) => Some(v)
    case Returned(v, _) => Some(v)
    case _ => None
  }

  predicate HoldsSlot(c: Caller) {
    !(c.phase.Arrived? || c.phase.Refused? || c.phase.Returned?)
  }

  function TallyOf(c: Caller): Tally {
    Tally(
      One(HoldsSlot(c)),
      One(HoldsSlot(c) && !c.phase.Acquired? && !c.phase.Releasing?),
      One(!(c.phase.Arrived? || c.phase.Refused? || c.phase.Acquired?) && Counted(c) != Some(QueueFull)),
      One(Counted(c) == Some(Succeeded)),
      One(Counted(c) == Some(TimedOut)),
      One(Counted(c) == Some(NoResponse) || Counted(c) == Some(RequestFailed) || Counted(c) == Some(QueueFull)),
      One(Counted(c) == Some(QueueFull)),
      One(!c.phase.Returned?))
  }

  const Zero := Tally(0, 0, 0, 0, 0, 0, 0, 0)

  function Plus(a: Tally, b: Tally): Tally {
    Tally(a.holders + b.holders, a.inFlight + b.inFlight, a.requests + b.requests, a.succeeded + b.succeeded,
          a.timeouts + b.timeouts, a.failed + b.failed, a.refused + b.refused, a.open + b.open)
  }

  function Total(callers: seq<Caller>): Tally {
    if callers == [] then Zero else Plus(Total(callers[..|callers| - 1]), TallyOf(callers[|callers| - 1]))
  }

  lemma {:induction false} PlusSwaps(a: Tally, b: Tally, c: Tally)
    ensures Plus(Plus(a, b), c) == Plus(Plus(a, c), b)
  {
  }

  lemma {:induction false} TotalSplits(callers: seq<Caller>, i: nat, c: Caller) returns (others: Tally)
    requires i < |callers|
    ensures Total(callers) == Plus(others, TallyOf(callers[i]))
    ensures Total(callers[i := c]) == Plus(others, TallyOf(c))
  {
    var n := |callers| - 1;
    if i == n {
      others := Total(callers[..n]);
      assert callers[i := c][..n] == callers[..n];
    } else {
      var fewer := TotalSplits(callers[..n], i, c);
      others := Plus(fewer, TallyOf(callers[n]));
      assert callers[i := c][..n] == callers[..n][i := c];
      PlusSwaps(fewer, TallyOf(callers[i]), TallyOf(callers[n]));
      PlusSwaps(fewer, TallyOf(c), TallyOf(callers[n]));
    }
  }

  predicate Balanced(s: State, t: Tally) {
    && s.slots + t.holders == s.capacity && s.inFlight == t.inFlight && s.requests == t.requests
    && s.succeeded == t.succeeded && s.timeouts == t.timeouts && s.failed == t.failed
  }

  lemma {:induction false} CallerBalance(s: State, i: nat, c: Caller, a: CallerAction, others: Tally)
    requires CallerOk(c) && CallerCan(s, c, a) && Balanced(s, Plus(others, TallyOf(c)))
    ensures Balanced(SharedAfter(s, i, c, a), Plus(others, TallyOf(CallerAfter(s, c, a))))
  {
  }

  // A change of the job alone counts nothing.
  lemma {:induction false} SameTally(callers: seq<Caller>, i: nat, job: Job)
    requires i < |callers|
    ensures Total(callers[i := callers[i].(job := job)]) == Total(callers)
  {
    var others := TotalSplits(callers, i, callers[i].(job := job));
    assert TallyOf(callers[i].(job := job)) == TallyOf(callers[i]);
  }

  predicate SameCounters(s: State, t: State) {
    && s.capacity == t.capacity && s.slots == t.slots && s.inFlight == t.inFlight && s.requests == t.requests
    && s.succeeded == t.succeeded && s.timeouts == t.timeouts && s.failed == t.failed
  }

  lemma {:induction false} RpcCounts(s: State, a: RpcAction)
    requires Enabled(s, Rpc(a))
    ensures SameCounters(s, RpcAfter(s, a)) && Total(RpcAfter(s, a).callers) == Total(s.callers)
  {
    if a.Take? { SameTally(s.callers, s.queue[0], Job.Running); }
    if a.Report? { SameTally(s.callers, s.rpc.job, Over(s.rpc.outcome)); }
  }

  lemma {:induction false} CallBalance(s: State, i: nat, a: CallerAction)
    requires JobsOk(s) && Balanced(s, Total(s.callers)) && Enabled(s, Call(i, a))
    ensures Balanced(Next(s, Call(i, a)), Total(Next(s, Call(i, a)).callers))
  {
    var c := CallerAfter(s, s.callers[i], a);
    var others := TotalSplits(s.callers, i, c);
    CallerBalance(s, i, s.callers[i], a, others);
    var t := SharedAfter(s, i, s.callers[i], a);
    assert Next(s, Call(i, a)) == t.(callers := s.callers[i := c]);
    assert Balanced(t, Total(s.callers[i := c]));
  }

  lemma {:induction false} ArriveBalance(s: State, lines: nat)
    requires Balanced(s, Total(s.callers))
    ensures Balanced(s, Total(s.callers + [Caller(lines, Arrived, NoJob)]))
  {
    var callers := s.callers + [Caller(lines, Arrived, NoJob)];
    assert callers[..|s.callers|] == s.callers;
    assert TallyOf(Caller(lines, Arrived, NoJob)) == Zero.(open := 1);
  }

  lemma {:induction false} BalanceKept(s: State, e: Event)
    requires JobsOk(s) && Balanced(s, Total(s.callers)) && Enabled(s, e)
    ensures Balanced(Next(s, e), Total(Next(s, e).callers))
  {
    match e
    case Call(i, a) => CallBalance(s, i, a);
    case Rpc(a) => RpcCounts(s, a);
    case Arrive(lines) => ArriveBalance(s, lines);
    case CancelHead => SameTally(s.callers, s.queue[0], Cancelled);
    case _ => assert Next(s, e).callers == s.callers && SameCounters(s, Next(s, e));
  }

  // ---------------------------------------------------------------- what every run keeps

  predicate SomeLines(s: State) {
    forall i :: 0 <= i < |s.callers| ==> s.callers[i].lines >= 1
  }

  ghost predicate Inv(s: State) {
    JobsOk(s) && LockOk(s) && ProcessOk(s) && SentOk(s) && SomeLines(s) && Balanced(s, Total(s.callers))
  }

  lemma {:induction false} SomeLinesKept(s: State, e: Event)
    requires SomeLines(s) && Enabled(s, e)
    ensures SomeLines(Next(s, e)) && Next(s, e).capacity == s.capacity
  {
  }

  lemma {:induction false} JobsAndLockKept(s: State, e: Event)
    requires JobsOk(s) && LockOk(s) && Enabled(s, e)
    ensures JobsOk(Next(s, e)) && LockOk(Next(s, e))
  {
    match e
    case Call(i, a) =>
      CallerKeepsJobs(s, i, a);
      CallerKeepsLock(s, i, a);
    case Rpc(a) =>
      RpcKeepsJobs(s, a);
      RpcKeepsLock(s, a);
    case _ => OthersKeep(s, e);
  }

  lemma {:induction false} StepKeeps(s: State, e: Event)
    requires Inv(s) && Enabled(s, e)
    ensures Inv(Next(s, e))
  {
    JobsAndLockKept(s, e);
    ProcessKept(s, e);
    SentKept(s, e);
    SomeLinesKept(s, e);
    BalanceKept(s, e);
  }

  lemma {:induction false} RunKeeps(states: seq<State>, events: seq<Event>, i: nat)
    requires Run(states, events) && i < |states|
    ensures Inv(states[i]) && states[i].capacity == states[0].capacity
  {
    if i > 0 {
      RunKeeps(states, events, i - 1);
      assert StepAt(states, events, i - 1);
      StepKeeps(states[i - 1], events[i - 1]);
      SomeLinesKept(states[i - 1], events[i - 1]);
    }
  }

  // The calls in flight hold slots, so they never outnumber max(1, max_pending_requests), and every slot not free is held.
  lemma {:induction false} InFlightBounded(states: seq<State>, events: seq<Event>, i: nat, maxPending: int)
    requires Run(states, events) && i < |states| && states[0] == Initial(maxPending)
    ensures var s := states[i];
            && s.inFlight <= Total(s.callers).holders <= (if maxPending > 1 then maxPending else 1)
            && s.slots + Total(s.callers).holders == s.capacity
  {
    RunKeeps(states, events, i);
    InFlightHold(states[i].callers);
  }

  lemma {:induction false} InFlightHold(callers: seq<Caller>)
    ensures Total(callers).inFlight <= Total(callers).holders
  {
    if callers != [] { InFlightHold(callers[..|callers| - 1]); }
  }

  // Neither the clamp of the in-flight counter nor the bound of the semaphore ever acts.
  lemma {:induction false} FinishIsMatched(states: seq<State>, events: seq<Event>, i: nat)
    requires Run(states, events) && i < |events| && events[i].Call?
    ensures events[i].step.RecordFinished? ==> states[i].inFlight >= 1
    ensures events[i].step.ReleaseSlot? ==> states[i].slots < states[i].capacity
  {
    RunKeeps(states, events, i);
    assert StepAt(states, events, i);
    var c := states[i].callers[events[i].caller];
    var others := TotalSplits(states[i].callers, events[i].caller, c);
  }

  // Only one of the rpc thread, the restarting callers and outside restarts is inside the locked region.
  lemma {:induction false} LockExcludes(states: seq<State>, events: seq<Event>, i: nat, a: nat, b: nat)
    requires Run(states, events) && i < |states| && a < |states[i].callers| && b < |states[i].callers|
    ensures var s := states[i];
            && (HoldsLock(s.callers[a]) ==> !RpcHolds(s.rpc) && !s.lock.ByOther?)
            && (HoldsLock(s.callers[a]) && HoldsLock(s.callers[b]) ==> a == b)
            && (RpcHolds(s.rpc) ==> !s.lock.ByOther?)
  {
    RunKeeps(states, events, i);
  }

  predicate SettledTally(t: Tally, n: nat) {
    && t.holders == 0 && t.inFlight == 0
    && n == t.succeeded + t.timeouts + t.failed
    && n == t.requests + t.refused
  }

  lemma {:induction false} SettledPlus(a: Tally, m: nat, b: Tally, n: nat)
    requires SettledTally(a, m) && SettledTally(b, n)
    ensures SettledTally(Plus(a, b), m + n)
  {
  }

  lemma {:induction false} CallerSettled(c: Caller)
    requires c.phase.Returned?
    ensures SettledTally(TallyOf(c), 1)
  {
    match c.phase.verdict
    case QueueFull =>
    case Succeeded =>
    case NoResponse =>
    case TimedOut =>
    case RequestFailed =>
  }

  predicate AllReturned(callers: seq<Caller>) {
    forall i :: 0 <= i < |callers| ==> callers[i].phase.Returned?
  }

  lemma {:induction false} TotalSettled(callers: seq<Caller>)
    requires AllReturned(callers)
    ensures SettledTally(Total(callers), |callers|)
  {
    if callers != [] {
      var n := |callers| - 1;
      TotalSettled(callers[..n]);
      CallerSettled(callers[n]);
      SettledPlus(Total(callers[..n]), n, TallyOf(callers[n]), 1);
    }
  }

  // When every caller has returned, all slots are free, nothing is in flight and each call was counted as exactly one of
  // success, timeout and failure. A refused call fails without ever counting as a request.
  lemma {:induction false} QuiescentCounts(states: seq<State>, events: seq<Event>, i: nat)
    requires Run(states, events) && i < |states| && AllReturned(states[i].callers)
    ensures var s := states[i];
            && s.slots == s.capacity && s.inFlight == 0
            && |s.callers| == s.succeeded + s.timeouts + s.failed
            && |s.callers| == s.requests + Total(s.callers).refused
  {
    RunKeeps(states, events, i);
    TotalSettled(states[i].callers);
    SettledBalance(states[i], Total(states[i].callers), |states[i].callers|);
  }

  lemma {:induction false} SettledBalance(s: State, t: Tally, n: nat)
    requires Balanced(s, t) && SettledTally(t, n)
    ensures s.slots == s.capacity && s.inFlight == 0
    ensures n == s.succeeded + s.timeouts + s.failed && n == s.requests + t.refused
  {
  }

  function CountReturned(callers: seq<Caller>, v: Verdict): nat {
    if callers == [] then 0
    else
      var last := callers[|callers| - 1].phase;
      CountReturned(callers[..|callers| - 1], v) + if last.Returned? && last.verdict == v then 1 else 0
  }

  lemma {:induction false} TallyCounts(callers: seq<Caller>)
    requires AllReturned(callers)
    ensures var t := Total(callers);
            && t.succeeded == CountReturned(callers, Succeeded) && t.timeouts == CountReturned(callers, TimedOut)
            && t.failed == CountReturned(callers, NoResponse) + CountReturned(callers, RequestFailed) + CountReturned(callers, QueueFull)
            && t.refused == CountReturned(callers, QueueFull)
  {
    if callers != [] {
      var n := |callers| - 1;
      assert AllReturned(callers[..n]);
      TallyCounts(callers[..n]);
      assert Counted(callers[n]) == Some(callers[n].phase.verdict);
    }
  }

  // ... and each total then counts exactly the callers that got its verdict.
  lemma {:induction false} TotalsCountVerdicts(states: seq<State>, events: seq<Event>, i: nat)
    requires Run(states, events) && i < |states| && AllReturned(states[i].callers)
    ensures var s := states[i];
            && s.succeeded == CountReturned(s.callers, Succeeded) && s.timeouts == CountReturned(s.callers, TimedOut)
            && s.failed == CountReturned(s.callers, NoResponse) + CountReturned(s.callers, RequestFailed) + CountReturned(s.callers, QueueFull)
  {
    RunKeeps(states, events, i);
    TallyCounts(states[i].callers);
  }

  // ---------------------------------------------------------------- which verdict a caller gets

  // Among the first i events, the wait of caller k has expired.
  ghost predicate WaitExpired(events: seq<Event>, k: nat, i: nat)
    requires i <= |events|
  {
    exists j :: 0 <= j < i && events[j] == Call(k, WaitExpires)
  }

  lemma {:induction false} ExpiredNext(events: seq<Event>, k: nat, i: nat)
    requires i < |events|
    ensures WaitExpired(events, k, i + 1) <==> WaitExpired(events, k, i) || events[i] == Call(k, WaitExpires)
  {
  }

  // On the way to TimedOut exactly because the wait has expired or starting the child raised a timeout, and on the way to
  // RequestFailed only because the job was refused, cancelled or raised another error.
  predicate VerdictOk(c: Caller, expired: bool) {
    && (c.phase.GaveUp? || Counted(c) == Some(TimedOut) ==> expired || c.job == Over(Raised(true)))
    && (expired ==> c.phase.GaveUp? || Counted(c) == Some(TimedOut))
    && (c.phase.Broke? || Counted(c) == Some(RequestFailed) ==> c.job.NoJob? || c.job.Cancelled? || c.job == Over(Raised(false)))
  }

  lemma {:induction false} CallerVerdictKept(s: State, c: Caller, a: CallerAction, expired: bool)
    requires CallerCan(s, c, a) && CallerOk(c) && VerdictOk(c, expired)
    ensures VerdictOk(CallerAfter(s, c, a), expired || a == WaitExpires)
  {
  }

  // The job of a caller moves on only while it is queued or running.
  predicate JobMoved(c: Caller, d: Caller) {
    d.phase == c.phase && (d.job == c.job || c.job.Queued? || c.job.Running?)
  }

  lemma {:induction false} JobVerdictKept(c: Caller, d: Caller, expired: bool)
    requires JobMoved(c, d) && VerdictOk(c, expired)
    ensures VerdictOk(d, expired)
  {
  }

  // One event, seen by caller k.
  lemma {:induction false} CallerMoves(s: State, e: Event, k: nat)
    requires JobsOk(s) && Enabled(s, e) && k < |Next(s, e).callers|
    ensures k >= |s.callers| ==> e.Arrive? && k == |s.callers| && Next(s, e).callers[k] == Caller(e.lines, Arrived, NoJob)
    ensures k < |s.callers| ==>
      if e.Call? && e.caller == k then Next(s, e).callers[k] == CallerAfter(s, s.callers[k], e.step)
      else JobMoved(s.callers[k], Next(s, e).callers[k])
  {
    if e.Rpc? && e.rpcStep.Take? { assert s.callers[s.queue[0]].job.Queued?; }
    if e.CancelHead? { assert s.callers[s.queue[0]].job.Queued?; }
  }

  lemma {:induction false} NotExpiredYet(states: seq<State>, events: seq<Event>, i: nat, k: nat)
    requires Run(states, events) && i < |states| && k >= |states[i].callers|
    ensures !WaitExpired(events, k, i)
  {
    if i > 0 {
      assert StepAt(states, events, i - 1);
      assert |states[i].callers| >= |states[i - 1].callers|;
      NotExpiredYet(states, events, i - 1, k);
      ExpiredNext(events, k, i - 1);
    }
  }

  lemma {:induction false} VerdictKept(states: seq<State>, events: seq<Event>, i: nat, k: nat)
    requires Run(states, events) && i < |states| && k < |states[i].callers|
    ensures VerdictOk(states[i].callers[k], WaitExpired(events, k, i))
  {
    if i > 0 {
      var s, e := states[i - 1], events[i - 1];
      assert StepAt(states, events, i - 1);
      RunKeeps(states, events, i - 1);
      CallerMoves(s, e, k);
      ExpiredNext(events, k, i - 1);
      if k < |s.callers| {
        VerdictKept(states, events, i - 1, k);
        MoveVerdictKept(s, e, k, WaitExpired(events, k, i - 1));
      } else {
        NotExpiredYet(states, events, i - 1, k);
      }
    }
  }

  lemma {:induction false} MoveVerdictKept(s: State, e: Event, k: nat, expired: bool)
    requires JobsOk(s) && Enabled(s, e) && k < |s.callers| && VerdictOk(s.callers[k], expired)
    ensures k < |Next(s, e).callers| && VerdictOk(Next(s, e).callers[k], expired || e == Call(k, WaitExpires))
  {
    assert CallerOk(s.callers[k]);
    CallerMoves(s, e, k);
    if e.Call? && e.caller == k {
      CallerVerdictKept(s, s.callers[k], e.step, expired);
    } else {
      JobVerdictKept(s.callers[k], Next(s, e).callers[k], expired);
    }
  }

  // In every run the verdict is TimedOut exactly when the caller's wait expired or starting the child raised a timeout.
  // Otherwise it is what became of the job: Succeeded with a line, NoResponse without one, RequestFailed when starting
  // the child raised another error or the job was cancelled or never submitted.
  lemma {:induction false} VerdictExactly(states: seq<State>, events: seq<Event>, i: nat, k: nat)
    requires Run(states, events) && i < |states| && k < |states[i].callers| && states[i].callers[k].phase.Returned?
    ensures var c, expired := states[i].callers[k], WaitExpired(events, k, i);
            && (c.phase.verdict == TimedOut <==> expired || c.job == Over(Raised(true)))
            && (!expired ==>
                  && (c.phase.verdict == Succeeded <==> c.job.Over? && c.job.outcome.Replied? && c.job.outcome.reply.Answer?)
                  && (c.phase.verdict == NoResponse <==> c.job == Over(Replied(NoAnswer)))
                  && (c.phase.verdict == RequestFailed || c.phase.verdict == QueueFull
                      <==> c.job == Over(Raised(false)) || c.job.Cancelled? || c.job.NoJob?))
            && (c.phase.verdict == Succeeded ==> c.job == Over(Replied(c.phase.reply)))
            && (c.phase.verdict != Succeeded ==> c.phase.reply == NoAnswer)
  {
    RunKeeps(states, events, i);
    VerdictKept(states, events, i, k);
    assert CallerOk(states[i].callers[k]);
    VerdictOf(states[i].callers[k], WaitExpired(events, k, i));
  }

  lemma {:induction false} VerdictOf(c: Caller, expired: bool)
    requires CallerOk(c) && VerdictOk(c, expired) && c.phase.Returned?
    ensures c.phase.verdict == TimedOut <==> expired || c.job == Over(Raised(true))
    ensures !expired ==>
      && (c.phase.verdict == Succeeded <==> c.job.Over? && c.job.outcome.Replied? && c.job.outcome.reply.Answer?)
      && (c.phase.verdict == NoResponse <==> c.job == Over(Replied(NoAnswer)))
      && (c.phase.verdict == RequestFailed || c.phase.verdict == QueueFull
          <==> c.job == Over(Raised(false)) || c.job.Cancelled? || c.job.NoJob?)
    ensures c.phase.verdict == Succeeded ==> c.job == Over(Replied(c.phase.reply))
    ensures c.phase.verdict != Succeeded ==> c.phase.reply == NoAnswer
  {
  }

  // A caller is refused only when it found no slot free, so that all of them were held.
  lemma {:induction false} RefusedWhenFull(states: seq<State>, events: seq<Event>, i: nat, k: nat) returns (j: nat)
    requires Run(states, events) && i < |states| && k < |states[i].callers|
    requires states[i].callers[k].phase.Refused? || Counted(states[i].callers[k]) == Some(QueueFull)
    ensures j < i && events[j] == Call(k, Acquire) && Total(states[j].callers).holders == states[j].capacity
  {
    var s, e := states[i - 1], events[i - 1];
    assert StepAt(states, events, i - 1);
    RunKeeps(states, events, i - 1);
    CallerMoves(s, e, k);
    assert k < |s.callers| ==> CallerOk(s.callers[k]);
    if e == Call(k, Acquire) {
      j := i - 1;
    } else {
      j := RefusedWhenFull(states, events, i - 1, k);
    }
  }

  // ---------------------------------------------------------------- whose answer

  ghost predicate OneLineRun(events: seq<Event>) {
    forall i :: 0 <= i < |events| && events[i].Arrive? ==> events[i].lines == 1
  }

  lemma {:induction false} RunAligned(states: seq<State>, events: seq<Event>, i: nat)
    requires Run(states, events) && OneLineRun(events) && i < |states|
    ensures OneLine(states[i]) && Aligned(states[i]) && OwnReplies(states[i])
  {
    if i > 0 {
      var s, e := states[i - 1], events[i - 1];
      RunAligned(states, events, i - 1);
      RunKeeps(states, events, i - 1);
      assert StepAt(states, events, i - 1);
      OneLineKept(s, e);
      AlignedKept(s, e);
      RepliesKept(s, e);
    }
  }

  // Whenever a line is returned to a caller, it is the answer to that caller's own request.
  lemma {:induction false} AnswerIsOwn(states: seq<State>, events: seq<Event>, i: nat, k: nat)
    requires Run(states, events) && OneLineRun(events) && i < |states| && k < |states[i].callers|
    ensures var c := states[i].callers[k];
            && (c.phase.Returned? && c.phase.reply.Answer? ==> c.phase.reply.line == Line(k, 0))
            && (c.phase.Returned? ==> (c.phase.verdict.Succeeded? <==> c.phase.reply.Answer?))
  {
    RunKeeps(states, events, i);
    RunAligned(states, events, i);
    assert CallerOk(states[i].callers[k]);
  }

  // Whenever the lock is free, the child has no unanswered request and no unread line.
  lemma {:induction false} FreeMeansQuiet(states: seq<State>, events: seq<Event>, i: nat)
    requires Run(states, events) && OneLineRun(events) && i < |states| && states[i].lock.Free? && states[i].process.Some?
    ensures var s := states[i];
            s.process.value < |s.children| && s.children[s.process.value].requests == [] == s.children[s.process.value].output
  {
    RunKeeps(states, events, i);
    RunAligned(states, events, i);
    var s := states[i];
    assert Pending(s.children[s.process.value]) == [];
  }

  // Between writing and reading, the child owes what it owed before and then the lines of the request.
  lemma {:induction false} PendingUntilRead(states: seq<State>, events: seq<Event>, a: nat, b: nat)
    requires Run(states, events) && a < b < |states| && events[a] == Rpc(Write)
    requires forall k :: a < k < b ==> !events[k].Rpc?
    ensures states[a].rpc.Ready? && states[a].rpc.job < |states[a].callers|
    ensures states[b].rpc == Written(states[a].rpc.job, states[a].rpc.child)
    ensures states[a].rpc.child < |states[a].children| && states[a].rpc.child < |states[b].children|
    ensures Pending(states[b].children[states[a].rpc.child])
            == Pending(states[a].children[states[a].rpc.child])
             + RequestLines(states[a].rpc.job, states[a].callers[states[a].rpc.job].lines)
  {
    assert StepAt(states, events, a);
    if b > a + 1 {
      PendingUntilRead(states, events, a, b - 1);
      assert StepAt(states, events, b - 1);
      PendingKept(states[b - 1], events[b - 1], states[a].rpc.child);
    }
  }

  // The line read answers the request just written exactly when the child owed nothing before.
  lemma {:induction false} OwnWhenNothingOwed(states: seq<State>, events: seq<Event>, a: nat, b: nat)
    requires Run(states, events) && a < b < |events| && events[a] == Rpc(Write) && events[b] == Rpc(ReadLine)
    requires forall k :: a < k < b ==> !events[k].Rpc?
    ensures states[a].rpc.Ready? && states[a].rpc.child < |states[a].children|
    ensures states[b + 1].rpc.Leaving? && states[b + 1].rpc.outcome.Replied? && states[b + 1].rpc.outcome.reply.Answer?
    ensures states[b + 1].rpc.outcome.reply.line.job == states[a].rpc.job
            <==> Pending(states[a].children[states[a].rpc.child]) == []
  {
    RunKeeps(states, events, a);
    PendingUntilRead(states, events, a, b);
    assert StepAt(states, events, b);
    var j, p := states[a].rpc.job, states[a].rpc.child;
    var before, child := Pending(states[a].children[p]), states[b].children[p];
    assert Pending(child)[0] == child.output[0];
    if before != [] {
      assert before[0] in before;
      assert Sent(states[a], before[0].job);
    }
  }

  // ---------------------------------------------------------------- what a child owes

  predicate WritesTo(s: State, e: Event, p: nat) {
    e == Rpc(Write) && s.rpc.Ready? && s.rpc.child == p && s.rpc.job < |s.callers|
  }

  // The lines beyond the first of each payload written to child p in the first i steps.
  function ExtraLines(states: seq<State>, events: seq<Event>, i: nat, p: nat): int
    requires i <= |events| < |states|
  {
    if i == 0 then 0
    else
      var s := states[i - 1];
      ExtraLines(states, events, i - 1, p) + if WritesTo(s, events[i - 1], p) then s.callers[s.rpc.job].lines - 1 else 0
  }

  ghost predicate OneLineWrites(states: seq<State>, events: seq<Event>, i: nat, p: nat)
    requires i <= |events| < |states|
  {
    forall k :: 0 <= k < i && WritesTo(states[k], events[k], p) ==> states[k].callers[states[k].rpc.job].lines == 1
  }

  // A child in use owes the extra lines written to it, and the one line of an exchange under way.
  predicate Owes(s: State, p: nat, extra: int) {
    && (p >= |s.children| ==> extra == 0)
    && (s.process == Some(p) && p < |s.children| && !s.rpc.Failing?
        ==> |Pending(s.children[p])| == extra + if s.rpc.Written? then 1 else 0)
  }

  lemma {:induction false} OwesAfterCall(s: State, e: Event, p: nat, extra: int)
    requires Owes(s, p, extra) && ProcessOk(s) && LockOk(s) && Enabled(s, e) && !e.Rpc?
    ensures Owes(Next(s, e), p, extra)
  {
    var t := Next(s, e);
    assert |t.children| == |s.children| && t.rpc == s.rpc;
    assert t.process == s.process || t.process.None?;
    if p < |s.children| { PendingKept(s, e, p); }
  }

  lemma {:induction false} OwesAfterExchange(s: State, a: RpcAction, p: nat, extra: int)
    requires Owes(s, p, extra) && ProcessOk(s) && Enabled(s, Rpc(a)) && (a.Write? || a.WriteFails? || a.ReadLine?)
    ensures Owes(RpcAfter(s, a), p, extra + if WritesTo(s, Rpc(a), p) then s.callers[s.rpc.job].lines - 1 else 0)
  {
    var t := RpcAfter(s, a);
    assert |t.children| == |s.children| && t.process == s.process == Some(s.rpc.child);
    if p == s.rpc.child && !a.WriteFails? {
      var was, now := s.children[p], t.children[p];
      if a.Write? {
        assert Pending(now) == Pending(was) + RequestLines(s.rpc.job, s.callers[s.rpc.job].lines);
      } else {
        assert Pending(was) == [was.output[0]] + Pending(now);
      }
    }
  }

  lemma {:induction false} OwesAfterRpc(s: State, a: RpcAction, p: nat, extra: int)
    requires Owes(s, p, extra) && ProcessOk(s) && Enabled(s, Rpc(a)) && !(a.Write? || a.WriteFails? || a.ReadLine?)
    ensures Owes(RpcAfter(s, a), p, extra)
  {
    var t := RpcAfter(s, a);
    if p < |s.children| {
      PendingKept(s, Rpc(a), p);
      assert t.process == Some(p) && !t.rpc.Failing? ==> s.process == Some(p) && !s.rpc.Failing? && !t.rpc.Written?;
    } else if a.EnsureStarted? && !ChildRuns(s) && p == |s.children| {
      assert Pending(t.children[p]) == [];
    }
  }

  lemma {:induction false} RunOwes(states: seq<State>, events: seq<Event>, i: nat, p: nat)
    requires Run(states, events) && i < |states|
    ensures Owes(states[i], p, ExtraLines(states, events, i, p))
  {
    if i > 0 {
      var s, e, extra := states[i - 1], events[i - 1], ExtraLines(states, events, i - 1, p);
      RunOwes(states, events, i - 1, p);
      RunKeeps(states, events, i - 1);
      assert StepAt(states, events, i - 1);
      if !e.Rpc? {
        OwesAfterCall(s, e, p, extra);
      } else if e.rpcStep.Write? || e.rpcStep.WriteFails? || e.rpcStep.ReadLine? {
        OwesAfterExchange(s, e.rpcStep, p, extra);
      } else {
        OwesAfterRpc(s, e.rpcStep, p, extra);
      }
    }
  }

  lemma {:induction false} NoExtraLines(states: seq<State>, events: seq<Event>, i: nat, p: nat)
    requires Run(states, events) && i < |states|
    ensures ExtraLines(states, events, i, p) >= 0
    ensures ExtraLines(states, events, i, p) == 0 <==> OneLineWrites(states, events, i, p)
  {
    if i > 0 {
      NoExtraLines(states, events, i - 1, p);
      RunKeeps(states, events, i - 1);
      if WritesTo(states[i - 1], events[i - 1], p) {
        assert states[i - 1].callers[states[i - 1].rpc.job].lines >= 1;
      }
    }
  }

  // For any payloads: the line a caller's exchange reads answers its own request if and only if every payload written
  // earlier to the same child was a single line.
  lemma {:induction false} OwnExactlyAfterOneLines(states: seq<State>, events: seq<Event>, a: nat, b: nat)
    requires Run(states, events) && a < b < |events| && events[a] == Rpc(Write) && events[b] == Rpc(ReadLine)
    requires forall k :: a < k < b ==> !events[k].Rpc?
    ensures states[a].rpc.Ready?
    ensures states[b + 1].rpc.Leaving? && states[b + 1].rpc.outcome.Replied? && states[b + 1].rpc.outcome.reply.Answer?
    ensures states[b + 1].rpc.outcome.reply.line.job == states[a].rpc.job
            <==> OneLineWrites(states, events, a, states[a].rpc.child)
  {
    OwnWhenNothingOwed(states, events, a, b);
    RunKeeps(states, events, a);
    RunOwes(states, events, a, states[a].rpc.child);
    NoExtraLines(states, events, a, states[a].rpc.child);
  }

  // ---------------------------------------------------------------- a payload with a line break inside

  lemma {:induction false} Extend(states: seq<State>, events: seq<Event>, e: Event) returns (more: seq<State>, longer: seq<Event>)
    requires Run(states, events) && Enabled(states[|states| - 1], e)
    ensures Run(more, longer) && |more| > 0 && more[|more| - 1] == Next(states[|states| - 1], e)
  {
    more, longer := states + [Next(states[|states| - 1], e)], events + [e];
    forall i | 0 <= i < |longer| ensures StepAt(more, longer, i) {
      if i < |events| { assert StepAt(states, events, i); }
    }
  }

  // A call is submitted and the rpc thread takes it, up to the lock.
  lemma {:induction false} SubmitOne(states: seq<State>, events: seq<Event>, lines: nat) returns (more: seq<State>, longer: seq<Event>)
    requires Run(states, events) && lines >= 1
    requires var s := states[|states| - 1]; s.slots > 0 && !s.closed && s.rpc.Idle? && s.queue == [] && s.lock.Free?
    ensures Run(more, longer)
    ensures var s, t := states[|states| - 1], more[|more| - 1];
            t == s.(slots := s.slots - 1, inFlight := s.inFlight + 1, requests := s.requests + 1, rpc := Locked(|s.callers|),
                    lock := ByRpc, callers := s.callers + [Caller(lines, Waiting, Job.Running)])
  {
    var s := states[|states| - 1];
    var i := |s.callers|;
    more, longer := Extend(states, events, Arrive(lines));
    more, longer := Extend(more, longer, Call(i, Acquire));
    more, longer := Extend(more, longer, Call(i, CallerAction.RecordSubmitted));
    more, longer := Extend(more, longer, Call(i, Submit(true)));
    assert more[|more| - 1].queue == [i];
    more, longer := Extend(more, longer, Rpc(Take));
    more, longer := Extend(more, longer, Rpc(Lock));
    assert more[|more| - 1].callers == s.callers + [Caller(lines, Waiting, Job.Running)];
  }

  // The rpc thread starts the child if there is none, writes, and the child answers its oldest request line.
  lemma {:induction false} AskOne(states: seq<State>, events: seq<Event>, j: nat, l: Line, rest: seq<Line>)
    returns (more: seq<State>, longer: seq<Event>)
    requires Run(states, events)
    requires var s := states[|states| - 1];
             s.rpc == Locked(j) && j < |s.callers|
             && (if s.children == [] then s.process.None? && [l] + rest == RequestLines(j, s.callers[j].lines)
                 else s.process == Some(0) && |s.children| == 1 && s.children[0].alive && s.children[0].output == []
                      && [l] + rest == s.children[0].requests + RequestLines(j, s.callers[j].lines))
    ensures Run(more, longer)
    ensures more[|more| - 1] == states[|states| - 1].(rpc := Written(j, 0), process := Some(0), children := [Child(true, rest, [l])])
  {
    more, longer := Extend(states, events, Rpc(EnsureStarted));
    more, longer := Extend(more, longer, Rpc(Write));
    assert more[|more| - 1].children[0].requests == [l] + rest;
    more, longer := Extend(more, longer, ChildAnswers(0));
    assert more[|more| - 1].children[0] == Child(true, rest, [l]);
  }

  // The rpc thread reads the line, leaves the lock, and the caller picks the reply up.
  lemma {:induction false} AnswerOne(states: seq<State>, events: seq<Event>, j: nat, l: Line, rest: seq<Line>)
    returns (more: seq<State>, longer: seq<Event>)
    requires Run(states, events)
    requires var s := states[|states| - 1];
             s.rpc == Written(j, 0) && j < |s.callers| && s.callers[j].phase.Waiting? && s.children == [Child(true, rest, [l])]
    ensures Run(more, longer)
    ensures var s, t := states[|states| - 1], more[|more| - 1];
            t == s.(rpc := Idle, lock := Free, children := [Child(true, rest, [])],
                    callers := s.callers[j := s.callers[j].(phase := Got(Answer(l)), job := Over(Replied(Answer(l))))])
  {
    more, longer := Extend(states, events, Rpc(ReadLine));
    assert more[|more| - 1].children[0] == Child(true, rest, []);
    more, longer := Extend(more, longer, Rpc(Unlock));
    more, longer := Extend(more, longer, Rpc(Report));
    more, longer := Extend(more, longer, Call(j, Collect));
  }

  // A first caller sends two lines; a second one, with a single line, is given the answer to the first one's second line.
  lemma {:induction false} LineBreakMisdelivers() returns (states: seq<State>, events: seq<Event>)
    ensures Run(states, events)
    ensures var s := states[|states| - 1];
            |s.callers| == 2 && s.callers[1].lines == 1 && s.callers[1].phase == Got(Answer(Line(0, 1)))
  {
    assert Run([Initial(2)], []);
    states, events := SubmitOne([Initial(2)], [], 2);
    assert RequestLines(0, 2) == [Line(0, 0)] + [Line(0, 1)];
    states, events := AskOne(states, events, 0, Line(0, 0), [Line(0, 1)]);
    states, events := AnswerOne(states, events, 0, Line(0, 0), [Line(0, 1)]);
    states, events := SubmitOne(states, events, 1);
    assert RequestLines(1, 1) == [Line(1, 0)];
    states, events := AskOne(states, events, 1, Line(0, 1), [Line(1, 0)]);
    states, events := AnswerOne(states, events, 1, Line(0, 1), [Line(1, 0)]);
  }

  // ---------------------------------------------------------------- the worker object

  // What the operating system and the child do during one exchange.
  datatype Exchange = StartRaises(timeout: bool) | WriteRaises(written: nat) | ReadRaises | ChildGone | Answered

  class ResidentWorkerProcess {
    const capacity: nat
    var slots: nat
    var inFlightOrQueued: nat
    var requestsTotal: nat
    var succeededTotal: nat
    var timeoutTotal: nat
    var failedTotal: nat
    var restartTotal: nat
    var process: Option<nat>
    // The surroundings: the lock, the children, the executor and the threads.
    var lock: Owner
    var children: seq<Child>
    var queue: seq<nat>
    var rpc: Rpc
    var closed: bool
    var callers: seq<Caller>

    function View(): State
      reads this
    {
      State(capacity, slots, inFlightOrQueued, requestsTotal, succeededTotal, timeoutTotal, failedTotal, restartTotal, lock,
            process, children, queue, rpc, closed, callers)
    }

    constructor (maxPendingRequests: int)
      ensures View() == Initial(maxPendingRequests)
    {
      capacity := if maxPendingRequests > 1 then maxPendingRequests else 1;
      slots := if maxPendingRequests > 1 then maxPendingRequests else 1;
      inFlightOrQueued, requestsTotal, succeededTotal, timeoutTotal, failedTotal, restartTotal := 0, 0, 0, 0, 0, 0;
      process, lock, children, queue, rpc, closed, callers := None, Free, [], [], Idle, false, [];
    }

    // An event of the surroundings: it leaves the object's own fields alone.
    method Happens(e: Event)
      requires Enabled(View(), e) && SameCounters(View(), Next(View(), e))
      requires Next(View(), e).restarts == restartTotal && Next(View(), e).process == process
      modifies this`lock, this`children, this`queue, this`rpc, this`closed, this`callers
      ensures View() == Next(old(View()), e)
    {
      var t := Next(View(), e);
      lock, children, queue, rpc, closed, callers := t.lock, t.children, t.queue, t.rpc, t.closed, t.callers;
    }

    method StopLocked()
      modifies this`process, this`restartTotal
      ensures View() == Stop(old(View()))
    {
      var was := process;
      process := None;
      if was.None? {
        return;
      }
      restartTotal := restartTotal + 1;
    }

    method EnsureStartedLocked()
      requires rpc.Locked? && ProcessOk(View())
      modifies this`process, this`children, this`rpc
      ensures View() == Next(old(View()), Rpc(EnsureStarted))
    {
      if process.Some? && children[process.value].alive {
        rpc := Ready(rpc.job, process.value);
        return;
      }
      children := children + [Child(true, [], [])];
      process := Some(|children| - 1);
      rpc := Ready(rpc.job, |children| - 1);
    }

    method Restart()
      requires lock.Free?
      modifies this
      ensures View() == Stop(old(View())) && process.None?
    {
      Happens(OtherLocks);
      StopLocked();
      Happens(OtherUnlocks);
    }

    // The failure paths of `_request_locked`: stop the child, give the lock back, return None.
    method StopAndLeave() returns (outcome: Outcome)
      requires rpc.Failing? && lock.ByRpc?
      modifies this
      ensures outcome == Replied(NoAnswer)
      ensures View() == Stop(old(View())).(rpc := Reporting(old(rpc).job, outcome), lock := Free)
    {
      StopLocked();
      rpc := Leaving(rpc.job, Replied(NoAnswer));
      Happens(Rpc(Unlock));
      return Replied(NoAnswer);
    }

    // Write, and read one line, the child answering its oldest request if it has not put anything out yet.
    method WriteAndRead(job: nat, p: nat) returns (outcome: Outcome)
      requires rpc == Ready(job, p) && p < |children| && job < |callers| && callers[job].lines >= 1 && children[p].alive
      modifies this
      ensures |children| == |old(children)|
      ensures var owed := Pending(old(children[p])) + RequestLines(job, old(callers)[job].lines);
              outcome == Replied(Answer(owed[0])) && Pending(children[p]) == owed[1..] && children[p].alive
      ensures View() == old(View()).(rpc := Leaving(job, outcome), children := children)
    {
      ghost var owed := Pending(children[p]) + RequestLines(job, callers[job].lines);
      Happens(Rpc(Write));
      assert Pending(children[p]) == owed;
      if children[p].output == [] {
        PendingKept(View(), ChildAnswers(p), p);
        Happens(ChildAnswers(p));
      }
      assert Pending(children[p]) == owed && owed[0] == children[p].output[0];
      Happens(Rpc(ReadLine));
      assert Pending(children[p]) == owed[1..];
      return rpc.outcome;
    }

    // An exchange that fails, up to the point where the child is to be stopped.
    method BreakOff(job: nat, p: nat, script: Exchange)
      requires rpc == Ready(job, p) && p < |children| && job < |callers| && children[p].alive
      requires script.WriteRaises? || script.ReadRaises? || script.ChildGone?
      requires script.WriteRaises? ==> script.written <= callers[job].lines
      requires script.ChildGone? ==> children[p].output == []
      modifies this`lock, this`children, this`queue, this`rpc, this`closed, this`callers
      ensures View() == old(View()).(rpc := Failing(job), children := children) && |children| == |old(children)|
    {
      if script.WriteRaises? {
        Happens(Rpc(WriteFails(script.written)));
        return;
      }
      Happens(Rpc(Write));
      if script.ReadRaises? {
        Happens(Rpc(ReadFails));
      } else {
        Happens(ChildDies(p));
        Happens(Rpc(ReadEof));
      }
    }

    // What the child that an exchange will use owes before it: a fresh one owes nothing.
    function Owed(): seq<Line>
      reads this
    {
      if ChildRuns(View()) then Pending(children[process.value]) else []
    }

    // One exchange with a started child.
    method ExchangeLines(job: nat, script: Exchange) returns (outcome: Outcome)
      requires rpc.Ready? && rpc.job == job && process == Some(rpc.child) && lock.ByRpc?
      requires rpc.child < |children| && job < |callers| && callers[job].lines >= 1 && children[rpc.child].alive
      requires !script.StartRaises?
      requires script.WriteRaises? ==> script.written <= callers[job].lines
      requires script.ChildGone? ==> children[rpc.child].output == []
      modifies this
      ensures |children| == |old(children)|
      ensures var owed := Pending(old(children[rpc.child])) + RequestLines(job, old(callers)[job].lines);
              if script.Answered? then
                && outcome == Replied(Answer(owed[0]))
                && View() == old(View()).(rpc := Reporting(job, outcome), lock := Free, children := children)
                && Pending(children[old(rpc.child)]) == owed[1..] && children[old(rpc.child)].alive
              else
                && outcome == Replied(NoAnswer)
                && View() == Stop(old(View())).(rpc := Reporting(job, outcome), lock := Free, children := children)
    {
      if script.Answered? {
        outcome := WriteAndRead(job, rpc.child);
        Happens(Rpc(Unlock));
      } else {
        BreakOff(job, rpc.child, script);
        outcome := StopAndLeave();
      }
    }

    // `_request_locked` while nothing else acts on the child. For any payload: the line returned is the first of what the
    // child owed and of the answers to the payload's lines, the rest stays owed, and after a failure there is no child.
    method RequestLocked(job: nat, script: Exchange) returns (outcome: Outcome)
      requires rpc == WantsLock(job) && lock.Free? && job < |callers| && callers[job].lines >= 1
      requires ProcessOk(View())
      requires script.StartRaises? ==> !ChildRuns(View())
      requires script.WriteRaises? ==> script.written <= callers[job].lines
      requires script.ChildGone? && ChildRuns(View()) ==> children[process.value].output == []
      modifies this
      ensures var owed := old(Owed()) + RequestLines(job, old(callers)[job].lines);
              match script
              case StartRaises(timeout) => outcome == Raised(timeout) && process == old(process) && children == old(children)
              case Answered => outcome == Replied(Answer(owed[0])) && ChildRuns(View()) && Owed() == owed[1..]
              case _ => outcome == Replied(NoAnswer) && process.None?
      ensures rpc == Reporting(job, outcome) && lock.Free?
      ensures restartTotal == old(restartTotal) + if script.Answered? || script.StartRaises? then 0 else 1
      ensures callers == old(callers) && queue == old(queue) && SameCounters(old(View()), View())
    {
      Happens(Rpc(Lock));
      if script.StartRaises? {
        Happens(Rpc(StartFails(script.timeout)));
        Happens(Rpc(Unlock));
        return Raised(script.timeout);
      }
      EnsureStartedLocked();
      assert Pending(children[rpc.child]) == old(Owed());
      outcome := ExchangeLines(job, script);
    }

    method RecordSubmitted(i: nat)
      requires Enabled(View(), Call(i, CallerAction.RecordSubmitted))
      modifies this`inFlightOrQueued, this`requestsTotal, this`callers
      ensures View() == Next(old(View()), Call(i, CallerAction.RecordSubmitted))
    {
      callers := callers[i := CallerAfter(View(), callers[i], CallerAction.RecordSubmitted)];
      inFlightOrQueued, requestsTotal := inFlightOrQueued + 1, requestsTotal + 1;
    }

    method RecordFinished(i: nat)
      requires Enabled(View(), Call(i, CallerAction.RecordFinished))
      modifies this`inFlightOrQueued, this`callers
      ensures View() == Next(old(View()), Call(i, CallerAction.RecordFinished))
    {
      callers := callers[i := CallerAfter(View(), callers[i], CallerAction.RecordFinished)];
      inFlightOrQueued := if inFlightOrQueued as int - 1 > 0 then inFlightOrQueued - 1 else 0;
    }
  }
}
