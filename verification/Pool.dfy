/**
 The client connection pool as a protocol of atomic steps: a semaphore of permits, a
 channel of idle connections behind a receiver lock, and a size counter.  Each task runs
 `get`, the return closure of a pooled connection, or `close`; a call may be cancelled at
 any point where it awaits.
 */
module Pool {
  import opened Common

  type Conn = nat

  /** Where a task stands. */
  datatype Task =
    | Idle
    | Waiting                               // get: open pool seen, awaiting a permit
    | Permitted                             // get: holds a permit, awaiting the receiver lock
    | Draining                              // get: holds permit and lock
    | Discarding(c: Conn)                   // get: took a stale connection, about to uncount it
    | Opening                               // get: channel was empty, awaiting a new connection
    | Opened(c: Conn)                       // get: connected, about to count the connection
    | Got(c: Conn)                          // get: about to read `closed` for the return closure
    | Out(c: Conn, sawClosed: bool)         // the caller holds the pooled connection
    | Returning(c: Conn, sawClosed: bool)   // dropped: permit released, about to recycle or discard
    | Closing                               // close: flag set, awaiting the receiver lock
    | CloseDrain                            // close: holds the lock
    | CloseOne(c: Conn)                     // close: awaiting the connection's own close

  predicate HoldsPermit(t: Task) {
    t.Permitted? || t.Draining? || t.Discarding? || t.Opening? || t.Opened? || t.Got? || t.Out?
  }

  predicate HoldsLock(t: Task) {
    t.Draining? || t.Discarding? || t.CloseDrain? || t.CloseOne?
  }

  predicate CheckedOut(t: Task) {
    t.Got? || t.Out?
  }

  /** This task owns a connection that the size counter includes. */
  predicate Counted(t: Task) {
    t.Discarding? || t.Got? || t.Out? || t.Returning? || t.CloseOne?
  }

  predicate Owns(t: Task, c: Conn) {
    (Counted(t) || t.Opened?) && t.c == c
  }

  /** `leaked` counts connections a cancelled `close` took from the channel without uncounting them. */
  datatype State = State(max: nat, permits: nat, channel: seq<Conn>, size: int, closed: bool, locked: bool,
                         tasks: seq<Task>, nextConn: Conn, leaked: nat)

  /** A new pool after `initialize` has opened and queued the minimum number of connections. */
  function Initial(max: nat, min: nat): State {
    State(max, max, seq(min, i => i), min, false, false, [], min, 0)
  }

  datatype Step =
    | Spawn
    | Check(i: nat)           // get on an open pool
    | Acquire(i: nat)
    | Abandon(i: nat)         // time-out or cancellation while waiting for a permit
    | Lock(i: nat)
    | TakeUsable(i: nat)
    | TakeStale(i: nat)
    | Uncount(i: nat)
    | FindEmpty(i: nat)
    | Connect(i: nat)
    | Count(i: nat)
    | Fail(i: nat)            // cancelled before the lock, or no new connection
    | HandOut(i: nat)
    | DropOut(i: nat)
    | Recycle(i: nat)
    | Discard(i: nat)         // dead connection, closed pool or dropped channel
    | SetClosed(i: nat)
    | CloseLock(i: nat)
    | CloseTake(i: nat)
    | CloseUncount(i: nat)
    | CloseDone(i: nat)
    | CloseCancel(i: nat)

  /** Replaces what stands at `i`. */
  function Put(s: State, i: nat, t: Task): State
    requires i < |s.tasks|
  {
    s.(tasks := s.tasks[i := t])
  }

  predicate At(s: State, i: nat) {
    i < |s.tasks|
  }

  predicate Next(s: State, step: Step, t: State) {
    match step
    case Spawn => t == s.(tasks := s.tasks + [Idle])
    case Check(i) => At(s, i) && s.tasks[i].Idle? && !s.closed && t == Put(s, i, Waiting)
    case Acquire(i) => At(s, i) && s.tasks[i].Waiting? && s.permits > 0
        && t == Put(s, i, Permitted).(permits := s.permits - 1)
    case Abandon(i) => At(s, i) && s.tasks[i].Waiting? && t == Put(s, i, Idle)
    case Lock(i) => At(s, i) && s.tasks[i].Permitted? && !s.locked && t == Put(s, i, Draining).(locked := true)
    case TakeUsable(i) =>
      At(s, i) && s.tasks[i].Draining? && s.channel != []
      && t == Put(s, i, Got(s.channel[0])).(channel := s.channel[1..], locked := false)
    case TakeStale(i) =>
      At(s, i) && s.tasks[i].Draining? && s.channel != []
      && t == Put(s, i, Discarding(s.channel[0])).(channel := s.channel[1..])
    case Uncount(i) => At(s, i) && s.tasks[i].Discarding? && t == Put(s, i, Draining).(size := s.size - 1)
    case FindEmpty(i) =>
      At(s, i) && s.tasks[i].Draining? && s.channel == [] && t == Put(s, i, Opening).(locked := false)
    case Connect(i) => At(s, i) && s.tasks[i].Opening?
        && t == Put(s, i, Opened(s.nextConn)).(nextConn := s.nextConn + 1)
    case Count(i) => At(s, i) && s.tasks[i].Opened? && t == Put(s, i, Got(s.tasks[i].c)).(size := s.size + 1)
    case Fail(i) =>
      At(s, i) && (s.tasks[i].Permitted? || s.tasks[i].Opening?) && t == Put(s, i, Idle).(permits := s.permits + 1)
    case HandOut(i) => At(s, i) && s.tasks[i].Got? && t == Put(s, i, Out(s.tasks[i].c, s.closed))
    case DropOut(i) =>
      At(s, i) && s.tasks[i].Out?
      && t == Put(s, i, Returning(s.tasks[i].c, s.tasks[i].sawClosed)).(permits := s.permits + 1)
    case Recycle(i) =>
      At(s, i) && s.tasks[i].Returning? && !s.tasks[i].sawClosed
      && t == Put(s, i, Idle).(channel := s.channel + [s.tasks[i].c])
    case Discard(i) => At(s, i) && s.tasks[i].Returning? && t == Put(s, i, Idle).(size := s.size - 1)
    case SetClosed(i) => At(s, i) && s.tasks[i].Idle? && t == Put(s, i, Closing).(closed := true)
    case CloseLock(i) => At(s, i) && s.tasks[i].Closing? && !s.locked && t == Put(s, i, CloseDrain).(locked := true)
    case CloseTake(i) =>
      At(s, i) && s.tasks[i].CloseDrain? && s.channel != []
      && t == Put(s, i, CloseOne(s.channel[0])).(channel := s.channel[1..])
    case CloseUncount(i) => At(s, i) && s.tasks[i].CloseOne? && t == Put(s, i, CloseDrain).(size := s.size - 1)
    case CloseDone(i) =>
      At(s, i) && s.tasks[i].CloseDrain? && s.channel == [] && t == Put(s, i, Idle).(locked := false)
    case CloseCancel(i) =>
      At(s, i) && ((s.tasks[i].Closing? && t == Put(s, i, Idle))
                   || (s.tasks[i].CloseOne? && t == Put(s, i, Idle).(locked := false, leaked := s.leaked + 1)))
  }

  // ---------------------------------------------------------------------------
  // Counting tasks
  // ---------------------------------------------------------------------------

  function Bit(b: bool): nat {
    if b then 1 else 0
  }

  function Tally(tasks: seq<Task>, f: Task -> bool): nat {
    if tasks == [] then 0 else Tally(tasks[..|tasks| - 1], f) + Bit(f(tasks[|tasks| - 1]))
  }

  function Owner(c: Conn): Task -> bool {
    t => Owns(t, c)
  }

  function Occurs(channel: seq<Conn>, c: Conn): nat {
    if channel == [] then 0 else Occurs(channel[..|channel| - 1], c) + Bit(channel[|channel| - 1] == c)
  }

  lemma {:induction false} TallyPut(tasks: seq<Task>, f: Task -> bool, i: nat, t: Task)
    requires i < |tasks|
    ensures Tally(tasks[i := t], f) == Tally(tasks, f) - Bit(f(tasks[i])) + Bit(f(t))
  {
    var n := |tasks| - 1;
    if i < n {
      assert tasks[i := t][..n] == tasks[..n][i := t];
      TallyPut(tasks[..n], f, i, t);
    } else {
      assert tasks[i := t][..n] == tasks[..n];
    }
  }

  lemma TallyPositive(tasks: seq<Task>, f: Task -> bool, i: nat)
    requires i < |tasks| && f(tasks[i])
    ensures Tally(tasks, f) >= 1
  {
    TallyPut(tasks, f, i, tasks[i]);
    TallyPut(tasks, f, i, Idle);
  }

  lemma {:induction false} TallyTwo(tasks: seq<Task>, f: Task -> bool, i: nat, j: nat)
    requires i < j < |tasks| && f(tasks[i]) && f(tasks[j])
    ensures Tally(tasks, f) >= 2
  {
    var n := |tasks| - 1;
    if j < n {
      TallyTwo(tasks[..n], f, i, j);
    } else {
      TallyPositive(tasks[..n], f, i);
    }
  }

  lemma {:induction false} OccursHead(channel: seq<Conn>, c: Conn)
    requires channel != []
    ensures Occurs(channel, c) == Bit(channel[0] == c) + Occurs(channel[1..], c)
  {
    var n := |channel| - 1;
    if n > 0 {
      OccursHead(channel[..n], c);
      assert channel[..n][1..] == channel[1..][..n - 1];
    }
  }

  lemma OccursAppend(channel: seq<Conn>, x: Conn, c: Conn)
    ensures Occurs(channel + [x], c) == Occurs(channel, c) + Bit(x == c)
  {
    assert (channel + [x])[..|channel|] == channel;
  }

  lemma {:induction false} OccursMember(channel: seq<Conn>, c: Conn)
    ensures c in channel <==> Occurs(channel, c) >= 1
  {
    if channel != [] {
      OccursMember(channel[..|channel| - 1], c);
    }
  }

  lemma {:induction false} TallyBelow(tasks: seq<Task>, f: Task -> bool, g: Task -> bool)
    requires forall t: Task | f(t) :: g(t)
    ensures Tally(tasks, f) <= Tally(tasks, g)
  {
    if tasks != [] {
      TallyBelow(tasks[..|tasks| - 1], f, g);
    }
  }

  // ---------------------------------------------------------------------------
  // The invariant
  // ---------------------------------------------------------------------------

  /** In how many places a connection is: queued, or owned by a task. */
  function Places(s: State, c: Conn): nat {
    Occurs(s.channel, c) + Tally(s.tasks, Owner(c))
  }

  ghost predicate Inv(s: State) {
    && s.permits + Tally(s.tasks, HoldsPermit) == s.max
    && Tally(s.tasks, HoldsLock) == Bit(s.locked)
    && s.size == |s.channel| + Tally(s.tasks, Counted) + s.leaked
    && forall c: Conn :: Places(s, c) <= Bit(c < s.nextConn)
  }

  /** What one step does to the counters, as seen from whoever takes it. */
  ghost predicate Balanced(s: State, i: nat, t: State) {
    && i < |s.tasks| && |t.tasks| == |s.tasks| && t.tasks == s.tasks[i := t.tasks[i]] && t.max == s.max
    && t.permits + Bit(HoldsPermit(t.tasks[i])) == s.permits + Bit(HoldsPermit(s.tasks[i]))
    && Bit(t.locked) + Bit(HoldsLock(s.tasks[i])) == Bit(s.locked) + Bit(HoldsLock(t.tasks[i]))
    && Drift(t, i) == Drift(s, i)
  }

  /** A step moves or drops the connection `c`, or opens it. */
  ghost predicate Conserved(s: State, i: nat, t: State, c: Conn) {
    && i < |s.tasks| && i < |t.tasks| && s.nextConn <= t.nextConn
    && Occurs(t.channel, c) + Bit(Owns(t.tasks[i], c))
       <= Occurs(s.channel, c) + Bit(Owns(s.tasks[i], c)) + Bit(s.nextConn <= c < t.nextConn)
  }

  lemma NextTask(s: State, step: Step, t: State)
    requires Next(s, step, t) && !step.Spawn?
    ensures step.i < |s.tasks| && |t.tasks| == |s.tasks| && t.tasks == s.tasks[step.i := t.tasks[step.i]]
        && t.max == s.max
  {
  }

  lemma EarlyPermits(s: State, step: Step, t: State)
    requires Next(s, step, t) && Early(step)
    ensures step.i < |s.tasks| == |t.tasks|
    ensures t.permits + Bit(HoldsPermit(t.tasks[step.i])) == s.permits + Bit(HoldsPermit(s.tasks[step.i]))
  {
  }

  lemma MovingPermits(s: State, step: Step, t: State)
    requires Next(s, step, t) && Moving(step)
    ensures step.i < |s.tasks| == |t.tasks|
    ensures t.permits + Bit(HoldsPermit(t.tasks[step.i])) == s.permits + Bit(HoldsPermit(s.tasks[step.i]))
  {
  }

  lemma ClosePermits(s: State, step: Step, t: State)
    requires Next(s, step, t) && !step.Spawn? && !Early(step) && !Moving(step)
    ensures step.i < |s.tasks| == |t.tasks|
    ensures t.permits + Bit(HoldsPermit(t.tasks[step.i])) == s.permits + Bit(HoldsPermit(s.tasks[step.i]))
  {
  }

  lemma NextPermits(s: State, step: Step, t: State)
    requires Next(s, step, t) && !step.Spawn?
    ensures step.i < |s.tasks| == |t.tasks|
    ensures t.permits + Bit(HoldsPermit(t.tasks[step.i])) == s.permits + Bit(HoldsPermit(s.tasks[step.i]))
  {
    hide Next, Early, Moving, HoldsPermit;
    if Early(step) {
      EarlyPermits(s, step, t);
    } else if Moving(step) {
      MovingPermits(s, step, t);
    } else {
      ClosePermits(s, step, t);
    }
  }

  lemma NextLock(s: State, step: Step, t: State)
    requires Next(s, step, t) && !step.Spawn?
    requires HoldsLock(s.tasks[step.i]) ==> s.locked
    ensures Bit(t.locked) + Bit(HoldsLock(s.tasks[step.i])) == Bit(s.locked) + Bit(HoldsLock(t.tasks[step.i]))
  {
  }

  /** The steps of `get` before it holds a connection. */
  predicate Early(step: Step) {
    step.Check? || step.Acquire? || step.Abandon? || step.Lock? || step.FindEmpty? || step.Fail? || step.Connect?
  }

  /** The steps of `get` and of the return closure that move a connection. */
  predicate Moving(step: Step) {
    step.TakeUsable? || step.TakeStale? || step.Uncount? || step.Count? || step.HandOut? || step.DropOut?
        || step.Recycle? || step.Discard?
  }

  /** Connections queued, owned and leaked, against the size counter, but for the task at `i`. */
  function Drift(s: State, i: nat): int
    requires i < |s.tasks|
  {
    s.size - s.leaked - |s.channel| - Bit(Counted(s.tasks[i]))
  }

  lemma EarlySize(s: State, step: Step, t: State)
    requires Next(s, step, t) && Early(step)
    ensures step.i < |s.tasks| == |t.tasks| && Drift(t, step.i) == Drift(s, step.i)
  {
  }

  lemma TakingSize(s: State, step: Step, t: State)
    requires Next(s, step, t) && (step.TakeUsable? || step.TakeStale? || step.Uncount? || step.Count?)
    ensures step.i < |s.tasks| == |t.tasks| && Drift(t, step.i) == Drift(s, step.i)
  {
  }

  lemma ReturningSize(s: State, step: Step, t: State)
    requires Next(s, step, t) && (step.HandOut? || step.DropOut? || step.Recycle? || step.Discard?)
    ensures step.i < |s.tasks| == |t.tasks| && Drift(t, step.i) == Drift(s, step.i)
  {
  }

  lemma ClosingSize(s: State, step: Step, t: State)
    requires Next(s, step, t) && !step.Spawn? && !Early(step) && !Moving(step)
    ensures step.i < |s.tasks| == |t.tasks| && Drift(t, step.i) == Drift(s, step.i)
  {
  }

  lemma NextSize(s: State, step: Step, t: State)
    requires Next(s, step, t) && !step.Spawn?
    ensures step.i < |s.tasks| == |t.tasks| && Drift(t, step.i) == Drift(s, step.i)
  {
    hide Next, Drift, Early;
    if Early(step) {
      EarlySize(s, step, t);
    } else if step.TakeUsable? || step.TakeStale? || step.Uncount? || step.Count? {
      TakingSize(s, step, t);
    } else if Moving(step) {
      ReturningSize(s, step, t);
    } else {
      ClosingSize(s, step, t);
    }
  }

  predicate Takes(step: Step) {
    step.TakeUsable? || step.TakeStale? || step.CloseTake?
  }

  lemma TakeConserved(s: State, step: Step, t: State, c: Conn)
    requires Next(s, step, t) && Takes(step)
    ensures Conserved(s, step.i, t, c)
  {
    OccursHead(s.channel, c);
    hide Occurs;
  }

  lemma RecycleEffect(s: State, step: Step, t: State)
    requires Next(s, step, t) && step.Recycle?
    ensures s.tasks[step.i].Returning? && t.channel == s.channel + [s.tasks[step.i].c]
    ensures step.i < |t.tasks| && t.tasks[step.i] == Idle && t.nextConn == s.nextConn
  {
  }

  lemma RecycleConserved(s: State, step: Step, t: State, c: Conn)
    requires Next(s, step, t) && step.Recycle?
    ensures Conserved(s, step.i, t, c)
  {
    RecycleEffect(s, step, t);
    OccursAppend(s.channel, s.tasks[step.i].c, c);
    hide Next, Occurs;
  }

  lemma OtherConserved(s: State, step: Step, t: State, c: Conn)
    requires Next(s, step, t) && !step.Spawn? && !Takes(step) && !step.Recycle?
    ensures Conserved(s, step.i, t, c)
  {
    hide Occurs;
  }

  lemma NextConserved(s: State, step: Step, t: State, c: Conn)
    requires Next(s, step, t) && !step.Spawn?
    ensures Conserved(s, step.i, t, c)
  {
    hide Next, Conserved;
    if Takes(step) {
      TakeConserved(s, step, t, c);
    } else if step.Recycle? {
      RecycleConserved(s, step, t, c);
    } else {
      OtherConserved(s, step, t, c);
    }
  }

  lemma BalancedCounters(s: State, i: nat, t: State)
    requires Inv(s) && Balanced(s, i, t)
    ensures t.permits + Tally(t.tasks, HoldsPermit) == t.max
    ensures Tally(t.tasks, HoldsLock) == Bit(t.locked)
    ensures t.size == |t.channel| + Tally(t.tasks, Counted) + t.leaked
  {
    var task := t.tasks[i];
    TallyPut(s.tasks, HoldsPermit, i, task);
    TallyPut(s.tasks, HoldsLock, i, task);
    TallyPut(s.tasks, Counted, i, task);
    hide Tally, Places, HoldsPermit, HoldsLock, Counted;
  }

  lemma ConservedPlaces(s: State, i: nat, t: State, c: Conn)
    requires i < |s.tasks| && i < |t.tasks| && t.tasks == s.tasks[i := t.tasks[i]]
    requires Places(s, c) <= Bit(c < s.nextConn) && Conserved(s, i, t, c)
    ensures Places(t, c) <= Bit(c < t.nextConn)
  {
    TallyPut(s.tasks, Owner(c), i, t.tasks[i]);
    hide Tally, Occurs, Owns;
  }

  lemma ActiveInv(s: State, step: Step, t: State)
    requires Inv(s) && Next(s, step, t) && !step.Spawn?
    ensures Inv(t) && t.max == s.max
  {
    NextTask(s, step, t);
    var i := step.i;
    hide Next, Places, Tally;
    if HoldsLock(s.tasks[i]) {
      TallyPositive(s.tasks, HoldsLock, i);
    }
    NextPermits(s, step, t);
    NextLock(s, step, t);
    NextSize(s, step, t);
    BalancedCounters(s, i, t);
    forall c: Conn ensures Places(t, c) <= Bit(c < t.nextConn) {
      NextConserved(s, step, t, c);
      ConservedPlaces(s, i, t, c);
    }
  }

  /** Every step keeps the accounting: permits, lock, size, and one place per connection. */
  lemma NextInv(s: State, step: Step, t: State)
    requires Inv(s) && Next(s, step, t)
    ensures Inv(t) && t.max == s.max
  {
    if step.Spawn? {
      assert t.tasks[..|s.tasks|] == s.tasks;
      forall c: Conn ensures Places(t, c) == Places(s, c) {
      }
    } else {
      ActiveInv(s, step, t);
    }
  }

  ghost predicate Run(max: nat, min: nat, states: seq<State>, steps: seq<Step>) {
    && |states| == |steps| + 1 && states[0] == Initial(max, min)
    && forall k | 0 <= k < |steps| :: Next(states[k], steps[k], states[k + 1])
  }

  ghost predicate Reachable(max: nat, min: nat, s: State) {
    exists states: seq<State>, steps: seq<Step> :: Run(max, min, states, steps) && states[|steps|] == s
  }

  lemma InitialInv(max: nat, min: nat)
    ensures Inv(Initial(max, min))
  {
    forall c: Conn ensures Occurs(Initial(max, min).channel, c) == Bit(c < min) {
      NumbersOccur(Initial(max, min).channel, c);
    }
  }

  lemma {:induction false} NumbersOccur(xs: seq<Conn>, c: Conn)
    requires forall i | 0 <= i < |xs| :: xs[i] == i
    ensures Occurs(xs, c) == Bit(c < |xs|)
  {
    if xs != [] {
      NumbersOccur(xs[..|xs| - 1], c);
    }
  }

  lemma {:induction false} RunInv(max: nat, min: nat, states: seq<State>, steps: seq<Step>, n: nat)
    requires Run(max, min, states, steps) && n <= |steps|
    ensures Inv(states[n]) && states[n].max == max
  {
    if n == 0 {
      InitialInv(max, min);
    } else {
      hide Inv, Next;
      RunInv(max, min, states, steps, n - 1);
      NextInv(states[n - 1], steps[n - 1], states[n]);
    }
  }

  // ---------------------------------------------------------------------------
  // What every reachable state satisfies
  // ---------------------------------------------------------------------------

  /** Permits are conserved, checkouts are bounded, and the size counter never underflows. */
  lemma Accounting(max: nat, min: nat, states: seq<State>, steps: seq<Step>, n: nat)
    requires Run(max, min, states, steps) && n <= |steps|
    ensures var s := states[n];
            && s.permits + Tally(s.tasks, HoldsPermit) == max
            && Tally(s.tasks, CheckedOut) <= max
            && s.size == |s.channel| + Tally(s.tasks, Counted) + s.leaked
            && s.size >= 0
  {
    RunInv(max, min, states, steps, n);
    TallyBelow(states[n].tasks, CheckedOut, HoldsPermit);
  }

  predicate Cancelled(s: State, step: Step) {
    step.CloseCancel? && At(s, step.i) && s.tasks[step.i].CloseOne?
  }

  lemma NextLeaked(s: State, step: Step, t: State)
    requires Next(s, step, t)
    ensures t.leaked == s.leaked + Bit(Cancelled(s, step))
  {
  }

  lemma {:induction false} LeakedCounts(max: nat, min: nat, states: seq<State>, steps: seq<Step>, n: nat)
    requires Run(max, min, states, steps) && n <= |steps|
    ensures states[n].leaked == 0 <==> forall k | 0 <= k < n :: !Cancelled(states[k], steps[k])
  {
    if n > 0 {
      hide Next, Cancelled;
      LeakedCounts(max, min, states, steps, n - 1);
      NextLeaked(states[n - 1], steps[n - 1], states[n]);
    }
  }

  /** The size is exactly the connections in existence if and only if no `close` was cancelled between taking and
      uncounting one. */
  lemma SizeExact(max: nat, min: nat, states: seq<State>, steps: seq<Step>, n: nat)
    requires Run(max, min, states, steps) && n <= |steps|
    ensures states[n].size == |states[n].channel| + Tally(states[n].tasks, Counted)
            <==> forall k | 0 <= k < n :: !Cancelled(states[k], steps[k])
  {
    RunInv(max, min, states, steps, n);
    LeakedCounts(max, min, states, steps, n);
  }

  /** A connection with a caller is in no other place. */
  lemma OnePlace(s: State, i: nat, c: Conn)
    requires Inv(s) && i < |s.tasks| && Owns(s.tasks[i], c)
    ensures Occurs(s.channel, c) == 0 && Tally(s.tasks, Owner(c)) == 1
  {
    assert Places(s, c) <= Bit(c < s.nextConn);
    assert Owner(c)(s.tasks[i]);
    hide Occurs;
    TallyPositive(s.tasks, Owner(c), i);
  }

  /** No connection is handed to two callers. */
  lemma Exclusive(max: nat, min: nat, states: seq<State>, steps: seq<Step>, n: nat, i: nat, j: nat)
    requires Run(max, min, states, steps) && n <= |steps|
    requires i < j < |states[n].tasks| && CheckedOut(states[n].tasks[i]) && CheckedOut(states[n].tasks[j])
    ensures states[n].tasks[i].c != states[n].tasks[j].c
  {
    var s := states[n];
    var c := s.tasks[i].c;
    hide Run, Inv;
    RunInv(max, min, states, steps, n);
    OnePlace(s, i, c);
    if s.tasks[j].c == c {
      assert Owner(c)(s.tasks[i]) && Owner(c)(s.tasks[j]);
      TallyTwo(s.tasks, Owner(c), i, j);
    }
  }

  /** No connection is both with a caller and idle. */
  lemma NotIdle(max: nat, min: nat, states: seq<State>, steps: seq<Step>, n: nat, i: nat)
    requires Run(max, min, states, steps) && n <= |steps|
    requires i < |states[n].tasks| && CheckedOut(states[n].tasks[i])
    ensures states[n].tasks[i].c !in states[n].channel
  {
    var s := states[n];
    hide Run, Inv;
    RunInv(max, min, states, steps, n);
    OnePlace(s, i, s.tasks[i].c);
    OccursMember(s.channel, s.tasks[i].c);
  }

  // ---------------------------------------------------------------------------
  // When the size is bounded
  // ---------------------------------------------------------------------------

  /** The task has, or is opening, a connection. */
  predicate Engaged(t: Task) {
    Counted(t) || t.Opening? || t.Opened?
  }

  /** Connections queued, owned or being opened. */
  function Load(s: State): nat {
    |s.channel| + Tally(s.tasks, Engaged)
  }

  /** A `get` finds the channel empty while a returned connection has not been sent back yet. */
  ghost predicate Overtakes(s: State, step: Step) {
    step.FindEmpty? && exists i :: 0 <= i < |s.tasks| && s.tasks[i].Returning?
  }

  lemma EarlyLoad(s: State, step: Step, t: State)
    requires Next(s, step, t) && (Early(step) || step.Spawn?) && !step.FindEmpty?
    ensures t.channel == s.channel && t.leaked == s.leaked
    ensures step.Spawn? || (step.i < |s.tasks| == |t.tasks|
        && Bit(Engaged(t.tasks[step.i])) <= Bit(Engaged(s.tasks[step.i])))
  {
  }

  lemma MovingLoad(s: State, step: Step, t: State)
    requires Next(s, step, t) && Moving(step)
    ensures step.i < |s.tasks| == |t.tasks| && t.leaked == s.leaked
    ensures |t.channel| + Bit(Engaged(t.tasks[step.i])) <= |s.channel| + Bit(Engaged(s.tasks[step.i]))
  {
  }

  lemma ClosingLoad(s: State, step: Step, t: State)
    requires Next(s, step, t) && !step.Spawn? && !Early(step) && !Moving(step)
    ensures step.i < |s.tasks| == |t.tasks|
    ensures |t.channel| + Bit(Engaged(t.tasks[step.i])) + t.leaked
         <= |s.channel| + Bit(Engaged(s.tasks[step.i])) + s.leaked
    ensures t.leaked >= s.leaked
  {
  }

  /** Only finding the channel empty adds to the load. */
  lemma NextLoad(s: State, step: Step, t: State)
    requires Next(s, step, t) && !step.FindEmpty?
    ensures Load(t) + t.leaked <= Load(s) + s.leaked && t.leaked >= s.leaked
  {
    if step.Spawn? {
      assert t.tasks[..|s.tasks|] == s.tasks;
    } else {
      NextTask(s, step, t);
      hide Next, Engaged, Early, Moving;
      TallyPut(s.tasks, Engaged, step.i, t.tasks[step.i]);
      hide Tally;
      if Early(step) {
        EarlyLoad(s, step, t);
      } else if Moving(step) {
        MovingLoad(s, step, t);
      } else {
        ClosingLoad(s, step, t);
      }
    }
  }

  lemma FindEmptyEffect(s: State, step: Step, t: State)
    requires Next(s, step, t) && step.FindEmpty?
    ensures step.i < |s.tasks| && s.tasks[step.i].Draining? && s.channel == [] == t.channel
    ensures t.tasks == s.tasks[step.i := Opening] && t.leaked == s.leaked
  {
  }

  /** With the receiver lock at `i`, every other task that is engaged holds a permit, or is on its way back. */
  lemma {:induction false} EngagedHoldPermits(tasks: seq<Task>, i: nat)
    requires forall k | 0 <= k < |tasks| :: !tasks[k].Returning? && !(k != i && HoldsLock(tasks[k]))
    requires i < |tasks| ==> tasks[i].Draining?
    ensures Tally(tasks, Engaged) + Bit(i < |tasks|) <= Tally(tasks, HoldsPermit)
  {
    if tasks != [] {
      EngagedHoldPermits(tasks[..|tasks| - 1], i);
    }
  }

  lemma FindEmptyBound(s: State, step: Step, t: State)
    requires Inv(s) && Next(s, step, t) && step.FindEmpty? && !Overtakes(s, step)
    ensures Load(t) <= s.max && t.leaked == s.leaked
  {
    FindEmptyEffect(s, step, t);
    var i := step.i;
    hide Next;
    forall k | 0 <= k < |s.tasks| ensures !(k != i && HoldsLock(s.tasks[k])) {
      if k != i && HoldsLock(s.tasks[k]) {
        TallyTwo(s.tasks, HoldsLock, if k < i then k else i, if k < i then i else k);
      }
    }
    EngagedHoldPermits(s.tasks, i);
    TallyPut(s.tasks, Engaged, i, Opening);
  }

  /** Without overtaking, at most the larger of maximum and minimum are queued, owned or being opened. */
  lemma {:induction false} LoadBounded(max: nat, min: nat, states: seq<State>, steps: seq<Step>, n: nat)
    requires Run(max, min, states, steps) && n <= |steps|
    requires forall k | 0 <= k < n :: !Overtakes(states[k], steps[k])
    ensures Load(states[n]) <= Max(max, min)
  {
    if n > 0 {
      var s, step, t := states[n - 1], steps[n - 1], states[n];
      assert !Overtakes(s, step);
      LoadBounded(max, min, states, steps, n - 1);
      RunInv(max, min, states, steps, n - 1);
      assert Next(s, step, t);
      hide Next, Inv, Overtakes, Load, Run;
      if step.FindEmpty? {
        FindEmptyBound(s, step, t);
      } else {
        NextLoad(s, step, t);
      }
    }
  }

  /** Without overtaking, the size exceeds the larger of maximum and minimum by no more than what cancelled closes
      leaked. */
  lemma SizeBounded(max: nat, min: nat, states: seq<State>, steps: seq<Step>, n: nat)
    requires Run(max, min, states, steps) && n <= |steps|
    requires forall k | 0 <= k < n :: !Overtakes(states[k], steps[k])
    ensures states[n].size <= Max(max, min) + states[n].leaked
    ensures (forall k | 0 <= k < n :: !Cancelled(states[k], steps[k])) ==> states[n].size <= Max(max, min)
  {
    LoadBounded(max, min, states, steps, n);
    RunInv(max, min, states, steps, n);
    LeakedCounts(max, min, states, steps, n);
    TallyBelow(states[n].tasks, Counted, Engaged);
  }

  /** A pool without permits never finds its channel empty. */
  lemma {:induction false} NoPermitsBounded(min: nat, states: seq<State>, steps: seq<Step>, n: nat)
    requires Run(0, min, states, steps) && n <= |steps|
    ensures Load(states[n]) + states[n].leaked <= min
  {
    if n > 0 {
      var s, step, t := states[n - 1], steps[n - 1], states[n];
      NoPermitsBounded(min, states, steps, n - 1);
      RunInv(0, min, states, steps, n - 1);
      assert Next(s, step, t);
      if step.FindEmpty? {
        FindEmptyEffect(s, step, t);
        TallyPositive(s.tasks, HoldsPermit, step.i);
        assert false;
      }
      hide Next, Inv, Load, Run;
      NextLoad(s, step, t);
    }
  }

  // ---------------------------------------------------------------------------
  // Reaching states
  // ---------------------------------------------------------------------------

  lemma ReachInitial(max: nat, min: nat)
    ensures Reachable(max, min, Initial(max, min))
  {
    var states, steps: seq<Step> := [Initial(max, min)], [];
    assert Run(max, min, states, steps) && states[|steps|] == Initial(max, min);
  }

  lemma Reach(max: nat, min: nat, s: State, step: Step, t: State)
    requires Reachable(max, min, s) && Next(s, step, t)
    ensures Reachable(max, min, t)
  {
    var states, steps :| Run(max, min, states, steps) && states[|steps|] == s;
    var states', steps' := states + [t], steps + [step];
    hide Next;
    forall k | 0 <= k < |steps'| ensures Next(states'[k], steps'[k], states'[k + 1]) {
      assert k < |steps| ==> Next(states[k], steps[k], states[k + 1]);
    }
    assert Run(max, min, states', steps') && states'[|steps'|] == t;
  }

  /** The pool's one `get` discards the queued connections, the last `left` of which remain. */
  function Purging(max: nat, min: nat, left: nat): State
    requires left <= min && max > 0
  {
    State(max, max - 1, seq(left, (i: nat) => min - left + i), left, false, true, [Draining], min, 0)
  }

  lemma ReachPurging(max: nat, min: nat)
    requires max > 0
    ensures Reachable(max, min, Purging(max, min, min))
  {
    ReachInitial(max, min);
    var s := Initial(max, min);
    assert s.channel == Purging(max, min, min).channel;
    hide Reachable;
    var s1 := s.(tasks := [Idle]);
    Reach(max, min, s, Spawn, s1);
    var s2 := s.(tasks := [Waiting]);
    Reach(max, min, s1, Check(0), s2);
    var s3 := s.(tasks := [Permitted], permits := max - 1);
    Reach(max, min, s2, Acquire(0), s3);
    Reach(max, min, s3, Lock(0), Purging(max, min, min));
  }

  lemma {:induction false} ReachPurged(max: nat, min: nat, left: nat)
    requires max > 0 && left <= min
    ensures Reachable(max, min, Purging(max, min, left))
    decreases min - left
  {
    if left == min {
      ReachPurging(max, min);
    } else {
      ReachPurged(max, min, left + 1);
      var s, t := Purging(max, min, left + 1), Purging(max, min, left);
      assert s.channel[1..] == t.channel;
      hide Reachable;
      var mid := s.(tasks := [Discarding(s.channel[0])], channel := t.channel);
      Reach(max, min, s, TakeStale(0), mid);
      Reach(max, min, mid, Uncount(0), t);
    }
  }

  function Returned(first: nat, n: nat): seq<Task> {
    [Idle] + seq(n, (i: nat) => Returning(first + i, false))
  }

  /** `n` callers have released their permit and not yet sent their connection back. */
  function Crowd(max: nat, min: nat, n: nat): State {
    State(max, max, [], n, false, false, Returned(min, n), min + n, 0)
  }

  lemma ReachEmpty(max: nat, min: nat)
    requires max > 0
    ensures Reachable(max, min, Crowd(max, min, 0))
  {
    ReachPurged(max, min, 0);
    var s := Purging(max, min, 0);
    assert s.channel == [] && Returned(min, 0) == [Idle];
    hide Reachable;
    var opening := s.(tasks := [Opening], locked := false);
    Reach(max, min, s, FindEmpty(0), opening);
    Reach(max, min, opening, Fail(0), Crowd(max, min, 0));
  }

  /** The stages of one more checkout. */
  function Joining(max: nat, min: nat, n: nat, task: Task): State
    requires max > 0
  {
    var s := Crowd(max, min, n);
    var connected := task.Opened? || task.Got? || task.Out?;
    s.(tasks := s.tasks + [task], locked := task.Draining?,
       permits := if task.Idle? || task.Waiting? then max else max - 1,
       nextConn := if connected then min + n + 1 else min + n, size := if task.Got? || task.Out? then n + 1 else n)
  }

  lemma JoinBefore(max: nat, min: nat, n: nat)
    requires max > 0 && Reachable(max, min, Crowd(max, min, n))
    ensures Reachable(max, min, Joining(max, min, n, Opening))
  {
    hide Reachable, Returned;
    var i := n + 1;
    ReturnedLength(min, n);
    var s := Crowd(max, min, n);
    Reach(max, min, s, Spawn, Joining(max, min, n, Idle));
    ReachPut(max, min, Joining(max, min, n, Idle), Check(i), Joining(max, min, n, Waiting));
    ReachPut(max, min, Joining(max, min, n, Waiting), Acquire(i), Joining(max, min, n, Permitted));
    ReachPut(max, min, Joining(max, min, n, Permitted), Lock(i), Joining(max, min, n, Draining));
    ReachPut(max, min, Joining(max, min, n, Draining), FindEmpty(i), Joining(max, min, n, Opening));
  }

  /** A step whose effect on the tasks is stated by position. */
  lemma ReachPut(max: nat, min: nat, s: State, step: Step, t: State)
    requires Reachable(max, min, s) && !step.Spawn? && step.i < |s.tasks| == |t.tasks|
    requires Next(s, step, t.(tasks := s.tasks[step.i := t.tasks[step.i]]))
    requires forall k | 0 <= k < |s.tasks| && k != step.i :: t.tasks[k] == s.tasks[k]
    ensures Reachable(max, min, t)
  {
    assert t.tasks == s.tasks[step.i := t.tasks[step.i]];
    assert t == t.(tasks := s.tasks[step.i := t.tasks[step.i]]);
    hide Reachable, Next;
    Reach(max, min, s, step, t);
  }

  lemma ReturnedLength(first: nat, n: nat)
    ensures |Returned(first, n)| == n + 1
    ensures Returned(first, n + 1) == Returned(first, n) + [Returning(first + n, false)]
  {
  }

  lemma JoinOpened(max: nat, min: nat, n: nat)
    requires max > 0 && Reachable(max, min, Joining(max, min, n, Opening))
    ensures Reachable(max, min, Joining(max, min, n, Got(min + n)))
  {
    hide Reachable, Returned;
    var i, c := n + 1, min + n;
    ReturnedLength(min, n);
    ReachPut(max, min, Joining(max, min, n, Opening), Connect(i), Joining(max, min, n, Opened(c)));
    ReachPut(max, min, Joining(max, min, n, Opened(c)), Count(i), Joining(max, min, n, Got(c)));
  }

  lemma JoinAfter(max: nat, min: nat, n: nat)
    requires max > 0 && Reachable(max, min, Joining(max, min, n, Got(min + n)))
    ensures Reachable(max, min, Crowd(max, min, n + 1))
  {
    hide Reachable, Returned;
    var i, c := n + 1, min + n;
    ReturnedLength(min, n);
    ReachPut(max, min, Joining(max, min, n, Got(c)), HandOut(i), Joining(max, min, n, Out(c, false)));
    ReachPut(max, min, Joining(max, min, n, Out(c, false)), DropOut(i), Crowd(max, min, n + 1));
  }

  lemma {:induction false} ReachCrowd(max: nat, min: nat, n: nat)
    requires max > 0
    ensures Reachable(max, min, Crowd(max, min, n))
  {
    hide Reachable;
    if n == 0 {
      ReachEmpty(max, min);
    } else {
      ReachCrowd(max, min, n - 1);
      JoinBefore(max, min, n - 1);
      JoinOpened(max, min, n - 1);
      JoinAfter(max, min, n - 1);
    }
  }

  /** Whatever its positive maximum, a pool can open any number of connections, since the permit is released before the
      send. */
  lemma SizeUnbounded(max: nat, min: nat, n: nat)
    requires max > 0
    ensures exists s: State :: Reachable(max, min, s) && s.size == n
  {
    ReachCrowd(max, min, n);
  }

  ghost predicate BoundedBy(max: nat, min: nat, bound: nat) {
    forall s: State | Reachable(max, min, s) :: s.size <= bound
  }

  /** A pool's size has a bound over all runs exactly when the pool has no permits to give. */
  lemma SizeBoundedExactly(max: nat, min: nat)
    ensures (exists bound: nat :: BoundedBy(max, min, bound)) <==> max == 0
  {
    hide Reachable;
    if max == 0 {
      forall s: State | Reachable(0, min, s) ensures s.size <= min {
        NoPermitsSize(min, s);
      }
      assert BoundedBy(max, min, min);
    } else {
      forall bound: nat ensures !BoundedBy(max, min, bound) {
        SizeUnbounded(max, min, bound + 1);
      }
    }
  }

  lemma NoPermitsSize(min: nat, s: State)
    requires Reachable(0, min, s)
    ensures s.size <= min
  {
    var states, steps :| Run(0, min, states, steps) && states[|steps|] == s;
    NoPermitsBounded(min, states, steps, |steps|);
    RunInv(0, min, states, steps, |steps|);
    TallyBelow(s.tasks, Counted, Engaged);
  }

  // ---------------------------------------------------------------------------
  // What closing does
  // ---------------------------------------------------------------------------

  lemma NextClosed(s: State, step: Step, t: State)
    requires Next(s, step, t) && s.closed
    ensures t.closed && |s.tasks| <= |t.tasks|
    ensures forall i | 0 <= i < |s.tasks| && t.tasks[i].Waiting? :: s.tasks[i].Waiting?
    ensures forall i | |s.tasks| <= i < |t.tasks| :: !t.tasks[i].Waiting?
  {
  }

  /** Once closed, a pool stays closed and takes up no further `get`: whoever waits later waited already. */
  lemma {:induction false} ClosedRefuses(s: State, states: seq<State>, steps: seq<Step>, n: nat, i: nat)
    requires s.closed && Continues(s, states, steps) && n <= |steps| && i < |states[n].tasks|
        && states[n].tasks[i].Waiting?
    ensures states[n].closed && i < |s.tasks| && s.tasks[i].Waiting?
  {
    if n > 0 {
      ClosedStays(s, states, steps, n - 1);
      hide Next;
      NextClosed(states[n - 1], steps[n - 1], states[n]);
      ClosedRefuses(s, states, steps, n - 1, i);
    }
  }

  lemma {:induction false} ClosedStays(s: State, states: seq<State>, steps: seq<Step>, n: nat)
    requires s.closed && Continues(s, states, steps) && n <= |steps|
    ensures states[n].closed
  {
    hide Next;
    if n > 0 {
      ClosedStays(s, states, steps, n - 1);
      NextClosed(states[n - 1], steps[n - 1], states[n]);
    }
  }

  // ---------------------------------------------------------------------------
  // When a closed pool stays empty
  // ---------------------------------------------------------------------------

  /** States and steps that continue a given state. */
  ghost predicate Continues(s: State, states: seq<State>, steps: seq<Step>) {
    && |states| == |steps| + 1 && states[0] == s
    && forall k | 0 <= k < |steps| :: Next(states[k], steps[k], states[k + 1])
  }

  ghost predicate StaysEmpty(s: State) {
    forall states: seq<State>, steps: seq<Step> | Continues(s, states, steps) :: states[|steps|].channel == []
  }

  /** The caller has, or is returning, a connection checked out while the pool was open. */
  predicate Outstanding(t: Task) {
    (t.Out? || t.Returning?) && !t.sawClosed
  }

  ghost predicate Settled(s: State) {
    s.closed && s.channel == [] && forall i | 0 <= i < |s.tasks| :: !Outstanding(s.tasks[i])
  }

  lemma SettledTask(s: State, step: Step, t: State)
    requires s.closed && s.channel == [] && Next(s, step, t) && !step.Spawn? && step.i < |s.tasks|
        && !Outstanding(s.tasks[step.i])
    ensures t.closed && t.channel == [] && step.i < |t.tasks| && !Outstanding(t.tasks[step.i])
  {
  }

  lemma NextSettled(s: State, step: Step, t: State)
    requires Settled(s) && Next(s, step, t)
    ensures Settled(t)
  {
    if !step.Spawn? {
      NextTask(s, step, t);
      SettledTask(s, step, t);
      hide Next, Outstanding;
    }
  }

  lemma {:induction false} ContinuesSettled(s: State, states: seq<State>, steps: seq<Step>, n: nat)
    requires Settled(s) && Continues(s, states, steps) && n <= |steps|
    ensures Settled(states[n])
  {
    if n > 0 {
      hide Next, Settled;
      ContinuesSettled(s, states, steps, n - 1);
      NextSettled(states[n - 1], steps[n - 1], states[n]);
    }
  }

  lemma ReturningRefills(s: State, i: nat, full: State)
    requires i < |s.tasks| && s.tasks[i].Returning? && !s.tasks[i].sawClosed
    requires full == Put(s, i, Idle).(channel := s.channel + [s.tasks[i].c])
    ensures Next(s, Recycle(i), full) && full.channel != []
  {
  }

  lemma OutReturns(s: State, i: nat, late: State)
    requires i < |s.tasks| && s.tasks[i].Out?
    requires late == Put(s, i, Returning(s.tasks[i].c, s.tasks[i].sawClosed)).(permits := s.permits + 1)
    ensures Next(s, DropOut(i), late)
  {
  }

  /** An outstanding connection can come back. */
  lemma OutstandingRefills(s: State, i: nat)
    requires i < |s.tasks| && Outstanding(s.tasks[i])
    ensures !StaysEmpty(s)
  {
    var c := s.tasks[i].c;
    var late := if s.tasks[i].Out? then Put(s, i, Returning(c, false)).(permits := s.permits + 1) else s;
    var full := Put(late, i, Idle).(channel := late.channel + [c]);
    hide Next;
    ReturningRefills(late, i, full);
    if s.tasks[i].Out? {
      OutReturns(s, i, late);
      assert Continues(s, [s, late, full], [DropOut(i), Recycle(i)]);
    } else {
      assert Continues(s, [s, full], [Recycle(i)]);
    }
  }

  /** A closed pool with an empty channel stays empty in every continuation exactly when no checkout from before is
      outstanding. */
  lemma StaysEmptyExactly(s: State)
    requires s.closed && s.channel == []
    ensures StaysEmpty(s) <==> forall i | 0 <= i < |s.tasks| :: !Outstanding(s.tasks[i])
  {
    hide Next;
    if forall i | 0 <= i < |s.tasks| :: !Outstanding(s.tasks[i]) {
      forall states: seq<State>, steps: seq<Step> | Continues(s, states, steps) ensures states[|steps|].channel == [] {
        ContinuesSettled(s, states, steps, |steps|);
      }
    } else {
      var i :| 0 <= i < |s.tasks| && Outstanding(s.tasks[i]);
      OutstandingRefills(s, i);
    }
  }

  /** A closed pool, drained by `close` while one connection is out, its own task having finished. */
  function Drained(max: nat, task: Task, closer: Task, closed: bool): State
    requires max > 0
  {
    State(max, max - 1, [], 1, closed, closer.CloseDrain?, [task, closer], 1, 0)
  }

  lemma ReachOut(max: nat)
    requires max > 0
    ensures Reachable(max, 1, Drained(max, Out(0, false), Idle, false))
  {
    ReachPurged(max, 1, 1);
    var s := Purging(max, 1, 1);
    assert s.channel == [0];
    hide Reachable;
    var got := s.(tasks := [Got(0)], channel := [], locked := false);
    Reach(max, 1, s, TakeUsable(0), got);
    var out := got.(tasks := [Out(0, false)]);
    Reach(max, 1, got, HandOut(0), out);
    Reach(max, 1, out, Spawn, Drained(max, Out(0, false), Idle, false));
  }

  lemma ReachDrained(max: nat)
    requires max > 0
    ensures Reachable(max, 1, Drained(max, Out(0, false), Idle, true))
  {
    ReachOut(max);
    hide Reachable;
    var out := Out(0, false);
    Reach(max, 1, Drained(max, out, Idle, false), SetClosed(1), Drained(max, out, Closing, true));
    Reach(max, 1, Drained(max, out, Closing, true), CloseLock(1), Drained(max, out, CloseDrain, true));
    Reach(max, 1, Drained(max, out, CloseDrain, true), CloseDone(1), Drained(max, out, Idle, true));
  }

  predicate AllIdle(s: State) {
    forall i | 0 <= i < |s.tasks| :: s.tasks[i].Idle?
  }

  /** The closure keeps the `closed` flag it saw at checkout, so a late return refills the channel of a closed pool. */
  lemma ClosedPoolRefilled(max: nat)
    requires max > 0
    ensures exists s: State :: Reachable(max, 1, s) && s.closed && s.channel != [] && AllIdle(s)
  {
    ReachDrained(max);
    var s := Drained(max, Out(0, false), Idle, true);
    hide Reachable;
    var late := s.(tasks := [Returning(0, false), Idle], permits := max);
    Reach(max, 1, s, DropOut(0), late);
    var full := late.(tasks := [Idle, Idle], channel := [0]);
    Reach(max, 1, late, Recycle(0), full);
  }
}
