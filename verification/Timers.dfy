/** The timer events of qbx.cpp: the timer thread and the main thread as a state machine over
    their accesses to the shared lock word, the timer array and its fields. */
module Timers {

  /** A timer. `timed` says that its interval has been set, `started` that its last time is not
      zero. active: 0 off, 1 on, 2 stopped. state: 0 waiting, 1 triggered, 2 in progress. */
  datatype Timer = Timer(used: bool, id: nat, active: nat, state: nat, timed: bool, started: bool)

  /** Where the timer thread is: before which access to shared memory. At TestTime it reads the
      last time to see whether it is set, at TestDue it reads it again, with the interval, to see
      whether the timer is due; at Advance and Adjust it writes it. */
  datatype ThreadPc =
    | Quick | Ack | Enter | Rest | Gone
    | Loop(i: nat)
    | TestAllocated(i: nat) | TestId(i: nat) | TestActive(i: nat) | TestState(i: nat) | TestTime(i: nat) | TestDue(i: nat)
    | Begin(i: nat) | Advance(i: nat) | Adjust(i: nat) | Fire(i: nat) | Poll(i: nat)

  /** Where the main thread is: in program code (or that of a handler), in func__freetimer, in
      ontimer_setup, in sub_timer, in the timer part of events, or between stop_timers and
      start_timers. */
  datatype MainPc =
    | Code
    | Wait | Grow | Unlock | Clear(i: nat)
    | InitActive(i: nat) | InitId(i: nat) | InitAllocated(i: nat) | Publish(i: nat)
    | SetupTest(i: nat, id: nat) | SetupRetract(i: nat, id: nat) | SetupTime(i: nat, id: nat)
    | SetupLast(i: nat, id: nat) | SetupId(i: nat, id: nat)
    | OffTest(i: nat) | OffRetract(i: nat) | OffLast(i: nat)
    | FreeTest(i: nat) | FreeRetract(i: nat) | FreeAllocated(i: nat) | FreeId(i: nat) | FreePush(i: nat)
    | Scan(i: nat) | Test(i: nat) | Start(i: nat)
    | WaitStop | Stopped

  /** The shared memory, both threads, and the timers whose handlers are running, outermost
      first. A slot of the array that has not been written to holds anything. */
  datatype World = World(lock: nat, ts: seq<Timer>, next: nat, free: seq<nat>, thread: ThreadPc, main: MainPc, stack: seq<nat>)

  /** What the program does next when it is in its own code. */
  datatype Call =
    | Work | NewTimer | Setup(t: int, event: nat) | On(t: int) | Off(t: int) | Stop(t: int) | Free(t: int)
    | Events | Return | StopTimers | StartTimers

  /** A step of either thread; the parameters are what the model leaves open: the outcome of the
      comparisons and sums of times (whether the timer is due, and whether a last time that has
      been advanced is not zero), whether the program ends, what the program calls, and what a
      new slot holds. */
  datatype Action =
    | ThreadDoes(due: bool, ending: bool)
    | MainDoes(call: Call, junk: Timer)

  function SetAllocated(w: World, i: nat, v: bool): World requires i < |w.ts| { w.(ts := w.ts[i := w.ts[i].(used := v)]) }
  function SetId(w: World, i: nat, v: nat): World requires i < |w.ts| { w.(ts := w.ts[i := w.ts[i].(id := v)]) }
  function SetActive(w: World, i: nat, v: nat): World requires i < |w.ts| { w.(ts := w.ts[i := w.ts[i].(active := v)]) }
  function SetState(w: World, i: nat, v: nat): World requires i < |w.ts| { w.(ts := w.ts[i := w.ts[i].(state := v)]) }
  function SetTimed(w: World, i: nat): World requires i < |w.ts| { w.(ts := w.ts[i := w.ts[i].(timed := true)]) }
  function SetStarted(w: World, i: nat, v: bool): World requires i < |w.ts| { w.(ts := w.ts[i := w.ts[i].(started := v)]) }

  // --------------------------------------------------------------------------------------
  // The timer thread
  // --------------------------------------------------------------------------------------

  /** The thread is inside its scan of the array. */
  predicate Touching(t: ThreadPc) {
    !(t.Quick? || t.Ack? || t.Enter? || t.Rest? || t.Gone?)
  }

  /** The thread's next access is to a slot that exists in an array that is not being moved, and
      when it reads the interval, that has been set. */
  predicate ThreadSafe(w: World) {
    match w.thread
    case TestAllocated(i) => i < |w.ts| && !w.main.Grow?
    case TestId(i) => i < |w.ts| && !w.main.Grow?
    case TestActive(i) => i < |w.ts| && !w.main.Grow?
    case TestState(i) => i < |w.ts| && !w.main.Grow?
    case TestTime(i) => i < |w.ts| && !w.main.Grow?
    case TestDue(i) => i < |w.ts| && !w.main.Grow? && w.ts[i].timed
    case Begin(i) => i < |w.ts| && !w.main.Grow?
    case Advance(i) => i < |w.ts| && !w.main.Grow? && w.ts[i].timed
    case Adjust(i) => i < |w.ts| && !w.main.Grow? && w.ts[i].timed
    case Fire(i) => i < |w.ts| && !w.main.Grow?
    case _ => true
  }

  function ThreadStep(w: World, due: bool, ending: bool): World
    requires ThreadSafe(w)
  {
    match w.thread
    case Quick => w.(thread := if w.lock == 1 then Ack else Enter)
    case Ack => w.(lock := 2, thread := Enter)
    case Enter => w.(thread := if w.lock == 0 then Loop(0) else Rest)
    case Rest => w.(thread := if ending then Gone else Quick)
    case Gone => w
    case Loop(i) => w.(thread := if i < w.next then TestAllocated(i) else Rest)
    case TestAllocated(i) => w.(thread := if w.ts[i].used then TestId(i) else Poll(i))
    case TestId(i) => w.(thread := if w.ts[i].id != 0 then TestActive(i) else Poll(i))
    case TestActive(i) => w.(thread := if w.ts[i].active != 0 then TestState(i) else Poll(i))
    case TestState(i) => w.(thread := if w.ts[i].state == 0 then TestTime(i) else Poll(i))
    case TestTime(i) => w.(thread := if w.ts[i].started then TestDue(i) else Begin(i))
    case TestDue(i) => w.(thread := if due then Advance(i) else Poll(i))
    case Begin(i) => SetStarted(w, i, true).(thread := Poll(i))
    case Advance(i) => SetStarted(w, i, due).(thread := Adjust(i))
    case Adjust(i) => (if due then SetStarted(w, i, true) else w).(thread := Fire(i))
    case Fire(i) => SetState(w, i, 1).(thread := Poll(i))
    case Poll(i) => w.(thread := if w.lock == 1 then Quick else Loop(i + 1))
  }

  // --------------------------------------------------------------------------------------
  // The main thread
  // --------------------------------------------------------------------------------------

  /** The slot the main thread is about to use. */
  predicate MainSafe(w: World) {
    match w.main
    case Clear(i) => i < |w.ts|
    case InitActive(i) => i < |w.ts|
    case InitId(i) => i < |w.ts|
    case InitAllocated(i) => i < |w.ts|
    case SetupTest(i, id) => i < |w.ts|
    case SetupRetract(i, id) => i < |w.ts|
    case SetupTime(i, id) => i < |w.ts|
    case SetupLast(i, id) => i < |w.ts|
    case SetupId(i, id) => i < |w.ts|
    case OffTest(i) => i < |w.ts|
    case OffRetract(i) => i < |w.ts|
    case OffLast(i) => i < |w.ts|
    case FreeTest(i) => i < |w.ts|
    case FreeRetract(i) => i < |w.ts|
    case FreeAllocated(i) => i < |w.ts|
    case FreeId(i) => i < |w.ts|
    case Test(i) => i < |w.ts|
    case Start(i) => i < |w.ts|
    case Code => w.next <= |w.ts| && (|w.stack| > 0 ==> w.stack[|w.stack| - 1] < |w.ts|)
    case _ => true
  }

  /** The index check every call starts with. */
  predicate Known(w: World, t: int) {
    0 <= t < w.next <= |w.ts| && w.ts[t].used
  }

  /** The first access of a call; a bad index is an error and changes nothing. */
  function CallStep(w: World, call: Call): World
    requires MainSafe(w) && w.main.Code?
  {
    match call
    case Work => w
    case NewTimer =>
      if |w.free| > 0 then w.(free := w.free[..|w.free| - 1], main := InitActive(w.free[|w.free| - 1]))
      else w.(lock := 1, main := Wait)
    case Setup(t, event) => if Known(w, t) then w.(main := SetupTest(t, event)) else w
    case On(t) => if Known(w, t) then SetActive(w, t, 1) else w
    case Off(t) => if Known(w, t) then SetActive(w, t, 0).(main := OffTest(t)) else w
    case Stop(t) => if Known(w, t) then SetActive(w, t, 2) else w
    case Free(t) => if Known(w, t) && t != 0 then SetActive(w, t, 0).(main := FreeTest(t)) else w
    case Events => w.(main := Scan(0))
    case Return =>
      if |w.stack| > 0 then
        var i := w.stack[|w.stack| - 1];
        SetState(w, i, 0).(stack := w.stack[..|w.stack| - 1], main := Scan(i + 1))
      else w
    case StopTimers => w.(lock := 1, main := WaitStop)
    case StartTimers => w
  }

  function MainStep(w: World, call: Call, junk: Timer): World
    requires MainSafe(w)
  {
    match w.main
    case Code => CallStep(w, call)
    case Wait => if w.lock == 1 then w else w.(main := Grow)
    case Grow => w.(ts := Regrown(w.ts, w.next + 1, junk), main := Unlock)
    case Unlock => w.(lock := 0, main := Clear(w.next))
    case Clear(i) => SetState(w, i, 0).(main := InitActive(i))
    case InitActive(i) => SetActive(w, i, 0).(main := InitId(i))
    case InitId(i) => SetId(w, i, 0).(main := InitAllocated(i))
    case InitAllocated(i) => SetAllocated(w, i, true).(main := Publish(i))
    case Publish(i) => w.(next := if i == w.next then w.next + 1 else w.next, main := Code)
    case SetupTest(i, id) => w.(main := if w.ts[i].state == 1 then SetupRetract(i, id) else SetupTime(i, id))
    case SetupRetract(i, id) => SetState(w, i, 0).(main := SetupTime(i, id))
    case SetupTime(i, id) => SetTimed(w, i).(main := SetupLast(i, id))
    case SetupLast(i, id) => SetStarted(w, i, false).(main := SetupId(i, id))
    case SetupId(i, id) => SetId(w, i, id).(main := Code)
    case OffTest(i) => w.(main := if w.ts[i].state == 1 then OffRetract(i) else OffLast(i))
    case OffRetract(i) => SetState(w, i, 0).(main := OffLast(i))
    case OffLast(i) => SetStarted(w, i, false).(main := Code)
    case FreeTest(i) => w.(main := if w.ts[i].state == 1 then FreeRetract(i) else FreeAllocated(i))
    case FreeRetract(i) => SetState(w, i, 0).(main := FreeAllocated(i))
    case FreeAllocated(i) => SetAllocated(w, i, false).(main := FreeId(i))
    case FreeId(i) => SetId(w, i, 0).(main := FreePush(i))
    case FreePush(i) => w.(free := w.free + [i], main := Code)
    case Scan(i) => w.(main := if i < w.next then Test(i) else Code)
    case Test(i) =>
      var t := w.ts[i];
      w.(main := if t.used && t.id != 0 && t.active == 1 && t.state == 1 then Start(i) else Scan(i + 1))
    case Start(i) => SetState(w, i, 2).(stack := w.stack + [i], main := Code)
    case WaitStop => if w.lock == 2 then w.(main := Stopped) else w
    case Stopped => if call.StartTimers? then w.(lock := 0, main := Code) else w
  }

  /** The array with room for n timers; a new slot holds anything. */
  function Regrown(ts: seq<Timer>, n: nat, junk: Timer): (r: seq<Timer>)
    ensures |r| == n
  {
    if n <= |ts| then ts[..n] else Regrown(ts, n - 1, junk) + [junk]
  }

  // --------------------------------------------------------------------------------------
  // Runs
  // --------------------------------------------------------------------------------------

  predicate Safe(w: World, a: Action) {
    if a.ThreadDoes? then ThreadSafe(w) else MainSafe(w)
  }

  /** An unsafe access may lead anywhere. */
  ghost predicate Next(w: World, a: Action, w': World) {
    Safe(w, a) ==> w' == if a.ThreadDoes? then ThreadStep(w, a.due, a.ending) else MainStep(w, a.call, a.junk)
  }

  /** Both threads are started with timer 0, which belongs to no handle, in place. */
  ghost predicate Init(w: World) {
    && w.lock == 0 && |w.ts| == 1 && w.next == 1 && w.free == [] && w.stack == []
    && w.ts[0].used && w.ts[0].id == 0 && w.ts[0].active == 0 && w.ts[0].state == 0
    && w.thread == Quick && w.main == Code
  }

  ghost predicate Run(ws: seq<World>, acts: seq<Action>) {
    && |ws| == |acts| + 1 && Init(ws[0])
    && forall k :: 0 <= k < |acts| ==> Next(ws[k], acts[k], ws[k + 1])
  }

  // --------------------------------------------------------------------------------------
  // The invariant
  // --------------------------------------------------------------------------------------

  /** The lock word: 1 from the request to the confirmation, 2 while the main thread has the
      array to itself, and then the thread is not touching it. */
  ghost predicate Mutex(w: World) {
    match w.main
    case Wait => (w.lock == 1 || (w.lock == 2 && !Touching(w.thread) && !w.thread.Ack?))
    case WaitStop => (w.lock == 1 || (w.lock == 2 && !Touching(w.thread) && !w.thread.Ack?))
    case Grow => w.lock == 2 && !Touching(w.thread) && !w.thread.Ack?
    case Unlock => w.lock == 2 && !Touching(w.thread) && !w.thread.Ack?
    case Stopped => w.lock == 2 && !Touching(w.thread) && !w.thread.Ack?
    case _ => w.lock == 0 && !w.thread.Ack?
  }

  /** The thread's index is that of an initialised slot; from the test of the state to the write
      the state stays 0. */
  ghost predicate ThreadAt(w: World)
    requires w.next <= |w.ts|
  {
    match w.thread
    case Loop(i) => i <= w.next
    case TestAllocated(i) => i < w.next
    case TestId(i) => i < w.next
    case TestActive(i) => i < w.next && w.ts[i].timed
    case TestState(i) => i < w.next && w.ts[i].timed
    case TestTime(i) => i < w.next && w.ts[i].state == 0 && w.ts[i].timed
    case TestDue(i) => i < w.next && w.ts[i].state == 0 && w.ts[i].timed
    case Begin(i) => i < w.next && w.ts[i].state == 0
    case Advance(i) => i < w.next && w.ts[i].state == 0 && w.ts[i].timed
    case Adjust(i) => i < w.next && w.ts[i].state == 0 && w.ts[i].timed
    case Fire(i) => i < w.next && w.ts[i].state == 0
    case Poll(i) => i < w.next
    case _ => true
  }

  /** A timer is in progress exactly while its handler is on the stack, once. */
  ghost predicate InProgress(w: World)
    requires w.next <= |w.ts|
  {
    && (forall i :: 0 <= i < w.next ==> w.ts[i].state <= 2 && (w.ts[i].state == 2 <==> i in w.stack))
    && (forall k :: 0 <= k < |w.stack| ==> w.stack[k] < w.next)
    && (forall k, l :: 0 <= k < l < |w.stack| ==> w.stack[k] != w.stack[l])
  }

  /** Where the main thread is and what it has seen there. */
  ghost predicate MainAt(w: World)
    requires w.next <= |w.ts|
  {
    match w.main
    case Unlock => |w.ts| == w.next + 1
    case Clear(i) => i == w.next < |w.ts|
    case InitActive(i) => Taken(w, i)
    case InitId(i) => Taken(w, i)
    case InitAllocated(i) => Taken(w, i) && w.ts[i].id == 0
    case Publish(i) => i <= w.next && i < |w.ts| && (i == w.next ==> w.ts[i].state == 0 && w.ts[i].id == 0 && w.ts[i].used)
    case SetupTest(i, id) => i < w.next && w.ts[i].used
    case SetupRetract(i, id) => i < w.next && w.ts[i].state == 1 && w.ts[i].used
    case SetupTime(i, id) => i < w.next && w.ts[i].used
    case SetupLast(i, id) => i < w.next && w.ts[i].timed && w.ts[i].used
    case SetupId(i, id) => i < w.next && w.ts[i].timed && w.ts[i].used
    case OffTest(i) => i < w.next && w.ts[i].active == 0
    case OffRetract(i) => i < w.next && w.ts[i].state == 1 && w.ts[i].active == 0
    case OffLast(i) => i < w.next && w.ts[i].active == 0
    case FreeTest(i) => 0 < i < w.next && w.ts[i].used
    case FreeRetract(i) => 0 < i < w.next && w.ts[i].state == 1 && w.ts[i].used
    case FreeAllocated(i) => 0 < i < w.next && w.ts[i].used
    case FreeId(i) => 0 < i < w.next && !w.ts[i].used
    case FreePush(i) => 0 < i < w.next && !w.ts[i].used
    case Scan(i) => i <= w.next
    case Test(i) => i < w.next
    case Start(i) => i < w.next && w.ts[i].state == 1 && w.ts[i].active == 1 && w.ts[i].id != 0 && w.ts[i].used
    case _ => true
  }

  /** The index func__freetimer is handing out belongs to nobody. */
  ghost predicate Taken(w: World, i: nat) {
    && i <= w.next && i < |w.ts| && 0 < i
    && (i < w.next ==> !w.ts[i].used)
    && (i == w.next ==> w.ts[i].state == 0)
  }

  /** The index is neither allocated nor on the free list, for the moment. */
  ghost predicate InHand(m: MainPc, i: nat) {
    m == InitActive(i) || m == InitId(i) || m == InitAllocated(i) || m == FreeId(i) || m == FreePush(i)
  }

  /** The free list holds exactly the indexes that have been handed out and given back. */
  ghost predicate FreeList(w: World)
    requires w.next <= |w.ts|
  {
    && (forall i :: 0 <= i < w.next ==> (i in w.free <==> !w.ts[i].used && !InHand(w.main, i)))
    && (forall k :: 0 <= k < |w.free| ==> 0 < w.free[k] < w.next)
    && (forall k, l :: 0 <= k < l < |w.free| ==> w.free[k] != w.free[l])
  }

  /** A timer with an event has an interval. */
  ghost predicate Timed(w: World)
    requires w.next <= |w.ts|
  {
    forall i :: 0 <= i < w.next && w.ts[i].id != 0 ==> w.ts[i].timed
  }

  ghost predicate Inv(w: World) {
    && 0 < w.next <= |w.ts|
    && Mutex(w) && ThreadAt(w) && InProgress(w) && MainAt(w) && FreeList(w) && Timed(w)
  }

  lemma RegrownKeeps(ts: seq<Timer>, n: nat, junk: Timer)
    ensures forall i :: 0 <= i < n && i < |ts| ==> Regrown(ts, n, junk)[i] == ts[i]
  {}

  lemma InitInv(w: World)
    requires Init(w)
    ensures Inv(w)
  {}

  lemma InvSafe(w: World, a: Action)
    requires Inv(w)
    ensures Safe(w, a)
  {}

  /** func__freetimer is under way, or the timers are being stopped. */
  predicate Making(m: MainPc) {
    m.Wait? || m.Grow? || m.Unlock? || m.Clear? || m.InitActive? || m.InitId? || m.InitAllocated? || m.Publish? || m.WaitStop? || m.Stopped?
  }

  /** What a step of the thread may do to the timers. */
  ghost predicate Touched(w: World, v: World) {
    && v.next == w.next <= |w.ts| == |v.ts| && v.main == w.main && v.stack == w.stack
    && (forall j :: 0 <= j < |w.ts| ==> v.ts[j] == w.ts[j].(state := v.ts[j].state, started := v.ts[j].started))
    && (forall j :: 0 <= j < |w.ts| ==>
          v.ts[j].state == w.ts[j].state || (j < w.next && w.ts[j].state == 0 && v.ts[j].state == 1))
  }

  lemma ThreadTouches(w: World, due: bool, ending: bool)
    requires Inv(w)
    ensures ThreadSafe(w) && Touched(w, ThreadStep(w, due, ending))
  {
    InvSafe(w, ThreadDoes(due, ending));
    hide Mutex, InProgress, MainAt, FreeList, Timed;
  }

  lemma TouchedMainAt(w: World, v: World)
    requires Touched(w, v) && MainAt(w)
    ensures MainAt(v)
  {}

  lemma TouchedInProgress(w: World, v: World)
    requires Touched(w, v) && InProgress(w)
    ensures InProgress(v)
  {}

  /** Where nobody allocates, frees or hands out a timer the free list stays right. */
  lemma FreeFrame(w: World, v: World)
    requires w.next == v.next <= |w.ts| && v.next <= |v.ts| && FreeList(w) && v.free == w.free
    requires forall j :: 0 <= j < w.next ==> v.ts[j].used == w.ts[j].used && (InHand(v.main, j) <==> InHand(w.main, j))
    ensures FreeList(v)
  {}

  /** What the thread has seen stays so: no interval is lost and no state leaves 0. */
  lemma ThreadFrame(w: World, v: World)
    requires w.next <= |w.ts| && w.next <= v.next <= |v.ts| && v.thread == w.thread && ThreadAt(w)
    requires forall j :: 0 <= j < w.next ==> (w.ts[j].timed ==> v.ts[j].timed) && (w.ts[j].state == 0 ==> v.ts[j].state == 0)
    ensures ThreadAt(v)
  {}

  lemma TakenKeepsFreeList(w: World, call: Call, junk: Timer)
    requires Inv(w) && (w.main.Publish? || w.main.InitAllocated?)
    ensures MainSafe(w) && var v := MainStep(w, call, junk); v.next <= |v.ts| && FreeList(v)
  {
    hide Mutex, ThreadAt, InProgress, Timed;
  }

  // Steps of the timer thread

  lemma ThreadKeepsMutex(w: World, due: bool, ending: bool)
    requires Inv(w)
    ensures ThreadSafe(w) && var v := ThreadStep(w, due, ending); v.next <= |v.ts| && Mutex(v)
  {
    InvSafe(w, ThreadDoes(due, ending));
    hide ThreadAt, InProgress, MainAt, FreeList, Timed;
  }

  lemma ThreadKeepsThreadAt(w: World, due: bool, ending: bool)
    requires Inv(w)
    ensures ThreadSafe(w) && var v := ThreadStep(w, due, ending); v.next <= |v.ts| && ThreadAt(v)
  {
    InvSafe(w, ThreadDoes(due, ending));
    hide InProgress, FreeList;
  }

  lemma ThreadKeepsInProgress(w: World, due: bool, ending: bool)
    requires Inv(w)
    ensures ThreadSafe(w) && var v := ThreadStep(w, due, ending); v.next <= |v.ts| && InProgress(v)
  {
    InvSafe(w, ThreadDoes(due, ending));
    ThreadTouches(w, due, ending);
    hide ThreadStep, MainAt, Mutex, ThreadAt, InProgress, FreeList, Timed, Touched;
    TouchedInProgress(w, ThreadStep(w, due, ending));
  }

  lemma ThreadKeepsMainAt(w: World, due: bool, ending: bool)
    requires Inv(w)
    ensures ThreadSafe(w) && var v := ThreadStep(w, due, ending); v.next <= |v.ts| && MainAt(v)
  {
    InvSafe(w, ThreadDoes(due, ending));
    ThreadTouches(w, due, ending);
    hide ThreadStep, MainAt, Mutex, ThreadAt, InProgress, FreeList, Timed, Touched;
    TouchedMainAt(w, ThreadStep(w, due, ending));
  }

  lemma ThreadKeepsFreeList(w: World, due: bool, ending: bool)
    requires Inv(w)
    ensures ThreadSafe(w) && var v := ThreadStep(w, due, ending); v.next <= |v.ts| && FreeList(v)
  {
    InvSafe(w, ThreadDoes(due, ending));
    ThreadTouches(w, due, ending);
    hide Mutex, ThreadAt, InProgress, Timed, FreeList, MainAt, ThreadStep;
    ThreadKeepsNext(w, due, ending);
    SameFree(w, due, ending);
    FreeFrame(w, ThreadStep(w, due, ending));
  }

  lemma SameFree(w: World, due: bool, ending: bool)
    requires ThreadSafe(w)
    ensures ThreadStep(w, due, ending).free == w.free
  {}

  lemma ThreadKeepsTimed(w: World, due: bool, ending: bool)
    requires Inv(w)
    ensures ThreadSafe(w) && var v := ThreadStep(w, due, ending); v.next <= |v.ts| && Timed(v)
  {
    InvSafe(w, ThreadDoes(due, ending));
    hide Mutex, ThreadAt, InProgress, FreeList;
  }

  // First steps of calls

  lemma CallKeepsMutex(w: World, call: Call)
    requires Inv(w) && w.main.Code?
    ensures MainSafe(w) && var v := CallStep(w, call); v.next <= |v.ts| && Mutex(v)
  {
    InvSafe(w, MainDoes(call, w.ts[0]));
    hide ThreadAt, InProgress, MainAt, FreeList, Timed;
  }

  lemma CallKeepsThreadAt(w: World, call: Call)
    requires Inv(w) && w.main.Code?
    ensures MainSafe(w) && var v := CallStep(w, call); v.next <= |v.ts| && ThreadAt(v)
  {
    InvSafe(w, MainDoes(call, w.ts[0]));
    hide Mutex, InProgress, FreeList, Timed;
  }

  lemma CallKeepsInProgress(w: World, call: Call)
    requires Inv(w) && w.main.Code?
    ensures MainSafe(w) && var v := CallStep(w, call); v.next <= |v.ts| && InProgress(v)
  {
    InvSafe(w, MainDoes(call, w.ts[0]));
    hide Mutex, ThreadAt, FreeList, Timed;
  }

  lemma CallKeepsMainAt(w: World, call: Call)
    requires Inv(w) && w.main.Code?
    ensures MainSafe(w) && var v := CallStep(w, call); v.next <= |v.ts| && MainAt(v)
  {
    InvSafe(w, MainDoes(call, w.ts[0]));
    hide Mutex, ThreadAt, InProgress, Timed;
  }

  lemma CallKeepsFreeList(w: World, call: Call)
    requires Inv(w) && w.main.Code?
    ensures MainSafe(w) && var v := CallStep(w, call); v.next <= |v.ts| && FreeList(v)
  {
    if call.NewTimer? && |w.free| > 0 {
      TakeKeepsFreeList(w);
    } else {
      LeaveKeepsFreeList(w, call);
    }
  }

  lemma TakeKeepsFreeList(w: World)
    requires Inv(w) && w.main.Code? && |w.free| > 0
    ensures MainSafe(w) && FreeList(w.(free := w.free[..|w.free| - 1], main := InitActive(w.free[|w.free| - 1])))
  {
    InvSafe(w, MainDoes(NewTimer, w.ts[0]));
    hide Mutex, ThreadAt, InProgress, Timed;
  }

  lemma LeaveKeepsFreeList(w: World, call: Call)
    requires Inv(w) && w.main.Code? && !(call.NewTimer? && |w.free| > 0)
    ensures MainSafe(w) && var v := CallStep(w, call); v.next <= |v.ts| && FreeList(v)
  {
    InvSafe(w, MainDoes(call, w.ts[0]));
    hide Mutex, ThreadAt, InProgress, Timed, FreeList;
    FreeFrame(w, CallStep(w, call));
  }

  lemma CallKeepsTimed(w: World, call: Call)
    requires Inv(w) && w.main.Code?
    ensures MainSafe(w) && var v := CallStep(w, call); v.next <= |v.ts| && Timed(v)
  {
    InvSafe(w, MainDoes(call, w.ts[0]));
    hide Mutex, ThreadAt, InProgress, FreeList;
  }

  // Steps of func__freetimer

  lemma MakeKeepsMutex(w: World, call: Call, junk: Timer)
    requires Inv(w) && Making(w.main)
    ensures MainSafe(w) && var v := MainStep(w, call, junk); v.next <= |v.ts| && Mutex(v)
  {
    InvSafe(w, MainDoes(call, junk));
    hide ThreadAt, InProgress, MainAt, FreeList, Timed;
    if w.main.Grow? {
      RegrownKeeps(w.ts, w.next + 1, junk);
    }
  }

  lemma MakeKeepsThreadAt(w: World, call: Call, junk: Timer)
    requires Inv(w) && Making(w.main)
    ensures MainSafe(w) && var v := MainStep(w, call, junk); v.next <= |v.ts| && ThreadAt(v)
  {
    InvSafe(w, MainDoes(call, junk));
    assert ThreadAt(w);
    MakeFrame(w, call, junk);
    hide *;
    ThreadFrame(w, MainStep(w, call, junk));
  }

  lemma MakeFrame(w: World, call: Call, junk: Timer)
    requires Inv(w) && Making(w.main)
    ensures MainSafe(w)
    ensures var v := MainStep(w, call, junk);
            && w.next <= |w.ts| && w.next <= v.next <= |v.ts| && v.thread == w.thread
            && forall j :: 0 <= j < w.next ==> (w.ts[j].timed ==> v.ts[j].timed) && (w.ts[j].state == 0 ==> v.ts[j].state == 0)
  {
    InvSafe(w, MainDoes(call, junk));
    hide Mutex, ThreadAt, InProgress, FreeList, Timed;
    if w.main.Grow? {
      RegrownKeeps(w.ts, w.next + 1, junk);
    }
  }

  lemma MakeKeepsInProgress(w: World, call: Call, junk: Timer)
    requires Inv(w) && Making(w.main)
    ensures MainSafe(w) && var v := MainStep(w, call, junk); v.next <= |v.ts| && InProgress(v)
  {
    InvSafe(w, MainDoes(call, junk));
    hide Mutex, ThreadAt, FreeList, Timed;
    if w.main.Grow? {
      RegrownKeeps(w.ts, w.next + 1, junk);
    }
  }

  lemma MakeKeepsMainAt(w: World, call: Call, junk: Timer)
    requires Inv(w) && Making(w.main)
    ensures MainSafe(w) && var v := MainStep(w, call, junk); v.next <= |v.ts| && MainAt(v)
  {
    InvSafe(w, MainDoes(call, junk));
    hide Mutex, ThreadAt, InProgress, Timed;
    if w.main.Grow? {
      RegrownKeeps(w.ts, w.next + 1, junk);
    }
  }

  lemma MakeKeepsFreeList(w: World, call: Call, junk: Timer)
    requires Inv(w) && Making(w.main)
    ensures MainSafe(w) && var v := MainStep(w, call, junk); v.next <= |v.ts| && FreeList(v)
  {
    InvSafe(w, MainDoes(call, junk));
    hide Mutex, ThreadAt, InProgress, Timed, FreeList;
    if w.main.Publish? || w.main.InitAllocated? {
      TakenKeepsFreeList(w, call, junk);
    } else {
      if w.main.Grow? {
        RegrownKeeps(w.ts, w.next + 1, junk);
      }
      FreeFrame(w, MainStep(w, call, junk));
    }
  }

  lemma MakeKeepsTimed(w: World, call: Call, junk: Timer)
    requires Inv(w) && Making(w.main)
    ensures MainSafe(w) && var v := MainStep(w, call, junk); v.next <= |v.ts| && Timed(v)
  {
    InvSafe(w, MainDoes(call, junk));
    hide Mutex, ThreadAt, InProgress, FreeList;
    if w.main.Grow? {
      RegrownKeeps(w.ts, w.next + 1, junk);
    }
  }

  // Steps of ontimer_setup, sub_timer and events

  lemma MainKeepsMutex(w: World, call: Call, junk: Timer)
    requires Inv(w) && !w.main.Code? && !Making(w.main)
    ensures MainSafe(w) && var v := MainStep(w, call, junk); v.next <= |v.ts| && Mutex(v)
  {
    InvSafe(w, MainDoes(call, junk));
    hide ThreadAt, InProgress, MainAt, FreeList, Timed;
  }

  lemma MainKeepsThreadAt(w: World, call: Call, junk: Timer)
    requires Inv(w) && !w.main.Code? && !Making(w.main)
    ensures MainSafe(w) && var v := MainStep(w, call, junk); v.next <= |v.ts| && ThreadAt(v)
  {
    InvSafe(w, MainDoes(call, junk));
    hide Mutex, ThreadAt, InProgress, FreeList, Timed;
    ThreadFrame(w, MainStep(w, call, junk));
  }

  lemma MainKeepsInProgress(w: World, call: Call, junk: Timer)
    requires Inv(w) && !w.main.Code? && !Making(w.main)
    ensures MainSafe(w) && var v := MainStep(w, call, junk); v.next <= |v.ts| && InProgress(v)
  {
    InvSafe(w, MainDoes(call, junk));
    hide Mutex, ThreadAt, FreeList, Timed;
  }

  lemma MainKeepsMainAt(w: World, call: Call, junk: Timer)
    requires Inv(w) && !w.main.Code? && !Making(w.main)
    ensures MainSafe(w) && var v := MainStep(w, call, junk); v.next <= |v.ts| && MainAt(v)
  {
    InvSafe(w, MainDoes(call, junk));
    hide Mutex, ThreadAt, InProgress, Timed;
  }

  predicate Giving(m: MainPc) {
    m.FreeAllocated? || m.FreeId? || m.FreePush?
  }

  lemma GiveKeepsFreeList(w: World, call: Call, junk: Timer)
    requires Inv(w) && Giving(w.main)
    ensures MainSafe(w) && var v := MainStep(w, call, junk); v.next <= |v.ts| && FreeList(v)
  {
    hide Mutex, ThreadAt, InProgress, Timed;
  }

  lemma MainKeepsFreeList(w: World, call: Call, junk: Timer)
    requires Inv(w) && !w.main.Code? && !Making(w.main) && !Giving(w.main)
    ensures MainSafe(w) && var v := MainStep(w, call, junk); v.next <= |v.ts| && FreeList(v)
  {
    InvSafe(w, MainDoes(call, junk));
    hide Mutex, ThreadAt, InProgress, Timed, FreeList;
    FreeFrame(w, MainStep(w, call, junk));
  }

  lemma MainKeepsTimed(w: World, call: Call, junk: Timer)
    requires Inv(w) && !w.main.Code? && !Making(w.main)
    ensures MainSafe(w) && var v := MainStep(w, call, junk); v.next <= |v.ts| && Timed(v)
  {
    InvSafe(w, MainDoes(call, junk));
    hide Mutex, ThreadAt, InProgress, FreeList;
  }

  /** Every step of either thread is safe and keeps the invariant. */
  lemma StepKeeps(w: World, a: Action)
    requires Inv(w)
    ensures Safe(w, a) && forall w' :: Next(w, a, w') ==> Inv(w')
  {
    InvSafe(w, a);
    hide Mutex, ThreadAt, InProgress, MainAt, FreeList, Timed;
    if a.ThreadDoes? {
      ThreadKeepsMutex(w, a.due, a.ending);
      ThreadKeepsThreadAt(w, a.due, a.ending);
      ThreadKeepsInProgress(w, a.due, a.ending);
      ThreadKeepsMainAt(w, a.due, a.ending);
      ThreadKeepsFreeList(w, a.due, a.ending);
      ThreadKeepsTimed(w, a.due, a.ending);
      ThreadKeepsNext(w, a.due, a.ending);
    } else {
      MainKeepsAll(w, a.call, a.junk);
    }
  }

  lemma ThreadKeepsNext(w: World, due: bool, ending: bool)
    requires ThreadSafe(w)
    ensures ThreadStep(w, due, ending).next == w.next
    ensures forall i :: 0 <= i < |w.ts| ==> w.ts[i].(state := 0, started := true) == ThreadStep(w, due, ending).ts[i].(state := 0, started := true)
  {}

  lemma MainKeepsAll(w: World, call: Call, junk: Timer)
    requires Inv(w)
    ensures MainSafe(w) && Inv(MainStep(w, call, junk))
  {
    InvSafe(w, MainDoes(call, junk));
    NextGrows(w, call, junk);
    hide Mutex, ThreadAt, InProgress, MainAt, FreeList, Timed;
    if w.main.Code? {
      CallKeepsMutex(w, call);
      CallKeepsThreadAt(w, call);
      CallKeepsInProgress(w, call);
      CallKeepsMainAt(w, call);
      CallKeepsFreeList(w, call);
      CallKeepsTimed(w, call);
    } else if Making(w.main) {
      MakeKeepsMutex(w, call, junk);
      MakeKeepsThreadAt(w, call, junk);
      MakeKeepsInProgress(w, call, junk);
      MakeKeepsMainAt(w, call, junk);
      MakeKeepsFreeList(w, call, junk);
      MakeKeepsTimed(w, call, junk);
    } else {
      MainKeepsMutex(w, call, junk);
      MainKeepsThreadAt(w, call, junk);
      MainKeepsInProgress(w, call, junk);
      MainKeepsMainAt(w, call, junk);
      if Giving(w.main) { GiveKeepsFreeList(w, call, junk); } else { MainKeepsFreeList(w, call, junk); }
      MainKeepsTimed(w, call, junk);
    }
  }

  lemma NextGrows(w: World, call: Call, junk: Timer)
    requires Inv(w)
    ensures MainSafe(w) && MainStep(w, call, junk).next >= w.next
  {
    InvSafe(w, MainDoes(call, junk));
    hide Mutex, ThreadAt, InProgress, FreeList, Timed;
  }

  // --------------------------------------------------------------------------------------
  // Over whole runs
  // --------------------------------------------------------------------------------------

  /** The invariant holds throughout every interleaving, and no access goes astray. */
  lemma {:induction false} Always(ws: seq<World>, acts: seq<Action>, k: nat)
    requires Run(ws, acts) && k < |ws|
    ensures Inv(ws[k]) && forall a :: Safe(ws[k], a)
  {
    if k == 0 {
      InitInv(ws[0]);
    } else {
      Always(ws, acts, k - 1);
      StepKeeps(ws[k - 1], acts[k - 1]);
    }
    hide Inv;
    forall a
      ensures Safe(ws[k], a)
    {
      InvSafe(ws[k], a);
    }
  }

  /** A handler is never entered while it is running: when one is about to start, its timer is
      on, has been triggered and is not on the stack; and a timer is in progress exactly while it
      is on the stack, where no timer is twice. */
  lemma NoReentry(ws: seq<World>, acts: seq<Action>, k: nat)
    requires Run(ws, acts) && k < |ws|
    ensures var w := ws[k];
            && (w.main.Start? ==> w.main.i < w.next <= |w.ts| && w.main.i !in w.stack && w.ts[w.main.i].active == 1)
            && (forall i :: 0 <= i < w.next <= |w.ts| ==> (w.ts[i].state == 2 <==> i in w.stack))
            && (forall i, j :: 0 <= i < j < |w.stack| ==> w.stack[i] != w.stack[j])
  {
    Always(ws, acts, k);
  }

  /** The slot the thread is at, if it is at one, is below n. */
  ghost predicate SlotBelow(t: ThreadPc, n: nat) {
    Touching(t) ==> if t.Loop? then t.i <= n else t.i < n
  }

  /** From seeing the lock leave 1 to writing 0, the main thread has the array to itself; and at
      any time the slot the thread is at has been initialised. */
  lemma MutualExclusion(ws: seq<World>, acts: seq<Action>, k: nat)
    requires Run(ws, acts) && k < |ws|
    ensures ws[k].main.Grow? || ws[k].main.Unlock? || ws[k].main.Stopped? ==> ws[k].lock == 2 && !Touching(ws[k].thread)
    ensures ws[k].next <= |ws[k].ts| && SlotBelow(ws[k].thread, ws[k].next)
  {
    Always(ws, acts, k);
  }

  /** The thread only ever moves a state from 0 to 1, below ontimer_nextfree. */
  lemma ThreadOnlyTriggers(ws: seq<World>, acts: seq<Action>, k: nat, i: nat)
    requires Run(ws, acts) && k < |acts| && acts[k].ThreadDoes? && i < |ws[k].ts|
    ensures |ws[k + 1].ts| == |ws[k].ts|
    ensures ws[k + 1].ts[i].state != ws[k].ts[i].state ==>
              i < ws[k].next && ws[k].ts[i].state == 0 && ws[k + 1].ts[i].state == 1
  {
    Always(ws, acts, k);
    hide Mutex, InProgress, MainAt, FreeList, Timed;
    assert Next(ws[k], acts[k], ws[k + 1]);
  }

  /** func__freetimer hands out an index of no allocated timer. */
  lemma FreshIndex(ws: seq<World>, acts: seq<Action>, k: nat)
    requires Run(ws, acts) && k < |ws| && ws[k].main.InitAllocated?
    ensures ws[k].main.i == ws[k].next || (ws[k].main.i < ws[k].next <= |ws[k].ts| && !ws[k].ts[ws[k].main.i].used)
  {
    Always(ws, acts, k);
  }

  // --------------------------------------------------------------------------------------
  // Switching a timer off
  // --------------------------------------------------------------------------------------

  /** The thread alone, for a while. */
  ghost function Alone(w: World, dues: seq<bool>): World
    requires Inv(w)
    ensures Inv(Alone(w, dues)) && Alone(w, dues).next == w.next <= |Alone(w, dues).ts| && w.next <= |w.ts|
    decreases |dues|
  {
    if dues == [] then w else
      StepKeeps(w, ThreadDoes(dues[0], false));
      ThreadKeepsNext(w, dues[0], false);
      assert Next(w, ThreadDoes(dues[0], false), ThreadStep(w, dues[0], false));
      Alone(ThreadStep(w, dues[0], false), dues[1..])
  }

  /** The thread has seen the last time of timer i set, and has not yet triggered it. */
  predicate Underway(t: ThreadPc, i: nat) {
    t == TestDue(i) || t == Advance(i) || t == Adjust(i) || t == Fire(i)
  }

  /** The thread has not come that far with timer i, and will find it off or starting over. */
  ghost predicate Quiet(w: World, i: nat)
    requires i < w.next <= |w.ts|
  {
    && w.ts[i].active == 0 && !Underway(w.thread, i)
    && (w.thread == TestState(i) || w.thread == TestTime(i) ==> !w.ts[i].started)
  }

  lemma QuietStep(w: World, i: nat, due: bool)
    requires Inv(w) && i < w.next && Quiet(w, i)
    ensures ThreadSafe(w) && i < |w.ts|
    ensures var v := ThreadStep(w, due, false); |v.ts| == |w.ts| && v.next == w.next && Quiet(v, i) && v.ts[i].state == w.ts[i].state
  {
    InvSafe(w, ThreadDoes(due, false));
    hide Inv;
  }

  lemma {:induction false} QuietStays(w: World, i: nat, dues: seq<bool>)
    requires Inv(w) && i < w.next && Quiet(w, i)
    ensures i < |w.ts| && Alone(w, dues).ts[i].state == w.ts[i].state
    decreases |dues|
  {
    if dues != [] {
      QuietStep(w, i, dues[0]);
      StepKeeps(w, ThreadDoes(dues[0], false));
      assert Next(w, ThreadDoes(dues[0], false), ThreadStep(w, dues[0], false));
      QuietStays(ThreadStep(w, dues[0], false), i, dues[1..]);
    }
  }

  /** The thread alone may come to trigger timer i. */
  ghost predicate MayTrigger(w: World, i: nat)
    requires Inv(w) && i < w.next
  {
    w.next <= |w.ts| && exists dues :: Alone(w, dues).ts[i].state == 1
  }

  /** One step nearer. */
  lemma Nearer(w: World, i: nat)
    requires Inv(w) && i < w.next && Underway(w.thread, i) && w.thread != Fire(i)
    ensures ThreadSafe(w) && Underway(ThreadStep(w, true, false).thread, i) && ThreadStep(w, true, false).next == w.next
    ensures w.thread.TestDue? ==> ThreadStep(w, true, false).thread.Advance?
    ensures w.thread.Advance? ==> ThreadStep(w, true, false).thread.Adjust?
    ensures w.thread.Adjust? ==> ThreadStep(w, true, false).thread.Fire?
  {
    InvSafe(w, ThreadDoes(true, false));
    hide Inv;
  }

  lemma FirstStep(w: World, dues: seq<bool>)
    requires Inv(w)
    ensures ThreadSafe(w) && Inv(ThreadStep(w, true, false))
    ensures Alone(w, [true] + dues) == Alone(ThreadStep(w, true, false), dues)
  {
    StepKeeps(w, ThreadDoes(true, false));
    assert Next(w, ThreadDoes(true, false), ThreadStep(w, true, false));
    hide Inv;
    assert ([true] + dues)[1..] == dues;
  }

  function Distance(t: ThreadPc): nat {
    if t.TestDue? then 3 else if t.Advance? then 2 else if t.Adjust? then 1 else 0
  }

  lemma {:induction false} AboutToFire(w: World, i: nat)
    requires Inv(w) && i < w.next && Underway(w.thread, i)
    ensures MayTrigger(w, i)
    decreases Distance(w.thread)
  {
    hide Inv;
    FirstStep(w, []);
    if w.thread == Fire(i) {
      Fires(w, i);
    } else {
      Nearer(w, i);
      var v := ThreadStep(w, true, false);
      hide ThreadStep;
      AboutToFire(v, i);
      var dues :| Alone(v, dues).ts[i].state == 1;
      FirstStep(w, dues);
      assert Alone(w, [true] + dues).ts[i].state == 1;
    }
  }

  lemma Fires(w: World, i: nat)
    requires Inv(w) && i < w.next && w.thread == Fire(i)
    ensures MayTrigger(w, i)
  {
    InvSafe(w, ThreadDoes(true, false));
    hide Inv;
    FirstStep(w, []);
    assert Alone(w, [true] + []).ts[i].state == 1;
  }

  lemma NotAboutTo(w: World, i: nat)
    requires Inv(w) && i < w.next <= |w.ts| && Quiet(w, i) && w.ts[i].state != 1
    ensures !MayTrigger(w, i)
  {
    hide Inv, ThreadStep;
    forall dues
      ensures Alone(w, dues).ts[i].state != 1
    {
      QuietStays(w, i, dues);
    }
  }

  /** When OFF has just finished, the timer is or can still be triggered if and only if it is so
      already, by a write of the thread behind OFF's own test, or the thread had seen its last
      time set before: then it goes on to see whether the timer is due, by a last time that OFF
      may have reset in the meantime, or to the write. */
  lemma LateTrigger(w: World, call: Call, junk: Timer)
    requires Inv(w) && w.main.OffLast?
    ensures var v, i := MainStep(w, call, junk), w.main.i;
            Inv(v) && i < v.next && (MayTrigger(v, i) <==> Underway(v.thread, i) || v.ts[i].state == 1)
  {
    MainKeepsAll(w, call, junk);
    var v, i := MainStep(w, call, junk), w.main.i;
    assert i < v.next <= |v.ts| && v.ts[i].active == 0 && !v.ts[i].started;
    hide Inv, MainStep;
    if v.ts[i].state == 1 {
      assert Alone(v, []).ts[i].state == 1;
    } else if Underway(v.thread, i) {
      AboutToFire(v, i);
    } else {
      NotAboutTo(v, i);
    }
  }

  /** The thread writes between OFF's test and its last step: OFF leaves the trigger behind, with
      no thread about to write another, for a later ON to find. */
  lemma LeftBehind(w: World, call: Call, junk: Timer)
    requires Inv(w) && w.main.OffTest? && w.thread == Fire(w.main.i)
    ensures MainSafe(w) && w.main.i < |w.ts|
    ensures var v, i := MainStep(w, call, junk), w.main.i;
            ThreadSafe(v) &&
            var x := ThreadStep(v, true, false);
            Inv(x) && x.main == OffLast(i) && MainSafe(x) &&
            var y := MainStep(x, call, junk);
            Inv(y) && y.main.Code? && i < |y.ts| && y.ts[i].state == 1 && y.ts[i].active == 0 && !Underway(y.thread, i)
  {
    MainKeepsAll(w, call, junk);
    var v, i := MainStep(w, call, junk), w.main.i;
    assert v.main == OffLast(i) && v.thread == Fire(i) && i < v.next <= |v.ts|;
    InvSafe(v, ThreadDoes(true, false));
    StepKeeps(v, ThreadDoes(true, false));
    var x := ThreadStep(v, true, false);
    assert Next(v, ThreadDoes(true, false), x);
    assert x.main == OffLast(i) && x.thread == Poll(i) && x.ts[i].state == 1;
    MainKeepsAll(x, call, junk);
    hide Inv;
  }
}
