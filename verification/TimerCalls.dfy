/** What the calls of a program have to do with its timer handlers, over whole runs of the two
    threads: which handler starts, when, and because of what. */
module TimerCalls {
  import opened Timers

  // --------------------------------------------------------------------------------------
  // The mode and the event of a timer, from the calls alone
  // --------------------------------------------------------------------------------------

  /** In this step the program makes a call, and timer i is allocated. */
  ghost predicate Calls(w: World, a: Action, i: nat) {
    a.MainDoes? && w.main.Code? && i < w.next <= |w.ts| && w.ts[i].used
  }

  /** In this step index i is being handed out. */
  ghost predicate HandsOut(w: World, a: Action, i: nat) {
    a.MainDoes? && w.main == InitActive(i)
  }

  /** What a step makes of the mode of timer i: 0 off, 1 on, 2 stopped. */
  ghost function NextMode(w: World, a: Action, i: nat, mode: nat): nat {
    if Calls(w, a, i) && a.call == On(i) then 1
    else if Calls(w, a, i) && a.call == Stop(i) then 2
    else if Calls(w, a, i) && (a.call == Off(i) || (a.call == Free(i) && i != 0)) then 0
    else if HandsOut(w, a, i) then 0
    else mode
  }

  /** And of its event. */
  ghost function NextEvent(w: World, a: Action, i: nat, event: nat): nat {
    if Calls(w, a, i) && a.call.Setup? && a.call.t == i then a.call.event
    else if Calls(w, a, i) && a.call == Free(i) && i != 0 then 0
    else if HandsOut(w, a, i) then 0
    else event
  }

  /** What the calls of the first k steps have made of timer i. */
  ghost function Mode(ws: seq<World>, acts: seq<Action>, k: nat, i: nat): nat
    requires k < |ws| == |acts| + 1
  {
    if k == 0 then 0 else NextMode(ws[k - 1], acts[k - 1], i, Mode(ws, acts, k - 1, i))
  }

  ghost function Event(ws: seq<World>, acts: seq<Action>, k: nat, i: nat): nat
    requires k < |ws| == |acts| + 1
  {
    if k == 0 then 0 else NextEvent(ws[k - 1], acts[k - 1], i, Event(ws, acts, k - 1, i))
  }

  /** The index is one of the array's, or about to be. */
  predicate Placed(w: World, i: nat) {
    i < |w.ts| && (i < w.next || w.main == InitId(i) || w.main == InitAllocated(i) || w.main == Publish(i))
  }

  /** A step, from a state of a run. */
  ghost predicate Step(w: World, a: Action, v: World) {
    Inv(w) && Safe(w, a) && Inv(v) && v == if a.ThreadDoes? then ThreadStep(w, a.due, a.ending) else MainStep(w, a.call, a.junk)
  }

  lemma RunStep(ws: seq<World>, acts: seq<Action>, k: nat)
    requires Run(ws, acts) && k < |acts|
    ensures Step(ws[k], acts[k], ws[k + 1])
  {
    Always(ws, acts, k);
    Always(ws, acts, k + 1);
    hide Inv, Safe;
    assert Next(ws[k], acts[k], ws[k + 1]);
  }

  lemma ThreadActive(w: World, a: Action, v: World, i: nat)
    requires Step(w, a, v) && a.ThreadDoes? && i < |v.ts|
    ensures i < |w.ts| && v.ts[i].active == w.ts[i].active && v.ts[i].id == w.ts[i].id && v.ts[i].used == w.ts[i].used
    ensures v.main == w.main && v.next == w.next && v.stack == w.stack && v.free == w.free
  {
    hide Inv;
  }

  lemma CallActive(w: World, a: Action, v: World, i: nat)
    requires Step(w, a, v) && a.MainDoes? && w.main.Code? && Placed(v, i)
    ensures Placed(w, i) && v.ts[i].active == NextMode(w, a, i, w.ts[i].active)
  {
    hide Mutex, ThreadAt, InProgress, FreeList, Timed, MainAt;
  }

  lemma MainActive(w: World, a: Action, v: World, i: nat)
    requires Step(w, a, v) && a.MainDoes? && !w.main.Code? && Placed(v, i)
    ensures if HandsOut(w, a, i) then v.ts[i].active == 0 else Placed(w, i) && v.ts[i].active == w.ts[i].active
  {
    if Making(w.main) {
      MakeActive(w, a, v, i);
    } else {
      OtherActive(w, a, v, i);
    }
  }

  lemma MakeActive(w: World, a: Action, v: World, i: nat)
    requires Step(w, a, v) && a.MainDoes? && Making(w.main) && Placed(v, i)
    ensures if HandsOut(w, a, i) then v.ts[i].active == 0 else Placed(w, i) && v.ts[i].active == w.ts[i].active
  {
    hide Mutex, ThreadAt, InProgress, FreeList, Timed;
    if w.main.Grow? {
      RegrownKeeps(w.ts, w.next + 1, a.junk);
    }
  }

  lemma OtherActive(w: World, a: Action, v: World, i: nat)
    requires Step(w, a, v) && a.MainDoes? && !w.main.Code? && !Making(w.main) && Placed(v, i)
    ensures Placed(w, i) && v.ts[i].active == w.ts[i].active
  {
    hide Inv;
  }

  lemma ActiveStep(w: World, a: Action, v: World, i: nat)
    requires Step(w, a, v) && Placed(v, i)
    ensures if HandsOut(w, a, i) then v.ts[i].active == 0
            else Placed(w, i) && v.ts[i].active == NextMode(w, a, i, w.ts[i].active)
  {
    hide Step;
    if a.ThreadDoes? {
      ThreadActive(w, a, v, i);
    } else if w.main.Code? {
      CallActive(w, a, v, i);
    } else {
      MainActive(w, a, v, i);
    }
  }

  /** The field always says what the calls have made of the timer. */
  lemma {:induction false} ModeIs(ws: seq<World>, acts: seq<Action>, k: nat, i: nat)
    requires Run(ws, acts) && k < |ws| && Placed(ws[k], i)
    ensures ws[k].ts[i].active == Mode(ws, acts, k, i)
  {
    hide *;
    RunLength(ws, acts);
    PlacedIn(ws[k], i);
    if k > 0 {
      RunStep(ws, acts, k - 1);
      ActiveStep(ws[k - 1], acts[k - 1], ws[k], i);
      ModeMore(ws, acts, k, i);
      if HandsOut(ws[k - 1], acts[k - 1], i) {
        HandedMode(ws[k - 1], acts[k - 1], i, Mode(ws, acts, k - 1, i));
      } else {
        ModeIs(ws, acts, k - 1, i);
      }
    } else {
      FirstMode(ws, acts, i);
    }
  }

  lemma RunLength(ws: seq<World>, acts: seq<Action>)
    requires Run(ws, acts)
    ensures |ws| == |acts| + 1
  {}

  lemma PlacedIn(w: World, i: nat)
    requires Placed(w, i)
    ensures i < |w.ts|
  {}

  lemma ModeMore(ws: seq<World>, acts: seq<Action>, k: nat, i: nat)
    requires 0 < k < |ws| == |acts| + 1
    ensures Mode(ws, acts, k, i) == NextMode(ws[k - 1], acts[k - 1], i, Mode(ws, acts, k - 1, i))
    ensures Event(ws, acts, k, i) == NextEvent(ws[k - 1], acts[k - 1], i, Event(ws, acts, k - 1, i))
  {}

  lemma FirstMode(ws: seq<World>, acts: seq<Action>, i: nat)
    requires Run(ws, acts) && Placed(ws[0], i)
    ensures ws[0].ts[i].active == Mode(ws, acts, 0, i) && EventOk(ws[0], i, Event(ws, acts, 0, i))
  {}

  lemma HandedMode(w: World, a: Action, i: nat, m: nat)
    requires HandsOut(w, a, i)
    ensures NextMode(w, a, i, m) == 0 && NextEvent(w, a, i, m) == 0
  {}

  predicate SettingUp(m: MainPc, i: nat) {
    (m.SetupTest? || m.SetupRetract? || m.SetupTime? || m.SetupLast? || m.SetupId?) && m.i == i
  }

  predicate Freeing(m: MainPc, i: nat) {
    m == FreeTest(i) || m == FreeRetract(i) || m == FreeAllocated(i) || m == FreeId(i)
  }

  /** The event of timer i, or the one about to be written, is e. */
  ghost predicate EventOk(w: World, i: nat, e: nat)
    requires i < |w.ts|
  {
    && (SettingUp(w.main, i) ==> w.main.id == e)
    && (Freeing(w.main, i) || w.main == InitId(i) ==> e == 0)
    && (!SettingUp(w.main, i) && !Freeing(w.main, i) && w.main != InitId(i) ==> w.ts[i].id == e)
  }

  lemma CallEvent(w: World, a: Action, v: World, i: nat, e: nat)
    requires Step(w, a, v) && a.MainDoes? && w.main.Code? && Placed(v, i) && i < |w.ts| && EventOk(w, i, e)
    ensures EventOk(v, i, NextEvent(w, a, i, e))
  {
    hide Inv;
    if a.call.Setup? || a.call.Free? {
      NamingEvent(w, a, v, i, e);
    }
  }

  lemma NamingEvent(w: World, a: Action, v: World, i: nat, e: nat)
    requires Step(w, a, v) && a.MainDoes? && w.main.Code? && Placed(v, i) && i < |w.ts| && EventOk(w, i, e)
    requires a.call.Setup? || a.call.Free?
    ensures EventOk(v, i, NextEvent(w, a, i, e))
  {
    hide Inv;
  }

  lemma MakeEvent(w: World, a: Action, v: World, i: nat, e: nat)
    requires Step(w, a, v) && a.MainDoes? && Making(w.main) && Placed(v, i)
    requires HandsOut(w, a, i) || (Placed(w, i) && EventOk(w, i, e))
    ensures EventOk(v, i, NextEvent(w, a, i, e))
  {
    hide Mutex, ThreadAt, InProgress, FreeList, Timed;
    if w.main.Grow? {
      RegrownKeeps(w.ts, w.next + 1, a.junk);
    }
  }

  lemma OtherEvent(w: World, a: Action, v: World, i: nat, e: nat)
    requires Step(w, a, v) && a.MainDoes? && !w.main.Code? && !Making(w.main) && Placed(v, i)
    requires i < |w.ts| && EventOk(w, i, e)
    ensures EventOk(v, i, NextEvent(w, a, i, e))
  {
    hide Inv;
  }

  lemma EventStep(w: World, a: Action, v: World, i: nat, e: nat)
    requires Step(w, a, v) && Placed(v, i) && (HandsOut(w, a, i) || (Placed(w, i) && EventOk(w, i, e)))
    ensures EventOk(v, i, NextEvent(w, a, i, e))
  {
    hide Step, NextEvent;
    if a.ThreadDoes? {
      ThreadActive(w, a, v, i);
      NoCall(w, a, i, e);
    } else if w.main.Code? {
      CallEvent(w, a, v, i, e);
    } else if Making(w.main) {
      MakeEvent(w, a, v, i, e);
    } else {
      OtherEvent(w, a, v, i, e);
    }
  }

  lemma NoCall(w: World, a: Action, i: nat, e: nat)
    requires a.ThreadDoes?
    ensures NextEvent(w, a, i, e) == e
  {}

  lemma {:induction false} EventIs(ws: seq<World>, acts: seq<Action>, k: nat, i: nat)
    requires Run(ws, acts) && k < |ws| && Placed(ws[k], i)
    ensures EventOk(ws[k], i, Event(ws, acts, k, i))
  {
    hide *;
    RunLength(ws, acts);
    PlacedIn(ws[k], i);
    if k > 0 {
      RunStep(ws, acts, k - 1);
      ActiveStep(ws[k - 1], acts[k - 1], ws[k], i);
      ModeMore(ws, acts, k, i);
      if !HandsOut(ws[k - 1], acts[k - 1], i) {
        EventIs(ws, acts, k - 1, i);
      }
      EventStep(ws[k - 1], acts[k - 1], ws[k], i, Event(ws, acts, k - 1, i));
    } else {
      FirstMode(ws, acts, i);
    }
  }

  // --------------------------------------------------------------------------------------
  // When a handler starts
  // --------------------------------------------------------------------------------------

  /** The step changes the mode of timer i, or sets it again. */
  ghost predicate Switches(w: World, a: Action, i: nat) {
    HandsOut(w, a, i) || (Calls(w, a, i) && (a.call in {On(i), Stop(i), Off(i)} || (a.call == Free(i) && i != 0)))
  }

  /** A timer that is on was last switched by ON. */
  lemma {:induction false} SinceOn(ws: seq<World>, acts: seq<Action>, k: nat, i: nat) returns (j: nat)
    requires Run(ws, acts) && k < |ws| && Mode(ws, acts, k, i) == 1
    ensures j < k && Calls(ws[j], acts[j], i) && acts[j].call == On(i)
    ensures forall m :: j < m < k ==> !Switches(ws[m], acts[m], i)
  {
    if Calls(ws[k - 1], acts[k - 1], i) && acts[k - 1].call == On(i) {
      j := k - 1;
    } else {
      j := SinceOn(ws, acts, k - 1, i);
    }
  }

  /** The thread writes the trigger of timer i in this step. */
  ghost predicate Fires(w: World, a: Action, i: nat) {
    a.ThreadDoes? && w.thread == Fire(i)
  }

  /** A state of 1 is the thread's. */
  lemma TriggerStep(w: World, a: Action, v: World, i: nat)
    requires Step(w, a, v) && i < v.next && v.ts[i].state == 1
    ensures Fires(w, a, i) || (i < w.next && w.ts[i].state == 1)
  {
    if a.ThreadDoes? {
      ThreadTrigger(w, a, v, i);
    } else if Making(w.main) {
      MakeTrigger(w, a, v, i);
    } else {
      OtherTrigger(w, a, v, i);
    }
  }

  lemma ThreadTrigger(w: World, a: Action, v: World, i: nat)
    requires Step(w, a, v) && a.ThreadDoes? && i < v.next && v.ts[i].state == 1
    ensures Fires(w, a, i) || (i < w.next && w.ts[i].state == 1)
  {
    hide Mutex, ThreadAt, InProgress, MainAt, FreeList, Timed;
  }

  lemma MakeTrigger(w: World, a: Action, v: World, i: nat)
    requires Step(w, a, v) && a.MainDoes? && Making(w.main) && i < v.next && v.ts[i].state == 1
    ensures i < w.next && w.ts[i].state == 1
  {
    hide Mutex, ThreadAt, InProgress, FreeList, Timed;
    if w.main.Grow? {
      RegrownKeeps(w.ts, w.next + 1, a.junk);
    }
  }

  lemma OtherTrigger(w: World, a: Action, v: World, i: nat)
    requires Step(w, a, v) && a.MainDoes? && !Making(w.main) && i < v.next && v.ts[i].state == 1
    ensures i < w.next && w.ts[i].state == 1
  {
    hide Mutex, ThreadAt, InProgress, FreeList, Timed, MainAt;
  }

  /** The thread has triggered timer i in step j, and nothing has taken that back. */
  ghost predicate TriggeredSince(ws: seq<World>, acts: seq<Action>, j: nat, k: nat, i: nat) {
    && j < k < |ws| && j < |acts| && Fires(ws[j], acts[j], i)
    && forall m :: j < m <= k ==> i < |ws[m].ts| && ws[m].ts[i].state == 1
  }

  lemma {:induction false} Triggered(ws: seq<World>, acts: seq<Action>, k: nat, i: nat) returns (j: nat)
    requires Run(ws, acts) && k < |ws| && i < ws[k].next <= |ws[k].ts| && ws[k].ts[i].state == 1
    ensures TriggeredSince(ws, acts, j, k, i)
  {
    TriggerBack(ws, acts, k, i);
    hide *;
    if Fires(ws[k - 1], acts[k - 1], i) {
      j := k - 1;
      SinceNow(ws, acts, k, i);
    } else {
      j := Triggered(ws, acts, k - 1, i);
      SinceMore(ws, acts, j, k, i);
    }
  }

  lemma TriggerBack(ws: seq<World>, acts: seq<Action>, k: nat, i: nat)
    requires Run(ws, acts) && k < |ws| && i < ws[k].next <= |ws[k].ts| && ws[k].ts[i].state == 1
    ensures 0 < k < |ws| == |acts| + 1
    ensures Fires(ws[k - 1], acts[k - 1], i) || (i < ws[k - 1].next <= |ws[k - 1].ts| && ws[k - 1].ts[i].state == 1)
  {
    hide *;
    NoTrigger(ws, acts, i);
    RunStep(ws, acts, k - 1);
    TriggerFrom(ws[k - 1], acts[k - 1], ws[k], i);
  }

  lemma TriggerFrom(w: World, a: Action, v: World, i: nat)
    requires Step(w, a, v) && i < v.next && i < |v.ts| && v.ts[i].state == 1
    ensures Fires(w, a, i) || (i < w.next <= |w.ts| && w.ts[i].state == 1)
  {
    StepBounds(w, a, v);
    hide *;
    TriggerStep(w, a, v, i);
  }

  lemma NoTrigger(ws: seq<World>, acts: seq<Action>, i: nat)
    requires Run(ws, acts)
    ensures |ws| == |acts| + 1 && (i < |ws[0].ts| ==> ws[0].ts[i].state == 0)
  {}

  lemma StepBounds(w: World, a: Action, v: World)
    requires Step(w, a, v)
    ensures w.next <= |w.ts| && v.next <= |v.ts|
  {}

  lemma SinceNow(ws: seq<World>, acts: seq<Action>, k: nat, i: nat)
    requires 0 < k < |ws| == |acts| + 1 && Fires(ws[k - 1], acts[k - 1], i) && i < |ws[k].ts| && ws[k].ts[i].state == 1
    ensures TriggeredSince(ws, acts, k - 1, k, i)
  {}

  lemma SinceMore(ws: seq<World>, acts: seq<Action>, j: nat, k: nat, i: nat)
    requires 0 < k < |ws| && TriggeredSince(ws, acts, j, k - 1, i) && i < |ws[k].ts| && ws[k].ts[i].state == 1
    ensures TriggeredSince(ws, acts, j, k, i)
  {}

  lemma NotYet(ws: seq<World>, acts: seq<Action>)
    requires Run(ws, acts)
    ensures |ws| == |acts| + 1 && ws[0].main == Code && ws[0].thread == Quick
  {}

  /** A handler that starts is that of a timer whose last ON, STOP, OFF or FREE was ON, which has an
      event, and which the thread has triggered since it last ran or was retracted. */
  lemma HandlerStarts(ws: seq<World>, acts: seq<Action>, k: nat)
    requires Run(ws, acts) && k < |ws| && ws[k].main.Start?
    ensures var i := ws[k].main.i;
            && Mode(ws, acts, k, i) == 1 && i < |ws[k].ts| && ws[k].ts[i].id == Event(ws, acts, k, i) != 0
            && exists j :: TriggeredSince(ws, acts, j, k, i)
  {
    var i := ws[k].main.i;
    Always(ws, acts, k);
    assert i < ws[k].next && ws[k].ts[i].state == 1 && ws[k].ts[i].active == 1 && ws[k].ts[i].id != 0;
    hide Inv, Run;
    ModeIs(ws, acts, k, i);
    EventIs(ws, acts, k, i);
    var j := Triggered(ws, acts, k, i);
  }

  /** The scan starts a handler exactly so. */
  lemma HandlerStartsIff(ws: seq<World>, acts: seq<Action>, k: nat, i: nat)
    requires Run(ws, acts) && k < |acts| && acts[k].MainDoes? && ws[k].main == Test(i)
    ensures i < |ws[k].ts|
    ensures ws[k + 1].main == Start(i) <==>
            ws[k].ts[i].used && Event(ws, acts, k, i) != 0 && Mode(ws, acts, k, i) == 1 && ws[k].ts[i].state == 1
  {
    RunStep(ws, acts, k);
    TestAt(ws[k], acts[k], ws[k + 1], i);
    hide Step, Run;
    ModeIs(ws, acts, k, i);
    EventIs(ws, acts, k, i);
  }

  lemma TestAt(w: World, a: Action, v: World, i: nat)
    requires Step(w, a, v) && w.main == Test(i) && a.MainDoes?
    ensures Placed(w, i) && w.stack == v.stack && w.ts == v.ts
    ensures v.main == Start(i) <==> w.ts[i].used && w.ts[i].id != 0 && w.ts[i].active == 1 && w.ts[i].state == 1
    ensures v.main == Start(i) || v.main == Scan(i + 1)
  {
    hide Mutex, ThreadAt, InProgress, FreeList, Timed;
  }

  predicate Serving(m: MainPc, i: nat) {
    m == Test(i) || m == Start(i)
  }

  ghost predicate ToServe(w: World, i: nat, stack: seq<nat>) {
    && Serving(w.main, i) && i < |w.ts| && w.stack == stack
    && w.ts[i].used && w.ts[i].id != 0 && w.ts[i].active == 1 && w.ts[i].state == 1
  }

  lemma ServeStep(w: World, a: Action, v: World, i: nat, stack: seq<nat>)
    requires Step(w, a, v) && ToServe(w, i, stack)
    ensures ToServe(v, i, stack) || (v.main.Code? && v.stack == stack + [i] && i < |v.ts| && v.ts[i].state == 2)
  {
    hide Mutex, InProgress, FreeList, Timed;
  }

  lemma ServeMore(w: World, a: Action, v: World, i: nat, stack: seq<nat>)
    requires Step(w, a, v) && Serving(w.main, i)
    requires ToServe(w, i, stack) || w.main.Code?
    ensures ToServe(v, i, stack) || (v.main.Code? && v.stack == stack + [i] && i < |v.ts| && v.ts[i].state == 2)
  {
    hide Step;
    if ToServe(w, i, stack) {
      ServeStep(w, a, v, i, stack);
    }
  }

  lemma CodeServesNone(i: nat)
    ensures !Serving(Code, i)
  {}

  lemma {:induction false} ServeOn(ws: seq<World>, acts: seq<Action>, k: nat, l: nat, i: nat)
    requires Run(ws, acts) && k <= l < |ws| && ToServe(ws[k], i, ws[k].stack)
    requires forall m :: k <= m < l ==> Serving(ws[m].main, i)
    ensures ToServe(ws[l], i, ws[k].stack) || (ws[l].main.Code? && ws[l].stack == ws[k].stack + [i] && i < |ws[l].ts| && ws[l].ts[i].state == 2)
    decreases l
  {
    hide *;
    if k < l {
      NotYet(ws, acts);
      CodeServesNone(i);
      ServeOn(ws, acts, k, l - 1, i);
      assert Serving(ws[l - 1].main, i);
      RunStep(ws, acts, l - 1);
      ServeMore(ws[l - 1], acts[l - 1], ws[l], i, ws[k].stack);
    }
  }

  /** When the scan reaches a timer that is on, has an event and is triggered, its handler is
      entered before the scan passes it, whatever the thread does meanwhile. */
  lemma HandlerServed(ws: seq<World>, acts: seq<Action>, k: nat, l: nat, i: nat)
    requires Run(ws, acts) && k < l < |ws| && ws[k].main == Test(i) && i < |ws[k].ts|
    requires Mode(ws, acts, k, i) == 1 && Event(ws, acts, k, i) != 0 && ws[k].ts[i].used && ws[k].ts[i].state == 1
    requires (forall m :: k <= m < l ==> Serving(ws[m].main, i)) && !Serving(ws[l].main, i)
    ensures ws[l].main.Code? && ws[l].stack == ws[k].stack + [i]
  {
    Always(ws, acts, k);
    assert Placed(ws[k], i);
    hide Inv, Run;
    ModeIs(ws, acts, k, i);
    EventIs(ws, acts, k, i);
    ServeOn(ws, acts, k, l, i);
  }

  // --------------------------------------------------------------------------------------
  // The scan
  // --------------------------------------------------------------------------------------

  /** The next timer the scan looks at. */
  predicate ScanAt(m: MainPc, i: nat) {
    m == Scan(i) || m == Test(i)
  }

  lemma ScanStep(w: World, a: Action, v: World, i: nat)
    requires Step(w, a, v) && ScanAt(w.main, i)
    ensures ScanAt(v.main, i) || (a.MainDoes? && w.main == Test(i) && (v.main == Scan(i + 1) || v.main == Start(i)))
            || (a.MainDoes? && w.main == Scan(i) && w.next <= i && v.main.Code?)
  {
    hide Inv;
  }

  /** From timer s on a scan that has started no handler has tested every timer before the one it
      is at. */
  lemma {:induction false} ScanVisits(ws: seq<World>, acts: seq<Action>, k: nat, l: nat, s: nat, t: nat, i: nat)
    requires Run(ws, acts) && k <= l < |ws| && ws[k].main == Scan(s) && ScanAt(ws[l].main, t)
    requires forall m :: k <= m <= l ==> ws[m].main.Scan? || ws[m].main.Test?
    requires s <= i < t
    ensures exists m :: k <= m < l && ws[m].main == Test(i) && acts[m].MainDoes?
    decreases l
  {
    var u := ScanBack(ws, acts, k, l, s, t);
    hide *;
    if u == t {
      ScanVisits(ws, acts, k, l - 1, s, u, i);
      var m :| k <= m < l - 1 && ws[m].main == Test(i) && acts[m].MainDoes?;
    } else if i == u {
      assert ws[l - 1].main == Test(i) && acts[l - 1].MainDoes?;
    } else {
      ScanVisits(ws, acts, k, l - 1, s, u, i);
      var m :| k <= m < l - 1 && ws[m].main == Test(i) && acts[m].MainDoes?;
    }
  }

  lemma ScanBack(ws: seq<World>, acts: seq<Action>, k: nat, l: nat, s: nat, t: nat) returns (u: nat)
    requires Run(ws, acts) && k <= l < |ws| && ws[k].main == Scan(s) && ScanAt(ws[l].main, t) && s < t
    requires forall m :: k <= m <= l ==> ws[m].main.Scan? || ws[m].main.Test?
    ensures k < l < |ws| == |acts| + 1 && ScanAt(ws[l - 1].main, u)
    ensures u == t || (t == u + 1 && ws[l - 1].main == Test(u) && acts[l - 1].MainDoes?)
  {
    NotYet(ws, acts);
    assert ws[l - 1].main.Scan? || ws[l - 1].main.Test?;
    u := ws[l - 1].main.i;
    RunStep(ws, acts, l - 1);
    ScanStep(ws[l - 1], acts[l - 1], ws[l], u);
    hide Step, Run;
  }

  /** Events looks at every timer from 0 on; it is over behind the last one. */
  lemma EventsVisitAll(ws: seq<World>, acts: seq<Action>, k: nat, l: nat, i: nat)
    requires Run(ws, acts) && k + 1 < l < |ws| && acts[k].MainDoes? && acts[k].call == Events && ws[k].main.Code?
    requires (forall m :: k < m < l ==> ws[m].main.Scan? || ws[m].main.Test?) && ws[l].main.Code?
    requires i < ws[l].next
    ensures exists m :: k < m < l && ws[m].main == Test(i) && acts[m].MainDoes?
  {
    RunStep(ws, acts, k);
    ScanBegins(ws[k], acts[k], ws[k + 1]);
    RunStep(ws, acts, l - 1);
    var t := ws[l - 1].main.i;
    ScanStep(ws[l - 1], acts[l - 1], ws[l], t);
    ScanEnds(ws[l - 1], acts[l - 1], ws[l], t);
    hide Step, Run;
    ScanVisits(ws, acts, k + 1, l - 1, 0, t, i);
  }

  lemma ScanBegins(w: World, a: Action, v: World)
    requires Step(w, a, v) && a.MainDoes? && w.main.Code?
    ensures a.call == Events ==> v.main == Scan(0)
    ensures a.call == Return && w.stack != [] ==>
              var i := w.stack[|w.stack| - 1];
              v.main == Scan(i + 1) && v.stack == w.stack[..|w.stack| - 1] && i < |v.ts| && v.ts[i].state == 0
  {
    hide Inv;
  }

  lemma ScanEnds(w: World, a: Action, v: World, t: nat)
    requires Step(w, a, v) && ScanAt(w.main, t) && v.main.Code?
    ensures w.next == v.next <= t
  {
    hide Inv;
  }

  /** When a handler returns its timer waits again, and the scan goes on behind it. */
  lemma HandlerReturns(ws: seq<World>, acts: seq<Action>, k: nat)
    requires Run(ws, acts) && k < |acts| && acts[k].MainDoes? && acts[k].call == Return && ws[k].main.Code? && ws[k].stack != []
    ensures var i := ws[k].stack[|ws[k].stack| - 1];
            && ws[k + 1].main == Scan(i + 1) && ws[k + 1].stack == ws[k].stack[..|ws[k].stack| - 1]
            && i < |ws[k + 1].ts| && ws[k + 1].ts[i].state == 0
  {
    RunStep(ws, acts, k);
    ScanBegins(ws[k], acts[k], ws[k + 1]);
  }

  // --------------------------------------------------------------------------------------
  // When the thread triggers a timer
  // --------------------------------------------------------------------------------------

  /** The last step of the thread before k. */
  lemma {:induction false} LastMove(ws: seq<World>, acts: seq<Action>, k: nat) returns (j: nat)
    requires Run(ws, acts) && k < |ws| && ws[k].thread != Quick
    ensures j < k && acts[j].ThreadDoes? && Step(ws[j], acts[j], ws[j + 1])
    ensures forall m :: j < m <= k ==> ws[m].thread == ws[k].thread
  {
    hide *;
    NotYet(ws, acts);
    RunStep(ws, acts, k - 1);
    if acts[k - 1].ThreadDoes? {
      j := k - 1;
    } else {
      MainLeavesThread(ws[k - 1], acts[k - 1], ws[k]);
      j := LastMove(ws, acts, k - 1);
    }
  }

  lemma MainLeavesThread(w: World, a: Action, v: World)
    requires Step(w, a, v) && a.MainDoes?
    ensures v.thread == w.thread
  {
    hide Inv;
  }

  /** The thread is with timer i. */
  predicate With(t: ThreadPc, i: nat) {
    t in {TestAllocated(i), TestId(i), TestActive(i), TestState(i), TestTime(i), TestDue(i), Advance(i), Adjust(i), Fire(i)}
  }

  /** What the thread has just found where it comes from. */
  lemma Before(w: World, a: Action, v: World, i: nat)
    requires Step(w, a, v) && a.ThreadDoes?
    ensures v.thread == Fire(i) ==> w.thread == Adjust(i)
    ensures v.thread == Adjust(i) ==> w.thread == Advance(i)
    ensures v.thread == Advance(i) ==> w.thread == TestDue(i) && a.due
    ensures v.thread == TestDue(i) ==> w.thread == TestTime(i) && i < |w.ts| && w.ts[i].started
    ensures v.thread == TestTime(i) ==> w.thread == TestState(i) && i < |w.ts| && w.ts[i].state == 0
    ensures v.thread == TestState(i) ==> w.thread == TestActive(i) && i < |w.ts| && w.ts[i].active != 0
    ensures v.thread == TestActive(i) ==> w.thread == TestId(i) && i < |w.ts| && w.ts[i].id != 0
    ensures v.thread == TestId(i) ==> w.thread == TestAllocated(i) && i < |w.ts| && w.ts[i].used
  {
    hide Inv;
  }

  /** What the thread has found at the six places where it looks. */
  ghost predicate Found(w: World, i: nat, place: nat) {
    i < |w.ts| &&
    if place == 0 then w.thread == TestAllocated(i) && w.ts[i].used
    else if place == 1 then w.thread == TestId(i) && w.ts[i].id != 0
    else if place == 2 then w.thread == TestActive(i) && w.ts[i].active != 0
    else if place == 3 then w.thread == TestState(i) && w.ts[i].state == 0
    else if place == 4 then w.thread == TestTime(i) && w.ts[i].started
    else w.thread == TestDue(i)
  }

  /** The place the thread is at, behind so many of them. */
  predicate Behind(t: ThreadPc, i: nat, place: nat) {
    if place == 0 then t == TestAllocated(i) else if place == 1 then t == TestId(i) else if place == 2 then t == TestActive(i)
    else if place == 3 then t == TestState(i) else if place == 4 then t == TestTime(i) else t == TestDue(i)
  }

  /** The steps in which it has looked, in order, without leaving the timer. */
  ghost predicate Looked(ws: seq<World>, acts: seq<Action>, js: seq<nat>, k: nat, i: nat) {
    && (forall p :: 0 <= p < |js| ==> js[p] < k < |ws| && js[p] < |acts| && acts[js[p]].ThreadDoes? && Found(ws[js[p]], i, p))
    && (forall p, q :: 0 <= p < q < |js| ==> js[p] < js[q])
    && (js != [] ==> forall m :: js[0] <= m <= k ==> With(ws[m].thread, i))
  }

  lemma {:induction false} Looks(ws: seq<World>, acts: seq<Action>, k: nat, i: nat, place: nat) returns (js: seq<nat>)
    requires Run(ws, acts) && k < |ws| && place <= 5 && Behind(ws[k].thread, i, place)
    ensures |js| == place && Looked(ws, acts, js, k, i)
    decreases place
  {
    if place == 0 {
      js := [];
    } else {
      var j := LastMove(ws, acts, k);
      Before(ws[j], acts[j], ws[j + 1], i);
      hide Step, Run, Looked;
      js := Looks(ws, acts, j, i, place - 1);
      js := LookedMore(ws, acts, js, j, k, i);
    }
  }

  /** A timer is triggered when the thread has found it allocated, with an event, on or stopped,
      waiting, with its last time set, and then due, in this order and in one visit. */
  lemma TriggeredWhenDue(ws: seq<World>, acts: seq<Action>, k: nat, i: nat) returns (js: seq<nat>)
    requires Run(ws, acts) && k < |ws| && ws[k].thread == Fire(i)
    ensures |js| == 6 && Looked(ws, acts, js, k, i) && acts[js[5]].due
  {
    var a := DueMove(ws, acts, k, i);
    js := Looks(ws, acts, a, i, 5);
    SafeAt(ws, acts, a, i);
    js := LookedMore(ws, acts, js, a, k, i);
  }

  lemma DueMove(ws: seq<World>, acts: seq<Action>, k: nat, i: nat) returns (a: nat)
    requires Run(ws, acts) && k < |ws| && ws[k].thread == Fire(i)
    ensures a < k && acts[a].ThreadDoes? && acts[a].due && ws[a].thread == TestDue(i)
    ensures forall m :: a <= m <= k ==> With(ws[m].thread, i)
  {
    var c := LastMove(ws, acts, k);
    Before(ws[c], acts[c], ws[c + 1], i);
    hide Step, Run;
    var b := LastMove(ws, acts, c);
    Before(ws[b], acts[b], ws[b + 1], i);
    a := LastMove(ws, acts, b);
    Before(ws[a], acts[a], ws[a + 1], i);
  }

  lemma LookedMore(ws: seq<World>, acts: seq<Action>, js: seq<nat>, j: nat, k: nat, i: nat) returns (more: seq<nat>)
    requires Looked(ws, acts, js, j, i) && |js| <= 5 && j < k < |ws| && j < |acts| && acts[j].ThreadDoes? && Found(ws[j], i, |js|)
    requires forall m :: j <= m <= k ==> With(ws[m].thread, i)
    ensures more == js + [j] && Looked(ws, acts, more, k, i)
  {
    more := js + [j];
    hide With, Found;
  }

  lemma SafeAt(ws: seq<World>, acts: seq<Action>, k: nat, i: nat)
    requires Run(ws, acts) && k < |ws| && ws[k].thread == TestDue(i)
    ensures i < |ws[k].ts|
  {
    Always(ws, acts, k);
  }

  /** All that the thread looks at holds. */
  ghost predicate Due(w: World, a: Action, i: nat) {
    && i < |w.ts| && w.ts[i].used && w.ts[i].id != 0 && w.ts[i].active != 0 && w.ts[i].started
    && (w.thread == TestState(i) ==> w.ts[i].state == 0) && (w.thread == TestDue(i) && a.ThreadDoes? ==> a.due)
  }

  lemma DueStep(w: World, a: Action, v: World, i: nat)
    requires Step(w, a, v) && With(w.thread, i) && Due(w, a, i)
    ensures With(v.thread, i) || Fires(w, a, i)
  {
    if a.MainDoes? { MainLeavesThread(w, a, v); }
    hide Inv;
  }

  /** And whenever all of that holds while the thread visits a timer, it triggers it. */
  lemma {:induction false} DueTriggers(ws: seq<World>, acts: seq<Action>, k: nat, l: nat, i: nat)
    requires Run(ws, acts) && k <= l < |ws| && ws[k].thread == TestAllocated(i) && !With(ws[l].thread, i)
    requires forall m :: k <= m < l ==> Due(ws[m], acts[m], i)
    ensures exists m :: k <= m < l && Fires(ws[m], acts[m], i)
    decreases l
  {
    DueBack(ws, acts, k, l, i);
    hide *;
    if Fires(ws[l - 1], acts[l - 1], i) {
      assert k <= l - 1 < l;
    } else {
      DueTriggers(ws, acts, k, l - 1, i);
      var m :| k <= m < l - 1 && Fires(ws[m], acts[m], i);
    }
  }

  lemma WithFirst(i: nat)
    ensures With(TestAllocated(i), i)
  {}

  lemma DueBack(ws: seq<World>, acts: seq<Action>, k: nat, l: nat, i: nat)
    requires Run(ws, acts) && k <= l < |ws| && ws[k].thread == TestAllocated(i) && !With(ws[l].thread, i)
    requires forall m :: k <= m < l ==> Due(ws[m], acts[m], i)
    ensures k < l < |ws| == |acts| + 1
    ensures Fires(ws[l - 1], acts[l - 1], i) || !With(ws[l - 1].thread, i)
  {
    NotYet(ws, acts);
    WithFirst(i);
    hide *;
    assert Due(ws[l - 1], acts[l - 1], i);
    RunStep(ws, acts, l - 1);
    if With(ws[l - 1].thread, i) {
      DueStep(ws[l - 1], acts[l - 1], ws[l], i);
    }
  }

  // --------------------------------------------------------------------------------------
  // Retracting a trigger
  // --------------------------------------------------------------------------------------

  /** ON TIMER, OFF or FREE for timer i has looked whether there is a trigger to retract. */
  predicate Retracted(m: MainPc, i: nat) {
    || m == OffLast(i) || ((m.SetupTime? || m.SetupLast? || m.SetupId?) && m.i == i)
    || m == FreeAllocated(i) || m == FreeId(i) || m == FreePush(i)
  }

  lemma RetractStep(w: World, a: Action, v: World, i: nat)
    requires Step(w, a, v) && Retracted(v.main, i) && i < |v.ts| && v.ts[i].state == 1
    ensures Retracted(w.main, i) && i < |w.ts| && (Fires(w, a, i) || w.ts[i].state == 1)
  {
    hide Step, Retracted;
    if a.ThreadDoes? {
      ThreadRetract(w, a, v, i);
    } else {
      MainRetract(w, a, v, i);
    }
  }

  lemma ThreadRetract(w: World, a: Action, v: World, i: nat)
    requires Step(w, a, v) && a.ThreadDoes? && i < |v.ts| && v.ts[i].state == 1
    ensures v.main == w.main && i < |w.ts| && (Fires(w, a, i) || w.ts[i].state == 1)
  {
    hide Inv;
  }

  lemma MainRetract(w: World, a: Action, v: World, i: nat)
    requires Step(w, a, v) && a.MainDoes? && Retracted(v.main, i) && i < |v.ts| && v.ts[i].state == 1
    ensures Retracted(w.main, i) && i < |w.ts| && w.ts[i].state == 1
  {
    NoRetract(w, a, v, i);
    hide Step, Retracted;
    CallRetract(w, a, v, i);
  }

  lemma NoRetract(w: World, a: Action, v: World, i: nat)
    requires Step(w, a, v) && a.MainDoes?
    ensures w.main.Code? || Making(w.main) ==> !Retracted(v.main, i)
  {
    hide Inv;
  }

  lemma CallRetract(w: World, a: Action, v: World, i: nat)
    requires Step(w, a, v) && a.MainDoes? && !w.main.Code? && !Making(w.main)
    requires Retracted(v.main, i) && i < |v.ts| && v.ts[i].state == 1
    ensures Retracted(w.main, i) && i < |w.ts| && w.ts[i].state == 1
  {
    hide Inv;
  }

  /** From then on until the call is over, a trigger is there only if the thread has written it
      meanwhile. */
  lemma {:induction false} RetractedUnlessLate(ws: seq<World>, acts: seq<Action>, k: nat, i: nat) returns (j: nat)
    requires Run(ws, acts) && k < |ws| && Retracted(ws[k].main, i) && i < |ws[k].ts| && ws[k].ts[i].state == 1
    ensures j < k && Fires(ws[j], acts[j], i) && forall m :: j <= m <= k ==> Retracted(ws[m].main, i)
  {
    RetractBack(ws, acts, k, i);
    hide *;
    if Fires(ws[k - 1], acts[k - 1], i) {
      j := k - 1;
    } else {
      j := RetractedUnlessLate(ws, acts, k - 1, i);
    }
  }

  lemma RetractBack(ws: seq<World>, acts: seq<Action>, k: nat, i: nat)
    requires Run(ws, acts) && k < |ws| && Retracted(ws[k].main, i) && i < |ws[k].ts| && ws[k].ts[i].state == 1
    ensures 0 < k < |ws| == |acts| + 1 && Retracted(ws[k - 1].main, i)
    ensures i < |ws[k - 1].ts| && (Fires(ws[k - 1], acts[k - 1], i) || ws[k - 1].ts[i].state == 1)
  {
    hide *;
    RetractFirst(ws, acts, i);
    var w, a, v := ws[k - 1], acts[k - 1], ws[k];
    RunStep(ws, acts, k - 1);
    RetractStep(w, a, v, i);
  }

  lemma RetractFirst(ws: seq<World>, acts: seq<Action>, i: nat)
    requires Run(ws, acts)
    ensures |ws| == |acts| + 1 && !Retracted(ws[0].main, i)
  {}
}
