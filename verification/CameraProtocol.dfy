/**
  The camera subscription table under concurrency.  Every critical section and every driver
  call is one atomic step, so between steps the mutex is free.  Threads interleave freely,
  as far as a discipline allows it.
 */
module CameraProtocol {
  import opened Camera

  /** Where a thread is: outside, or between two steps of subscribe or unsubscribe. */
  datatype Pc =
    | Outside
    | Installing(s: nat, c: nat)     // first subscriber: about to install the dispatcher
    | Starting(s: nat, c: nat)       // about to start the stream
    | RollingBack(s: nat, c: nat)    // the start failed
    | Stopping(s: nat)               // last subscriber gone: about to stop the stream
    | Unhooking(s: nat)              // about to remove the dispatcher

  datatype State = State(
    active: set<(nat, nat)>,
    ref: map<nat, nat>,
    started: set<nat>,
    hooked: set<nat>,
    pcs: map<nat, Pc>)

  const Start := State({}, map[], {}, {}, map[])

  datatype Action = Subscribe(s: nat, c: nat) | Unsubscribe(s: nat, c: nat) | Continue(ok: bool)

  datatype Step = Step(thread: nat, action: Action)

  function PcOf(st: State, t: nat): Pc { if t in st.pcs then st.pcs[t] else Outside }

  function RefOf(st: State, s: nat): nat { if s in st.ref then st.ref[s] else 0 }

  function Users(st: State, s: nat): set<nat> { set c: nat | c < Consumers && (s, c) in st.active }

  // ----- Steps -----

  /** The first critical section of subscribe.  The checks before it change nothing. */
  function Subscribed(st: State, t: nat, s: nat, c: nat): State {
    if s >= Streams || c >= Consumers || (s, c) in st.active then st
    else
      var first := RefOf(st, s) == 0;
      st.(active := st.active + {(s, c)}, ref := st.ref[s := RefOf(st, s) + 1],
          pcs := st.pcs[t := if first then Installing(s, c) else Outside])
  }

  /** A slot is released and counted down, unless the count is 0 already. */
  function Released(st: State, s: nat, c: nat): State {
    st.(active := st.active - {(s, c)}, ref := if RefOf(st, s) > 0 then st.ref[s := RefOf(st, s) - 1] else st.ref)
  }

  /** The critical section of unsubscribe. */
  function Unsubscribed(st: State, t: nat, s: nat, c: nat): State {
    if s >= Streams || c >= Consumers || (s, c) !in st.active then st
    else
      var last := RefOf(st, s) == 1;
      Released(st, s, c).(pcs := st.pcs[t := if last then Stopping(s) else Outside])
  }

  /** The next step of a call under way; `ok` is what a driver start returns. */
  function Continued(st: State, t: nat, ok: bool): State {
    match PcOf(st, t)
    case Outside => st
    case Installing(s, c) => st.(hooked := st.hooked + {s}, pcs := st.pcs[t := Starting(s, c)])
    case Starting(s, c) =>
      if ok then st.(started := st.started + {s}, pcs := st.pcs[t := Outside])
      else st.(pcs := st.pcs[t := RollingBack(s, c)])
    case RollingBack(s, c) => Released(st, s, c).(pcs := st.pcs[t := Unhooking(s)])
    case Stopping(s) => st.(started := st.started - {s}, pcs := st.pcs[t := Unhooking(s)])
    case Unhooking(s) => st.(hooked := st.hooked - {s}, pcs := st.pcs[t := Outside])
  }

  /** A thread starts a call only when it is in none. */
  function Next(st: State, step: Step): State {
    match step.action
    case Continue(ok) => Continued(st, step.thread, ok)
    case Subscribe(s, c) => if PcOf(st, step.thread).Outside? then Subscribed(st, step.thread, s, c) else st
    case Unsubscribe(s, c) => if PcOf(st, step.thread).Outside? then Unsubscribed(st, step.thread, s, c) else st
  }

  function Run(st: State, steps: seq<Step>): State {
    if steps == [] then st else Next(Run(st, steps[..|steps| - 1]), steps[|steps| - 1])
  }

  // ----- Disciplines -----

  /** The slot a call under way still owns. */
  predicate Owns(pc: Pc, s: nat, c: nat) {
    (pc.Installing? || pc.Starting? || pc.RollingBack?) && pc.s == s && pc.c == c
  }

  predicate Busy(pc: Pc, s: nat) { !pc.Outside? && pc.s == s }

  /** Per slot: no call on a slot while another thread's subscribe of the same slot is under
      way.  Per stream: no call on a stream while any other call on it is. */
  datatype Discipline = Anything | PerSlot | PerStream

  ghost predicate Allowed(d: Discipline, st: State, step: Step) {
    match step.action
    case Continue(_) => true
    case _ =>
      match d
      case Anything => true
      case PerSlot => forall t: nat :: !Owns(PcOf(st, t), step.action.s, step.action.c)
      case PerStream => forall t: nat :: !Busy(PcOf(st, t), step.action.s)
  }

  ghost predicate Disciplined(d: Discipline, steps: seq<Step>) {
    forall i :: 0 <= i < |steps| ==> Allowed(d, Run(Start, steps[..i]), steps[i])
  }

  lemma PrefixDisciplined(d: Discipline, steps: seq<Step>)
    requires steps != [] && Disciplined(d, steps)
    ensures Disciplined(d, steps[..|steps| - 1]) && Allowed(d, Run(Start, steps[..|steps| - 1]), steps[|steps| - 1])
  {
    var init := steps[..|steps| - 1];
    forall i | 0 <= i < |init| ensures Allowed(d, Run(Start, init[..i]), init[i]) {
      assert init[..i] == steps[..i] && init[i] == steps[i];
    }
  }

  lemma StreamsImplySlots(st: State, step: Step)
    requires Allowed(PerStream, st, step)
    ensures Allowed(PerSlot, st, step)
  {
    if !step.action.Continue? {
      forall t: nat ensures !Owns(PcOf(st, t), step.action.s, step.action.c) {
        assert !Busy(PcOf(st, t), step.action.s);
      }
    }
  }

  // ----- The reference count -----

  ghost predicate Agrees(st: State) { forall s: nat :: RefOf(st, s) == |Users(st, s)| }

  /** Slots that calls under way own are active, and no two threads own the same. */
  ghost predicate Owned(st: State) {
    && (forall sc :: sc in st.active ==> sc.0 < Streams && sc.1 < Consumers)
    && (forall t: nat, s: nat, c: nat {:trigger Owns(PcOf(st, t), s, c)} ::
          Owns(PcOf(st, t), s, c) ==> (s, c) in st.active)
    && (forall t: nat, t': nat, s: nat, c: nat {:trigger Owns(PcOf(st, t), s, c), Owns(PcOf(st, t'), s, c)} ::
          Owns(PcOf(st, t), s, c) && Owns(PcOf(st, t'), s, c) ==> t == t')
  }

  lemma UsersAdd(st: State, st': State, s: nat, c: nat)
    requires st'.active == st.active + {(s, c)} && (s, c) !in st.active && c < Consumers
    ensures |Users(st', s)| == |Users(st, s)| + 1 && forall x: nat :: x != s ==> Users(st', x) == Users(st, x)
  {
    assert Users(st', s) == Users(st, s) + {c};
    forall x: nat | x != s ensures Users(st', x) == Users(st, x) {}
  }

  lemma UsersRemove(st: State, st': State, s: nat, c: nat)
    requires st'.active == st.active - {(s, c)} && (s, c) in st.active && c < Consumers
    ensures |Users(st', s)| + 1 == |Users(st, s)| && forall x: nat :: x != s ==> Users(st', x) == Users(st, x)
  {
    assert Users(st, s) == Users(st', s) + {c};
    forall x: nat | x != s ensures Users(st', x) == Users(st, x) {}
  }

  lemma ReleasedAgrees(st: State, s: nat, c: nat)
    requires Agrees(st) && (s, c) in st.active && c < Consumers
    ensures Agrees(Released(st, s, c)) && RefOf(st, s) > 0
  {
    UsersRemove(st, Released(st, s, c), s, c);
  }

  /** The step is a roll-back of a slot that is free, on a stream with a count. */
  predicate Spoils(st: State, step: Step) {
    var pc := PcOf(st, step.thread);
    step.action.Continue? && pc.RollingBack? && (pc.s, pc.c) !in st.active && RefOf(st, pc.s) > 0
  }

  /** The one kind of step that makes a right count wrong, whatever the interleaving. */
  lemma CountKeptExactly(st: State, step: Step)
    requires Agrees(st) && forall sc :: sc in st.active ==> sc.0 < Streams && sc.1 < Consumers
    ensures Agrees(Next(st, step)) <==> !Spoils(st, step)
  {
    var t, pc := step.thread, PcOf(st, step.thread);
    if step.action.Continue? {
      if pc.RollingBack? {
        RollBackExact(st, t, step.action.ok);
      } else {
        SameUsers(st, Next(st, step));
      }
    } else if pc.Outside? {
      var s, c := step.action.s, step.action.c;
      if step.action.Subscribe? && s < Streams && c < Consumers && (s, c) !in st.active {
        UsersAdd(st, Next(st, step), s, c);
      } else if step.action.Unsubscribe? && (s, c) in st.active {
        ReleasedAgrees(st, s, c);
        SameUsers(Released(st, s, c), Next(st, step));
      }
    }
  }

  lemma RollBackExact(st: State, t: nat, ok: bool)
    requires Agrees(st) && PcOf(st, t).RollingBack? && forall sc :: sc in st.active ==> sc.1 < Consumers
    ensures var pc := PcOf(st, t);
      Agrees(Continued(st, t, ok)) <==> (pc.s, pc.c) in st.active || RefOf(st, pc.s) == 0
  {
    var pc, st' := PcOf(st, t), Continued(st, t, ok);
    if (pc.s, pc.c) in st.active {
      ReleasedAgrees(st, pc.s, pc.c);
      SameUsers(Released(st, pc.s, pc.c), st');
    } else {
      assert st'.active == st.active;
      assert forall x: nat :: Users(st', x) == Users(st, x);
      assert RefOf(st', pc.s) == if RefOf(st, pc.s) > 0 then RefOf(st, pc.s) - 1 else 0;
    }
  }

  lemma SameUsers(st: State, st': State)
    requires st.active == st'.active && st.ref == st'.ref && Agrees(st)
    ensures Agrees(st')
  {
    forall s: nat ensures RefOf(st', s) == |Users(st', s)| { assert Users(st', s) == Users(st, s); }
  }

  /** A slot that is owned after a step was owned by the same thread before, or it was free
      and this step subscribed it; and it is still active. */
  lemma OwnedSince(st: State, step: Step, t: nat, s: nat, c: nat)
    requires Owned(st) && Allowed(PerSlot, st, step) && Owns(PcOf(Next(st, step), t), s, c)
    ensures Owns(PcOf(st, t), s, c) || (t == step.thread && (s, c) !in st.active)
    ensures (s, c) in Next(st, step).active
  {
    var pc := PcOf(st, step.thread);
    if step.action.Continue? && pc.RollingBack? { assert Owns(pc, pc.s, pc.c); }
    if t != step.thread { assert PcOf(Next(st, step), t) == PcOf(st, t); }
    if !step.action.Continue? { assert !Owns(PcOf(st, t), step.action.s, step.action.c); }
    assert Owns(PcOf(st, t), s, c) ==> (s, c) in st.active;
    assert t != step.thread && Owns(PcOf(st, t), s, c) ==> !Owns(pc, s, c);
  }

  lemma NextOwned(st: State, step: Step)
    requires Owned(st) && Allowed(PerSlot, st, step)
    ensures Owned(Next(st, step))
  {
    var st' := Next(st, step);
    forall t: nat, s: nat, c: nat | Owns(PcOf(st', t), s, c) ensures (s, c) in st'.active {
      OwnedSince(st, step, t, s, c);
    }
    forall t: nat, t': nat, s: nat, c: nat | Owns(PcOf(st', t), s, c) && Owns(PcOf(st', t'), s, c) ensures t == t' {
      OwnedSince(st, step, t, s, c);
      OwnedSince(st, step, t', s, c);
    }
  }

  lemma OwnerNeverSpoils(st: State, step: Step)
    requires Owned(st)
    ensures !Spoils(st, step)
  {
    var pc := PcOf(st, step.thread);
    if pc.RollingBack? { assert Owns(pc, pc.s, pc.c); }
  }

  /** In every interleaving of calls in which no two threads drive the same slot at a time,
      the count of every stream is the number of its active slots whenever the mutex is
      free, also after failed starts. */
  lemma {:induction false} CountAgreesAlways(steps: seq<Step>)
    requires Disciplined(PerSlot, steps)
    ensures Agrees(Run(Start, steps)) && Owned(Run(Start, steps))
  {
    if steps != [] {
      var init := steps[..|steps| - 1];
      PrefixDisciplined(PerSlot, steps);
      CountAgreesAlways(init);
      OwnerNeverSpoils(Run(Start, init), steps[|steps| - 1]);
      CountKeptExactly(Run(Start, init), steps[|steps| - 1]);
      NextOwned(Run(Start, init), steps[|steps| - 1]);
    }
  }

  /** The count is right in every state of the run. */
  ghost predicate AgreesThroughout(steps: seq<Step>) {
    Agrees(Run(Start, steps)) && (steps != [] ==> AgreesThroughout(steps[..|steps| - 1]))
  }

  predicate NeverSpoils(steps: seq<Step>) {
    steps != [] ==>
      NeverSpoils(steps[..|steps| - 1]) && !Spoils(Run(Start, steps[..|steps| - 1]), steps[|steps| - 1])
  }

  lemma {:induction false} RunInRange(steps: seq<Step>)
    ensures forall sc :: sc in Run(Start, steps).active ==> sc.0 < Streams && sc.1 < Consumers
  {
    if steps != [] { RunInRange(steps[..|steps| - 1]); }
  }

  /** For all interleavings without any discipline: the count is right throughout if and
      only if no step rolls back a slot that is not active any more. */
  lemma {:induction false} CountAgreesExactly(steps: seq<Step>)
    ensures AgreesThroughout(steps) <==> NeverSpoils(steps)
  {
    if steps == [] {
      assert forall s: nat :: Users(Start, s) == {} && RefOf(Start, s) == 0;
    } else {
      var init := steps[..|steps| - 1];
      CountAgreesExactly(init);
      RunInRange(init);
      if Agrees(Run(Start, init)) { CountKeptExactly(Run(Start, init), steps[|steps| - 1]); }
      assert AgreesThroughout(init) ==> Agrees(Run(Start, init));
    }
  }

  /** Without the discipline the count can go wrong: while thread 1 rolls back a failed
      start, thread 2 unsubscribes its slot and thread 3 subscribes another one. */
  lemma CountCanBreak()
    ensures var steps := [Step(1, Subscribe(0, 0)), Step(1, Continue(true)), Step(1, Continue(false)),
                          Step(2, Unsubscribe(0, 0)), Step(3, Subscribe(0, 1)), Step(1, Continue(true))];
      var st := Run(Start, steps);
      RefOf(st, 0) == 0 && Users(st, 0) == {1} && !Agrees(st)
  {
    var s0 := Start;
    var s1 := Next(s0, Step(1, Subscribe(0, 0)));
    var s2 := Next(s1, Step(1, Continue(true)));
    var s3 := Next(s2, Step(1, Continue(false)));
    var s4 := Next(s3, Step(2, Unsubscribe(0, 0)));
    var s5 := Next(s4, Step(3, Subscribe(0, 1)));
    var s6 := Next(s5, Step(1, Continue(true)));
    RunSix(Step(1, Subscribe(0, 0)), Step(1, Continue(true)), Step(1, Continue(false)),
           Step(2, Unsubscribe(0, 0)), Step(3, Subscribe(0, 1)), Step(1, Continue(true)));
    assert PcOf(s3, 1) == RollingBack(0, 0) && s3.active == {(0, 0)};
    assert PcOf(s5, 1) == RollingBack(0, 0) && s5.active == {(0, 1)} && RefOf(s5, 0) == 1;
    assert s6.active == {(0, 1)} && RefOf(s6, 0) == 0;
    assert Users(s6, 0) == {1};
  }

  lemma RunSix(a: Step, b: Step, c: Step, d: Step, e: Step, f: Step)
    ensures Run(Start, [a, b, c, d, e, f]) == Next(Next(Next(Next(Next(Next(Start, a), b), c), d), e), f)
  {
    RunOne([], a);
    RunOne([a], b);
    RunOne([a, b], c);
    RunOne([a, b, c], d);
    RunOne([a, b, c, d], e);
    RunOne([a, b, c, d, e], f);
    assert [] + [a] == [a] && [a] + [b] == [a, b] && [a, b] + [c] == [a, b, c];
    assert [a, b, c] + [d] == [a, b, c, d] && [a, b, c, d] + [e] == [a, b, c, d, e];
    assert [a, b, c, d, e] + [f] == [a, b, c, d, e, f];
  }

  lemma RunOne(steps: seq<Step>, step: Step)
    ensures Run(Start, steps + [step]) == Next(Run(Start, steps), step)
  {
    assert (steps + [step])[..|steps|] == steps;
  }

  // ----- The hardware -----

  /** What the driver's state must be, given where the calls on a stream are. */
  ghost predicate Fits(st: State, s: nat, pc: Pc) {
    match pc
    case Outside => (s in st.started <==> s in st.hooked) && (s in st.started <==> RefOf(st, s) > 0)
    case Installing(_, _) => s !in st.started && s !in st.hooked && RefOf(st, s) == 1
    case Starting(_, _) => s !in st.started && s in st.hooked && RefOf(st, s) == 1
    case RollingBack(_, _) => s !in st.started && s in st.hooked && RefOf(st, s) == 1
    case Stopping(_) => s in st.started && s in st.hooked && RefOf(st, s) == 0
    case Unhooking(_) => s !in st.started && s in st.hooked && RefOf(st, s) == 0
  }

  /** At most one call on each stream is under way, and the driver's state fits it. */
  ghost predicate HardwareFits(st: State) {
    && (forall t: nat, t': nat, s: nat {:trigger Busy(PcOf(st, t), s), Busy(PcOf(st, t'), s)} ::
          Busy(PcOf(st, t), s) && Busy(PcOf(st, t'), s) ==> t == t')
    && (forall t: nat, s: nat {:trigger Busy(PcOf(st, t), s)} :: Busy(PcOf(st, t), s) ==> Fits(st, s, PcOf(st, t)))
    && (forall s: nat {:trigger RefOf(st, s)} :: (forall t: nat :: !Busy(PcOf(st, t), s)) ==> Fits(st, s, Outside))
  }

  /** The stream that a step is about. */
  function StreamOf(st: State, step: Step): nat {
    if step.action.Continue? then (if PcOf(st, step.thread).Outside? then 0 else PcOf(st, step.thread).s)
    else step.action.s
  }

  /** The thread of the step is the only one that can be in a call on the step's stream. */
  ghost predicate Alone(st: State, t: nat, s: nat) { forall x: nat :: x != t ==> !Busy(PcOf(st, x), s) }

  /** A step changes nothing about other streams and other threads. */
  lemma StepIsLocal(st: State, step: Step, s: nat)
    requires s != StreamOf(st, step)
    ensures var st' := Next(st, step);
      && RefOf(st', s) == RefOf(st, s)
      && (s in st'.started <==> s in st.started) && (s in st'.hooked <==> s in st.hooked)
      && forall t: nat :: Busy(PcOf(st', t), s) == Busy(PcOf(st, t), s)
                          && (Busy(PcOf(st, t), s) ==> PcOf(st', t) == PcOf(st, t))
  {
  }

  lemma StepFits(st: State, step: Step)
    requires HardwareFits(st) && Allowed(PerStream, st, step)
    requires !(step.action.Continue? && PcOf(st, step.thread).Outside?)
    requires step.action.Continue? || PcOf(st, step.thread).Outside?
    ensures var s, st' := StreamOf(st, step), Next(st, step);
      && Alone(st', step.thread, s) && Fits(st', s, PcOf(st', step.thread))
      && (PcOf(st', step.thread).Outside? || PcOf(st', step.thread).s == s)
  {
    var s, t := StreamOf(st, step), step.thread;
    if step.action.Continue? {
      assert Busy(PcOf(st, t), s);
    } else {
      assert RefOf(st, s) == RefOf(st, s);
    }
    forall x: nat | x != t ensures !Busy(PcOf(Next(st, step), x), s) {
      assert PcOf(Next(st, step), x) == PcOf(st, x);
    }
  }

  lemma NextFits(st: State, step: Step)
    requires HardwareFits(st) && Allowed(PerStream, st, step)
    ensures HardwareFits(Next(st, step))
  {
    var st', t, s0 := Next(st, step), step.thread, StreamOf(st, step);
    if step.action.Continue? == PcOf(st, t).Outside? {
      assert st' == st;
    } else {
      StepFits(st, step);
      forall x: nat, y: nat, s: nat | Busy(PcOf(st', x), s) && Busy(PcOf(st', y), s) ensures x == y {
        if s != s0 { StepIsLocal(st, step, s); assert Busy(PcOf(st, x), s) && Busy(PcOf(st, y), s); }
      }
      forall x: nat, s: nat | Busy(PcOf(st', x), s) ensures Fits(st', s, PcOf(st', x)) {
        if s != s0 { StepIsLocal(st, step, s); assert Busy(PcOf(st, x), s); }
      }
      forall s: nat | forall x: nat :: !Busy(PcOf(st', x), s) ensures Fits(st', s, Outside) {
        if s != s0 {
          StepIsLocal(st, step, s);
          assert RefOf(st, s) == RefOf(st', s);
        } else {
          assert !Busy(PcOf(st', t), s);
        }
      }
    }
  }

  /** In every interleaving in which calls on the same stream do not overlap: whenever no
      call on a stream is under way, it is started and has the dispatcher exactly when some
      slot is active; and a stream never runs without the dispatcher. */
  lemma {:induction false} HardwareFollows(steps: seq<Step>)
    requires Disciplined(PerStream, steps)
    ensures HardwareFits(Run(Start, steps)) && Disciplined(PerSlot, steps)
  {
    forall i | 0 <= i < |steps| ensures Allowed(PerSlot, Run(Start, steps[..i]), steps[i]) {
      StreamsImplySlots(Run(Start, steps[..i]), steps[i]);
    }
    if steps == [] {
      assert Run(Start, steps) == Start && forall s: nat :: Fits(Start, s, Outside);
    } else {
      var init := steps[..|steps| - 1];
      PrefixDisciplined(PerStream, steps);
      HardwareFollows(init);
      NextFits(Run(Start, init), steps[|steps| - 1]);
    }
  }

  lemma NeverBlind(steps: seq<Step>, s: nat)
    requires Disciplined(PerStream, steps)
    ensures var st := Run(Start, steps);
      && (s in st.started ==> s in st.hooked)
      && ((forall t: nat :: !Busy(PcOf(st, t), s)) ==>
            (s in st.started <==> s in st.hooked) && (s in st.started <==> Users(st, s) != {}))
  {
    var st := Run(Start, steps);
    HardwareFollows(steps);
    CountAgreesAlways(steps);
    assert RefOf(st, s) == |Users(st, s)|;
    if t: nat :| Busy(PcOf(st, t), s) {
      assert Fits(st, s, PcOf(st, t));
    }
  }

  /** The discipline per slot is not enough for the hardware: a stop that is still under way
      overtakes the start for a new subscriber. */
  lemma HardwareCanDiverge()
    ensures var steps := [Step(1, Subscribe(0, 0)), Step(1, Continue(true)), Step(1, Continue(true)),
                          Step(1, Unsubscribe(0, 0)), Step(2, Subscribe(0, 1)), Step(2, Continue(true))]
                         + [Step(2, Continue(true)), Step(1, Continue(true)), Step(1, Continue(true))];
      var st := Run(Start, steps);
      && Disciplined(PerSlot, steps)
      && Users(st, 0) == {1} && 0 !in st.started && 0 !in st.hooked
      && forall t: nat :: PcOf(st, t) == Outside
  {
    var six := [Step(1, Subscribe(0, 0)), Step(1, Continue(true)), Step(1, Continue(true)),
                Step(1, Unsubscribe(0, 0)), Step(2, Subscribe(0, 1)), Step(2, Continue(true))];
    StopAndStart();
    var go2, go1 := Step(2, Continue(true)), Step(1, Continue(true));
    RunOne(six, go2);
    RunOne(six + [go2], go1);
    RunOne(six + [go2] + [go1], go1);
    assert six + [go2, go1, go1] == six + [go2] + [go1] + [go1];
    StopOvertakesStart(Run(Start, six));
    ThisIsPerSlot(six + [go2, go1, go1]);
  }

  lemma StopAndStart()
    ensures Run(Start, [Step(1, Subscribe(0, 0)), Step(1, Continue(true)), Step(1, Continue(true)),
                        Step(1, Unsubscribe(0, 0)), Step(2, Subscribe(0, 1)), Step(2, Continue(true))])
      == State({(0, 1)}, map[0 := 1], {0}, {0}, map[1 := Stopping(0), 2 := Starting(0, 1)])
  {
    RunSix(Step(1, Subscribe(0, 0)), Step(1, Continue(true)), Step(1, Continue(true)),
           Step(1, Unsubscribe(0, 0)), Step(2, Subscribe(0, 1)), Step(2, Continue(true)));
    var s3 := State({(0, 0)}, map[0 := 1], {0}, {0}, map[1 := Outside]);
    assert Next(Next(Next(Start, Step(1, Subscribe(0, 0))), Step(1, Continue(true))), Step(1, Continue(true))) == s3;
    var s5 := Next(Next(s3, Step(1, Unsubscribe(0, 0))), Step(2, Subscribe(0, 1)));
    assert s5 == State({(0, 1)}, map[0 := 1], {0}, {0}, map[1 := Stopping(0), 2 := Installing(0, 1)]);
  }

  lemma StopOvertakesStart(s6: State)
    requires s6 == State({(0, 1)}, map[0 := 1], {0}, {0}, map[1 := Stopping(0), 2 := Starting(0, 1)])
    ensures var s9 := Next(Next(Next(s6, Step(2, Continue(true))), Step(1, Continue(true))), Step(1, Continue(true)));
      Users(s9, 0) == {1} && 0 !in s9.started && 0 !in s9.hooked && forall t: nat :: PcOf(s9, t) == Outside
  {
    var s9 := Next(Next(Next(s6, Step(2, Continue(true))), Step(1, Continue(true))), Step(1, Continue(true)));
    assert s9 == State({(0, 1)}, map[0 := 1], {}, {}, map[1 := Outside, 2 := Outside]);
    assert Users(s9, 0) == {1};
  }

  lemma ThisIsPerSlot(steps: seq<Step>)
    requires |steps| >= 5 && forall i :: 0 <= i < |steps| && i !in {0, 3, 4} ==> steps[i].action.Continue?
    requires steps[..5] == [Step(1, Subscribe(0, 0)), Step(1, Continue(true)), Step(1, Continue(true)),
                            Step(1, Unsubscribe(0, 0)), Step(2, Subscribe(0, 1))]
    ensures Disciplined(PerSlot, steps)
  {
    var a, b, d := Step(1, Subscribe(0, 0)), Step(1, Continue(true)), Step(1, Unsubscribe(0, 0));
    RunOne([], a);
    RunOne([a], b);
    RunOne([a, b], b);
    RunOne([a, b, b], d);
    assert [] + [a] == [a] && [a] + [b] == [a, b] && [a, b] + [b] == [a, b, b] && [a, b, b] + [d] == [a, b, b, d];
    forall i | 0 <= i < |steps| ensures Allowed(PerSlot, Run(Start, steps[..i]), steps[i]) {
      if i in {0, 3, 4} {
        assert steps[i] == steps[..5][i] && steps[..i] == steps[..5][..i];
        assert steps[..5][..0] == [] && steps[..5][..3] == [a, b, b] && steps[..5][..4] == [a, b, b, d];
      }
    }
  }

  // ----- Exactly when the hardware goes wrong -----

  /** The step starts a call that changes a slot of a stream with another call under way. */
  ghost predicate Clashes(st: State, step: Step) {
    && !step.action.Continue? && PcOf(st, step.thread).Outside? && Next(st, step) != st
    && exists t: nat :: Busy(PcOf(st, t), step.action.s)
  }

  /** Where slots are driven by one thread at a time, a step makes the driver's state unfit
      if and only if it starts a call on a stream while another call on it is under way. */
  lemma HardwareKeptExactly(st: State, step: Step)
    requires HardwareFits(st) && Agrees(st) && Owned(st) && Allowed(PerSlot, st, step)
    ensures HardwareFits(Next(st, step)) <==> !Clashes(st, step)
  {
    if Clashes(st, step) {
      var t: nat :| Busy(PcOf(st, t), step.action.s);
      ClashSpoils(st, step, t);
    } else if Next(st, step) != st {
      assert Allowed(PerStream, st, step);
      NextFits(st, step);
    }
  }

  lemma ClashSpoils(st: State, step: Step, t: nat)
    requires HardwareFits(st) && Agrees(st) && Owned(st) && Allowed(PerSlot, st, step)
    requires Clashes(st, step) && Busy(PcOf(st, t), step.action.s)
    ensures !HardwareFits(Next(st, step))
  {
    var s, c, pc, st' := step.action.s, step.action.c, PcOf(st, t), Next(st, step);
    assert Fits(st, s, pc) && PcOf(st', t) == pc && Busy(PcOf(st', t), s);
    if step.action.Subscribe? {
      if RefOf(st, s) == 0 {
        assert Busy(PcOf(st', step.thread), s);
      } else {
        assert !Fits(st', s, pc);
      }
    } else {
      // The one active slot is owned by the call under way.
      assert !Owns(pc, s, c) && RefOf(st, s) == |Users(st, s)| && c in Users(st, s);
      assert Owns(pc, s, pc.c) && pc.c in Users(st, s) && {c, pc.c} <= Users(st, s);
      TwoUsers(Users(st, s), c, pc.c);
    }
  }

  lemma TwoUsers(us: set<nat>, a: nat, b: nat)
    requires a in us && b in us && a != b
    ensures |us| >= 2
  {
    assert us == {a, b} + (us - {a, b});
  }

  ghost predicate FitsThroughout(steps: seq<Step>) {
    HardwareFits(Run(Start, steps)) && (steps != [] ==> FitsThroughout(steps[..|steps| - 1]))
  }

  ghost predicate NeverClashes(steps: seq<Step>) {
    steps != [] ==>
      NeverClashes(steps[..|steps| - 1]) && !Clashes(Run(Start, steps[..|steps| - 1]), steps[|steps| - 1])
  }

  /** For all interleavings in which slots are driven by one thread at a time: the driver's
      state fits throughout if and only if no two calls on a stream overlap. */
  lemma {:induction false} HardwareFollowsExactly(steps: seq<Step>)
    requires Disciplined(PerSlot, steps)
    ensures FitsThroughout(steps) <==> NeverClashes(steps)
  {
    if steps == [] {
      assert Run(Start, steps) == Start && forall s: nat :: Fits(Start, s, Outside);
    } else {
      var init := steps[..|steps| - 1];
      PrefixDisciplined(PerSlot, steps);
      HardwareFollowsExactly(init);
      CountAgreesAlways(init);
      if FitsThroughout(init) { HardwareKeptExactly(Run(Start, init), steps[|steps| - 1]); }
    }
  }

  /** The other way it can go wrong: a second subscriber gets OK while the start for the
      first one is under way, and that start fails. */
  lemma FailedStartStrands()
    ensures var steps := [Step(1, Subscribe(0, 0)), Step(1, Continue(true)), Step(2, Subscribe(0, 1)),
                          Step(1, Continue(false)), Step(1, Continue(true)), Step(1, Continue(true))];
      var st := Run(Start, steps);
      && Disciplined(PerSlot, steps)
      && Users(st, 0) == {1} && RefOf(st, 0) == 1 && 0 !in st.started && 0 !in st.hooked
      && forall t: nat :: PcOf(st, t) == Outside
  {
    var a, b := Step(1, Subscribe(0, 0)), Step(1, Continue(true));
    var c, d := Step(2, Subscribe(0, 1)), Step(1, Continue(false));
    RunSix(a, b, c, d, b, b);
    SecondSubscriber();
    FailedStart(Next(Next(Next(Start, a), b), c));
    RunOne([], a);
    RunOne([a], b);
    var steps := [a, b, c, d, b, b];
    assert steps[..0] == [] && steps[..2] == [a, b] && [] + [a] == [a] && [a] + [b] == [a, b];
    forall i | 0 <= i < |steps| ensures Allowed(PerSlot, Run(Start, steps[..i]), steps[i]) {
      if i == 2 { assert PcOf(Run(Start, [a, b]), 1) == Starting(0, 0); }
    }
  }

  lemma SecondSubscriber()
    ensures Next(Next(Next(Start, Step(1, Subscribe(0, 0))), Step(1, Continue(true))), Step(2, Subscribe(0, 1)))
      == State({(0, 0), (0, 1)}, map[0 := 2], {}, {0}, map[1 := Starting(0, 0), 2 := Outside])
  {
    var s2 := Next(Next(Start, Step(1, Subscribe(0, 0))), Step(1, Continue(true)));
    assert s2 == State({(0, 0)}, map[0 := 1], {}, {0}, map[1 := Starting(0, 0)]);
  }

  lemma FailedStart(s3: State)
    requires s3 == State({(0, 0), (0, 1)}, map[0 := 2], {}, {0}, map[1 := Starting(0, 0), 2 := Outside])
    ensures var s6 := Next(Next(Next(s3, Step(1, Continue(false))), Step(1, Continue(true))), Step(1, Continue(true)));
      && Users(s6, 0) == {1} && RefOf(s6, 0) == 1 && 0 !in s6.started && 0 !in s6.hooked
      && forall t: nat :: PcOf(s6, t) == Outside
  {
    var s6 := Next(Next(Next(s3, Step(1, Continue(false))), Step(1, Continue(true))), Step(1, Continue(true)));
    assert s6 == State({(0, 1)}, map[0 := 1], {}, {}, map[1 := Outside, 2 := Outside]);
    assert Users(s6, 0) == {1};
  }
}
