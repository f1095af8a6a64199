/**
  When the hardware follows the subscriptions: with no call on a stream under way, it is
  started and has the dispatcher exactly when some slot of it is active.  This module says
  exactly which interleavings keep that promise.
 */
module CameraPromise {
  import opened Camera
  import opened CameraProtocol

  ghost predicate Quiet(st: State, s: nat) { forall t: nat :: !Busy(PcOf(st, t), s) }

  ghost predicate Right(st: State, s: nat) {
    (s in st.started <==> s in st.hooked) && (s in st.started <==> Users(st, s) != {})
  }

  ghost predicate Continues(steps: seq<Step>) { forall i :: 0 <= i < |steps| ==> steps[i].action.Continue? }

  /** However the calls under way go on, without new calls: whenever none on a stream is left,
      the hardware of the stream follows its subscriptions. */
  ghost predicate Promise(st: State) {
    forall rest: seq<Step>, s: nat {:trigger Quiet(Run(st, rest), s)} ::
      Continues(rest) && Quiet(Run(st, rest), s) ==> Right(Run(st, rest), s)
  }

  lemma {:induction false} RunFirst(st: State, first: Step, rest: seq<Step>)
    ensures Run(st, [first] + rest) == Run(Next(st, first), rest)
  {
    var all := [first] + rest;
    if rest == [] {
      assert all[..0] == [] && all == [first];
    } else {
      assert all[..|all| - 1] == [first] + rest[..|rest| - 1];
      RunFirst(st, first, rest[..|rest| - 1]);
    }
  }

  // ----- A state that fits keeps the promise -----

  ghost predicate Sound(st: State) { HardwareFits(st) && Agrees(st) && Owned(st) }

  lemma {:induction false} ContinuesSound(st: State, rest: seq<Step>)
    requires Sound(st) && Continues(rest)
    ensures Sound(Run(st, rest))
  {
    if rest != [] {
      var init, last := rest[..|rest| - 1], rest[|rest| - 1];
      ContinuesSound(st, init);
      var now := Run(st, init);
      NextFits(now, last);
      OwnerNeverSpoils(now, last);
      CountKeptExactly(now, last);
      NextOwned(now, last);
    }
  }

  lemma SoundPromises(st: State)
    requires Sound(st)
    ensures Promise(st)
  {
    forall rest: seq<Step>, s: nat | Continues(rest) && Quiet(Run(st, rest), s) ensures Right(Run(st, rest), s) {
      ContinuesSound(st, rest);
      assert RefOf(Run(st, rest), s) == |Users(Run(st, rest), s)|;
    }
  }

  // ----- An overlap can break it -----

  function Go(t: nat, ok: bool): Step { Step(t, Continue(ok)) }

  /** The subscription of `c` counts on the call of `t`, which has not started the stream yet;
      no other call on the stream is under way. */
  ghost predicate Counts(st: State, t: nat, s: nat, c: nat) {
    var pc := PcOf(st, t);
    && (pc.Installing? || pc.Starting? || pc.RollingBack?) && pc.s == s && pc.c != c
    && (s, c) in st.active && c < Consumers && s !in st.started && Alone(st, t, s)
  }

  /** The start fails, and the subscription of `c` is left without the stream. */
  lemma {:induction false} FailureStrands(st: State, t: nat, s: nat, c: nat) returns (rest: seq<Step>)
    requires Counts(st, t, s, c)
    ensures Continues(rest) && Quiet(Run(st, rest), s) && !Right(Run(st, rest), s)
    decreases match PcOf(st, t) case Installing(_, _) => 2 case Starting(_, _) => 1 case _ => 0
  {
    var step := Go(t, false);
    var st' := Next(st, step);
    if PcOf(st, t).RollingBack? {
      rest := RolledBack(st, t, s, c);
    } else {
      assert forall x: nat :: x != t ==> PcOf(st', x) == PcOf(st, x);
      rest := FailureStrands(st', t, s, c);
      RunFirst(st, step, rest);
      rest := [step] + rest;
    }
  }

  lemma RolledBack(st: State, t: nat, s: nat, c: nat) returns (rest: seq<Step>)
    requires Counts(st, t, s, c) && PcOf(st, t).RollingBack?
    ensures Continues(rest) && Quiet(Run(st, rest), s) && !Right(Run(st, rest), s)
  {
    var step := Go(t, true);
    rest := [step, step];
    RunFirst(st, step, [step]);
    RunFirst(Next(st, step), step, []);
    assert [step] + [] == [step] && [step] + [step] == rest;
    var end := Next(Next(st, step), step);
    assert forall x: nat :: x != t ==> PcOf(end, x) == PcOf(st, x);
    assert c in Users(end, s);
  }

  /** The last call on the stream is not through when `u` has subscribed `c` as the first. */
  ghost predicate Overtakes(st: State, t: nat, u: nat, s: nat, c: nat) {
    && (PcOf(st, t) == Stopping(s) || PcOf(st, t) == Unhooking(s)) && PcOf(st, u) == Installing(s, c)
    && (s, c) in st.active && c < Consumers && forall x: nat :: x != t && x != u ==> !Busy(PcOf(st, x), s)
  }

  /** The new call installs and starts, then the old one stops and removes the dispatcher. */
  lemma StopWins(st: State, t: nat, u: nat, s: nat, c: nat) returns (rest: seq<Step>)
    requires Overtakes(st, t, u, s, c)
    ensures Continues(rest) && Quiet(Run(st, rest), s) && !Right(Run(st, rest), s)
  {
    var go, old' := Go(u, true), Go(t, true);
    var st2 := Next(Next(st, go), go);
    assert forall x: nat :: x != u ==> PcOf(st2, x) == PcOf(st, x);
    assert PcOf(st2, u) == Outside && s in st2.started && s in st2.hooked && (s, c) in st2.active;
    rest := StopRuns(st2, t, s, c);
    RunFirst(Next(st, go), go, rest);
    RunFirst(st, go, [go] + rest);
    rest := [go] + ([go] + rest);
  }

  lemma {:induction false} StopRuns(st: State, t: nat, s: nat, c: nat) returns (rest: seq<Step>)
    requires PcOf(st, t) == Stopping(s) || PcOf(st, t) == Unhooking(s)
    requires (s, c) in st.active && c < Consumers && Alone(st, t, s)
    ensures Continues(rest) && Quiet(Run(st, rest), s) && !Right(Run(st, rest), s)
    decreases if PcOf(st, t).Stopping? then 1 else 0
  {
    var step := Go(t, true);
    var st' := Next(st, step);
    assert forall x: nat :: x != t ==> PcOf(st', x) == PcOf(st, x);
    if PcOf(st, t).Stopping? {
      rest := StopRuns(st', t, s, c);
    } else {
      rest := [];
      assert c in Users(st', s);
    }
    RunFirst(st, step, rest);
    rest := [step] + rest;
  }

  /** A call that clashes subscribes: the one active slot of a busy stream is not free to be
      unsubscribed. */
  lemma ClashSubscribes(st: State, step: Step, t: nat)
    requires Sound(st) && Allowed(PerSlot, st, step) && Clashes(st, step) && Busy(PcOf(st, t), step.action.s)
    ensures step.action.Subscribe?
  {
    if step.action.Unsubscribe? {
      var s, c, pc := step.action.s, step.action.c, PcOf(st, t);
      assert Fits(st, s, pc) && !Owns(pc, s, c) && RefOf(st, s) == |Users(st, s)| && c in Users(st, s);
      assert Owns(pc, s, pc.c) && pc.c in Users(st, s);
      TwoUsers(Users(st, s), c, pc.c);
    }
  }

  lemma ClashBreaks(st: State, step: Step)
    requires Sound(st) && Allowed(PerSlot, st, step) && Clashes(st, step)
    ensures !Promise(Next(st, step))
  {
    var t: nat :| Busy(PcOf(st, t), step.action.s);
    ClashSubscribes(st, step, t);
    var s, c, u, st' := step.action.s, step.action.c, step.thread, Next(st, step);
    var pc := PcOf(st, t);
    assert Fits(st, s, pc) && forall x: nat :: x != u ==> PcOf(st', x) == PcOf(st, x);
    forall x: nat | x != t ensures !Busy(PcOf(st, x), s) { assert Busy(PcOf(st, t), s); }
    var rest;
    if RefOf(st, s) == 0 {
      rest := StopWins(st', t, u, s, c);
    } else {
      assert !Owns(pc, s, c);
      rest := FailureStrands(st', t, s, c);
    }
    assert Quiet(Run(st', rest), s);
  }

  // ----- Exactly -----

  /** Where slots are driven by one thread at a time, a step gives the promise up if and only if
      it starts a call on a stream while another call on it is under way. */
  lemma PromiseKeptExactly(st: State, step: Step)
    requires HardwareFits(st) && Agrees(st) && Owned(st) && Allowed(PerSlot, st, step)
    ensures Promise(Next(st, step)) <==> !Clashes(st, step)
  {
    if Clashes(st, step) {
      ClashBreaks(st, step);
    } else {
      HardwareKeptExactly(st, step);
      OwnerNeverSpoils(st, step);
      CountKeptExactly(st, step);
      NextOwned(st, step);
      SoundPromises(Next(st, step));
    }
  }

  /** The promise is kept at every point of the run. */
  ghost predicate PromisedThroughout(steps: seq<Step>) {
    Promise(Run(Start, steps)) && (steps != [] ==> PromisedThroughout(steps[..|steps| - 1]))
  }

  /** For all interleavings in which slots are driven by one thread at a time: with no call on
      a stream under way its hardware follows its subscriptions, at every point of the run and
      however the calls go on, if and only if no two calls on a stream overlap. */
  lemma {:induction false} PromisedExactly(steps: seq<Step>)
    requires Disciplined(PerSlot, steps)
    ensures PromisedThroughout(steps) <==> NeverClashes(steps)
  {
    HardwareFollowsExactly(steps);
    CountAgreesAlways(steps);
    if steps == [] {
      SoundPromises(Run(Start, steps));
    } else {
      var init := steps[..|steps| - 1];
      PrefixDisciplined(PerSlot, steps);
      PromisedExactly(init);
      HardwareFollowsExactly(init);
      CountAgreesAlways(init);
      if NeverClashes(init) { PromiseKeptExactly(Run(Start, init), steps[|steps| - 1]); }
    }
  }
}
