/**
  Frames under concurrency: threads of the driver that dispatch frames while other threads
  subscribe and unsubscribe.  The snapshot under the mutex is one step, and so is each
  callback after it.
 */
module CameraFrames {
  import opened Camera
  import opened CameraProtocol

  /** What the snapshot has of an active slot: the consumer's number, and its callback and
      context as they are at that time. */
  type Target = (nat, Client)

  /** A dispatch under way: its stream, the clients in the snapshot and how many of them have
      been called; the snapshot was event number `at` and came after `from` calls. */
  datatype Delivery = Delivery(s: nat, clients: seq<Target>, made: nat, at: nat, from: nat)

  datatype Call = Call(thread: nat, s: nat, target: Target)

  /** `slots` has the clients that were put into the slots last. */
  datatype Scene = Scene(st: State, slots: map<(nat, nat), Client>, frames: map<nat, Delivery>, calls: seq<Call>)

  /** `client` is what a subscription brings along. */
  datatype Event = Table(step: Step, client: Client) | Snapshot(thread: nat, s: nat) | Deliver(thread: nat)

  const Opening := Scene(CameraProtocol.Start, map[], map[], [])

  function ClientOf(x: Scene, s: nat, c: nat): Client { if (s, c) in x.slots then x.slots[(s, c)] else Client(0, 0) }

  /** The consumers below `n` with an active slot, in order: the copy loop of
      __dispatch_frame(). */
  function ActiveList(x: Scene, s: nat, n: nat): seq<Target> {
    if n == 0 then []
    else ActiveList(x, s, n - 1) + if (s, n - 1) in x.st.active then [(n - 1, ClientOf(x, s, n - 1))] else []
  }

  /** The clients in the slots after a step: a subscription that is accepted sets one. */
  function SlotsAfter(x: Scene, step: Step, client: Client): map<(nat, nat), Client> {
    if step.action.Subscribe? && (step.action.s, step.action.c) !in x.st.active
       && (step.action.s, step.action.c) in Next(x.st, step).active
    then x.slots[(step.action.s, step.action.c) := client] else x.slots
  }

  /** `now` is the number of the event.  Frames of no stream are ignored. */
  function After(x: Scene, e: Event, now: nat): Scene {
    match e
    case Table(step, client) => x.(st := Next(x.st, step), slots := SlotsAfter(x, step, client))
    case Snapshot(t, s) =>
      if t in x.frames || s >= Streams then x
      else x.(frames := x.frames[t := Delivery(s, ActiveList(x, s, Consumers), 0, now, |x.calls|)])
    case Deliver(t) =>
      if t !in x.frames then x
      else
        var d := x.frames[t];
        if d.made < |d.clients| then
          x.(frames := x.frames[t := d.(made := d.made + 1)], calls := x.calls + [Call(t, d.s, d.clients[d.made])])
        else x.(frames := x.frames - {t})
  }

  function Play(es: seq<Event>): Scene {
    if es == [] then Opening else After(Play(es[..|es| - 1]), es[|es| - 1], |es| - 1)
  }

  /** The clients that thread `t` called, in order. */
  function CallsBy(t: nat, calls: seq<Call>): seq<Target> {
    if calls == [] then []
    else CallsBy(t, calls[..|calls| - 1]) + if calls[|calls| - 1].thread == t then [calls[|calls| - 1].target] else []
  }

  lemma CallsByNext(t: nat, calls: seq<Call>, x: Call)
    ensures CallsBy(t, calls + [x]) == CallsBy(t, calls) + if x.thread == t then [x.target] else []
  {
    assert (calls + [x])[..|calls|] == calls;
  }

  // ----- Who is called -----

  /** A dispatch under way has called a prefix of the clients that were active when it took its
      snapshot, in order and each once. */
  ghost predicate Faithful(es: seq<Event>, calls: seq<Call>, t: nat, d: Delivery) {
    && d.at < |es| && d.made <= |d.clients| && d.from <= |calls|
    && d.clients == ActiveList(Play(es[..d.at]), d.s, Consumers)
    && CallsBy(t, calls[d.from..]) == d.clients[..d.made]
  }

  ghost predicate AllFaithful(es: seq<Event>, x: Scene) {
    forall t: nat {:trigger t in x.frames} :: t in x.frames ==> Faithful(es, x.calls, t, x.frames[t])
  }

  lemma StillFaithful(es: seq<Event>, e: Event, calls: seq<Call>, t: nat, d: Delivery)
    requires Faithful(es, calls, t, d)
    ensures Faithful(es + [e], calls, t, d)
    ensures forall x: Call :: x.thread != t ==> Faithful(es + [e], calls + [x], t, d)
  {
    assert (es + [e])[..d.at] == es[..d.at];
    forall x: Call | x.thread != t ensures Faithful(es + [e], calls + [x], t, d) {
      assert (calls + [x])[d.from..] == calls[d.from..] + [x];
      CallsByNext(t, calls[d.from..], x);
    }
  }

  lemma DeliverFaithful(es: seq<Event>, e: Event, calls: seq<Call>, t: nat, d: Delivery)
    requires Faithful(es, calls, t, d) && d.made < |d.clients|
    ensures Faithful(es + [e], calls + [Call(t, d.s, d.clients[d.made])], t, d.(made := d.made + 1))
  {
    var x := Call(t, d.s, d.clients[d.made]);
    assert (es + [e])[..d.at] == es[..d.at];
    assert (calls + [x])[d.from..] == calls[d.from..] + [x];
    CallsByNext(t, calls[d.from..], x);
    assert d.clients[..d.made + 1] == d.clients[..d.made] + [d.clients[d.made]];
  }

  lemma AfterFaithful(es: seq<Event>, e: Event)
    requires AllFaithful(es, Play(es))
    ensures AllFaithful(es + [e], After(Play(es), e, |es|))
  {
    var x' := After(Play(es), e, |es|);
    forall t: nat | t in x'.frames ensures Faithful(es + [e], x'.calls, t, x'.frames[t]) {
      ThreadFaithful(es, e, t);
    }
  }

  lemma {:induction false} ThreadFaithful(es: seq<Event>, e: Event, t: nat)
    requires AllFaithful(es, Play(es)) && t in After(Play(es), e, |es|).frames
    ensures var x' := After(Play(es), e, |es|); Faithful(es + [e], x'.calls, t, x'.frames[t])
  {
    var x := Play(es);
    if t !in x.frames {
      assert (es + [e])[..|es|] == es && x.calls[|x.calls|..] == [];
    } else {
      var d := x.frames[t];
      StillFaithful(es, e, x.calls, t, d);
      if e.Deliver? && e.thread == t { DeliverFaithful(es, e, x.calls, t, d); }
    }
  }

  lemma {:induction false} AlwaysFaithful(es: seq<Event>)
    ensures AllFaithful(es, Play(es))
  {
    if es != [] {
      var init := es[..|es| - 1];
      AlwaysFaithful(init);
      AfterFaithful(init, es[|es| - 1]);
      assert init + [es[|es| - 1]] == es;
    }
  }

  /** In every interleaving a dispatch calls exactly the clients that were in active slots at
      its snapshot, once each and in order, whatever happens to the table meanwhile: so far a
      prefix of them, and all of them before it returns. */
  lemma {:induction false} DispatchExact(es: seq<Event>, t: nat)
    requires t in Play(es).frames
    ensures Faithful(es, Play(es).calls, t, Play(es).frames[t])
    ensures t !in After(Play(es), Deliver(t), |es|).frames ==>
      CallsBy(t, Play(es).calls[Play(es).frames[t].from..]) == Play(es).frames[t].clients
  {
    AlwaysFaithful(es);
    var d := Play(es).frames[t];
    assert d.clients[..|d.clients|] == d.clients;
  }

  lemma {:induction false} ActiveListIs(x: Scene, s: nat, n: nat)
    ensures forall v :: v in ActiveList(x, s, n) <==> v.0 < n && (s, v.0) in x.st.active && v.1 == ClientOf(x, s, v.0)
    ensures forall i, j :: 0 <= i < j < |ActiveList(x, s, n)| ==> ActiveList(x, s, n)[i].0 < ActiveList(x, s, n)[j].0
  {
    if n > 0 {
      ActiveListIs(x, s, n - 1);
      var prev := ActiveList(x, s, n - 1);
      assert forall i :: 0 <= i < |prev| ==> prev[i] in prev;
    }
  }

  // ----- Callbacks after unsubscribing -----

  /** The slot is active and has this client. */
  predicate Current(x: Scene, s: nat, v: Target) { (s, v.0) in x.st.active && ClientOf(x, s, v.0) == v.1 }

  /** Event number `j` releases the slot. */
  ghost predicate Releases(es: seq<Event>, j: nat, s: nat, c: nat)
    requires j < |es|
  {
    (s, c) in Play(es[..j]).st.active && (s, c) !in Play(es[..j + 1]).st.active
  }

  /** From event number `j` on, the slot has not had this client. */
  ghost predicate GoneSince(es: seq<Event>, j: nat, s: nat, v: Target) {
    forall i: nat {:trigger Play(es[..i])} :: j < i <= |es| ==> !Current(Play(es[..i]), s, v)
  }

  /** A client is lost only by a release. */
  lemma {:induction false} LostByRelease(x: Scene, e: Event, now: nat, s: nat, v: Target)
    requires Current(x, s, v) && !Current(After(x, e, now), s, v)
    ensures (s, v.0) !in After(x, e, now).st.active
  {
  }

  lemma {:induction false} LostBetween(es: seq<Event>, i: nat, s: nat, v: Target) returns (j: nat)
    requires i <= |es| && Current(Play(es[..i]), s, v) && !Current(Play(es), s, v)
    ensures i <= j < |es| && Releases(es, j, s, v.0) && GoneSince(es, j, s, v)
  {
    assert es[..|es|] == es;
    var init := es[..|es| - 1];
    if Current(Play(init), s, v) {
      LostByRelease(Play(init), es[|es| - 1], |es| - 1, s, v);
      j := |es| - 1;
    } else {
      assert init[..i] == es[..i];
      j := LostBetween(init, i, s, v);
      assert init[..j] == es[..j] && init[..j + 1] == es[..j + 1];
      forall m: nat | j < m <= |es| ensures !Current(Play(es[..m]), s, v) {
        if m < |es| { assert init[..m] == es[..m]; }
      }
    }
  }

  /** The next call of a dispatch goes to a client that is not in the slot any more if and only
      if the slot was released after the snapshot and has not been given to that client again. */
  lemma {:induction false} LateExactly(es: seq<Event>, t: nat)
    requires t in Play(es).frames && Play(es).frames[t].made < |Play(es).frames[t].clients|
    ensures var d := Play(es).frames[t];
      var v := d.clients[d.made];
      !Current(Play(es), d.s, v) <==>
        exists j: nat :: d.at <= j < |es| && Releases(es, j, d.s, v.0) && GoneSince(es, j, d.s, v)
  {
    DispatchExact(es, t);
    var d := Play(es).frames[t];
    var v := d.clients[d.made];
    assert v in d.clients;
    ActiveListIs(Play(es[..d.at]), d.s, Consumers);
    assert es[..|es|] == es;
    if !Current(Play(es), d.s, v) {
      var j := LostBetween(es, d.at, d.s, v);
    }
  }

  function Go(): Event { Table(Step(1, Continue(true)), Client(0, 0)) }

  function On(client: Client): Event { Table(Step(1, Subscribe(0, 0)), client) }

  function Off(): Event { Table(Step(1, Unsubscribe(0, 0)), Client(0, 0)) }

  const Running := State({(0, 0)}, map[0 := 1], {0}, {0}, map[1 := Outside])

  lemma FirstStart(a: Client)
    ensures Next(Next(Next(CameraProtocol.Start, On(a).step), Go().step), Go().step) == Running
  {
    var s1 := Next(CameraProtocol.Start, On(a).step);
    assert s1 == State({(0, 0)}, map[0 := 1], {}, {}, map[1 := Installing(0, 0)]);
    assert Next(s1, Go().step) == State({(0, 0)}, map[0 := 1], {}, {0}, map[1 := Starting(0, 0)]);
  }

  lemma RunningIs(a: Client)
    ensures Play([] + [On(a)] + [Go()] + [Go()]) == Scene(Running, map[(0, 0) := a], map[], [])
  {
    var on, go := [On(a)], [Go()];
    assert Play([]) == Opening;
    PlayOne([], On(a));
    PlayOne([] + on, Go());
    PlayOne([] + on + go, Go());
    FirstStart(a);
    var s1 := Next(CameraProtocol.Start, On(a).step);
    assert After(Opening, On(a), 0) == Scene(s1, map[(0, 0) := a], map[], []);
    GoOnly(s1, a, 1);
    GoOnly(Next(s1, Go().step), a, 2);
  }

  lemma GoOnly(st: State, a: Client, now: nat)
    ensures After(Scene(st, map[(0, 0) := a], map[], []), Go(), now)
            == Scene(Next(st, Go().step), map[(0, 0) := a], map[], [])
  {
  }

  lemma RunningList(a: Client)
    ensures ActiveList(Scene(Running, map[(0, 0) := a], map[], []), 0, Consumers) == [(0, a)]
  {
    var x := Scene(Running, map[(0, 0) := a], map[], []);
    assert ActiveList(x, 0, 1) == [(0, a)] && ActiveList(x, 0, 2) == [(0, a)] && ActiveList(x, 0, 3) == [(0, a)];
    assert ActiveList(x, 0, 4) == [(0, a)];
  }

  /** And it does happen: a frame is dispatched, unsubscribe is called and returns, another
      client subscribes and gets the slot, and then the callback of the first one is called. */
  lemma LateCallHappens(a: Client, b: Client)
    requires a != b
    ensures var off := [] + [On(a)] + [Go()] + [Go()] + [Snapshot(9, 0)] + [Off()] + [Go()] + [Go()];
      && Play(off).st.active == {} && PcOf(Play(off).st, 1) == Outside
      && Play(off + [Deliver(9)]).calls == [Call(9, 0, (0, a))]
      && Current(Play(off + [On(b)]), 0, (0, b)) && Play(off + [On(b)] + [Deliver(9)]).calls == [Call(9, 0, (0, a))]
  {
    var es := [] + [On(a)] + [Go()] + [Go()];
    RunningIs(a);
    RunningList(a);
    PlayOne(es, Snapshot(9, 0));
    es := es + [Snapshot(9, 0)];
    PlayOne(es, Off());
    PlayOne(es + [Off()], Go());
    PlayOne(es + [Off()] + [Go()], Go());
    var off := es + [Off()] + [Go()] + [Go()];
    PlayOne(off, Deliver(9));
    PlayOne(off, On(b));
    PlayOne(off + [On(b)], Deliver(9));
    Unsubscribes(a, b);
  }

  lemma Unsubscribes(a: Client, b: Client)
    ensures var x := Scene(Running, map[(0, 0) := a], map[9 := Delivery(0, [(0, a)], 0, 3, 0)], []);
      var x' := After(After(After(x, Off(), 4), Go(), 5), Go(), 6);
      && x'.st.active == {} && PcOf(x'.st, 1) == Outside && x'.frames == x.frames && x'.calls == []
      && Current(After(x', On(b), 7), 0, (0, b)) && After(x', On(b), 7).frames == x.frames
      && After(x', On(b), 7).calls == []
  {
    var st := Next(Running, Off().step);
    assert st.active == {} && PcOf(st, 1) == Stopping(0);
  }

  lemma PlayOne(es: seq<Event>, e: Event)
    ensures Play(es + [e]) == After(Play(es), e, |es|)
  {
    assert (es + [e])[..|es|] == es;
  }
}
