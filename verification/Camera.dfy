/**
  The camera subscription table when calls do not overlap: slots, reference counts, the
  driver calls they cause, and the dispatch of frames.
 */
module Camera {
  import opened Model

  const Streams: nat := 3     // CAM_STREAM_MAX
  const Consumers: nat := 5   // CAM_CONSUMER_MAX

  /** A subscriber: its callback function and the context pointer it gets. */
  datatype Client = Client(cb: nat, ctx: nat)

  /** A slot is active if it has a client; the fields of an inactive slot are NULL. */
  type Slot = Option<Client>

  datatype Ret = OK | INVALID_PARM | COM_ERROR | DriverError(code: int)

  /** The number of active slots. */
  function Active(row: seq<Slot>): nat {
    if row == [] then 0 else Active(row[..|row| - 1]) + if row[|row| - 1].Some? then 1 else 0
  }

  /** The clients of the active slots, in the order of the slots. */
  function Clients(row: seq<Slot>): seq<Client> {
    if row == [] then []
    else Clients(row[..|row| - 1]) + if row[|row| - 1].Some? then [row[|row| - 1].value] else []
  }

  lemma {:induction false} ActiveSet(row: seq<Slot>, i: nat, x: Slot)
    requires i < |row|
    ensures Active(row[i := x]) == Active(row) - (if row[i].Some? then 1 else 0) + if x.Some? then 1 else 0
    ensures row[i].Some? ==> Active(row) > 0
  {
    var init, row' := row[..|row| - 1], row[i := x];
    if i == |row| - 1 {
      assert row'[..|row| - 1] == init;
    } else {
      assert row'[..|row| - 1] == init[i := x];
      ActiveSet(init, i, x);
    }
  }

  lemma {:induction false} ActivePositive(row: seq<Slot>)
    ensures Active(row) <= |row|
    ensures Active(row) > 0 <==> exists i :: 0 <= i < |row| && row[i].Some?
  {
    if row != [] {
      var init := row[..|row| - 1];
      ActivePositive(init);
      if i :| 0 <= i < |init| && init[i].Some? { assert row[i].Some?; }
      if j :| 0 <= j < |row| && row[j].Some? { assert j < |init| ==> init[j].Some?; }
    }
  }

  lemma {:induction false} NoneActive(row: seq<Slot>)
    requires forall i :: 0 <= i < |row| ==> row[i] == None
    ensures Active(row) == 0
  {
    if row != [] { NoneActive(row[..|row| - 1]); }
  }

  /** Every active slot is served exactly once, at the place given by the number of active
      slots before it. */
  lemma {:induction false} ServedInOrder(row: seq<Slot>, i: nat)
    requires i < |row| && row[i].Some?
    ensures |Clients(row)| == Active(row) && Active(row[..i]) < Active(row)
    ensures Clients(row)[Active(row[..i])] == row[i].value
  {
    var init := row[..|row| - 1];
    ClientCount(init);
    if i == |row| - 1 {
      assert row[..i] == init;
    } else {
      ServedInOrder(init, i);
      assert init[..i] == row[..i];
    }
  }

  lemma {:induction false} ClientCount(row: seq<Slot>)
    ensures |Clients(row)| == Active(row)
  {
    if row != [] { ClientCount(row[..|row| - 1]); }
  }

  class Adapter {
    var inited: bool             // s_adapt_init
    const subs: array2<Slot>     // s_subs
    const refcnt: array<nat>     // s_stream_refcnt
    // The driver: which streams are started, and where the dispatcher is installed.
    const started: array<bool>
    const hooked: array<bool>

    ghost predicate Shape() {
      subs.Length0 == Streams && subs.Length1 == Consumers && refcnt.Length == Streams
      && started.Length == Streams && hooked.Length == Streams && started != hooked
    }

    ghost function Row(s: nat): seq<Slot>
      requires Shape() && s < Streams
      reads subs
    {
      seq(Consumers, c requires 0 <= c < Consumers reads subs => subs[s, c])
    }

    /** The count of a stream is the number of its active slots, and the stream is started,
        with the dispatcher installed, exactly when some slot is active. */
    ghost predicate Follows(s: nat)
      requires Shape() && s < Streams
      reads subs, refcnt, started, hooked
    {
      refcnt[s] == Active(Row(s)) && started[s] == hooked[s] == (Active(Row(s)) > 0)
    }

    ghost predicate Valid()
      reads this, subs, refcnt, started, hooked
    {
      && Shape()
      && (forall s :: 0 <= s < Streams ==> Follows(s))
      && (!inited ==> forall s, c :: 0 <= s < Streams && 0 <= c < Consumers ==> subs[s, c] == None)
    }

    constructor ()
      ensures Valid() && !inited && fresh(subs) && fresh(refcnt) && fresh(started) && fresh(hooked)
    {
      inited := false;
      subs := new Slot[Streams, Consumers]((s, c) => None);
      refcnt := new nat[Streams](s => 0);
      started := new bool[Streams](s => false);
      hooked := new bool[Streams](s => false);
      new;
      forall s | 0 <= s < Streams ensures Follows(s) { NoneActive(Row(s)); }
    }

    /** memset() of both tables */
    method ClearTables()
      requires Shape()
      modifies subs, refcnt
      ensures forall s, c :: 0 <= s < Streams && 0 <= c < Consumers ==> subs[s, c] == None
      ensures forall s :: 0 <= s < Streams ==> refcnt[s] == 0
    {
      forall s, c | 0 <= s < Streams && 0 <= c < Consumers { subs[s, c] := None; }
      forall s | 0 <= s < Streams { refcnt[s] := 0; }
    }

    /** tuya_ai_toy_camera_init(); `mutex` and `driver` are what the calls in it return. */
    method Init(mutex: Ret, driver: Ret) returns (rt: Ret)
      requires Valid()
      modifies this, subs, refcnt
      ensures Valid() && refcnt[..] == old(refcnt[..])
      ensures forall s, c :: 0 <= s < Streams && 0 <= c < Consumers ==> subs[s, c] == old(subs[s, c])
      ensures rt == if old(inited) then OK else if mutex != OK then mutex else driver
      ensures inited == (rt == OK)
    {
      if inited {
        return OK;
      }
      if mutex != OK {
        return mutex;
      }
      forall s | 0 <= s < Streams ensures refcnt[s] == 0 && !started[s] && !hooked[s] { AllFree(s); }
      ClearTables();
      forall s | 0 <= s < Streams ensures Follows(s) { NoneActive(Row(s)); }
      inited := true;
      rt := driver;
      if rt != OK {
        inited := false;
      }
    }

    lemma AllFree(s: nat)
      requires Valid() && s < Streams && forall c :: 0 <= c < Consumers ==> subs[s, c] == None
      ensures refcnt[s] == 0 && !started[s] && !hooked[s]
    {
      NoneActive(Row(s));
      assert Follows(s);
    }

    /** tuya_ai_toy_camera_deinit(); `driver` is what the driver returns, whatever that is,
        and `left` are the streams that it does not stop and whose callback it keeps.  The
        tables are emptied in any case, so all is well if and only if no used stream is left. */
    method Deinit(driver: Ret, left: set<nat>) returns (rt: Ret)
      requires Valid()
      modifies this, subs, refcnt, started, hooked
      ensures Shape() && !inited && rt == driver
      ensures forall s, c :: 0 <= s < Streams && 0 <= c < Consumers ==> subs[s, c] == None
      ensures forall s :: 0 <= s < Streams ==>
        refcnt[s] == 0 && started[s] == hooked[s] == (old(started[s]) && s in left)
      ensures Valid() <==> forall s: nat :: s < Streams && old(refcnt[s]) > 0 ==> s !in left
    {
      forall s | 0 <= s < Streams { started[s] := started[s] && s in left; }
      forall s | 0 <= s < Streams { hooked[s] := hooked[s] && s in left; }
      ClearTables();
      forall s | 0 <= s < Streams ensures Active(Row(s)) == 0 { NoneActive(Row(s)); }
      inited := false;
      rt := driver;
      forall s: nat | s < Streams
        ensures started[s] == hooked[s] == (old(started[s]) && s in left) && (Follows(s) <==> !started[s])
        ensures old(started[s]) == (old(refcnt[s]) > 0)
      {
        assert old(Follows(s));
      }
    }

    /** Why a subscription is refused before anything changes. */
    predicate Refused(stream: nat, consumer: nat, client: Option<Client>)
      requires Shape()
      reads this, subs
    {
      stream >= Streams || consumer >= Consumers || client.None? || !inited || subs[stream, consumer].Some?
    }

    /** tuya_ai_toy_camera_subscribe(); `client` is None where cb is NULL, and `start` is
        what tuya_device_camera_start_stream() returns if it is called. */
    method Subscribe(stream: nat, consumer: nat, client: Option<Client>, start: Ret) returns (rt: Ret)
      requires Valid()
      modifies subs, refcnt, started, hooked
      ensures Valid()
      // A refused call and a failed start leave everything as it was.
      ensures rt == if stream >= Streams || consumer >= Consumers || client.None? then INVALID_PARM
                    else if !inited || old(subs[stream, consumer]).Some? then COM_ERROR
                    else if old(started[stream]) then OK else start
      ensures old(Refused(stream, consumer, client)) || rt != OK ==> unchanged(subs, refcnt, started, hooked)
      // A successful call changes one slot, and only its stream.
      ensures !old(Refused(stream, consumer, client)) && rt == OK ==>
        && subs[stream, consumer] == client && started[stream] && refcnt[stream] == old(refcnt[stream]) + 1
        && (forall s, c :: 0 <= s < Streams && 0 <= c < Consumers && (s, c) != (stream, consumer) ==>
              subs[s, c] == old(subs[s, c]))
        && (forall s :: 0 <= s < Streams && s != stream ==>
              refcnt[s] == old(refcnt[s]) && started[s] == old(started[s]) && hooked[s] == old(hooked[s]))
    {
      if stream >= Streams || consumer >= Consumers || client.None? {
        return INVALID_PARM;
      }
      if !inited {
        return COM_ERROR;
      }
      if subs[stream, consumer].Some? {
        return COM_ERROR;
      }
      assert Follows(stream);
      ghost var row := Row(stream);
      subs[stream, consumer] := client;
      var first := refcnt[stream] == 0;
      refcnt[stream] := refcnt[stream] + 1;
      assert Row(stream) == row[consumer := client];
      ActiveSet(row, consumer, client);
      if first {
        hooked[stream] := true;
        rt := start;
        if rt != OK {
          subs[stream, consumer] := None;
          if refcnt[stream] > 0 {
            refcnt[stream] := refcnt[stream] - 1;
          }
          hooked[stream] := false;
          assert Row(stream) == row;
          forall s | 0 <= s < Streams ensures Follows(s) { assert old(Follows(s)) && Row(s) == old(Row(s)); }
          return;
        }
        started[stream] := true;
      }
      forall s | 0 <= s < Streams ensures Follows(s) {
        assert old(Follows(s)) && (s != stream ==> Row(s) == old(Row(s)));
      }
      rt := OK;
    }

    /** tuya_ai_toy_camera_unsubscribe() */
    method Unsubscribe(stream: nat, consumer: nat) returns (rt: Ret)
      requires Valid()
      modifies subs, refcnt, started, hooked
      ensures Valid()
      ensures rt == if stream >= Streams || consumer >= Consumers then INVALID_PARM
                    else if !inited || old(subs[stream, consumer]).None? then COM_ERROR else OK
      ensures rt != OK ==> unchanged(subs, refcnt, started, hooked)
      ensures rt == OK ==>
        && subs[stream, consumer] == None && refcnt[stream] + 1 == old(refcnt[stream])
        && (started[stream] <==> old(refcnt[stream]) > 1)
        && (forall s, c :: 0 <= s < Streams && 0 <= c < Consumers && (s, c) != (stream, consumer) ==>
              subs[s, c] == old(subs[s, c]))
        && (forall s :: 0 <= s < Streams && s != stream ==>
              refcnt[s] == old(refcnt[s]) && started[s] == old(started[s]) && hooked[s] == old(hooked[s]))
    {
      if stream >= Streams || consumer >= Consumers {
        return INVALID_PARM;
      }
      if !inited {
        return COM_ERROR;
      }
      if subs[stream, consumer].None? {
        return COM_ERROR;
      }
      assert Follows(stream);
      ghost var row := Row(stream);
      var last := false;
      subs[stream, consumer] := None;
      assert Row(stream) == row[consumer := None];
      ActiveSet(row, consumer, None);
      if refcnt[stream] > 0 {
        refcnt[stream] := refcnt[stream] - 1;
        last := refcnt[stream] == 0;
      }
      if last {
        started[stream] := false;
        hooked[stream] := false;
      }
      forall s | 0 <= s < Streams ensures Follows(s) {
        assert old(Follows(s)) && (s != stream ==> Row(s) == old(Row(s)));
      }
      rt := OK;
    }

    /** __dispatch_frame(): the callbacks that are called, in order; `stream` is None for a
        null frame. */
    method DispatchFrame(stream: Option<nat>) returns (calls: seq<Client>)
      requires Valid()
      ensures calls == if stream.Some? && stream.value < Streams && inited then Clients(Row(stream.value)) else []
    {
      if stream.None? || stream.value >= Streams || !inited {
        return [];
      }
      var s := stream.value;
      var clients := new Client[Consumers](i => Client(0, 0));
      var n := 0;
      for i := 0 to Consumers
        invariant n <= i && clients[..n] == Clients(Row(s)[..i])
      {
        assert Row(s)[..i + 1][..i] == Row(s)[..i];
        if subs[s, i].Some? {
          clients[n] := subs[s, i].value;
          n := n + 1;
        }
      }
      assert Row(s)[..Consumers] == Row(s);
      calls := [];
      for i := 0 to n
        invariant calls == clients[..i]
      {
        calls := calls + [clients[i]];
      }
    }

    /** In every state that the calls can reach, a stream is started and the dispatcher is
        installed exactly when some slot of the stream is active. */
    lemma StartedExactlyWhenUsed(s: nat)
      requires Valid() && s < Streams
      ensures started[s] == hooked[s] == (exists c :: 0 <= c < Consumers && subs[s, c].Some?)
      ensures started[s] == (refcnt[s] > 0) && refcnt[s] <= Consumers
    {
      assert Follows(s);
      ActivePositive(Row(s));
      assert forall c :: 0 <= c < Consumers ==> Row(s)[c] == subs[s, c];
    }
  }
}
