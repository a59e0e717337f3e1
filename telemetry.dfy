/** The socket handlers for sensor telemetry. A `"dht"` reading is
    acknowledged, checked against the alert threshold, stored in the
    `temperature` table and re-broadcast; an `"alert"` message is re-broadcast
    as it came. The broadcast sink (`io.emit`, to every connected client) is
    an append-only log of events; the `temperature` table is the append-only
    sequence of stored readings. */
module Telemetry {

  /** A reading at or above this raises a `HIGH` alert. */
  const HighThreshold: int := 32

  /** What an event carries. */
  datatype Payload = Flag(b: bool) | Word(s: string) | Reading(v: int)

  /** `io.emit(name, payload)`. */
  datatype Event = Event(name: string, payload: Payload)

  /** One observable step of a handler: a broadcast, or a row added to the
      `temperature` table. */
  datatype Effect = Broadcast(event: Event) | Insert(reading: int)

  /** `io.emit("esp8266", true)`. */
  const Ack: Event := Event("esp8266", Flag(true))

  /** `io.emit("alert", "HIGH")`. */
  const HighAlert: Event := Event("alert", Word("HIGH"))

  /** `io.emit("temp", data)`. */
  function TempUpdate(v: int): (e: Event)
    ensures e.name == "temp" && e.payload == Reading(v)
  {
    Event("temp", Reading(v))
  }

  // ---------------------------------------------------------------------------
  // The handlers as sequences of effects

  /** The effects of the `"dht"` handler for reading `v`, in the order they
      happen. `stored` tells whether the INSERT succeeded: when it fails the
      handler stops at the `await`, after the acknowledgement and the alert
      have already gone out. */
  function DhtEffects(v: int, stored: bool): (t: seq<Effect>)
    ensures |t| > 0 && t[0] == Broadcast(Ack)
    ensures Insert(v) in t <==> stored
  {
    [Broadcast(Ack)] + AlertStep(v) + StoreStep(v, stored)
  }

  /** The `if (data >= 32)` branch of the `"dht"` handler. */
  function AlertStep(v: int): seq<Effect> {
    if v >= HighThreshold then [Broadcast(HighAlert)] else []
  }

  /** The INSERT and the `temp` broadcast after it, reached only when the
      INSERT succeeds. */
  function StoreStep(v: int, stored: bool): seq<Effect> {
    if stored then [Insert(v), Broadcast(TempUpdate(v))] else []
  }

  /** The effects of the `"alert"` handler for payload `p`. */
  function AlertEffects(p: Payload): (t: seq<Effect>)
    ensures forall x :: x in t ==> x == Broadcast(Event("alert", p))
    ensures Broadcast(Event("alert", p)) in t
  {
    [Broadcast(Event("alert", p))]
  }

  /** The event one effect sends, if any. */
  function EventOf(x: Effect): seq<Event> {
    if x.Broadcast? then [x.event] else []
  }

  /** The reading one effect stores, if any. */
  function ReadingOf(x: Effect): seq<int> {
    if x.Insert? then [x.reading] else []
  }

  /** The events of a trace, in order: what every client is sent. */
  function Broadcasts(t: seq<Effect>): (es: seq<Event>)
    ensures |es| <= |t|
  {
    if t == [] then [] else EventOf(t[0]) + Broadcasts(t[1..])
  }

  /** The readings a trace adds to the `temperature` table, in order. */
  function Inserts(t: seq<Effect>): (vs: seq<int>)
    ensures |vs| <= |t|
  {
    if t == [] then [] else ReadingOf(t[0]) + Inserts(t[1..])
  }

  /** The number of times event `e` occurs in `es`. */
  function Occurrences(es: seq<Event>, e: Event): (n: nat)
    ensures n <= |es|
    ensures n == 0 <==> e !in es
  {
    if es == [] then 0 else (if es[0] == e then 1 else 0) + Occurrences(es[1..], e)
  }

  /** The effects of the `"dht"` handler run once for each reading of `vs`, in
      order, each INSERT succeeding. */
  function Replay(vs: seq<int>): seq<Effect> {
    if vs == [] then [] else DhtEffects(vs[0], true) + Replay(vs[1..])
  }

  /** The number of readings of `vs` that reach the threshold. */
  function HighCount(vs: seq<int>): (n: nat)
    ensures n <= |vs|
  {
    if vs == [] then 0 else (if vs[0] >= HighThreshold then 1 else 0) + HighCount(vs[1..])
  }

  // ---------------------------------------------------------------------------
  // Properties of the traces

  lemma {:induction false} BroadcastsAppend(a: seq<Effect>, b: seq<Effect>)
    ensures Broadcasts(a + b) == Broadcasts(a) + Broadcasts(b)
  {
    if a == [] {
      assert a + b == b;
    } else {
      assert (a + b)[0] == a[0];
      assert (a + b)[1..] == a[1..] + b;
      BroadcastsAppend(a[1..], b);
      assert Broadcasts(a + b) == EventOf(a[0]) + (Broadcasts(a[1..]) + Broadcasts(b));
    }
  }

  lemma {:induction false} InsertsAppend(a: seq<Effect>, b: seq<Effect>)
    ensures Inserts(a + b) == Inserts(a) + Inserts(b)
  {
    if a == [] {
      assert a + b == b;
    } else {
      assert (a + b)[0] == a[0];
      assert (a + b)[1..] == a[1..] + b;
      InsertsAppend(a[1..], b);
      assert Inserts(a + b) == ReadingOf(a[0]) + (Inserts(a[1..]) + Inserts(b));
    }
  }

  lemma {:induction false} OccurrencesAppend(a: seq<Event>, b: seq<Event>, e: Event)
    ensures Occurrences(a + b, e) == Occurrences(a, e) + Occurrences(b, e)
  {
    if a == [] {
      assert a + b == b;
    } else {
      assert (a + b)[0] == a[0];
      assert (a + b)[1..] == a[1..] + b;
      OccurrencesAppend(a[1..], b, e);
    }
  }

  /** What the clients see of one `"dht"` reading and what the table gains:
      the acknowledgement, then the `HIGH` alert exactly when `v` reaches the
      threshold, then, once the reading is stored, `temp` carrying `v`. */
  lemma DhtObservable(v: int, stored: bool)
    ensures Broadcasts(DhtEffects(v, stored))
            == [Ack] + (if v >= HighThreshold then [HighAlert] else [])
               + (if stored then [TempUpdate(v)] else [])
    ensures Inserts(DhtEffects(v, stored)) == if stored then [v] else []
  {
    var ack: seq<Effect> := [Broadcast(Ack)];
    var alert, rest := AlertStep(v), StoreStep(v, stored);
    assert Broadcasts(alert) == (if v >= HighThreshold then [HighAlert] else []) && Inserts(alert) == [];
    assert Broadcasts(rest) == (if stored then [TempUpdate(v)] else []) && Inserts(rest) == (if stored then [v] else []) by {
      if stored {
        assert rest == [Insert(v)] + [Broadcast(TempUpdate(v))];
        BroadcastsAppend([Insert(v)], [Broadcast(TempUpdate(v))]);
        InsertsAppend([Insert(v)], [Broadcast(TempUpdate(v))]);
      }
    }
    BroadcastsAppend(ack, alert);
    BroadcastsAppend(ack + alert, rest);
    InsertsAppend(ack, alert);
    InsertsAppend(ack + alert, rest);
  }

  /** The order within one `"dht"` reading: the acknowledgement comes first;
      a `HIGH` alert is sent if and only if `v >= 32`, and only before the
      INSERT; `temp` is sent if and only if the reading was stored, and then
      only after its row was added. */
  lemma DhtOrder(v: int, stored: bool)
    ensures DhtEffects(v, stored)[0] == Broadcast(Ack)
    ensures Broadcast(HighAlert) in DhtEffects(v, stored) <==> v >= HighThreshold
    ensures Broadcast(TempUpdate(v)) in DhtEffects(v, stored) <==> stored
    ensures Insert(v) in DhtEffects(v, stored) <==> stored
    ensures forall i, j :: 0 <= i < |DhtEffects(v, stored)| && 0 <= j < |DhtEffects(v, stored)|
              && DhtEffects(v, stored)[i] == Insert(v) && DhtEffects(v, stored)[j] == Broadcast(TempUpdate(v))
              ==> i < j
    ensures forall i, j :: 0 <= i < |DhtEffects(v, stored)| && 0 <= j < |DhtEffects(v, stored)|
              && DhtEffects(v, stored)[i] == Broadcast(HighAlert) && DhtEffects(v, stored)[j] == Insert(v)
              ==> i < j
  {
  }

  /** One `"dht"` reading sends exactly one acknowledgement, at most one
      `HIGH` alert and, once stored, exactly one `temp`. */
  lemma DhtCounts(v: int, stored: bool)
    ensures Occurrences(Broadcasts(DhtEffects(v, stored)), Ack) == 1
    ensures Occurrences(Broadcasts(DhtEffects(v, stored)), HighAlert) == if v >= HighThreshold then 1 else 0
    ensures Occurrences(Broadcasts(DhtEffects(v, stored)), TempUpdate(v)) == if stored then 1 else 0
  {
    DhtObservable(v, stored);
    var alert: seq<Event> := if v >= HighThreshold then [HighAlert] else [];
    var temp: seq<Event> := if stored then [TempUpdate(v)] else [];
    assert Broadcasts(DhtEffects(v, stored)) == [Ack] + alert + temp;
    assert Occurrences([Ack] + alert + temp, Ack) == 1 by {
      OccurrencesAppend([Ack], alert, Ack);
      OccurrencesAppend([Ack] + alert, temp, Ack);
    }
    assert Occurrences([Ack] + alert + temp, HighAlert) == if v >= HighThreshold then 1 else 0 by {
      OccurrencesAppend([Ack], alert, HighAlert);
      OccurrencesAppend([Ack] + alert, temp, HighAlert);
    }
    assert Occurrences([Ack] + alert + temp, TempUpdate(v)) == if stored then 1 else 0 by {
      OccurrencesAppend([Ack], alert, TempUpdate(v));
      OccurrencesAppend([Ack] + alert, temp, TempUpdate(v));
    }
  }

  /** An `"alert"` message sends its payload as it came, once, and writes no
      row. */
  lemma AlertObservable(p: Payload)
    ensures Broadcasts(AlertEffects(p)) == [Event("alert", p)]
    ensures Inserts(AlertEffects(p)) == []
  {
  }

  /** Readings handled one after another, each stored: the table gains them
      in arrival order, every reading is acknowledged exactly once, and there
      are as many `HIGH` alerts as readings that reach the threshold. */
  lemma {:induction false} ReplayObservable(vs: seq<int>)
    ensures Inserts(Replay(vs)) == vs
    ensures Occurrences(Broadcasts(Replay(vs)), Ack) == |vs|
    ensures Occurrences(Broadcasts(Replay(vs)), HighAlert) == HighCount(vs)
  {
    ReplayInserts(vs);
    ReplayAcks(vs);
    ReplayAlerts(vs);
  }

  lemma {:induction false} ReplayInserts(vs: seq<int>)
    ensures Inserts(Replay(vs)) == vs
  {
    if vs != [] {
      var head, tail := DhtEffects(vs[0], true), Replay(vs[1..]);
      assert Replay(vs) == head + tail;
      ReplayInserts(vs[1..]);
      DhtObservable(vs[0], true);
      InsertsAppend(head, tail);
      assert vs == [vs[0]] + vs[1..];
    }
  }

  lemma {:induction false} ReplayAcks(vs: seq<int>)
    ensures Occurrences(Broadcasts(Replay(vs)), Ack) == |vs|
  {
    if vs != [] {
      var head, tail := DhtEffects(vs[0], true), Replay(vs[1..]);
      assert Replay(vs) == head + tail;
      ReplayAcks(vs[1..]);
      DhtCounts(vs[0], true);
      BroadcastsAppend(head, tail);
      OccurrencesAppend(Broadcasts(head), Broadcasts(tail), Ack);
    }
  }

  lemma {:induction false} ReplayAlerts(vs: seq<int>)
    ensures Occurrences(Broadcasts(Replay(vs)), HighAlert) == HighCount(vs)
  {
    if vs != [] {
      var head, tail := DhtEffects(vs[0], true), Replay(vs[1..]);
      assert Replay(vs) == head + tail;
      ReplayAlerts(vs[1..]);
      DhtCounts(vs[0], true);
      BroadcastsAppend(head, tail);
      OccurrencesAppend(Broadcasts(head), Broadcasts(tail), HighAlert);
    }
  }

  /** What a log and a table that already hold `t0` gain from one `"dht"`
      reading. */
  lemma DhtOnTrace(t0: seq<Effect>, v: int, stored: bool)
    ensures Broadcasts(t0 + DhtEffects(v, stored))
            == Broadcasts(t0) + [Ack] + (if v >= HighThreshold then [HighAlert] else [])
               + (if stored then [TempUpdate(v)] else [])
    ensures Inserts(t0 + DhtEffects(v, stored)) == Inserts(t0) + (if stored then [v] else [])
  {
    var t := DhtEffects(v, stored);
    var alert: seq<Event> := if v >= HighThreshold then [HighAlert] else [];
    var temp: seq<Event> := if stored then [TempUpdate(v)] else [];
    DhtObservable(v, stored);
    assert Broadcasts(t0 + t) == Broadcasts(t0) + [Ack] + alert + temp by {
      BroadcastsAppend(t0, t);
      AppendAssoc(Broadcasts(t0), [Ack] + alert, temp);
      AppendAssoc(Broadcasts(t0), [Ack], alert);
    }
    assert Inserts(t0 + t) == Inserts(t0) + (if stored then [v] else []) by {
      InsertsAppend(t0, t);
    }
  }

  /** Regrouping a concatenation of three sequences. Dafny knows this fact;
      stating it as a separate lemma keeps its proof out of `OnDht`'s. */
  lemma AppendAssoc<T>(a: seq<T>, b: seq<T>, c: seq<T>)
    ensures a + (b + c) == (a + b) + c
  {
  }

  // ---------------------------------------------------------------------------
  // The broadcast sink and the temperature table

  class Hub {
    /** Every event broadcast so far, oldest first. */
    var events: seq<Event>
    /** The `temperature` table: every stored reading, oldest first. */
    var temperature: seq<int>
    /** Broadcasts and inserts interleaved as they happened. */
    ghost var trace: seq<Effect>

    ghost predicate Valid()
      reads this
    {
      events == Broadcasts(trace) && temperature == Inserts(trace)
    }

    constructor ()
      ensures Valid() && trace == [] && events == [] && temperature == []
    {
      events, temperature := [], [];
      trace := [];
    }

    /** `io.emit(e.name, e.payload)`. */
    method Emit(e: Event)
      requires Valid()
      modifies this
      ensures Valid()
      ensures trace == old(trace) + [Broadcast(e)]
      ensures events == old(events) + [e] && temperature == old(temperature)
    {
      BroadcastsAppend(trace, [Broadcast(e)]);
      InsertsAppend(trace, [Broadcast(e)]);
      events := events + [e];
      trace := trace + [Broadcast(e)];
    }

    /** `INSERT INTO temperature (reading) VALUES (v)`, when it succeeds. */
    method Store(v: int)
      requires Valid()
      modifies this
      ensures Valid()
      ensures trace == old(trace) + [Insert(v)]
      ensures temperature == old(temperature) + [v] && events == old(events)
    {
      BroadcastsAppend(trace, [Insert(v)]);
      InsertsAppend(trace, [Insert(v)]);
      temperature := temperature + [v];
      trace := trace + [Insert(v)];
    }

    /** The `"dht"` handler for reading `data`; `stored` is the outcome of its
        INSERT. */
    method OnDht(data: int, stored: bool)
      requires Valid()
      modifies this
      ensures Valid()
      ensures trace == old(trace) + DhtEffects(data, stored)
      ensures events == old(events) + [Ack] + (if data >= HighThreshold then [HighAlert] else [])
                        + (if stored then [TempUpdate(data)] else [])
      ensures temperature == old(temperature) + (if stored then [data] else [])
    {
      ghost var t0 := trace;
      Emit(Ack);
      if data >= HighThreshold {
        Emit(HighAlert);
      }
      ghost var t1 := trace;
      assert t1 == t0 + ([Broadcast(Ack)] + AlertStep(data)) by {
        AppendAssoc(t0, [Broadcast(Ack)], AlertStep(data));
      }
      if stored {
        Store(data);
        Emit(TempUpdate(data));
      }
      assert trace == t0 + DhtEffects(data, stored) by {
        assert trace == t1 + StoreStep(data, stored);
        AppendAssoc(t0, [Broadcast(Ack)] + AlertStep(data), StoreStep(data, stored));
      }
      DhtOnTrace(t0, data, stored);
    }

    /** The `"alert"` handler for payload `data`. */
    method OnAlert(data: Payload)
      requires Valid()
      modifies this
      ensures Valid()
      ensures trace == old(trace) + AlertEffects(data)
      ensures events == old(events) + [Event("alert", data)]
      ensures temperature == old(temperature)
    {
      Emit(Event("alert", data));
    }
  }
}
