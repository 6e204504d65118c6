/** The prober half of the service (checkSmtpTcp): a TCP connection attempt
    to port 25 whose promise is settled by the first of the socket's
    `connect`, `timeout` and `error` events. The socket is abstracted to the
    events it emits; the clock reading at `connect` travels with the event. */
module Prober {

  /** The port the probe connects to and the response reports. */
  const SmtpPort: nat := 25

  /** Message of the Error the timeout handler rejects with. */
  const TimeoutMessage: string := "Connection timeout"

  /** An event the socket emits: `connect` (with the clock reading `now`),
      `timeout`, or `error` (with the Error's message). */
  datatype Event = Connect(now: int) | Timeout | Error(message: string)

  /** The state of the probe's promise. */
  datatype Settlement = Pending | Resolved(duration: int) | Rejected(message: string)

  /** The observable state of one probe: its promise and whether a handler has
      called socket.destroy(). */
  datatype ProbeState = ProbeState(settlement: Settlement, destroyed: bool)

  /** A probe just after the socket is created, before any event. */
  const Initial: ProbeState := ProbeState(Pending, false)

  /** The settle call a handler makes: resolve with the elapsed time on
      `connect`, reject on `timeout` and `error`. */
  function Verdict(startTime: int, e: Event): (s: Settlement)
    ensures s != Pending
    ensures s.Resolved? <==> e.Connect?
  {
    match e
    case Connect(now) => Resolved(now - startTime)
    case Timeout => Rejected(TimeoutMessage)
    case Error(message) => Rejected(message)
  }

  /** Whether the handler for an event calls socket.destroy(). */
  predicate Destroys(e: Event) {
    !e.Error?
  }

  /** A promise settles once: a settle call on a settled promise is ignored. */
  function Settle(current: Settlement, next: Settlement): Settlement {
    if current.Pending? then next else current
  }

  /** The effect of delivering one event to its handler. */
  function Step(startTime: int, p: ProbeState, e: Event): (r: ProbeState)
    ensures !p.settlement.Pending? ==> r.settlement == p.settlement
    ensures p.settlement.Pending? ==> r.settlement == Verdict(startTime, e)
    ensures r.destroyed <==> p.destroyed || e.Connect? || e.Timeout?
  {
    ProbeState(Settle(p.settlement, Verdict(startTime, e)), p.destroyed || Destroys(e))
  }

  /** The state after the socket has emitted `events`, in order. Once
      settled, the promise keeps its value whatever events follow, and a
      destroyed socket stays destroyed. */
  function Run(startTime: int, p: ProbeState, events: seq<Event>): (r: ProbeState)
    ensures !p.settlement.Pending? ==> r.settlement == p.settlement
    ensures p.destroyed ==> r.destroyed
    decreases |events|
  {
    if |events| == 0 then p
    else Step(startTime, Run(startTime, p, events[..|events| - 1]), events[|events| - 1])
  }

  /** What the awaited promise of checkSmtpTcp settles with, given the events
      its socket emits: it stays pending only while no event has come. */
  function ProbeOutcome(startTime: int, events: seq<Event>): (r: Settlement)
    ensures r.Pending? <==> |events| == 0
  {
    FirstEventDecides(startTime, events);
    Run(startTime, Initial, events).settlement
  }

  /** The first event decides the outcome; a timeout after a connect, or a
      connect after a timeout or an error, changes nothing. With no event the
      promise stays pending. */
  lemma {:induction false} FirstEventDecides(startTime: int, events: seq<Event>)
    ensures Run(startTime, Initial, events).settlement == if |events| == 0 then Pending else Verdict(startTime, events[0])
  {
    if |events| > 0 {
      var first := Run(startTime, Initial, events[..1]);
      assert events[..1][..0] == [];
      assert Run(startTime, Initial, events[..1][..0]) == Initial;
      assert first.settlement == Verdict(startTime, events[0]);
      var rest := events[1..];
      RunAppend(startTime, Initial, events[..1], rest);
      assert events[..1] + rest == events;
    }
  }

  /** Delivering a trace in two parts is delivering it whole. */
  lemma {:induction false} RunAppend(startTime: int, p: ProbeState, xs: seq<Event>, ys: seq<Event>)
    ensures Run(startTime, p, xs + ys) == Run(startTime, Run(startTime, p, xs), ys)
    decreases |ys|
  {
    if |ys| == 0 {
      assert xs + ys == xs;
    } else {
      var n := |ys| - 1;
      assert (xs + ys)[..|xs + ys| - 1] == xs + ys[..n];
      RunAppend(startTime, p, xs, ys[..n]);
    }
  }

  /** The socket has been destroyed exactly when some `connect` or `timeout`
      has been delivered; an `error` alone never destroys it. */
  lemma {:induction false} DestroyedIffConnectOrTimeout(startTime: int, events: seq<Event>)
    ensures Run(startTime, Initial, events).destroyed <==> exists i :: 0 <= i < |events| && Destroys(events[i])
  {
    if |events| > 0 {
      var n := |events| - 1;
      DestroyedIffConnectOrTimeout(startTime, events[..n]);
      assert forall i :: 0 <= i < n ==> events[..n][i] == events[i];
    }
  }

  /** One probe: the socket's handlers and the promise they settle. */
  class Probe {
    /** Date.now() when the probe began. */
    const startTime: int
    /** The promise checkSmtpTcp returns. */
    var settlement: Settlement
    /** Whether socket.destroy() has been called. */
    var destroyed: bool

    function State(): ProbeState
      reads this
    {
      ProbeState(settlement, destroyed)
    }

    /** Creating the socket and its promise at time `startTime`. */
    constructor (startTime: int)
      ensures this.startTime == startTime
      ensures State() == Initial
    {
      this.startTime := startTime;
      settlement := Pending;
      destroyed := false;
    }

    /** resolve(value): takes effect only on a pending promise. */
    method Resolve(value: int)
      modifies this`settlement
      ensures settlement == if old(settlement).Pending? then Resolved(value) else old(settlement)
    {
      if settlement.Pending? {
        settlement := Resolved(value);
      }
    }

    /** reject(error): takes effect only on a pending promise. */
    method Reject(message: string)
      modifies this`settlement
      ensures settlement == if old(settlement).Pending? then Rejected(message) else old(settlement)
    {
      if settlement.Pending? {
        settlement := Rejected(message);
      }
    }

    /** The `connect` handler: elapsed time, destroy, resolve. */
    method OnConnect(now: int)
      modifies this
      ensures destroyed
      ensures settlement == if old(settlement).Pending? then Resolved(now - startTime) else old(settlement)
      ensures State() == Step(startTime, old(State()), Connect(now))
    {
      var duration := now - startTime;
      destroyed := true;
      Resolve(duration);
    }

    /** The `timeout` handler: destroy, reject with the timeout message. */
    method OnTimeout()
      modifies this
      ensures destroyed
      ensures settlement == if old(settlement).Pending? then Rejected(TimeoutMessage) else old(settlement)
      ensures State() == Step(startTime, old(State()), Timeout)
    {
      destroyed := true;
      Reject(TimeoutMessage);
    }

    /** The `error` handler: reject with the error, leave the socket alone. */
    method OnError(message: string)
      modifies this
      ensures destroyed == old(destroyed)
      ensures settlement == if old(settlement).Pending? then Rejected(message) else old(settlement)
      ensures State() == Step(startTime, old(State()), Error(message))
    {
      Reject(message);
    }
  }

  /** checkSmtpTcp: create the probe at `startTime`, then let the socket's
      events reach their handlers one by one. The promise ends as the first
      event decides, and the socket has been destroyed exactly when a
      `connect` or `timeout` arrived. */
  method CheckSmtpTcp(startTime: int, events: seq<Event>) returns (outcome: Settlement, destroyed: bool)
    ensures outcome == if |events| == 0 then Pending else Verdict(startTime, events[0])
    ensures destroyed <==> exists i :: 0 <= i < |events| && Destroys(events[i])
  {
    var probe := new Probe(startTime);
    for i := 0 to |events|
      invariant probe.startTime == startTime
      invariant probe.State() == Run(startTime, Initial, events[..i])
    {
      assert events[..i + 1][..i] == events[..i];
      match events[i]
      case Connect(now) => probe.OnConnect(now);
      case Timeout => probe.OnTimeout();
      case Error(message) => probe.OnError(message);
    }
    assert events[..|events|] == events;
    FirstEventDecides(startTime, events);
    DestroyedIffConnectOrTimeout(startTime, events);
    outcome, destroyed := probe.settlement, probe.destroyed;
  }
}
