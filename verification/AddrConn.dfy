/** The connection to one address: one driver that dials, installs and watches
    transports, and any number of callers that wait or tear it down. Each section
    under the lock is one step, and the steps interleave freely. */
module AddrConn {
  import opened Wrappers

  datatype ConnectivityState = Idle | Connecting | Ready | TransientFailure | Shutdown

  /** Where the driver is. */
  datatype Phase =
    | Resetting(closeTransport: bool)
    | Closing(closeTransport: bool, old_: Option<nat>)
    | Dialing
    | Exiting                             // the dial failed for good
    | Monitoring
    | Stopped

  /** The calls to the balancer that matter: `Up` that returned a function, and that function. */
  datatype Call = Up | Down

  datatype Waited = Transport(t: nat) | TornDown | Unavailable | Closed | Waits(ch: nat)

  /** Up, down, up, ... */
  ghost predicate Alternating(calls: seq<Call>) {
    forall i :: 0 <= i < |calls| ==> calls[i] == if i % 2 == 0 then Up else Down
  }

  class AddrConn {
    const hasBalancer: bool
    var state: ConnectivityState
    var ready: Option<nat>
    var down: bool                        // the balancer is to be told when this goes down
    var transport: Option<nat>
    var drained: bool                     // why it was torn down
    var made: nat                         // channels are numbered as they are made
    var created: nat                      // transports, too

    ghost var phase: Phase
    ghost var closed: set<nat>
    ghost var waiting: map<nat, nat>      // the channel each waiter waits on
    ghost var calls: seq<Call>
    ghost var closedTransports: set<nat>
    ghost var draining: set<nat>

    ghost predicate Valid() reads this {
      && Waiters() && Transports()
      && Alternating(calls) && down == (|calls| % 2 == 1)
      && (phase.Closing? || phase.Dialing? || phase.Exiting? || phase == Resetting(false) ==> !down)
      && (down ==> !state.Shutdown?)
    }

    /** Nobody is stranded: whoever waits does so on the current channel or a closed
        one, there is no current one when it is ready or shut down, and the driver only
        rests when it is. */
    ghost predicate Waiters()
      reads `state, `ready, `made, `closed, `waiting, `phase
    {
      && (phase.Monitoring? || phase.Stopped? ==> state.Ready? || state.Shutdown?)
      && (state.Ready? || state.Shutdown? ==> ready == None)
      && (ready.Some? ==> ready.value < made && ready.value !in closed)
      && (forall c :: c in closed ==> c < made)
      && (forall g :: g in waiting ==> waiting[g] in closed || ready == Some(waiting[g]))
    }

    /** Every transport but the installed one is closed, and that one, too, before
        the next is dialed; once shut down it is closed or draining. */
    ghost predicate Transports()
      reads `state, `transport, `created, `phase, `closedTransports, `draining
    {
      && (transport.Some? ==> transport.value < created)
      && (forall t :: 0 <= t < created && transport != Some(t) ==> t in closedTransports)
      && (forall t :: t in closedTransports ==> t < created)
      && (transport.Some? && (phase.Dialing? || phase.Exiting?) ==> transport.value in closedTransports)
      && (phase == Resetting(false) && transport.Some? ==> transport.value in closedTransports)
      && (phase.Closing? ==> phase.old_ == transport &&
                             (transport.Some? && !phase.closeTransport ==> transport.value in closedTransports))
      && (state.Shutdown? && transport.Some? ==> transport.value in closedTransports || transport.value in draining)
      && (state.Ready? || phase.Monitoring? ==> transport.Some?)
    }

    constructor (hasBalancer: bool)
      ensures Valid() && state.Idle? && phase == Resetting(false) && calls == [] && waiting == map[]
    {
      this.hasBalancer := hasBalancer;
      state, ready, down, transport, drained, made, created := Idle, None, false, None, false, 0, 0;
      phase, closed, waiting, calls, closedTransports, draining := Resetting(false), {}, map[], [], {}, {};
    }

    // ---- The driver ----

    method BeginReset() returns (goOn: bool)
      requires Valid() && phase.Resetting?
      modifies `state, `down, `calls, `phase
      ensures Valid() && goOn == !old(state).Shutdown?
      ensures if goOn then state.Connecting? && !down && phase == Closing(old(phase).closeTransport, transport)
              else state.Shutdown? && phase.Stopped?
      ensures calls == old(calls) + if goOn && old(down) then [Down] else []
    {
      if state.Shutdown? {
        phase := Stopped;
        return false;
      }
      CallDown();
      state := Connecting;
      phase := Closing(phase.closeTransport, transport);
      return true;
    }

    /** Tells the balancer, if it was told of the connection. */
    method CallDown()
      requires Alternating(calls) && down == (|calls| % 2 == 1)
      modifies `down, `calls
      ensures Alternating(calls) && !down && |calls| % 2 == 0
      ensures calls == old(calls) + if old(down) then [Down] else []
    {
      if down {
        calls := calls + [Down];
        down := false;
      }
    }

    /** Outside the lock the old transport is closed. */
    ghost method CloseOld()
      requires Valid() && phase.Closing?
      modifies `phase, `closedTransports
      ensures Valid() && phase.Dialing?
      ensures closedTransports == old(closedTransports) +
              if old(phase).closeTransport && transport.Some? then {transport.value} else {}
    {
      if phase.closeTransport && phase.old_.Some? {
        closedTransports := closedTransports + {phase.old_.value};
      }
      phase := Dialing;
    }

    method DialFailed(temporary: bool)
      requires Valid() && phase.Dialing?
      modifies `state, `ready, `closed, `phase
      ensures Valid() && state == if temporary && !old(state).Shutdown? then TransientFailure else old(state)
      ensures phase == if !temporary then Exiting else if state.Shutdown? then Stopped else Resetting(false)
      ensures ready == if temporary then None else old(ready)
      ensures closed == old(closed) + if temporary && old(ready).Some? then {old(ready).value} else {}
      ensures temporary ==> forall g :: g in waiting ==> waiting[g] in closed
    {
      if !temporary {
        phase := Exiting;
        return;
      }
      if state.Shutdown? {
        phase := Stopped;
        return;
      }
      state := TransientFailure;
      CloseReady();
      phase := Resetting(false);
    }

    /** The context ends while the driver waits to dial again. */
    ghost method BackoffCancelled()
      requires Valid() && phase == Resetting(false)
      modifies `phase
      ensures Valid() && phase.Exiting?
    {
      phase := Exiting;
    }

    method CloseReady()
      requires ready.Some? ==> ready.value !in closed
      modifies `ready, `closed
      ensures ready == None && closed == old(closed) + if old(ready).Some? then {old(ready).value} else {}
    {
      if ready.Some? {
        closed := closed + {ready.value};
        ready := None;
      }
    }

    /** A transport that comes up after the tear-down is closed and never installed.
        `up` is whether the balancer wants to hear when it goes down again. */
    method DialSucceeded(up: bool) returns (installed: bool)
      requires Valid() && phase.Dialing?
      modifies `state, `ready, `closed, `phase, `transport, `created, `closedTransports, `down, `calls
      ensures Valid() && created == old(created) + 1
      ensures installed == !old(state).Shutdown?
      ensures if installed then state.Ready? && transport == Some(old(created)) && phase.Monitoring?
              else state.Shutdown? && transport == old(transport) && old(created) in closedTransports && phase.Stopped?
      ensures calls == old(calls) + if installed && hasBalancer && up then [Up] else []
      ensures closedTransports == old(closedTransports) + if installed then {} else {old(created)}
      ensures closed == old(closed) + if old(ready).Some? then {old(ready).value} else {}
      ensures forall g :: g in waiting ==> waiting[g] in closed
    {
      var newTransport := created;
      created := created + 1;
      if state.Shutdown? {
        closedTransports := closedTransports + {newTransport};
        phase := Stopped;
        return false;
      }
      state := Ready;
      transport := Some(newTransport);
      CloseReady();
      if hasBalancer && up {
        down := true;
        calls := calls + [Up];
      }
      phase := Monitoring;
      return true;
    }

    /** The transport failed. */
    method TransportError() returns (goOn: bool)
      requires Valid() && phase.Monitoring?
      modifies `state, `phase
      ensures Valid() && goOn == !old(state).Shutdown?
      ensures if goOn then state.TransientFailure? && phase == Resetting(true) else state.Shutdown? && phase.Stopped?
    {
      if state.Shutdown? {
        phase := Stopped;
        return false;
      }
      state := TransientFailure;
      phase := Resetting(true);
      return true;
    }

    /** The driver stops watching, because of a tear-down or because another
        connection takes over; a failed transport is closed. */
    ghost method StopMonitoring(failed: bool)
      requires Valid() && phase.Monitoring?
      modifies `phase, `closedTransports
      ensures Valid() && phase.Stopped? && (state.Ready? || state.Shutdown?)
      ensures transport.Some? && closedTransports == old(closedTransports) + if failed then {transport.value} else {}
      ensures forall g :: g in waiting ==> waiting[g] in closed
    {
      if failed { closedTransports := closedTransports + {transport.value}; }
      phase := Stopped;
    }

    // ---- Callers ----

    /** One round of waiting for a transport. */
    method Wait(g: nat, balanced: bool, failfast: bool) returns (r: Waited)
      requires Valid() && (g in waiting ==> waiting[g] in closed)
      modifies `ready, `made, `waiting
      ensures Valid()
      ensures state.Shutdown? ==> r == if failfast || !balanced then TornDown else Closed
      ensures state.Ready? ==> transport.Some? && r == Transport(transport.value)
      ensures state.TransientFailure? && (failfast || balanced) ==> r == Unavailable
      ensures r.Waits? <==> !state.Shutdown? && !state.Ready? && !(state.TransientFailure? && (failfast || balanced))
      ensures r.Waits? ==> waiting == old(waiting)[g := r.ch] && ready == Some(r.ch)
      ensures r.Waits? ==> r.ch !in closed && r.ch == if old(ready).Some? then old(ready).value else old(made)
      ensures !r.Waits? ==> waiting == old(waiting) - {g}
    {
      waiting := waiting - {g};
      if state.Shutdown? {
        if failfast || !balanced { return TornDown; }
        return Closed;
      }
      if state.Ready? { return Transport(transport.value); }
      if state.TransientFailure? {
        if failfast || balanced { return Unavailable; }
      }
      if ready.None? {
        ready := Some(made);
        made := made + 1;
      }
      waiting := waiting[g := ready.value];
      return Waits(ready.value);
    }

    /** Tears the connection down, for good; any time, and any number of times. */
    method TearDown(drain: bool)
      requires Valid()
      modifies `state, `ready, `closed, `down, `calls, `drained, `draining, `closedTransports
      ensures Valid() && state.Shutdown? && !down
      ensures drained == if old(state).Shutdown? then old(drained) else drain
      ensures calls == old(calls) + if old(down) then [Down] else []
      ensures draining == old(draining) + if drain && transport.Some? then {transport.value} else {}
      ensures closedTransports == old(closedTransports) +
              if !old(state).Shutdown? && !drain && transport.Some? then {transport.value} else {}
      ensures forall g :: g in waiting ==> waiting[g] in closed
    {
      hide Alternating;
      CallDown();
      if drain && transport.Some? { draining := draining + {transport.value}; }
      if state.Shutdown? { return; }
      state := Shutdown;
      drained := drain;
      CloseReady();
      if transport.Some? && !drain { closedTransports := closedTransports + {transport.value}; }
    }

    /** The driver gives up after a permanent failure. */
    method Exit()
      requires Valid() && phase.Exiting?
      modifies this
      ensures Valid() && state.Shutdown? && phase.Stopped? && transport == old(transport)
      ensures calls == old(calls) && drained == (old(state).Shutdown? && old(drained))
      ensures closedTransports == old(closedTransports) && waiting == old(waiting)
      ensures forall g :: g in waiting ==> waiting[g] in closed
    {
      TearDown(false);
      phase := Stopped;
    }
  }
}
