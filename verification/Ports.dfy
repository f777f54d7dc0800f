/** kernel/usb/xhci/xhci.cpp: bringing up the ports of the root hub, one at a time from reset to
    address, driven by events (xHCI specification, section 4.3). */
module Ports {

  datatype Phase =
    | NotConnected | WaitingAddressed | ResettingPort | EnablingSlot | AddressingDevice | InitializingDevice
    | ConfiguringEndpoints | Configured

  const NUM_PORTS: nat := 256

  type PortId = p: nat | p < NUM_PORTS

  /** The phase of every port, and the port that is being brought up, 0 for none. */
  datatype Hub = Hub(phases: seq<Phase>, addressing: PortId) {
    ghost predicate Shaped() {
      |phases| == NUM_PORTS
    }
  }

  function Rank(p: Phase): nat {
    match p
    case NotConnected => 0
    case WaitingAddressed => 1
    case ResettingPort => 2
    case EnablingSlot => 3
    case AddressingDevice => 4
    case InitializingDevice => 5
    case ConfiguringEndpoints => 6
    case Configured => 7
  }

  /** The phases that only one port at a time may be in. */
  predicate Exclusive(p: Phase) {
    p.ResettingPort? || p.EnablingSlot? || p.AddressingDevice?
  }

  /** A port is between reset and address exactly when it is the one that is being brought up. */
  ghost predicate Inv(h: Hub) {
    && h.Shaped() && h.phases[0] == NotConnected
    && forall p: PortId :: Exclusive(h.phases[p]) <==> p == h.addressing != 0
  }

  /** Nobody waits while no port is being brought up. */
  ghost predicate NoneLeft(h: Hub) {
    h.Shaped() && (h.addressing == 0 ==> WaitingAddressed !in h.phases)
  }

  /** What makes a handler run, with what it reads from the controller: connected, enabled and reset
      are status bits of the port; found says whether the slot has a device, port which port that device
      says it is on; plugged are the ports that are connected. */
  datatype Event =
    | Configure(p: PortId, connected: bool)
    | StatusChange(p: PortId, connected: bool, enabled: bool, reset: bool)
    | SlotEnabled(found: bool)
    | Addressed(found: bool, port: PortId, plugged: set<PortId>)
    | EndpointsConfigured(found: bool, port: PortId)
    | Transfer(found: bool, handled: bool, initialized: bool, port: PortId, speedKnown: bool)

  function Reset(h: Hub, p: PortId, connected: bool): (r: Hub)
    requires |h.phases| == NUM_PORTS
    ensures |r.phases| == NUM_PORTS
  {
    if !connected then h
    else if h.addressing != 0 then h.(phases := h.phases[p := WaitingAddressed])
    else if h.phases[p] != NotConnected && h.phases[p] != WaitingAddressed then h
    else Hub(h.phases[p := ResettingPort], p)
  }

  function FirstWaiting(phases: seq<Phase>, i: nat): (k: nat)
    ensures k < |phases| ==> i <= k && phases[k] == WaitingAddressed
    ensures forall j :: i <= j < k && j < |phases| ==> phases[j] != WaitingAddressed
    ensures i <= |phases| ==> k <= |phases|
    decreases |phases| - i
  {
    if i >= |phases| then i else if phases[i] == WaitingAddressed then i else FirstWaiting(phases, i + 1)
  }

  /** The device of the addressed port has an address: the next port that waits may start. */
  function Passed(h: Hub, plugged: set<PortId>): (r: Hub)
    requires |h.phases| == NUM_PORTS
    ensures |r.phases| == NUM_PORTS
  {
    var free := h.(addressing := 0);
    var k := FirstWaiting(h.phases, 0);
    if k < NUM_PORTS then Reset(free, k, k in plugged) else free
  }

  function Next(h: Hub, e: Event): (r: Hub)
    requires |h.phases| == NUM_PORTS
    ensures |r.phases| == NUM_PORTS
  {
    match e
    case Configure(p, connected) =>
      if p != 0 && h.phases[p] == NotConnected then Reset(h, p, connected) else h
    case StatusChange(p, connected, enabled, reset) =>
      if p == 0 then h
      else if h.phases[p] == NotConnected then Reset(h, p, connected)
      else if h.phases[p] == ResettingPort && enabled && reset then h.(phases := h.phases[p := EnablingSlot])
      else h
    case SlotEnabled(found) =>
      if h.phases[h.addressing] == EnablingSlot && found then h.(phases := h.phases[h.addressing := AddressingDevice]) else h
    case Addressed(found, port, plugged) =>
      if !found || port != h.addressing || h.phases[port] != AddressingDevice then h
      else
        var r := Passed(h, plugged);
        r.(phases := r.phases[port := InitializingDevice])
    case EndpointsConfigured(found, port) =>
      if found && h.phases[port] == ConfiguringEndpoints then h.(phases := h.phases[port := Configured]) else h
    case Transfer(found, handled, initialized, port, speedKnown) =>
      if found && handled && initialized && h.phases[port] == InitializingDevice && speedKnown
      then h.(phases := h.phases[port := ConfiguringEndpoints]) else h
  }

  /** Mutual exclusion, and every port only moves forward. */
  lemma NextKeeps(h: Hub, e: Event)
    requires Inv(h)
    ensures Inv(Next(h, e))
    ensures forall p: PortId :: Rank(h.phases[p]) <= Rank(Next(h, e).phases[p])
  {
    hide FirstWaiting;
    if e.Addressed? && e.found && e.port == h.addressing && h.phases[e.port] == AddressingDevice {
      PassedIs(h, e.plugged);
    }
  }

  /** The scan starts the first port that waits, if that one is still plugged in, and no other. */
  lemma PassedIs(h: Hub, plugged: set<PortId>)
    requires h.Shaped()
    ensures var k := FirstWaiting(h.phases, 0);
            && k <= NUM_PORTS && (k < NUM_PORTS ==> h.phases[k] == WaitingAddressed)
            && Passed(h, plugged) ==
               if k < NUM_PORTS && k in plugged then Hub(h.phases[k := ResettingPort], k) else Hub(h.phases, 0)
  {
  }

  /** A port that came up and found the first port waiting for it unplugged. */
  ghost predicate Strands(h: Hub, e: Event) {
    && h.Shaped() && e.Addressed? && e.found && e.port == h.addressing && h.phases[e.port] == AddressingDevice
    && FirstWaiting(h.phases, 0) < NUM_PORTS && FirstWaiting(h.phases, 0) !in e.plugged
  }

  /** No port is left waiting for nobody, exactly unless the first port to wait was unplugged when its
      turn came: then the scan stops there, whoever else waits. */
  lemma NoneLeftExactly(h: Hub, e: Event)
    requires Inv(h) && NoneLeft(h)
    ensures NoneLeft(Next(h, e)) <==> !Strands(h, e)
  {
    hide FirstWaiting;
    if e.Addressed? && e.found && e.port == h.addressing && h.phases[e.port] == AddressingDevice {
      PassedIs(h, e.plugged);
      var k := FirstWaiting(h.phases, 0);
      FirstWaitingAll(h.phases);
      if k < NUM_PORTS && k !in e.plugged {
        assert Next(h, e).phases[k] == WaitingAddressed;
      }
    }
  }

  lemma FirstWaitingAll(phases: seq<Phase>)
    ensures FirstWaiting(phases, 0) >= |phases| <==> WaitingAddressed !in phases
  {
  }

  function Unplugged(): Hub {
    Hub(seq(NUM_PORTS, _ => NotConnected), 0)
  }

  function Run(events: seq<Event>): (h: Hub)
    ensures |h.phases| == NUM_PORTS
  {
    if events == [] then Unplugged() else Next(Run(events[..|events| - 1]), events[|events| - 1])
  }

  lemma {:induction false} RunKeeps(events: seq<Event>)
    ensures Inv(Run(events))
  {
    if events != [] {
      RunKeeps(events[..|events| - 1]);
      NextKeeps(Run(events[..|events| - 1]), events[|events| - 1]);
    }
  }

  /** Whatever the order of events, at most one port is between reset and address. */
  lemma OneAtATime(events: seq<Event>, p: PortId, q: PortId)
    requires Exclusive(Run(events).phases[p]) && Exclusive(Run(events).phases[q])
    ensures p == q == Run(events).addressing
  {
    hide Run;
    RunKeeps(events);
  }

  /** Along any run a port only moves forward. */
  lemma {:induction false} ForwardOnly(events: seq<Event>, n: nat, p: PortId)
    requires n <= |events|
    ensures Rank(Run(events[..n]).phases[p]) <= Rank(Run(events).phases[p])
    decreases |events|
  {
    if n == |events| {
      assert events[..n] == events;
    } else {
      var front := events[..|events| - 1];
      ForwardOnly(front, n, p);
      assert front[..n] == events[..n];
      RunKeeps(front);
      NextKeeps(Run(front), events[|events| - 1]);
    }
  }

  /** While ports that wait stay plugged in, none is left waiting with nobody being brought up. */
  lemma {:induction false} NoneLeftBehind(events: seq<Event>)
    requires forall n :: 0 <= n < |events| && events[n].Addressed? ==> StayPlugged(Run(events[..n]), events[n].plugged)
    ensures NoneLeft(Run(events))
  {
    if events != [] {
      var front, e := events[..|events| - 1], events[|events| - 1];
      forall n | 0 <= n < |front| && front[n].Addressed?
        ensures StayPlugged(Run(front[..n]), front[n].plugged)
      {
        assert front[..n] == events[..n];
      }
      NoneLeftBehind(front);
      RunKeeps(front);
      NoneLeftExactly(Run(front), e);
      assert e.Addressed? ==> StayPlugged(Run(front), e.plugged);
      NextKeeps(Run(front), e);
    }
  }

  ghost predicate StayPlugged(h: Hub, plugged: set<PortId>) {
    forall p: PortId :: p < |h.phases| && h.phases[p] == WaitingAddressed ==> p in plugged
  }

  /** The source's handlers over its two global variables. */
  class PortConfig {
    const phases: array<Phase>
    var addressingPort: PortId

    ghost predicate Valid()
      reads this, phases
    {
      phases.Length == NUM_PORTS && Inv(State())
    }

    ghost function State(): Hub
      reads this, phases
    {
      Hub(phases[..], addressingPort)
    }

    constructor ()
      ensures Valid() && State() == Unplugged() && fresh(phases)
    {
      phases := new Phase[NUM_PORTS](_ => NotConnected);
      addressingPort := 0;
      new;
      assert phases[..] == Unplugged().phases;
    }

    /** false stands for the error of a wrong phase. */
    method ResetPort(port: PortId, connected: bool) returns (ok: bool)
      requires phases.Length == NUM_PORTS && port != 0
      modifies this, phases
      ensures |old(phases[..])| == NUM_PORTS && State() == Reset(old(State()), port, connected)
      ensures ok == (!connected || old(addressingPort) != 0 || old(phases[port]) == NotConnected || old(phases[port]) == WaitingAddressed)
    {
      if !connected {
        return true;
      }
      if addressingPort != 0 {
        phases[port] := WaitingAddressed;
      } else {
        var portPhase := phases[port];
        if portPhase != NotConnected && portPhase != WaitingAddressed {
          return false;
        }
        addressingPort := port;
        phases[port] := ResettingPort;
      }
      return true;
    }

    method ConfigurePort(port: PortId, connected: bool) returns (ok: bool)
      requires Valid() && port != 0
      modifies this, phases
      ensures |old(phases[..])| == NUM_PORTS && Valid() && State() == Next(old(State()), Configure(port, connected)) && ok
    {
      NextKeeps(State(), Configure(port, connected));
      ok := true;
      if phases[port] == NotConnected {
        ok := ResetPort(port, connected);
      }
    }

    method OnPortStatusChange(port: PortId, connected: bool, enabled: bool, reset: bool) returns (ok: bool)
      requires Valid() && port != 0
      modifies this, phases
      ensures |old(phases[..])| == NUM_PORTS && Valid()
      ensures State() == Next(old(State()), StatusChange(port, connected, enabled, reset))
      ensures ok == (old(phases[port]) == NotConnected || old(phases[port]) == ResettingPort)
    {
      NextKeeps(State(), StatusChange(port, connected, enabled, reset));
      match phases[port]
      case NotConnected => ok := ResetPort(port, connected);
      case ResettingPort =>
        if enabled && reset {
          phases[port] := EnablingSlot;
        }
        ok := true;
      case _ => ok := false;
    }

    method OnSlotEnabled(found: bool) returns (ok: bool)
      requires Valid()
      modifies this, phases
      ensures |old(phases[..])| == NUM_PORTS && Valid() && State() == Next(old(State()), SlotEnabled(found))
      ensures ok == (found && old(phases[addressingPort]) == EnablingSlot)
    {
      NextKeeps(State(), SlotEnabled(found));
      if phases[addressingPort] != EnablingSlot || !found {
        return false;
      }
      phases[addressingPort] := AddressingDevice;
      return true;
    }

    method OnAddressed(found: bool, port: PortId, plugged: set<PortId>) returns (ok: bool)
      requires Valid()
      modifies this, phases
      ensures |old(phases[..])| == NUM_PORTS && Valid() && State() == Next(old(State()), Addressed(found, port, plugged))
      ensures ok == (found && port == old(addressingPort) && old(phases[port]) == AddressingDevice)
    {
      hide FirstWaiting, Inv;
      ghost var h := State();
      NextKeeps(h, Addressed(found, port, plugged));
      PassedIs(h, plugged);
      FirstNotZero(h);
      if !found || port != addressingPort || phases[port] != AddressingDevice {
        return false;
      }
      addressingPort := 0;
      var i := 0;
      while i < phases.Length
        invariant i <= NUM_PORTS && State() == h.(addressing := 0)
        invariant FirstWaiting(h.phases, i) == FirstWaiting(h.phases, 0)
      {
        WaitingStep(h.phases, i);
        if phases[i] == WaitingAddressed {
          var reset := ResetPort(i, i in plugged);
          break;
        }
        i := i + 1;
      }
      if i == phases.Length {
        WaitingEnd(h.phases, i);
      }
      phases[port] := InitializingDevice;
      return true;
    }

    method OnEndpointsConfigured(found: bool, port: PortId) returns (ok: bool)
      requires Valid()
      modifies this, phases
      ensures |old(phases[..])| == NUM_PORTS && Valid() && State() == Next(old(State()), EndpointsConfigured(found, port))
      ensures ok == (found && old(phases[port]) == ConfiguringEndpoints)
    {
      NextKeeps(State(), EndpointsConfigured(found, port));
      if !found || phases[port] != ConfiguringEndpoints {
        return false;
      }
      phases[port] := Configured;
      return true;
    }

    method OnTransfer(found: bool, handled: bool, initialized: bool, port: PortId, speedKnown: bool) returns (ok: bool)
      requires Valid()
      modifies this, phases
      ensures |old(phases[..])| == NUM_PORTS && Valid()
      ensures State() == Next(old(State()), Transfer(found, handled, initialized, port, speedKnown))
    {
      NextKeeps(State(), Transfer(found, handled, initialized, port, speedKnown));
      if !found || !handled {
        return false;
      }
      if initialized && phases[port] == InitializingDevice {
        if !speedKnown {
          return false;
        }
        phases[port] := ConfiguringEndpoints;
      }
      return true;
    }
  }

  lemma FirstNotZero(h: Hub)
    requires Inv(h)
    ensures FirstWaiting(h.phases, 0) != 0
  {
  }

  lemma WaitingStep(phases: seq<Phase>, i: nat)
    requires i < |phases|
    ensures FirstWaiting(phases, i) == if phases[i] == WaitingAddressed then i else FirstWaiting(phases, i + 1)
  {
  }

  lemma WaitingEnd(phases: seq<Phase>, i: nat)
    requires i >= |phases|
    ensures FirstWaiting(phases, i) == i
  {
  }
}
