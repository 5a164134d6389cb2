/**
 Connectivity preference and failover: the sync cycle of main/app/sync_task.cpp with
 main/services/connectivity/connectivity_manager.cpp, interleaved with the failover task of
 main/app/failover_task.cpp and its length-one overwrite queue.

 The two tasks are a transition system: an event is one atomic step of one task, and outcomes of
 network operations are part of the event.
 */
module Failover {
  import opened Prelude

  datatype Comm = Sim4G | Dcom

  function OtherComm(c: Comm): Comm {
    if c.Sim4G? then Dcom else Sim4G
  }

  datatype Request = Request(from: Comm, to: Comm)

  /** Where the sync task is in its cycle. */
  datatype SyncPc =
    | Start                           // warmup is about to read the preference
    | PowerOn(m: Comm, last: bool)    // tryModule(m); last: the second module
    | Handshake(m: Comm, last: bool)  // the power line is up
    | Check(m: Comm, last: bool)      // checkInternet
    | Save(m: Comm)                   // active := m, store the preference
    | Drain                           // sending the queues
    | PowerDown
    | WarmupFailed                    // about to request a failover
    | Done

  datatype State = State(
    pc: SyncPc,
    pref: Comm,                  // NVS: last successful module
    active: Option<Comm>,
    powered: set<Comm>,
    pending: Option<Request>,    // the failover queue
    inHand: Option<Request>,     // received by the failover task, not yet stored
    startPref: Comm,             // preference when the cycle began
    sendFailed: bool)            // some send of this cycle was given up

  datatype Event =
    | Sync(ok: bool)     // the sync task's next step; ok is the outcome where there is one
    | Send(sent: bool)   // one item of the drain
    | Take               // the failover task receives
    | Apply              // ... and stores the preference

  /** xQueueOverwrite on the length-one queue. */
  function Enqueue(s: State, from: Comm): State {
    s.(pending := Some(Request(from, OtherComm(from))))
  }

  /** After a failed attempt: the other module, or give up. */
  function NextAttempt(s: State, m: Comm, last: bool): State {
    s.(powered := s.powered - {m}, active := if last then None else s.active,
       pc := if last then WarmupFailed else PowerOn(OtherComm(m), true))
  }

  function SyncStep(s: State, ok: bool): Option<State> {
    match s.pc
    case Start => Some(s.(pc := PowerOn(s.pref, false), startPref := s.pref, sendFailed := false))
    case PowerOn(m, last) => Some(s.(pc := Handshake(m, last), powered := s.powered + {m}))
    case Handshake(m, last) => Some(if ok then s.(pc := Check(m, last)) else NextAttempt(s, m, last))
    case Check(m, last) => Some(if ok then s.(pc := Save(m)) else NextAttempt(s, m, last))
    case Save(m) => Some(s.(pc := Drain, active := Some(m), pref := m))
    case Drain => Some(s.(pc := PowerDown))
    case PowerDown =>
      Some(s.(pc := Done, powered := if s.active.Some? then s.powered - {s.active.value} else s.powered))
    case WarmupFailed => Some(Enqueue(s, s.pref).(pc := Done))
    case Done => None
  }

  function Next(s: State, e: Event): Option<State> {
    match e
    case Sync(ok) => SyncStep(s, ok)
    case Send(sent) =>
      if s.pc != Drain || s.active.None? then None
      else if sent then Some(s)
      else Some(Enqueue(s, s.active.value).(sendFailed := true))
    case Take =>
      if s.inHand.Some? || s.pending.None? then None
      else Some(s.(inHand := s.pending, pending := None))
    case Apply =>
      if s.inHand.None? then None
      else Some(s.(pref := s.inHand.value.to, inHand := None))
  }

  ghost predicate Execution(states: seq<State>, events: seq<Event>) {
    && |states| == |events| + 1
    && forall i :: 0 <= i < |events| ==> Next(states[i], events[i]) == Some(states[i + 1])
  }

  function Last(states: seq<State>): State
    requires states != []
  {
    states[|states| - 1]
  }

  /** No failover request is waiting or half done. */
  predicate Drained(s: State) {
    s.pending.None? && s.inHand.None?
  }

  /** After a reset only the stored preference is left: both modules off, no request, sync not begun. */
  function BootState(pref: Comm): State {
    State(Start, pref, None, {}, None, None, pref, false)
  }

  /** An execution of one boot.  It may have any length, since deep sleep can end it at any step. */
  ghost predicate BootExecution(pref: Comm, states: seq<State>, events: seq<Event>) {
    Execution(states, events) && states[0] == BootState(pref)
  }

  /** The cycle is over and every failover request has been carried out. */
  predicate Settled(s: State) {
    s.pc == Done && Drained(s)
  }

  /** The preference the cycle should leave behind. */
  predicate PreferenceCorrect(s: State) {
    match s.active
    case None => s.pref == OtherComm(s.startPref)
    case Some(m) => s.pref == if s.sendFailed then OtherComm(m) else m
  }

  // ---------------------------------------------------------------------------------------------
  // The invariant
  // ---------------------------------------------------------------------------------------------

  predicate Untouched(s: State) {
    Drained(s) && s.pref == s.startPref
  }

  /** Requests in flight all ask for module to; once none is left, that module is preferred. */
  predicate HeadingTo(s: State, to: Comm) {
    && (s.pending.Some? ==> s.pending.value.to == to)
    && (s.inHand.Some? ==> s.inHand.value.to == to)
    && (Drained(s) ==> s.pref == to)
  }

  predicate Online(s: State) {
    s.active.Some? && if s.sendFailed then HeadingTo(s, OtherComm(s.active.value))
                      else Drained(s) && s.pref == s.active.value
  }

  predicate Inv(s: State) {
    match s.pc
    case Start => Drained(s) && s.powered == {}
    case PowerOn(m, last) => Untouched(s) && s.powered == {}
    case Handshake(m, last) => Untouched(s) && s.powered == {m}
    case Check(m, last) => Untouched(s) && s.powered == {m}
    case Save(m) => Untouched(s) && s.powered == {m} && !s.sendFailed
    case Drain => Online(s) && s.powered == {s.active.value}
    case PowerDown => Online(s) && s.powered == {s.active.value}
    case WarmupFailed => Untouched(s) && s.powered == {} && s.active.None?
    case Done => s.powered == {} && if s.active.Some? then Online(s) else HeadingTo(s, OtherComm(s.startPref))
  }

  /** While warming up nothing has been sent yet. */
  predicate NothingSent(s: State) {
    s.pc.PowerOn? || s.pc.Handshake? || s.pc.Check? ==> !s.sendFailed
  }

  lemma {:induction false} InvStep(s: State, e: Event, t: State)
    requires Inv(s) && NothingSent(s) && Next(s, e) == Some(t)
    ensures Inv(t) && NothingSent(t)
  {
  }

  lemma {:induction false} InvRun(states: seq<State>, events: seq<Event>, i: nat)
    requires Execution(states, events) && states[0] == BootState(states[0].pref)
    requires i < |states|
    ensures Inv(states[i]) && NothingSent(states[i])
  {
    if i > 0 {
      InvRun(states, events, i - 1);
      InvStep(states[i - 1], events[i - 1], states[i]);
    }
  }

  /**
   In every boot, under every interleaving and every outcome: at most one module is powered at any
   moment and none after the cycle, and once the requests are carried out the preference is right.
   */
  lemma {:induction false} CycleCorrect(pref: Comm, states: seq<State>, events: seq<Event>)
    requires BootExecution(pref, states, events)
    ensures forall i :: 0 <= i < |states| ==> |states[i].powered| <= 1
    ensures forall i :: 0 <= i < |states| && states[i].pc == Done ==> states[i].powered == {}
    ensures forall i :: 0 <= i < |states| && Settled(states[i]) ==> PreferenceCorrect(states[i])
  {
    forall i | 0 <= i < |states|
      ensures |states[i].powered| <= 1
      ensures states[i].pc == Done ==> states[i].powered == {}
      ensures Settled(states[i]) ==> PreferenceCorrect(states[i])
    {
      InvRun(states, events, i);
      OnePowered(states[i]);
    }
  }

  lemma {:induction false} OnePowered(s: State)
    requires Inv(s)
    ensures |s.powered| <= 1
  {
  }

  // ---------------------------------------------------------------------------------------------
  // Cut off by deep sleep
  // ---------------------------------------------------------------------------------------------

  /** The preference the cycle calls for as far as it has come, finished or not. */
  function Owed(s: State): Comm {
    match s.pc
    case Start => s.pref
    case PowerOn(_, _) => s.startPref
    case Handshake(_, _) => s.startPref
    case Check(_, _) => s.startPref
    case Save(m) => m
    case WarmupFailed => OtherComm(s.startPref)
    case _ =>
      match s.active
      case None => OtherComm(s.startPref)
      case Some(m) => if s.sendFailed then OtherComm(m) else m
  }

  /** The event puts a failover request into the queue. */
  predicate MakesRequest(s: State, e: Event) {
    e == Send(false) || (e.Sync? && s.pc == WarmupFailed)
  }

  /** A request was made in one of the first n steps. */
  ghost predicate Requested(states: seq<State>, events: seq<Event>, n: nat)
    requires n <= |events| < |states|
  {
    exists j :: 0 <= j < n && MakesRequest(states[j], events[j])
  }

  /** The failover task stored a preference in one of the first n steps. */
  ghost predicate Applied(events: seq<Event>, n: nat)
    requires n <= |events|
  {
    exists j :: 0 <= j < n && events[j] == Apply
  }

  /** What the cycle found out, the sync task has already acted on. */
  predicate Decided(s: State) {
    !s.pc.WarmupFailed? && (s.pc.Save? ==> s.pc.m == s.pref)
  }

  /** The invariant with what has happened so far. */
  predicate InvSoFar(s: State, requested: bool, applied: bool) {
    && Inv(s) && NothingSent(s)
    && (applied ==> requested)
    && (!requested ==> Drained(s) && !s.sendFailed)
    && (requested ==> s.pc in {Drain, PowerDown, Done})
    && (requested ==>
          match s.active
          case Some(m) => s.sendFailed && s.pref == if applied then OtherComm(m) else m
          case None => s.pc == Done && s.pref == if applied then OtherComm(s.startPref) else s.startPref)
    && (s.pc == Done ==> requested || s.active.Some?)
    && (requested && !applied ==> !Drained(s))
  }

  lemma {:induction false} SoFarStep(s: State, e: Event, t: State, requested: bool, applied: bool)
    requires InvSoFar(s, requested, applied) && Next(s, e) == Some(t)
    ensures InvSoFar(t, requested || MakesRequest(s, e), applied || e == Apply)
  {
    InvStep(s, e, t);
  }

  lemma {:induction false} SoFarRun(pref: Comm, states: seq<State>, events: seq<Event>, n: nat)
    requires BootExecution(pref, states, events) && n <= |events|
    ensures InvSoFar(states[n], Requested(states, events, n), Applied(events, n))
  {
    if n > 0 {
      SoFarRun(pref, states, events, n - 1);
      SoFarStep(states[n - 1], events[n - 1], states[n],
                Requested(states, events, n - 1), Applied(events, n - 1));
      OneStepMore(states, events, n);
    }
  }

  lemma {:induction false} OneStepMore(states: seq<State>, events: seq<Event>, n: nat)
    requires 0 < n <= |events| < |states|
    ensures Requested(states, events, n)
            <==> Requested(states, events, n - 1) || MakesRequest(states[n - 1], events[n - 1])
    ensures Applied(events, n) <==> Applied(events, n - 1) || events[n - 1] == Apply
  {
  }

  /**
   Deep sleep after any step of any boot: the preference that the next boot finds is the one this cycle
   called for if and only if the sync task had acted on what it found out, and the failover it requested,
   if any, had been carried out by then.
   */
  lemma {:induction false} CutExact(pref: Comm, states: seq<State>, events: seq<Event>, n: nat)
    requires BootExecution(pref, states, events) && n <= |events|
    ensures states[n].pref == Owed(states[n])
            <==> Decided(states[n]) && (Requested(states, events, n) ==> Applied(events, n))
  {
    SoFarRun(pref, states, events, n);
  }

  lemma {:induction false} Extend(states: seq<State>, events: seq<Event>, e: Event)
    returns (states': seq<State>, events': seq<Event>)
    requires Execution(states, events) && Next(Last(states), e).Some?
    ensures Execution(states', events') && states'[0] == states[0]
    ensures Last(states') == Next(Last(states), e).value
  {
    states', events' := states + [Next(Last(states), e).value], events + [e];
  }

  /**
   Neither module comes online; the sync task requests a failover, lowers its busy bit and waits, so the
   chip may sleep before the failover task runs.  The next boot again starts with the module that failed.
   */
  lemma {:induction false} LostRequest(m: Comm) returns (states: seq<State>, events: seq<Event>)
    ensures BootExecution(m, states, events)
    ensures Last(states).pc == Done && Last(states).pending == Some(Request(m, OtherComm(m)))
    ensures Last(states).pref == m && Owed(Last(states)) == OtherComm(m)
  {
    states, events := [BootState(m)], [];
    states, events := Extend(states, events, Sync(true));    // warmup reads the preference
    states, events := Extend(states, events, Sync(true));    // power on
    states, events := Extend(states, events, Sync(false));   // no handshake
    states, events := Extend(states, events, Sync(true));    // power on the other
    states, events := Extend(states, events, Sync(false));   // no handshake
    states, events := Extend(states, events, Sync(true));    // request
  }

  // ---------------------------------------------------------------------------------------------
  // Boot after boot
  // ---------------------------------------------------------------------------------------------

  /** What one boot did before it was cut off. */
  datatype Boot = Boot(states: seq<State>, events: seq<Event>)

  /** The preference stored when boot k starts. */
  function StoredBefore(first: Comm, boots: seq<Boot>, k: nat): Comm
    requires k <= |boots|
  {
    if k == 0 || boots[k - 1].states == [] then first else Last(boots[k - 1].states).pref
  }

  /** Each boot starts with the preference the one before left stored. */
  ghost predicate BootChain(first: Comm, boots: seq<Boot>) {
    forall k :: 0 <= k < |boots| ==> BootExecution(StoredBefore(first, boots, k), boots[k].states, boots[k].events)
  }

  /** Nothing was lost when the boot was cut off. */
  ghost predicate NothingLost(b: Boot)
    requires Execution(b.states, b.events)
  {
    Decided(Last(b.states)) && (Requested(b.states, b.events, |b.events|) ==> Applied(b.events, |b.events|))
  }

  /**
   Over any chain of boots, each cut off anywhere: a boot starts with the module the one before it called
   for if and only if that one lost nothing; and no two modules are ever powered at once.
   */
  lemma {:induction false} ChainExact(first: Comm, boots: seq<Boot>, k: nat)
    requires BootChain(first, boots) && k < |boots|
    ensures Execution(boots[k].states, boots[k].events)
    ensures StoredBefore(first, boots, k + 1) == Owed(Last(boots[k].states)) <==> NothingLost(boots[k])
    ensures k + 1 < |boots| ==> boots[k + 1].states[0] == BootState(StoredBefore(first, boots, k + 1))
    ensures forall i :: 0 <= i < |boots[k].states| ==> |boots[k].states[i].powered| <= 1
  {
    var b, pref := boots[k], StoredBefore(first, boots, k);
    assert BootExecution(pref, b.states, b.events);
    CutExact(pref, b.states, b.events, |b.events|);
    CycleCorrect(pref, b.states, b.events);
    if k + 1 < |boots| {
      assert BootExecution(StoredBefore(first, boots, k + 1), boots[k + 1].states, boots[k + 1].events);
    }
  }

  // ---------------------------------------------------------------------------------------------
  // The code
  // ---------------------------------------------------------------------------------------------

  /** The device's fields, with the history of the transition system alongside. */
  class Device {
    var pref: Comm
    var active: Option<Comm>
    var powered: set<Comm>
    var pending: Option<Request>
    var inHand: Option<Request>
    ghost var states: seq<State>
    ghost var events: seq<Event>

    constructor (pref: Comm)
      ensures Booted() && this.pref == pref
    {
      this.pref, active, powered, pending, inHand := pref, None, {}, None, None;
      states, events := [BootState(pref)], [];
    }

    /** The state after a reset: app_main creates an empty failover queue. */
    ghost predicate Booted()
      reads this
    {
      Tracks() && BootExecution(pref, states, events) && events == []
    }

    ghost predicate Tracks()
      reads this
    {
      && Execution(states, events)
      && var s := Last(states);
         s.pref == pref && s.active == active && s.powered == powered
         && s.pending == pending && s.inHand == inHand
    }

    ghost function Pc(): SyncPc
      requires Tracks()
      reads this
    {
      Last(states).pc
    }

    ghost method Record(e: Event)
      requires Execution(states, events) && Next(Last(states), e).Some?
      modifies this`states, this`events
      ensures Execution(states, events) && states[0] == old(states[0])
      ensures Last(states) == Next(Last(old(states)), e).value
    {
      states, events := Extend(states, events, e);
    }

    /** The failover task may run any number of steps here. */
    method FailoverRuns()
      requires Tracks()
      modifies this
      ensures Tracks() && states[0] == old(states[0])
      ensures Pc() == old(Pc()) && active == old(active) && powered == old(powered)
      ensures Last(states).startPref == old(Last(states).startPref)
      ensures Last(states).sendFailed == old(Last(states).sendFailed)
    {
      var rounds: nat :| rounds >= 0;
      for i := 0 to rounds
        invariant Tracks() && states[0] == old(states[0])
        invariant Pc() == old(Pc()) && active == old(active) && powered == old(powered)
        invariant Last(states).startPref == old(Last(states).startPref)
        invariant Last(states).sendFailed == old(Last(states).sendFailed)
      {
        if inHand.None? && pending.Some? {
          inHand, pending := pending, None;
          Record(Take);
        }
        var preempted: bool := *;
        if inHand.Some? && !preempted {
          pref, inHand := inHand.value.to, None;
          Record(Apply);
        }
      }
    }

    /** ConnectivityManager::tryModule */
    method TryModule(m: Comm, last: bool) returns (ok: bool)
      requires Tracks() && Pc() == PowerOn(m, last)
      modifies this
      ensures Tracks() && states[0] == old(states[0])
      ensures ok ==> Pc() == Save(m)
      ensures !ok ==> Pc() == (if last then WarmupFailed else PowerOn(OtherComm(m), true))
    {
      powered := powered + {m};
      Record(Sync(true));
      FailoverRuns();
      var handshake: bool := *;
      if !handshake {
        powered := powered - {m};
        if last {
          active := None;
        }
        Record(Sync(false));
        return false;
      }
      Record(Sync(true));
      FailoverRuns();
      ok := *;
      if !ok {
        powered := powered - {m};
        if last {
          active := None;
        }
        Record(Sync(false));
      } else {
        Record(Sync(true));
      }
    }

    /** ConnectivityManager::warmup: the preferred module first, then the other. */
    method Warmup() returns (ok: bool)
      requires Tracks() && Pc() == Start
      modifies this
      ensures Tracks() && states[0] == old(states[0])
      ensures ok ==> Pc() == Drain && active.Some?
      ensures !ok ==> Pc() == WarmupFailed
    {
      var first := pref;
      var second := OtherComm(first);
      Record(Sync(true));
      FailoverRuns();
      ok := TryModule(first, false);
      if !ok {
        FailoverRuns();
        ok := TryModule(second, true);
        if !ok {
          return false;
        }
        FailoverRuns();
        active, pref := Some(second), second;
      } else {
        FailoverRuns();
        active, pref := Some(first), first;
      }
      Record(Sync(true));
    }

    /** The sends of the drain, each with any outcome; a given-up send requests a failover. */
    method DrainQueues(items: nat)
      requires Tracks() && Pc() == Drain && active.Some?
      modifies this
      ensures Tracks() && states[0] == old(states[0])
      ensures Pc() == Drain && active == old(active)
    {
      for i := 0 to items
        invariant Tracks() && states[0] == old(states[0])
        invariant Pc() == Drain && active == old(active)
      {
        FailoverRuns();
        var sent: bool := *;
        if !sent {
          pending := Some(Request(active.value, OtherComm(active.value)));
        }
        Record(Send(sent));
      }
    }

    /** Online: drain the queues and power off. */
    method DrainAndPowerOff(items: nat)
      requires Tracks() && Pc() == Drain && active.Some?
      modifies this
      ensures Tracks() && states[0] == old(states[0]) && Pc() == Done
    {
      DrainQueues(items);
      FailoverRuns();
      Record(Sync(true));
      powered := powered - {active.value};
      Record(Sync(true));
    }

    /** No module came online: request a failover from the preferred one. */
    method RequestFailover()
      requires Tracks() && Pc() == WarmupFailed
      modifies this
      ensures Tracks() && states[0] == old(states[0]) && Pc() == Done
    {
      FailoverRuns();
      pending := Some(Request(pref, OtherComm(pref)));
      Record(Sync(true));
    }

    /**
     The one sync cycle of a boot, with the failover task running anywhere inside and after it.  Its
     history is an execution of the transition system, so CutExact holds after every step of it; at the
     end the stored preference is right exactly if the requested failover has been carried out.
     */
    method SyncCycle(items: nat)
      requires Booted()
      modifies this
      ensures Tracks() && BootExecution(old(pref), states, events) && Pc() == Done && powered == {}
      ensures pref == Owed(Last(states)) <==> (Requested(states, events, |events|) ==> Applied(events, |events|))
      ensures Drained(Last(states)) ==> PreferenceCorrect(Last(states))
    {
      var online := Warmup();
      if online {
        DrainAndPowerOff(items);
      } else {
        RequestFailover();
      }
      FailoverRuns();
      CycleCorrect(old(pref), states, events);
      CutExact(old(pref), states, events, |events|);
    }
  }
}
