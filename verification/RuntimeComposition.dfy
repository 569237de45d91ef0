/**
The runtime composition coordinator: it owns at most one ingest host and the provisioned lease the host
runs on, both of which may refuse to be disposed and then have to be held for a later try. Starting,
stopping and disposing may fail in any way an oracle chooses. Requests are serialized by the gate.
 */
module RuntimeComposition {
  import opened Common

  datatype Kind = BattleEvents | FleetRuntime

  datatype CompositionState = Dormant | Starting | Running | Stopping | Failed | Disposed

  /** How a call into the factory, a host or a lease ends. */
  datatype Reply = Fine | Wrong | Throws | Canceled

  datatype Result = Done | Refused | Threw | WasCanceled

  // Where the coordinator itself finds the caller's token canceled: waiting for the gate, just before it
  // stops anything, or not at all. Later cancellations reach it as replies of the calls it makes.
  datatype Token = SeenWaiting | SeenBeforeStop | Unseen

  // --------------------------------------------------------------------- log

  /** What has happened to hosts and leases, in order. */
  datatype Event =
    | Opened(lease: nat)
    | Created(host: nat, over: nat)
    | HostGone(host: nat)
    | LeaseGone(lease: nat)

  function LiveAfter(live: map<nat, nat>, e: Event): map<nat, nat> {
    match e
    case Created(h, l) => live[h := l]
    case HostGone(h) => live - {h}
    case _ => live
  }

  function OpenAfter(open: set<nat>, e: Event): set<nat> {
    match e
    case Opened(l) => open + {l}
    case LeaseGone(l) => open - {l}
    case _ => open
  }

  /** Hosts created and not yet disposed, with the lease each runs on. */
  function Live(log: seq<Event>): map<nat, nat> {
    if log == [] then map[] else LiveAfter(Live(log[..|log| - 1]), log[|log| - 1])
  }

  /** Leases opened and not yet disposed. */
  function Open(log: seq<Event>): set<nat> {
    if log == [] then {} else OpenAfter(Open(log[..|log| - 1]), log[|log| - 1])
  }

  predicate EventIsSafe(before: seq<Event>, e: Event) {
    match e
    case Opened(l) => Opened(l) !in before
    case Created(h, l) => Live(before) == map[] && l in Open(before) && forall x :: x in before && x.Created? ==> x.host != h
    case HostGone(h) => h in Live(before)
    case LeaseGone(l) => l in Open(before) && forall h :: h in Live(before) ==> Live(before)[h] != l
  }

  predicate LogIsSafe(log: seq<Event>) {
    forall i :: 0 <= i < |log| ==> EventIsSafe(log[..i], log[i])
  }

  lemma LogGrows(log: seq<Event>, e: Event)
    requires LogIsSafe(log) && EventIsSafe(log, e)
    ensures LogIsSafe(log + [e])
  {
    hide EventIsSafe;
    var all := log + [e];
    forall i | 0 <= i < |all|
      ensures EventIsSafe(all[..i], all[i])
    {
      assert all[..i] == log[..i];
      if i == |log| {
        assert log[..i] == log;
      }
    }
  }

  /** At no point is more than one host live, and a live host's lease is open. */
  lemma {:induction false} AtMostOneLiveHost(log: seq<Event>, i: nat)
    requires LogIsSafe(log) && i <= |log|
    ensures forall g, h :: g in Live(log[..i]) && h in Live(log[..i]) ==> g == h
    ensures forall h :: h in Live(log[..i]) ==> Live(log[..i])[h] in Open(log[..i])
  {
    if i > 0 {
      AtMostOneLiveHost(log, i - 1);
      assert log[..i][..i - 1] == log[..i - 1];
      assert EventIsSafe(log[..i - 1], log[i - 1]);
    }
  }

  /** A lease is never open again once it was opened and is not open: every opened lease is open or was disposed. */
  lemma {:induction false} OpenedIsOpenOrDisposed(log: seq<Event>, i: nat, l: nat)
    requires LogIsSafe(log) && i <= |log| && Opened(l) in log[..i]
    ensures l in Open(log[..i]) <==> LeaseGone(l) !in log[..i]
  {
    var before, e := log[..i - 1], log[i - 1];
    assert log[..i][..i - 1] == before;
    assert log[..i] == before + [e];
    assert EventIsSafe(before, e);
    if Opened(l) in before {
      OpenedIsOpenOrDisposed(log, i - 1, l);
    } else {
      NothingBeforeOpening(log, i - 1, l);
    }
  }

  lemma {:induction false} NothingBeforeOpening(log: seq<Event>, i: nat, l: nat)
    requires LogIsSafe(log) && i <= |log| && Opened(l) !in log[..i]
    ensures l !in Open(log[..i]) && LeaseGone(l) !in log[..i]
  {
    if i > 0 {
      var before, e := log[..i - 1], log[i - 1];
      assert log[..i][..i - 1] == before && log[..i] == before + [e];
      assert EventIsSafe(before, e);
      NothingBeforeOpening(log, i - 1, l);
    }
  }

  /** From the moment a lease is disposed no host on it is live, then or ever after. */
  lemma {:induction false} DisposedLeaseHasNoHost(log: seq<Event>, i: nat, j: nat)
    requires LogIsSafe(log) && i < j <= |log| && log[i].LeaseGone?
    ensures log[i].lease !in Open(log[..j])
    ensures forall h :: h in Live(log[..j]) ==> Live(log[..j])[h] != log[i].lease
  {
    var l := log[i].lease;
    var before, e := log[..j - 1], log[j - 1];
    assert log[..j][..j - 1] == before;
    assert EventIsSafe(before, e);
    assert EventIsSafe(log[..i], log[i]);
    OpenedEarlier(log, i, l);
    var k :| 0 <= k < i && log[..i][k] == Opened(l);
    assert before[k] == Opened(l);
    assert e != Opened(l);
    if i < j - 1 {
      DisposedLeaseHasNoHost(log, i, j - 1);
    }
  }

  lemma OpenedEarlier(log: seq<Event>, i: nat, l: nat)
    requires LogIsSafe(log) && i <= |log| && l in Open(log[..i])
    ensures Opened(l) in log[..i]
  {
    if Opened(l) !in log[..i] {
      NothingBeforeOpening(log, i, l);
    }
  }

  lemma EventEffect(log: seq<Event>, e: Event)
    ensures Live(log + [e]) == LiveAfter(Live(log), e) && Open(log + [e]) == OpenAfter(Open(log), e)
  {
    assert (log + [e])[..|log|] == log;
  }

  // -------------------------------------------------------------- coordinator

  class Coordinator {
    var host: Option<nat>
    var provisioning: Option<nat>
    var acceptedKinds: set<Kind>
    var state: CompositionState
    var disposeRequested: bool
    var clock: nat
    var nextLease: nat
    var nextHost: nat
    const replies: nat -> Reply
    const sinks: nat -> set<Kind>
    ghost var log: seq<Event>

    ghost predicate FaultFree() { forall n: nat :: replies(n) == Fine }

    /** Between requests the coordinator holds exactly what is live and open, and its state tells the truth. */
    ghost predicate Valid()
      reads this
    {
      && Held()
      && state != Starting && state != Stopping
      && (state == Dormant || state == Disposed ==> host.None? && provisioning.None?)
      && (acceptedKinds != {} ==> host.Some?)
      && (state == Running ==> host.Some? && acceptedKinds != {})
      && (state == Dormant ==> acceptedKinds == {})
      && (state == Disposed ==> disposeRequested)
    }

    /** The fields account for everything that is live or open. */
    ghost predicate Held()
      reads this
    {
      && LogIsSafe(log)
      && (host.Some? ==> provisioning.Some?)
      && Live(log) == (if host.Some? && provisioning.Some? then map[host.value := provisioning.value] else map[])
      && Open(log) == (if provisioning.Some? then {provisioning.value} else {})
      && NumbersAreFresh()
    }

    ghost predicate NumbersAreFresh()
      reads this
    {
      forall e :: e in log ==> (e.Opened? ==> e.lease < nextLease) && (e.Created? ==> e.host < nextHost)
    }

    constructor (replies: nat -> Reply, sinks: nat -> set<Kind>)
      ensures Valid() && state == Dormant && log == []
    {
      host, provisioning, acceptedKinds, state, disposeRequested := None, None, {}, Dormant, false;
      clock, nextLease, nextHost, log := 0, 0, 0, [];
      this.replies, this.sinks := replies, sinks;
    }

    method Call() returns (reply: Reply)
      modifies this`clock
      ensures reply == replies(old(clock))
    {
      reply := replies(clock);
      clock := clock + 1;
    }

    ghost method Record(e: Event)
      requires LogIsSafe(log) && EventIsSafe(log, e)
      modifies this`log
      ensures log == old(log) + [e] && LogIsSafe(log)
      ensures Live(log) == LiveAfter(old(Live(log)), e) && Open(log) == OpenAfter(old(Open(log)), e)
    {
      hide EventIsSafe, LogIsSafe, Live, Open;
      LogGrows(log, e);
      EventEffect(log, e);
      log := log + [e];
    }

    method SetTransition(next: CompositionState, kinds: set<Kind>)
      modifies this`state, this`acceptedKinds
      ensures state == next && acceptedKinds == kinds
    {
      state, acceptedKinds := next, kinds;
    }

    /** Disposes a host; when it throws, the host lives on. */
    method DisposeHost(h: nat) returns (ok: bool)
      requires LogIsSafe(log) && h in Live(log)
      modifies this`clock, this`log
      ensures LogIsSafe(log) && old(log) <= log
      ensures Live(log) == (if ok then old(Live(log)) - {h} else old(Live(log))) && Open(log) == old(Open(log))
      ensures forall e :: e in log && (e.Opened? || e.Created?) ==> e in old(log)
      ensures FaultFree() ==> ok
    {
      hide LogIsSafe, Live, Open;
      var reply := Call();
      ok := reply.Fine?;
      if ok {
        Record(HostGone(h));
      }
    }

    /** Disposes a lease; when it throws, the lease stays open. */
    method DisposeLease(l: nat) returns (ok: bool)
      requires LogIsSafe(log) && l in Open(log) && forall h :: h in Live(log) ==> Live(log)[h] != l
      modifies this`clock, this`log
      ensures LogIsSafe(log) && old(log) <= log
      ensures Live(log) == old(Live(log)) && Open(log) == (if ok then old(Open(log)) - {l} else old(Open(log)))
      ensures forall e :: e in log && (e.Opened? || e.Created?) ==> e in old(log)
      ensures FaultFree() ==> ok
    {
      hide LogIsSafe, Live, Open;
      var reply := Call();
      ok := reply.Fine?;
      if ok {
        Record(LeaseGone(l));
      }
    }

    /** Stops what is running: the host first, and the lease only when the host is gone. */
    method StopCurrent() returns (ok: bool)
      requires Held() && (acceptedKinds != {} ==> host.Some?)
      modifies this
      ensures Held() && old(log) <= log && disposeRequested == old(disposeRequested)
      ensures ok ==> host.None? && provisioning.None?
      ensures !ok ==> state == Failed && (acceptedKinds != {} ==> host.Some?) && provisioning.Some?
      ensures FaultFree() ==> ok
    {
      hide LogIsSafe, Live, Open;
      var stoppingHost, stoppingProvisioning := host, provisioning;
      if stoppingHost.None? && stoppingProvisioning.None? {
        return true;
      }
      SetTransition(Stopping, acceptedKinds);
      ok := true;
      if stoppingHost.Some? {
        ok := DisposeHost(stoppingHost.value);
        if ok {
          host := None;
        }
      }
      if ok && stoppingProvisioning.Some? {
        ok := DisposeLease(stoppingProvisioning.value);
        if ok {
          provisioning := None;
        }
      }
      if !ok {
        SetTransition(Failed, if host.None? then {} else acceptedKinds);
      }
    }

    /** Disposes what a failed start left; what refuses to go is kept in the fields. */
    method CleanupFailedStart(startingHost: Option<nat>, openedLease: Option<nat>) returns (ok: bool)
      requires host.None? && provisioning.None? && LogIsSafe(log) && NumbersAreFresh()
      requires startingHost.Some? ==> openedLease.Some?
      requires Live(log) == if startingHost.Some? && openedLease.Some? then map[startingHost.value := openedLease.value] else map[]
      requires Open(log) == if openedLease.Some? then {openedLease.value} else {}
      modifies this`host, this`provisioning, this`clock, this`log
      ensures Held() && old(log) <= log
      ensures ok ==> host.None? && provisioning.None?
      ensures !ok ==> provisioning.Some?
      ensures FaultFree() ==> ok
    {
      hide LogIsSafe, Live, Open;
      ok := true;
      if startingHost.Some? {
        ok := DisposeHost(startingHost.value);
        if !ok {
          host, provisioning := startingHost, openedLease;
        }
      }
      if ok && openedLease.Some? {
        ok := DisposeLease(openedLease.value);
        if !ok {
          provisioning := openedLease;
        }
      }
    }

    /** Opens a lease, creates a host on it and starts it; the reply says how far that came. */
    method Start(next: set<Kind>) returns (reply: Reply, startingHost: Option<nat>, openedLease: Option<nat>)
      requires host.None? && provisioning.None? && Held()
      modifies this`clock, this`log, this`nextLease, this`nextHost
      ensures LogIsSafe(log) && NumbersAreFresh() && old(log) <= log
      ensures startingHost.Some? ==> openedLease.Some?
      ensures Live(log) == if startingHost.Some? && openedLease.Some? then map[startingHost.value := openedLease.value] else map[]
      ensures Open(log) == if openedLease.Some? then {openedLease.value} else {}
      ensures reply.Fine? ==> startingHost.Some? && openedLease.Some?
      ensures FaultFree() && (forall l: nat :: next <= sinks(l)) ==> reply.Fine?
    {
      hide LogIsSafe, Live, Open;
      startingHost, openedLease := None, None;
      reply := Call();
      if !reply.Fine? {
        return;
      }
      var lease := nextLease;
      nextLease := nextLease + 1;
      Record(Opened(lease));
      openedLease := Some(lease);
      if !(next <= sinks(lease)) {
        reply := Throws;
        return;
      }
      reply := Call();
      if !reply.Fine? {
        return;
      }
      var created := nextHost;
      nextHost := nextHost + 1;
      Record(Created(created, lease));
      startingHost := Some(created);
      reply := Call();
    }

    /**
    Brings the runtime to the requested kinds. Whatever fails, and however, everything live or open is
    held afterwards, and the state says so. A token it finds canceled leaves everything as it was.
     */
    method Recompose(next: set<Kind>, token: Token) returns (result: Result)
      requires Valid()
      modifies this
      ensures Valid() && old(log) <= log && disposeRequested == old(disposeRequested)
      ensures result.Done? ==> acceptedKinds == next && state == if next == {} then Dormant else Running
      ensures token.SeenWaiting? ==> result.WasCanceled?
      ensures token != Unseen ==>
        && log == old(log) && state == old(state) && acceptedKinds == old(acceptedKinds)
        && host == old(host) && provisioning == old(provisioning)
      ensures result.Refused? <==> old(disposeRequested) && !token.SeenWaiting?
      ensures !old(disposeRequested) && !token.SeenWaiting? && old(acceptedKinds) == next
              && (old(state) == Dormant || old(state) == Running) ==>
        && result.Done? && log == old(log) && clock == old(clock) && state == old(state)
        && host == old(host) && provisioning == old(provisioning)
      ensures result.Threw? ==> state == Failed
      ensures result.WasCanceled? && token.Unseen? ==> state == Dormant
      ensures FaultFree() && token.Unseen? && !old(disposeRequested) && (forall l: nat :: next <= sinks(l)) ==> result.Done?
    {
      hide LogIsSafe, Live, Open;
      if token.SeenWaiting? {
        return WasCanceled;
      }
      if disposeRequested {
        return Refused;
      }
      if acceptedKinds == next && (state == Dormant || state == Running) {
        return Done;
      }
      if token.SeenBeforeStop? {
        return WasCanceled;
      }
      var ok := StopCurrent();
      if !ok {
        return Threw;
      }
      if next == {} {
        SetTransition(Dormant, {});
        return Done;
      }
      SetTransition(Starting, {});
      var reply, startingHost, openedLease := Start(next);
      if reply.Fine? {
        provisioning, host := openedLease, startingHost;
        SetTransition(Running, next);
        return Done;
      }
      ok := CleanupFailedStart(startingHost, openedLease);
      if reply.Canceled? && ok {
        SetTransition(Dormant, {});
        return WasCanceled;
      }
      SetTransition(Failed, if host.None? then {} else next);
      return Threw;
    }

    /** Disposes the coordinator; a failure leaves it to be tried again, and nothing can be started meanwhile. */
    method Dispose() returns (ok: bool)
      requires Valid()
      modifies this
      ensures Valid() && old(log) <= log && disposeRequested
      ensures ok <==> state == Disposed
      ensures ok ==> host.None? && provisioning.None? && Live(log) == map[] && Open(log) == {}
      ensures FaultFree() ==> ok
    {
      hide LogIsSafe, Live, Open;
      if state == Disposed {
        return true;
      }
      disposeRequested := true;
      ok := StopCurrent();
      if ok {
        SetTransition(Disposed, {});
      }
    }
  }

  datatype Request = Recompose(kinds: set<Kind>, token: Token) | Dispose

  /** Any schedule of requests, each of which may fail anywhere, keeps the ownership rules. */
  method Serve(coordinator: Coordinator, requests: seq<Request>)
    requires coordinator.Valid()
    modifies coordinator
    ensures coordinator.Valid() && old(coordinator.log) <= coordinator.log
    ensures forall i :: 0 <= i <= |coordinator.log| ==>
      forall g, h :: g in Live(coordinator.log[..i]) && h in Live(coordinator.log[..i]) ==> g == h
    ensures forall l: nat :: Opened(l) in coordinator.log ==>
      LeaseGone(l) in coordinator.log || coordinator.provisioning == Some(l)
    ensures coordinator.state == Dormant || coordinator.state == Disposed ==>
      Live(coordinator.log) == map[] && Open(coordinator.log) == {}
  {
    hide LogIsSafe, Live, Open;
    for i := 0 to |requests|
      invariant coordinator.Valid() && old(coordinator.log) <= coordinator.log
    {
      match requests[i]
      case Recompose(kinds, token) =>
        var result := coordinator.Recompose(kinds, token);
      case Dispose =>
        var ok := coordinator.Dispose();
    }
    ghost var log := coordinator.log;
    forall i | 0 <= i <= |log|
      ensures forall g, h :: g in Live(log[..i]) && h in Live(log[..i]) ==> g == h
    {
      AtMostOneLiveHost(log, i);
    }
    forall l: nat | Opened(l) in log
      ensures LeaseGone(l) in log || coordinator.provisioning == Some(l)
    {
      assert log[..|log|] == log;
      OpenedIsOpenOrDisposed(log, |log|, l);
    }
  }
}
