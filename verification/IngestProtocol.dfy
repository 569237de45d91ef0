/**
The ingest host's dedupe map, bounded queue and single worker as a concurrent protocol. Each lock body,
channel operation and sink call is one atomic step, and the steps of all handlers, the worker and the
stopping caller interleave freely. Hashes are the bytes they stand for; a completion source is
identified by the sequence number drawn together with it.
 */
module IngestProtocol {
  import opened Common
  import opened IngestLimits
  import opened Sums

  const MAXIMUM_DEDUPE_ENTRIES := 2048

  datatype Identity = Identity(source: string, session: string, batchId: string)

  datatype Entry = Entry(hash: Bytes, token: nat, committed: bool)

  datatype Work = Work(id: Identity, hash: Bytes)

  /** Where a work item is between its dedupe entry and its completion. */
  datatype Phase =
    | Admitted            // its handler is about to reserve
    | Reserved            // counted, about to be written to the channel
    | Releasing           // counted, the channel refused it
    | Refused             // no longer counted, its entry is about to be removed
    | Queued              // in the channel
    | Running             // the worker has called the sink
    | Succeeded           // the sink returned, the entry is about to be marked
    | Failed              // the sink threw or the item was abandoned, the entry is about to be removed
    | Finishing(ok: bool) // the entry is settled, the reservation is about to be released

  datatype Flight = Flight(work: Work, phase: Phase)

  datatype Worker = Reading | Working(token: nat) | Draining | Abandoning(token: nat) | Ended

  /** One successful sink call. */
  datatype Sunk = Sunk(id: Identity, hash: Bytes, token: nat)

  datatype State = State(
    dedupe: map<Identity, Entry>,
    sequence: nat,
    works: map<nat, Flight>,
    channel: seq<nat>,
    worker: Worker,
    queuedBatches: int,
    queuedBytes: int,
    accepting: bool,
    completed: bool,
    cancelled: bool,
    results: map<nat, bool>,
    sunk: seq<Sunk>,
    dropped: set<nat>)

  const INITIAL := State(map[], 0, map[], [], Reading, 0, 0, true, false, false, map[], [], {})

  datatype Answer = Conflict | Duplicate | Join(token: nat) | New(token: nat)

  // -------------------------------------------------------------- pruning

  /** The committed entry drawn first. */
  ghost predicate Oldest(dedupe: map<Identity, Entry>, id: Identity) {
    && id in dedupe && dedupe[id].committed
    && forall other :: other in dedupe && dedupe[other].committed ==> dedupe[id].token <= dedupe[other].token
  }

  ghost predicate HasCommitted(dedupe: map<Identity, Entry>) { exists id :: id in dedupe && dedupe[id].committed }

  lemma {:induction false} OldestExists(dedupe: map<Identity, Entry>, ids: set<Identity>)
    requires forall id :: id in ids ==> id in dedupe && dedupe[id].committed
    requires ids != {}
    ensures exists id :: id in ids && forall other :: other in ids ==> dedupe[id].token <= dedupe[other].token
    decreases |ids|
  {
    var x :| x in ids;
    if ids != {x} {
      assert ids - {x} != {};
      OldestExists(dedupe, ids - {x});
      var y :| y in ids - {x} && forall other :: other in ids - {x} ==> dedupe[y].token <= dedupe[other].token;
      var z := if dedupe[x].token <= dedupe[y].token then x else y;
      assert forall other :: other in ids ==> dedupe[z].token <= dedupe[other].token;
    }
  }

  lemma HasOldest(dedupe: map<Identity, Entry>)
    requires HasCommitted(dedupe)
    ensures exists id :: Oldest(dedupe, id)
  {
    var ids := set id | id in dedupe && dedupe[id].committed;
    var some :| some in dedupe && dedupe[some].committed;
    assert some in ids;
    OldestExists(dedupe, ids);
    var id :| id in ids && forall other :: other in ids ==> dedupe[id].token <= dedupe[other].token;
    assert Oldest(dedupe, id);
  }

  /** Forgets committed entries, oldest first, until there is room or none is left. */
  ghost function Pruned(dedupe: map<Identity, Entry>): map<Identity, Entry>
    decreases |dedupe|
  {
    if |dedupe| >= MAXIMUM_DEDUPE_ENTRIES && HasCommitted(dedupe) then
      HasOldest(dedupe);
      var id :| Oldest(dedupe, id);
      Shrinks(dedupe, id);
      Pruned(dedupe - {id})
    else dedupe
  }

  lemma Shrinks(dedupe: map<Identity, Entry>, id: Identity)
    requires id in dedupe
    ensures |dedupe - {id}| == |dedupe| - 1
  {
    MapSize(dedupe);
    MapSize(dedupe - {id});
    assert (dedupe - {id}).Keys == dedupe.Keys - {id};
  }

  // ---------------------------------------------------------------- weights

  predicate Counted(p: Phase) { !p.Admitted? && !p.Refused? }

  predicate InHand(p: Phase) { p.Admitted? || p.Reserved? || p.Releasing? || p.Refused? }

  function Count(f: Flight): nat { if Counted(f.phase) then 1 else 0 }

  function Size(f: Flight): nat { if Counted(f.phase) then |f.work.hash| else 0 }

  function Hand(f: Flight): nat { if InHand(f.phase) then 1 else 0 }

  function Weights(works: map<nat, Flight>, weight: Flight -> nat): map<nat, nat> {
    map t | t in works :: weight(works[t])
  }

  ghost function Sum(works: map<nat, Flight>, weight: Flight -> nat): nat { Total(Weights(works, weight)) }

  lemma SumWith(works: map<nat, Flight>, t: nat, f: Flight, weight: Flight -> nat)
    ensures Sum(works[t := f], weight) == Sum(works, weight) - (if t in works then weight(works[t]) else 0) + weight(f)
  {
    TotalUpdate(Weights(works, weight), t, weight(f));
    assert Weights(works[t := f], weight) == Weights(works, weight)[t := weight(f)];
  }

  lemma SumWithout(works: map<nat, Flight>, t: nat, weight: Flight -> nat)
    requires t in works
    ensures Sum(works - {t}, weight) == Sum(works, weight) - weight(works[t])
  {
    TotalRemove(Weights(works, weight), t);
    assert Weights(works - {t}, weight) == Weights(works, weight) - {t};
  }

  // ------------------------------------------------------------------- steps

  datatype Step =
    | Arrive(work: Work)
    | Reserve(token: nat)
    | Write(token: nat)
    | ReleaseUnwritten(token: nat)
    | Withdraw(token: nat)
    | Take
    | SinkReturns(ok: bool)
    | Mark
    | Forget
    | Finish
    | StopReading
    | Abandon
    | EndDraining
    | CompleteGracefully
    | Cancel
    | CompleteForced

  predicate At(s: State, t: nat, p: Phase) { t in s.works && s.works[t].phase == p }

  function Busy(s: State): Option<nat> {
    if s.worker.Working? || s.worker.Abandoning? then Some(s.worker.token) else None
  }

  predicate BusyAt(s: State, p: Phase) { Busy(s).Some? && At(s, Busy(s).value, p) }

  /**
  When a step can happen. A handler works through its own item, so items in handlers' hands are bounded
  by the concurrent requests; a graceful completion comes after every handler is done.
   */
  ghost predicate Enabled(limits: Limits, s: State, step: Step) {
    match step
    case Arrive(_) => s.accepting && Sum(s.works, Hand) < limits.concurrentRequests
    case Reserve(t) => At(s, t, Admitted)
    case Write(t) => At(s, t, Reserved)
    case ReleaseUnwritten(t) => At(s, t, Releasing)
    case Withdraw(t) => At(s, t, Refused)
    case Take => s.worker == Reading && s.channel != []
    case SinkReturns(_) => BusyAt(s, Running)
    case Mark => BusyAt(s, Succeeded)
    case Forget => BusyAt(s, Failed)
    case Finish => Busy(s).Some? && Busy(s).value in s.works && s.works[Busy(s).value].phase.Finishing?
    case StopReading => s.worker == Reading && (s.cancelled || (s.completed && s.channel == []))
    case Abandon => s.worker == Draining && s.channel != []
    case EndDraining => s.worker == Draining && s.channel == []
    case CompleteGracefully => Sum(s.works, Hand) == 0 && !s.cancelled && !s.completed
    case Cancel => !s.cancelled && !s.completed
    case CompleteForced => s.cancelled && !s.completed
  }

  /** What a handler learns when its request meets the pruned dedupe map. */
  function AnswerTo(dedupe: map<Identity, Entry>, sequence: nat, work: Work): Answer {
    if work.id in dedupe then
      var e := dedupe[work.id];
      if e.hash != work.hash then Conflict else if e.committed then Duplicate else Join(e.token)
    else New(sequence + 1)
  }

  function Moved(s: State, t: nat, p: Phase): State
    requires t in s.works
  {
    s.(works := s.works[t := s.works[t].(phase := p)])
  }

  function Closed(s: State, t: nat, ok: bool): State { s.(works := s.works - {t}, results := s.results[t := ok]) }

  /** The worker's settled item leaves: its reservation is released, its result reported. */
  function Finished(s: State, t: nat): State
    requires t in s.works && s.works[t].phase.Finishing?
  {
    Closed(s, t, s.works[t].phase.ok).(
      queuedBatches := s.queuedBatches - 1, queuedBytes := s.queuedBytes - |s.works[t].work.hash|,
      worker := if s.worker.Working? then Reading else Draining)
  }

  ghost function Apply(limits: Limits, s: State, step: Step): State
    requires Enabled(limits, s, step)
  {
    match step
    case Arrive(w) =>
      var dedupe := Pruned(s.dedupe);
      var answer := AnswerTo(dedupe, s.sequence, w);
      if answer.New? then
        s.(dedupe := dedupe[w.id := Entry(w.hash, answer.token, false)], sequence := answer.token,
           works := s.works[answer.token := Flight(w, Admitted)])
      else s.(dedupe := dedupe)
    case Reserve(t) =>
      var bytes := |s.works[t].work.hash|;
      if s.queuedBatches >= limits.queuedBatches || s.queuedBytes + bytes > limits.queuedBytes then Moved(s, t, Refused)
      else Moved(s, t, Reserved).(queuedBatches := s.queuedBatches + 1, queuedBytes := s.queuedBytes + bytes)
    case Write(t) =>
      if s.completed then Moved(s, t, Releasing)
      else if |s.channel| < limits.queuedBatches then Moved(s, t, Queued).(channel := s.channel + [t])
      else s.(works := s.works - {t}, dropped := s.dropped + {t})
    case ReleaseUnwritten(t) =>
      Moved(s, t, Refused).(
        queuedBatches := s.queuedBatches - 1, queuedBytes := s.queuedBytes - |s.works[t].work.hash|)
    case Withdraw(t) =>
      var id := s.works[t].work.id;
      var mine := id in s.dedupe && s.dedupe[id].token == t;
      Closed(s.(dedupe := if mine then s.dedupe - {id} else s.dedupe), t, false)
    case Take =>
      var t := s.channel[0];
      s.(channel := s.channel[1..], worker := Working(t),
         works := if t in s.works then s.works[t := s.works[t].(phase := Running)] else s.works)
    case SinkReturns(ok) =>
      var t := Busy(s).value;
      var w := s.works[t].work;
      if ok then Moved(s, t, Succeeded).(sunk := s.sunk + [Sunk(w.id, w.hash, t)]) else Moved(s, t, Failed)
    case Mark =>
      var t := Busy(s).value;
      var id := s.works[t].work.id;
      Moved(s, t, Finishing(true)).(
        dedupe := if id in s.dedupe then s.dedupe[id := s.dedupe[id].(committed := true)] else s.dedupe)
    case Forget =>
      var t := Busy(s).value;
      Moved(s, t, Finishing(false)).(dedupe := s.dedupe - {s.works[t].work.id})
    case Finish => Finished(s, Busy(s).value)
    case StopReading => s.(worker := Draining)
    case Abandon =>
      var t := s.channel[0];
      s.(channel := s.channel[1..], worker := Abandoning(t),
         works := if t in s.works then s.works[t := s.works[t].(phase := Failed)] else s.works)
    case EndDraining => s.(worker := Ended)
    case CompleteGracefully => s.(completed := true, accepting := false)
    case Cancel => s.(cancelled := true)
    case CompleteForced => s.(completed := true)
  }

  // ---------------------------------------------------------------- invariant

  predicate Settled(p: Phase) { p.Finishing? }

  /** The entry of an unsettled work item is its own, uncommitted. */
  predicate OwnEntry(dedupe: map<Identity, Entry>, t: nat, f: Flight) {
    Settled(f.phase) || (f.work.id in dedupe && dedupe[f.work.id] == Entry(f.work.hash, t, false))
  }

  /** An entry is committed by a sink success of its own, or has its one unsettled work item in flight. */
  predicate EntryInv(works: map<nat, Flight>, sunk: seq<Sunk>, id: Identity, e: Entry) {
    && (e.committed ==> Sunk(id, e.hash, e.token) in sunk)
    && (!e.committed ==> e.token in works && works[e.token].work == Work(id, e.hash) && !Settled(works[e.token].phase))
  }

  predicate WorksOwn(works: map<nat, Flight>, dedupe: map<Identity, Entry>) {
    forall t :: t in works ==> OwnEntry(dedupe, t, works[t])
  }

  predicate EntriesHold(dedupe: map<Identity, Entry>, works: map<nat, Flight>, sunk: seq<Sunk>) {
    forall id :: id in dedupe ==> EntryInv(works, sunk, id, dedupe[id])
  }

  predicate TokensDrawn(s: State) {
    && (forall t :: t in s.works ==> t <= s.sequence)
    && (forall id :: id in s.dedupe ==> s.dedupe[id].token <= s.sequence)
    && (forall x :: x in s.sunk ==> x.token <= s.sequence)
  }

  predicate HasSunk(p: Phase) { p == Succeeded || p == Finishing(true) }

  predicate SunkOnce(sunk: seq<Sunk>) {
    forall i, j :: 0 <= i < j < |sunk| ==> sunk[i].token != sunk[j].token
  }

  /** A work item's phase says whether the sink has succeeded for it. */
  predicate PhasesTell(works: map<nat, Flight>, sunk: seq<Sunk>) {
    && (forall x :: x in sunk && x.token in works ==> HasSunk(works[x.token].phase))
    && (forall t :: t in works && HasSunk(works[t].phase) ==> Sunk(works[t].work.id, works[t].work.hash, t) in sunk)
  }

  /** A retained entry's identity has had no sink success later than the entry. */
  predicate NoLaterSuccess(dedupe: map<Identity, Entry>, sunk: seq<Sunk>) {
    forall x :: x in sunk && x.id in dedupe ==> x.token <= dedupe[x.id].token
  }

  predicate ResultsHold(results: map<nat, bool>, sunk: seq<Sunk>) {
    forall t :: t in results && results[t] ==> exists x :: x in sunk && x.token == t
  }

  predicate AtWorker(p: Phase) { p.Running? || p.Succeeded? || p.Failed? || p.Finishing? }

  predicate NoRepeats(channel: seq<nat>) {
    forall i, j :: 0 <= i < j < |channel| ==> channel[i] != channel[j]
  }

  predicate ChannelHolds(works: map<nat, Flight>, channel: seq<nat>) {
    && (forall t :: t in works ==> (t in channel <==> works[t].phase == Queued))
    && (forall t :: t in channel ==> t in works)
  }

  predicate WorkerHolds(works: map<nat, Flight>, busy: Option<nat>) {
    && (forall t :: t in works ==> (AtWorker(works[t].phase) <==> busy == Some(t)))
    && (busy.Some? ==> busy.value in works)
  }

  predicate DedupeInv(s: State) {
    WorksOwn(s.works, s.dedupe) && EntriesHold(s.dedupe, s.works, s.sunk) && TokensDrawn(s)
  }

  predicate SinkInv(s: State) {
    SunkOnce(s.sunk) && PhasesTell(s.works, s.sunk) && NoLaterSuccess(s.dedupe, s.sunk) && ResultsHold(s.results, s.sunk)
  }

  predicate ChannelInv(works: map<nat, Flight>, channel: seq<nat>, busy: Option<nat>) {
    NoRepeats(channel) && ChannelHolds(works, channel) && WorkerHolds(works, busy)
  }

  /** The counters are exactly the reservations, and every bound holds. */
  ghost predicate CountInv(limits: Limits, works: map<nat, Flight>, batches: int, bytes: int) {
    && batches == Sum(works, Count) <= limits.queuedBatches
    && bytes == Sum(works, Size) <= limits.queuedBytes
    && Sum(works, Hand) <= limits.concurrentRequests
  }

  /** How far a stop has come, and what is then already empty. */
  ghost predicate StopInv(s: State, hands: nat, channel: seq<nat>) {
    && (s.worker == Draining || s.worker == Ended || s.worker.Abandoning? ==> s.cancelled || s.completed)
    && (s.completed && !s.cancelled ==> !s.accepting && hands == 0)
    && (!s.cancelled && (s.worker == Draining || s.worker == Ended) ==> channel == [])
    && (!s.cancelled ==> !s.worker.Abandoning?)
  }

  ghost predicate Inv(limits: Limits, s: State) {
    && DedupeInv(s)
    && SinkInv(s)
    && ChannelInv(s.works, s.channel, Busy(s))
    && s.dropped == {}
    && CountInv(limits, s.works, s.queuedBatches, s.queuedBytes)
    && StopInv(s, Sum(s.works, Hand), s.channel)
    && |s.dedupe| <= MAXIMUM_DEDUPE_ENTRIES
  }

  // -------------------------------------------------- every step keeps the invariant

  /** Pruning forgets only committed entries, and stops with room or with none of them left. */
  lemma {:induction false} PruningForgetsCommitted(dedupe: map<Identity, Entry>)
    ensures var kept := Pruned(dedupe);
      && (forall id :: id in kept ==> id in dedupe && kept[id] == dedupe[id])
      && (forall id :: id in dedupe && !dedupe[id].committed ==> id in kept)
      && |kept| <= |dedupe|
      && (|kept| < MAXIMUM_DEDUPE_ENTRIES || !HasCommitted(kept))
    decreases |dedupe|
  {
    if |dedupe| >= MAXIMUM_DEDUPE_ENTRIES && HasCommitted(dedupe) {
      HasOldest(dedupe);
      var id :| Oldest(dedupe, id) && Pruned(dedupe) == Pruned(dedupe - {id});
      Shrinks(dedupe, id);
      PruningForgetsCommitted(dedupe - {id});
    }
  }

  /** Moving an item between unsettled phases, or between settled ones, leaves every entry explained. */
  lemma MoveKeepsEntries(works: map<nat, Flight>, dedupe: map<Identity, Entry>, sunk: seq<Sunk>, t: nat, p: Phase)
    requires WorksOwn(works, dedupe) && EntriesHold(dedupe, works, sunk)
    requires t in works && Settled(works[t].phase) == Settled(p)
    ensures WorksOwn(works[t := works[t].(phase := p)], dedupe)
    ensures EntriesHold(dedupe, works[t := works[t].(phase := p)], sunk)
  {
    var works' := works[t := works[t].(phase := p)];
    forall id | id in dedupe
      ensures EntryInv(works', sunk, id, dedupe[id])
    {
      assert EntryInv(works, sunk, id, dedupe[id]);
    }
    forall u | u in works'
      ensures OwnEntry(dedupe, u, works'[u])
    {
      assert OwnEntry(dedupe, u, works[u]);
    }
  }

  lemma MoveKeepsPhases(works: map<nat, Flight>, sunk: seq<Sunk>, t: nat, p: Phase)
    requires PhasesTell(works, sunk) && t in works && HasSunk(works[t].phase) == HasSunk(p)
    ensures PhasesTell(works[t := works[t].(phase := p)], sunk)
  {
  }

  lemma MoveKeepsChannel(works: map<nat, Flight>, channel: seq<nat>, busy: Option<nat>, t: nat, p: Phase)
    requires ChannelHolds(works, channel) && WorkerHolds(works, busy) && t in works
    requires (works[t].phase == Queued) == (p == Queued) && AtWorker(works[t].phase) == AtWorker(p)
    ensures ChannelHolds(works[t := works[t].(phase := p)], channel)
    ensures WorkerHolds(works[t := works[t].(phase := p)], busy)
  {
  }

  /** How moving an item changes the three sums. */
  lemma MoveSums(s: State, t: nat, p: Phase)
    requires t in s.works
    ensures var f := s.works[t]; var g := f.(phase := p);
      && Sum(s.works[t := g], Count) == Sum(s.works, Count) - Count(f) + Count(g)
      && Sum(s.works[t := g], Size) == Sum(s.works, Size) - Size(f) + Size(g)
      && Sum(s.works[t := g], Hand) == Sum(s.works, Hand) - Hand(f) + Hand(g)
  {
    hide Sum;
    SumWith(s.works, t, s.works[t].(phase := p), Count);
    SumWith(s.works, t, s.works[t].(phase := p), Size);
    SumWith(s.works, t, s.works[t].(phase := p), Hand);
  }

  /** A move that changes no weight keeps counters and bounds. */
  lemma QuietMove(limits: Limits, s: State, t: nat, p: Phase)
    requires t in s.works && Counted(s.works[t].phase) == Counted(p) && InHand(s.works[t].phase) == InHand(p)
    requires CountInv(limits, s.works, s.queuedBatches, s.queuedBytes)
    ensures var works := s.works[t := s.works[t].(phase := p)];
      CountInv(limits, works, s.queuedBatches, s.queuedBytes) && Sum(works, Hand) == Sum(s.works, Hand)
  {
    MoveSums(s, t, p);
    hide Sum;
  }

  /** A move between phases of the same side keeps channel and worker as they are. */
  lemma QuietMoveKeepsChannel(s: State, t: nat, p: Phase)
    requires ChannelInv(s.works, s.channel, Busy(s)) && t in s.works
    requires (s.works[t].phase == Queued) == (p == Queued) && AtWorker(s.works[t].phase) == AtWorker(p)
    ensures ChannelInv(s.works[t := s.works[t].(phase := p)], s.channel, Busy(s))
  {
    hide ChannelHolds, WorkerHolds, NoRepeats;
    MoveKeepsChannel(s.works, s.channel, Busy(s), t, p);
  }

  lemma CloseSums(s: State, t: nat)
    requires t in s.works
    ensures var f := s.works[t];
      && Sum(s.works - {t}, Count) == Sum(s.works, Count) - Count(f)
      && Sum(s.works - {t}, Size) == Sum(s.works, Size) - Size(f)
      && Sum(s.works - {t}, Hand) == Sum(s.works, Hand) - Hand(f)
  {
    hide Sum;
    SumWithout(s.works, t, Count);
    SumWithout(s.works, t, Size);
    SumWithout(s.works, t, Hand);
  }

  // ---- handlers

  lemma ReserveKeepsInv(limits: Limits, s: State, t: nat)
    requires Inv(limits, s) && Enabled(limits, s, Reserve(t))
    ensures Inv(limits, Apply(limits, s, Reserve(t)))
  {
    hide Sum, WorksOwn, EntriesHold, PhasesTell, ChannelHolds, WorkerHolds, NoRepeats, SunkOnce, NoLaterSuccess, ResultsHold;
    var p := if s.queuedBatches >= limits.queuedBatches || s.queuedBytes + |s.works[t].work.hash| > limits.queuedBytes
             then Refused else Reserved;
    MoveKeepsEntries(s.works, s.dedupe, s.sunk, t, p);
    MoveKeepsPhases(s.works, s.sunk, t, p);
    MoveKeepsChannel(s.works, s.channel, Busy(s), t, p);
    MoveSums(s, t, p);
  }

  function TokensOf(channel: seq<nat>): set<nat> { set u | u in channel }

  /** The item being written is counted, so the channel holds fewer items than it may. */
  lemma ChannelHasRoom(limits: Limits, s: State, t: nat)
    requires ChannelHolds(s.works, s.channel) && NoRepeats(s.channel)
    requires s.queuedBatches == Sum(s.works, Count) <= limits.queuedBatches && At(s, t, Reserved)
    ensures |s.channel| < limits.queuedBatches
  {
    var keys := TokensOf(s.channel);
    ChannelSize(s.channel);
    var weights := Weights(s.works, Count);
    forall u | u in keys + {t}
      ensures u in weights && weights[u] >= 1
    {
    }
    assert t !in keys;
    hide ChannelHolds, NoRepeats, Weights, TokensOf;
    assert |keys + {t}| == |keys| + 1;
    TotalCounts(weights, keys + {t});
  }

  lemma {:induction false} ChannelSize(channel: seq<nat>)
    requires NoRepeats(channel)
    ensures |TokensOf(channel)| == |channel|
  {
    if channel != [] {
      var n := |channel| - 1;
      ChannelSize(channel[..n]);
      assert channel[n] !in TokensOf(channel[..n]);
      assert TokensOf(channel) == TokensOf(channel[..n]) + {channel[n]};
    }
  }

  /** At every write the channel has room or has been completed: DropWrite never drops. */
  lemma WriteNeverDrops(limits: Limits, s: State, t: nat)
    requires Inv(limits, s) && Enabled(limits, s, Write(t))
    ensures At(s, t, Reserved)
    ensures Apply(limits, s, Write(t))
         == if s.completed then Moved(s, t, Releasing) else Moved(s, t, Queued).(channel := s.channel + [t])
  {
    ChannelHasRoom(limits, s, t);
    hide DedupeInv, SinkInv, ChannelInv, CountInv, StopInv, Sum;
  }

  lemma WriteKeepsInv(limits: Limits, s: State, t: nat)
    requires Inv(limits, s) && Enabled(limits, s, Write(t))
    ensures Inv(limits, Apply(limits, s, Write(t)))
  {
    WriteNeverDrops(limits, s, t);
    if s.completed {
      RefusedWriteKeepsInv(limits, s, t);
    } else {
      QueuedWriteKeepsInv(limits, s, t);
    }
    hide *;
  }

  lemma RefusedWriteKeepsInv(limits: Limits, s: State, t: nat)
    requires Inv(limits, s) && At(s, t, Reserved) && s.completed
    ensures Inv(limits, Moved(s, t, Releasing))
  {
    hide Sum, WorksOwn, EntriesHold, PhasesTell, ChannelHolds, WorkerHolds, NoRepeats, SunkOnce, NoLaterSuccess, ResultsHold;
    MoveKeepsEntries(s.works, s.dedupe, s.sunk, t, Releasing);
    MoveKeepsPhases(s.works, s.sunk, t, Releasing);
    MoveSums(s, t, Releasing);
    MoveKeepsChannel(s.works, s.channel, Busy(s), t, Releasing);
  }

  lemma QueuedWriteKeepsInv(limits: Limits, s: State, t: nat)
    requires Inv(limits, s) && At(s, t, Reserved) && !s.completed
    ensures Inv(limits, Moved(s, t, Queued).(channel := s.channel + [t]))
  {
    hide Sum, WorksOwn, EntriesHold, PhasesTell, ChannelHolds, WorkerHolds, NoRepeats, SunkOnce, NoLaterSuccess, ResultsHold;
    MoveKeepsEntries(s.works, s.dedupe, s.sunk, t, Queued);
    MoveKeepsPhases(s.works, s.sunk, t, Queued);
    MoveSums(s, t, Queued);
    WritingHolds(s.works, s.channel, Busy(s), t);
  }

  /** An item in a handler's hands weighs in. */
  lemma HandsFull(s: State, t: nat)
    requires t in s.works && InHand(s.works[t].phase)
    ensures Sum(s.works, Hand) >= 1
  {
    TotalRemove(Weights(s.works, Hand), t);
  }

  lemma WritingHolds(works: map<nat, Flight>, channel: seq<nat>, busy: Option<nat>, t: nat)
    requires ChannelHolds(works, channel) && WorkerHolds(works, busy) && NoRepeats(channel)
    requires t in works && works[t].phase == Reserved
    ensures ChannelHolds(works[t := works[t].(phase := Queued)], channel + [t])
    ensures WorkerHolds(works[t := works[t].(phase := Queued)], busy)
    ensures NoRepeats(channel + [t])
  {
    assert t !in channel;
  }

  lemma ReleaseUnwrittenKeepsInv(limits: Limits, s: State, t: nat)
    requires Inv(limits, s) && Enabled(limits, s, ReleaseUnwritten(t))
    ensures Inv(limits, Apply(limits, s, ReleaseUnwritten(t)))
  {
    hide Sum, WorksOwn, EntriesHold, PhasesTell, ChannelHolds, WorkerHolds, NoRepeats, SunkOnce, NoLaterSuccess, ResultsHold;
    MoveKeepsEntries(s.works, s.dedupe, s.sunk, t, Refused);
    MoveKeepsPhases(s.works, s.sunk, t, Refused);
    MoveKeepsChannel(s.works, s.channel, Busy(s), t, Refused);
    MoveSums(s, t, Refused);
  }

  /** Taking out an item together with its uncommitted entry. */
  lemma ClosingKeepsEntries(works: map<nat, Flight>, dedupe: map<Identity, Entry>, sunk: seq<Sunk>, t: nat)
    requires WorksOwn(works, dedupe) && EntriesHold(dedupe, works, sunk) && t in works && !Settled(works[t].phase)
    ensures works[t].work.id in dedupe && dedupe[works[t].work.id].token == t
    ensures WorksOwn(works - {t}, dedupe - {works[t].work.id})
    ensures EntriesHold(dedupe - {works[t].work.id}, works - {t}, sunk)
  {
    var id := works[t].work.id;
    assert OwnEntry(dedupe, t, works[t]);
    forall u | u in works - {t}
      ensures OwnEntry(dedupe - {id}, u, works[u])
    {
      assert OwnEntry(dedupe, u, works[u]);
    }
    forall other | other in dedupe - {id}
      ensures EntryInv(works - {t}, sunk, other, dedupe[other])
    {
      assert EntryInv(works, sunk, other, dedupe[other]);
    }
  }

  lemma ClosingKeepsRest(s: State, t: nat, ok: bool)
    requires PhasesTell(s.works, s.sunk) && ChannelHolds(s.works, s.channel) && ResultsHold(s.results, s.sunk)
    requires t in s.works && s.works[t].phase != Queued && (ok ==> HasSunk(s.works[t].phase))
    ensures PhasesTell(s.works - {t}, s.sunk) && ChannelHolds(s.works - {t}, s.channel)
    ensures ResultsHold(s.results[t := ok], s.sunk)
  {
    if ok {
      assert Sunk(s.works[t].work.id, s.works[t].work.hash, t) in s.sunk;
    }
  }

  lemma DroppingEntries(s: State, ids: set<Identity>)
    requires TokensDrawn(s) && NoLaterSuccess(s.dedupe, s.sunk)
    ensures TokensDrawn(s.(dedupe := s.dedupe - ids)) && NoLaterSuccess(s.dedupe - ids, s.sunk)
    ensures |s.dedupe - ids| <= |s.dedupe|
  {
    MapSize(s.dedupe);
    MapSize(s.dedupe - ids);
    SubsetSize((s.dedupe - ids).Keys, s.dedupe.Keys);
  }

  lemma WithdrawKeepsInv(limits: Limits, s: State, t: nat)
    requires Inv(limits, s) && Enabled(limits, s, Withdraw(t))
    ensures Inv(limits, Apply(limits, s, Withdraw(t)))
  {
    hide Sum, WorksOwn, EntriesHold, PhasesTell, ChannelHolds, NoRepeats, SunkOnce, NoLaterSuccess, ResultsHold;
    ClosingKeepsEntries(s.works, s.dedupe, s.sunk, t);
    ClosingKeepsRest(s, t, false);
    DroppingEntries(s, {s.works[t].work.id});
    CloseSums(s, t);
  }

  lemma PrunedIsSmall(limits: Limits, s: State)
    requires limits.Valid() && DedupeInv(s) && CountInv(limits, s.works, s.queuedBatches, s.queuedBytes)
    ensures |Pruned(s.dedupe)| < MAXIMUM_DEDUPE_ENTRIES
  {
    hide Pruned, Sum;
    PruningForgetsCommitted(s.dedupe);
    var kept := Pruned(s.dedupe);
    if !HasCommitted(kept) {
      UncommittedAreInFlight(s, kept.Keys);
      InFlightBound(s.works);
      MapSize(kept);
    }
  }

  /** Uncommitted entries are no more than the items in flight: each has its own token. */
  lemma {:induction false} UncommittedAreInFlight(s: State, ids: set<Identity>)
    requires DedupeInv(s) && forall id :: id in ids ==> id in s.dedupe && !s.dedupe[id].committed
    ensures |ids| <= |s.works|
  {
    var tokens := set id | id in ids :: s.dedupe[id].token;
    TokenPerEntry(s, ids);
    SubsetSize(tokens, s.works.Keys);
    MapSize(s.works);
  }

  lemma {:induction false} TokenPerEntry(s: State, ids: set<Identity>)
    requires DedupeInv(s) && forall id :: id in ids ==> id in s.dedupe && !s.dedupe[id].committed
    ensures |set id | id in ids :: s.dedupe[id].token| == |ids|
    ensures (set id | id in ids :: s.dedupe[id].token) <= s.works.Keys
  {
    forall id | id in ids
      ensures s.dedupe[id].token in s.works && s.works[s.dedupe[id].token].work.id == id
    {
      assert EntryInv(s.works, s.sunk, id, s.dedupe[id]);
    }
    if ids != {} {
      var id :| id in ids;
      var before := set x | x in ids - {id} :: s.dedupe[x].token;
      TokenPerEntry(s, ids - {id});
      assert s.dedupe[id].token !in before;
      assert (set x | x in ids :: s.dedupe[x].token) == before + {s.dedupe[id].token};
    }
  }

  /** Every item is in a handler's hands or counted. */
  lemma {:induction false} InFlightBound(works: map<nat, Flight>)
    ensures |works| <= Sum(works, Hand) + Sum(works, Count)
    decreases |works|
  {
    if works != map[] {
      var t :| t in works;
      SumWithout(works, t, Hand);
      SumWithout(works, t, Count);
      MapSize(works);
      MapSize(works - {t});
      assert (works - {t}).Keys == works.Keys - {t};
      InFlightBound(works - {t});
    }
  }

  lemma PruningKeepsEntries(s: State)
    requires DedupeInv(s) && NoLaterSuccess(s.dedupe, s.sunk)
    ensures DedupeInv(s.(dedupe := Pruned(s.dedupe))) && NoLaterSuccess(Pruned(s.dedupe), s.sunk)
  {
    hide Pruned;
    PruningForgetsCommitted(s.dedupe);
    var kept := Pruned(s.dedupe);
    forall t | t in s.works
      ensures OwnEntry(kept, t, s.works[t])
    {
      assert OwnEntry(s.dedupe, t, s.works[t]);
    }
    forall id | id in kept
      ensures EntryInv(s.works, s.sunk, id, kept[id])
    {
      assert EntryInv(s.works, s.sunk, id, s.dedupe[id]);
    }
  }

  /** A new entry with its work item, under a token never drawn before. */
  lemma AddingKeepsEntries(s: State, w: Work)
    requires DedupeInv(s) && NoLaterSuccess(s.dedupe, s.sunk) && PhasesTell(s.works, s.sunk) && w.id !in s.dedupe
    ensures var t := s.sequence + 1;
      var s' := s.(dedupe := s.dedupe[w.id := Entry(w.hash, t, false)], sequence := t, works := s.works[t := Flight(w, Admitted)]);
      DedupeInv(s') && NoLaterSuccess(s'.dedupe, s'.sunk) && PhasesTell(s'.works, s'.sunk)
  {
    var t := s.sequence + 1;
    var dedupe, works := s.dedupe[w.id := Entry(w.hash, t, false)], s.works[t := Flight(w, Admitted)];
    assert t !in s.works;
    forall u | u in works
      ensures OwnEntry(dedupe, u, works[u])
    {
      if u != t {
        assert OwnEntry(s.dedupe, u, s.works[u]);
      }
    }
    forall id | id in dedupe
      ensures EntryInv(works, s.sunk, id, dedupe[id])
    {
      if id != w.id {
        assert EntryInv(s.works, s.sunk, id, s.dedupe[id]);
      }
    }
  }

  lemma AddingKeepsChannel(works: map<nat, Flight>, channel: seq<nat>, busy: Option<nat>, t: nat, w: Work)
    requires ChannelHolds(works, channel) && WorkerHolds(works, busy) && t !in works
    ensures ChannelHolds(works[t := Flight(w, Admitted)], channel) && WorkerHolds(works[t := Flight(w, Admitted)], busy)
  {
  }

  lemma NewWorkKeepsInv(limits: Limits, s: State, w: Work)
    requires Inv(limits, s) && s.accepting && Sum(s.works, Hand) < limits.concurrentRequests
    requires w.id !in s.dedupe && |s.dedupe| < MAXIMUM_DEDUPE_ENTRIES
    ensures var t := s.sequence + 1;
      Inv(limits, s.(dedupe := s.dedupe[w.id := Entry(w.hash, t, false)], sequence := t, works := s.works[t := Flight(w, Admitted)]))
  {
    hide Sum, WorksOwn, EntriesHold, PhasesTell, ChannelHolds, WorkerHolds, NoRepeats, SunkOnce, NoLaterSuccess, ResultsHold;
    var t := s.sequence + 1;
    AddingKeepsEntries(s, w);
    AddingKeepsChannel(s.works, s.channel, Busy(s), t, w);
    SumWith(s.works, t, Flight(w, Admitted), Count);
    SumWith(s.works, t, Flight(w, Admitted), Size);
    SumWith(s.works, t, Flight(w, Admitted), Hand);
    OneMoreEntry(s.dedupe, w.id, Entry(w.hash, t, false));
  }

  lemma OneMoreEntry(dedupe: map<Identity, Entry>, id: Identity, e: Entry)
    requires id !in dedupe
    ensures |dedupe[id := e]| == |dedupe| + 1
  {
    MapSize(dedupe);
    MapSize(dedupe[id := e]);
    assert dedupe[id := e].Keys == dedupe.Keys + {id};
  }

  lemma PruneKeepsInv(limits: Limits, s: State)
    requires limits.Valid() && Inv(limits, s)
    ensures Inv(limits, s.(dedupe := Pruned(s.dedupe)))
    ensures |Pruned(s.dedupe)| < MAXIMUM_DEDUPE_ENTRIES
  {
    PrunedIsSmall(limits, s);
    PruningKeepsEntries(s);
    hide Sum, Pruned, WorksOwn, EntriesHold, PhasesTell, ChannelHolds, WorkerHolds, NoRepeats, SunkOnce, NoLaterSuccess, ResultsHold,
      TokensDrawn;
  }

  lemma ArriveKeepsInv(limits: Limits, s: State, w: Work)
    requires limits.Valid() && Inv(limits, s) && Enabled(limits, s, Arrive(w))
    ensures Inv(limits, Apply(limits, s, Arrive(w)))
  {
    PruneKeepsInv(limits, s);
    var p := s.(dedupe := Pruned(s.dedupe));
    assert s.accepting && Sum(s.works, Hand) < limits.concurrentRequests;
    hide Inv, Sum, Pruned, Enabled;
    if w.id !in p.dedupe {
      NewWorkKeepsInv(limits, p, w);
    }
    ArrivalIs(limits, s, w);
  }

  lemma ArrivalIs(limits: Limits, s: State, w: Work)
    requires Enabled(limits, s, Arrive(w))
    ensures var p, t := s.(dedupe := Pruned(s.dedupe)), s.sequence + 1;
      Apply(limits, s, Arrive(w))
      == if w.id in p.dedupe then p
         else p.(dedupe := p.dedupe[w.id := Entry(w.hash, t, false)], sequence := t, works := p.works[t := Flight(w, Admitted)])
  {
    hide Pruned, Sum;
  }

  // ---- worker

  lemma PoppingHolds(works: map<nat, Flight>, channel: seq<nat>, p: Phase)
    requires ChannelHolds(works, channel) && WorkerHolds(works, None) && NoRepeats(channel) && channel != []
    requires AtWorker(p)
    ensures var t := channel[0];
      && t in works && works[t].phase == Queued
      && ChannelHolds(works[t := works[t].(phase := p)], channel[1..]) && NoRepeats(channel[1..])
      && WorkerHolds(works[t := works[t].(phase := p)], Some(t))
  {
    var t := channel[0];
    assert t in channel && t !in channel[1..];
    assert channel == [t] + channel[1..];
  }

  lemma TakeKeepsInv(limits: Limits, s: State, step: Step)
    requires Inv(limits, s) && Enabled(limits, s, step) && (step == Take || step == Abandon)
    ensures Inv(limits, Apply(limits, s, step))
  {
    hide Sum, WorksOwn, EntriesHold, PhasesTell, ChannelHolds, WorkerHolds, NoRepeats, SunkOnce, NoLaterSuccess, ResultsHold;
    var t, p := s.channel[0], if step == Take then Running else Failed;
    PoppingHolds(s.works, s.channel, p);
    MoveKeepsEntries(s.works, s.dedupe, s.sunk, t, p);
    MoveKeepsPhases(s.works, s.sunk, t, p);
    MoveSums(s, t, p);
  }

  lemma SinkFailsKeepsInv(limits: Limits, s: State)
    requires Inv(limits, s) && Enabled(limits, s, SinkReturns(false))
    ensures Inv(limits, Apply(limits, s, SinkReturns(false)))
  {
    hide Sum, WorksOwn, EntriesHold, PhasesTell, ChannelHolds, WorkerHolds, NoRepeats, SunkOnce, NoLaterSuccess, ResultsHold;
    var t := Busy(s).value;
    MoveKeepsEntries(s.works, s.dedupe, s.sunk, t, Failed);
    MoveKeepsPhases(s.works, s.sunk, t, Failed);
    MoveKeepsChannel(s.works, s.channel, Busy(s), t, Failed);
    MoveSums(s, t, Failed);
  }

  /** A success of an item that had none: its token is new in the log, and its entry is the identity's latest. */
  lemma SuccessLogged(s: State, t: nat)
    requires DedupeInv(s) && SinkInv(s) && t in s.works && s.works[t].phase == Running
    ensures var w := s.works[t].work; var s' := Moved(s, t, Succeeded).(sunk := s.sunk + [Sunk(w.id, w.hash, t)]);
      DedupeInv(s') && SinkInv(s')
  {
    var w := s.works[t].work;
    var x := Sunk(w.id, w.hash, t);
    MoveKeepsEntries(s.works, s.dedupe, s.sunk, t, Succeeded);
    assert OwnEntry(s.dedupe, t, s.works[t]);
    LogGrows(s, x);
    hide DedupeInv, SinkInv, WorksOwn;
    SuccessTells(s.works, s.sunk, t);
  }

  lemma SuccessTells(works: map<nat, Flight>, sunk: seq<Sunk>, t: nat)
    requires PhasesTell(works, sunk) && t in works && works[t].phase == Running
    ensures var w := works[t].work;
      PhasesTell(works[t := works[t].(phase := Succeeded)], sunk + [Sunk(w.id, w.hash, t)])
    ensures forall x :: x in sunk ==> x.token != t
  {
  }

  lemma LogGrows(s: State, x: Sunk)
    requires EntriesHold(s.dedupe, s.works, s.sunk)
    ensures EntriesHold(s.dedupe, s.works, s.sunk + [x])
  {
    forall id | id in s.dedupe
      ensures EntryInv(s.works, s.sunk + [x], id, s.dedupe[id])
    {
      assert EntryInv(s.works, s.sunk, id, s.dedupe[id]);
    }
  }

  /** A stop's progress is about worker, flags, channel and hands alone. */
  lemma StopUnmoved(s: State, s': State)
    requires StopInv(s, Sum(s.works, Hand), s.channel) && Sum(s'.works, Hand) == Sum(s.works, Hand)
    requires s'.worker == s.worker && s'.accepting == s.accepting && s'.completed == s.completed
    requires s'.cancelled == s.cancelled && s'.channel == s.channel
    ensures forall dedupe, sunk ::
      StopInv(s'.(dedupe := dedupe), Sum(s'.works, Hand), s'.channel) && StopInv(s'.(sunk := sunk), Sum(s'.works, Hand), s'.channel)
  {
    hide Sum;
  }

  lemma SuccessKeepsInv(limits: Limits, s: State, t: nat)
    requires Inv(limits, s) && Busy(s) == Some(t) && At(s, t, Running)
    ensures var w := s.works[t].work; Inv(limits, Moved(s, t, Succeeded).(sunk := s.sunk + [Sunk(w.id, w.hash, t)]))
  {
    SuccessLogged(s, t);
    hide Sum, DedupeInv, SinkInv, ChannelInv, CountInv, StopInv;
    QuietMoveKeepsChannel(s, t, Succeeded);
    QuietMove(limits, s, t, Succeeded);
    StopUnmoved(s, Moved(s, t, Succeeded));
  }

  lemma SinkSucceedsKeepsInv(limits: Limits, s: State)
    requires Inv(limits, s) && Enabled(limits, s, SinkReturns(true))
    ensures Inv(limits, Apply(limits, s, SinkReturns(true)))
  {
    SuccessKeepsInv(limits, s, Busy(s).value);
    hide Inv;
  }

  /** Marking the item's own entry committed, which its sink success backs. */
  lemma MarkedEntries(works: map<nat, Flight>, dedupe: map<Identity, Entry>, sunk: seq<Sunk>, t: nat)
    requires WorksOwn(works, dedupe) && EntriesHold(dedupe, works, sunk) && t in works && works[t].phase == Succeeded
    requires Sunk(works[t].work.id, works[t].work.hash, t) in sunk
    ensures works[t].work.id in dedupe && dedupe[works[t].work.id] == Entry(works[t].work.hash, t, false)
    ensures var id := works[t].work.id; var dedupe' := dedupe[id := dedupe[id].(committed := true)];
      && WorksOwn(works[t := works[t].(phase := Finishing(true))], dedupe')
      && EntriesHold(dedupe', works[t := works[t].(phase := Finishing(true))], sunk)
      && |dedupe'| == |dedupe|
  {
    var id := works[t].work.id;
    assert OwnEntry(dedupe, t, works[t]);
    var dedupe', works' := dedupe[id := dedupe[id].(committed := true)], works[t := works[t].(phase := Finishing(true))];
    forall u | u in works'
      ensures OwnEntry(dedupe', u, works'[u])
    {
      assert OwnEntry(dedupe, u, works[u]);
    }
    forall other | other in dedupe'
      ensures EntryInv(works', sunk, other, dedupe'[other])
    {
      assert EntryInv(works, sunk, other, dedupe[other]);
    }
    MapSize(dedupe);
    MapSize(dedupe');
    assert dedupe'.Keys == dedupe.Keys;
  }

  lemma MarkKeepsEntries(s: State, t: nat)
    requires DedupeInv(s) && SinkInv(s) && t in s.works && s.works[t].phase == Succeeded
    ensures var id := s.works[t].work.id;
      && id in s.dedupe
      && var s' := Moved(s, t, Finishing(true)).(dedupe := s.dedupe[id := s.dedupe[id].(committed := true)]);
         DedupeInv(s') && SinkInv(s') && |s'.dedupe| == |s.dedupe|
  {
    hide WorksOwn, EntriesHold, SunkOnce, ResultsHold;
    MarkedEntries(s.works, s.dedupe, s.sunk, t);
    MoveKeepsPhases(s.works, s.sunk, t, Finishing(true));
  }

  lemma MarkingKeepsInv(limits: Limits, s: State, t: nat)
    requires Inv(limits, s) && Busy(s) == Some(t) && At(s, t, Succeeded)
    ensures var id := s.works[t].work.id;
      && id in s.dedupe
      && Inv(limits, Moved(s, t, Finishing(true)).(dedupe := s.dedupe[id := s.dedupe[id].(committed := true)]))
  {
    MarkKeepsEntries(s, t);
    hide Sum, DedupeInv, SinkInv, ChannelInv, CountInv, StopInv;
    QuietMoveKeepsChannel(s, t, Finishing(true));
    QuietMove(limits, s, t, Finishing(true));
    StopUnmoved(s, Moved(s, t, Finishing(true)));
  }

  lemma MarkKeepsInv(limits: Limits, s: State)
    requires Inv(limits, s) && Enabled(limits, s, Mark)
    ensures Inv(limits, Apply(limits, s, Mark))
  {
    MarkingKeepsInv(limits, s, Busy(s).value);
    hide Inv;
  }

  /** Dropping the entry of a failed item, which stays behind settled. */
  lemma ForgottenEntries(works: map<nat, Flight>, dedupe: map<Identity, Entry>, sunk: seq<Sunk>, t: nat)
    requires WorksOwn(works, dedupe) && EntriesHold(dedupe, works, sunk) && t in works && !Settled(works[t].phase)
    ensures WorksOwn(works[t := works[t].(phase := Finishing(false))], dedupe - {works[t].work.id})
    ensures EntriesHold(dedupe - {works[t].work.id}, works[t := works[t].(phase := Finishing(false))], sunk)
  {
    var id := works[t].work.id;
    var works' := works[t := works[t].(phase := Finishing(false))];
    ClosingKeepsEntries(works, dedupe, sunk, t);
    forall u | u in works'
      ensures OwnEntry(dedupe - {id}, u, works'[u])
    {
      if u != t {
        assert OwnEntry(dedupe - {id}, u, (works - {t})[u]);
      }
    }
    forall other | other in dedupe - {id}
      ensures EntryInv(works', sunk, other, (dedupe - {id})[other])
    {
      assert EntryInv(works - {t}, sunk, other, (dedupe - {id})[other]);
    }
  }

  lemma ForgetKeepsEntries(s: State, t: nat)
    requires DedupeInv(s) && SinkInv(s) && t in s.works && s.works[t].phase == Failed
    ensures var id := s.works[t].work.id;
      var s' := Moved(s, t, Finishing(false)).(dedupe := s.dedupe - {id});
      DedupeInv(s') && SinkInv(s') && |s'.dedupe| <= |s.dedupe|
  {
    hide WorksOwn, EntriesHold, SunkOnce, ResultsHold, NoLaterSuccess, PhasesTell;
    ForgottenEntries(s.works, s.dedupe, s.sunk, t);
    DroppingEntries(s, {s.works[t].work.id});
    MoveKeepsPhases(s.works, s.sunk, t, Finishing(false));
  }

  lemma ForgettingKeepsInv(limits: Limits, s: State, t: nat)
    requires Inv(limits, s) && Busy(s) == Some(t) && At(s, t, Failed)
    ensures Inv(limits, Moved(s, t, Finishing(false)).(dedupe := s.dedupe - {s.works[t].work.id}))
  {
    ForgetKeepsEntries(s, t);
    hide Sum, DedupeInv, SinkInv, ChannelInv, CountInv, StopInv;
    QuietMoveKeepsChannel(s, t, Finishing(false));
    QuietMove(limits, s, t, Finishing(false));
    StopUnmoved(s, Moved(s, t, Finishing(false)));
  }

  lemma ForgetKeepsInv(limits: Limits, s: State)
    requires Inv(limits, s) && Enabled(limits, s, Forget)
    ensures Inv(limits, Apply(limits, s, Forget))
  {
    ForgettingKeepsInv(limits, s, Busy(s).value);
    hide Inv;
  }

  lemma SettledClosingKeepsEntries(works: map<nat, Flight>, dedupe: map<Identity, Entry>, sunk: seq<Sunk>, t: nat)
    requires WorksOwn(works, dedupe) && EntriesHold(dedupe, works, sunk) && t in works && Settled(works[t].phase)
    ensures WorksOwn(works - {t}, dedupe) && EntriesHold(dedupe, works - {t}, sunk)
  {
    forall id | id in dedupe
      ensures EntryInv(works - {t}, sunk, id, dedupe[id])
    {
      assert EntryInv(works, sunk, id, dedupe[id]);
    }
  }

  lemma IdleAgain(works: map<nat, Flight>, t: nat)
    requires WorkerHolds(works, Some(t))
    ensures WorkerHolds(works - {t}, None)
  {
  }

  lemma FinishedKeepsEntries(s: State, t: nat)
    requires DedupeInv(s) && SinkInv(s) && ChannelInv(s.works, s.channel, Busy(s))
    requires Busy(s) == Some(t) && t in s.works && s.works[t].phase.Finishing?
    ensures DedupeInv(Finished(s, t)) && SinkInv(Finished(s, t)) && ChannelInv(s.works - {t}, s.channel, None)
  {
    hide WorksOwn, EntriesHold, PhasesTell, ChannelHolds, WorkerHolds, NoRepeats, SunkOnce, NoLaterSuccess, ResultsHold;
    SettledClosingKeepsEntries(s.works, s.dedupe, s.sunk, t);
    ClosingKeepsRest(s, t, s.works[t].phase.ok);
    IdleAgain(s.works, t);
  }

  lemma FinishedKeepsCounts(limits: Limits, s: State, t: nat)
    requires CountInv(limits, s.works, s.queuedBatches, s.queuedBytes) && StopInv(s, Sum(s.works, Hand), s.channel)
    requires Busy(s) == Some(t) && t in s.works && s.works[t].phase.Finishing?
    ensures var s' := Finished(s, t);
      CountInv(limits, s'.works, s'.queuedBatches, s'.queuedBytes) && StopInv(s', Sum(s'.works, Hand), s'.channel)
  {
    CloseSums(s, t);
    hide Sum;
  }

  lemma FinishingKeepsInv(limits: Limits, s: State, t: nat)
    requires Inv(limits, s) && Busy(s) == Some(t) && t in s.works && s.works[t].phase.Finishing?
    ensures Inv(limits, Finished(s, t))
  {
    FinishedKeepsEntries(s, t);
    FinishedKeepsCounts(limits, s, t);
    hide DedupeInv, SinkInv, ChannelInv, CountInv, StopInv, Sum;
  }

  lemma FinishIs(limits: Limits, s: State)
    requires Enabled(limits, s, Finish)
    ensures Busy(s).Some? && Busy(s).value in s.works && s.works[Busy(s).value].phase.Finishing?
    ensures Apply(limits, s, Finish) == Finished(s, Busy(s).value)
  {
    hide Sum, Pruned, Finished;
  }

  lemma FinishKeepsInv(limits: Limits, s: State)
    requires Inv(limits, s) && Enabled(limits, s, Finish)
    ensures Inv(limits, Apply(limits, s, Finish))
  {
    hide Inv, Enabled, Apply, Finished;
    FinishIs(limits, s);
    FinishingKeepsInv(limits, s, Busy(s).value);
  }

  lemma FlagsKeepInv(limits: Limits, s: State, step: Step)
    requires Inv(limits, s) && Enabled(limits, s, step)
    requires step.StopReading? || step.EndDraining? || step.CompleteGracefully? || step.Cancel? || step.CompleteForced?
    ensures Inv(limits, Apply(limits, s, step))
  {
    hide Sum, WorksOwn, EntriesHold, PhasesTell, ChannelHolds, WorkerHolds, NoRepeats, SunkOnce, NoLaterSuccess, ResultsHold;
  }

  lemma StepsKeepInv(limits: Limits, s: State, step: Step)
    requires limits.Valid() && Inv(limits, s) && Enabled(limits, s, step)
    ensures Inv(limits, Apply(limits, s, step))
  {
    hide *;
    match step
    case Arrive(w) => ArriveKeepsInv(limits, s, w);
    case Reserve(t) => ReserveKeepsInv(limits, s, t);
    case Write(t) => WriteKeepsInv(limits, s, t);
    case ReleaseUnwritten(t) => ReleaseUnwrittenKeepsInv(limits, s, t);
    case Withdraw(t) => WithdrawKeepsInv(limits, s, t);
    case Take => TakeKeepsInv(limits, s, step);
    case Abandon => TakeKeepsInv(limits, s, step);
    case SinkReturns(ok) =>
      if ok {
        SinkSucceedsKeepsInv(limits, s);
      } else {
        SinkFailsKeepsInv(limits, s);
      }
    case Mark => MarkKeepsInv(limits, s);
    case Forget => ForgetKeepsInv(limits, s);
    case Finish => FinishKeepsInv(limits, s);
    case _ => FlagsKeepInv(limits, s, step);
  }

  // --------------------------------------------------------------- whole runs

  /** Any interleaving of the handlers', the worker's and the stopping caller's steps. */
  ghost predicate Run(limits: Limits, states: seq<State>, steps: seq<Step>) {
    && |states| == |steps| + 1 && states[0] == INITIAL
    && forall i :: 0 <= i < |steps| ==>
         Enabled(limits, states[i], steps[i]) && states[i + 1] == Apply(limits, states[i], steps[i])
  }

  lemma InitiallyInv(limits: Limits)
    requires limits.Valid()
    ensures Inv(limits, INITIAL)
  {
    assert Weights(map[], Count) == map[] && Weights(map[], Size) == map[] && Weights(map[], Hand) == map[];
  }

  lemma {:induction false} RunsKeepInv(limits: Limits, states: seq<State>, steps: seq<Step>, i: nat)
    requires limits.Valid() && Run(limits, states, steps) && i < |states|
    ensures Inv(limits, states[i])
  {
    hide Inv, Enabled, Apply;
    if i == 0 {
      InitiallyInv(limits);
    } else {
      RunsKeepInv(limits, states, steps, i - 1);
      StepsKeepInv(limits, states[i - 1], steps[i - 1]);
    }
  }

  /** In every state the counters are the reservations in flight, within bounds, and nothing has been dropped. */
  lemma QueueNeverDrops(limits: Limits, states: seq<State>, steps: seq<Step>, i: nat)
    requires limits.Valid() && Run(limits, states, steps) && i < |states|
    ensures var s := states[i];
      && s.dropped == {}
      && s.queuedBatches == Sum(s.works, Count) <= limits.queuedBatches
      && s.queuedBytes == Sum(s.works, Size) <= limits.queuedBytes
      && |s.channel| <= s.queuedBatches
      && |s.dedupe| <= MAXIMUM_DEDUPE_ENTRIES
  {
    RunsKeepInv(limits, states, steps, i);
    ChannelWithinCount(states[i]);
  }

  lemma ChannelWithinCount(s: State)
    requires ChannelHolds(s.works, s.channel) && NoRepeats(s.channel)
    ensures |s.channel| <= Sum(s.works, Count)
  {
    ChannelSize(s.channel);
    TotalCounts(Weights(s.works, Count), TokensOf(s.channel));
  }

  /** Two unsettled items never share an identity. */
  lemma OneInFlightPerIdentity(limits: Limits, states: seq<State>, steps: seq<Step>, i: nat, t: nat, u: nat)
    requires limits.Valid() && Run(limits, states, steps) && i < |states|
    requires t in states[i].works && u in states[i].works
    requires !Settled(states[i].works[t].phase) && !Settled(states[i].works[u].phase)
    requires states[i].works[t].work.id == states[i].works[u].work.id
    ensures t == u
  {
    RunsKeepInv(limits, states, steps, i);
    var s := states[i];
    assert OwnEntry(s.dedupe, t, s.works[t]) && OwnEntry(s.dedupe, u, s.works[u]);
  }

  /**
  While an entry is retained the sink has succeeded for its identity at most once since the entry was
  made: any two logged successes that are not older than the entry are the same one.
   */
  lemma SinkSucceedsOncePerEntry(limits: Limits, states: seq<State>, steps: seq<Step>, i: nat, id: Identity, a: nat, b: nat)
    requires limits.Valid() && Run(limits, states, steps) && i < |states| && id in states[i].dedupe
    requires a < |states[i].sunk| && b < |states[i].sunk|
    requires states[i].sunk[a].id == id && states[i].sunk[b].id == id
    requires states[i].sunk[a].token >= states[i].dedupe[id].token && states[i].sunk[b].token >= states[i].dedupe[id].token
    ensures a == b
  {
    RunsKeepInv(limits, states, steps, i);
    var s := states[i];
    assert s.sunk[a] in s.sunk && s.sunk[b] in s.sunk;
  }

  /** "Duplicate" is answered only for the very bytes a successful sink call committed under this identity. */
  lemma DuplicateMeansCommitted(limits: Limits, states: seq<State>, steps: seq<Step>, i: nat, w: Work)
    requires limits.Valid() && Run(limits, states, steps) && i < |states|
    requires AnswerTo(Pruned(states[i].dedupe), states[i].sequence, w) == Duplicate
    ensures exists t :: Sunk(w.id, w.hash, t) in states[i].sunk
  {
    RunsKeepInv(limits, states, steps, i);
    var s := states[i];
    PruningForgetsCommitted(s.dedupe);
    assert EntryInv(s.works, s.sunk, w.id, s.dedupe[w.id]);
  }

  /**
  What an arriving request learns in every reachable state, from the entries that survive pruning: other
  bytes under its identity are a conflict whether committed or not, the same bytes are a duplicate once
  committed and before that join the very item in flight, and an unknown identity draws a fresh number.
   */
  lemma ArrivalLearns(limits: Limits, states: seq<State>, steps: seq<Step>, i: nat, w: Work)
    requires limits.Valid() && Run(limits, states, steps) && i < |states|
    ensures var s, kept := states[i], Pruned(states[i].dedupe);
      var answer := AnswerTo(kept, s.sequence, w);
      && (answer == Conflict <==> w.id in kept && kept[w.id].hash != w.hash)
      && (answer == Duplicate <==> w.id in kept && kept[w.id].hash == w.hash && kept[w.id].committed)
      && (answer.Join? <==> w.id in kept && kept[w.id].hash == w.hash && !kept[w.id].committed)
      && (answer.Join? ==>
            answer.token in s.works && s.works[answer.token].work == w && !s.works[answer.token].phase.Finishing?)
      && (answer.New? <==> w.id !in kept)
      && (answer.New? ==>
            answer.token !in s.works && (forall x :: x in s.sunk ==> x.token < answer.token)
            && forall id :: id in s.dedupe ==> s.dedupe[id].token < answer.token)
  {
    RunsKeepInv(limits, states, steps, i);
    var s := states[i];
    PruningForgetsCommitted(s.dedupe);
    if w.id in Pruned(s.dedupe) {
      assert EntryInv(s.works, s.sunk, w.id, s.dedupe[w.id]);
    }
    hide Pruned, CountInv, ChannelInv, StopInv, SinkInv;
  }

  /** A reported success is backed by a sink success of that very item. */
  lemma ReportedSuccessIsReal(limits: Limits, states: seq<State>, steps: seq<Step>, i: nat, t: nat)
    requires limits.Valid() && Run(limits, states, steps) && i < |states|
    requires t in states[i].results && states[i].results[t]
    ensures exists x :: x in states[i].sunk && x.token == t
  {
    RunsKeepInv(limits, states, steps, i);
  }

  /** An idle queue takes any envelope the processor may hand on. */
  lemma IdleQueueAccepts(limits: Limits, s: State, t: nat)
    requires limits.Valid() && Inv(limits, s) && Enabled(limits, s, Reserve(t)) && s.queuedBatches == 0
    requires |s.works[t].work.hash| <= limits.reassembledBytes
    ensures At(Apply(limits, s, Reserve(t)), t, Reserved)
  {
    SizeNeedsCount(s.works);
  }

  lemma {:induction false} SizeNeedsCount(works: map<nat, Flight>)
    ensures Sum(works, Count) == 0 ==> Sum(works, Size) == 0
    decreases |works|
  {
    if works != map[] {
      var t :| t in works;
      SumWithout(works, t, Count);
      SumWithout(works, t, Size);
      MapSize(works);
      MapSize(works - {t});
      assert (works - {t}).Keys == works.Keys - {t};
      SizeNeedsCount(works - {t});
    } else {
      assert Weights(works, Size) == map[];
    }
  }

  /**
  After a graceful stop nothing is left anywhere: no item in flight, both counters zero, and every
  remembered entry committed.
   */
  lemma GracefulStopLeavesNothing(limits: Limits, states: seq<State>, steps: seq<Step>, i: nat)
    requires limits.Valid() && Run(limits, states, steps) && i < |states|
    requires states[i].worker == Ended && !states[i].cancelled
    ensures var s := states[i];
      && s.works == map[] && s.channel == [] && s.queuedBatches == 0 && s.queuedBytes == 0
      && forall id :: id in s.dedupe ==> s.dedupe[id].committed
  {
    RunsKeepInv(limits, states, steps, i);
    var s := states[i];
    if t :| t in s.works {
      if InHand(s.works[t].phase) {
        HandsFull(s, t);
      }
      assert false;
    }
    assert Weights(s.works, Count) == map[] && Weights(s.works, Size) == map[];
    forall id | id in s.dedupe
      ensures s.dedupe[id].committed
    {
      assert EntryInv(s.works, s.sunk, id, s.dedupe[id]);
    }
  }
}
