/**
The lock bodies of the ingest host as methods on its shared fields. Each is proved to be its step of
IngestProtocol, whose theorems are about every interleaving of them. Ghost fields say where each work
item is; the code itself keeps that in its threads.
 */
module IngestHost {
  import opened Common
  import opened IngestLimits
  import opened Sums
  import opened IngestProtocol

  /** Committed entries have tokens of their own, so "oldest" names one entry. */
  lemma OldestIsUnique(s: State, dedupe: map<Identity, Entry>, a: Identity, b: Identity)
    requires EntriesHold(s.dedupe, s.works, s.sunk) && SunkOnce(s.sunk)
    requires forall id :: id in dedupe ==> id in s.dedupe && dedupe[id] == s.dedupe[id]
    requires Oldest(dedupe, a) && Oldest(dedupe, b)
    ensures a == b
  {
    assert EntryInv(s.works, s.sunk, a, s.dedupe[a]) && EntryInv(s.works, s.sunk, b, s.dedupe[b]);
    var i :| 0 <= i < |s.sunk| && s.sunk[i] == Sunk(a, s.dedupe[a].hash, s.dedupe[a].token);
    var j :| 0 <= j < |s.sunk| && s.sunk[j] == Sunk(b, s.dedupe[b].hash, s.dedupe[b].token);
    assert !(i < j) && !(j < i);
  }

  lemma PruneStep(s: State, dedupe: map<Identity, Entry>, id: Identity)
    requires EntriesHold(s.dedupe, s.works, s.sunk) && SunkOnce(s.sunk)
    requires forall x :: x in dedupe ==> x in s.dedupe && dedupe[x] == s.dedupe[x]
    requires |dedupe| >= MAXIMUM_DEDUPE_ENTRIES && Oldest(dedupe, id)
    ensures Pruned(dedupe) == Pruned(dedupe - {id})
  {
    assert HasCommitted(dedupe);
    var x :| Oldest(dedupe, x) && Pruned(dedupe) == Pruned(dedupe - {x});
    OldestIsUnique(s, dedupe, x, id);
  }

  // The lock bodies' steps, spelled out.

  lemma ReserveIs(limits: Limits, s: State, t: nat)
    requires Enabled(limits, s, Reserve(t))
    ensures At(s, t, Admitted)
    ensures var bytes := |s.works[t].work.hash|;
      Apply(limits, s, Reserve(t))
      == if s.queuedBatches >= limits.queuedBatches || s.queuedBytes + bytes > limits.queuedBytes then Moved(s, t, Refused)
         else Moved(s, t, Reserved).(queuedBatches := s.queuedBatches + 1, queuedBytes := s.queuedBytes + bytes)
  {
    hide Sum, Pruned;
  }

  lemma ReleaseUnwrittenIs(limits: Limits, s: State, t: nat)
    requires Enabled(limits, s, ReleaseUnwritten(t))
    ensures At(s, t, Releasing)
    ensures Apply(limits, s, ReleaseUnwritten(t))
         == Moved(s, t, Refused).(
              queuedBatches := s.queuedBatches - 1, queuedBytes := s.queuedBytes - |s.works[t].work.hash|)
  {
    hide Sum, Pruned;
  }

  lemma WithdrawIs(limits: Limits, s: State, t: nat)
    requires Inv(limits, s) && Enabled(limits, s, Withdraw(t))
    ensures t in s.works && s.works[t].work.id in s.dedupe && s.dedupe[s.works[t].work.id].token == t
    ensures Apply(limits, s, Withdraw(t)) == Closed(s.(dedupe := s.dedupe - {s.works[t].work.id}), t, false)
  {
    ClosingKeepsEntries(s.works, s.dedupe, s.sunk, t);
    hide Sum, Pruned, Inv;
  }

  lemma MarkingIsOwn(limits: Limits, s: State)
    requires Inv(limits, s) && BusyAt(s, Succeeded)
    ensures var t, w := Busy(s).value, s.works[Busy(s).value].work;
      w.id in s.dedupe && s.dedupe[w.id] == Entry(w.hash, t, false)
  {
    assert OwnEntry(s.dedupe, Busy(s).value, s.works[Busy(s).value]);
  }

  lemma MarkIs(limits: Limits, s: State)
    requires Inv(limits, s) && Enabled(limits, s, Mark)
    ensures Busy(s).Some? && Busy(s).value in s.works
    ensures var t, w := Busy(s).value, s.works[Busy(s).value].work;
      && w.id in s.dedupe && s.dedupe[w.id] == Entry(w.hash, t, false)
      && Apply(limits, s, Mark) == Moved(s, t, Finishing(true)).(dedupe := s.dedupe[w.id := Entry(w.hash, t, true)])
  {
    MarkingIsOwn(limits, s);
    hide Sum, Pruned, Inv;
  }

  lemma ForgettingIsOwn(limits: Limits, s: State)
    requires Inv(limits, s) && BusyAt(s, Failed)
    ensures var id := s.works[Busy(s).value].work.id;
      id in s.dedupe && s.dedupe[id].token == Busy(s).value
  {
    assert OwnEntry(s.dedupe, Busy(s).value, s.works[Busy(s).value]);
  }

  lemma ForgetIs(limits: Limits, s: State)
    requires Inv(limits, s) && Enabled(limits, s, Forget)
    ensures Busy(s).Some? && Busy(s).value in s.works
    ensures var t, id := Busy(s).value, s.works[Busy(s).value].work.id;
      && id in s.dedupe && s.dedupe[id].token == t
      && Apply(limits, s, Forget) == Moved(s, t, Finishing(false)).(dedupe := s.dedupe - {id})
  {
    ForgettingIsOwn(limits, s);
    hide Sum, Pruned, Inv;
  }

  class IngestHost {
    const limits: Limits
    var dedupe: map<Identity, Entry>
    var sequence: nat
    var channel: seq<nat>
    var queuedBatches: int
    var queuedBytes: int
    var completed: bool
    ghost var works: map<nat, Flight>
    ghost var worker: Worker
    ghost var accepting: bool
    ghost var cancelled: bool
    ghost var results: map<nat, bool>
    ghost var sunk: seq<Sunk>
    ghost var dropped: set<nat>

    ghost function Contents(): State
      reads this
    {
      State(dedupe, sequence, works, channel, worker, queuedBatches, queuedBytes, accepting, completed, cancelled,
            results, sunk, dropped)
    }

    ghost predicate Valid()
      reads this
    {
      limits.Valid() && Inv(limits, Contents())
    }

    constructor (limits: Limits)
      requires limits.Valid()
      ensures Valid() && Contents() == INITIAL && this.limits == limits
    {
      this.limits := limits;
      dedupe, sequence, channel, queuedBatches, queuedBytes, completed := map[], 0, [], 0, 0, false;
      works, worker, accepting, cancelled := map[], Reading, true, false;
      results, sunk, dropped := map[], [], {};
      InitiallyInv(limits);
    }

    /** The committed entry with the smallest sequence number, if there is one. */
    method OldestCommitted() returns (oldest: Option<Identity>)
      ensures oldest.Some? ==> Oldest(dedupe, oldest.value)
      ensures oldest.None? ==> !HasCommitted(dedupe)
    {
      oldest := None;
      var rest := dedupe.Keys;
      while rest != {}
        invariant rest <= dedupe.Keys
        invariant oldest.Some? ==> oldest.value in dedupe && dedupe[oldest.value].committed
        invariant oldest.Some? ==> forall id :: id in dedupe && id !in rest && dedupe[id].committed ==>
          dedupe[oldest.value].token <= dedupe[id].token
        invariant oldest.None? ==> forall id :: id in dedupe && id !in rest ==> !dedupe[id].committed
        decreases rest
      {
        var id :| id in rest;
        rest := rest - {id};
        if dedupe[id].committed && (oldest.None? || dedupe[id].token < dedupe[oldest.value].token) {
          oldest := Some(id);
        }
      }
    }

    /** Forgets committed entries, oldest first, until the map has room or holds none. */
    method PruneDedupe()
      requires Valid()
      modifies this`dedupe
      ensures dedupe == Pruned(old(dedupe))
    {
      ghost var s := Contents();
      while |dedupe| >= MAXIMUM_DEDUPE_ENTRIES
        invariant forall id :: id in dedupe ==> id in s.dedupe && dedupe[id] == s.dedupe[id]
        invariant Pruned(dedupe) == Pruned(s.dedupe)
        decreases |dedupe|
      {
        var oldest := OldestCommitted();
        if oldest.None? {
          break;
        }
        PruneStep(s, dedupe, oldest.value);
        Shrinks(dedupe, oldest.value);
        dedupe := dedupe - {oldest.value};
      }
    }

    /** A handler looks its request up, and enters it when it is new. */
    method Arrive(w: Work) returns (answer: Answer)
      requires Valid() && Enabled(limits, Contents(), Step.Arrive(w))
      modifies this
      ensures Valid()
      ensures answer == AnswerTo(Pruned(old(dedupe)), old(sequence), w)
      ensures var kept := Pruned(old(dedupe));
        && (answer == Conflict <==> w.id in kept && kept[w.id].hash != w.hash)
        && (answer == Duplicate <==> w.id in kept && kept[w.id].hash == w.hash && kept[w.id].committed)
        && (answer.Join? <==> w.id in kept && kept[w.id].hash == w.hash && !kept[w.id].committed)
        && (answer.Join? ==> answer.token == kept[w.id].token)
        && (answer.New? <==> w.id !in kept)
        && dedupe == (if answer.New? then kept[w.id := Entry(w.hash, answer.token, false)] else kept)
      ensures Contents() == Apply(limits, old(Contents()), Step.Arrive(w))
    {
      hide Inv, Enabled, Apply, Pruned;
      StepsKeepInv(limits, Contents(), Step.Arrive(w));
      ArrivalIs(limits, Contents(), w);
      PruneDedupe();
      if w.id in dedupe {
        var existing := dedupe[w.id];
        if existing.hash != w.hash {
          return Conflict;
        }
        return if existing.committed then Duplicate else Join(existing.token);
      }
      sequence := sequence + 1;
      dedupe := dedupe[w.id := Entry(w.hash, sequence, false)];
      works := works[sequence := Flight(w, Admitted)];
      return New(sequence);
    }

    /** A handler reserves a place and bytes in the queue. */
    method TryReserve(t: nat, bytes: nat) returns (reserved: bool)
      requires Valid() && Enabled(limits, Contents(), Reserve(t)) && bytes == |works[t].work.hash|
      modifies this
      ensures Valid() && Contents() == Apply(limits, old(Contents()), Reserve(t))
      ensures reserved <==> At(Contents(), t, Reserved)
      ensures reserved <==> old(queuedBatches) < limits.queuedBatches && old(queuedBytes) + bytes <= limits.queuedBytes
      ensures queuedBatches == old(queuedBatches) + (if reserved then 1 else 0)
      ensures queuedBytes == old(queuedBytes) + (if reserved then bytes else 0)
    {
      hide Inv, Enabled, Apply;
      StepsKeepInv(limits, Contents(), Reserve(t));
      ReserveIs(limits, Contents(), t);
      if queuedBatches >= limits.queuedBatches || queuedBytes + bytes > limits.queuedBytes {
        works := works[t := works[t].(phase := Refused)];
        return false;
      }
      queuedBatches := queuedBatches + 1;
      queuedBytes := queuedBytes + bytes;
      works := works[t := works[t].(phase := Reserved)];
      return true;
    }

    /** Writes to the channel, which would silently drop the item if it were full. It never is. */
    method TryWrite(t: nat) returns (written: bool)
      requires Valid() && Enabled(limits, Contents(), Write(t))
      modifies this
      ensures Valid() && Contents() == Apply(limits, old(Contents()), Write(t))
      ensures written <==> !old(completed)
      ensures written ==> channel == old(channel) + [t]
    {
      hide Inv, Enabled, Apply;
      StepsKeepInv(limits, Contents(), Write(t));
      WriteNeverDrops(limits, Contents(), t);
      if completed {
        works := works[t := works[t].(phase := Releasing)];
        return false;
      }
      channel := channel + [t];
      works := works[t := works[t].(phase := Queued)];
      return true;
    }

    /** Gives a reservation back after a refused write. */
    method ReleaseQueued(t: nat, bytes: nat)
      requires Valid() && Enabled(limits, Contents(), ReleaseUnwritten(t)) && bytes == |works[t].work.hash|
      modifies this
      ensures Valid() && Contents() == Apply(limits, old(Contents()), ReleaseUnwritten(t))
    {
      hide Inv, Enabled, Apply;
      StepsKeepInv(limits, Contents(), ReleaseUnwritten(t));
      ReleaseUnwrittenIs(limits, Contents(), t);
      queuedBatches := queuedBatches - 1;
      queuedBytes := queuedBytes - bytes;
      works := works[t := works[t].(phase := Refused)];
    }

    /** Takes back the entry of an item that found no place, if it is still that item's. */
    method WithdrawEntry(t: nat, id: Identity)
      requires Valid() && Enabled(limits, Contents(), Withdraw(t)) && id == works[t].work.id
      modifies this
      ensures Valid() && Contents() == Apply(limits, old(Contents()), Withdraw(t))
      ensures id !in dedupe
    {
      hide Inv, Enabled, Apply;
      StepsKeepInv(limits, Contents(), Withdraw(t));
      WithdrawIs(limits, Contents(), t);
      if id in dedupe && dedupe[id].token == t {
        dedupe := dedupe - {id};
      }
      works := works - {t};
      results := results[t := false];
    }

    /** The worker, busy with item t, marks its entry after the sink call succeeded. */
    method MarkCommitted(id: Identity, ghost t: nat)
      requires Valid() && Enabled(limits, Contents(), Mark)
      requires Busy(Contents()) == Some(t) && t in works && id == works[t].work.id
      modifies this
      ensures Valid() && Contents() == Apply(limits, old(Contents()), Mark)
      ensures id in dedupe && dedupe[id] == Entry(old(works[t].work.hash), t, true)
    {
      hide Inv, Enabled, Apply, Busy;
      StepsKeepInv(limits, Contents(), Mark);
      MarkIs(limits, Contents());
      if id in dedupe {
        dedupe := dedupe[id := dedupe[id].(committed := true)];
      }
      works := works[t := works[t].(phase := Finishing(true))];
    }

    /** The worker, busy with item t that failed or was abandoned, forgets its entry: its own and no other. */
    method RemoveFailedDedupe(id: Identity, ghost t: nat)
      requires Valid() && Enabled(limits, Contents(), Forget)
      requires Busy(Contents()) == Some(t) && t in works && id == works[t].work.id
      modifies this
      ensures Valid() && Contents() == Apply(limits, old(Contents()), Forget)
      ensures id in old(dedupe) && old(dedupe)[id].token == t && id !in dedupe
    {
      hide Inv, Enabled, Apply, Busy;
      StepsKeepInv(limits, Contents(), Forget);
      ForgetIs(limits, Contents());
      dedupe := dedupe - {id};
      works := works[t := works[t].(phase := Finishing(false))];
    }
  }

  // ------------------------------------------------------------ the order of the queue

  /** The items that entered the channel before state i, in order. */
  function Entered(states: seq<State>, steps: seq<Step>, i: nat): seq<nat>
    requires |states| == |steps| + 1 && i < |states|
  {
    if i == 0 then []
    else
      Entered(states, steps, i - 1)
      + if steps[i - 1].Write? && !states[i - 1].completed then [steps[i - 1].token] else []
  }

  /** The items the worker took out of it, to run or to abandon, in order. */
  function TakenOut(states: seq<State>, steps: seq<Step>, i: nat): seq<nat>
    requires |states| == |steps| + 1 && i < |states|
  {
    if i == 0 then []
    else
      var worker := states[i].worker;
      TakenOut(states, steps, i - 1)
      + if (steps[i - 1].Take? && worker.Working?) || (steps[i - 1].Abandon? && worker.Abandoning?) then [worker.token] else []
  }

  lemma TakingIs(limits: Limits, s: State, step: Step)
    requires Enabled(limits, s, step) && (step.Take? || step.Abandon?)
    ensures s.channel != [] && Apply(limits, s, step).channel == s.channel[1..]
    ensures Apply(limits, s, step).worker == if step.Take? then Working(s.channel[0]) else Abandoning(s.channel[0])
  {
    hide Sum, Pruned;
  }

  lemma WorkerStepsKeepChannel(limits: Limits, s: State, step: Step)
    requires Enabled(limits, s, step)
    requires step.SinkReturns? || step.Mark? || step.Forget? || step.Finish? || step.StopReading? || step.EndDraining?
    ensures Apply(limits, s, step).channel == s.channel
  {
    hide Sum, Pruned;
  }

  /** How one step moves the channel: a write to the open channel enters at the end, the worker takes the first. */
  lemma ChannelMoves(limits: Limits, s: State, step: Step)
    requires Inv(limits, s) && Enabled(limits, s, step)
    ensures var s' := Apply(limits, s, step);
      if step.Write? && !s.completed then s'.channel == s.channel + [step.token]
      else if step.Take? || step.Abandon? then
        && s.channel != [] && s'.channel == s.channel[1..]
        && s'.worker == if step.Take? then Working(s.channel[0]) else Abandoning(s.channel[0])
      else s'.channel == s.channel
  {
    hide Inv, Enabled, Apply, Pruned;
    match step
    case Arrive(w) => ArrivalIs(limits, s, w);
    case Reserve(t) => ReserveIs(limits, s, t);
    case Write(t) => WriteNeverDrops(limits, s, t);
    case ReleaseUnwritten(t) => ReleaseUnwrittenIs(limits, s, t);
    case Withdraw(t) => WithdrawIs(limits, s, t);
    case Take => TakingIs(limits, s, step);
    case Abandon => TakingIs(limits, s, step);
    case CompleteGracefully => StopStepsTouchFlags(limits, s, step);
    case Cancel => StopStepsTouchFlags(limits, s, step);
    case CompleteForced => StopStepsTouchFlags(limits, s, step);
    case _ => WorkerStepsKeepChannel(limits, s, step);
  }

  /** First in, first out, and nothing lost: what has entered is what was taken out and then what is still inside. */
  lemma {:induction false} QueueIsInOrder(limits: Limits, states: seq<State>, steps: seq<Step>, i: nat)
    requires limits.Valid() && Run(limits, states, steps) && i < |states|
    ensures |states| == |steps| + 1 && Entered(states, steps, i) == TakenOut(states, steps, i) + states[i].channel
  {
    hide Inv, Enabled, Apply;
    if i > 0 {
      QueueIsInOrder(limits, states, steps, i - 1);
      StepOfRun(limits, states, steps, i - 1);
      ChannelMoves(limits, states[i - 1], steps[i - 1]);
      hide Run;
      var before := states[i - 1].channel;
      if steps[i - 1].Take? || steps[i - 1].Abandon? {
        assert before == [before[0]] + before[1..];
      }
    }
  }

  // -------------------------------------------------------- what is reported, exactly

  predicate WasSunk(s: State, t: nat) { exists x :: x in s.sunk && x.token == t }

  /** A reported item is closed for good, and reported as a success exactly when the sink succeeded for it. */
  predicate ReportsExactly(s: State) {
    forall t :: t in s.results ==> t !in s.works && t <= s.sequence && (s.results[t] <==> WasSunk(s, t))
  }

  lemma ClosingReports(s: State, t: nat, ok: bool)
    requires ReportsExactly(s) && PhasesTell(s.works, s.sunk) && TokensDrawn(s)
    requires t in s.works && ok == HasSunk(s.works[t].phase)
    ensures ReportsExactly(Closed(s, t, ok))
  {
    var s' := Closed(s, t, ok);
    if ok {
      assert Sunk(s.works[t].work.id, s.works[t].work.hash, t) in s.sunk;
    }
    forall u | u in s'.results
      ensures u !in s'.works && u <= s'.sequence && (s'.results[u] <==> WasSunk(s', u))
    {
      assert WasSunk(s', u) == WasSunk(s, u);
    }
  }

  lemma SinkingReports(s: State, t: nat)
    requires ReportsExactly(s) && t in s.works
    ensures var w := s.works[t].work; ReportsExactly(Moved(s, t, Succeeded).(sunk := s.sunk + [Sunk(w.id, w.hash, t)]))
  {
    var w := s.works[t].work;
    var s' := Moved(s, t, Succeeded).(sunk := s.sunk + [Sunk(w.id, w.hash, t)]);
    forall u | u in s'.results
      ensures WasSunk(s', u) == WasSunk(s, u)
    {
      assert u != t;
      if WasSunk(s, u) {
        var x :| x in s.sunk && x.token == u;
        assert x in s'.sunk;
      }
    }
  }

  /** What a step leaves of items, results and sink log, when it neither closes an item nor calls the sink. */
  predicate QuietStep(s: State, s': State) {
    && s'.results == s.results && s'.sunk == s.sunk && s.sequence <= s'.sequence
    && forall t :: t in s'.works ==> t in s.works || t > s.sequence
  }

  lemma QuietStepReports(s: State, s': State)
    requires ReportsExactly(s) && QuietStep(s, s')
    ensures ReportsExactly(s')
  {
    forall t | t in s'.results
      ensures WasSunk(s', t) == WasSunk(s, t)
    {
    }
  }

  lemma WorkerStepsAreQuiet(limits: Limits, s: State, step: Step)
    requires Enabled(limits, s, step)
    requires step.Take? || step.Abandon? || step == SinkReturns(false) || step.Mark? || step.Forget? || step.StopReading?
             || step.EndDraining? || step.CompleteGracefully? || step.Cancel? || step.CompleteForced?
    ensures QuietStep(s, Apply(limits, s, step))
  {
    hide Sum, Pruned;
  }

  lemma StepsReport(limits: Limits, s: State, step: Step)
    requires Inv(limits, s) && Enabled(limits, s, step) && ReportsExactly(s)
    ensures ReportsExactly(Apply(limits, s, step))
  {
    var s' := Apply(limits, s, step);
    assert PhasesTell(s.works, s.sunk) && TokensDrawn(s);
    hide Inv, Apply, Pruned, ReportsExactly, PhasesTell, TokensDrawn, Sum;
    match step
    case Arrive(w) =>
      ArrivalIs(limits, s, w);
      QuietStepReports(s, s');
    case Reserve(t) =>
      ReserveIs(limits, s, t);
      QuietStepReports(s, s');
    case Write(t) =>
      WriteNeverDrops(limits, s, t);
      QuietStepReports(s, s');
    case ReleaseUnwritten(t) =>
      ReleaseUnwrittenIs(limits, s, t);
      QuietStepReports(s, s');
    case Withdraw(t) =>
      WithdrawIs(limits, s, t);
      WithdrawingReports(s, t);
    case SinkReturns(ok) =>
      if ok {
        SinkSuccessIs(limits, s);
        SinkingReports(s, Busy(s).value);
      } else {
        WorkerStepsAreQuiet(limits, s, step);
        QuietStepReports(s, s');
      }
    case Finish =>
      FinishIs(limits, s);
      FinishingReports(s, Busy(s).value);
    case _ =>
      WorkerStepsAreQuiet(limits, s, step);
      QuietStepReports(s, s');
  }

  lemma SinkSuccessIs(limits: Limits, s: State)
    requires Enabled(limits, s, SinkReturns(true))
    ensures BusyAt(s, Running)
    ensures var t := Busy(s).value; var w := s.works[t].work;
      Apply(limits, s, SinkReturns(true)) == Moved(s, t, Succeeded).(sunk := s.sunk + [Sunk(w.id, w.hash, t)])
  {
    hide Sum, Pruned;
  }

  lemma WithdrawingReports(s: State, t: nat)
    requires ReportsExactly(s) && PhasesTell(s.works, s.sunk) && TokensDrawn(s) && At(s, t, Refused)
    ensures ReportsExactly(Closed(s.(dedupe := s.dedupe - {s.works[t].work.id}), t, false))
  {
    ClosingReports(s, t, false);
    QuietStepReports(Closed(s, t, false), Closed(s.(dedupe := s.dedupe - {s.works[t].work.id}), t, false));
  }

  lemma FinishingReports(s: State, t: nat)
    requires ReportsExactly(s) && PhasesTell(s.works, s.sunk) && TokensDrawn(s)
    requires t in s.works && s.works[t].phase.Finishing?
    ensures ReportsExactly(Finished(s, t))
  {
    ClosingReports(s, t, s.works[t].phase.ok);
    QuietStepReports(Closed(s, t, s.works[t].phase.ok), Finished(s, t));
  }

  /** In every reachable state a completion reports success exactly when the sink succeeded for that very item. */
  lemma {:induction false} CompletionsAreTrue(limits: Limits, states: seq<State>, steps: seq<Step>, i: nat)
    requires limits.Valid() && Run(limits, states, steps) && i < |states|
    ensures ReportsExactly(states[i])
  {
    hide Inv, Enabled, Apply;
    if i > 0 {
      CompletionsAreTrue(limits, states, steps, i - 1);
      StepOfRun(limits, states, steps, i - 1);
      StepsReport(limits, states[i - 1], steps[i - 1]);
    }
  }

  // -------------------------------------------------- a drain that was cancelled

  lemma RunGrows(limits: Limits, states: seq<State>, steps: seq<Step>, step: Step)
    requires Run(limits, states, steps) && Enabled(limits, states[|states| - 1], step)
    ensures Run(limits, states + [Apply(limits, states[|states| - 1], step)], steps + [step])
  {
    hide Enabled, Apply;
  }

  /** The items written after step e and before state i while the channel was still open. */
  function LateWrites(states: seq<State>, steps: seq<Step>, e: nat, i: nat): seq<nat>
    requires |states| == |steps| + 1 && i < |states|
    decreases i
  {
    if i <= e + 1 then []
    else
      LateWrites(states, steps, e, i - 1)
      + if steps[i - 1].Write? && !states[i - 1].completed then [steps[i - 1].token] else []
  }

  lemma {:induction false} NoLateWrites(states: seq<State>, steps: seq<Step>, e: nat, i: nat)
    requires |states| == |steps| + 1 && i < |states|
    ensures LateWrites(states, steps, e, i) == [] <==> forall j :: e < j < i && steps[j].Write? ==> states[j].completed
    decreases i
  {
    if i > e + 1 {
      NoLateWrites(states, steps, e, i - 1);
    }
  }

  lemma EndedMeansIdle(limits: Limits, s: State, step: Step)
    requires Enabled(limits, s, step) && s.worker == Ended
    ensures step.Arrive? || step.Reserve? || step.Write? || step.ReleaseUnwritten? || step.Withdraw?
            || step.CompleteGracefully? || step.Cancel? || step.CompleteForced?
  {
    hide Sum;
  }

  lemma StopStepsTouchFlags(limits: Limits, s: State, step: Step)
    requires Enabled(limits, s, step) && (step.CompleteGracefully? || step.Cancel? || step.CompleteForced?)
    ensures var s' := Apply(limits, s, step);
      s'.worker == s.worker && s'.channel == s.channel && s'.works == s.works && (s.completed ==> s'.completed)
  {
    hide Sum, Pruned;
  }

  /** One step after the worker has ended: only a write to the open channel touches the channel. */
  lemma AfterTheWorker(limits: Limits, s: State, step: Step)
    requires Inv(limits, s) && Enabled(limits, s, step) && s.worker == Ended
    ensures var s' := Apply(limits, s, step);
      && s'.worker == Ended
      && s'.channel == s.channel + if step.Write? && !s.completed then [step.token] else []
  {
    hide Inv, Enabled, Apply, Pruned;
    EndedMeansIdle(limits, s, step);
    match step
    case Arrive(w) => ArrivalIs(limits, s, w);
    case Reserve(t) => ReserveIs(limits, s, t);
    case Write(t) => WriteNeverDrops(limits, s, t);
    case ReleaseUnwritten(t) => ReleaseUnwrittenIs(limits, s, t);
    case Withdraw(t) => WithdrawIs(limits, s, t);
    case _ => StopStepsTouchFlags(limits, s, step);
  }

  lemma WorkerEnds(limits: Limits, s: State)
    requires Enabled(limits, s, EndDraining)
    ensures Apply(limits, s, EndDraining) == s.(worker := Ended) && s.channel == []
  {
    hide Sum, Pruned;
  }

  lemma StepOfRun(limits: Limits, states: seq<State>, steps: seq<Step>, i: nat)
    requires limits.Valid() && Run(limits, states, steps) && i + 1 < |states|
    ensures |states| == |steps| + 1 && Inv(limits, states[i])
    ensures Enabled(limits, states[i], steps[i]) && states[i + 1] == Apply(limits, states[i], steps[i])
  {
    RunsKeepInv(limits, states, steps, i);
    hide Inv, Enabled, Apply;
  }

  /** From the step that ended the worker the channel holds exactly the late writes. */
  lemma {:induction false} ChannelAfterTheWorker(limits: Limits, states: seq<State>, steps: seq<Step>, e: nat, i: nat)
    requires limits.Valid() && Run(limits, states, steps) && e < i < |states| && steps[e] == EndDraining
    ensures |states| == |steps| + 1 && states[i].worker == Ended && states[i].channel == LateWrites(states, steps, e, i)
    decreases i
  {
    hide Inv, Enabled, Apply, Run;
    StepOfRun(limits, states, steps, i - 1);
    if i == e + 1 {
      WorkerEnds(limits, states[e]);
    } else {
      ChannelAfterTheWorker(limits, states, steps, e, i - 1);
      AfterTheWorker(limits, states[i - 1], steps[i - 1]);
    }
  }

  /** No item is in a handler's hands. */
  predicate HandsEmpty(s: State) { forall t :: t in s.works ==> !InHand(s.works[t].phase) }

  /**
  Once the worker has ended and the handlers are done, what is counted is what was written too late: to
  a channel that was not completed yet, after the worker's last look. The counter is zero exactly when
  every later write met a completed channel.
   */
  lemma EndedCounters(limits: Limits, states: seq<State>, steps: seq<Step>, e: nat, i: nat)
    requires limits.Valid() && Run(limits, states, steps) && e < i < |states| && steps[e] == EndDraining
    requires HandsEmpty(states[i])
    ensures states[i].queuedBatches == |LateWrites(states, steps, e, i)|
    ensures states[i].queuedBatches == 0 <==> forall j :: e < j < i && steps[j].Write? ==> states[j].completed
    ensures states[i].queuedBatches == 0 ==> states[i].queuedBytes == 0
  {
    RunsKeepInv(limits, states, steps, i);
    hide Run;
    ChannelAfterTheWorker(limits, states, steps, e, i);
    NoLateWrites(states, steps, e, i);
    OnlyQueuedRemain(limits, states[i]);
    SizeNeedsCount(states[i].works);
  }

  /** No handler has an item it may still write. */
  predicate NoWriters(s: State) { forall t :: t in s.works ==> !s.works[t].phase.Admitted? && !s.works[t].phase.Reserved? }

  /** After the worker has ended, a completed channel stays so, and without arrivals no writer appears. */
  lemma NoNewWriters(limits: Limits, s: State, step: Step)
    requires Inv(limits, s) && Enabled(limits, s, step) && s.worker == Ended
    ensures s.completed ==> Apply(limits, s, step).completed
    ensures NoWriters(s) ==> !step.Write?
    ensures NoWriters(s) && !step.Arrive? ==> NoWriters(Apply(limits, s, step))
  {
    hide Inv, Enabled, Apply, Pruned;
    EndedMeansIdle(limits, s, step);
    match step
    case Arrive(w) => ArrivalIs(limits, s, w);
    case Reserve(t) => ReserveIs(limits, s, t);
    case Write(t) => WriteNeverDrops(limits, s, t);
    case ReleaseUnwritten(t) => ReleaseUnwrittenIs(limits, s, t);
    case Withdraw(t) => WithdrawIs(limits, s, t);
    case _ => StopStepsTouchFlags(limits, s, step);
  }

  lemma {:induction false} NoWritersLater(limits: Limits, states: seq<State>, steps: seq<Step>, e: nat, i: nat)
    requires limits.Valid() && Run(limits, states, steps) && e < i < |states| && steps[e] == EndDraining
    ensures states[e].completed ==> states[i].completed
    ensures NoWriters(states[e]) && (forall j :: e < j < i ==> !steps[j].Arrive?) ==> NoWriters(states[i])
    decreases i
  {
    hide Inv, Enabled, Apply, Run;
    StepOfRun(limits, states, steps, i - 1);
    if i == e + 1 {
      WorkerEnds(limits, states[e]);
    } else {
      NoWritersLater(limits, states, steps, e, i - 1);
      ChannelAfterTheWorker(limits, states, steps, e, i - 1);
      NoNewWriters(limits, states[i - 1], steps[i - 1]);
    }
  }

  /**
  What a stopping caller can check when the worker ends: if the channel is completed by then, or no
  handler may still write and no request arrives any more, nothing is ever stranded.
   */
  lemma NothingStranded(limits: Limits, states: seq<State>, steps: seq<Step>, e: nat, i: nat)
    requires limits.Valid() && Run(limits, states, steps) && e < i < |states| && steps[e] == EndDraining
    requires states[e].completed || (NoWriters(states[e]) && forall j :: e < j < i ==> !steps[j].Arrive?)
    ensures states[i].channel == []
    ensures HandsEmpty(states[i]) ==> states[i].queuedBatches == 0 && states[i].queuedBytes == 0
  {
    hide Inv, Enabled, Apply, Run;
    ChannelAfterTheWorker(limits, states, steps, e, i);
    forall j | e < j < i && steps[j].Write?
      ensures states[j].completed
    {
      NoWritersLater(limits, states, steps, e, j);
      ChannelAfterTheWorker(limits, states, steps, e, j);
      StepOfRun(limits, states, steps, j);
      NoNewWriters(limits, states[j], steps[j]);
    }
    NoLateWrites(states, steps, e, i);
    if HandsEmpty(states[i]) {
      EndedCounters(limits, states, steps, e, i);
    }
  }

  lemma OnlyQueuedRemain(limits: Limits, s: State)
    requires Inv(limits, s) && s.worker == Ended && HandsEmpty(s)
    ensures s.queuedBatches == |s.channel|
  {
    assert s.works.Keys == TokensOf(s.channel);
    ChannelSize(s.channel);
    AllCounted(s.works);
    MapSize(s.works);
  }

  lemma {:induction false} AllCounted(works: map<nat, Flight>)
    requires forall t :: t in works ==> Counted(works[t].phase)
    ensures Sum(works, Count) == |works|
    decreases |works|
  {
    if works == map[] {
      assert Weights(works, Count) == map[];
    } else {
      var t :| t in works;
      SumWithout(works, t, Count);
      MapSize(works);
      MapSize(works - {t});
      assert (works - {t}).Keys == works.Keys - {t};
      AllCounted(works - {t});
    }
  }

  /** The example's state after the item was admitted, reserved, or written. */
  function Stranding(w: Work, phase: Phase, worker: Worker, cancelled: bool): State {
    State(map[w.id := Entry(w.hash, 1, false)], 1, map[1 := Flight(w, phase)],
          if phase.Queued? then [1] else [], worker,
          if phase.Admitted? then 0 else 1, if phase.Admitted? then 0 else |w.hash|,
          true, false, cancelled, map[], [], {})
  }

  lemma StrandingArrives(limits: Limits, w: Work)
    requires limits.Valid()
    ensures Enabled(limits, INITIAL, Step.Arrive(w))
    ensures Apply(limits, INITIAL, Step.Arrive(w)) == Stranding(w, Admitted, Reading, false)
  {
    assert Weights(map[], Hand) == map[];
    ArrivalIs(limits, INITIAL, w);
  }

  lemma StrandingReserves(limits: Limits, w: Work)
    requires limits.Valid() && |w.hash| <= limits.queuedBytes
    ensures var a, b := Stranding(w, Admitted, Reading, false), Stranding(w, Reserved, Reading, false);
      Enabled(limits, a, Reserve(1)) && Apply(limits, a, Reserve(1)) == b
  {
    hide Sum, Pruned;
  }

  lemma StrandingStops(limits: Limits, w: Work)
    ensures var b, c, d, e := Stranding(w, Reserved, Reading, false), Stranding(w, Reserved, Reading, true),
        Stranding(w, Reserved, Draining, true), Stranding(w, Reserved, Ended, true);
      && Enabled(limits, b, Cancel) && Apply(limits, b, Cancel) == c
      && Enabled(limits, c, StopReading) && Apply(limits, c, StopReading) == d
      && Enabled(limits, d, EndDraining) && Apply(limits, d, EndDraining) == e
  {
    hide Sum, Pruned;
  }

  lemma StrandingWrites(limits: Limits, w: Work)
    requires limits.Valid()
    ensures var e := Stranding(w, Reserved, Ended, true);
      Enabled(limits, e, Write(1)) && Apply(limits, e, Write(1)) == Stranding(w, Queued, Ended, true)
  {
    hide Sum, Pruned;
  }

  /**
  The claim about an empty queue fails for a cancelled drain: a handler that reserved before the
  cancellation and writes after the worker's last look leaves an item nobody will take.
   */
  lemma CancelledDrainStrandsWork(limits: Limits, w: Work)
    requires limits.Valid() && |w.hash| <= limits.queuedBytes
    ensures exists states: seq<State>, steps: seq<Step> ::
      Run(limits, states, steps) && |states| > 0 && Stranded(states[|states| - 1])
  {
    hide Enabled, Apply, Stranding;
    var states: seq<State>, steps: seq<Step> := [INITIAL], [];
    StrandingArrives(limits, w);
    StrandingReserves(limits, w);
    StrandingStops(limits, w);
    StrandingWrites(limits, w);
    RunGrows(limits, states, steps, Step.Arrive(w));
    states, steps := states + [Stranding(w, Admitted, Reading, false)], steps + [Step.Arrive(w)];
    RunGrows(limits, states, steps, Reserve(1));
    states, steps := states + [Stranding(w, Reserved, Reading, false)], steps + [Reserve(1)];
    RunGrows(limits, states, steps, Cancel);
    states, steps := states + [Stranding(w, Reserved, Reading, true)], steps + [Cancel];
    RunGrows(limits, states, steps, StopReading);
    states, steps := states + [Stranding(w, Reserved, Draining, true)], steps + [StopReading];
    RunGrows(limits, states, steps, EndDraining);
    states, steps := states + [Stranding(w, Reserved, Ended, true)], steps + [EndDraining];
    RunGrows(limits, states, steps, Write(1));
    states, steps := states + [Stranding(w, Queued, Ended, true)], steps + [Write(1)];
    StrandedState(w);
    hide Run, Stranded;
    assert Run(limits, states, steps) && Stranded(states[|states| - 1]);
  }

  /** The worker is gone, and an item is left counted in the channel. */
  predicate Stranded(s: State) { s.worker == Ended && s.cancelled && s.channel == [1] && s.queuedBatches == 1 }

  lemma StrandedState(w: Work)
    ensures Stranded(Stranding(w, Queued, Ended, true))
  {
  }
}
