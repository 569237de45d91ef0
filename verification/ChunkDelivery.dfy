/**
Reassembly ignores order and repeats: the pieces of any byte string, delivered in any order and any
number of times until the last one arrives, hand on exactly that byte string, and no delivery is refused.
 */
module ChunkDelivery {
  import opened Common
  import opened IngestLimits
  import opened ChunkReassembly

  datatype Origin = Origin(source: string, session: string, groupId: string, kind: string, batchId: string)

  datatype Delivery = Delivery(index: nat, now: int)

  function Whole(pieces: seq<Bytes>): Bytes {
    if pieces == [] then [] else Whole(pieces[..|pieces| - 1]) + pieces[|pieces| - 1]
  }

  /** The pieces a producer may send: none empty, no more and no longer than the limits allow. */
  predicate Sendable(limits: Limits, pieces: seq<Bytes>) {
    && 0 < |pieces| <= limits.chunkCount
    && (forall p :: p in pieces ==> 0 < |p|)
    && |Whole(pieces)| <= limits.reassembledBytes
  }

  function ChunkOf(o: Origin, pieces: seq<Bytes>, i: nat): Chunk
    requires i < |pieces|
  {
    Chunk(o.source, o.session, o.groupId, o.kind, o.batchId, i, |pieces|, |Whole(pieces)|, pieces[i])
  }

  function GroupKey(o: Origin): Key { Key(o.source, o.session, o.groupId) }

  function Seen(ds: seq<Delivery>): set<nat> {
    if ds == [] then {} else Seen(ds[..|ds| - 1]) + {ds[|ds| - 1].index}
  }

  predicate Complete(seen: set<nat>, n: nat) { forall i: nat :: i < n ==> i in seen }

  lemma {:induction false} PieceFits(pieces: seq<Bytes>, i: nat)
    requires i < |pieces|
    ensures |pieces[i]| <= |Whole(pieces)|
  {
    if i < |pieces| - 1 {
      PieceFits(pieces[..|pieces| - 1], i);
    }
  }

  lemma ChunksAreWellFormed(limits: Limits, o: Origin, pieces: seq<Bytes>, i: nat)
    requires Sendable(limits, pieces) && i < |pieces|
    ensures WellFormed(limits, ChunkOf(o, pieces, i))
  {
    PieceFits(pieces, i);
    assert pieces[i] in pieces;
  }

  // ------------------------------------------------------------- a group's chunks

  /** The chunk slots hold exactly the pieces seen. */
  predicate Holds(chunks: seq<Option<Bytes>>, pieces: seq<Bytes>, seen: set<nat>) {
    && |chunks| == |pieces|
    && forall i: nat :: i < |pieces| ==> chunks[i] == if i in seen then Some(pieces[i]) else None
  }

  lemma {:induction false} HeldPieces(chunks: seq<Option<Bytes>>, pieces: seq<Bytes>, seen: set<nat>)
    requires Holds(chunks, pieces, seen)
    ensures BytesOf(chunks) <= |Whole(pieces)|
    ensures Complete(seen, |pieces|) ==> Concat(chunks) == Whole(pieces) && BytesOf(chunks) == |Whole(pieces)|
    ensures Complete(seen, |pieces|) <==> Present(chunks) == |chunks|
  {
    PresentBound(chunks);
    if chunks != [] {
      var n := |chunks| - 1;
      HeldPieces(chunks[..n], pieces[..n], seen);
    }
  }

  /** The group carries this origin's pieces, those in seen. */
  predicate Carries(g: Group, o: Origin, pieces: seq<Bytes>, seen: set<nat>) {
    && g.count == |pieces| && g.total == |Whole(pieces)| && g.kind == o.kind && g.batchId == o.batchId
    && Holds(g.chunks, pieces, seen)
    && g.receivedChunks == |seen|
  }

  lemma TakingCarries(limits: Limits, g: Group, o: Origin, pieces: seq<Bytes>, seen: set<nat>, i: nat, now: int)
    requires Carries(g, o, pieces, seen) && GroupInv(limits, g) && i < |pieces|
    requires forall j :: j in seen ==> j < |pieces|
    ensures g.chunks[i].Some? <==> i in seen
    ensures i in seen ==> g.chunks[i] == Some(pieces[i])
    ensures i !in seen ==> g.receivedBytes + |pieces[i]| <= g.total
    ensures var g' := Taking(g, i, pieces[i], now);
      && Carries(g', o, pieces, seen + {i}) && g'.updated == now
      && g'.receivedBytes == BytesOf(g'.chunks) == g.receivedBytes + (if i in seen then 0 else |pieces[i]|)
      && g'.receivedChunks == Present(g'.chunks)
  {
    var g' := Taking(g, i, pieces[i], now);
    if i in seen {
      assert seen + {i} == seen;
    } else {
      PresentWith(g.chunks, i, pieces[i]);
      assert |seen + {i}| == |seen| + 1;
      HeldPieces(g'.chunks, pieces, seen + {i});
    }
  }

  /** Where the budget stands while these pieces are collected: base is what was pending before. */
  predicate WithinBudget(s: State, g: Group, base: int) { s.pending <= base + g.receivedBytes }

  /** One more piece is either kept waiting with the others or completes the byte string. */
  lemma TakenProgresses(limits: Limits, s: State, g: Group, o: Origin, pieces: seq<Bytes>, seen: set<nat>, i: nat, now: int, base: int)
    requires Carries(g, o, pieces, seen) && GroupInv(limits, g) && i < |pieces| && forall j :: j in seen ==> j < |pieces|
    requires WithinBudget(s, g, base) && base + 2 * |Whole(pieces)| <= limits.pendingBytes
    ensures var (s', answer) := Taken(limits, s, GroupKey(o), g, i, pieces[i], now);
      if Complete(seen + {i}, |pieces|) then
        answer == Reassembled(Whole(pieces), s.next) && s'.groups == s.groups - {GroupKey(o)}
      else
        && answer == Waiting(|seen + {i}|, |pieces|)
        && s'.groups.Keys == s.groups.Keys + {GroupKey(o)}
        && var g' := s'.groups[GroupKey(o)];
           Carries(g', o, pieces, seen + {i}) && g'.updated == now && WithinBudget(s', g', base)
  {
    TakingCarries(limits, g, o, pieces, seen, i, now);
    var g' := Taking(g, i, pieces[i], now);
    HeldPieces(g'.chunks, pieces, seen + {i});
    hide Taking, GroupInv, Whole, Complete, Holds, BytesOf, Present, Concat;
  }

  // ------------------------------------------------------------------ deliveries

  /** What happens at the processor: a delivery of one of the pieces, or a step on behalf of others. */
  datatype Event = Own(delivery: Delivery) | Other(step: Step)

  /** A delivery to another group, a prune or a release; a stopping host's clean-up is not among them. */
  predicate Foreign(limits: Limits, o: Origin, step: Step) {
    match step
    case Deliver(c, _) => KeyOf(c) != GroupKey(o) && WellFormed(limits, c)
    case Prune(_) => true
    case Release(_) => true
    case Clear => false
  }

  predicate Playable(limits: Limits, o: Origin, pieces: seq<Bytes>, events: seq<Event>) {
    && limits.Valid() && Sendable(limits, pieces)
    && forall e :: e in events ==>
         if e.Own? then e.delivery.index < |pieces| else Foreign(limits, o, e.step)
  }

  /** The state after the events, and the answers to the pieces' own deliveries. */
  ghost function Play(limits: Limits, s: State, o: Origin, pieces: seq<Bytes>, events: seq<Event>): (r: (State, seq<Admission>))
    requires Inv(limits, s) && Playable(limits, o, pieces, events)
    ensures Inv(limits, r.0)
  {
    if events == [] then (s, [])
    else
      var (before, answers) := Play(limits, s, o, pieces, events[..|events| - 1]);
      assert events[|events| - 1] in events;
      match events[|events| - 1]
      case Own(d) =>
        ChunksAreWellFormed(limits, o, pieces, d.index);
        AdmittingKeepsInv(limits, before, ChunkOf(o, pieces, d.index), d.now);
        var (after, answer) := Admit(limits, before, ChunkOf(o, pieces, d.index), d.now);
        (after, answers + [answer])
      case Other(step) =>
        StepKeepsInv(limits, before, step);
        (Apply(limits, before, step), answers)
  }

  function Deliveries(events: seq<Event>): seq<Delivery> {
    if events == [] then []
    else
      var last := events[|events| - 1];
      Deliveries(events[..|events| - 1]) + if last.Own? then [last.delivery] else []
  }

  function Clock(e: Event): Option<int> {
    match e
    case Own(d) => Some(d.now)
    case Other(Deliver(_, now)) => Some(now)
    case Other(Prune(now)) => Some(now)
    case Other(_) => None
  }

  /** No clock that is read after an own delivery is a timeout later than it. */
  predicate TimelyNext(limits: Limits, ds: seq<Delivery>, e: Event) {
    ds != [] && Clock(e).Some? ==> Clock(e).value - ds[|ds| - 1].now < limits.timeout
  }

  predicate Timely(limits: Limits, events: seq<Event>) {
    forall j :: 0 <= j < |events| ==> TimelyNext(limits, Deliveries(events[..j]), events[j])
  }

  /** What all others hold of the budget. */
  function Others(s: State, k: Key): int { s.pending - if k in s.groups then s.groups[k].receivedBytes else 0 }

  /** What others hold leaves room for the byte string twice, and for its group. */
  ghost predicate Room(limits: Limits, s: State, o: Origin, pieces: seq<Bytes>) {
    && Others(s, GroupKey(o)) + 2 * |Whole(pieces)| <= limits.pendingBytes
    && (GroupKey(o) !in s.groups ==> |s.groups| < limits.pendingGroups)
  }

  /** At every own delivery there is room, once the expired groups are pruned. */
  ghost predicate Roomy(limits: Limits, s: State, o: Origin, pieces: seq<Bytes>, events: seq<Event>)
    requires Inv(limits, s) && Playable(limits, o, pieces, events)
  {
    forall j :: 0 <= j < |events| && events[j].Own? ==>
      Room(limits, Pruned(limits, Play(limits, s, o, pieces, events[..j]).0, events[j].delivery.now), o, pieces)
  }

  /** What the deliveries so far have achieved, short of completing the byte string. */
  predicate Progress(s: State, o: Origin, pieces: seq<Bytes>, ds: seq<Delivery>) {
    var k := GroupKey(o);
    if ds == [] then k !in s.groups
    else k in s.groups && Carries(s.groups[k], o, pieces, Seen(ds)) && s.groups[k].updated == ds[|ds| - 1].now
  }

  /** Pruning in time leaves the own group alone. */
  lemma PruningProgresses(limits: Limits, s: State, o: Origin, pieces: seq<Bytes>, ds: seq<Delivery>, now: int)
    requires Inv(limits, s) && Progress(s, o, pieces, ds) && (ds != [] ==> now - ds[|ds| - 1].now < limits.timeout)
    ensures Progress(Pruned(limits, s, now), o, pieces, ds) && Inv(limits, Pruned(limits, s, now))
    ensures Others(Pruned(limits, s, now), GroupKey(o)) <= Others(s, GroupKey(o))
    ensures |Pruned(limits, s, now).groups| <= |s.groups|
  {
    PruningKeepsInv(limits, s, now);
    hide GroupsInv, Carries, Seen;
    KeysSubset(Pruned(limits, s, now).groups, s.groups);
  }

  /** A step for another key leaves the own group alone. */
  lemma OtherTaken(limits: Limits, s: State, k: Key, g: Group, i: nat, decoded: Bytes, now: int, own: Key)
    requires i < |g.chunks| && own != k
    ensures var s' := Taken(limits, s, k, g, i, decoded, now).0;
      && (own in s'.groups <==> own in s.groups) && (own in s.groups ==> s'.groups[own] == s.groups[own])
  {
    hide Concat;
  }

  lemma OtherAdmitted(limits: Limits, s: State, c: Chunk, now: int, own: Key)
    requires Inv(limits, s) && WellFormed(limits, c) && own != KeyOf(c)
    ensures var p, s' := Pruned(limits, s, now), Admit(limits, s, c, now).0;
      && (own in s'.groups <==> own in p.groups) && (own in p.groups ==> s'.groups[own] == p.groups[own])
  {
    PruningKeepsInv(limits, s, now);
    var p, k := Pruned(limits, s, now), KeyOf(c);
    if k !in p.groups {
      OtherTaken(limits, p, k, NewGroup(c, now), c.index, c.decoded, now, own);
    } else if SameShape(p.groups[k], c) {
      assert GroupInv(limits, p.groups[k]);
      OtherTaken(limits, p, k, p.groups[k], c.index, c.decoded, now, own);
    }
    hide Taken, Held, GroupInv;
  }

  lemma OtherProgresses(limits: Limits, s: State, o: Origin, pieces: seq<Bytes>, ds: seq<Delivery>, step: Step)
    requires Inv(limits, s) && Progress(s, o, pieces, ds) && Foreign(limits, o, step)
    requires TimelyNext(limits, ds, Other(step))
    ensures Progress(Apply(limits, s, step), o, pieces, ds)
  {
    hide Inv, Carries, Seen, WellFormed, Admit;
    match step
    case Deliver(c, now) =>
      PruningProgresses(limits, s, o, pieces, ds, now);
      OtherAdmitted(limits, s, c, now, GroupKey(o));
    case Prune(now) => PruningProgresses(limits, s, o, pieces, ds, now);
    case Release(_) =>
  }

  lemma {:induction false} SeenInRange(ds: seq<Delivery>, n: nat)
    requires forall d :: d in ds ==> d.index < n
    ensures forall j :: j in Seen(ds) ==> j < n
  {
    if ds != [] {
      SeenInRange(ds[..|ds| - 1], n);
    }
  }

  /** The group an own delivery finds after pruning, or opens. */
  lemma FindsGroup(limits: Limits, s: State, o: Origin, pieces: seq<Bytes>, ds: seq<Delivery>, d: Delivery) returns (g: Group)
    requires limits.Valid() && Inv(limits, s) && Sendable(limits, pieces) && Progress(s, o, pieces, ds) && d.index < |pieces|
    requires TimelyNext(limits, ds, Own(d)) && Room(limits, Pruned(limits, s, d.now), o, pieces)
    ensures var p, c := Pruned(limits, s, d.now), ChunkOf(o, pieces, d.index);
      && Inv(limits, p)
      && Carries(g, o, pieces, Seen(ds)) && GroupInv(limits, g) && Others(p, GroupKey(o)) == p.pending - g.receivedBytes
      && WellFormed(limits, c)
      && Admit(limits, s, c, d.now) == Taken(limits, p, GroupKey(o), g, c.index, c.decoded, d.now)
  {
    var k, c := GroupKey(o), ChunkOf(o, pieces, d.index);
    var p := Pruned(limits, s, d.now);
    ChunksAreWellFormed(limits, o, pieces, d.index);
    PruningProgresses(limits, s, o, pieces, ds, d.now);
    if ds == [] {
      g := NewGroup(c, d.now);
      NewGroupFits(limits, c, d.now);
      PieceFits(pieces, d.index);
    } else {
      g := p.groups[k];
    }
  }

  /** Each of these answers says how many distinct pieces had come in by then. */
  predicate AllWait(answers: seq<Admission>, ds: seq<Delivery>, n: nat) {
    && |answers| <= |ds|
    && forall j :: 0 <= j < |answers| ==> answers[j] == Waiting(|Seen(ds[..j + 1])|, n)
  }

  lemma AllWaitLonger(answers: seq<Admission>, ds: seq<Delivery>, n: nat)
    requires ds != [] && |answers| == |ds| - 1 && AllWait(answers, ds[..|ds| - 1], n)
    ensures AllWait(answers, ds, n)
    ensures AllWait(answers + [Waiting(|Seen(ds)|, n)], ds, n)
  {
    hide Seen;
    var all := answers + [Waiting(|Seen(ds)|, n)];
    assert ds[..|ds|] == ds;
    forall j | 0 <= j < |all|
      ensures all[j] == Waiting(|Seen(ds[..j + 1])|, n)
    {
      if j < |answers| {
        assert ds[..|ds| - 1][..j + 1] == ds[..j + 1];
      }
    }
    assert all[..|answers|] == answers;
  }

  /** One more own delivery after others that have not completed the pieces. */
  lemma OwnProgresses(limits: Limits, s: State, o: Origin, pieces: seq<Bytes>, ds: seq<Delivery>, d: Delivery)
    requires limits.Valid() && Inv(limits, s) && Sendable(limits, pieces) && Progress(s, o, pieces, ds)
    requires d.index < |pieces| && (forall x :: x in ds ==> x.index < |pieces|)
    requires TimelyNext(limits, ds, Own(d)) && Room(limits, Pruned(limits, s, d.now), o, pieces)
    ensures WellFormed(limits, ChunkOf(o, pieces, d.index))
    ensures var (s', answer) := Admit(limits, s, ChunkOf(o, pieces, d.index), d.now);
      var all := ds + [d];
      if Complete(Seen(all), |pieces|) then
        answer.Reassembled? && answer.bytes == Whole(pieces) && GroupKey(o) !in s'.groups
      else
        && answer == Waiting(|Seen(all)|, |pieces|) && Progress(s', o, pieces, all)
        && s'.groups.Keys == Pruned(limits, s, d.now).groups.Keys + {GroupKey(o)}
        && Others(s', GroupKey(o)) <= Others(Pruned(limits, s, d.now), GroupKey(o))
  {
    var g := FindsGroup(limits, s, o, pieces, ds, d);
    SeenInRange(ds, |pieces|);
    var p := Pruned(limits, s, d.now);
    hide Inv, GroupInv, Carries, Taken, Admit, Pruned, WellFormed, Complete, Sendable;
    assert (ds + [d])[..|ds|] == ds;
    TakenProgresses(limits, p, g, o, pieces, Seen(ds), d.index, d.now, Others(p, GroupKey(o)));
  }

  lemma {:induction false} DeliveriesInRange(limits: Limits, o: Origin, pieces: seq<Bytes>, events: seq<Event>)
    requires Playable(limits, o, pieces, events)
    ensures forall d :: d in Deliveries(events) ==> d.index < |pieces|
  {
    if events != [] {
      assert events[|events| - 1] in events;
      DeliveriesInRange(limits, o, pieces, events[..|events| - 1]);
    }
  }

  /** All but the last event can be played as well, and the last one comes in time and finds room. */
  lemma BeforeLast(limits: Limits, s: State, o: Origin, pieces: seq<Bytes>, events: seq<Event>)
    requires Inv(limits, s) && Playable(limits, o, pieces, events) && events != []
    requires Timely(limits, events) && Roomy(limits, s, o, pieces, events)
    ensures var before, last := events[..|events| - 1], events[|events| - 1];
      && Playable(limits, o, pieces, before) && Timely(limits, before) && Roomy(limits, s, o, pieces, before)
      && (if last.Own? then last.delivery.index < |pieces| else Foreign(limits, o, last.step))
      && TimelyNext(limits, Deliveries(before), last)
      && (last.Own? ==> Room(limits, Pruned(limits, Play(limits, s, o, pieces, before).0, last.delivery.now), o, pieces))
  {
    hide Inv, Sendable, Play, Deliveries, Foreign, Room, TimelyNext;
    var before, last := events[..|events| - 1], events[|events| - 1];
    assert last in events;
    forall j | 0 <= j < |before|
      ensures before[..j] == events[..j] && before[j] == events[j]
    {
    }
  }

  /** Playing all events is playing all but the last, and then that one. */
  lemma LastPlayed(limits: Limits, s: State, o: Origin, pieces: seq<Bytes>, events: seq<Event>)
    requires Inv(limits, s) && Playable(limits, o, pieces, events) && events != []
    requires Playable(limits, o, pieces, events[..|events| - 1])
    ensures var before, last := events[..|events| - 1], events[|events| - 1];
      var (mid, answers) := Play(limits, s, o, pieces, before);
      && Inv(limits, mid)
      && if last.Own? then
           && last.delivery.index < |pieces|
           && WellFormed(limits, ChunkOf(o, pieces, last.delivery.index))
           && var (after, answer) := Admit(limits, mid, ChunkOf(o, pieces, last.delivery.index), last.delivery.now);
              Play(limits, s, o, pieces, events) == (after, answers + [answer])
         else
           && Foreign(limits, o, last.step)
           && Play(limits, s, o, pieces, events) == (Apply(limits, mid, last.step), answers)
    ensures var before, last := events[..|events| - 1], events[|events| - 1];
      Deliveries(events) == Deliveries(before) + if last.Own? then [last.delivery] else []
  {
    var last := events[|events| - 1];
    assert last in events;
    if last.Own? {
      ChunksAreWellFormed(limits, o, pieces, last.delivery.index);
    }
    hide Inv, Admit, WellFormed, Sendable, Apply;
  }

  lemma SeenGrows(ds: seq<Delivery>, d: Delivery, n: nat)
    ensures (ds + [d])[..|ds|] == ds
    ensures Seen(ds + [d]) == Seen(ds) + {d.index}
    ensures Complete(Seen(ds), n) ==> Complete(Seen(ds + [d]), n)
  {
    assert (ds + [d])[..|ds|] == ds;
  }

  /** Every own delivery of the events waits, and its group holds the pieces so far. */
  ghost predicate Waits(limits: Limits, s: State, o: Origin, pieces: seq<Bytes>, events: seq<Event>)
    requires Inv(limits, s) && Playable(limits, o, pieces, events)
  {
    var (s', answers) := Play(limits, s, o, pieces, events);
    var ds := Deliveries(events);
    Progress(s', o, pieces, ds) && |answers| == |ds| && AllWait(answers, ds, |pieces|)
  }

  lemma NothingPlayed(limits: Limits, s: State, o: Origin, pieces: seq<Bytes>)
    requires Inv(limits, s) && Playable(limits, o, pieces, []) && GroupKey(o) !in s.groups
    ensures Waits(limits, s, o, pieces, [])
  {
    hide Inv, Sendable;
  }

  lemma OtherWaits(limits: Limits, s: State, o: Origin, pieces: seq<Bytes>, events: seq<Event>)
    requires Inv(limits, s) && Playable(limits, o, pieces, events) && events != []
    requires Timely(limits, events) && Roomy(limits, s, o, pieces, events)
    requires var before := events[..|events| - 1]; Playable(limits, o, pieces, before) && Waits(limits, s, o, pieces, before)
    requires events[|events| - 1].Other?
    ensures Waits(limits, s, o, pieces, events)
  {
    hide Inv, Timely, Roomy, Room, TimelyNext, Foreign, Play, Deliveries, Playable, Apply, Seen, Progress, AllWait;
    BeforeLast(limits, s, o, pieces, events);
    LastPlayed(limits, s, o, pieces, events);
    var before, last := events[..|events| - 1], events[|events| - 1];
    var mid := Play(limits, s, o, pieces, before).0;
    assert Deliveries(events) == Deliveries(before);
    OtherProgresses(limits, mid, o, pieces, Deliveries(before), last.step);
  }

  /** What the last own delivery does, when all before it waited. */
  lemma OwnArrives(limits: Limits, s: State, o: Origin, pieces: seq<Bytes>, events: seq<Event>)
    requires Inv(limits, s) && Playable(limits, o, pieces, events) && events != []
    requires Timely(limits, events) && Roomy(limits, s, o, pieces, events)
    requires var before := events[..|events| - 1]; Playable(limits, o, pieces, before) && Waits(limits, s, o, pieces, before)
    requires events[|events| - 1].Own?
    ensures var (s', answers) := Play(limits, s, o, pieces, events); var ds := Deliveries(events);
      && |answers| == |ds| > 0 && AllWait(answers[..|ds| - 1], ds, |pieces|)
      && if Complete(Seen(ds), |pieces|) then
           answers[|ds| - 1].Reassembled? && answers[|ds| - 1].bytes == Whole(pieces) && GroupKey(o) !in s'.groups
         else Waits(limits, s, o, pieces, events)
  {
    assert limits.Valid() && Sendable(limits, pieces);
    hide Inv, Sendable, Complete, Timely, Roomy, Room, TimelyNext, Foreign, Play, Deliveries, Playable, Apply, Seen, Progress, AllWait,
      Admit, WellFormed, Whole;
    BeforeLast(limits, s, o, pieces, events);
    LastPlayed(limits, s, o, pieces, events);
    var before, d := events[..|events| - 1], events[|events| - 1].delivery;
    var (mid, answers) := Play(limits, s, o, pieces, before);
    var ds := Deliveries(before);
    DeliveriesInRange(limits, o, pieces, before);
    SeenGrows(ds, d, |pieces|);
    OwnProgresses(limits, mid, o, pieces, ds, d);
    AllWaitLonger(answers, ds + [d], |pieces|);
    assert Play(limits, s, o, pieces, events).1[..|ds|] == answers;
  }

  lemma {:induction false} DeliveriesWait(limits: Limits, s: State, o: Origin, pieces: seq<Bytes>, events: seq<Event>)
    requires Inv(limits, s) && Playable(limits, o, pieces, events) && GroupKey(o) !in s.groups
    requires Timely(limits, events) && Roomy(limits, s, o, pieces, events)
    requires !Complete(Seen(Deliveries(events)), |pieces|)
    ensures Waits(limits, s, o, pieces, events)
  {
    hide Inv, Complete, Timely, Roomy, Play, Deliveries, Playable, Seen, Waits;
    if events == [] {
      NothingPlayed(limits, s, o, pieces);
    } else {
      BeforeLast(limits, s, o, pieces, events);
      IncompleteBefore(events, |pieces|);
      DeliveriesWait(limits, s, o, pieces, events[..|events| - 1]);
      if events[|events| - 1].Own? {
        OwnArrives(limits, s, o, pieces, events);
      } else {
        OtherWaits(limits, s, o, pieces, events);
      }
    }
  }

  lemma IncompleteBefore(events: seq<Event>, n: nat)
    requires events != [] && !Complete(Seen(Deliveries(events)), n)
    ensures !Complete(Seen(Deliveries(events[..|events| - 1])), n)
  {
    var ds, last := Deliveries(events[..|events| - 1]), events[|events| - 1];
    if last.Own? {
      SeenGrows(ds, last.delivery, n);
    } else {
      assert ds + [] == ds;
    }
    hide Complete, Seen;
  }

  /**
  Any order, any repeats, and any deliveries, prunes and releases of others in between that leave room:
  if the last event is the first to complete the pieces, every earlier delivery of them waits, counting
  the distinct pieces so far, and the last hands on exactly the byte string.
   */
  lemma ReassemblyIgnoresOrder(limits: Limits, s: State, o: Origin, pieces: seq<Bytes>, events: seq<Event>)
    requires Inv(limits, s) && Playable(limits, o, pieces, events) && GroupKey(o) !in s.groups
    requires Timely(limits, events) && Roomy(limits, s, o, pieces, events)
    requires events != [] && Complete(Seen(Deliveries(events)), |pieces|)
    requires !Complete(Seen(Deliveries(events[..|events| - 1])), |pieces|)
    ensures var (s', answers) := Play(limits, s, o, pieces, events); var ds := Deliveries(events);
      && |answers| == |ds| > 0 && AllWait(answers[..|ds| - 1], ds, |pieces|)
      && answers[|ds| - 1].Reassembled? && answers[|ds| - 1].bytes == Whole(pieces)
      && GroupKey(o) !in s'.groups
  {
    hide Inv, Complete, Timely, Roomy, Play, Playable, Seen, Waits, AllWait, Whole;
    BeforeLast(limits, s, o, pieces, events);
    var before := events[..|events| - 1];
    assert events[|events| - 1].Own? by {
      assert Deliveries(before) + [] == Deliveries(before);
    }
    DeliveriesWait(limits, s, o, pieces, before);
    OwnArrives(limits, s, o, pieces, events);
  }

  // ----------------------------------------------------------- nothing else pending

  function Alone(ds: seq<Delivery>): seq<Event> { seq(|ds|, i requires 0 <= i < |ds| => Own(ds[i])) }

  lemma {:induction false} DeliveriesAlone(ds: seq<Delivery>, j: nat)
    requires j <= |ds|
    ensures Deliveries(Alone(ds)[..j]) == ds[..j]
  {
    if j > 0 {
      DeliveriesAlone(ds, j - 1);
      assert Alone(ds)[..j][..j - 1] == Alone(ds)[..j - 1];
    }
  }

  /** Deliveries that follow each other in time. */
  predicate TimelyDeliveries(limits: Limits, ds: seq<Delivery>) {
    forall j :: 0 < j < |ds| ==> ds[j].now - ds[j - 1].now < limits.timeout
  }

  /** What a producer may send on its own, each delivery but the last leaving the pieces incomplete. */
  predicate Sent(limits: Limits, pieces: seq<Bytes>, ds: seq<Delivery>) {
    && limits.Valid() && Sendable(limits, pieces) && (forall d :: d in ds ==> d.index < |pieces|)
    && TimelyDeliveries(limits, ds)
    && (ds != [] ==> !Complete(Seen(ds[..|ds| - 1]), |pieces|))
  }

  lemma AloneIsPlayable(limits: Limits, o: Origin, pieces: seq<Bytes>, ds: seq<Delivery>)
    requires Sent(limits, pieces, ds)
    ensures Playable(limits, o, pieces, Alone(ds)) && Timely(limits, Alone(ds)) && Deliveries(Alone(ds)) == ds
    ensures ds != [] ==> Alone(ds[..|ds| - 1]) == Alone(ds)[..|ds| - 1] && Sent(limits, pieces, ds[..|ds| - 1])
    ensures Inv(limits, EMPTY)
  {
    hide Sendable, Complete, Deliveries;
    var events := Alone(ds);
    assert Sizes(map[]) == map[];
    DeliveriesAlone(ds, |ds|);
    assert events[..|ds|] == events && ds[..|ds|] == ds;
    forall j | 0 <= j < |events|
      ensures TimelyNext(limits, Deliveries(events[..j]), events[j])
    {
      DeliveriesAlone(ds, j);
    }
    if ds != [] {
      var n := |ds| - 1;
      if n > 0 {
        assert ds[..n] == ds[..n - 1] + [ds[n - 1]];
        SeenGrows(ds[..n - 1], ds[n - 1], |pieces|);
        assert ds[..n][..n - 1] == ds[..n - 1];
      }
    }
  }

  /** Nothing but the own group is held, so there is always room for the string twice. */
  lemma {:induction false} AloneIsRoomy(limits: Limits, o: Origin, pieces: seq<Bytes>, ds: seq<Delivery>)
    requires Sent(limits, pieces, ds)
    requires Inv(limits, EMPTY) && Playable(limits, o, pieces, Alone(ds))
    ensures Roomy(limits, EMPTY, o, pieces, Alone(ds))
    ensures !Complete(Seen(ds), |pieces|) ==>
      var s := Play(limits, EMPTY, o, pieces, Alone(ds)).0;
      Others(s, GroupKey(o)) <= 0 && s.groups.Keys <= {GroupKey(o)}
    decreases |ds|
  {
    hide Inv, Complete, Play, Playable, Seen, Roomy, Room, Timely, Sendable, Waits, Pruned, Admit, WellFormed;
    AloneIsPlayable(limits, o, pieces, ds);
    if ds == [] {
      NothingHeld(limits, o, pieces);
    } else {
      var before, d := ds[..|ds| - 1], ds[|ds| - 1];
      AloneIsPlayable(limits, o, pieces, before);
      AloneIsRoomy(limits, o, pieces, before);
      DeliveriesWait(limits, EMPTY, o, pieces, Alone(before));
      var mid := Play(limits, EMPTY, o, pieces, Alone(before)).0;
      WaitingProgress(limits, EMPTY, o, pieces, Alone(before));
      PruningProgresses(limits, mid, o, pieces, before, d.now);
      RoomAlone(limits, mid, o, pieces, d.now);
      RoomyLonger(limits, EMPTY, o, pieces, Alone(ds));
      LastPlayed(limits, EMPTY, o, pieces, Alone(ds));
      OwnProgresses(limits, mid, o, pieces, before, d);
      assert before + [d] == ds;
    }
  }

  lemma WaitingProgress(limits: Limits, s: State, o: Origin, pieces: seq<Bytes>, events: seq<Event>)
    requires Inv(limits, s) && Playable(limits, o, pieces, events) && Waits(limits, s, o, pieces, events)
    ensures Progress(Play(limits, s, o, pieces, events).0, o, pieces, Deliveries(events))
  {
    hide Inv, Playable, Play, Deliveries, AllWait, Progress;
  }

  lemma NothingHeld(limits: Limits, o: Origin, pieces: seq<Bytes>)
    requires Inv(limits, EMPTY) && Playable(limits, o, pieces, Alone([]))
    ensures Roomy(limits, EMPTY, o, pieces, Alone([]))
    ensures Play(limits, EMPTY, o, pieces, Alone([])) == (EMPTY, [])
  {
    hide Inv, Room, Pruned;
  }

  lemma RoomyLonger(limits: Limits, s: State, o: Origin, pieces: seq<Bytes>, events: seq<Event>)
    requires Inv(limits, s) && Playable(limits, o, pieces, events) && events != []
    requires var before := events[..|events| - 1]; Playable(limits, o, pieces, before) && Roomy(limits, s, o, pieces, before)
    requires var last := events[|events| - 1];
      last.Own? ==>
        Room(limits, Pruned(limits, Play(limits, s, o, pieces, events[..|events| - 1]).0, last.delivery.now), o, pieces)
    ensures Roomy(limits, s, o, pieces, events)
  {
    hide Inv, Room, Pruned, Play;
    var before := events[..|events| - 1];
    forall j | 0 <= j < |events|
      ensures Playable(limits, o, pieces, events[..j])
      ensures events[j].Own? ==>
        Room(limits, Pruned(limits, Play(limits, s, o, pieces, events[..j]).0, events[j].delivery.now), o, pieces)
    {
      if j < |before| {
        assert before[..j] == events[..j] && before[j] == events[j];
      }
    }
  }

  lemma RoomAlone(limits: Limits, s: State, o: Origin, pieces: seq<Bytes>, now: int)
    requires limits.Valid() && Sendable(limits, pieces)
    requires Others(Pruned(limits, s, now), GroupKey(o)) <= 0 && s.groups.Keys <= {GroupKey(o)}
    ensures Room(limits, Pruned(limits, s, now), o, pieces)
    ensures Pruned(limits, s, now).groups.Keys <= {GroupKey(o)}
  {
    var p := Pruned(limits, s, now);
    if GroupKey(o) !in p.groups {
      assert p.groups.Keys == {};
      assert p.groups == map[];
    }
  }

  /** With valid limits and nothing else pending there is always room: the cap is twice the largest buffer. */
  lemma NothingIsRefusedOnItsOwn(limits: Limits, o: Origin, pieces: seq<Bytes>, ds: seq<Delivery>)
    requires limits.Valid() && 0 < |pieces| <= limits.chunkCount && |Whole(pieces)| <= limits.reassembledBytes
    requires (forall p :: p in pieces ==> 0 < |p|) && (forall d :: d in ds ==> d.index < |pieces|)
    requires forall j :: 0 < j < |ds| ==> ds[j].now - ds[j - 1].now < limits.timeout
    requires Complete(Seen(ds), |pieces|) && (ds != [] ==> !Complete(Seen(ds[..|ds| - 1]), |pieces|))
    ensures Inv(limits, EMPTY) && Playable(limits, o, pieces, Alone(ds))
    ensures var answers := Play(limits, EMPTY, o, pieces, Alone(ds)).1;
      && |answers| == |ds| > 0 && AllWait(answers[..|ds| - 1], ds, |pieces|)
      && answers[|ds| - 1].Reassembled? && answers[|ds| - 1].bytes == Whole(pieces)
  {
    AloneIsPlayable(limits, o, pieces, ds);
    AloneIsPlayable(limits, o, pieces, if ds == [] then ds else ds[..|ds| - 1]);
    AloneIsRoomy(limits, o, pieces, ds);
    assert ds != [] by {
      assert 0 !in Seen([]);
    }
    hide Inv, Complete, Play, Playable, Seen, Roomy, Timely, AllWait;
    ReassemblyIgnoresOrder(limits, EMPTY, o, pieces, Alone(ds));
  }
}
