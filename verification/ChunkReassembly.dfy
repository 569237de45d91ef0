/**
Reassembly of chunked ingest requests. Chunks of one batch are collected in a group until all are
there; the groups and the buffers handed on share one byte budget. Every lock body of the processor is
one step here, so the invariant holds for any interleaving of requests, releases and clean-ups.
 */
module ChunkReassembly {
  import opened Common
  import opened IngestLimits
  import opened Sums

  datatype FailureCode = PayloadTooLarge | UnsupportedProtocol | InvalidRequest | Busy | ChunkConflict

  /** A transport chunk after its JSON has been read and its base64 text decoded. */
  datatype Chunk = Chunk(
    source: string, session: string, groupId: string, kind: string, batchId: string,
    index: int, count: int, total: int, decoded: Bytes)

  datatype Key = Key(source: string, session: string, groupId: string)

  datatype Group = Group(
    count: nat, total: nat, kind: string, batchId: string, updated: int,
    chunks: seq<Option<Bytes>>, receivedChunks: nat, receivedBytes: nat)

  /** Pending groups, the bytes accounted for, and the outstanding leases on reassembled buffers. */
  datatype State = State(groups: map<Key, Group>, pending: int, leases: map<nat, nat>, next: nat)

  const EMPTY := State(map[], 0, map[], 0)

  datatype Admission = Refused(code: FailureCode) | Waiting(received: nat, count: nat) | Reassembled(bytes: Bytes, lease: nat)

  function KeyOf(c: Chunk): Key { Key(c.source, c.session, c.groupId) }

  /** The checks made on a chunk before the group table is locked. */
  predicate WellFormed(limits: Limits, c: Chunk) {
    && 0 <= c.index < c.count <= limits.chunkCount
    && 1 <= c.total <= limits.reassembledBytes
    && 0 < |c.decoded|
  }

  // ------------------------------------------------------------------- sums

  function Sizes(groups: map<Key, Group>): map<Key, nat> { map k | k in groups :: groups[k].receivedBytes }

  ghost function Held(groups: map<Key, Group>): nat { Total(Sizes(groups)) }

  lemma HeldWithout(groups: map<Key, Group>, k: Key)
    requires k in groups
    ensures Held(groups - {k}) == Held(groups) - groups[k].receivedBytes
  {
    TotalRemove(Sizes(groups), k);
    assert Sizes(groups - {k}) == Sizes(groups) - {k};
  }

  lemma HeldWith(groups: map<Key, Group>, k: Key, g: Group)
    ensures Held(groups[k := g]) == Held(groups) - (if k in groups then groups[k].receivedBytes else 0) + g.receivedBytes
  {
    TotalUpdate(Sizes(groups), k, g.receivedBytes);
    assert Sizes(groups[k := g]) == Sizes(groups)[k := g.receivedBytes];
  }

  function Present(chunks: seq<Option<Bytes>>): nat {
    if chunks == [] then 0
    else Present(chunks[..|chunks| - 1]) + if chunks[|chunks| - 1].Some? then 1 else 0
  }

  function BytesOf(chunks: seq<Option<Bytes>>): nat {
    if chunks == [] then 0
    else
      var last := chunks[|chunks| - 1];
      BytesOf(chunks[..|chunks| - 1]) + if last.Some? then |last.value| else 0
  }

  function Concat(chunks: seq<Option<Bytes>>): Bytes {
    if chunks == [] then []
    else
      var last := chunks[|chunks| - 1];
      Concat(chunks[..|chunks| - 1]) + if last.Some? then last.value else []
  }

  lemma {:induction false} ConcatLength(chunks: seq<Option<Bytes>>)
    ensures |Concat(chunks)| == BytesOf(chunks)
  {
    if chunks != [] {
      ConcatLength(chunks[..|chunks| - 1]);
    }
  }

  lemma {:induction false} PresentWith(chunks: seq<Option<Bytes>>, i: nat, bytes: Bytes)
    requires i < |chunks| && chunks[i].None?
    ensures Present(chunks[i := Some(bytes)]) == Present(chunks) + 1
    ensures BytesOf(chunks[i := Some(bytes)]) == BytesOf(chunks) + |bytes|
  {
    var n := |chunks| - 1;
    var after := chunks[i := Some(bytes)];
    if i < n {
      PresentWith(chunks[..n], i, bytes);
      assert after[..n] == chunks[..n][i := Some(bytes)];
    } else {
      assert after[..n] == chunks[..n];
    }
  }

  lemma {:induction false} PresentBound(chunks: seq<Option<Bytes>>)
    ensures Present(chunks) <= |chunks|
    ensures Present(chunks) == |chunks| <==> forall i :: 0 <= i < |chunks| ==> chunks[i].Some?
  {
    if chunks != [] {
      var n := |chunks| - 1;
      PresentBound(chunks[..n]);
      assert forall i :: 0 <= i < n ==> chunks[..n][i] == chunks[i];
    }
  }

  lemma {:induction false} NothingPresent(n: nat)
    ensures Present(seq(n, _ => None)) == 0 && BytesOf(seq(n, _ => None)) == 0
  {
    if n > 0 {
      NothingPresent(n - 1);
      assert seq<Option<Bytes>>(n, _ => None)[..n - 1] == seq<Option<Bytes>>(n - 1, _ => None);
    }
  }

  // -------------------------------------------------------------- invariant

  /** A group's counters match its chunks, and it still waits for some. */
  predicate GroupInv(limits: Limits, g: Group) {
    && |g.chunks| == g.count <= limits.chunkCount
    && g.receivedChunks == Present(g.chunks) < g.count
    && g.receivedBytes == BytesOf(g.chunks) <= g.total <= limits.reassembledBytes
  }

  predicate GroupsInv(limits: Limits, groups: map<Key, Group>) {
    && |groups| <= limits.pendingGroups
    && forall k :: k in groups ==> GroupInv(limits, groups[k])
  }

  /** Bytes are conserved: what is accounted for is what groups hold and leases keep, within the cap. */
  ghost predicate Inv(limits: Limits, s: State) {
    && GroupsInv(limits, s.groups)
    && s.pending == Held(s.groups) + Total(s.leases) <= limits.pendingBytes
    && (forall id :: id in s.leases ==> id < s.next)
  }

  // ------------------------------------------------------------------ steps

  function FreshGroups(limits: Limits, groups: map<Key, Group>, now: int): map<Key, Group> {
    map k | k in groups && now - groups[k].updated < limits.timeout :: groups[k]
  }

  ghost function Pruned(limits: Limits, s: State, now: int): State {
    var kept := FreshGroups(limits, s.groups, now);
    s.(groups := kept, pending := s.pending - (Held(s.groups) - Held(kept)))
  }

  function Without(s: State, k: Key): State {
    if k in s.groups then s.(groups := s.groups - {k}, pending := s.pending - s.groups[k].receivedBytes) else s
  }

  predicate SameShape(g: Group, c: Chunk) {
    g.count == c.count && g.total == c.total && g.kind == c.kind && g.batchId == c.batchId
  }

  function NewGroup(c: Chunk, now: int): Group
    requires 0 <= c.count && 0 <= c.total
  {
    Group(c.count, c.total, c.kind, c.batchId, now, seq(c.count, _ => None), 0, 0)
  }

  /** The group after taking the chunk; a chunk it already has only renews it. */
  function Taking(g: Group, i: nat, decoded: Bytes, now: int): Group
    requires i < |g.chunks|
  {
    if g.chunks[i].Some? then g.(updated := now)
    else
      g.(updated := now, chunks := g.chunks[i := Some(decoded)], receivedChunks := g.receivedChunks + 1,
         receivedBytes := g.receivedBytes + |decoded|)
  }

  /** What becomes of group g of key k after it has taken so many new bytes. */
  function Settled(limits: Limits, s: State, k: Key, g: Group, added: nat): (State, Admission) {
    var held := s.pending + added;
    var dropped := s.(groups := s.groups - {k}, pending := held - g.receivedBytes);
    if g.receivedChunks != g.count then
      (s.(groups := s.groups[k := g], pending := held), Waiting(g.receivedChunks, g.count))
    else if g.receivedBytes != g.total then (dropped, Refused(ChunkConflict))
    else if held + g.total > limits.pendingBytes then (dropped, Refused(Busy))
    else
      (dropped.(pending := dropped.pending + g.total, leases := s.leases[s.next := g.total], next := s.next + 1),
       Reassembled(Concat(g.chunks), s.next))
  }

  /** What taking the chunk into group g of key k leads to, g being up to date in s or new. */
  function Taken(limits: Limits, s: State, k: Key, g: Group, i: nat, decoded: Bytes, now: int): (State, Admission)
    requires i < |g.chunks|
  {
    var prior := g.chunks[i];
    if prior.Some? then
      if prior.value != decoded then (Without(s, k), Refused(ChunkConflict))
      else Settled(limits, s, k, Taking(g, i, decoded, now), 0)
    else if g.receivedBytes + |decoded| > g.total || s.pending + |decoded| > limits.pendingBytes then
      (Without(s, k), Refused(PayloadTooLarge))
    else Settled(limits, s, k, Taking(g, i, decoded, now), |decoded|)
  }

  /** One delivery: prune, then find or open the group, then take the chunk. */
  ghost function Admit(limits: Limits, s: State, c: Chunk, now: int): (State, Admission)
    requires Inv(limits, s) && WellFormed(limits, c)
  {
    var p, k := Pruned(limits, s, now), KeyOf(c);
    if k !in p.groups then
      if |p.groups| >= limits.pendingGroups || p.pending + |c.decoded| > limits.pendingBytes then (p, Refused(Busy))
      else Taken(limits, p, k, NewGroup(c, now), c.index, c.decoded, now)
    else if !SameShape(p.groups[k], c) then (Without(p, k), Refused(ChunkConflict))
    else Taken(limits, p, k, p.groups[k], c.index, c.decoded, now)
  }

  /** Disposing a lease gives its bytes back; disposing it again does nothing. */
  function Released(s: State, lease: nat): State {
    if lease in s.leases then s.(leases := s.leases - {lease}, pending := s.pending - s.leases[lease]) else s
  }

  ghost function Cleared(s: State): State { s.(groups := map[], pending := s.pending - Held(s.groups)) }

  // -------------------------------------------------- every step keeps the invariant

  lemma KeysSubset(a: map<Key, Group>, b: map<Key, Group>)
    requires a.Keys <= b.Keys
    ensures |a| <= |b|
  {
    SubsetSize(a.Keys, b.Keys);
    MapSize(a);
    MapSize(b);
  }

  lemma {:induction false} HeldSubset(a: map<Key, Group>, b: map<Key, Group>)
    requires a.Keys <= b.Keys && forall k :: k in a ==> a[k] == b[k]
    ensures Held(a) <= Held(b)
    decreases |b|
  {
    if k :| k in b && k !in a {
      HeldWithout(b, k);
      HeldSubset(a, b - {k});
    } else {
      assert a == b;
    }
  }

  lemma FewerGroups(limits: Limits, a: map<Key, Group>, b: map<Key, Group>)
    requires GroupsInv(limits, b) && a.Keys <= b.Keys && forall k :: k in a ==> a[k] == b[k]
    ensures GroupsInv(limits, a)
  {
    hide GroupInv;
    KeysSubset(a, b);
  }

  lemma PruningKeepsInv(limits: Limits, s: State, now: int)
    requires Inv(limits, s)
    ensures Inv(limits, Pruned(limits, s, now)) && Pruned(limits, s, now).pending <= s.pending
  {
    var kept := FreshGroups(limits, s.groups, now);
    HeldSubset(kept, s.groups);
    FewerGroups(limits, kept, s.groups);
  }

  lemma WithoutKeepsInv(limits: Limits, s: State, k: Key)
    requires Inv(limits, s)
    ensures Inv(limits, Without(s, k))
  {
    hide GroupsInv;
    if k in s.groups {
      HeldWithout(s.groups, k);
      FewerGroups(limits, s.groups - {k}, s.groups);
    }
  }

  /** The group is the one under its key, or new with its key free. */
  predicate Current(limits: Limits, s: State, k: Key, g: Group) {
    if k in s.groups then g == s.groups[k]
    else |s.groups| < limits.pendingGroups && g.receivedBytes == 0
  }

  lemma TakingKeepsGroup(limits: Limits, g: Group, i: nat, decoded: Bytes, now: int)
    requires GroupInv(limits, g) && i < |g.chunks|
    requires g.chunks[i].None? ==> g.receivedBytes + |decoded| <= g.total
    ensures var g' := Taking(g, i, decoded, now);
      && (g'.receivedChunks != g'.count ==> GroupInv(limits, g'))
      && g'.receivedBytes == BytesOf(g'.chunks) == |Concat(g'.chunks)| && |g'.chunks| == g.count
      && g'.receivedChunks == Present(g'.chunks)
  {
    var g' := Taking(g, i, decoded, now);
    ConcatLength(g'.chunks);
    PresentBound(g'.chunks);
    if g.chunks[i].None? {
      PresentWith(g.chunks, i, decoded);
    }
  }

  lemma OneMoreGroup(limits: Limits, groups: map<Key, Group>, k: Key, g: Group)
    requires GroupsInv(limits, groups) && GroupInv(limits, g) && (k !in groups ==> |groups| < limits.pendingGroups)
    ensures GroupsInv(limits, groups[k := g])
  {
    hide GroupInv;
    var more := groups[k := g];
    assert more.Keys == groups.Keys + {k};
    if k in groups {
      assert more.Keys == groups.Keys;
    }
    assert |more| == |more.Keys| && |groups| == |groups.Keys|;
  }

  lemma StoringKeepsInv(limits: Limits, s: State, k: Key, g: Group, g': Group)
    requires Inv(limits, s) && Current(limits, s, k, g) && GroupInv(limits, g')
    requires s.pending + g'.receivedBytes - g.receivedBytes <= limits.pendingBytes
    ensures Inv(limits, s.(groups := s.groups[k := g'], pending := s.pending + g'.receivedBytes - g.receivedBytes))
  {
    OneMoreGroup(limits, s.groups, k, g');
    hide GroupsInv, GroupInv, Held;
    HeldWith(s.groups, k, g');
  }

  lemma DroppingKeepsInv(limits: Limits, s: State, k: Key, g: Group)
    requires Inv(limits, s) && Current(limits, s, k, g)
    ensures Inv(limits, s.(groups := s.groups - {k}, pending := s.pending - g.receivedBytes))
  {
    hide GroupsInv, Held;
    if k in s.groups {
      HeldWithout(s.groups, k);
      FewerGroups(limits, s.groups - {k}, s.groups);
    } else {
      assert s.groups - {k} == s.groups;
    }
  }

  lemma LeasingKeepsInv(limits: Limits, s: State, bytes: nat)
    requires Inv(limits, s) && s.pending + bytes <= limits.pendingBytes
    ensures Inv(limits, s.(pending := s.pending + bytes, leases := s.leases[s.next := bytes], next := s.next + 1))
  {
    hide GroupsInv, Held;
    TotalUpdate(s.leases, s.next, bytes);
  }

  lemma SettlingKeepsInv(limits: Limits, s: State, k: Key, g: Group, g': Group, added: nat)
    requires Inv(limits, s) && Current(limits, s, k, g) && s.pending + added <= limits.pendingBytes
    requires g'.receivedBytes == g.receivedBytes + added && (g'.receivedChunks != g'.count ==> GroupInv(limits, g'))
    ensures Inv(limits, Settled(limits, s, k, g', added).0)
  {
    hide Inv, GroupInv, Current;
    DroppingKeepsInv(limits, s, k, g);
    var dropped := s.(groups := s.groups - {k}, pending := s.pending - g.receivedBytes);
    if g'.receivedChunks != g'.count {
      StoringKeepsInv(limits, s, k, g, g');
    } else if dropped.pending + g'.total <= limits.pendingBytes {
      LeasingKeepsInv(limits, dropped, g'.total);
    }
  }

  lemma TakenKeepsInv(limits: Limits, s: State, k: Key, g: Group, i: nat, decoded: Bytes, now: int)
    requires Inv(limits, s) && GroupInv(limits, g) && i < |g.chunks| && Current(limits, s, k, g)
    ensures Inv(limits, Taken(limits, s, k, g, i, decoded, now).0)
  {
    hide GroupInv, Settled, Present, BytesOf, Concat;
    WithoutKeepsInv(limits, s, k);
    var added := if g.chunks[i].Some? then 0 else |decoded|;
    if (g.chunks[i].None? ==> g.receivedBytes + |decoded| <= g.total) && s.pending + added <= limits.pendingBytes {
      TakingKeepsGroup(limits, g, i, decoded, now);
      SettlingKeepsInv(limits, s, k, g, Taking(g, i, decoded, now), added);
    }
  }

  lemma NewGroupFits(limits: Limits, c: Chunk, now: int)
    requires WellFormed(limits, c)
    ensures GroupInv(limits, NewGroup(c, now))
  {
    NothingPresent(c.count);
  }

  lemma AdmittingKeepsInv(limits: Limits, s: State, c: Chunk, now: int)
    requires Inv(limits, s) && WellFormed(limits, c)
    ensures Inv(limits, Admit(limits, s, c, now).0)
  {
    PruningKeepsInv(limits, s, now);
    NewGroupFits(limits, c, now);
    var p, k := Pruned(limits, s, now), KeyOf(c);
    WithoutKeepsInv(limits, p, k);
    if k !in p.groups {
      if !(|p.groups| >= limits.pendingGroups || p.pending + |c.decoded| > limits.pendingBytes) {
        TakenKeepsInv(limits, p, k, NewGroup(c, now), c.index, c.decoded, now);
      }
    } else if SameShape(p.groups[k], c) {
      TakenKeepsInv(limits, p, k, p.groups[k], c.index, c.decoded, now);
    }
  }

  /** Pruning removes a group exactly when its last chunk is a timeout old, and gives its bytes back. */
  lemma PruningRemovesExpired(limits: Limits, s: State, now: int, k: Key)
    requires Inv(limits, s)
    ensures var p := Pruned(limits, s, now);
      && (k in p.groups <==> k in s.groups && now < s.groups[k].updated + limits.timeout)
      && (k in p.groups ==> p.groups[k] == s.groups[k])
      && p.leases == s.leases && p.pending == Held(p.groups) + Total(s.leases)
  {
    PruningKeepsInv(limits, s, now);
    hide GroupsInv, Held;
  }

  /**
  A chunk that disagrees with its pending group, in shape or in bytes it already has, is refused as
  a conflict, and the whole group goes with its bytes; a chunk that overfills the group goes likewise.
   */
  lemma DisagreementDropsGroup(limits: Limits, s: State, c: Chunk, now: int)
    requires Inv(limits, s) && WellFormed(limits, c)
    requires KeyOf(c) in s.groups && now < s.groups[KeyOf(c)].updated + limits.timeout
    ensures |s.groups[KeyOf(c)].chunks| == s.groups[KeyOf(c)].count
    ensures var p, g := Pruned(limits, s, now), s.groups[KeyOf(c)];
      var (s', answer) := Admit(limits, s, c, now);
      var otherShape := g.count != c.count || g.total != c.total || g.kind != c.kind || g.batchId != c.batchId;
      var otherBytes := !otherShape && g.chunks[c.index].Some? && g.chunks[c.index].value != c.decoded;
      var tooMuch := !otherShape && g.chunks[c.index].None? && g.receivedBytes + |c.decoded| > g.total;
      && (otherShape || otherBytes ==> answer == Refused(ChunkConflict))
      && (tooMuch ==> answer == Refused(PayloadTooLarge))
      && (otherShape || otherBytes || tooMuch ==>
            s' == p.(groups := p.groups - {KeyOf(c)}, pending := p.pending - g.receivedBytes))
  {
    assert GroupInv(limits, s.groups[KeyOf(c)]);
    PruningRemovesExpired(limits, s, now, KeyOf(c));
    hide GroupInv, Held, Concat;
  }

  /**
  The answers in numbers, for a chunk whose group is to be opened or agrees with it: held is what is accounted for
  with the new bytes, and handing on a buffer needs room for it beside its chunks.
   */
  lemma AdmissionAnswers(limits: Limits, s: State, c: Chunk, now: int)
    requires Inv(limits, s) && WellFormed(limits, c)
    ensures var p, k := Pruned(limits, s, now), KeyOf(c);
      var answer := Admit(limits, s, c, now).1;
      var g := if k in p.groups then p.groups[k] else NewGroup(c, now);
      |g.chunks| == g.count && (SameShape(g, c) ==>
        var missing := g.chunks[c.index].None?;
        var taken := k in p.groups || (|p.groups| < limits.pendingGroups && p.pending + |c.decoded| <= limits.pendingBytes);
        var agrees := missing || g.chunks[c.index].value == c.decoded;
        var held := p.pending + if missing then |c.decoded| else 0;
        var bytes := g.receivedBytes + if missing then |c.decoded| else 0;
        var number := Present(g.chunks) + if missing then 1 else 0;
        var fits := bytes <= c.total && held <= limits.pendingBytes;
        && (answer == Refused(PayloadTooLarge) <==> taken && missing && !fits)
        && (answer.Waiting? <==> taken && agrees && fits && number < c.count)
        && (answer.Waiting? ==> answer == Waiting(number, c.count))
        && (answer == Refused(Busy) <==>
              !taken || (agrees && fits && number == c.count && bytes == c.total && held + c.total > limits.pendingBytes))
        && (answer.Reassembled? <==>
              taken && agrees && number == c.count && bytes == c.total && held + c.total <= limits.pendingBytes))
  {
    PruningKeepsInv(limits, s, now);
    NothingPresent(c.count);
    var p, k := Pruned(limits, s, now), KeyOf(c);
    assert k in p.groups ==> GroupInv(limits, p.groups[k]);
    hide Pruned, Inv, Concat, Held, BytesOf, Present;
  }

  lemma ReleasingKeepsInv(limits: Limits, s: State, lease: nat)
    requires Inv(limits, s)
    ensures Inv(limits, Released(s, lease))
  {
    if lease in s.leases {
      TotalRemove(s.leases, lease);
    }
  }

  lemma ClearingKeepsInv(limits: Limits, s: State)
    requires Inv(limits, s) && limits.Valid()
    ensures Inv(limits, Cleared(s))
  {
    assert Sizes(map[]) == map[];
  }

  datatype Step = Deliver(chunk: Chunk, now: int) | Prune(now: int) | Release(lease: nat) | Clear

  ghost function Apply(limits: Limits, s: State, step: Step): State
    requires Inv(limits, s) && (step.Deliver? ==> WellFormed(limits, step.chunk))
  {
    match step
    case Deliver(c, now) => Admit(limits, s, c, now).0
    case Prune(now) => Pruned(limits, s, now)
    case Release(lease) => Released(s, lease)
    case Clear => Cleared(s)
  }

  /** The states of any interleaving of deliveries, releases and clean-ups. */
  ghost predicate Run(limits: Limits, steps: seq<Step>, states: seq<State>) {
    && |states| == |steps| + 1 && states[0] == EMPTY
    && forall i :: 0 <= i < |steps| ==>
         && (steps[i].Deliver? ==> WellFormed(limits, steps[i].chunk))
         && (Inv(limits, states[i]) ==> states[i + 1] == Apply(limits, states[i], steps[i]))
  }

  lemma StepKeepsInv(limits: Limits, s: State, step: Step)
    requires limits.Valid() && Inv(limits, s) && (step.Deliver? ==> WellFormed(limits, step.chunk))
    ensures Inv(limits, Apply(limits, s, step))
  {
    hide Inv, WellFormed;
    match step
    case Deliver(c, now) => AdmittingKeepsInv(limits, s, c, now);
    case Prune(now) => PruningKeepsInv(limits, s, now);
    case Release(lease) => ReleasingKeepsInv(limits, s, lease);
    case Clear => ClearingKeepsInv(limits, s);
  }

  /**
  Byte conservation over every run: the accounted bytes are exactly those of the groups plus those of
  the leases, and never exceed the cap, not even while a buffer is being reassembled.
   */
  lemma {:induction false} BytesAreConserved(limits: Limits, steps: seq<Step>, states: seq<State>, i: nat)
    requires limits.Valid() && Run(limits, steps, states) && i < |states|
    ensures Inv(limits, states[i])
    ensures states[i].pending == Held(states[i].groups) + Total(states[i].leases) <= limits.pendingBytes
  {
    hide Apply;
    if i == 0 {
      assert Sizes(map[]) == map[];
    } else {
      BytesAreConserved(limits, steps, states, i - 1);
      StepKeepsInv(limits, states[i - 1], steps[i - 1]);
      assert states[i] == Apply(limits, states[i - 1], steps[i - 1]);
    }
  }
}
