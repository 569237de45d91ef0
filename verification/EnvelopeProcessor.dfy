/**
The envelope processor: parsing a request that may be a transport chunk, whose reassembled bytes are
parsed in turn. The buffer handed on is accounted for by a lease that its consumer disposes.
 */
module EnvelopeProcessor {
  import opened Common
  import opened IngestLimits
  import opened Sums
  import opened ChunkReassembly

  /** What reading one request's bytes yields: an envelope, a transport chunk, or a refusal. */
  datatype Content =
    | Unreadable(code: FailureCode)
    | Envelope(kind: string, batchId: string, source: string, session: string)
    | Transport(chunk: Chunk)

  datatype Result = Rejected(code: FailureCode) | ChunkPending(received: nat, count: nat) | Complete(exact: Bytes, lease: Option<nat>)

  /** A chunk's payload is base64 text inside the request, so it is shorter than the request. */
  ghost predicate ReaderFits(read: Bytes -> Content) {
    forall b: Bytes :: read(b).Transport? ==> |read(b).chunk.decoded| < |b|
  }

  /** The reassembled envelope is the one its chunks announced. */
  predicate Announced(envelope: Content, c: Chunk) {
    envelope == Envelope(c.kind, c.batchId, c.source, c.session)
  }

  /** How taking a chunk touches groups and leases. */
  lemma TakenOutcome(limits: Limits, s: State, k: Key, g: Group, i: nat, decoded: Bytes, now: int)
    requires i < |g.chunks|
    ensures var (s', a) := Taken(limits, s, k, g, i, decoded, now);
      if a.Reassembled? then
        && s'.groups == s.groups - {k} && a.bytes == Concat(Taking(g, i, decoded, now).chunks)
        && Taking(g, i, decoded, now).receivedChunks == g.count
        && a.lease == s.next && s'.leases.Keys == s.leases.Keys + {s.next} && s'.next == s.next + 1
      else s'.leases == s.leases && s'.next == s.next
  {
    hide Concat;
  }

  lemma SingleChunk(c: Chunk, now: int)
    requires c.count == 1 && c.index == 0 && 0 <= c.total
    ensures Concat(Taking(NewGroup(c, now), 0, c.decoded, now).chunks) == c.decoded
  {
    var chunks: seq<Option<Bytes>> := [Some(c.decoded)];
    assert NewGroup(c, now).chunks[0 := Some(c.decoded)] == chunks;
    assert chunks[..0] == [];
  }

  lemma RemovalShrinks(groups: map<Key, Group>, k: Key)
    requires k in groups
    ensures |groups - {k}| < |groups|
  {
    assert (groups - {k}).Keys == groups.Keys - {k};
    assert |groups.Keys - {k}| == |groups.Keys| - 1;
    assert |groups - {k}| == |(groups - {k}).Keys| && |groups| == |groups.Keys|;
  }

  lemma NewGroupReassembly(limits: Limits, p: State, c: Chunk, now: int)
    requires WellFormed(limits, c) && KeyOf(c) !in p.groups
    ensures var (s', a) := Taken(limits, p, KeyOf(c), NewGroup(c, now), c.index, c.decoded, now);
      a.Reassembled? ==> s'.groups == p.groups && a.bytes == c.decoded
  {
    TakenOutcome(limits, p, KeyOf(c), NewGroup(c, now), c.index, c.decoded, now);
    hide Taken, Concat;
    assert p.groups - {KeyOf(c)} == p.groups;
    if c.count == 1 {
      SingleChunk(c, now);
    }
  }

  lemma ReassemblyShrinks(limits: Limits, s: State, c: Chunk, now: int)
    requires Inv(limits, s) && WellFormed(limits, c)
    ensures var (s', a) := Admit(limits, s, c, now);
      a.Reassembled? ==> |s'.groups| < |s.groups| || (|s'.groups| <= |s.groups| && |a.bytes| == |c.decoded|)
  {
    var p, k := Pruned(limits, s, now), KeyOf(c);
    KeysSubset(p.groups, s.groups);
    if k in p.groups {
      GroupSlots(limits, s, k);
      hide Inv, Concat, Held, Taken;
      if SameShape(p.groups[k], c) {
        TakenOutcome(limits, p, k, p.groups[k], c.index, c.decoded, now);
        RemovalShrinks(p.groups, k);
      }
    } else {
      hide Inv, Concat, Held, Taken;
      NewGroupReassembly(limits, p, c, now);
    }
  }

  /** What the parse of a reassembled buffer means for the chunk that completed it, whose lease is given. */
  function Unwrapped(read: Bytes -> Content, c: Chunk, s: State, lease: nat, inner: Result): (State, Result) {
    if inner.Complete? && Announced(read(inner.exact), c) then (s, Complete(inner.exact, Some(lease)))
    else (Released(s, lease), Rejected(if inner.Rejected? then inner.code else ChunkConflict))
  }

  /** Parsing one request: the state afterwards and the answer. */
  ghost function Parse(limits: Limits, read: Bytes -> Content, s: State, bytes: Bytes, maximum: int, now: int): (r: (State, Result))
    requires Inv(limits, s) && ReaderFits(read)
    ensures Inv(limits, r.0)
    decreases |s.groups|, |bytes|
  {
    if |bytes| == 0 || |bytes| > maximum then (s, Rejected(PayloadTooLarge))
    else
      match read(bytes)
      case Unreadable(code) => (s, Rejected(code))
      case Envelope(_, _, _, _) => (s, Complete(bytes, None))
      case Transport(c) =>
        if !WellFormed(limits, c) then (s, Rejected(InvalidRequest))
        else
          AdmittingKeepsInv(limits, s, c, now);
          ReassemblyShrinks(limits, s, c, now);
          var (s1, admission) := Admit(limits, s, c, now);
          match admission
          case Refused(code) => (s1, Rejected(code))
          case Waiting(received, count) => (s1, ChunkPending(received, count))
          case Reassembled(whole, lease) =>
            var (s2, inner) := Parse(limits, read, s1, whole, limits.reassembledBytes, now);
            ReleasingKeepsInv(limits, s2, lease);
            Unwrapped(read, c, s2, lease, inner)
  }

  // ------------------------------------------------------------- outstanding leases

  lemma AdmissionLeases(limits: Limits, s: State, c: Chunk, now: int)
    requires Inv(limits, s) && WellFormed(limits, c)
    ensures var (s', a) := Admit(limits, s, c, now);
      if a.Reassembled? then
        a.lease == s.next && s.next !in s.leases && s'.leases == s.leases[s.next := c.total] && s'.next == s.next + 1
      else s'.leases == s.leases && s'.next == s.next
    ensures c.total >= 1
  {
    var p, k := Pruned(limits, s, now), KeyOf(c);
    hide GroupInv, Held, Concat;
    if k in p.groups && SameShape(p.groups[k], c) {
      GroupSlots(limits, s, k);
    }
  }

  lemma GroupSlots(limits: Limits, s: State, k: Key)
    requires Inv(limits, s) && k in s.groups
    ensures |s.groups[k].chunks| == s.groups[k].count
  {
    assert GroupInv(limits, s.groups[k]);
  }

  /** The request is a chunk, and it completes a buffer. */
  ghost predicate Reassembles(limits: Limits, read: Bytes -> Content, s: State, bytes: Bytes, maximum: int, now: int)
    requires Inv(limits, s)
  {
    && 0 < |bytes| <= maximum && read(bytes).Transport? && WellFormed(limits, read(bytes).chunk)
    && Admit(limits, s, read(bytes).chunk, now).1.Reassembled?
  }

  /** Chunks that complete buffers one inside the other, outermost first, and what the last buffer reads as. */
  datatype Nest = Nest(chunks: seq<Chunk>, last: Content)

  /** Unwraps a request as far as chunks complete: each buffer is the next request. */
  ghost function Nesting(limits: Limits, read: Bytes -> Content, s: State, bytes: Bytes, maximum: int, now: int): Nest
    requires Inv(limits, s) && ReaderFits(read)
    decreases |s.groups|, |bytes|
  {
    if !Reassembles(limits, read, s, bytes, maximum, now) then
      Nest([], if 0 < |bytes| <= maximum then read(bytes) else Unreadable(PayloadTooLarge))
    else
      var c := read(bytes).chunk;
      AdmittingKeepsInv(limits, s, c, now);
      ReassemblyShrinks(limits, s, c, now);
      var (s1, a) := Admit(limits, s, c, now);
      var inner := Nesting(limits, read, s1, a.bytes, limits.reassembledBytes, now);
      Nest([c] + inner.chunks, inner.last)
  }

  /** How many chunks in a row, from the innermost outwards, announced the last buffer. */
  function Matched(n: Nest): (k: nat)
    ensures k <= |n.chunks|
    decreases |n.chunks|
  {
    if n.chunks == [] then 0
    else
      var inner := Matched(Nest(n.chunks[1..], n.last));
      if inner == |n.chunks| - 1 && Announced(n.last, n.chunks[0]) then |n.chunks| else inner
  }

  lemma {:induction false} MatchedStartsInside(n: Nest)
    ensures Matched(n) > 0 <==> n.chunks != [] && Announced(n.last, n.chunks[|n.chunks| - 1])
    decreases |n.chunks|
  {
    if |n.chunks| > 1 {
      MatchedStartsInside(Nest(n.chunks[1..], n.last));
    }
  }

  lemma LeafParse(limits: Limits, read: Bytes -> Content, s: State, bytes: Bytes, maximum: int, now: int)
    requires Inv(limits, s) && ReaderFits(read) && !Reassembles(limits, read, s, bytes, maximum, now)
    ensures var (s', r) := Parse(limits, read, s, bytes, maximum, now);
      var n := Nesting(limits, read, s, bytes, maximum, now);
      && s'.leases == s.leases && s'.next == s.next && n.chunks == []
      && (r.Complete? <==> n.last.Envelope?)
      && (r.Complete? ==> r.lease.None? && read(r.exact) == n.last)
  {
    hide Inv, Admit, WellFormed;
    if 0 < |bytes| <= maximum && read(bytes).Transport? && WellFormed(limits, read(bytes).chunk) {
      AdmissionLeases(limits, s, read(bytes).chunk, now);
    }
  }

  lemma NestedParse(limits: Limits, read: Bytes -> Content, s: State, bytes: Bytes, maximum: int, now: int)
    requires Inv(limits, s) && ReaderFits(read) && Reassembles(limits, read, s, bytes, maximum, now)
    requires Inv(limits, Admit(limits, s, read(bytes).chunk, now).0)
    ensures var c := read(bytes).chunk; var (s1, a) := Admit(limits, s, c, now);
      var (s2, inner) := Parse(limits, read, s1, a.bytes, limits.reassembledBytes, now);
      var n := Nesting(limits, read, s1, a.bytes, limits.reassembledBytes, now);
      && Parse(limits, read, s, bytes, maximum, now) == Unwrapped(read, c, s2, a.lease, inner)
      && Nesting(limits, read, s, bytes, maximum, now) == Nest([c] + n.chunks, n.last)
  {
    hide Inv, Admit, WellFormed, Unwrapped;
  }

  function Numbers(first: nat, end: nat): (ids: set<nat>)
    ensures forall id :: id in ids <==> first <= id < end
    decreases end - first
  {
    if first >= end then {} else {first} + Numbers(first + 1, end)
  }

  /**
  What a parse leaves behind, from the nest of its chunks alone: each chunk drew one lease number, the
  leases of the matched chunks are still held, and the answer is complete, with the outermost lease,
  exactly when every chunk matched.
   */
  ghost predicate Leaves(read: Bytes -> Content, s: State, n: Nest, s': State, r: Result) {
    var all, k := |n.chunks|, Matched(n);
    && s'.next == s.next + all
    && s'.leases.Keys == s.leases.Keys + Numbers(s.next + all - k, s.next + all)
    && (forall id :: id in s.leases ==> s'.leases[id] == s.leases[id])
    && (forall id :: id in s'.leases && id !in s.leases ==> s'.leases[id] >= 1)
    && (r.Complete? <==> n.last.Envelope? && k == all)
    && (r.Complete? ==> read(r.exact) == n.last && r.lease == if all == 0 then None else Some(s.next))
  }

  lemma LeafLeaves(read: Bytes -> Content, s: State, n: Nest, s': State, r: Result)
    requires s'.leases == s.leases && s'.next == s.next && n.chunks == []
    requires (r.Complete? <==> n.last.Envelope?) && (r.Complete? ==> r.lease.None? && read(r.exact) == n.last)
    ensures Leaves(read, s, n, s', r)
  {
    assert Numbers(s.next, s.next) == {};
  }

  /** The chunk's own lease, drawn just before its buffer was parsed. */
  predicate Leased(s: State, c: Chunk, s1: State) {
    && (forall id :: id in s.leases ==> id < s.next) && c.total >= 1
    && s1.leases == s.leases[s.next := c.total] && s1.next == s.next + 1
  }

  lemma MatchedAround(c: Chunk, n: Nest)
    ensures Matched(Nest([c] + n.chunks, n.last))
         == if Matched(n) == |n.chunks| && Announced(n.last, c) then |n.chunks| + 1 else Matched(n)
  {
    assert Nest([c] + n.chunks, n.last).chunks[1..] == n.chunks;
  }

  lemma MatchingLeaves(read: Bytes -> Content, s: State, c: Chunk, n: Nest, s1: State, s2: State, inner: Result)
    requires Leased(s, c, s1) && Leaves(read, s1, n, s2, inner) && inner.Complete? && Announced(n.last, c)
    ensures Leaves(read, s, Nest([c] + n.chunks, n.last), s2, Complete(inner.exact, Some(s.next)))
  {
    var all := |n.chunks|;
    MatchedAround(c, n);
    hide Matched, Announced;
    assert Numbers(s.next, s.next + 1 + all) == {s.next} + Numbers(s.next + 1, s.next + 1 + all);
    assert s1.leases.Keys == s.leases.Keys + {s.next};
  }

  lemma MismatchLeaves(read: Bytes -> Content, s: State, c: Chunk, n: Nest, s1: State, s2: State, inner: Result, code: FailureCode)
    requires Leased(s, c, s1) && Leaves(read, s1, n, s2, inner) && !(inner.Complete? && Announced(n.last, c))
    ensures Leaves(read, s, Nest([c] + n.chunks, n.last), Released(s2, s.next), Rejected(code))
  {
    var all, k := |n.chunks|, Matched(n);
    MatchedAround(c, n);
    hide Matched;
    var own := Numbers(s1.next + all - k, s1.next + all);
    assert s.next !in own && s.next !in s.leases;
    assert s2.leases.Keys == s.leases.Keys + {s.next} + own;
    assert Released(s2, s.next).leases.Keys == s.leases.Keys + own;
  }

  /** One chunk around a nest whose parse is known. */
  lemma WrappingLeaves(read: Bytes -> Content, s: State, c: Chunk, n: Nest, s1: State, s2: State, inner: Result)
    requires Leased(s, c, s1) && Leaves(read, s1, n, s2, inner)
    ensures var (s', r) := Unwrapped(read, c, s2, s.next, inner);
      Leaves(read, s, Nest([c] + n.chunks, n.last), s', r)
  {
    assert inner.Complete? ==> read(inner.exact) == n.last;
    hide Leaves, Announced, Leased;
    if inner.Complete? && Announced(n.last, c) {
      MatchingLeaves(read, s, c, n, s1, s2, inner);
    } else {
      MismatchLeaves(read, s, c, n, s1, s2, inner, if inner.Rejected? then inner.code else ChunkConflict);
    }
  }

  lemma AdmittingLeases(limits: Limits, s: State, c: Chunk, now: int)
    requires Inv(limits, s) && WellFormed(limits, c)
    ensures var (s1, a) := Admit(limits, s, c, now);
      a.Reassembled? ==> a.lease == s.next && Leased(s, c, s1)
  {
    AdmissionLeases(limits, s, c, now);
    hide Admit;
  }

  /** Parsing at any depth leaves exactly the leases of the matched chunks, and returns the outermost. */
  lemma {:induction false} LeasesAfterParse(limits: Limits, read: Bytes -> Content, s: State, bytes: Bytes, maximum: int, now: int)
    requires Inv(limits, s) && ReaderFits(read)
    ensures var (s', r) := Parse(limits, read, s, bytes, maximum, now);
      Leaves(read, s, Nesting(limits, read, s, bytes, maximum, now), s', r)
    decreases |s.groups|, |bytes|
  {
    hide Inv, Admit, WellFormed, Parse, Nesting, Leaves, Leased, Unwrapped;
    if !Reassembles(limits, read, s, bytes, maximum, now) {
      LeafParse(limits, read, s, bytes, maximum, now);
      var (s', r) := Parse(limits, read, s, bytes, maximum, now);
      LeafLeaves(read, s, Nesting(limits, read, s, bytes, maximum, now), s', r);
    } else {
      var c := read(bytes).chunk;
      AdmittingKeepsInv(limits, s, c, now);
      ReassemblyShrinks(limits, s, c, now);
      AdmittingLeases(limits, s, c, now);
      var (s1, a) := Admit(limits, s, c, now);
      LeasesAfterParse(limits, read, s1, a.bytes, limits.reassembledBytes, now);
      var (s2, inner) := Parse(limits, read, s1, a.bytes, limits.reassembledBytes, now);
      NestedParse(limits, read, s, bytes, maximum, now);
      var n := Nesting(limits, read, s1, a.bytes, limits.reassembledBytes, now);
      WrappingLeaves(read, s, c, n, s1, s2, inner);
    }
  }

  /** Why a parse does not complete: what made the last buffer unreadable, or the disagreement of a chunk around it. */
  predicate Explains(n: Nest, r: Result) {
    && (n.last.Unreadable? ==> r == Rejected(n.last.code))
    && (n.last.Envelope? && Matched(n) < |n.chunks| ==> r == Rejected(ChunkConflict))
    && (n.last.Transport? && n.chunks != [] ==> r.Rejected?)
  }

  /** A request that completes no buffer: refused outright, or the answer of its own admission. */
  lemma PlainAnswer(limits: Limits, read: Bytes -> Content, s: State, bytes: Bytes, maximum: int, now: int)
    requires Inv(limits, s) && ReaderFits(read) && !Reassembles(limits, read, s, bytes, maximum, now)
    ensures var r := Parse(limits, read, s, bytes, maximum, now).1;
      && (|bytes| == 0 || |bytes| > maximum ==> r == Rejected(PayloadTooLarge))
      && (0 < |bytes| <= maximum && read(bytes).Unreadable? ==> r == Rejected(read(bytes).code))
      && (0 < |bytes| <= maximum && read(bytes).Envelope? ==> r == Complete(bytes, None))
      && (0 < |bytes| <= maximum && read(bytes).Transport? ==>
            var c := read(bytes).chunk;
            if !WellFormed(limits, c) then r == Rejected(InvalidRequest)
            else
              var a := Admit(limits, s, c, now).1;
              (a.Refused? ==> r == Rejected(a.code)) && (a.Waiting? ==> r == ChunkPending(a.received, a.count)))
  {
    hide Inv, Admit, WellFormed;
  }

  lemma {:induction false} RejectionIsExplained(limits: Limits, read: Bytes -> Content, s: State, bytes: Bytes, maximum: int, now: int)
    requires Inv(limits, s) && ReaderFits(read)
    ensures Explains(Nesting(limits, read, s, bytes, maximum, now), Parse(limits, read, s, bytes, maximum, now).1)
    decreases |s.groups|, |bytes|
  {
    hide Inv, Admit, WellFormed, Parse, Nesting;
    if !Reassembles(limits, read, s, bytes, maximum, now) {
      PlainAnswer(limits, read, s, bytes, maximum, now);
      LeafNest(limits, read, s, bytes, maximum, now);
    } else {
      var c := read(bytes).chunk;
      AdmittingKeepsInv(limits, s, c, now);
      ReassemblyShrinks(limits, s, c, now);
      var (s1, a) := Admit(limits, s, c, now);
      RejectionIsExplained(limits, read, s1, a.bytes, limits.reassembledBytes, now);
      LeasesAfterParse(limits, read, s1, a.bytes, limits.reassembledBytes, now);
      NestedParse(limits, read, s, bytes, maximum, now);
      var (s2, inner) := Parse(limits, read, s1, a.bytes, limits.reassembledBytes, now);
      WrappingExplains(read, s1, c, Nesting(limits, read, s1, a.bytes, limits.reassembledBytes, now), s2, a.lease, inner);
    }
  }

  lemma LeafNest(limits: Limits, read: Bytes -> Content, s: State, bytes: Bytes, maximum: int, now: int)
    requires Inv(limits, s) && ReaderFits(read) && !Reassembles(limits, read, s, bytes, maximum, now)
    ensures Nesting(limits, read, s, bytes, maximum, now)
         == Nest([], if 0 < |bytes| <= maximum then read(bytes) else Unreadable(PayloadTooLarge))
  {
    hide Inv, Reassembles;
  }

  lemma WrappingExplains(read: Bytes -> Content, s1: State, c: Chunk, n: Nest, s2: State, lease: nat, inner: Result)
    requires Explains(n, inner) && Leaves(read, s1, n, s2, inner)
    requires n.chunks == [] && n.last.Transport? ==> !inner.Complete?
    ensures Explains(Nest([c] + n.chunks, n.last), Unwrapped(read, c, s2, lease, inner).1)
  {
    MatchedAround(c, n);
    hide Matched, Numbers;
  }

  /** The leases the caller is left with: those from before, and the one the answer carries. */
  predicate OnlyReturned(before: State, after: State, r: Result) {
    after.leases.Keys == before.leases.Keys + if r.Complete? && r.lease.Some? then {r.lease.value} else {}
  }

  /** At least two chunks complete one inside the other, and the innermost announced the last buffer. */
  predicate Strands(n: Nest) { |n.chunks| >= 2 && Announced(n.last, n.chunks[|n.chunks| - 1]) }

  lemma StrandedLeases(read: Bytes -> Content, s: State, n: Nest, s': State, r: Result)
    requires Leaves(read, s, n, s', r) && forall id :: id in s.leases ==> id < s.next
    ensures OnlyReturned(s, s', r) <==> !Strands(n)
  {
    MatchedStartsInside(n);
    var all, k := |n.chunks|, Matched(n);
    var own := Numbers(s.next + all - k, s.next + all);
    var returned: set<nat> := if r.Complete? && r.lease.Some? then {r.lease.value} else {};
    if k > 0 {
      assert s.next + all - 1 in own && s.next + all - 1 !in s.leases;
    } else {
      assert own == {};
    }
    if all == 1 && k == 1 {
      assert own == {s.next};
    }
  }

  /**
  A lease is stranded exactly when at least two chunks complete one inside the other and the last
  buffer is the envelope the innermost of them announced, whatever the chunks around it announced.
   */
  lemma StrandedExactly(limits: Limits, read: Bytes -> Content, s: State, bytes: Bytes, maximum: int, now: int)
    requires Inv(limits, s) && ReaderFits(read)
    ensures var (s', r) := Parse(limits, read, s, bytes, maximum, now);
      OnlyReturned(s, s', r) <==> !Strands(Nesting(limits, read, s, bytes, maximum, now))
  {
    LeasesAfterParse(limits, read, s, bytes, maximum, now);
    hide Parse, Nesting, Leaves, OnlyReturned, Strands;
    var (s', r) := Parse(limits, read, s, bytes, maximum, now);
    StrandedLeases(read, s, Nesting(limits, read, s, bytes, maximum, now), s', r);
  }

  /** A buffer that is not itself a transport chunk never strands a lease. */
  lemma PlainBuffersStrandNothing(limits: Limits, read: Bytes -> Content, s: State, bytes: Bytes, maximum: int, now: int)
    requires Inv(limits, s) && ReaderFits(read)
    requires 0 < |bytes| <= maximum && read(bytes).Transport? && WellFormed(limits, read(bytes).chunk) ==>
      var a := Admit(limits, s, read(bytes).chunk, now).1;
      a.Reassembled? ==> !read(a.bytes).Transport?
    ensures var (s', r) := Parse(limits, read, s, bytes, maximum, now);
      OnlyReturned(s, s', r)
  {
    StrandedExactly(limits, read, s, bytes, maximum, now);
    hide Inv, Admit, WellFormed, Parse, OnlyReturned;
    if Reassembles(limits, read, s, bytes, maximum, now) {
      AdmittingKeepsInv(limits, s, read(bytes).chunk, now);
      NestedParse(limits, read, s, bytes, maximum, now);
    }
  }

  /**
  Release to zero: when the parse leaves no group and nothing was leased before, disposing what the
  answer carries returns the whole budget exactly when no lease is stranded.
   */
  lemma ReleaseToZero(limits: Limits, read: Bytes -> Content, s: State, bytes: Bytes, now: int)
    requires Inv(limits, s) && ReaderFits(read) && s.leases == map[]
    requires Parse(limits, read, s, bytes, limits.requestBytes, now).0.groups == map[]
    ensures var (s', r) := Parse(limits, read, s, bytes, limits.requestBytes, now);
      (if r.Complete? && r.lease.Some? then Released(s', r.lease.value) else s').pending == 0
      <==> !Strands(Nesting(limits, read, s, bytes, limits.requestBytes, now))
  {
    LeasesAfterParse(limits, read, s, bytes, limits.requestBytes, now);
    StrandedExactly(limits, read, s, bytes, limits.requestBytes, now);
    var n := Nesting(limits, read, s, bytes, limits.requestBytes, now);
    var (s', r) := Parse(limits, read, s, bytes, limits.requestBytes, now);
    hide Parse, Nesting, Strands;
    assert Sizes(map[]) == map[];
    var end := if r.Complete? && r.lease.Some? then Released(s', r.lease.value) else s';
    if r.Complete? && r.lease.Some? {
      ReleasingKeepsInv(limits, s', r.lease.value);
    }
    if end.leases == map[] {
      assert end.leases.Keys == {};
    } else {
      TotalCounts(end.leases, end.leases.Keys);
      assert end.leases.Keys != {};
    }
  }

  // ------------------------------------------------- a lease that is never disposed

  /** The chunk in which a producer sends a whole payload on behalf of an envelope. */
  function Single(e: Content, group: string, payload: Bytes): Chunk
    requires e.Envelope?
  {
    Chunk(e.source, e.session, group, e.kind, e.batchId, 0, 1, |payload|, payload)
  }

  lemma SingleChunkTaken(limits: Limits, s: State, k: Key, c: Chunk, now: int)
    requires s.groups == map[] && c.count == 1 && c.index == 0 && 0 < |c.decoded| == c.total
    requires s.pending + 2 * c.total <= limits.pendingBytes
    ensures Taken(limits, s, k, NewGroup(c, now), 0, c.decoded, now)
         == (s.(pending := s.pending + c.total, leases := s.leases[s.next := c.total], next := s.next + 1),
             Reassembled(c.decoded, s.next))
  {
    hide Concat;
    SingleChunk(c, now);
    assert s.groups - {k} == map[];
  }

  lemma SingleChunkReassembles(limits: Limits, s: State, c: Chunk, now: int)
    requires limits.Valid() && Inv(limits, s) && s.groups == map[]
    requires c.count == 1 && c.index == 0 && 0 < |c.decoded| == c.total <= limits.reassembledBytes
    requires s.pending + 2 * c.total <= limits.pendingBytes
    ensures WellFormed(limits, c)
    ensures Admit(limits, s, c, now)
         == (s.(pending := s.pending + c.total, leases := s.leases[s.next := c.total], next := s.next + 1),
             Reassembled(c.decoded, s.next))
  {
    hide Inv, Held, Concat, Taken;
    assert FreshGroups(limits, s.groups, now) == map[];
    assert Pruned(limits, s, now) == s;
    SingleChunkTaken(limits, s, KeyOf(c), c, now);
  }

  /** Parsing a wrapped payload is parsing the payload with its bytes leased. */
  lemma SingleChunkParse(limits: Limits, read: Bytes -> Content, s: State, bytes: Bytes, maximum: int, c: Chunk, now: int)
    requires limits.Valid() && Inv(limits, s) && ReaderFits(read) && s.groups == map[]
    requires 0 < |bytes| <= maximum && read(bytes) == Transport(c)
    requires c.count == 1 && c.index == 0 && 0 < |c.decoded| == c.total <= limits.reassembledBytes
    requires s.pending + 2 * c.total <= limits.pendingBytes
    ensures var s1 := s.(pending := s.pending + c.total, leases := s.leases[s.next := c.total], next := s.next + 1);
      && Inv(limits, s1)
      && var (s2, inner) := Parse(limits, read, s1, c.decoded, limits.reassembledBytes, now);
         Parse(limits, read, s, bytes, maximum, now) == Unwrapped(read, c, s2, s.next, inner)
  {
    SingleChunkReassembles(limits, s, c, now);
    AdmittingKeepsInv(limits, s, c, now);
    hide Inv, Admit, WellFormed, Parse;
    NestedParse(limits, read, s, bytes, maximum, now);
  }

  lemma PlainParse(limits: Limits, read: Bytes -> Content, s: State, bytes: Bytes, maximum: int, now: int)
    requires Inv(limits, s) && ReaderFits(read) && 0 < |bytes| <= maximum && read(bytes).Envelope?
    ensures Parse(limits, read, s, bytes, maximum, now) == (s, Complete(bytes, None))
  {
    hide Inv, Admit, WellFormed;
  }

  /**
  The claim that everything is released fails for an envelope in a chunk in a chunk, whenever the reader
  reads back the two chunks a producer encoded. The answer carries one lease, and after disposing it the envelope's bytes stay accounted
  for although no group is left.
   */
  lemma NestedChunkStrandsALease(limits: Limits, read: Bytes -> Content, encode: Chunk -> Bytes, s: State,
                                 envelope: Bytes, innerGroup: string, outerGroup: string, now: int)
    requires limits.Valid() && Inv(limits, s) && s.groups == map[] && s.pending == 0
    requires ReaderFits(read) && 0 < |envelope| && read(envelope).Envelope?
    requires var inner := Single(read(envelope), innerGroup, envelope);
      var outer := Single(read(envelope), outerGroup, encode(inner));
      && read(encode(inner)) == Transport(inner) && read(encode(outer)) == Transport(outer)
      && |encode(outer)| <= limits.requestBytes
      && |encode(inner)| + 2 * |envelope| <= limits.pendingBytes
    ensures var e := read(envelope);
      var request := encode(Single(e, outerGroup, encode(Single(e, innerGroup, envelope))));
      var (s', r) := Parse(limits, read, s, request, limits.requestBytes, now);
      && r == Complete(envelope, Some(s.next)) && s'.groups == map[]
      && Released(s', s.next).pending == |envelope|
  {
    hide Parse, Inv;
    var e := read(envelope);
    var inner := Single(e, innerGroup, envelope);
    var outer := Single(e, outerGroup, encode(inner));
    assert read(encode(inner)).chunk.decoded == envelope && read(encode(outer)).chunk.decoded == encode(inner);
    var s1 := s.(pending := |encode(inner)|, leases := s.leases[s.next := |encode(inner)|], next := s.next + 1);
    var s2 := s1.(pending := s1.pending + |envelope|, leases := s1.leases[s1.next := |envelope|], next := s1.next + 1);
    SingleChunkParse(limits, read, s, encode(outer), limits.requestBytes, outer, now);
    SingleChunkParse(limits, read, s1, encode(inner), limits.reassembledBytes, inner, now);
    PlainParse(limits, read, s2, envelope, limits.reassembledBytes, now);
  }

  // ------------------------------------------------------------------ the processor

  lemma {:induction false} PrefixSums(chunks: seq<Option<Bytes>>, i: nat)
    requires i < |chunks| && chunks[i].Some?
    ensures Concat(chunks[..i + 1]) == Concat(chunks[..i]) + chunks[i].value
    ensures BytesOf(chunks[..i + 1]) == BytesOf(chunks[..i]) + |chunks[i].value| <= BytesOf(chunks)
    decreases |chunks|
  {
    var n := |chunks| - 1;
    assert chunks[..i + 1][..i] == chunks[..i];
    if i < n {
      PrefixSums(chunks[..n], i);
      assert chunks[..n][..i] == chunks[..i] && chunks[..n][..i + 1] == chunks[..i + 1];
    } else {
      assert chunks[..i + 1] == chunks;
    }
  }

  class EnvelopeProcessor {
    const limits: Limits
    const read: Bytes -> Content
    var groups: map<Key, Group>
    var pending: int
    var leases: map<nat, nat>
    var next: nat

    function Contents(): State
      reads this
    {
      State(groups, pending, leases, next)
    }

    ghost predicate Valid()
      reads this
    {
      limits.Valid() && ReaderFits(read) && Inv(limits, Contents())
    }

    constructor (limits: Limits, read: Bytes -> Content)
      requires limits.Valid() && ReaderFits(read)
      ensures Valid() && Contents() == EMPTY && this.limits == limits && this.read == read
    {
      this.limits, this.read := limits, read;
      groups, pending, leases, next := map[], 0, map[], 0;
      assert Sizes(map[]) == map[];
    }

    method RemoveGroup(k: Key)
      modifies this`groups, this`pending
      ensures Contents() == Without(old(Contents()), k)
    {
      if k in groups {
        pending := pending - groups[k].receivedBytes;
        groups := groups - {k};
      }
    }

    /** Removes every group whose last chunk is too old. */
    method PruneExpired(now: int)
      modifies this`groups, this`pending
      ensures Contents() == Pruned(limits, old(Contents()), now)
    {
      var keys := groups.Keys;
      while keys != {}
        invariant groups.Keys <= old(groups).Keys && forall k :: k in groups ==> groups[k] == old(groups)[k]
        invariant forall k :: k in keys ==> k in groups
        invariant forall k :: k in old(groups) && k !in keys ==>
          (k in groups <==> now - old(groups)[k].updated < limits.timeout)
        invariant pending == old(pending) - (Held(old(groups)) - Held(groups))
        decreases keys
      {
        var k :| k in keys;
        keys := keys - {k};
        if now - groups[k].updated >= limits.timeout {
          HeldWithout(groups, k);
          RemoveGroup(k);
        }
      }
      assert groups == FreshGroups(limits, old(groups), now);
    }

    /** Drops every pending group; buffers already handed on keep their leases. */
    method ClearPendingChunks()
      modifies this`groups, this`pending
      ensures Contents() == Cleared(old(Contents()))
    {
      var keys := groups.Keys;
      ghost var rest := groups;
      while keys != {}
        invariant rest.Keys == keys && keys <= groups.Keys && forall k :: k in rest ==> rest[k] == groups[k]
        invariant groups == old(groups)
        invariant pending == old(pending) - (Held(groups) - Held(rest))
        decreases keys
      {
        var k :| k in keys;
        HeldWithout(rest, k);
        pending := pending - groups[k].receivedBytes;
        keys, rest := keys - {k}, rest - {k};
      }
      assert Sizes(rest) == map[];
      groups := map[];
    }

    /** Disposes a lease. */
    method ReleaseProcessingMemory(lease: nat)
      modifies this`leases, this`pending
      ensures Contents() == Released(old(Contents()), lease)
    {
      if lease in leases {
        pending := pending - leases[lease];
        leases := leases - {lease};
      }
    }

    /** Copies a complete group's chunks, in index order, into one buffer. */
    method Reassemble(chunks: seq<Option<Bytes>>, total: nat) returns (buffer: array<Byte>)
      requires BytesOf(chunks) == total && forall i :: 0 <= i < |chunks| ==> chunks[i].Some?
      ensures fresh(buffer) && buffer[..] == Concat(chunks)
    {
      buffer := new Byte[total];
      var offset := 0;
      for i := 0 to |chunks|
        invariant offset == BytesOf(chunks[..i]) <= total
        invariant buffer[..offset] == Concat(chunks[..i])
      {
        var chunk := chunks[i].value;
        PrefixSums(chunks, i);
        ghost var done := buffer[..offset];
        forall j | 0 <= j < |chunk| {
          buffer[offset + j] := chunk[j];
        }
        assert buffer[..offset + |chunk|] == done + chunk;
        offset := offset + |chunk|;
      }
      assert chunks[..|chunks|] == chunks;
      assert buffer[..] == buffer[..offset];
    }

    /** Stores the chunk in the group found or opened for it; completes the group when it is the last one. */
    method TakeChunk(k: Key, group: Group, i: nat, decoded: Bytes, now: int) returns (admission: Admission)
      requires GroupInv(limits, group) && i < |group.chunks|
      modifies this
      ensures (Contents(), admission) == Taken(limits, old(Contents()), k, group, i, decoded, now)
    {
      hide BytesOf, Present, Concat;
      var g := group.(updated := now);
      var prior := g.chunks[i];
      if prior.Some? {
        if prior.value != decoded {
          RemoveGroup(k);
          return Refused(ChunkConflict);
        }
      } else {
        if g.receivedBytes + |decoded| > g.total || pending + |decoded| > limits.pendingBytes {
          RemoveGroup(k);
          return Refused(PayloadTooLarge);
        }
        g := g.(chunks := g.chunks[i := Some(decoded)], receivedBytes := g.receivedBytes + |decoded|,
                receivedChunks := g.receivedChunks + 1);
        pending := pending + |decoded|;
      }
      TakingKeepsGroup(limits, group, i, decoded, now);
      PresentBound(g.chunks);
      if g.receivedChunks != g.count {
        groups := groups[k := g];
        return Waiting(g.receivedChunks, g.count);
      }
      if g.receivedBytes != g.total {
        pending, groups := pending - g.receivedBytes, groups - {k};
        return Refused(ChunkConflict);
      }
      if pending + g.total > limits.pendingBytes {
        pending, groups := pending - g.receivedBytes, groups - {k};
        return Refused(Busy);
      }
      pending := pending + g.total;
      leases, next := leases[next := g.total], next + 1;
      assert pending <= limits.pendingBytes;
      var buffer := Reassemble(g.chunks, g.total);
      pending, groups := pending - g.receivedBytes, groups - {k};
      return Reassembled(buffer[..], next - 1);
    }

    /** The locked part of taking in one chunk. */
    method AdmitChunk(c: Chunk, now: int) returns (admission: Admission)
      requires Valid() && WellFormed(limits, c)
      modifies this
      ensures Valid()
      ensures (Contents(), admission) == Admit(limits, old(Contents()), c, now)
    {
      hide GroupInv, Held, Taken;
      AdmittingKeepsInv(limits, Contents(), c, now);
      PruningKeepsInv(limits, Contents(), now);
      PruneExpired(now);
      var k := KeyOf(c);
      if k !in groups {
        if |groups| >= limits.pendingGroups || pending + |c.decoded| > limits.pendingBytes {
          return Refused(Busy);
        }
        NewGroupFits(limits, c, now);
        admission := TakeChunk(k, NewGroup(c, now), c.index, c.decoded, now);
      } else if !SameShape(groups[k], c) {
        RemoveGroup(k);
        return Refused(ChunkConflict);
      } else {
        GroupSlots(limits, Contents(), k);
        admission := TakeChunk(k, groups[k], c.index, c.decoded, now);
      }
    }

    /** Parses one request; a completed buffer is parsed in turn and its lease is handed on or disposed. */
    method ParseRequest(bytes: Bytes, maximum: int, now: int) returns (result: Result)
      requires Valid()
      modifies this
      ensures Valid()
      ensures (Contents(), result) == Parse(limits, read, old(Contents()), bytes, maximum, now)
      decreases |groups|, |bytes|
    {
      hide Inv, WellFormed;
      if |bytes| == 0 || |bytes| > maximum {
        return Rejected(PayloadTooLarge);
      }
      var content := read(bytes);
      if content.Unreadable? {
        return Rejected(content.code);
      }
      if content.Envelope? {
        return Complete(bytes, None);
      }
      var c := content.chunk;
      if !WellFormed(limits, c) {
        return Rejected(InvalidRequest);
      }
      ReassemblyShrinks(limits, Contents(), c, now);
      var admission := AdmitChunk(c, now);
      hide Admit;
      if admission.Refused? {
        return Rejected(admission.code);
      }
      if admission.Waiting? {
        return ChunkPending(admission.received, admission.count);
      }
      var inner := ParseRequest(admission.bytes, limits.reassembledBytes, now);
      if !inner.Complete? || !Announced(read(inner.exact), c) {
        ReleasingKeepsInv(limits, Contents(), admission.lease);
        ReleaseProcessingMemory(admission.lease);
        return Rejected(if inner.Rejected? then inner.code else ChunkConflict);
      }
      return Complete(inner.exact, Some(admission.lease));
    }
  }
}
