/**
Committing a capture batch, and replaying one. A batch that was accepted before is verified row by
row against everything the tables say about it, and changes nothing. The theorems are about any
sequence of commits, in any order, into stores that start empty.
 */
module CaptureReplay {
  import opened Common
  import opened IngestLimits
  import opened CaptureTables
  import opened CaptureInvariant

  datatype Outcome =
    | Committed(count: nat) | OutOfBounds | Malformed | BatchConflict | ReplayRefused | Cancelled

  predicate WithinBounds(envelope: Envelope) {
    && 0 < |envelope.events| <= DEFAULT_LIMITS.batchEvents
    && forall e :: e in envelope.events ==> 0 < |e| <= DEFAULT_LIMITS.reassembledBytes
  }

  predicate WellFormed(codec: Codec, envelope: Envelope) {
    forall e :: e in envelope.events ==> codec.fields(e).Some?
  }

  function CapturesOf(codec: Codec, ns: string, envelope: Envelope): (r: seq<Capture>)
    requires WellFormed(codec, envelope)
    ensures |r| == |envelope.events|
    ensures forall i :: 0 <= i < |r| ==>
      Describes(codec, r[i]) && r[i].ns == ns && r[i].raw == envelope.events[i]
  {
    seq(|envelope.events|, i requires 0 <= i < |envelope.events| =>
      Capture(ns, envelope.events[i], codec.compress(envelope.events[i]), codec.fields(envelope.events[i]).value))
  }

  // -------------------------------------------------------------- cancellation

  /** How many events can be read before the first malformed one. */
  function Readable(codec: Codec, events: seq<Bytes>): (n: nat)
    ensures n <= |events|
    ensures forall i :: 0 <= i < n ==> codec.fields(events[i]).Some?
    ensures n < |events| ==> codec.fields(events[n]).None?
  {
    if events == [] || codec.fields(events[0]).None? then 0 else 1 + Readable(codec, events[1..])
  }

  /** The looks at the token before the store is read: on entry, at the gate, and before each event that is built. */
  function EarlyLooks(codec: Codec, envelope: Envelope): nat {
    var n := Readable(codec, envelope.events);
    2 + if n < |envelope.events| then n + 1 else n
  }

  /** The first look that finds the token cancelled is among so many; a cancelled token stays so. */
  predicate Stopped(cancelledAt: Option<nat>, looks: nat) { cancelledAt.Some? && cancelledAt.value < looks }

  // -------------------------------------------------------------- verification

  predicate SoleName(aliases: seq<Alias>, ns: string, kind: AliasKind, value: string) {
    forall i, j :: 0 <= i < j < |aliases| ==>
      !(SameName(aliases[i], Alias(ns, kind, value, 0)) && SameName(aliases[j], Alias(ns, kind, value, 0)))
  }

  predicate RequiredAliasVerifies(aliases: seq<Alias>, battle: nat, ns: string, kind: AliasKind, value: string) {
    FindBattle(aliases, ns, kind, value) == Some(battle) && SoleName(aliases, ns, kind, value)
  }

  predicate SoleLink(links: seq<Link>, evidence: nat) {
    forall i, j :: 0 <= i < j < |links| ==> !(links[i].evidence == evidence && links[j].evidence == evidence)
  }

  /** The battle's state agrees with a count of its relations, each of them to coherent evidence. */
  predicate AggregateVerifies(t: Tables, battle: nat, ns: string) {
    && battle < |t.battles| && t.battles[battle].ns == ns
    && Count(t.links, battle, Canonical) == 1
    && (forall l :: l in t.links && l.battle == battle ==>
          l.evidence < |t.evidence| && t.evidence[l.evidence].state == Accepted && t.evidence[l.evidence].ns == ns)
    && t.battles[battle].state == if Count(t.links, battle, Conflicting) == 0 then Uncontested else CaptureConflict
  }

  predicate CanonicalRoleVerifies(t: Tables, battle: nat, evidence: nat, role: Role, ns: string) {
    var canonical := CanonicalOf(t.links, battle);
    && canonical.Some?
    && canonical.value.evidence < |t.evidence|
    && t.evidence[canonical.value.evidence].state == Accepted && t.evidence[canonical.value.evidence].ns == ns
    && (forall l :: l in t.links && l.battle == battle ==> canonical.value.evidence <= l.evidence)
    && (role == Canonical <==> canonical.value.evidence == evidence)
    && AggregateVerifies(t, battle, ns)
  }

  predicate AssociationVerifies(t: Tables, e: nat, c: Capture)
    requires e < |t.evidence|
  {
    var link := LinkOf(t.links, e);
    if link.None? then
      && t.evidence[e].state == AssociationConflict
      && CoherentConflict(t.aliases, c.ns, c.fields.journal, c.fields.battle)
      && SoleName(t.aliases, c.ns, JournalId, c.fields.journal)
      && SoleName(t.aliases, c.ns, BattleId, c.fields.battle.value)
    else
      var battle := link.value.battle;
      && SoleLink(t.links, e)
      && t.evidence[e].state == Accepted
      && CanonicalRoleVerifies(t, battle, e, link.value.role, c.ns)
      && RequiredAliasVerifies(t.aliases, battle, c.ns, JournalId, c.fields.journal)
      && (c.fields.battle.Some? ==> RequiredAliasVerifies(t.aliases, battle, c.ns, BattleId, c.fields.battle.value))
  }

  /** The row's attribution is what this envelope would have given it. */
  predicate SameAttribution(row: Evidence, c: Capture, envelope: Envelope) {
    && row.source == OwnOr(c.fields.source, envelope.source)
    && row.modVersion == OwnOr(c.fields.modVersion, envelope.modVersion)
    && row.session == OwnOr(c.fields.session, envelope.session)
  }

  predicate ReceiptVerifies(t: Tables, r: Receipt, ordinal: nat, c: Capture, envelope: Envelope) {
    && r.ordinal == ordinal && r.evidence < |t.evidence|
    && var row := t.evidence[r.evidence];
       && row.ns == c.ns && row.journal == c.fields.journal && row.raw == c.raw
       && SameAttribution(row, c, envelope)
       && row.timestampText == c.fields.timestampText && row.timestamp == c.fields.timestamp
       && row.battle == c.fields.battle && row.compressed == c.compressed
       && row.blob < |t.blobs| && t.blobs[row.blob] == Blob(c.raw, c.compressed)
       && AssociationVerifies(t, r.evidence, c)
  }

  predicate BatchVerifies(t: Tables, batch: Batch, captures: seq<Capture>, envelope: Envelope) {
    && |batch.receipts| == |captures|
    && forall i :: 0 <= i < |captures| ==> ReceiptVerifies(t, batch.receipts[i], i, captures[i], envelope)
  }

  // ------------------------------------------------------------------- committing

  /** What one commit answers and leaves in the tables; cancelledAt numbers the first look that finds the token cancelled. */
  function Commit(codec: Codec, t: Tables, ns: string, exact: Bytes, cancelledAt: Option<nat>): (Tables, Outcome) {
    var envelope := codec.envelope(exact);
    if Stopped(cancelledAt, 1) then (t, Cancelled)
    else if !WithinBounds(envelope) then (t, OutOfBounds)
    else if Stopped(cancelledAt, EarlyLooks(codec, envelope)) then (t, Cancelled)
    else if !WellFormed(codec, envelope) then (t, Malformed)
    else
      var captures := CapturesOf(codec, ns, envelope);
      var existing := FindBatch(t.batches, ns, envelope.source, envelope.session, envelope.batchId);
      if existing.Some? then
        var batch := t.batches[existing.value];
        if batch.exact != exact || batch.accepted != |captures| then (t, BatchConflict)
        else if !BatchVerifies(t, batch, captures, envelope) then (t, ReplayRefused)
        else (t, Committed(batch.accepted))
      else if Stopped(cancelledAt, 2 + 2 * |captures|) then (t, Cancelled)
      else
        var (after, receipts) := PersistedAll(t, captures, envelope);
        var batch := Batch(ns, envelope.source, envelope.session, envelope.batchId, exact, |captures|, receipts);
        (after.(batches := t.batches + [batch]), Committed(|captures|))
  }

  datatype Request = Request(ns: string, exact: Bytes, cancelledAt: Option<nat>)

  /** The tables after a sequence of commits, whatever each of them answered. */
  function After(codec: Codec, requests: seq<Request>): Tables {
    if requests == [] then EMPTY
    else
      var r := requests[|requests| - 1];
      Commit(codec, After(codec, requests[..|requests| - 1]), r.ns, r.exact, r.cancelledAt).0
  }

  // -------------------------------------------------- what persisting leaves alone

  lemma AssociatingGrows(t: Tables, c: Capture)
    requires |t.evidence| > 0
    ensures var t' := Associated(t, c, |t.evidence| - 1);
      && t'.batches == t.batches && t'.blobs == t.blobs
      && |t'.evidence| == |t.evidence|
      && t'.evidence[..|t.evidence| - 1] == t.evidence[..|t.evidence| - 1]
      && t'.evidence[|t.evidence| - 1] == t.evidence[|t.evidence| - 1].(state := t'.evidence[|t.evidence| - 1].state)
  {
    hide Decide, MissingAliases, WantedAliases, CanonicalOf;
  }

  /** Evidence is only ever appended, and the receipt names a row of the capture's bytes. */
  lemma PersistingGrows(codec: Codec, t: Tables, c: Capture, envelope: Envelope)
    ensures var (t', e, disposition) := Persisted(t, c, envelope);
      && t.evidence <= t'.evidence && t'.batches == t.batches
      && e < |t'.evidence| && t'.evidence[e].ns == c.ns && t'.evidence[e].raw == c.raw
      && |t'.evidence| == |t.evidence| + (if disposition.FirstSeen? then 1 else 0)
      && (disposition.FirstSeen? ==> e == |t.evidence| && SameAttribution(t'.evidence[e], c, envelope))
      && (disposition.ExactRetry? ==> t' == t)
  {
    if FindOccurrence(t.evidence, c.ns, c.fields.journal, c.raw).None? {
      var t1 := Inserted(t, c, envelope);
      hide Associated;
      AssociatingGrows(t1, c);
      var t' := Persisted(t, c, envelope).0;
      assert t' == Associated(t1, c, |t.evidence|);
      assert t1.evidence[..|t.evidence|] == t.evidence;
    }
  }

  predicate ReceiptsFit(evidence: seq<Evidence>, receipts: seq<Receipt>, captures: seq<Capture>) {
    && |receipts| == |captures|
    && forall i :: 0 <= i < |receipts| ==>
         && receipts[i].ordinal == i && receipts[i].evidence < |evidence|
         && evidence[receipts[i].evidence].ns == captures[i].ns && evidence[receipts[i].evidence].raw == captures[i].raw
  }

  lemma {:induction false} PersistingAllKeepsInv(codec: Codec, t: Tables, captures: seq<Capture>, envelope: Envelope)
    requires Inv(codec, t) && forall c :: c in captures ==> Describes(codec, c)
    ensures var (t', receipts) := PersistedAll(t, captures, envelope);
      && Inv(codec, t') && t.evidence <= t'.evidence && t'.batches == t.batches
      && ReceiptsFit(t'.evidence, receipts, captures)
  {
    hide Inv, Persisted, Describes;
    if captures != [] {
      var n := |captures| - 1;
      PersistingAllKeepsInv(codec, t, captures[..n], envelope);
      var before := PersistedAll(t, captures[..n], envelope).0;
      PersistingKeepsInv(codec, before, captures[n], envelope);
      PersistingGrows(codec, before, captures[n], envelope);
    }
  }

  lemma BatchAdded(codec: Codec, evidence: seq<Evidence>, evidence': seq<Evidence>, batches: seq<Batch>, batch: Batch)
    requires BatchTable(codec, evidence, batches) && evidence <= evidence' && BatchFits(codec, evidence', batch)
    requires FindBatch(batches, batch.ns, batch.source, batch.session, batch.batchId).None?
    ensures BatchTable(codec, evidence', batches + [batch])
  {
    var all := batches + [batch];
    forall b | b in all
      ensures BatchFits(codec, evidence', b)
    {
      if b in batches {
        assert BatchFits(codec, evidence, b);
      }
    }
    forall i, j | 0 <= i < j < |all|
      ensures !SameBatch(all[i], all[j].ns, all[j].source, all[j].session, all[j].batchId)
    {
      assert all[i] == batches[i];
      if j < |batches| {
        assert all[j] == batches[j];
      }
    }
  }

  lemma BatchesReplaced(codec: Codec, t: Tables, batches: seq<Batch>)
    requires Inv(codec, t) && BatchTable(codec, t.evidence, batches)
    ensures Inv(codec, t.(batches := batches))
  {
    hide AliasTable, BattleKeys, BlobTable, EvidenceTable, LinkTable, EvidenceLinked, BattlesLinked, LinkedAliases,
      ConflictsCoherent, BatchTable;
  }

  lemma BatchesOf(codec: Codec, t: Tables)
    requires Inv(codec, t)
    ensures BatchTable(codec, t.evidence, t.batches)
  {
    hide BatchTable;
  }

  lemma NewBatchKeepsInv(codec: Codec, t: Tables, ns: string, exact: Bytes)
    requires Inv(codec, t) && WellFormed(codec, codec.envelope(exact))
    requires var e := codec.envelope(exact); FindBatch(t.batches, ns, e.source, e.session, e.batchId).None?
    ensures var envelope := codec.envelope(exact);
      var (after, receipts) := PersistedAll(t, CapturesOf(codec, ns, envelope), envelope);
      Inv(codec, after.(batches := t.batches + [
        Batch(ns, envelope.source, envelope.session, envelope.batchId, exact, |envelope.events|, receipts)]))
  {
    hide Inv, BatchTable, PersistedAll, FindBatch;
    var envelope := codec.envelope(exact);
    var captures := CapturesOf(codec, ns, envelope);
    PersistingAllKeepsInv(codec, t, captures, envelope);
    var (after, receipts) := PersistedAll(t, captures, envelope);
    var batch := Batch(ns, envelope.source, envelope.session, envelope.batchId, exact, |captures|, receipts);
    BatchesOf(codec, t);
    BatchAdded(codec, t.evidence, after.evidence, t.batches, batch);
    BatchesReplaced(codec, after, t.batches + [batch]);
  }

  /** A commit keeps the invariant, only appends evidence and batches, and changes nothing unless it is new. */
  lemma CommitKeepsInv(codec: Codec, t: Tables, ns: string, exact: Bytes, cancelledAt: Option<nat>)
    requires Inv(codec, t)
    ensures var (t', outcome) := Commit(codec, t, ns, exact, cancelledAt);
      && Inv(codec, t') && t.evidence <= t'.evidence && t.batches <= t'.batches
      && (!outcome.Committed? ==> t' == t)
  {
    hide Inv, BatchVerifies, PersistedAll;
    var envelope := codec.envelope(exact);
    if WithinBounds(envelope) && WellFormed(codec, envelope)
       && FindBatch(t.batches, ns, envelope.source, envelope.session, envelope.batchId).None?
    {
      NewBatchKeepsInv(codec, t, ns, exact);
      PersistingAllKeepsInv(codec, t, CapturesOf(codec, ns, envelope), envelope);
    }
  }

  lemma {:induction false} RunsKeepInv(codec: Codec, requests: seq<Request>)
    ensures Inv(codec, After(codec, requests))
  {
    if requests != [] {
      var r := requests[|requests| - 1];
      RunsKeepInv(codec, requests[..|requests| - 1]);
      CommitKeepsInv(codec, After(codec, requests[..|requests| - 1]), r.ns, r.exact, r.cancelledAt);
    }
  }

  lemma {:induction false} RunsGrow(codec: Codec, requests: seq<Request>, j: nat)
    requires j <= |requests|
    ensures After(codec, requests[..j]).evidence <= After(codec, requests).evidence
    ensures After(codec, requests[..j]).batches <= After(codec, requests).batches
  {
    hide Inv, Commit;
    if j < |requests| {
      var n := |requests| - 1;
      RunsGrow(codec, requests[..n], j);
      assert requests[..n][..j] == requests[..j];
      RunsKeepInv(codec, requests[..n]);
      CommitKeepsInv(codec, After(codec, requests[..n]), requests[n].ns, requests[n].exact, requests[n].cancelledAt);
    } else {
      assert requests[..j] == requests;
    }
  }

  // ------------------------------------------------------------ the battle table

  /** The battle's one canonical capture is c, its smallest evidence; it is in conflict exactly when it has another capture. */
  predicate CanonicalCaptureIs(battles: seq<Battle>, links: seq<Link>, b: nat, c: Link)
    requires b < |battles|
  {
    && c in links && c.battle == b && c.role == Canonical
    && (forall l :: l in links && l.battle == b ==> c.evidence <= l.evidence && (l.role == Canonical ==> l == c))
    && (battles[b].state == CaptureConflict <==> exists l :: l in links && l.battle == b && l != c)
  }

  lemma BattleHasCanonicalCapture(evidence: seq<Evidence>, battles: seq<Battle>, links: seq<Link>, b: nat) returns (c: Link)
    requires LinkTable(evidence, battles, links) && b < |battles| && BattleLinked(battles, links, b)
    ensures CanonicalCaptureIs(battles, links, b, c)
  {
    hide LinkTable;
    c := CanonicalCapture(evidence, battles, links, b);
  }

  /** In every reachable store each battle has one canonical capture, its first; any other capture contests it. */
  lemma BattlesHaveOneCanonicalCapture(codec: Codec, requests: seq<Request>, b: nat)
    requires b < |After(codec, requests).battles|
    ensures var t := After(codec, requests); exists c :: CanonicalCaptureIs(t.battles, t.links, b, c)
  {
    RunsKeepInv(codec, requests);
    var t := After(codec, requests);
    LinksOf(codec, t);
    hide After, LinkTable, Inv, CanonicalCaptureIs;
    assert BattleLinked(t.battles, t.links, b);
    var c := BattleHasCanonicalCapture(t.evidence, t.battles, t.links, b);
  }

  lemma LinksOf(codec: Codec, t: Tables)
    requires Inv(codec, t)
    ensures LinkTable(t.evidence, t.battles, t.links) && BattlesLinked(t.battles, t.links)
  {
    hide LinkTable, BattlesLinked;
  }

  lemma CanonicalCapture(evidence: seq<Evidence>, battles: seq<Battle>, links: seq<Link>, b: nat) returns (c: Link)
    requires LinkTable(evidence, battles, links) && exists l :: l in links && l.battle == b
    ensures c in links && c.battle == b && c.role == Canonical && CanonicalOf(links, b) == Some(c)
    ensures forall l :: l in links && l.battle == b ==>
      c.evidence <= l.evidence && (l.role == Canonical <==> l == c) && (l.role == Conflicting <==> l != c)
  {
    var x :| x in links && x.battle == b;
    var i :| 0 <= i < |links| && links[i] == x;
    var k := FirstLinkIsCanonical(evidence, battles, links, i);
    c := links[k];
    forall l | l in links && l.battle == b
      ensures c.evidence <= l.evidence && (l.role == Canonical <==> l == c)
    {
      var j :| 0 <= j < |links| && links[j] == l;
      LaterLinkContests(evidence, battles, links, k, j);
    }
    hide LinkTable;
    assert CanonicalOf(links, b).Some?;
  }

  lemma LaterLinkContests(evidence: seq<Evidence>, battles: seq<Battle>, links: seq<Link>, k: nat, j: nat)
    requires LinkTable(evidence, battles, links) && k < |links| && j < |links| && links[j].battle == links[k].battle
    requires links[k].role == Canonical
    requires forall i :: 0 <= i < k ==> links[i].battle != links[k].battle
    ensures links[k].evidence <= links[j].evidence
    ensures links[j].role == Canonical <==> links[j] == links[k]
  {
    if j != k {
      assert k < j;
      assert links[k].evidence < links[j].evidence;
    }
  }

  /** A battle is described by the event that opened it: named by its battle id if it has one, else by its journal. */
  predicate DescribedBy(codec: Codec, battle: Battle, row: Evidence) {
    && battle.ns == row.ns && battle.captured == row.timestamp
    && codec.fields(row.raw).Some? && battle.battleType == codec.fields(row.raw).value.battleType
    && if row.battle.Some? then battle.keyKind == BattleId && battle.keyValue == row.battle.value
       else battle.keyKind == JournalId && battle.keyValue == row.journal
  }

  predicate BattlesDescribed(codec: Codec, evidence: seq<Evidence>, battles: seq<Battle>, links: seq<Link>) {
    forall l :: l in links && l.role == Canonical ==>
      l.evidence < |evidence| && l.battle < |battles| && DescribedBy(codec, battles[l.battle], evidence[l.evidence])
  }

  /** Rows that change at most their state describe as before. */
  lemma DescriptionsStay(
    codec: Codec, evidence: seq<Evidence>, battles: seq<Battle>, evidence': seq<Evidence>, battles': seq<Battle>, links: seq<Link>)
    requires BattlesDescribed(codec, evidence, battles, links) && |evidence| <= |evidence'| && |battles| <= |battles'|
    requires forall e :: 0 <= e < |evidence| ==> evidence'[e] == evidence[e].(state := evidence'[e].state)
    requires forall b :: 0 <= b < |battles| ==> battles'[b] == battles[b].(state := battles'[b].state)
    ensures BattlesDescribed(codec, evidence', battles', links)
  {
  }

  lemma LinkingDescribes(codec: Codec, t: Tables, e: nat, b: nat)
    requires BattlesDescribed(codec, t.evidence, t.battles, t.links) && e < |t.evidence| && b < |t.battles|
    requires CanonicalOf(t.links, b).None? ==> DescribedBy(codec, t.battles[b], t.evidence[e])
    ensures var t' := Linked(t, e, b); BattlesDescribed(codec, t'.evidence, t'.battles, t'.links)
  {
    var t' := Linked(t, e, b);
    DescriptionsStay(codec, t.evidence, t.battles, t'.evidence, t'.battles, t.links);
    hide CanonicalOf, DescribedBy;
  }

  lemma AssociatingDescribes(codec: Codec, t: Tables, c: Capture, e: nat)
    requires AliasTable(t.aliases, t.battles) && LinkTable(t.evidence, t.battles, t.links)
    requires BattlesLinked(t.battles, t.links) && BattlesDescribed(codec, t.evidence, t.battles, t.links)
    requires e < |t.evidence| && Describes(codec, c) && RowOf(t.evidence[e], c)
    requires t.evidence[e].raw == c.raw && t.evidence[e].timestamp == c.fields.timestamp
    ensures var t' := Associated(t, c, e); BattlesDescribed(codec, t'.evidence, t'.battles, t'.links)
  {
    match Decide(t.aliases, c)
    case Contested =>
      DescriptionsStay(codec, t.evidence, t.battles, MarkEvidence(t.evidence, e), t.battles, t.links);
    case Joins(b) =>
      JoinedBattle(t.aliases, t.battles, c, b);
      assert BattleLinked(t.battles, t.links, b);
      CanonicalMeansLinked(t.evidence, t.battles, t.links, b);
      LinkingDescribes(codec, t.(aliases := t.aliases + MissingAliases(t.aliases, c.ns, WantedAliases(c), b)), e, b);
    case Opens =>
      var battles := t.battles + [OpenedBattle(c)];
      DescriptionsStay(codec, t.evidence, t.battles, t.evidence, battles, t.links);
      LinkingDescribes(codec,
        t.(battles := battles, aliases := t.aliases + MissingAliases([], c.ns, WantedAliases(c), |t.battles|)), e, |t.battles|);
  }
  lemma PersistingDescribes(codec: Codec, t: Tables, c: Capture, envelope: Envelope)
    requires Inv(codec, t) && Describes(codec, c) && BattlesDescribed(codec, t.evidence, t.battles, t.links)
    ensures var t' := Persisted(t, c, envelope).0; BattlesDescribed(codec, t'.evidence, t'.battles, t'.links)
  {
    if FindOccurrence(t.evidence, c.ns, c.fields.journal, c.raw).None? {
      var t1 := Inserted(t, c, envelope);
      InsertingIsPending(codec, t, c, envelope);
      DescriptionsStay(codec, t.evidence, t.battles, t1.evidence, t1.battles, t.links);
      AssociatingDescribes(codec, t1, c, |t.evidence|);
      hide Associated, Pending, Inv, BattlesDescribed, FindOccurrence;
    }
  }

  lemma {:induction false} PersistingAllDescribes(codec: Codec, t: Tables, captures: seq<Capture>, envelope: Envelope)
    requires Inv(codec, t) && (forall c :: c in captures ==> Describes(codec, c))
    requires BattlesDescribed(codec, t.evidence, t.battles, t.links)
    ensures var t' := PersistedAll(t, captures, envelope).0; BattlesDescribed(codec, t'.evidence, t'.battles, t'.links)
  {
    hide Inv, Persisted, Describes, BattlesDescribed;
    if captures != [] {
      var n := |captures| - 1;
      PersistingAllKeepsInv(codec, t, captures[..n], envelope);
      PersistingAllDescribes(codec, t, captures[..n], envelope);
      PersistingDescribes(codec, PersistedAll(t, captures[..n], envelope).0, captures[n], envelope);
    }
  }

  /** In every reachable store each battle is described by its canonical capture. */
  lemma {:induction false} BattlesAreDescribed(codec: Codec, requests: seq<Request>)
    ensures var t := After(codec, requests); BattlesDescribed(codec, t.evidence, t.battles, t.links)
  {
    hide BattlesDescribed, Inv, PersistedAll, BatchVerifies, FindBatch;
    if requests == [] {
      NothingDescribed(codec);
    } else {
      var r := requests[|requests| - 1];
      var t, e := After(codec, requests[..|requests| - 1]), codec.envelope(r.exact);
      RunsKeepInv(codec, requests[..|requests| - 1]);
      BattlesAreDescribed(codec, requests[..|requests| - 1]);
      if WellFormed(codec, e) {
        PersistingAllDescribes(codec, t, CapturesOf(codec, r.ns, e), e);
      }
    }
  }

  lemma NothingDescribed(codec: Codec)
    ensures BattlesDescribed(codec, [], [], [])
  {
  }

  /** No reachable store holds two aliases of one name, two aliases of one kind for a battle, or two battles of one key. */
  lemma AliasesAreUniqueBothWays(codec: Codec, requests: seq<Request>)
    ensures UniqueAliases(After(codec, requests).aliases)
    ensures var battles := After(codec, requests).battles;
      forall i, j :: 0 <= i < j < |battles| ==>
        !(battles[i].ns == battles[j].ns && battles[i].keyKind == battles[j].keyKind && battles[i].keyValue == battles[j].keyValue)
  {
    RunsKeepInv(codec, requests);
    var t := After(codec, requests);
    forall i, j | 0 <= i < j < |t.battles|
      ensures !(t.battles[i].ns == t.battles[j].ns && t.battles[i].keyKind == t.battles[j].keyKind
                && t.battles[i].keyValue == t.battles[j].keyValue)
    {
      FindsItsBattle(t.aliases, Alias(t.battles[i].ns, t.battles[i].keyKind, t.battles[i].keyValue, i));
      FindsItsBattle(t.aliases, Alias(t.battles[j].ns, t.battles[j].keyKind, t.battles[j].keyValue, j));
    }
  }

  /** A conflict recorded at any time is still explained by the aliases of every later store. */
  lemma RecordedConflictsStayCoherent(codec: Codec, requests: seq<Request>, j: nat, e: nat)
    requires j <= |requests| && e < |After(codec, requests[..j]).evidence|
    requires After(codec, requests[..j]).evidence[e].state == AssociationConflict
    ensures var before, t := After(codec, requests[..j]), After(codec, requests);
      && e < |t.evidence| && t.evidence[e] == before.evidence[e]
      && CoherentConflict(t.aliases, t.evidence[e].ns, t.evidence[e].journal, t.evidence[e].battle)
      && forall l :: l in t.links ==> l.evidence != e
  {
    RunsKeepInv(codec, requests);
    RunsGrow(codec, requests, j);
  }

  // --------------------------------------------------------------------- replay

  lemma OpensBattlePrefix(links: seq<Link>, i: nat)
    requires i < |links|
    ensures forall k: nat :: k < i ==> OpensBattle(links[..i], k) == OpensBattle(links, k)
    ensures OpensBattle(links, i) <==> forall l :: l in links[..i] ==> l.battle != links[i].battle
  {
    var before := links[..i];
    assert forall k :: 0 <= k < i ==> before[k] == links[k];
    if OpensBattle(links, i) {
      forall l | l in before
        ensures l.battle != links[i].battle
      {
        var k :| 0 <= k < i && before[k] == l;
      }
    } else {
      var k :| 0 <= k < i && links[k].battle == links[i].battle;
      assert before[k] in before;
    }
  }

  lemma LinkPrefix(evidence: seq<Evidence>, battles: seq<Battle>, links: seq<Link>)
    requires LinkTable(evidence, battles, links) && links != []
    ensures var before, last := links[..|links| - 1], links[|links| - 1];
      && LinkTable(evidence, battles, before)
      && (last.role == Canonical <==> forall l :: l in before ==> l.battle != last.battle)
  {
    var before := links[..|links| - 1];
    OpensBattlePrefix(links, |links| - 1);
    hide OpensBattle;
    assert forall l :: l in before ==> l in links;
  }

  lemma {:induction false} CountsFirst(evidence: seq<Evidence>, battles: seq<Battle>, links: seq<Link>, b: nat)
    requires LinkTable(evidence, battles, links)
    ensures Count(links, b, Canonical) == if exists l :: l in links && l.battle == b then 1 else 0
    ensures Count(links, b, Conflicting) == 0 <==> forall l :: l in links && l.battle == b ==> l.role == Canonical
  {
    hide LinkTable;
    if links != [] {
      var before, last := links[..|links| - 1], links[|links| - 1];
      LinkPrefix(evidence, battles, links);
      CountsFirst(evidence, battles, before, b);
      assert forall l :: l in links <==> l in before || l == last;
    }
  }

  lemma AggregateHolds(codec: Codec, t: Tables, b: nat)
    requires LinkTable(t.evidence, t.battles, t.links) && b < |t.battles| && BattleLinked(t.battles, t.links, b)
    ensures AggregateVerifies(t, b, t.battles[b].ns)
  {
    CountsFirst(t.evidence, t.battles, t.links, b);
  }

  lemma NamesAreSole(aliases: seq<Alias>, ns: string, kind: AliasKind, value: string)
    requires UniqueAliases(aliases)
    ensures SoleName(aliases, ns, kind, value)
  {
  }

  lemma RoleHolds(codec: Codec, t: Tables, l: Link)
    requires LinkTable(t.evidence, t.battles, t.links) && BattlesLinked(t.battles, t.links) && l in t.links
    ensures CanonicalRoleVerifies(t, l.battle, l.evidence, l.role, t.evidence[l.evidence].ns)
  {
    LinkInRange(t, l);
    assert BattleLinked(t.battles, t.links, l.battle);
    AggregateHolds(codec, t, l.battle);
    var canonical := CanonicalCapture(t.evidence, t.battles, t.links, l.battle);
    LinkInRange(t, canonical);
    OneLinkEach(t, l, canonical);
    hide LinkTable, BattlesLinked, AggregateVerifies, CanonicalOf;
  }

  lemma LinkInRange(t: Tables, l: Link)
    requires LinkTable(t.evidence, t.battles, t.links) && l in t.links
    ensures l.evidence < |t.evidence| && l.battle < |t.battles|
    ensures t.evidence[l.evidence].state == Accepted && t.evidence[l.evidence].ns == t.battles[l.battle].ns
  {
  }

  lemma AliasesHold(aliases: seq<Alias>, row: Evidence, c: Capture, b: nat)
    requires UniqueAliases(aliases) && HasAliases(aliases, row, b) && RowOf(row, c)
    ensures RequiredAliasVerifies(aliases, b, c.ns, JournalId, c.fields.journal)
    ensures c.fields.battle.Some? ==> RequiredAliasVerifies(aliases, b, c.ns, BattleId, c.fields.battle.value)
  {
    hide UniqueAliases, SoleName;
    FindsItsBattle(aliases, Alias(c.ns, JournalId, c.fields.journal, b));
    NamesAreSole(aliases, c.ns, JournalId, c.fields.journal);
    if c.fields.battle.Some? {
      FindsItsBattle(aliases, Alias(c.ns, BattleId, c.fields.battle.value, b));
      NamesAreSole(aliases, c.ns, BattleId, c.fields.battle.value);
    }
  }

  lemma LinkedRowVerifies(codec: Codec, t: Tables, l: Link, c: Capture)
    requires LinkTable(t.evidence, t.battles, t.links) && BattlesLinked(t.battles, t.links)
    requires UniqueAliases(t.aliases) && LinkedAliases(t.evidence, t.aliases, t.links)
    requires l in t.links && RowOf(t.evidence[l.evidence], c)
    ensures AssociationVerifies(t, l.evidence, c)
  {
    hide LinkTable, BattlesLinked, UniqueAliases, HasAliases, SoleLink, CanonicalRoleVerifies, RequiredAliasVerifies;
    SoleLinkFor(t, l);
    LinkInRange(t, l);
    RoleHolds(codec, t, l);
    assert HasAliases(t.aliases, t.evidence[l.evidence], l.battle);
    AliasesHold(t.aliases, t.evidence[l.evidence], c, l.battle);
  }

  lemma LinksAscend(t: Tables)
    requires LinkTable(t.evidence, t.battles, t.links)
    ensures forall i, j :: 0 <= i < j < |t.links| ==> t.links[i].evidence < t.links[j].evidence
  {
  }

  lemma OneLinkEach(t: Tables, l: Link, m: Link)
    requires LinkTable(t.evidence, t.battles, t.links) && l in t.links && m in t.links
    ensures l.evidence == m.evidence ==> l == m
  {
    hide LinkTable;
    LinksAscend(t);
    var i :| 0 <= i < |t.links| && t.links[i] == l;
    var j :| 0 <= j < |t.links| && t.links[j] == m;
    if i < j {
      assert t.links[i].evidence < t.links[j].evidence;
    } else if j < i {
      assert t.links[j].evidence < t.links[i].evidence;
    }
  }

  lemma SoleLinkFor(t: Tables, l: Link)
    requires LinkTable(t.evidence, t.battles, t.links) && l in t.links
    ensures SoleLink(t.links, l.evidence) && LinkOf(t.links, l.evidence) == Some(l)
  {
    OneLinkEach(t, l, LinkOf(t.links, l.evidence).value);
  }

  lemma UnlinkedRowVerifies(codec: Codec, t: Tables, e: nat, c: Capture)
    requires e < |t.evidence| && EvidenceLinked(t.evidence, t.links) && ConflictsCoherent(t.evidence, t.aliases)
    requires UniqueAliases(t.aliases) && (forall l :: l in t.links ==> l.evidence != e)
    requires t.evidence[e].ns == c.ns && t.evidence[e].journal == c.fields.journal && t.evidence[e].battle == c.fields.battle
    ensures AssociationVerifies(t, e, c)
  {
    NamesAreSole(t.aliases, c.ns, JournalId, c.fields.journal);
    if c.fields.battle.Some? {
      NamesAreSole(t.aliases, c.ns, BattleId, c.fields.battle.value);
    }
  }

  lemma RowVerifies(codec: Codec, t: Tables, e: nat, c: Capture)
    requires Inv(codec, t) && Describes(codec, c)
    requires e < |t.evidence| && t.evidence[e].ns == c.ns && t.evidence[e].raw == c.raw
    ensures AssociationVerifies(t, e, c)
    ensures EvidenceFits(codec, t.evidence[e], t.blobs)
    ensures FindOccurrence(t.evidence, c.ns, c.fields.journal, c.raw) == Some(e)
  {
    assert EvidenceFits(codec, t.evidence[e], t.blobs);
    OccurrenceFound(codec, t, e, c);
    UniqueOf(t.aliases, t.battles);
    hide AssociationVerifies, AliasTable, UniqueAliases, EvidenceTable;
    if l :| l in t.links && l.evidence == e {
      LinkedRowVerifies(codec, t, l, c);
    } else {
      UnlinkedRowVerifies(codec, t, e, c);
    }
  }

  lemma OccurrenceFound(codec: Codec, t: Tables, e: nat, c: Capture)
    requires EvidenceTable(codec, t.evidence, t.blobs) && Describes(codec, c)
    requires e < |t.evidence| && t.evidence[e].ns == c.ns && t.evidence[e].raw == c.raw
    ensures FindOccurrence(t.evidence, c.ns, c.fields.journal, c.raw) == Some(e)
  {
    assert EvidenceFits(codec, t.evidence[e], t.blobs);
    var found := FindOccurrence(t.evidence, c.ns, c.fields.journal, c.raw);
    assert t.evidence[e] in t.evidence;
    assert !(e < found.value) && !(found.value < e);
  }

  /** The stored evidence of these bytes is attributed as this envelope would attribute it. */
  predicate Attributed(t: Tables, c: Capture, envelope: Envelope) {
    var e := FindOccurrence(t.evidence, c.ns, c.fields.journal, c.raw);
    e.Some? && SameAttribution(t.evidence[e.value], c, envelope)
  }

  /** Every event of the envelope is stored with the attribution this envelope gives it. */
  predicate AllAttributed(codec: Codec, t: Tables, ns: string, envelope: Envelope)
    requires WellFormed(codec, envelope)
  {
    forall c :: c in CapturesOf(codec, ns, envelope) ==> Attributed(t, c, envelope)
  }

  lemma ReceiptVerdict(codec: Codec, t: Tables, r: Receipt, i: nat, c: Capture, envelope: Envelope)
    requires Inv(codec, t) && Describes(codec, c)
    requires r.ordinal == i && r.evidence < |t.evidence| && t.evidence[r.evidence].ns == c.ns && t.evidence[r.evidence].raw == c.raw
    ensures ReceiptVerifies(t, r, i, c, envelope) <==> Attributed(t, c, envelope)
  {
    RowVerifies(codec, t, r.evidence, c);
    hide Inv, AssociationVerifies, SameAttribution;
  }

  lemma BatchVerdict(codec: Codec, t: Tables, k: nat)
    requires Inv(codec, t) && k < |t.batches|
    requires WellFormed(codec, codec.envelope(t.batches[k].exact))
    ensures var b := t.batches[k]; var envelope := codec.envelope(b.exact);
      var captures := CapturesOf(codec, b.ns, envelope);
      && b.accepted == |captures|
      && (BatchVerifies(t, b, captures, envelope) <==> AllAttributed(codec, t, b.ns, envelope))
  {
    var b := t.batches[k];
    var envelope := codec.envelope(b.exact);
    var captures := CapturesOf(codec, b.ns, envelope);
    assert b in t.batches;
    assert BatchFits(codec, t.evidence, b);
    forall i | 0 <= i < |captures|
      ensures ReceiptVerifies(t, b.receipts[i], i, captures[i], envelope) <==> Attributed(t, captures[i], envelope)
    {
      ReceiptVerdict(codec, t, b.receipts[i], i, captures[i], envelope);
    }
    hide Inv, ReceiptVerifies, Attributed;
    if BatchVerifies(t, b, captures, envelope) {
      forall c | c in captures
        ensures Attributed(t, c, envelope)
      {
        var i :| 0 <= i < |captures| && captures[i] == c;
        assert ReceiptVerifies(t, b.receipts[i], i, captures[i], envelope);
      }
    }
  }

  lemma AfterNext(codec: Codec, requests: seq<Request>, j: nat)
    requires j < |requests|
    ensures var r := requests[j];
      After(codec, requests[..j + 1]) == Commit(codec, After(codec, requests[..j]), r.ns, r.exact, r.cancelledAt).0
  {
    hide Commit;
    assert requests[..j + 1][..j] == requests[..j];
  }

  /** An accepted commit leaves its batch behind, for good. */
  lemma AcceptedBatchIsKept(codec: Codec, requests: seq<Request>, j: nat)
    requires j < |requests|
    requires var r := requests[j]; Commit(codec, After(codec, requests[..j]), r.ns, r.exact, r.cancelledAt).1.Committed?
    ensures var r, t, e := requests[j], After(codec, requests), codec.envelope(requests[j].exact);
      var k := FindBatch(t.batches, r.ns, e.source, e.session, e.batchId);
      && WithinBounds(e) && WellFormed(codec, e)
      && k.Some? && t.batches[k.value].exact == r.exact && t.batches[k.value].ns == r.ns
  {
    hide After, Commit, Inv, BatchTable, WithinBounds, WellFormed;
    var r, e := requests[j], codec.envelope(requests[j].exact);
    AfterNext(codec, requests, j);
    var mid, t := After(codec, requests[..j + 1]), After(codec, requests);
    RunsGrow(codec, requests, j + 1);
    RunsKeepInv(codec, requests);
    BatchesOf(codec, t);
    var k := AcceptedBatch(codec, After(codec, requests[..j]), r);
    assert t.batches[k] == mid.batches[k] && t.batches[k] in t.batches;
    var found := FindBatch(t.batches, r.ns, e.source, e.session, e.batchId);
    OneBatchEach(codec, t, k, found.value);
  }

  lemma AcceptedBatch(codec: Codec, t: Tables, r: Request) returns (k: nat)
    requires Commit(codec, t, r.ns, r.exact, r.cancelledAt).1.Committed?
    ensures var t', e := Commit(codec, t, r.ns, r.exact, r.cancelledAt).0, codec.envelope(r.exact);
      && WithinBounds(e) && WellFormed(codec, e)
      && k < |t'.batches| && t'.batches[k].exact == r.exact
      && SameBatch(t'.batches[k], r.ns, e.source, e.session, e.batchId)
  {
    hide PersistedAll, BatchVerifies;
    var e := codec.envelope(r.exact);
    var existing := FindBatch(t.batches, r.ns, e.source, e.session, e.batchId);
    k := if existing.Some? then existing.value else |t.batches|;
  }

  lemma OneBatchEach(codec: Codec, t: Tables, i: nat, j: nat)
    requires BatchTable(codec, t.evidence, t.batches) && i < |t.batches| && j < |t.batches|
    requires var b := t.batches[j]; SameBatch(t.batches[i], b.ns, b.source, b.session, b.batchId)
    ensures i == j
  {
    assert !(i < j) && !(j < i);
  }

  /**
  Exact replay, for every sequence of commits: presenting an accepted batch again changes nothing, and
  unless it is cancelled before the store is read it is accepted exactly when the stored evidence of
  each of its events is attributed as this envelope attributes it. Nothing else a later commit may do makes the verification fail.
   */
  lemma ExactReplay(codec: Codec, requests: seq<Request>, j: nat, cancelledAt: Option<nat>)
    requires j < |requests|
    requires var r := requests[j]; Commit(codec, After(codec, requests[..j]), r.ns, r.exact, r.cancelledAt).1.Committed?
    ensures var r, t, e := requests[j], After(codec, requests), codec.envelope(requests[j].exact);
      && WellFormed(codec, e)
      && Commit(codec, t, r.ns, r.exact, cancelledAt)
         == (t, if Stopped(cancelledAt, 2 + |e.events|) then Cancelled
                else if AllAttributed(codec, t, r.ns, e) then Committed(|e.events|)
                else ReplayRefused)
  {
    AcceptedBatchIsKept(codec, requests, j);
    RunsKeepInv(codec, requests);
    var r, t, e := requests[j], After(codec, requests), codec.envelope(requests[j].exact);
    var k := FindBatch(t.batches, r.ns, e.source, e.session, e.batchId).value;
    hide After, PersistedAll, BatchVerifies, Inv, AllAttributed, FindBatch;
    BatchVerdict(codec, t, k);
  }

  // ------------------------------------------------------- new batches and conflicts

  predicate AcceptedAt(codec: Codec, requests: seq<Request>, i: nat)
    requires i < |requests|
  {
    var r := requests[i];
    Commit(codec, After(codec, requests[..i]), r.ns, r.exact, r.cancelledAt).1.Committed?
  }

  /** Two requests name the same batch: namespace, source, session and batch id are all equal. */
  predicate NamesSameBatch(codec: Codec, a: Request, b: Request) {
    var x, y := codec.envelope(a.exact), codec.envelope(b.exact);
    a.ns == b.ns && x.source == y.source && x.session == y.session && x.batchId == y.batchId
  }

  /** A commit adds one batch, named and filled as the request says, or none. */
  lemma CommitBatches(codec: Codec, t: Tables, r: Request)
    ensures var (t', outcome) := Commit(codec, t, r.ns, r.exact, r.cancelledAt); var e := codec.envelope(r.exact);
      || t'.batches == t.batches
      || (&& outcome.Committed? && |t'.batches| == |t.batches| + 1 && t'.batches[..|t.batches|] == t.batches
          && var b := t'.batches[|t.batches|];
             b.ns == r.ns && b.source == e.source && b.session == e.session && b.batchId == e.batchId && b.exact == r.exact)
  {
    hide PersistedAll, BatchVerifies, WithinBounds, EarlyLooks, FindBatch;
  }

  /** Every stored batch was accepted from a request of its name and bytes. */
  lemma {:induction false} BatchOrigin(codec: Codec, requests: seq<Request>, k: nat) returns (i: nat)
    requires k < |After(codec, requests).batches|
    ensures i < |requests| && AcceptedAt(codec, requests, i)
    ensures var b, e := After(codec, requests).batches[k], codec.envelope(requests[i].exact);
      && requests[i].ns == b.ns && requests[i].exact == b.exact
      && b.source == e.source && b.session == e.session && b.batchId == e.batchId
  {
    hide Commit;
    var n := |requests| - 1;
    var before := After(codec, requests[..n]);
    CommitBatches(codec, before, requests[n]);
    if k < |before.batches| {
      i := BatchOrigin(codec, requests[..n], k);
      assert requests[..n][..i] == requests[..i];
    } else {
      i := n;
    }
  }

  /** The batch is filed under its own name with its own bytes, and every event is in the evidence. */
  ghost predicate Files(before: Tables, after: Tables, r: Request, e: Envelope) {
    && |after.batches| == |before.batches| + 1 && after.batches[..|before.batches|] == before.batches
    && (var b := after.batches[|before.batches|];
        b.ns == r.ns && b.source == e.source && b.session == e.session && b.batchId == e.batchId && b.exact == r.exact)
    && forall raw :: raw in e.events ==> exists row :: row in after.evidence && row.ns == r.ns && row.raw == raw
  }

  lemma NewBatchCommits(codec: Codec, t: Tables, ns: string, exact: Bytes, cancelledAt: Option<nat>)
    requires var e := codec.envelope(exact);
      && WithinBounds(e) && WellFormed(codec, e) && !Stopped(cancelledAt, 2 + 2 * |e.events|)
      && FindBatch(t.batches, ns, e.source, e.session, e.batchId).None?
    ensures var e := codec.envelope(exact);
      var (after, receipts) := PersistedAll(t, CapturesOf(codec, ns, e), e);
      && Commit(codec, t, ns, exact, cancelledAt).0.evidence == after.evidence
      && Commit(codec, t, ns, exact, cancelledAt).0.batches
         == t.batches + [Batch(ns, e.source, e.session, e.batchId, exact, |e.events|, receipts)]
      && Commit(codec, t, ns, exact, cancelledAt).1 == Committed(|e.events|)
  {
    hide PersistedAll, FindBatch;
  }

  lemma EventsAreFiled(codec: Codec, ns: string, envelope: Envelope, evidence: seq<Evidence>, receipts: seq<Receipt>)
    requires WellFormed(codec, envelope) && ReceiptsFit(evidence, receipts, CapturesOf(codec, ns, envelope))
    ensures forall raw :: raw in envelope.events ==> exists row :: row in evidence && row.ns == ns && row.raw == raw
  {
    forall raw | raw in envelope.events
      ensures exists row :: row in evidence && row.ns == ns && row.raw == raw
    {
      var i :| 0 <= i < |envelope.events| && envelope.events[i] == raw;
      assert evidence[receipts[i].evidence] in evidence;
    }
  }

  lemma NewBatchIsFiled(codec: Codec, t: Tables, r: Request)
    requires Inv(codec, t)
    requires var e := codec.envelope(r.exact);
      && WithinBounds(e) && WellFormed(codec, e) && !Stopped(r.cancelledAt, 2 + 2 * |e.events|)
      && FindBatch(t.batches, r.ns, e.source, e.session, e.batchId).None?
    ensures var (t', outcome) := Commit(codec, t, r.ns, r.exact, r.cancelledAt); var e := codec.envelope(r.exact);
      outcome == Committed(|e.events|) && Files(t, t', r, e)
  {
    hide PersistedAll, Inv, FindBatch, WithinBounds, Commit, ReceiptsFit;
    var e := codec.envelope(r.exact);
    var captures := CapturesOf(codec, r.ns, e);
    PersistingAllKeepsInv(codec, t, captures, e);
    var (after, receipts) := PersistedAll(t, captures, e);
    EventsAreFiled(codec, r.ns, e, after.evidence, receipts);
    NewBatchCommits(codec, t, r.ns, r.exact, r.cancelledAt);
  }

  /** What a stored batch of the request's name means for its answer. */
  lemma FoundBatchAnswers(codec: Codec, t: Tables, r: Request, k: nat)
    requires Inv(codec, t)
    requires var e := codec.envelope(r.exact);
      && WithinBounds(e) && WellFormed(codec, e) && !Stopped(r.cancelledAt, 2 + 2 * |e.events|)
      && FindBatch(t.batches, r.ns, e.source, e.session, e.batchId) == Some(k)
    ensures k < |t.batches|
    ensures Commit(codec, t, r.ns, r.exact, r.cancelledAt).1 == BatchConflict <==> t.batches[k].exact != r.exact
  {
    hide BatchVerifies, PersistedAll, WithinBounds;
    BatchesOf(codec, t);
    assert t.batches[k] in t.batches;
    assert BatchFits(codec, t.evidence, t.batches[k]);
    hide Inv, FindBatch, BatchTable;
  }

  /**
  The answer to a well-formed, uncancelled request over every sequence of earlier ones. If none of those
  accepted has the same namespace, source, session and batch id, it is committed and filed; it is
  a conflict exactly when one of them has all four and other bytes.
   */
  lemma CommitAnswers(codec: Codec, requests: seq<Request>, r: Request)
    requires var e := codec.envelope(r.exact);
      WithinBounds(e) && WellFormed(codec, e) && !Stopped(r.cancelledAt, 2 + 2 * |e.events|)
    ensures var t, e := After(codec, requests), codec.envelope(r.exact);
      var (t', outcome) := Commit(codec, t, r.ns, r.exact, r.cancelledAt);
      && ((forall i: nat :: i < |requests| && AcceptedAt(codec, requests, i) ==> !NamesSameBatch(codec, requests[i], r)) ==>
            outcome == Committed(|e.events|) && Files(t, t', r, e))
      && (outcome == BatchConflict <==>
            exists i: nat :: i < |requests| && AcceptedAt(codec, requests, i) && NamesSameBatch(codec, requests[i], r)
                             && requests[i].exact != r.exact)
  {
    var t, e := After(codec, requests), codec.envelope(r.exact);
    RunsKeepInv(codec, requests);
    var found := FindBatch(t.batches, r.ns, e.source, e.session, e.batchId);
    hide After, Commit, Inv, WithinBounds, WellFormed, Files;
    forall i: nat | i < |requests| && AcceptedAt(codec, requests, i) && NamesSameBatch(codec, requests[i], r)
      ensures found.Some? && t.batches[found.value].exact == requests[i].exact
    {
      AcceptedBatchIsKept(codec, requests, i);
    }
    if found.None? {
      NewBatchIsFiled(codec, t, r);
    } else {
      var i := BatchOrigin(codec, requests, found.value);
      assert NamesSameBatch(codec, requests[i], r);
      FoundBatchAnswers(codec, t, r, found.value);
    }
  }

  /**
  When a request is not answered by its batch at all: a token cancelled from the start comes before the bounds,
  the bounds before the events, and of the events the first that is malformed before any later look.
   */
  lemma CommitRefuses(codec: Codec, t: Tables, r: Request)
    ensures var events := codec.envelope(r.exact).events;
      var (t', outcome) := Commit(codec, t, r.ns, r.exact, r.cancelledAt);
      var bounded := 0 < |events| <= 256 && forall raw :: raw in events ==> 0 < |raw| <= 16 * 1024 * 1024;
      && (r.cancelledAt == Some(0) ==> outcome == Cancelled)
      && (outcome == OutOfBounds <==> r.cancelledAt != Some(0) && !bounded)
      && (outcome == Malformed <==>
            && r.cancelledAt != Some(0) && bounded
            && exists i :: 0 <= i < |events| && codec.fields(events[i]).None?
                           && (forall j :: 0 <= j < i ==> codec.fields(events[j]).Some?)
                           && (r.cancelledAt.Some? ==> r.cancelledAt.value >= 3 + i))
      && (outcome == OutOfBounds || outcome == Malformed || outcome == Cancelled ==> t' == t)
  {
    hide PersistedAll, BatchVerifies, FindBatch;
    var events := codec.envelope(r.exact).events;
    var n := Readable(codec, events);
    if n < |events| {
      assert events[n] in events;
    }
  }

  /** With well-formed events a commit is cancelled exactly by a look it makes: two and one for each event, and for a new batch as many again. */
  lemma CommitCancels(codec: Codec, t: Tables, r: Request)
    requires var e := codec.envelope(r.exact); WithinBounds(e) && WellFormed(codec, e)
    ensures var e := codec.envelope(r.exact);
      var known := exists b :: b in t.batches && b.ns == r.ns && b.source == e.source && b.session == e.session
                               && b.batchId == e.batchId;
      Commit(codec, t, r.ns, r.exact, r.cancelledAt).1 == Cancelled <==>
        r.cancelledAt.Some? && r.cancelledAt.value < 2 + (if known then |e.events| else 2 * |e.events|)
  {
    hide PersistedAll, BatchVerifies, WithinBounds;
    var e := codec.envelope(r.exact);
    var found := FindBatch(t.batches, r.ns, e.source, e.session, e.batchId);
    if found.Some? {
      assert t.batches[found.value] in t.batches;
    }
    hide FindBatch;
  }

  // --------------------------------------------------- who a stored event is attributed to

  /** Request i was accepted and carried this event. */
  predicate Carried(codec: Codec, requests: seq<Request>, i: nat, ns: string, raw: Bytes) {
    && i < |requests| && AcceptedAt(codec, requests, i) && requests[i].ns == ns
    && raw in codec.envelope(requests[i].exact).events
  }

  /** It was the first to do so. */
  ghost predicate CarriedFirst(codec: Codec, requests: seq<Request>, i: nat, ns: string, raw: Bytes) {
    i < |requests| && Carried(codec, requests, i, ns, raw) && forall k: nat :: k < i ==> !Carried(codec, requests, k, ns, raw)
  }

  /** The row says what the event says of itself, and otherwise what the envelope says. */
  predicate AttributedBy(codec: Codec, row: Evidence, envelope: Envelope) {
    codec.fields(row.raw).Some? &&
    var f := codec.fields(row.raw).value;
    && row.source == (if f.source.Some? then f.source.value else envelope.source)
    && row.modVersion == (if f.modVersion.Some? then f.modVersion.value else envelope.modVersion)
    && row.session == (if f.session.Some? then f.session.value else envelope.session)
  }

  /** Rows that persisting adds are of its captures, attributed by its envelope. */
  lemma {:induction false} NewRowsAttributed(codec: Codec, t: Tables, captures: seq<Capture>, envelope: Envelope, e: nat) returns (i: nat)
    requires Inv(codec, t) && forall c :: c in captures ==> Describes(codec, c)
    requires |t.evidence| <= e < |PersistedAll(t, captures, envelope).0.evidence|
    ensures i < |captures|
    ensures var row := PersistedAll(t, captures, envelope).0.evidence[e];
      row.ns == captures[i].ns && row.raw == captures[i].raw && AttributedBy(codec, row, envelope)
  {
    hide Inv, Persisted;
    var n := |captures| - 1;
    var before := PersistedAll(t, captures[..n], envelope).0;
    PersistingAllKeepsInv(codec, t, captures[..n], envelope);
    PersistingGrows(codec, before, captures[n], envelope);
    assert captures[n] in captures;
    if e < |before.evidence| {
      i := NewRowsAttributed(codec, t, captures[..n], envelope, e);
    } else {
      i := n;
    }
  }

  /** A carried event is stored from its request on. */
  lemma CarriedIsStored(codec: Codec, requests: seq<Request>, i: nat, ns: string, raw: Bytes) returns (e: nat)
    requires Carried(codec, requests, i, ns, raw)
    ensures var t := After(codec, requests); e < |t.evidence| && t.evidence[e].ns == ns && t.evidence[e].raw == raw
  {
    hide After, Commit, Inv, WithinBounds;
    AcceptedBatchIsKept(codec, requests, i);
    RunsKeepInv(codec, requests);
    var r, x, t := requests[i], codec.envelope(requests[i].exact), After(codec, requests);
    var k := FindBatch(t.batches, r.ns, x.source, x.session, x.batchId).value;
    var n :| 0 <= n < |x.events| && x.events[n] == raw;
    hide FindBatch;
    BatchRow(codec, t, k, ns, n);
    e :| e < |t.evidence| && t.evidence[e].ns == ns && t.evidence[e].raw == raw;
  }

  lemma OneRowEach(codec: Codec, t: Tables, e: nat, e': nat)
    requires Inv(codec, t) && e < |t.evidence| && e' < |t.evidence|
    requires t.evidence[e].ns == t.evidence[e'].ns && t.evidence[e].raw == t.evidence[e'].raw
    ensures e == e'
  {
    assert !(e < e') && !(e' < e);
  }

  /** What a commit that grows the evidence is: accepted, and every new row one of its events, attributed by its envelope. */
  lemma CommitRows(codec: Codec, t: Tables, r: Request, e: nat)
    requires Inv(codec, t)
    requires |t.evidence| <= e < |Commit(codec, t, r.ns, r.exact, r.cancelledAt).0.evidence|
    ensures var (t', outcome) := Commit(codec, t, r.ns, r.exact, r.cancelledAt); var x := codec.envelope(r.exact);
      && outcome.Committed? && t'.evidence[e].ns == r.ns && t'.evidence[e].raw in x.events
      && AttributedBy(codec, t'.evidence[e], x)
  {
    hide Inv, PersistedAll, BatchVerifies, FindBatch, WithinBounds, EarlyLooks, AttributedBy;
    var x := codec.envelope(r.exact);
    var i := NewRowsAttributed(codec, t, CapturesOf(codec, r.ns, x), x, e);
    assert x.events[i] in x.events;
  }

  /** Every stored event is attributed by the first accepted request that carried it. */
  lemma {:induction false} StoredByFirst(codec: Codec, requests: seq<Request>, e: nat) returns (i: nat)
    requires e < |After(codec, requests).evidence|
    ensures var row := After(codec, requests).evidence[e];
      CarriedFirst(codec, requests, i, row.ns, row.raw) && AttributedBy(codec, row, codec.envelope(requests[i].exact))
    decreases |requests|
  {
    hide Commit, Inv, AttributedBy;
    var n := |requests| - 1;
    var before, r := After(codec, requests[..n]), requests[n];
    RunsKeepInv(codec, requests[..n]);
    CommitKeepsInv(codec, before, r.ns, r.exact, r.cancelledAt);
    var row := After(codec, requests).evidence[e];
    hide After;
    if e < |before.evidence| {
      i := StoredByFirst(codec, requests[..n], e);
      forall k: nat | k <= i
        ensures Carried(codec, requests, k, row.ns, row.raw) == Carried(codec, requests[..n], k, row.ns, row.raw)
      {
        assert requests[..n][..k] == requests[..k];
      }
    } else {
      i := n;
      CommitRows(codec, before, r, e);
      forall k: nat | k < n
        ensures !Carried(codec, requests, k, row.ns, row.raw)
      {
        if Carried(codec, requests, k, row.ns, row.raw) {
          assert requests[..n][..k] == requests[..k];
          var other := CarriedIsStored(codec, requests[..n], k, row.ns, row.raw);
          RunsKeepInv(codec, requests);
          OneRowEach(codec, After(codec, requests), e, other);
        }
      }
    }
  }

  /** Both envelopes would attribute an event with these fields alike. */
  predicate AttributeAlike(f: Fields, a: Envelope, b: Envelope) {
    && (f.source.Some? || a.source == b.source)
    && (f.modVersion.Some? || a.modVersion == b.modVersion)
    && (f.session.Some? || a.session == b.session)
  }

  /** The first accepted request that carried the event attributes it as this envelope does. */
  ghost predicate AlikeAtFirst(codec: Codec, requests: seq<Request>, ns: string, raw: Bytes, envelope: Envelope)
    requires codec.fields(raw).Some?
  {
    forall i: nat :: CarriedFirst(codec, requests, i, ns, raw) ==>
      AttributeAlike(codec.fields(raw).value, codec.envelope(requests[i].exact), envelope)
  }

  /** Of the accepted requests that carried an event one was the first. */
  lemma {:induction false} FirstCarrier(codec: Codec, requests: seq<Request>, j: nat, ns: string, raw: Bytes) returns (i: nat)
    requires Carried(codec, requests, j, ns, raw)
    ensures i <= j && CarriedFirst(codec, requests, i, ns, raw)
    ensures forall k: nat :: CarriedFirst(codec, requests, k, ns, raw) ==> k == i
  {
    hide AcceptedAt;
    if k: nat :| k < j && Carried(codec, requests, k, ns, raw) {
      i := FirstCarrier(codec, requests, k, ns, raw);
    } else {
      i := j;
    }
  }

  lemma AttributedAsFirst(codec: Codec, requests: seq<Request>, j: nat, c: Capture, envelope: Envelope)
    requires Describes(codec, c) && Carried(codec, requests, j, c.ns, c.raw)
    ensures Attributed(After(codec, requests), c, envelope) <==> AlikeAtFirst(codec, requests, c.ns, c.raw, envelope)
  {
    hide Commit, After, Inv, Carried;
    var t := After(codec, requests);
    RunsKeepInv(codec, requests);
    EvidenceOf(codec, t);
    var i := FirstCarrier(codec, requests, j, c.ns, c.raw);
    var e := CarriedIsStored(codec, requests, j, c.ns, c.raw);
    var k := StoredByFirst(codec, requests, e);
    OccurrenceFound(codec, t, e, c);
    hide EvidenceTable, FindOccurrence, CarriedFirst;
  }

  lemma AllAttributedAsFirst(codec: Codec, requests: seq<Request>, j: nat)
    requires j < |requests| && AcceptedAt(codec, requests, j) && WellFormed(codec, codec.envelope(requests[j].exact))
    ensures var r, e := requests[j], codec.envelope(requests[j].exact);
      AllAttributed(codec, After(codec, requests), r.ns, e)
      <==> forall raw :: raw in e.events ==> AlikeAtFirst(codec, requests, r.ns, raw, e)
  {
    hide After, AcceptedAt, Attributed, AlikeAtFirst;
    var r, e := requests[j], codec.envelope(requests[j].exact);
    var captures := CapturesOf(codec, r.ns, e);
    forall n | 0 <= n < |captures|
      ensures captures[n] in captures && captures[n].raw == e.events[n] && e.events[n] in e.events
      ensures Attributed(After(codec, requests), captures[n], e) <==> AlikeAtFirst(codec, requests, r.ns, e.events[n], e)
    {
      AttributedAsFirst(codec, requests, j, captures[n], e);
    }
  }

  /**
  The answer to a replay from the requests alone: an accepted batch presented again is accepted exactly
  when, for each of its events, the first accepted request that carried the event attributes it alike.
   */
  lemma ReplayAnswers(codec: Codec, requests: seq<Request>, j: nat, cancelledAt: Option<nat>)
    requires j < |requests| && AcceptedAt(codec, requests, j)
    requires !Stopped(cancelledAt, 2 + |codec.envelope(requests[j].exact).events|)
    ensures var r, t, e := requests[j], After(codec, requests), codec.envelope(requests[j].exact);
      && WellFormed(codec, e)
      && Commit(codec, t, r.ns, r.exact, cancelledAt)
         == (t, if forall raw :: raw in e.events ==> AlikeAtFirst(codec, requests, r.ns, raw, e)
                then Committed(|e.events|) else ReplayRefused)
  {
    hide Commit, After, AllAttributed, AlikeAtFirst;
    ExactReplay(codec, requests, j, cancelledAt);
    AllAttributedAsFirst(codec, requests, j);
  }

  // ---------------------------------------------- what the verifier establishes on any tables

  /**
  A receipt passes exactly when its row is, column by column, the one this capture in this envelope
  makes, over a blob of the same bytes, and its association verifies.
   */
  lemma ReceiptVerificationMeans(t: Tables, r: Receipt, i: nat, c: Capture, envelope: Envelope)
    ensures ReceiptVerifies(t, r, i, c, envelope) <==>
      && r.ordinal == i && r.evidence < |t.evidence|
      && var row := t.evidence[r.evidence];
         && row.blob < |t.blobs| && t.blobs[row.blob] == Blob(c.raw, c.compressed)
         && row == Evidence(
              c.ns, c.raw, c.compressed,
              if c.fields.source.Some? then c.fields.source.value else envelope.source,
              if c.fields.modVersion.Some? then c.fields.modVersion.value else envelope.modVersion,
              if c.fields.session.Some? then c.fields.session.value else envelope.session,
              c.fields.timestampText, c.fields.timestamp, c.fields.journal, c.fields.battle, row.blob, row.state)
         && AssociationVerifies(t, r.evidence, c)
  {
    hide AssociationVerifies;
  }

  /** The one alias row of this name is the battle's. */
  ghost predicate OnlyAlias(aliases: seq<Alias>, ns: string, kind: AliasKind, value: string, battle: nat) {
    exists k :: 0 <= k < |aliases| && aliases[k] == Alias(ns, kind, value, battle)
                && forall i :: 0 <= i < |aliases| && i != k ==>
                     !(aliases[i].ns == ns && aliases[i].kind == kind && aliases[i].value == value)
  }

  lemma RequiredAliasMeans(aliases: seq<Alias>, battle: nat, ns: string, kind: AliasKind, value: string)
    ensures RequiredAliasVerifies(aliases, battle, ns, kind, value) <==> OnlyAlias(aliases, ns, kind, value, battle)
  {
    if RequiredAliasVerifies(aliases, battle, ns, kind, value) {
      var k :| 0 <= k < |aliases| && aliases[k] == Alias(ns, kind, value, battle);
      forall i | 0 <= i < |aliases| && i != k
        ensures !(aliases[i].ns == ns && aliases[i].kind == kind && aliases[i].value == value)
      {
      }
    } else if OnlyAlias(aliases, ns, kind, value, battle) {
      var found := FindBattle(aliases, ns, kind, value);
      assert Alias(ns, kind, value, battle) in aliases;
      assert SoleName(aliases, ns, kind, value);
      assert false;
    }
  }

  lemma {:induction false} CountNone(links: seq<Link>, b: nat, role: Role)
    ensures Count(links, b, role) == 0 <==> forall l :: l in links ==> !(l.battle == b && l.role == role)
  {
    if links != [] {
      var n := |links| - 1;
      CountNone(links[..n], b, role);
      assert links == links[..n] + [links[n]];
    }
  }

  predicate Relates(l: Link, b: nat, role: Role) { l.battle == b && l.role == role }

  predicate OnlyAt(links: seq<Link>, b: nat, role: Role, k: int) {
    0 <= k < |links| && forall i :: 0 <= i < |links| ==> (Relates(links[i], b, role) <==> i == k)
  }

  /** The battle has exactly one link of this role. */
  ghost predicate OneLink(links: seq<Link>, b: nat, role: Role) { exists k :: OnlyAt(links, b, role, k) }

  lemma OnlyAtExtends(links: seq<Link>, last: Link, b: nat, role: Role, k: int)
    requires !Relates(last, b, role)
    ensures OnlyAt(links + [last], b, role, k) <==> OnlyAt(links, b, role, k)
  {
    hide Relates;
    var more := links + [last];
    assert more[|links|] == last && forall i :: 0 <= i < |links| ==> more[i] == links[i];
  }

  lemma OnlyAtEnd(links: seq<Link>, last: Link, b: nat, role: Role)
    requires Relates(last, b, role)
    ensures OneLink(links + [last], b, role) <==> forall l :: l in links ==> !Relates(l, b, role)
  {
    hide Relates;
    var more := links + [last];
    assert more[|links|] == last && forall i :: 0 <= i < |links| ==> more[i] == links[i];
    if forall l :: l in links ==> !Relates(l, b, role) {
      assert OnlyAt(more, b, role, |links|);
    }
  }

  lemma {:induction false} CountOne(links: seq<Link>, b: nat, role: Role)
    ensures Count(links, b, role) == 1 <==> OneLink(links, b, role)
  {
    if links != [] {
      var n := |links| - 1;
      var before, last := links[..n], links[n];
      assert links == before + [last];
      CountNone(before, b, role);
      if Relates(last, b, role) {
        OnlyAtEnd(before, last, b, role);
      } else {
        CountOne(before, b, role);
        forall k {
          OnlyAtExtends(before, last, b, role, k);
        }
      }
      hide OnlyAt;
    }
  }

  /** What the aggregate check adds to a battle whose first capture is c. */
  lemma AggregateMeans(t: Tables, battle: nat, ns: string, c: Link)
    requires CanonicalOf(t.links, battle) == Some(c)
    requires forall l :: l in t.links && l.battle == battle ==> c.evidence <= l.evidence
    ensures AggregateVerifies(t, battle, ns) <==>
      && battle < |t.battles| && t.battles[battle].ns == ns
      && CanonicalCaptureIs(t.battles, t.links, battle, c) && OneLink(t.links, battle, Canonical)
      && forall l :: l in t.links && l.battle == battle ==>
           l.evidence < |t.evidence| && t.evidence[l.evidence].state == Accepted && t.evidence[l.evidence].ns == ns
  {
    CountOne(t.links, battle, Canonical);
    CountNone(t.links, battle, Conflicting);
    hide Count, CanonicalOf;
    if OneLink(t.links, battle, Canonical) {
      forall l | l in t.links && l.battle == battle && l.role == Canonical
        ensures l == c
      {
      }
    }
    hide OneLink;
  }

  /** The one link of the evidence, and what its battle looks like around it. */
  ghost predicate SoundlyLinked(t: Tables, e: nat, c: Capture, l: Link, first: Link)
    requires e < |t.evidence|
  {
    && l in t.links && l.evidence == e && t.evidence[e].state == Accepted
    && (forall i, j :: 0 <= i < j < |t.links| ==> !(t.links[i].evidence == e && t.links[j].evidence == e))
    && l.battle < |t.battles| && t.battles[l.battle].ns == c.ns
    && CanonicalCaptureIs(t.battles, t.links, l.battle, first) && OneLink(t.links, l.battle, Canonical)
    && (l.role == Canonical <==> first.evidence == e)
    && (forall m :: m in t.links && m.battle == l.battle ==>
          m.evidence < |t.evidence| && t.evidence[m.evidence].state == Accepted && t.evidence[m.evidence].ns == c.ns)
    && OnlyAlias(t.aliases, c.ns, JournalId, c.fields.journal, l.battle)
    && (c.fields.battle.Some? ==> OnlyAlias(t.aliases, c.ns, BattleId, c.fields.battle.value, l.battle))
  }

  lemma RoleMeans(t: Tables, b: nat, e: nat, role: Role, ns: string)
    ensures CanonicalRoleVerifies(t, b, e, role, ns) <==>
      && b < |t.battles| && t.battles[b].ns == ns && OneLink(t.links, b, Canonical)
      && (exists first :: CanonicalCaptureIs(t.battles, t.links, b, first) && (role == Canonical <==> first.evidence == e))
      && forall m :: m in t.links && m.battle == b ==>
           m.evidence < |t.evidence| && t.evidence[m.evidence].state == Accepted && t.evidence[m.evidence].ns == ns
  {
    var first := CanonicalOf(t.links, b);
    if first.Some? && forall l :: l in t.links && l.battle == b ==> first.value.evidence <= l.evidence {
      AggregateMeans(t, b, ns, first.value);
    }
    hide CanonicalOf, AggregateVerifies, OneLink;
  }

  /** At most one alias row has this name. */
  predicate NamedOnce(aliases: seq<Alias>, ns: string, kind: AliasKind, value: string) {
    forall i, j :: 0 <= i < |aliases| && 0 <= j < |aliases| && i != j ==>
      aliases[i].ns != ns || aliases[i].kind != kind || aliases[i].value != value
      || aliases[j].ns != ns || aliases[j].kind != kind || aliases[j].value != value
  }

  lemma SoleNameMeans(aliases: seq<Alias>, ns: string, kind: AliasKind, value: string)
    ensures SoleName(aliases, ns, kind, value) <==> NamedOnce(aliases, ns, kind, value)
  {
  }

  lemma LinkedMeans(t: Tables, e: nat, c: Capture, l: Link)
    requires e < |t.evidence| && LinkOf(t.links, e) == Some(l)
    ensures AssociationVerifies(t, e, c) <==> exists first :: SoundlyLinked(t, e, c, l, first)
  {
    RoleMeans(t, l.battle, e, l.role, c.ns);
    RequiredAliasMeans(t.aliases, l.battle, c.ns, JournalId, c.fields.journal);
    if c.fields.battle.Some? {
      RequiredAliasMeans(t.aliases, l.battle, c.ns, BattleId, c.fields.battle.value);
    }
    hide CanonicalRoleVerifies, RequiredAliasVerifies, CanonicalCaptureIs, OnlyAlias, OneLink, LinkOf;
    if AssociationVerifies(t, e, c) {
      var first :| CanonicalCaptureIs(t.battles, t.links, l.battle, first) && (l.role == Canonical <==> first.evidence == e);
      assert SoundlyLinked(t, e, c, l, first);
    }
    forall first | SoundlyLinked(t, e, c, l, first)
      ensures AssociationVerifies(t, e, c)
    {
      assert SoleLink(t.links, e);
    }
  }

  /**
  On any tables at all, an association verifies exactly in one of two cases: unlinked evidence in an
  explained conflict over names that no two rows have, or the one link of accepted evidence to a battle of its
  namespace that has one canonical capture, its smallest evidence, is in conflict exactly when it has another,
  and owns the event's names alone.
   */
  lemma AssociationVerificationMeans(t: Tables, e: nat, c: Capture)
    requires e < |t.evidence|
    ensures AssociationVerifies(t, e, c) <==>
      if forall l :: l in t.links ==> l.evidence != e then
        && t.evidence[e].state == AssociationConflict
        && CoherentConflict(t.aliases, c.ns, c.fields.journal, c.fields.battle)
        && c.fields.battle.Some?
        && NamedOnce(t.aliases, c.ns, JournalId, c.fields.journal)
        && NamedOnce(t.aliases, c.ns, BattleId, c.fields.battle.value)
      else exists l, first :: SoundlyLinked(t, e, c, l, first)
  {
    var link := LinkOf(t.links, e);
    if link.None? {
      SoleNameMeans(t.aliases, c.ns, JournalId, c.fields.journal);
      if c.fields.battle.Some? {
        SoleNameMeans(t.aliases, c.ns, BattleId, c.fields.battle.value);
      }
      hide SoleName, NamedOnce, FindBattle, Disagrees, LinkOf;
    } else {
      LinkedMeans(t, e, c, link.value);
      hide AssociationVerifies, LinkOf;
      forall l, first | SoundlyLinked(t, e, c, l, first)
        ensures l == link.value
      {
      }
      hide SoundlyLinked;
    }
  }

  predicate AttributesItself(f: Fields) { f.source.Some? && f.session.Some? && f.modVersion.Some? }

  /** Events that carry their own source, session and version can always be replayed, unless cancelled before the store is read. */
  lemma SelfAttributedReplay(codec: Codec, requests: seq<Request>, j: nat, cancelledAt: Option<nat>)
    requires j < |requests|
    requires var r := requests[j]; Commit(codec, After(codec, requests[..j]), r.ns, r.exact, r.cancelledAt).1.Committed?
    requires forall raw :: raw in codec.envelope(requests[j].exact).events ==>
      codec.fields(raw).Some? && AttributesItself(codec.fields(raw).value)
    ensures var r, t, n := requests[j], After(codec, requests), |codec.envelope(requests[j].exact).events|;
      Commit(codec, t, r.ns, r.exact, cancelledAt) == (t, if Stopped(cancelledAt, 2 + n) then Cancelled else Committed(n))
  {
    ExactReplay(codec, requests, j, cancelledAt);
    RunsKeepInv(codec, requests);
    AcceptedBatchIsKept(codec, requests, j);
    var r, t, e := requests[j], After(codec, requests), codec.envelope(requests[j].exact);
    var k := FindBatch(t.batches, r.ns, e.source, e.session, e.batchId).value;
    var captures := CapturesOf(codec, r.ns, e);
    hide Commit, After, FindBatch;
    forall c | c in captures
      ensures Attributed(t, c, e)
    {
      var i :| 0 <= i < |captures| && captures[i] == c;
      SelfAttributedRow(codec, t, k, r.ns, i, c, e);
    }
  }

  lemma SelfAttributedRow(codec: Codec, t: Tables, k: nat, ns: string, i: nat, c: Capture, envelope: Envelope)
    requires Inv(codec, t) && k < |t.batches| && t.batches[k].ns == ns && codec.envelope(t.batches[k].exact) == envelope
    requires i < |envelope.events| && c.ns == ns && c.raw == envelope.events[i]
    requires Describes(codec, c) && AttributesItself(c.fields)
    ensures Attributed(t, c, envelope)
  {
    var b := t.batches[k];
    assert b in t.batches;
    assert BatchFits(codec, t.evidence, b);
    var e := b.receipts[i].evidence;
    RowVerifies(codec, t, e, c);
  }

  lemma EvidenceOf(codec: Codec, t: Tables)
    requires Inv(codec, t)
    ensures EvidenceTable(codec, t.evidence, t.blobs)
  {
    hide EvidenceTable;
  }

  /** The first writer's row is kept, so an event's attribution never changes once it is stored. */
  lemma AttributionIsKept(codec: Codec, t: Tables, t': Tables, c: Capture, envelope: Envelope, e: nat)
    requires EvidenceTable(codec, t.evidence, t.blobs) && EvidenceTable(codec, t'.evidence, t'.blobs)
    requires t.evidence <= t'.evidence && Describes(codec, c)
    requires e < |t.evidence| && t.evidence[e].ns == c.ns && t.evidence[e].raw == c.raw
    ensures Attributed(t', c, envelope) <==> Attributed(t, c, envelope)
  {
    assert t'.evidence[e] == t.evidence[e];
    OccurrenceFound(codec, t, e, c);
    OccurrenceFound(codec, t', e, c);
    hide EvidenceTable, SameAttribution;
  }

  lemma BatchRow(codec: Codec, t: Tables, k: nat, ns: string, i: nat)
    requires Inv(codec, t) && k < |t.batches| && t.batches[k].ns == ns
    requires WellFormed(codec, codec.envelope(t.batches[k].exact)) && i < |codec.envelope(t.batches[k].exact).events|
    ensures var c := CapturesOf(codec, ns, codec.envelope(t.batches[k].exact))[i];
      exists e: nat :: e < |t.evidence| && t.evidence[e].ns == c.ns && t.evidence[e].raw == c.raw
  {
    var b := t.batches[k];
    assert b in t.batches;
    assert BatchFits(codec, t.evidence, b);
    assert b.receipts[i].evidence < |t.evidence|;
  }

  lemma BatchAttributionIsKept(codec: Codec, t: Tables, t': Tables, k: nat)
    requires Inv(codec, t) && Inv(codec, t') && t.evidence <= t'.evidence && k < |t.batches|
    requires WellFormed(codec, codec.envelope(t.batches[k].exact))
    ensures var e := codec.envelope(t.batches[k].exact);
      AllAttributed(codec, t', t.batches[k].ns, e) <==> AllAttributed(codec, t, t.batches[k].ns, e)
  {
    EvidenceOf(codec, t);
    EvidenceOf(codec, t');
    hide Inv, EvidenceTable, Attributed;
    var ns, e := t.batches[k].ns, codec.envelope(t.batches[k].exact);
    var captures := CapturesOf(codec, ns, e);
    forall c | c in captures
      ensures Attributed(t', c, e) <==> Attributed(t, c, e)
    {
      var n :| 0 <= n < |captures| && captures[n] == c;
      BatchRow(codec, t, k, ns, n);
      var row: nat :| row < |t.evidence| && t.evidence[row].ns == c.ns && t.evidence[row].raw == c.raw;
      AttributionIsKept(codec, t, t', c, e, row);
    }
  }

  /** Exact replay after any part of the commits that includes the batch's own. */
  lemma ReplayAfter(codec: Codec, requests: seq<Request>, j: nat, i: nat, cancelledAt: Option<nat>)
    requires j < i <= |requests|
    requires var r := requests[j]; Commit(codec, After(codec, requests[..j]), r.ns, r.exact, r.cancelledAt).1.Committed?
    ensures var r, t, e := requests[j], After(codec, requests[..i]), codec.envelope(requests[j].exact);
      && WellFormed(codec, e)
      && Commit(codec, t, r.ns, r.exact, cancelledAt)
         == (t, if Stopped(cancelledAt, 2 + |e.events|) then Cancelled
                else if AllAttributed(codec, t, r.ns, e) then Committed(|e.events|)
                else ReplayRefused)
  {
    hide After, Commit, AllAttributed, WellFormed;
    assert requests[..i][..j] == requests[..j] && requests[..i][j] == requests[j];
    ExactReplay(codec, requests[..i], j, cancelledAt);
  }

  lemma AttributionAfter(codec: Codec, requests: seq<Request>, j: nat, i: nat)
    requires j < i <= |requests|
    requires var r := requests[j]; Commit(codec, After(codec, requests[..j]), r.ns, r.exact, r.cancelledAt).1.Committed?
    ensures var r, e := requests[j], codec.envelope(requests[j].exact);
      && WellFormed(codec, e)
      && (AllAttributed(codec, After(codec, requests[..i]), r.ns, e)
          <==> AllAttributed(codec, After(codec, requests[..j + 1]), r.ns, e))
  {
    hide After, Commit, Inv, FindBatch, AllAttributed, WithinBounds, WellFormed;
    var first, longer := requests[..j + 1], requests[..i];
    assert first[..j] == requests[..j] && longer[..j + 1] == first;
    AcceptedBatchIsKept(codec, first, j);
    RunsGrow(codec, longer, j + 1);
    RunsKeepInv(codec, first);
    RunsKeepInv(codec, longer);
    var r, e, early := requests[j], codec.envelope(requests[j].exact), After(codec, first);
    var k := FindBatch(early.batches, r.ns, e.source, e.session, e.batchId).value;
    BatchAttributionIsKept(codec, early, After(codec, longer), k);
  }

  /**
  Whether an accepted batch can be replayed is settled by its own commit: however many commits follow,
  presenting it again is answered as right after that commit.
   */
  lemma ReplayIsSettled(codec: Codec, requests: seq<Request>, j: nat, i: nat, cancelledAt: Option<nat>)
    requires j < i <= |requests|
    requires var r := requests[j]; Commit(codec, After(codec, requests[..j]), r.ns, r.exact, r.cancelledAt).1.Committed?
    ensures var r, early, late := requests[j], After(codec, requests[..j + 1]), After(codec, requests[..i]);
      Commit(codec, late, r.ns, r.exact, cancelledAt) == (late, Commit(codec, early, r.ns, r.exact, cancelledAt).1)
  {
    hide After, Commit, AllAttributed, WellFormed;
    ReplayAfter(codec, requests, j, i, cancelledAt);
    ReplayAfter(codec, requests, j, j + 1, cancelledAt);
    AttributionAfter(codec, requests, j, i);
  }

  // ------------------------------------------------- a replay that is refused

  function ExampleFields(): Fields { Fields("now", 0, "journal", None, None, None, None, None) }

  /** Two producers wrap the same event, which names no source of its own. */
  function ExampleCodec(): Codec {
    Codec(
      (bytes: Bytes) => if bytes == [1] then Envelope("a", "s", "v", "one", [[7]]) else Envelope("b", "s", "v", "two", [[7]]),
      _ => Some(ExampleFields()),
      raw => raw)
  }

  function ExampleRequests(): seq<Request> { [Request("ns", [1], None), Request("ns", [2], None)] }

  /**
  Without own attribution the claim is false: the second producer's batch is accepted, and the same
  bytes presented again are refused, because the stored row keeps the first producer's name.
   */
  lemma ReplayCanBeRefused()
    ensures Commit(ExampleCodec(), After(ExampleCodec(), ExampleRequests()[..1]), "ns", [2], None).1 == Committed(1)
    ensures Commit(ExampleCodec(), After(ExampleCodec(), ExampleRequests()), "ns", [2], None).1 == ReplayRefused
  {
    var codec, requests := ExampleCodec(), ExampleRequests();
    var c := Capture("ns", [7], [7], ExampleFields());
    var a, b := codec.envelope([1]), codec.envelope([2]);
    assert CapturesOf(codec, "ns", a) == [c] == CapturesOf(codec, "ns", b);
    ExampleFirstCommit(c);
    ExactReplay(codec, requests, 1, None);
    RunsGrow(codec, requests, 1);
    RunsKeepInv(codec, requests);
    assert c in CapturesOf(codec, "ns", b);
    hide Commit, After;
    var t := After(codec, requests);
    assert EvidenceTable(codec, t.evidence, t.blobs) by { EvidenceOf(codec, t); }
    hide Inv, EvidenceTable;
    OccurrenceFound(codec, t, 0, c);
  }

  lemma AfterOne(codec: Codec, r: Request)
    ensures After(codec, [r]) == Commit(codec, EMPTY, r.ns, r.exact, r.cancelledAt).0
  {
    hide Commit;
    assert [r][..0] == [];
    assert After(codec, []) == EMPTY;
  }

  lemma ExampleStore(c: Capture)
    requires c == Capture("ns", [7], [7], ExampleFields())
    ensures var t := After(ExampleCodec(), ExampleRequests()[..1]);
      t.evidence == [EvidenceRow(c, ExampleCodec().envelope([1]), 0)] && |t.batches| == 1 && t.batches[0].source == "a"
  {
    hide Commit, After, PersistedAll, FindBatch, EvidenceRow;
    var codec, requests := ExampleCodec(), ExampleRequests();
    var a := codec.envelope([1]);
    assert CapturesOf(codec, "ns", a) == [c];
    assert requests[..1] == [requests[0]];
    AfterOne(codec, requests[0]);
    ExampleFirst(c, a);
    NewBatchCommits(codec, EMPTY, "ns", [1], None);
  }

  lemma ExampleFirstCommit(c: Capture)
    requires c == Capture("ns", [7], [7], ExampleFields())
    ensures var t := After(ExampleCodec(), ExampleRequests()[..1]);
      && t.evidence == [EvidenceRow(c, ExampleCodec().envelope([1]), 0)]
      && Commit(ExampleCodec(), t, "ns", [2], None).1 == Committed(1)
  {
    hide Commit, After, PersistedAll, EvidenceRow;
    var codec, requests := ExampleCodec(), ExampleRequests();
    ExampleStore(c);
    var t := After(codec, requests[..1]);
    assert "a" != "b" by { assert "a"[0] != "b"[0]; }
    assert !SameBatch(t.batches[0], "ns", "b", "s", "two");
    hide FindBatch;
    NewBatchCommits(codec, t, "ns", [2], None);
  }

  lemma ExampleFirst(c: Capture, envelope: Envelope)
    requires c == Capture("ns", [7], [7], ExampleFields())
    ensures var (t, receipts) := PersistedAll(EMPTY, [c], envelope);
      t.evidence == [EvidenceRow(c, envelope, 0)] && t.batches == []
  {
    assert [c][..0] == [];
    assert PersistedAll(EMPTY, [], envelope) == (EMPTY, []);
    assert FindOccurrence([], c.ns, c.fields.journal, c.raw).None?;
    assert Decide([], c).Opens?;
  }
}
