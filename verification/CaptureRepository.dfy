/**
The Battle capture repository: tables updated row by row inside one transaction. Each method is proved
equal to its specification in CaptureTables and CaptureReplay, so every theorem there is about these
methods too.
 */
module CaptureRepository {
  import opened Common
  import opened CaptureTables
  import opened CaptureInvariant
  import opened CaptureReplay

  /** Appending one wanted alias extends the missing ones. */
  lemma MissingStep(aliases: seq<Alias>, ns: string, wanted: seq<(AliasKind, string)>, i: nat, b: nat)
    requires i < |wanted|
    ensures MissingAliases(aliases, ns, wanted[..i + 1], b)
         == MissingAliases(aliases, ns, wanted[..i], b)
            + (if OwnedValue(aliases, b, wanted[i].0).None? then [Alias(ns, wanted[i].0, wanted[i].1, b)] else [])
  {
    assert wanted[..i + 1][..i] == wanted[..i];
  }

  lemma {:induction false} MissingIsOfWantedKinds(aliases: seq<Alias>, ns: string, wanted: seq<(AliasKind, string)>, b: nat)
    ensures forall a :: a in MissingAliases(aliases, ns, wanted, b) ==> exists w :: w in wanted && w.0 == a.kind
  {
    if wanted != [] {
      var last := wanted[|wanted| - 1];
      MissingIsOfWantedKinds(aliases, ns, wanted[..|wanted| - 1], b);
      assert last in wanted;
    }
  }

  /** Rows of other kinds do not change what a battle owns of this one. */
  lemma OwnedDespite(aliases: seq<Alias>, more: seq<Alias>, battles: seq<Battle>, b: nat, kind: AliasKind)
    requires AliasTable(aliases, battles) && forall a :: a in more ==> a.kind != kind
    ensures OwnedValue(aliases + more, b, kind) == OwnedValue(aliases, b, kind)
  {
    var owned := OwnedValue(aliases + more, b, kind);
    if owned.Some? {
      var x :| x in aliases + more && x.battle == b && x.kind == kind && x.value == owned.value;
      assert x in aliases;
      FindsItsValue(aliases, x);
    }
  }

  /** What the distinct battles found through the wanted aliases say about the decision. */
  lemma ResolvedDecides(aliases: seq<Alias>, c: Capture, resolved: seq<nat>)
    requires forall b: nat :: b in resolved <==> exists w :: w in WantedAliases(c) && FindBattle(aliases, c.ns, w.0, w.1) == Some(b)
    requires forall i, j :: 0 <= i < j < |resolved| ==> resolved[i] != resolved[j]
    ensures |resolved| > 1 ==> Decide(aliases, c).Contested?
    ensures resolved == [] <==> Decide(aliases, c).Opens?
    ensures |resolved| == 1 ==>
      Decide(aliases, c) == if Disagrees(aliases, resolved[0], BattleId, c.fields.battle)
                               || Disagrees(aliases, resolved[0], JournalId, Some(c.fields.journal))
                            then Contested else Joins(resolved[0])
  {
    var byBattle := if c.fields.battle.Some? then FindBattle(aliases, c.ns, BattleId, c.fields.battle.value) else None;
    var byJournal := FindBattle(aliases, c.ns, JournalId, c.fields.journal);
    assert forall b: nat :: b in resolved <==> byBattle == Some(b) || byJournal == Some(b) by {
      assert (JournalId, c.fields.journal) in WantedAliases(c);
      assert c.fields.battle.Some? ==> (BattleId, c.fields.battle.value) in WantedAliases(c);
    }
    if |resolved| > 0 {
      assert resolved[0] in resolved;
    }
    if |resolved| > 1 {
      assert resolved[1] in resolved;
    }
    if |resolved| == 1 {
      assert forall b: nat :: b in resolved <==> b == resolved[0];
      if byBattle.Some? {
        assert byBattle.value in resolved;
      }
      if byJournal.Some? {
        assert byJournal.value in resolved;
      }
    }
  }

  /** A battle found for the event that owns another journal was found by its battle id. */
  lemma LateDisagreement(aliases: seq<Alias>, c: Capture, b: nat)
    requires UniqueAliases(aliases) && Disagrees(aliases, b, JournalId, Some(c.fields.journal))
    requires exists w :: w in WantedAliases(c) && FindBattle(aliases, c.ns, w.0, w.1) == Some(b)
    ensures c.fields.battle.Some? && OwnedValue(aliases, b, BattleId).Some?
  {
    var w :| w in WantedAliases(c) && FindBattle(aliases, c.ns, w.0, w.1) == Some(b);
    FindsItsValue(aliases, Alias(c.ns, w.0, w.1, b));
  }

  /** If the event disagrees with the battle on its i-th alias, no earlier alias was missing. */
  lemma NothingMissingBefore(aliases: seq<Alias>, c: Capture, b: nat, i: nat)
    requires UniqueAliases(aliases) && i < |WantedAliases(c)|
    requires var w := WantedAliases(c)[i]; Disagrees(aliases, b, w.0, Some(w.1))
    requires exists w :: w in WantedAliases(c) && FindBattle(aliases, c.ns, w.0, w.1) == Some(b)
    ensures Adopted(aliases, c, b, i) == aliases
    ensures Disagrees(aliases, b, BattleId, c.fields.battle) || Disagrees(aliases, b, JournalId, Some(c.fields.journal))
  {
    if i == 1 {
      LateDisagreement(aliases, c, b);
      MissingStep(aliases, c.ns, WantedAliases(c), 0, b);
    }
  }

  /** The aliases after the first i wanted ones have been adopted. */
  function Adopted(aliases: seq<Alias>, c: Capture, b: nat, i: nat): seq<Alias>
    requires i <= |WantedAliases(c)|
  {
    aliases + MissingAliases(aliases, c.ns, WantedAliases(c)[..i], b)
  }

  predicate AgreesUpTo(aliases: seq<Alias>, c: Capture, b: nat, i: nat)
    requires i <= |WantedAliases(c)|
  {
    forall j :: 0 <= j < i ==> !Disagrees(aliases, b, WantedAliases(c)[j].0, Some(WantedAliases(c)[j].1))
  }

  lemma AdoptStep(aliases: seq<Alias>, battles: seq<Battle>, c: Capture, b: nat, i: nat)
    requires AliasTable(aliases, battles) && i < |WantedAliases(c)|
    ensures var w := WantedAliases(c)[i];
      && OwnedValue(Adopted(aliases, c, b, i), b, w.0) == OwnedValue(aliases, b, w.0)
      && Adopted(aliases, c, b, i + 1)
         == Adopted(aliases, c, b, i) + (if OwnedValue(aliases, b, w.0).None? then [Alias(c.ns, w.0, w.1, b)] else [])
      && (AgreesUpTo(aliases, c, b, i) && !Disagrees(aliases, b, w.0, Some(w.1)) ==> AgreesUpTo(aliases, c, b, i + 1))
  {
    var wanted := WantedAliases(c);
    MissingIsOfWantedKinds(aliases, c.ns, wanted[..i], b);
    OwnedDespite(aliases, MissingAliases(aliases, c.ns, wanted[..i], b), battles, b, wanted[i].0);
    MissingStep(aliases, c.ns, wanted, i, b);
  }

  lemma AdoptEnds(aliases: seq<Alias>, c: Capture, b: nat)
    ensures Adopted(aliases, c, b, 0) == aliases && AgreesUpTo(aliases, c, b, 0)
    ensures Adopted(aliases, c, b, |WantedAliases(c)|) == aliases + MissingAliases(aliases, c.ns, WantedAliases(c), b)
    ensures AgreesUpTo(aliases, c, b, |WantedAliases(c)|) ==>
      !Disagrees(aliases, b, BattleId, c.fields.battle) && !Disagrees(aliases, b, JournalId, Some(c.fields.journal))
  {
    var wanted := WantedAliases(c);
    assert wanted[..|wanted|] == wanted;
    assert wanted[|wanted| - 1] == (JournalId, c.fields.journal);
    assert c.fields.battle.Some? ==> wanted[0] == (BattleId, c.fields.battle.value);
  }

  class CaptureRepository {
    const codec: Codec
    const ns: string
    var evidence: seq<Evidence>
    var blobs: seq<Blob>
    var battles: seq<Battle>
    var aliases: seq<Alias>
    var links: seq<Link>
    var batches: seq<Batch>

    function Contents(): Tables
      reads this
    {
      Tables(evidence, blobs, battles, aliases, links, batches)
    }

    ghost predicate Valid()
      reads this
    {
      Inv(codec, Contents())
    }

    constructor (codec: Codec, ns: string)
      ensures Valid() && Contents() == EMPTY && this.codec == codec && this.ns == ns
    {
      this.codec, this.ns := codec, ns;
      evidence, blobs, battles, aliases, links, batches := [], [], [], [], [], [];
    }

    /** The blob of these bytes, verified when it is already there. */
    method FindOrCreateBlob(c: Capture) returns (ok: bool, blob: nat)
      requires BlobTable(codec, blobs) && Describes(codec, c)
      modifies this`blobs
      ensures ok && (blobs, blob) == WithBlob(old(blobs), c)
    {
      var found := FindBlob(blobs, c.raw);
      if found.Some? {
        blob := found.value;
        ok := blobs[blob] == Blob(c.raw, c.compressed);
      } else {
        blob := |blobs|;
        blobs := blobs + [Blob(c.raw, c.compressed)];
        ok := true;
      }
    }

    /** The distinct battles the wanted aliases name. */
    method ResolveBattles(wanted: seq<(AliasKind, string)>, scope: string) returns (resolved: seq<nat>)
      ensures forall b: nat :: b in resolved <==> exists w :: w in wanted && FindBattle(aliases, scope, w.0, w.1) == Some(b)
      ensures forall i, j :: 0 <= i < j < |resolved| ==> resolved[i] != resolved[j]
    {
      resolved := [];
      for i := 0 to |wanted|
        invariant forall b: nat :: b in resolved <==>
          exists k :: 0 <= k < i && FindBattle(aliases, scope, wanted[k].0, wanted[k].1) == Some(b)
        invariant forall j, k :: 0 <= j < k < |resolved| ==> resolved[j] != resolved[k]
      {
        var found := FindBattle(aliases, scope, wanted[i].0, wanted[i].1);
        if found.Some? && found.value !in resolved {
          resolved := resolved + [found.value];
        }
      }
      forall b: nat
        ensures b in resolved <==> exists w :: w in wanted && FindBattle(aliases, scope, w.0, w.1) == Some(b)
      {
        if w :| w in wanted && FindBattle(aliases, scope, w.0, w.1) == Some(b) {
          var k :| 0 <= k < |wanted| && wanted[k] == w;
        }
      }
    }

    /** Opens a battle for the event under everything it asks for. */
    method OpenBattle(c: Capture, wanted: seq<(AliasKind, string)>) returns (battle: nat)
      requires wanted == WantedAliases(c)
      modifies this`battles, this`aliases
      ensures battle == old(|battles|) && battles == old(battles) + [OpenedBattle(c)]
      ensures aliases == old(aliases) + MissingAliases([], c.ns, wanted, battle)
    {
      battle := |battles|;
      battles := battles + [Battle(c.ns, wanted[0].0, wanted[0].1, c.fields.timestamp, c.fields.battleType, Uncontested)];
      for i := 0 to |wanted|
        invariant battles == old(battles) + [OpenedBattle(c)]
        invariant aliases == old(aliases) + MissingAliases([], c.ns, wanted[..i], battle)
      {
        aliases := aliases + [Alias(c.ns, wanted[i].0, wanted[i].1, battle)];
        MissingStep([], c.ns, wanted, i, battle);
      }
      assert wanted[..|wanted|] == wanted;
    }

    /**
    Gives the battle what the event asks for and the battle lacks; false when the battle owns a
    different value, and then not one alias has been inserted.
     */
    method AdoptAliases(c: Capture, wanted: seq<(AliasKind, string)>, battle: nat) returns (adopted: bool)
      requires wanted == WantedAliases(c) && AliasTable(aliases, battles)
      requires exists w :: w in wanted && FindBattle(aliases, c.ns, w.0, w.1) == Some(battle)
      modifies this`aliases
      ensures adopted <==>
        !Disagrees(old(aliases), battle, BattleId, c.fields.battle)
        && !Disagrees(old(aliases), battle, JournalId, Some(c.fields.journal))
      ensures aliases == old(aliases) + if adopted then MissingAliases(old(aliases), c.ns, wanted, battle) else []
    {
      hide AliasTable, Adopted, AgreesUpTo, WantedAliases, MissingAliases;
      ghost var before := aliases;
      UniqueOf(before, battles);
      AdoptEnds(before, c, battle);
      for i := 0 to |wanted|
        invariant aliases == Adopted(before, c, battle, i) && AgreesUpTo(before, c, battle, i)
      {
        AdoptStep(before, battles, c, battle, i);
        var existing := OwnedValue(aliases, battle, wanted[i].0);
        if existing.Some? && existing.value != wanted[i].1 {
          NothingMissingBefore(before, c, battle, i);
          adopted := false;
          return;
        }
        if existing.None? {
          aliases := aliases + [Alias(c.ns, wanted[i].0, wanted[i].1, battle)];
        }
      }
      adopted := true;
    }

    method LinkEvidence(e: nat, battle: nat)
      modifies this`links, this`battles
      ensures Contents() == Linked(old(Contents()), e, battle)
    {
      var canonical := CanonicalOf(links, battle);
      var role := if canonical.None? then Canonical else Conflicting;
      links := links + [Link(e, battle, role)];
      if role == Conflicting {
        battles := MarkBattle(battles, battle);
      }
    }

    /** Attaches the event's evidence to its battle, or marks it as an association conflict. */
    method AssociateBattle(c: Capture, e: nat)
      requires AliasTable(aliases, battles)
      modifies this`evidence, this`battles, this`aliases, this`links
      ensures Contents() == Associated(old(Contents()), c, e)
    {
      hide AliasTable, Decide, Linked, MissingAliases;
      var wanted := WantedAliases(c);
      var resolved := ResolveBattles(wanted, c.ns);
      ResolvedDecides(aliases, c, resolved);
      if |resolved| > 1 {
        evidence := MarkEvidence(evidence, e);
        return;
      }
      var battle;
      if |resolved| == 0 {
        battle := OpenBattle(c, wanted);
      } else {
        battle := resolved[0];
        assert battle in resolved;
        var adopted := AdoptAliases(c, wanted, battle);
        if !adopted {
          assert aliases == old(aliases);
          evidence := MarkEvidence(evidence, e);
          return;
        }
      }
      LinkEvidence(e, battle);
    }

    /** Stores one capture, or recognises one already stored, and files its receipt in the open batch. */
    method PersistCapture(ordinal: nat, c: Capture, envelope: Envelope, ghost committed: seq<Batch>) returns (ok: bool)
      requires Inv(codec, Contents().(batches := committed)) && Describes(codec, c) && |batches| > 0
      modifies this
      ensures ok
      ensures var (after, e, disposition) := Persisted(old(Contents()).(batches := committed), c, envelope);
        && Contents().(batches := committed) == after
        && batches == old(batches)[|old(batches)| - 1 := old(batches)[|old(batches)| - 1].(
             receipts := old(batches)[|old(batches)| - 1].receipts + [Receipt(ordinal, e, disposition)])]
    {
      hide Associated, EvidenceRow, LinkTable, EvidenceLinked, BattlesLinked, LinkedAliases, ConflictsCoherent, BatchTable, BattleKeys;
      ghost var t := Contents().(batches := committed);
      var e, disposition;
      var existing := FindOccurrence(evidence, c.ns, c.fields.journal, c.raw);
      if existing.Some? {
        StoredBlobMatches(codec, t, existing.value, c);
        ok := evidence[existing.value].raw == c.raw
              && evidence[existing.value].blob < |blobs|
              && blobs[evidence[existing.value].blob] == Blob(c.raw, c.compressed);
        e, disposition := existing.value, ExactRetry;
      } else {
        var blob;
        ok, blob := FindOrCreateBlob(c);
        e, disposition := |evidence|, FirstSeen;
        evidence := evidence + [EvidenceRow(c, envelope, blob)];
        ghost var inserted := Contents();
        AssociateBattle(c, e);
        AssociatingIgnoresBatches(inserted, committed, c, e);
      }
      var open := |batches| - 1;
      batches := batches[open := batches[open].(receipts := batches[open].receipts + [Receipt(ordinal, e, disposition)])];
    }

    /** Re-checks an accepted batch, receipt by receipt. */
    method VerifyExistingBatch(batch: Batch, captures: seq<Capture>, envelope: Envelope) returns (ok: bool)
      ensures ok <==> BatchVerifies(Contents(), batch, captures, envelope)
    {
      hide ReceiptVerifies;
      if |batch.receipts| != |captures| {
        return false;
      }
      for i := 0 to |captures|
        invariant forall j :: 0 <= j < i ==> ReceiptVerifies(Contents(), batch.receipts[j], j, captures[j], envelope)
      {
        if !ReceiptVerifies(Contents(), batch.receipts[i], i, captures[i], envelope) {
          return false;
        }
      }
      return true;
    }

    /** Reads the events into captures before the store is opened for writing, looking at the token before each. */
    method BuildCaptures(envelope: Envelope, cancelledAt: Option<nat>) returns (refusal: Option<Outcome>, captures: seq<Capture>)
      requires !Stopped(cancelledAt, 2)
      ensures refusal == if Stopped(cancelledAt, EarlyLooks(codec, envelope)) then Some(Cancelled)
                         else if !WellFormed(codec, envelope) then Some(Malformed) else None
      ensures refusal.None? ==> captures == CapturesOf(codec, ns, envelope)
    {
      captures := [];
      var events := envelope.events;
      for i := 0 to |events|
        invariant |captures| == i && !Stopped(cancelledAt, 2 + i)
        invariant forall j :: 0 <= j < i ==> codec.fields(events[j]).Some?
        invariant forall j :: 0 <= j < i ==>
          captures[j] == Capture(ns, events[j], codec.compress(events[j]), codec.fields(events[j]).value)
      {
        if Stopped(cancelledAt, 3 + i) {
          return Some(Cancelled), [];
        }
        var fields := codec.fields(events[i]);
        if fields.None? {
          assert events[i] in events;
          return Some(Malformed), [];
        }
        captures := captures + [Capture(ns, events[i], codec.compress(events[i]), fields.value)];
      }
      refusal := None;
    }

    /** Commits one envelope in one transaction, or verifies that it was committed before. */
    method Commit(exact: Bytes, cancelledAt: Option<nat>) returns (outcome: Outcome)
      requires Valid()
      modifies this
      ensures Valid()
      ensures (Contents(), outcome) == CaptureReplay.Commit(codec, old(Contents()), ns, exact, cancelledAt)
    {
      hide Inv, BatchVerifies, PersistedAll;
      CommitKeepsInv(codec, Contents(), ns, exact, cancelledAt);
      var envelope := codec.envelope(exact);
      if Stopped(cancelledAt, 1) {
        return Cancelled;
      }
      if !WithinBounds(envelope) {
        return OutOfBounds;
      }
      if Stopped(cancelledAt, 2) {
        return Cancelled;
      }
      var refusal, captures := BuildCaptures(envelope, cancelledAt);
      if refusal.Some? {
        return refusal.value;
      }
      var existing := FindBatch(batches, ns, envelope.source, envelope.session, envelope.batchId);
      if existing.Some? {
        var batch := batches[existing.value];
        if batch.exact != exact || batch.accepted != |captures| {
          return BatchConflict;
        }
        var ok := VerifyExistingBatch(batch, captures, envelope);
        return if ok then Committed(batch.accepted) else ReplayRefused;
      }
      outcome := CommitNew(exact, envelope, captures, cancelledAt);
    }

    /** The writing transaction; a cancellation between two captures rolls everything back. */
    method CommitNew(exact: Bytes, envelope: Envelope, captures: seq<Capture>, cancelledAt: Option<nat>) returns (outcome: Outcome)
      requires Valid() && (forall c :: c in captures ==> Describes(codec, c)) && !Stopped(cancelledAt, 2 + |captures|)
      modifies this
      ensures if Stopped(cancelledAt, 2 + 2 * |captures|)
              then Contents() == old(Contents()) && outcome == Cancelled
              else
                var (after, receipts) := PersistedAll(old(Contents()), captures, envelope);
                && Contents() == after.(batches := old(batches) + [
                     Batch(ns, envelope.source, envelope.session, envelope.batchId, exact, |captures|, receipts)])
                && outcome == Committed(|captures|)
    {
      hide Inv, Persisted, Describes;
      ghost var t := Contents();
      var savedEvidence, savedBlobs, savedBattles := evidence, blobs, battles;
      var savedAliases, savedLinks, savedBatches := aliases, links, batches;
      batches := batches + [Batch(ns, envelope.source, envelope.session, envelope.batchId, exact, 0, [])];
      for i := 0 to |captures|
        invariant !Stopped(cancelledAt, 2 + |captures| + i)
        invariant var (now, receipts) := PersistedAll(t, captures[..i], envelope);
          && Contents() == now.(batches := t.batches + [
               Batch(ns, envelope.source, envelope.session, envelope.batchId, exact, 0, receipts)])
          && now.batches == t.batches
          && Inv(codec, now)
      {
        if Stopped(cancelledAt, 3 + |captures| + i) {
          evidence, blobs, battles := savedEvidence, savedBlobs, savedBattles;
          aliases, links, batches := savedAliases, savedLinks, savedBatches;
          return Cancelled;
        }
        ghost var now := PersistedAll(t, captures[..i], envelope).0;
        assert Contents().(batches := t.batches) == now;
        assert captures[..i + 1][..i] == captures[..i] && captures[..i + 1][i] == captures[i];
        PersistingKeepsInv(codec, now, captures[i], envelope);
        PersistingGrows(codec, now, captures[i], envelope);
        var ok := PersistCapture(i, captures[i], envelope, t.batches);
      }
      assert captures[..|captures|] == captures;
      var open := |batches| - 1;
      batches := batches[open := batches[open].(accepted := |captures|)];
      return Committed(|captures|);
    }
  }

  lemma StoredBlobMatches(codec: Codec, t: Tables, e: nat, c: Capture)
    requires Inv(codec, t) && Describes(codec, c) && e < |t.evidence| && t.evidence[e].raw == c.raw
    ensures t.evidence[e].blob < |t.blobs| && t.blobs[t.evidence[e].blob] == Blob(c.raw, c.compressed)
  {
    EvidenceOf(codec, t);
    hide Inv;
    assert EvidenceFits(codec, t.evidence[e], t.blobs);
  }

  lemma AssociatingIgnoresBatches(t: Tables, batches: seq<Batch>, c: Capture, e: nat)
    ensures Associated(t.(batches := batches), c, e) == Associated(t, c, e).(batches := batches)
  {
    hide Decide, MissingAliases, WantedAliases, CanonicalOf, MarkBattle, MarkEvidence;
  }
}
