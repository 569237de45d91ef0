/**
Choosing among the accepted release candidates: sorted by sequence, checked pair by adjacent pair, the
last one wins. The checks make it dominate every other candidate.
 */
module ReleaseSelection {
  import opened Common
  import opened ReleasePolicy

  datatype Candidate = Candidate(manifest: Manifest, receipt: Receipt, now: int, state: ChannelState)

  /** A candidate is what Evaluate accepted over the stored state, at the time it was looked at. */
  predicate Accepted(anchor: Anchor, c: Candidate, installed: Version, previous: Option<ChannelState>) {
    Parsed(c.manifest) && Evaluate(anchor, c.manifest, c.receipt, installed, c.now, previous) == Some(c.state)
  }

  /** The later candidate advances the earlier one. */
  predicate Succeeds(later: Manifest, earlier: Manifest) {
    && later.sequence > earlier.sequence
    && CompareTo(later.version, earlier.version) > 0
    && later.issuedAt >= earlier.issuedAt
    && Contains(later.withdrawals, earlier.withdrawals)
  }

  /** One release follows another: higher sequence and precedence, issued no earlier, every withdrawal kept. */
  lemma SuccessionMeans(later: Manifest, earlier: Manifest)
    ensures Succeeds(later, earlier) <==>
      && earlier.sequence < later.sequence && Precedes(Semantic(earlier.version), Semantic(later.version))
      && earlier.issuedAt <= later.issuedAt && forall w :: w in earlier.withdrawals ==> w in later.withdrawals
  {
    ComparisonIsPrecedence(later.version, earlier.version);
    hide CompareTo, Precedes;
  }

  /** The candidates tell one history: of any two, the one of higher sequence advances the other. */
  predicate OneHistory(cs: seq<Candidate>) {
    forall i, j :: 0 <= i < |cs| && 0 <= j < |cs| && i != j ==>
      Succeeds(cs[i].manifest, cs[j].manifest) || Succeeds(cs[j].manifest, cs[i].manifest)
  }

  lemma SuccessionIsTransitive(a: Manifest, b: Manifest, c: Manifest)
    requires Succeeds(b, a) && Succeeds(c, b)
    ensures Succeeds(c, a)
  {
    ComparisonIsTransitive(a.version, b.version, c.version);
    ComparisonIsTransitive(b.version, c.version, c.version);
    ComparisonIsTransitive(a.version, c.version, c.version);
    hide CompareTo;
  }

  /** An ordering of the candidates: every index once, sequences ascending. */
  predicate Orders(cs: seq<Candidate>, order: seq<nat>) { Enumerates(order, |cs|) && Ascending(cs, order) }

  predicate Ascending(cs: seq<Candidate>, order: seq<nat>) {
    && (forall k :: 0 <= k < |order| ==> order[k] < |cs|)
    && forall j, k :: 0 <= j < k < |order| ==> cs[order[j]].manifest.sequence <= cs[order[k]].manifest.sequence
  }

  /** Every index below i, once. */
  predicate Enumerates(order: seq<nat>, i: nat) {
    && |order| == i
    && (forall k :: 0 <= k < |order| ==> order[k] < i)
    && (forall x: nat :: x < i ==> x in order)
    && forall j, k :: 0 <= j < k < |order| ==> order[j] != order[k]
  }

  lemma InsertedAscends(cs: seq<Candidate>, order: seq<nat>, i: nat, at: nat)
    requires i < |cs| && Ascending(cs, order) && at <= |order|
    requires forall k :: 0 <= k < at ==> cs[order[k]].manifest.sequence <= cs[i].manifest.sequence
    requires forall k :: at <= k < |order| ==> cs[i].manifest.sequence <= cs[order[k]].manifest.sequence
    ensures Ascending(cs, order[..at] + [i] + order[at..])
  {
    var after := order[..at] + [i] + order[at..];
    assert forall k :: 0 <= k < at ==> after[k] == order[k];
    assert forall k :: at < k < |after| ==> after[k] == order[k - 1];
  }

  lemma InsertedEnumerates(order: seq<nat>, i: nat, at: nat)
    requires Enumerates(order, i) && at <= |order|
    ensures Enumerates(order[..at] + [i] + order[at..], i + 1)
  {
    var after := order[..at] + [i] + order[at..];
    assert forall k :: 0 <= k < at ==> after[k] == order[k];
    assert forall k :: at < k < |after| ==> after[k] == order[k - 1];
    forall x: nat | x < i + 1
      ensures x in after
    {
      if x < i {
        assert x in order;
        var k :| 0 <= k < |order| && order[k] == x;
        assert after[if k < at then k else k + 1] == x;
      } else {
        assert after[at] == i;
      }
    }
  }

  /** A stable ordering by sequence. */
  method OrderBySequence(cs: seq<Candidate>) returns (order: seq<nat>)
    ensures Orders(cs, order)
  {
    order := [];
    for i := 0 to |cs|
      invariant Enumerates(order, i) && Ascending(cs, order)
    {
      var at := |order|;
      while at > 0 && cs[order[at - 1]].manifest.sequence > cs[i].manifest.sequence
        invariant 0 <= at <= |order|
        invariant forall k :: at <= k < |order| ==> cs[i].manifest.sequence <= cs[order[k]].manifest.sequence
      {
        at := at - 1;
      }
      InsertedAscends(cs, order, i, at);
      InsertedEnumerates(order, i, at);
      order := order[..at] + [i] + order[at..];
    }
  }

  /** Adjacent succession up to k makes the k-th succeed every earlier one. */
  lemma {:induction false} LaterSucceeds(cs: seq<Candidate>, order: seq<nat>, j: nat, k: nat)
    requires forall i :: 0 <= i < |order| ==> order[i] < |cs|
    requires j < k < |order|
    requires forall i :: 0 < i <= k ==> Succeeds(cs[order[i]].manifest, cs[order[i - 1]].manifest)
    ensures Succeeds(cs[order[k]].manifest, cs[order[j]].manifest)
    decreases k
  {
    if j < k - 1 {
      LaterSucceeds(cs, order, j, k - 1);
      SuccessionIsTransitive(cs[order[j]].manifest, cs[order[k - 1]].manifest, cs[order[k]].manifest);
    }
  }

  lemma AdjacentMeansOneHistory(cs: seq<Candidate>, order: seq<nat>)
    requires Orders(cs, order)
    requires forall i :: 0 < i < |order| ==> Succeeds(cs[order[i]].manifest, cs[order[i - 1]].manifest)
    ensures OneHistory(cs)
  {
    hide Succeeds;
    forall a: nat, b: nat | a < |cs| && b < |cs| && a != b
      ensures Succeeds(cs[a].manifest, cs[b].manifest) || Succeeds(cs[b].manifest, cs[a].manifest)
    {
      assert a in order && b in order;
      var j :| 0 <= j < |order| && order[j] == a;
      var k :| 0 <= k < |order| && order[k] == b;
      LaterSucceeds(cs, order, if j < k then j else k, if j < k then k else j);
    }
  }

  /** The chosen candidate advances every other one. */
  predicate Dominates(cs: seq<Candidate>, chosen: nat) {
    chosen < |cs| && forall i :: 0 <= i < |cs| && i != chosen ==> Succeeds(cs[chosen].manifest, cs[i].manifest)
  }

  /**
  Chooses the last candidate by sequence after checking adjacent pairs. It chooses exactly when the
  candidates tell one history, and then the chosen one dominates.
   */
  method Select(cs: seq<Candidate>) returns (chosen: Option<nat>)
    ensures chosen.Some? <==> |cs| > 0 && OneHistory(cs)
    ensures chosen.Some? ==> Dominates(cs, chosen.value)
  {
    if |cs| == 0 {
      return None;
    }
    var order := OrderBySequence(cs);
    var i := 1;
    while i < |order|
      invariant 1 <= i <= |order|
      invariant forall k :: 0 < k < i ==> Succeeds(cs[order[k]].manifest, cs[order[k - 1]].manifest)
    {
      var previous, current := cs[order[i - 1]].manifest, cs[order[i]].manifest;
      if current.sequence == previous.sequence || CompareTo(current.version, previous.version) <= 0
         || current.issuedAt < previous.issuedAt || !Contains(current.withdrawals, previous.withdrawals)
      {
        assert order[i] != order[i - 1] && !Succeeds(current, previous) && !Succeeds(previous, current);
        return None;
      }
      i := i + 1;
    }
    AdjacentMeansOneHistory(cs, order);
    chosen := Some(order[|order| - 1]);
    LastDominates(cs, order);
  }

  lemma LastDominates(cs: seq<Candidate>, order: seq<nat>)
    requires Orders(cs, order) && |cs| > 0
    requires forall i :: 0 < i < |order| ==> Succeeds(cs[order[i]].manifest, cs[order[i - 1]].manifest)
    ensures Dominates(cs, order[|order| - 1])
  {
    hide Succeeds;
    forall a: nat | a < |cs| && a != order[|order| - 1]
      ensures Succeeds(cs[order[|order| - 1]].manifest, cs[a].manifest)
    {
      assert a in order;
      var j :| 0 <= j < |order| && order[j] == a;
      LaterSucceeds(cs, order, j, |order| - 1);
    }
  }

  /**
  The chosen release has strictly the highest sequence and version precedence, carries every withdrawal
  any candidate or the stored state publishes, and is withdrawn by none of them.
   */
  lemma SelectionDominates(
    anchor: Anchor, cs: seq<Candidate>, chosen: nat, installed: Version, previous: Option<ChannelState>, i: nat)
    requires forall c :: c in cs ==> Accepted(anchor, c, installed, previous)
    requires Dominates(cs, chosen) && i < |cs|
    ensures var c, m := cs[chosen], cs[i].manifest;
      && (i != chosen ==>
            && m.sequence < c.manifest.sequence && Precedes(Semantic(m.version), Semantic(c.manifest.version))
            && m.issuedAt <= c.manifest.issuedAt)
      && Contains(c.manifest.withdrawals, m.withdrawals)
      && !IsWithdrawn(m.withdrawals, c.manifest.sequence, c.receipt.manifestDigest, c.manifest.artifacts)
      && (previous.Some? ==>
            && Contains(c.manifest.withdrawals, previous.value.withdrawals)
            && !IsWithdrawn(previous.value.withdrawals, c.manifest.sequence, c.receipt.manifestDigest, c.manifest.artifacts))
  {
    hide IsWithdrawn;
    var c, m := cs[chosen], cs[i].manifest;
    assert Accepted(anchor, c, installed, previous);
    if i != chosen {
      assert Succeeds(c.manifest, m);
      ComparisonIsPrecedence(m.version, c.manifest.version);
      ComparisonIsTransitive(m.version, c.manifest.version, m.version);
    }
    var sequence, digest, artifacts := c.manifest.sequence, c.receipt.manifestDigest, c.manifest.artifacts;
    if IsWithdrawn(m.withdrawals, sequence, digest, artifacts) {
      WithdrawalCarries(m.withdrawals, c.manifest.withdrawals, sequence, digest, artifacts);
    }
    if previous.Some? && IsWithdrawn(previous.value.withdrawals, sequence, digest, artifacts) {
      WithdrawalCarries(previous.value.withdrawals, c.manifest.withdrawals, sequence, digest, artifacts);
    }
  }
}
