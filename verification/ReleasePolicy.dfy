/**
Anti-rollback policy for authenticated releases: what Evaluate accepts against a stored channel state,
and what the state store accepts as an advance. Versions, digests and selectors are values; their
canonical spellings are one to one with them. Times are seconds.
 */
module ReleasePolicy {
  import opened Common

  const MAXIMUM_INT := 0x7fff_ffff
  const MAXIMUM_RELEASE_CANDIDATE := 65534
  const DIGEST_BYTES := 32
  const STABLE_VALIDITY := 45 * 86400
  const PREVIEW_VALIDITY := 14 * 86400
  const MAXIMUM_SIGNING_DELAY := 3600
  const ALLOWED_CLOCK_SKEW := 600
  const MATERIAL_CLOCK_ROLLBACK := 86400

  // ------------------------------------------------------------------ versions

  datatype Version = Version(major: int, minor: int, patch: int, candidate: Option<int>)

  predicate ValidVersion(v: Version) {
    && 0 <= v.major <= MAXIMUM_INT && 0 <= v.minor <= MAXIMUM_INT && 0 <= v.patch <= MAXIMUM_INT
    && (v.candidate.Some? ==> 1 <= v.candidate.value <= MAXIMUM_RELEASE_CANDIDATE)
  }

  function Compare(a: int, b: int): int { if a < b then -1 else if a > b then 1 else 0 }

  function CompareTo(a: Version, b: Version): int {
    if Compare(a.major, b.major) != 0 then Compare(a.major, b.major)
    else if Compare(a.minor, b.minor) != 0 then Compare(a.minor, b.minor)
    else if Compare(a.patch, b.patch) != 0 then Compare(a.patch, b.patch)
    else if a.candidate.None? then if b.candidate.None? then 0 else 1
    else if b.candidate.None? then -1
    else Compare(a.candidate.value, b.candidate.value)
  }

  /** Versions as Semantic Versioning 2.0.0 has them: three numbers and dot-separated pre-release identifiers. */
  datatype Identifier = Numeric(number: int) | Alphanumeric(text: string)

  datatype SemanticVersion = SemanticVersion(core: seq<int>, prerelease: seq<Identifier>)

  function Semantic(v: Version): SemanticVersion {
    SemanticVersion(
      [v.major, v.minor, v.patch],
      if v.candidate.None? then [] else [Alphanumeric("rc"), Numeric(v.candidate.value)])
  }

  predicate TextPrecedes(a: string, b: string) {
    exists k :: 0 <= k <= |a| && k < |b| && a[..k] == b[..k] && (k == |a| || a[k] < b[k])
  }

  predicate IdentifierPrecedes(a: Identifier, b: Identifier) {
    match a
    case Numeric(n) => b.Alphanumeric? || n < b.number
    case Alphanumeric(t) => b.Alphanumeric? && TextPrecedes(t, b.text)
  }

  /** Identifiers compare left to right; a longer list with an equal start comes later. */
  predicate PrereleasePrecedes(a: seq<Identifier>, b: seq<Identifier>) {
    exists k :: 0 <= k <= |a| && k < |b| && a[..k] == b[..k] && (k == |a| || IdentifierPrecedes(a[k], b[k]))
  }

  /** Precedence as section 11 of Semantic Versioning 2.0.0 defines it. */
  predicate Precedes(a: SemanticVersion, b: SemanticVersion)
    requires |a.core| == |b.core|
  {
    if a.core != b.core then
      exists k :: 0 <= k < |a.core| && a.core[..k] == b.core[..k] && a.core[k] < b.core[k]
    else if a.prerelease == [] then false
    else b.prerelease == [] || PrereleasePrecedes(a.prerelease, b.prerelease)
  }

  lemma CoreOrder(a: Version, b: Version)
    requires Semantic(a).core != Semantic(b).core
    ensures Precedes(Semantic(a), Semantic(b)) <==>
      a.major < b.major || (a.major == b.major && (a.minor < b.minor || (a.minor == b.minor && a.patch < b.patch)))
  {
    var x, y := Semantic(a).core, Semantic(b).core;
    assert x[..0] == y[..0];
    assert x[..1] == [a.major] && y[..1] == [b.major];
    assert x[..2] == [a.major, a.minor] && y[..2] == [b.major, b.minor];
    assert x[0] == a.major && x[1] == a.minor && x[2] == a.patch;
    assert y[0] == b.major && y[1] == b.minor && y[2] == b.patch;
    if k :| 0 <= k < 3 && x[..k] == y[..k] && x[k] < y[k] {
      assert k == 0 || x[0] == x[..k][0] == y[..k][0] == y[0];
      assert k <= 1 || x[1] == x[..k][1] == y[..k][1] == y[1];
    }
    if a.major == b.major && a.minor == b.minor {
      assert x == [a.major, a.minor, a.patch] && y == [a.major, a.minor, b.patch];
    }
  }

  lemma CandidateOrder(m: int, n: int)
    ensures var a, b := [Alphanumeric("rc"), Numeric(m)], [Alphanumeric("rc"), Numeric(n)];
      PrereleasePrecedes(a, b) <==> m < n
  {
    var a, b := [Alphanumeric("rc"), Numeric(m)], [Alphanumeric("rc"), Numeric(n)];
    assert a[..1] == b[..1] == [Alphanumeric("rc")];
    assert !TextPrecedes("rc", "rc");
    assert !IdentifierPrecedes(a[0], b[0]);
    if k :| 0 <= k <= |a| && k < |b| && a[..k] == b[..k] && (k == |a| || IdentifierPrecedes(a[k], b[k])) {
      assert k == 1;
    }
  }

  /** The code's comparison is the precedence of Semantic Versioning, and equal only for equal versions. */
  lemma ComparisonIsPrecedence(a: Version, b: Version)
    ensures CompareTo(a, b) < 0 <==> Precedes(Semantic(a), Semantic(b))
    ensures CompareTo(a, b) > 0 <==> Precedes(Semantic(b), Semantic(a))
    ensures CompareTo(a, b) == 0 <==> a == b
  {
    hide TextPrecedes, PrereleasePrecedes;
    var x, y := Semantic(a), Semantic(b);
    if x.core != y.core {
      CoreOrder(a, b);
      CoreOrder(b, a);
      assert a.major != b.major || a.minor != b.minor || a.patch != b.patch;
    } else {
      assert a.major == x.core[0] == b.major && a.minor == x.core[1] == b.minor && a.patch == x.core[2] == b.patch;
      if a.candidate.Some? && b.candidate.Some? {
        CandidateOrder(a.candidate.value, b.candidate.value);
        CandidateOrder(b.candidate.value, a.candidate.value);
      }
    }
  }

  lemma ComparisonIsTransitive(a: Version, b: Version, c: Version)
    ensures CompareTo(a, b) <= 0 && CompareTo(b, c) <= 0 ==> CompareTo(a, c) <= 0
    ensures CompareTo(a, b) <= 0 && CompareTo(b, c) < 0 ==> CompareTo(a, c) < 0
    ensures CompareTo(a, b) < 0 && CompareTo(b, c) <= 0 ==> CompareTo(a, c) < 0
    ensures CompareTo(a, b) == -CompareTo(b, a)
  {
  }

  // -------------------------------------------------------------- withdrawals

  datatype Reason = Security | Integrity | OperatorError | PolicyReason

  // Constructors in the ordinal order of the selector kinds' names.
  datatype Selector = ArtifactDigest(digest: Bytes) | ManifestDigest(digest: Bytes) | ReleaseSequence(sequence: int)
  {
    function Rank(): nat { match this case ArtifactDigest(_) => 0 case ManifestDigest(_) => 1 case ReleaseSequence(_) => 2 }
  }

  datatype Withdrawal = Withdrawal(selector: Selector, withdrawnAt: int, reason: Reason)

  function Decimal(n: nat): seq<int> { if n < 10 then [n] else Decimal(n / 10) + [n % 10] }

  /** The selector's value as the characters ordinal comparison sees, in order-preserving codes. */
  function Text(s: Selector): seq<int> {
    match s
    case ReleaseSequence(n) => if n < 0 then [] else Decimal(n)
    case _ => seq(|s.digest|, i requires 0 <= i < |s.digest| => s.digest[i] as int)
  }

  predicate LexicallyBefore(a: seq<int>, b: seq<int>) {
    exists k :: 0 <= k <= |a| && k < |b| && a[..k] == b[..k] && (k == |a| || a[k] < b[k])
  }

  predicate SelectorBefore(a: Selector, b: Selector) {
    a.Rank() < b.Rank() || (a.Rank() == b.Rank() && LexicallyBefore(Text(a), Text(b)))
  }

  predicate CanonicalOrder(ws: seq<Withdrawal>) {
    forall i, j :: 0 <= i < j < |ws| ==> !SelectorBefore(ws[j].selector, ws[i].selector)
  }

  predicate UniqueSelectors(ws: seq<Withdrawal>) {
    forall i, j :: 0 <= i < j < |ws| ==> ws[i].selector != ws[j].selector
  }

  predicate ValidSelector(s: Selector) {
    match s
    case ReleaseSequence(n) => n > 0
    case _ => |s.digest| == DIGEST_BYTES
  }

  predicate ValidWithdrawal(w: Withdrawal) { ValidSelector(w.selector) }

  predicate Contains(ws: seq<Withdrawal>, some: seq<Withdrawal>) { forall w :: w in some ==> w in ws }

  predicate DigestEquals(a: Bytes, b: Bytes) { |a| == DIGEST_BYTES && |b| == DIGEST_BYTES && a == b }

  /** Some withdrawal names this release by its sequence, its manifest or one of its artifacts. */
  predicate IsWithdrawn(ws: seq<Withdrawal>, sequence: int, manifestDigest: Bytes, artifacts: seq<Bytes>) {
    exists w :: w in ws &&
      match w.selector
      case ReleaseSequence(n) => n == sequence
      case ManifestDigest(d) => DigestEquals(d, manifestDigest)
      case ArtifactDigest(d) => exists a :: a in artifacts && DigestEquals(d, a)
  }

  // ------------------------------------------------- the canonical order of selectors

  lemma LexicallyStep(a: seq<int>, b: seq<int>)
    ensures LexicallyBefore(a, b) <==>
      b != [] && (a == [] || a[0] < b[0] || (a[0] == b[0] && LexicallyBefore(a[1..], b[1..])))
  {
    if LexicallyBefore(a, b) {
      var k :| 0 <= k <= |a| && k < |b| && a[..k] == b[..k] && (k == |a| || a[k] < b[k]);
      if k > 0 {
        assert a[0] == a[..k][0] == b[..k][0] == b[0];
        assert a[1..][..k - 1] == a[..k][1..] == b[..k][1..] == b[1..][..k - 1];
        assert k - 1 == |a[1..]| || a[1..][k - 1] < b[1..][k - 1];
      }
    }
    if b != [] && (a == [] || a[0] < b[0]) {
      assert a[..0] == b[..0];
    } else if a != [] && b != [] && a[0] == b[0] && LexicallyBefore(a[1..], b[1..]) {
      var k :| 0 <= k <= |a[1..]| && k < |b[1..]| && a[1..][..k] == b[1..][..k] && (k == |a[1..]| || a[1..][k] < b[1..][k]);
      assert a[..k + 1] == [a[0]] + a[1..][..k] == [b[0]] + b[1..][..k] == b[..k + 1];
    }
  }

  lemma {:induction false} LexicallyTotal(a: seq<int>, b: seq<int>)
    ensures !LexicallyBefore(a, a)
    ensures a != b ==> (LexicallyBefore(a, b) <==> !LexicallyBefore(b, a))
    decreases |a|
  {
    hide LexicallyBefore;
    LexicallyStep(a, a);
    LexicallyStep(a, b);
    LexicallyStep(b, a);
    if a != [] {
      LexicallyTotal(a[1..], if b == [] then b else b[1..]);
      assert b != [] && a[0] == b[0] && a[1..] == b[1..] ==> a == b by {
        assert a == [a[0]] + a[1..];
        assert b != [] ==> b == [b[0]] + b[1..];
      }
    }
  }

  lemma {:induction false} LexicallyTransitive(a: seq<int>, b: seq<int>, c: seq<int>)
    requires LexicallyBefore(a, b) && LexicallyBefore(b, c)
    ensures LexicallyBefore(a, c)
    decreases |a|
  {
    hide LexicallyBefore;
    LexicallyStep(a, b);
    LexicallyStep(b, c);
    LexicallyStep(a, c);
    if a != [] && a[0] == b[0] == c[0] {
      LexicallyTransitive(a[1..], b[1..], c[1..]);
    }
  }

  lemma {:induction false} DecimalIsOneToOne(m: nat, n: nat)
    ensures Decimal(m) == Decimal(n) ==> m == n
  {
    if Decimal(m) == Decimal(n) && m >= 10 && n >= 10 {
      assert Decimal(m / 10) == Decimal(m)[..|Decimal(m)| - 1] == Decimal(n)[..|Decimal(n)| - 1] == Decimal(n / 10);
      DecimalIsOneToOne(m / 10, n / 10);
      assert m % 10 == Decimal(m)[|Decimal(m)| - 1] == n % 10;
    } else if Decimal(m) == Decimal(n) {
      DecimalIsNotEmpty(m / 10);
      DecimalIsNotEmpty(n / 10);
    }
  }

  lemma {:induction false} DecimalIsNotEmpty(n: nat)
    ensures Decimal(n) != []
  {
  }

  lemma TextIsOneToOne(a: Selector, b: Selector)
    requires ValidSelector(a) && ValidSelector(b) && a.Rank() == b.Rank() && Text(a) == Text(b)
    ensures a == b
  {
    if a.ReleaseSequence? {
      DecimalIsOneToOne(a.sequence, b.sequence);
    } else {
      forall i | 0 <= i < |a.digest|
        ensures a.digest[i] == b.digest[i]
      {
        assert Text(a)[i] == Text(b)[i];
      }
      assert a.digest == b.digest;
    }
  }

  /** The order of valid selectors is strict and total. */
  lemma SelectorsAreOrdered(a: Selector, b: Selector, c: Selector)
    requires ValidSelector(a) && ValidSelector(b)
    ensures !SelectorBefore(a, a)
    ensures a != b ==> (SelectorBefore(a, b) <==> !SelectorBefore(b, a))
    ensures SelectorBefore(a, b) && SelectorBefore(b, c) ==> SelectorBefore(a, c)
  {
    hide LexicallyBefore;
    LexicallyTotal(Text(a), Text(b));
    if a.Rank() == b.Rank() && Text(a) == Text(b) {
      TextIsOneToOne(a, b);
    }
    if a.Rank() == b.Rank() == c.Rank() && LexicallyBefore(Text(a), Text(b)) && LexicallyBefore(Text(b), Text(c)) {
      LexicallyTransitive(Text(a), Text(b), Text(c));
    }
  }

  /** It is the ordinal order of the kinds' names and then of the spelled values: ten comes before nine. */
  lemma OrderIsOrdinal(a: Bytes, b: Bytes, n: int)
    ensures ValidSelector(ReleaseSequence(n)) <==> n >= 1
    ensures ValidSelector(ArtifactDigest(a)) == ValidSelector(ManifestDigest(a)) == (|a| == 32)
    ensures SelectorBefore(ArtifactDigest(a), ManifestDigest(b)) && SelectorBefore(ManifestDigest(b), ReleaseSequence(n))
    ensures SelectorBefore(ReleaseSequence(10), ReleaseSequence(9)) && SelectorBefore(ReleaseSequence(9), ReleaseSequence(90))
    ensures |a| == |b| > 0 && a[0] < b[0] ==> SelectorBefore(ManifestDigest(a), ManifestDigest(b))
  {
    assert Decimal(10) == [1, 0] && Decimal(9) == [9] && Decimal(90) == [9, 0];
    LexicallyStep([1, 0], [9]);
    LexicallyStep([9], [9, 0]);
    LexicallyStep([], [0]);
    assert [9][1..] == [] && [9, 0][1..] == [0];
    LexicallyStep(Text(ManifestDigest(a)), Text(ManifestDigest(b)));
  }

  predicate Canonical(ws: seq<Withdrawal>) {
    CanonicalOrder(ws) && UniqueSelectors(ws) && forall w :: w in ws ==> ValidSelector(w.selector)
  }

  /** The first of a canonical list comes before all others. */
  lemma FirstIsLeast(ws: seq<Withdrawal>, w: Withdrawal)
    requires Canonical(ws) && w in ws
    ensures w == ws[0] || (SelectorBefore(ws[0].selector, w.selector) && w.selector != ws[0].selector)
  {
    var i :| 0 <= i < |ws| && ws[i] == w;
    if i > 0 {
      SelectorsAreOrdered(ws[0].selector, w.selector, w.selector);
    }
    hide SelectorBefore, ValidSelector;
  }

  /** A canonical list is determined by what it withdraws: there is one spelling of every set of withdrawals. */
  lemma {:induction false} CanonicalListIsUnique(ws: seq<Withdrawal>, vs: seq<Withdrawal>)
    requires Canonical(ws) && Canonical(vs) && forall w :: w in ws <==> w in vs
    ensures ws == vs
    decreases |ws|
  {
    hide SelectorBefore, ValidSelector;
    assert ws == [] <==> vs == [] by {
      if ws != [] {
        assert ws[0] in ws;
      }
      if vs != [] {
        assert vs[0] in vs;
      }
    }
    if ws != [] {
      assert ws[0] in ws && vs[0] in vs;
      SelectorsAreOrdered(ws[0].selector, vs[0].selector, vs[0].selector);
      FirstIsLeast(ws, vs[0]);
      FirstIsLeast(vs, ws[0]);
      TailsAgree(ws, vs);
      CanonicalListIsUnique(ws[1..], vs[1..]);
      assert ws == [ws[0]] + ws[1..] && vs == [vs[0]] + vs[1..];
    }
  }

  lemma TailsAgree(ws: seq<Withdrawal>, vs: seq<Withdrawal>)
    requires Canonical(ws) && Canonical(vs) && (forall w :: w in ws <==> w in vs) && ws != [] && vs != [] && ws[0] == vs[0]
    ensures Canonical(ws[1..]) && Canonical(vs[1..]) && forall w :: w in ws[1..] <==> w in vs[1..]
  {
    hide SelectorBefore, ValidSelector;
    forall w
      ensures w in ws[1..] <==> w in ws && w != ws[0]
      ensures w in vs[1..] <==> w in vs && w != vs[0]
    {
      assert ws == [ws[0]] + ws[1..] && vs == [vs[0]] + vs[1..];
    }
  }

  // ------------------------------------------------------------------- records

  datatype Channel = Stable | Preview

  function ChannelOf(v: Version): Channel { if v.candidate.None? then Stable else Preview }

  /** A parsed manifest; wellFormed stands for the fields that are compared with constants. A tag names a version. */
  datatype Manifest = Manifest(
    wellFormed: bool, sequence: int, issuedAt: int, expiresAt: int, version: Version, tag: Version, channel: Channel,
    active: bool, minimumLauncher: Version, commit: string, artifacts: seq<Bytes>, withdrawals: seq<Withdrawal>)

  datatype Receipt = Receipt(
    verified: bool, wellFormed: bool, integratedTimes: seq<int>, commit: string, tag: Version,
    manifestDigest: Bytes, bundleDigest: Bytes, trustEpoch: int, trustedRoot: Bytes)

  datatype ChannelState = ChannelState(
    channel: Channel, sequence: int, version: Version, manifestDigest: Bytes, bundleDigest: Bytes, commit: string,
    tag: Version, trustEpoch: int, trustedRoot: Bytes, firstObserved: int, lastObserved: int, withdrawals: seq<Withdrawal>)

  /** The trust anchor an installed build carries; later builds may carry later epochs. */
  datatype Anchor = Anchor(trustEpoch: int, trustedRoot: Bytes)

  predicate ValidAnchor(a: Anchor) { a.trustEpoch > 0 && |a.trustedRoot| == DIGEST_BYTES }

  /** What the manifest parser guarantees beyond field types. */
  predicate Parsed(m: Manifest) { UniqueSelectors(m.withdrawals) }

  // ------------------------------------------------------------------- policy

  predicate IdentityHolds(anchor: Anchor, m: Manifest, r: Receipt) {
    && r.wellFormed && m.wellFormed
    && r.trustEpoch == anchor.trustEpoch && DigestEquals(r.trustedRoot, anchor.trustedRoot)
    && m.sequence > 0 && m.channel == ChannelOf(m.version) && m.active
    && m.tag == m.version && m.commit == r.commit && r.tag == m.tag
    && |r.manifestDigest| == DIGEST_BYTES && |r.bundleDigest| == DIGEST_BYTES
  }

  predicate WithdrawalsHold(m: Manifest) {
    && CanonicalOrder(m.withdrawals)
    && forall w :: w in m.withdrawals ==> ValidWithdrawal(w) && w.withdrawnAt <= m.issuedAt + ALLOWED_CLOCK_SKEW
  }

  predicate TimingHolds(m: Manifest, integrated: int) {
    && m.issuedAt <= integrated + ALLOWED_CLOCK_SKEW
    && integrated - m.issuedAt <= MAXIMUM_SIGNING_DELAY
    && m.issuedAt < m.expiresAt
    && m.expiresAt - m.issuedAt <= (if m.channel == Stable then STABLE_VALIDITY else PREVIEW_VALIDITY)
    && integrated <= m.expiresAt + ALLOWED_CLOCK_SKEW
  }

  predicate ValidState(s: ChannelState) {
    && s.sequence > 0 && s.tag == s.version
    && |s.manifestDigest| == DIGEST_BYTES && |s.bundleDigest| == DIGEST_BYTES
    && s.trustEpoch > 0 && |s.trustedRoot| == DIGEST_BYTES
    && s.firstObserved <= s.lastObserved
    && ValidVersion(s.version) && ChannelOf(s.version) == s.channel
    && CanonicalOrder(s.withdrawals) && UniqueSelectors(s.withdrawals)
    && forall w :: w in s.withdrawals ==> ValidWithdrawal(w)
  }

  /** The policy's own comparison of a candidate with the stored state. */
  predicate PreviousAllows(previous: ChannelState, m: Manifest, r: Receipt, now: int) {
    && ValidState(previous)
    && previous.channel == m.channel
    && previous.lastObserved <= now + MATERIAL_CLOCK_ROLLBACK
    && previous.sequence <= m.sequence
    && previous.trustEpoch <= r.trustEpoch
    && (r.trustEpoch == previous.trustEpoch ==> DigestEquals(r.trustedRoot, previous.trustedRoot))
    && CompareTo(m.version, previous.version) >= 0
    && (if m.sequence == previous.sequence then
          && CompareTo(m.version, previous.version) == 0
          && m.tag == previous.tag && m.commit == previous.commit
          && DigestEquals(r.manifestDigest, previous.manifestDigest) && DigestEquals(r.bundleDigest, previous.bundleDigest)
          && r.trustEpoch == previous.trustEpoch && DigestEquals(r.trustedRoot, previous.trustedRoot)
          && m.withdrawals == previous.withdrawals
        else CompareTo(m.version, previous.version) > 0)
    && Contains(m.withdrawals, previous.withdrawals)
  }

  function Later(a: int, b: int): int { if a < b then b else a }

  function Observation(now: int, integrated: int, previous: Option<ChannelState>): int {
    Later(Later(now, integrated), if previous.Some? then previous.value.lastObserved else now)
  }

  /** The channel state a candidate is accepted into, or None when it is rejected. */
  function Evaluate(anchor: Anchor, m: Manifest, r: Receipt, installed: Version, now: int, previous: Option<ChannelState>)
    : Option<ChannelState>
  {
    if !ValidVersion(m.version) || !ValidVersion(installed) then None
    else if !r.verified || |r.integratedTimes| != 1 then None
    else if !IdentityHolds(anchor, m, r) || |m.artifacts| != 2 || !WithdrawalsHold(m) then None
    else if CompareTo(installed.(candidate := None), m.minimumLauncher.(candidate := None)) < 0 then None
    else if !TimingHolds(m, r.integratedTimes[0]) || CompareTo(m.version, installed) <= 0 then None
    else if previous.Some? && !PreviousAllows(previous.value, m, r, now) then None
    else
      var observed := Observation(now, r.integratedTimes[0], previous);
      if observed > m.expiresAt + ALLOWED_CLOCK_SKEW then None
      else if IsWithdrawn(m.withdrawals, m.sequence, r.manifestDigest, m.artifacts) then None
      else
        var same := previous.Some? && previous.value.sequence == m.sequence;
        Some(ChannelState(
               m.channel, m.sequence, m.version, r.manifestDigest, r.bundleDigest, m.commit, m.tag,
               r.trustEpoch, r.trustedRoot, if same then previous.value.firstObserved else observed, observed, m.withdrawals))
  }

  /** The store's own comparison of a candidate state with the one it holds. */
  predicate ValidAdvance(existing: ChannelState, candidate: ChannelState) {
    && candidate.sequence >= existing.sequence
    && candidate.trustEpoch >= existing.trustEpoch
    && candidate.lastObserved >= existing.lastObserved
    && candidate.firstObserved >= existing.firstObserved
    && CompareTo(candidate.version, existing.version) >= 0
    && (candidate.sequence == existing.sequence ==>
          && candidate.version == existing.version && candidate.tag == existing.tag && candidate.commit == existing.commit
          && DigestEquals(candidate.manifestDigest, existing.manifestDigest)
          && DigestEquals(candidate.bundleDigest, existing.bundleDigest)
          && candidate.trustEpoch == existing.trustEpoch && DigestEquals(candidate.trustedRoot, existing.trustedRoot)
          && candidate.firstObserved == existing.firstObserved)
    && (candidate.sequence > existing.sequence ==> CompareTo(candidate.version, existing.version) > 0)
    && Contains(candidate.withdrawals, existing.withdrawals)
  }

  /** The two guards agree: what the policy accepts over a stored state, the store accepts over that state. */
  lemma PolicyImpliesStore(anchor: Anchor, m: Manifest, r: Receipt, installed: Version, now: int, previous: Option<ChannelState>)
    requires ValidAnchor(anchor) && Parsed(m)
    requires Evaluate(anchor, m, r, installed, now, previous).Some?
    ensures var state := Evaluate(anchor, m, r, installed, now, previous).value;
      && ValidState(state)
      && (previous.Some? ==> state.channel == previous.value.channel && ValidAdvance(previous.value, state))
  {
    hide CanonicalOrder, UniqueSelectors, IsWithdrawn, TimingHolds;
    if previous.Some? {
      ComparisonIsPrecedence(m.version, previous.value.version);
    }
  }

  // ---------------------------------------------------- what an accepted release is

  /** The release's own list names none of its identities: not its sequence, its manifest or an artifact. */
  predicate WithdrawsItself(m: Manifest, r: Receipt) {
    exists w :: w in m.withdrawals &&
      (w.selector == ReleaseSequence(m.sequence) || w.selector == ManifestDigest(r.manifestDigest)
       || exists a :: a in m.artifacts && w.selector == ArtifactDigest(a))
  }

  /** The transparency entry, the manifest's lifetime and the clock agree. */
  predicate Timely(m: Manifest, integrated: int, observed: int) {
    && integrated - MAXIMUM_SIGNING_DELAY <= m.issuedAt <= integrated + ALLOWED_CLOCK_SKEW
    && m.issuedAt < m.expiresAt <= m.issuedAt + (if m.version.candidate.None? then STABLE_VALIDITY else PREVIEW_VALIDITY)
    && integrated <= m.expiresAt + ALLOWED_CLOCK_SKEW
    && observed <= m.expiresAt + ALLOWED_CLOCK_SKEW
  }

  /** The evidence is verified and is about this very manifest, under the anchor's own root. */
  predicate Vouches(anchor: Anchor, m: Manifest, r: Receipt) {
    && r.verified && r.wellFormed && |r.integratedTimes| == 1
    && r.trustEpoch == anchor.trustEpoch && r.trustedRoot == anchor.trustedRoot
    && r.commit == m.commit && r.tag == m.version
    && |r.manifestDigest| == DIGEST_BYTES && |r.bundleDigest| == DIGEST_BYTES
  }

  /** An active manifest whose tag, channel and withdrawals are as its version and issue time require. */
  predicate Publishes(m: Manifest) {
    && m.wellFormed && m.active && m.sequence > 0 && |m.artifacts| == 2
    && ValidVersion(m.version) && m.tag == m.version
    && (m.channel == Stable <==> m.version.candidate.None?)
    && CanonicalOrder(m.withdrawals)
    && forall w :: w in m.withdrawals ==> ValidWithdrawal(w) && w.withdrawnAt <= m.issuedAt + ALLOWED_CLOCK_SKEW
  }

  /** The release comes after what is installed, which is itself new enough to install it. */
  predicate Upgrades(m: Manifest, installed: Version) {
    && ValidVersion(installed)
    && Precedes(Semantic(installed), Semantic(m.version))
    && !Precedes(Semantic(installed.(candidate := None)), Semantic(m.minimumLauncher.(candidate := None)))
  }

  /** The release of the stored sequence again, with the very same evidence. */
  predicate Repeats(previous: ChannelState, m: Manifest, r: Receipt) {
    && m.sequence == previous.sequence && m.version == previous.version && m.commit == previous.commit
    && r.manifestDigest == previous.manifestDigest && r.bundleDigest == previous.bundleDigest
    && r.trustEpoch == previous.trustEpoch && r.trustedRoot == previous.trustedRoot
    && m.withdrawals == previous.withdrawals
  }

  /** A later release of the channel: higher sequence and precedence, no older trust, every withdrawal kept. */
  predicate Follows(previous: ChannelState, m: Manifest, r: Receipt) {
    && m.sequence > previous.sequence && Precedes(Semantic(previous.version), Semantic(m.version))
    && (r.trustEpoch > previous.trustEpoch || (r.trustEpoch == previous.trustEpoch && r.trustedRoot == previous.trustedRoot))
    && forall w :: w in previous.withdrawals ==> w in m.withdrawals
  }

  lemma OwnWithdrawals(m: Manifest, r: Receipt)
    requires |r.manifestDigest| == DIGEST_BYTES && forall w :: w in m.withdrawals ==> ValidWithdrawal(w)
    ensures IsWithdrawn(m.withdrawals, m.sequence, r.manifestDigest, m.artifacts) <==> WithdrawsItself(m, r)
  {
    forall w | w in m.withdrawals && w.selector.ArtifactDigest?
      ensures (exists a :: a in m.artifacts && DigestEquals(w.selector.digest, a))
              <==> exists a :: a in m.artifacts && w.selector == ArtifactDigest(a)
    {
    }
  }

  /**
  Without a stored state a release is accepted exactly when verified evidence vouches for a manifest that
  publishes an upgrade of what is installed, in time, and does not withdraw itself.
   */
  lemma FirstAcceptance(anchor: Anchor, m: Manifest, r: Receipt, installed: Version, now: int)
    requires ValidAnchor(anchor)
    ensures Evaluate(anchor, m, r, installed, now, None).Some? <==>
      && Vouches(anchor, m, r) && Publishes(m) && Upgrades(m, installed)
      && Timely(m, r.integratedTimes[0], now) && !WithdrawsItself(m, r)
  {
    ComparisonIsPrecedence(m.version, installed);
    ComparisonIsPrecedence(installed.(candidate := None), m.minimumLauncher.(candidate := None));
    if |r.manifestDigest| == DIGEST_BYTES && forall w :: w in m.withdrawals ==> ValidWithdrawal(w) {
      OwnWithdrawals(m, r);
    }
    hide CompareTo, Precedes, IsWithdrawn, WithdrawsItself, CanonicalOrder, ValidWithdrawal;
  }

  /**
  Over a stored state of the channel it is accepted exactly when in addition it follows that state or
  repeats it, the clock has not gone back a day behind the last observation, and that observation was in time.
   */
  lemma LaterAcceptance(anchor: Anchor, m: Manifest, r: Receipt, installed: Version, now: int, previous: ChannelState)
    requires ValidAnchor(anchor) && ValidState(previous)
    ensures Evaluate(anchor, m, r, installed, now, Some(previous)).Some? <==>
      && Vouches(anchor, m, r) && Publishes(m) && Upgrades(m, installed)
      && Timely(m, r.integratedTimes[0], now) && !WithdrawsItself(m, r)
      && previous.channel == m.channel
      && previous.lastObserved <= now + MATERIAL_CLOCK_ROLLBACK && previous.lastObserved <= m.expiresAt + ALLOWED_CLOCK_SKEW
      && (Repeats(previous, m, r) || Follows(previous, m, r))
  {
    ComparisonIsPrecedence(m.version, installed);
    ComparisonIsPrecedence(m.version, previous.version);
    ComparisonIsPrecedence(installed.(candidate := None), m.minimumLauncher.(candidate := None));
    if |r.manifestDigest| == DIGEST_BYTES && forall w :: w in m.withdrawals ==> ValidWithdrawal(w) {
      OwnWithdrawals(m, r);
    }
    hide CompareTo, Precedes, IsWithdrawn, WithdrawsItself, CanonicalOrder, UniqueSelectors, ValidWithdrawal;
  }

  /** What a stored state must be: the identity of one release of the channel's kind, with every field in its range. */
  lemma StoredStateMeans(s: ChannelState)
    ensures ValidState(s) <==>
      && s.sequence >= 1 && s.trustEpoch >= 1 && s.tag == s.version && s.firstObserved <= s.lastObserved
      && |s.manifestDigest| == 32 && |s.bundleDigest| == 32 && |s.trustedRoot| == 32
      && 0 <= s.version.major < 0x8000_0000 && 0 <= s.version.minor < 0x8000_0000 && 0 <= s.version.patch < 0x8000_0000
      && (if s.channel == Stable then s.version.candidate.None?
          else s.version.candidate.Some? && 1 <= s.version.candidate.value < 65535)
      && Canonical(s.withdrawals)
  {
    hide CanonicalOrder, UniqueSelectors, ValidSelector;
  }

  /** What acceptance records: the release's own identity, and observation times that only move forward. */
  lemma AcceptanceRecords(anchor: Anchor, m: Manifest, r: Receipt, installed: Version, now: int, previous: Option<ChannelState>)
    requires Evaluate(anchor, m, r, installed, now, previous).Some?
    ensures var s := Evaluate(anchor, m, r, installed, now, previous).value;
      && s.channel == m.channel && s.sequence == m.sequence && s.version == m.version && s.tag == m.tag && s.commit == m.commit
      && s.manifestDigest == r.manifestDigest && s.bundleDigest == r.bundleDigest
      && s.trustEpoch == r.trustEpoch && s.trustedRoot == r.trustedRoot && s.withdrawals == m.withdrawals
      && s.lastObserved >= now && s.lastObserved >= r.integratedTimes[0]
      && (previous.Some? ==> s.lastObserved >= previous.value.lastObserved)
      && (s.lastObserved == now || s.lastObserved == r.integratedTimes[0]
          || (previous.Some? && s.lastObserved == previous.value.lastObserved))
      && (s.firstObserved == if previous.Some? && previous.value.sequence == m.sequence then previous.value.firstObserved
                             else s.lastObserved)
  {
    hide CompareTo, IsWithdrawn, CanonicalOrder, IdentityHolds, PreviousAllows;
  }

  // -------------------------------------------------------------- whole runs

  lemma AdvanceIsTransitive(a: ChannelState, b: ChannelState, c: ChannelState)
    requires ValidAdvance(a, b) && ValidAdvance(b, c)
    ensures ValidAdvance(a, c)
  {
    ComparisonIsTransitive(a.version, b.version, c.version);
    ComparisonIsTransitive(b.version, c.version, c.version);
    ComparisonIsTransitive(a.version, c.version, c.version);
    hide CompareTo;
  }

  /** The states a channel's store has held, oldest first. */
  predicate Chain(states: seq<ChannelState>) {
    forall i :: 0 < i < |states| ==> ValidAdvance(states[i - 1], states[i])
  }

  lemma {:induction false} ChainAdvances(states: seq<ChannelState>, i: nat, j: nat)
    requires Chain(states) && i < j < |states|
    ensures ValidAdvance(states[i], states[j])
    decreases j
  {
    assert ValidAdvance(states[j - 1], states[j]);
    if i < j - 1 {
      ChainAdvances(states, i, j - 1);
      AdvanceIsTransitive(states[i], states[j - 1], states[j]);
    }
  }

  /**
  Over any run no floor drops, no sequence is ever bound to other evidence, a higher sequence always
  means a version of higher precedence, and withdrawals only grow.
   */
  lemma NothingRollsBack(states: seq<ChannelState>, i: nat, j: nat)
    requires Chain(states) && i < j < |states|
    ensures var a, b := states[i], states[j];
      && a.sequence <= b.sequence && a.trustEpoch <= b.trustEpoch && a.lastObserved <= b.lastObserved
      && a.firstObserved <= b.firstObserved
      && (forall w :: w in a.withdrawals ==> w in b.withdrawals)
      && (a.sequence == b.sequence ==>
            a == b.(channel := a.channel, lastObserved := a.lastObserved, withdrawals := a.withdrawals))
      && (a.sequence < b.sequence ==> Precedes(Semantic(a.version), Semantic(b.version)))
  {
    ChainAdvances(states, i, j);
    ComparisonIsPrecedence(states[i].version, states[j].version);
    ComparisonIsTransitive(states[i].version, states[j].version, states[j].version);
    hide CompareTo, Precedes;
  }

  lemma {:induction false} FloorsHold(states: seq<ChannelState>, i: nat, j: nat)
    requires Chain(states) && i <= j < |states|
    ensures states[i].sequence <= states[j].sequence && states[i].lastObserved <= states[j].lastObserved
    ensures Contains(states[j].withdrawals, states[i].withdrawals)
    ensures CompareTo(states[j].version, states[i].version) >= 0
  {
    if i < j {
      ChainAdvances(states, i, j);
    }
  }

  /** A release below a stored sequence or version stays refused, whatever evidence, clock or installed version it comes with. */
  lemma SupersededStaysRejected(
    states: seq<ChannelState>, i: nat, j: nat, anchor: Anchor, m: Manifest, r: Receipt, installed: Version, now: int)
    requires Chain(states) && i <= j < |states|
    requires m.sequence < states[i].sequence || CompareTo(m.version, states[i].version) < 0
    ensures Evaluate(anchor, m, r, installed, now, Some(states[j])).None?
  {
    FloorsHold(states, i, j);
    ComparisonIsTransitive(m.version, states[i].version, states[j].version);
    ComparisonIsTransitive(states[i].version, states[j].version, states[i].version);
    ComparisonIsTransitive(m.version, states[j].version, m.version);
  }

  /** A manifest once seen expired stays refused, even when the local clock is set back. */
  lemma ExpiredStaysRejected(
    states: seq<ChannelState>, i: nat, j: nat, anchor: Anchor, m: Manifest, r: Receipt, installed: Version, now: int)
    requires Chain(states) && i <= j < |states|
    requires states[i].lastObserved > m.expiresAt + ALLOWED_CLOCK_SKEW
    ensures Evaluate(anchor, m, r, installed, now, Some(states[j])).None?
  {
    FloorsHold(states, i, j);
  }

  /** A release once withdrawn by a stored state stays refused, in whatever manifest it comes. */
  lemma WithdrawnStaysRejected(
    states: seq<ChannelState>, i: nat, j: nat, anchor: Anchor, m: Manifest, r: Receipt, installed: Version, now: int)
    requires Chain(states) && i <= j < |states|
    requires IsWithdrawn(states[i].withdrawals, m.sequence, r.manifestDigest, m.artifacts)
    ensures Evaluate(anchor, m, r, installed, now, Some(states[j])).None?
  {
    FloorsHold(states, i, j);
    if Contains(m.withdrawals, states[j].withdrawals) {
      WithdrawalCarries(states[i].withdrawals, m.withdrawals, m.sequence, r.manifestDigest, m.artifacts);
    }
  }

  lemma WithdrawalCarries(some: seq<Withdrawal>, ws: seq<Withdrawal>, sequence: int, digest: Bytes, artifacts: seq<Bytes>)
    requires Contains(ws, some) && IsWithdrawn(some, sequence, digest, artifacts)
    ensures IsWithdrawn(ws, sequence, digest, artifacts)
  {
  }
}
