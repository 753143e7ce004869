/** Delivery provenance: evidence slots that fill once, and the flags derived from them. */
module Provenance {
  import opened Common
  import opened Text

  const MAX_EVIDENCE_REFERENCE_BYTES := 16 * 1024
  const MAX_INTEGRATION_INPUTS := 256
  const MAX_INTEGRATION_ID_BYTES := 1024

  /* ---- evidence ---- */

  datatype Review = Review(commit: string, reviewer: string, reference: string, recordedAt: nat)

  datatype Environment = Source | PackagedGuiE2e(artifactId: string, sourceCommit: string, installationTarget: string)

  datatype AcceptanceTest = AcceptanceTest(commit: string, runner: string, reference: string,
                                           environment: Environment, recordedAt: nat)

  datatype Input = Input(laneId: string, agentSessionId: string, sourceBaseline: string, resultingCommit: string)

  datatype IntegrationManifest = IntegrationManifest(owner: string, inputs: seq<Input>)

  datatype Integration = Integration(
    sourceCommit: string, canonicalBaseline: string, canonicalCommit: string, reference: string, recordedAt: nat,
    manifest: Option<IntegrationManifest>)

  datatype SignatureStatus = Unsigned | SignedUnverified | Verified

  datatype ArtifactManifest = ArtifactManifest(
    branch: string, sourceCommit: string, gitTree: string, version: string, installerSha256: string, builtAt: nat,
    signature: SignatureStatus)

  datatype Artifact = Artifact(
    artifactId: string, sourceBaseline: string, reference: string, recordedAt: nat, manifest: Option<ArtifactManifest>)

  datatype Installation = Installation(artifactId: string, target: string, reference: string, recordedAt: nat)

  datatype VerifierKind = Human | AiAgent

  datatype LiveVerification = LiveVerification(
    artifactId: string, target: string, verifier: string, kind: VerifierKind, reference: string, recordedAt: nat)

  datatype Record = Record(
    sourceBaseline: string,
    requiresGui: bool,
    commit: Option<string>,
    review: Option<Review>,
    test: Option<AcceptanceTest>,
    integration: Option<Integration>,
    artifact: Option<Artifact>,
    installation: Option<Installation>,
    live: Option<LiveVerification>)

  function New(sourceBaseline: string, requiresGui: bool): Record {
    Record(sourceBaseline, requiresGui, None, None, None, None, None, None, None)
  }

  /* ---- fields ---- */

  // str::len() counts bytes of UTF-8.
  function Utf8Length(s: string): nat {
    if s == "" then 0
    else
      var c := s[0] as int;
      (if c < 0x80 then 1 else if c < 0x800 then 2 else if c < 0x1_0000 then 3 else 4) + Utf8Length(s[1..])
  }

  predicate IsIdentifier(s: string) {
    !IsBlank(s) && Utf8Length(s) <= MAX_INTEGRATION_ID_BYTES
  }

  predicate IsReference(s: string) {
    !IsBlank(s) && Utf8Length(s) <= MAX_EVIDENCE_REFERENCE_BYTES
  }

  predicate IsHex(s: string) {
    forall i | 0 <= i < |s| :: '0' <= s[i] <= '9' || 'a' <= s[i] <= 'f' || 'A' <= s[i] <= 'F'
  }

  // validate_commit and validate_git_object
  predicate IsCommit(s: string) {
    |s| in {40, 64} && IsHex(s)
  }

  predicate IsSha256(s: string) {
    |s| == 64 && IsHex(s)
  }

  /* ---- manifests ---- */

  predicate IsInput(i: Input) {
    IsIdentifier(i.laneId) && IsIdentifier(i.agentSessionId) && IsCommit(i.sourceBaseline)
      && IsCommit(i.resultingCommit)
  }

  // At most 256 inputs of distinct lanes and distinct agents, one of them the commit.
  predicate ManifestFits(m: IntegrationManifest, sourceCommit: string) {
    && IsIdentifier(m.owner) && 0 < |m.inputs| <= MAX_INTEGRATION_INPUTS
    && (forall i | i in m.inputs :: IsInput(i))
    && (forall i, j | 0 <= i < j < |m.inputs| ::
          m.inputs[i].laneId != m.inputs[j].laneId && m.inputs[i].agentSessionId != m.inputs[j].agentSessionId)
    && (exists i | i in m.inputs :: i.resultingCommit == sourceCommit)
  }

  // IntegrationManifest::validate_for_source_commit
  method ValidateForSourceCommit(m: IntegrationManifest, sourceCommit: string) returns (ok: bool)
    ensures ok <==> ManifestFits(m, sourceCommit)
  {
    if !IsIdentifier(m.owner) || m.inputs == [] || |m.inputs| > MAX_INTEGRATION_INPUTS {
      return false;
    }
    var lanes, agents: set<string>, contains := {}, {}, false;
    var n := 0;
    while n < |m.inputs|
      invariant 0 <= n <= |m.inputs|
      invariant lanes == set i | 0 <= i < n :: m.inputs[i].laneId
      invariant agents == set i | 0 <= i < n :: m.inputs[i].agentSessionId
      invariant contains <==> exists i | 0 <= i < n :: m.inputs[i].resultingCommit == sourceCommit
      invariant forall i | 0 <= i < n :: IsInput(m.inputs[i])
      invariant forall i, j | 0 <= i < j < n ::
                  m.inputs[i].laneId != m.inputs[j].laneId && m.inputs[i].agentSessionId != m.inputs[j].agentSessionId
    {
      var input := m.inputs[n];
      if !IsInput(input) {
        return false;
      }
      if input.laneId in lanes || input.agentSessionId in agents {
        return false;
      }
      lanes, agents := lanes + {input.laneId}, agents + {input.agentSessionId};
      contains := contains || input.resultingCommit == sourceCommit;
      n := n + 1;
    }
    ok := contains;
  }

  // ArtifactEvidence::validate_complete_manifest
  predicate ArtifactManifestFits(a: Artifact, i: Integration) {
    && a.manifest.Some?
    && var m := a.manifest.value;
    && IsCommit(a.sourceBaseline)
    && IsIdentifier(m.branch) && m.branch == i.canonicalBaseline
    && IsCommit(m.sourceCommit)
    && a.sourceBaseline == i.canonicalCommit && m.sourceCommit == i.canonicalCommit
    && IsCommit(m.gitTree) && IsIdentifier(m.version) && IsSha256(m.installerSha256)
    && m.builtAt != 0 && i.recordedAt <= m.builtAt <= a.recordedAt
  }

  /* ---- states: the flags ---- */

  datatype States = States(
    implemented: bool, reviewed: bool, tested: bool, complete: bool,
    integrated: bool, packaged: bool, installed: bool, liveVerified: bool)

  predicate EnvironmentMatches(p: Record, t: AcceptanceTest, commit: string) {
    match t.environment
    case Source => !p.requiresGui
    case PackagedGuiE2e(artifactId, sourceCommit, target) =>
      !IsBlank(artifactId) && sourceCommit == commit && !IsBlank(target)
  }

  function Max(a: nat, b: nat): nat {
    if a < b then b else a
  }

  function StatesOf(p: Record): States {
    var implemented := IsCommit(p.sourceBaseline) && p.commit.Some? && IsCommit(p.commit.value);
    var reviewed := p.commit.Some? && p.review.Some? && implemented
                    && p.review.value.commit == p.commit.value
                    && !IsBlank(p.review.value.reviewer) && IsReference(p.review.value.reference);
    var tested := p.commit.Some? && p.test.Some? && implemented
                  && p.test.value.commit == p.commit.value
                  && !IsBlank(p.test.value.runner) && IsReference(p.test.value.reference)
                  && EnvironmentMatches(p, p.test.value, p.commit.value);
    var complete := reviewed && tested;
    var completedAt := if p.review.Some? && p.test.Some? then Max(p.review.value.recordedAt,
                                                                  p.test.value.recordedAt) else 0;
    var integrated := p.commit.Some? && p.integration.Some? && complete
                      && var i := p.integration.value;
                         && i.sourceCommit == p.commit.value
                         && !IsBlank(i.canonicalBaseline) && IsCommit(i.canonicalCommit) && IsReference(i.reference)
                         && i.manifest.Some? && ManifestFits(i.manifest.value, i.sourceCommit)
                         && i.recordedAt >= completedAt;
    var packaged := p.integration.Some? && p.artifact.Some? && integrated
                    && var a := p.artifact.value;
                       && !IsBlank(a.artifactId)
                       && a.sourceBaseline == p.integration.value.canonicalCommit
                       && IsReference(a.reference)
                       && ArtifactManifestFits(a, p.integration.value)
                       && a.recordedAt >= p.integration.value.recordedAt;
    var installed := p.artifact.Some? && p.installation.Some? && packaged
                     && var x := p.installation.value;
                        && x.artifactId == p.artifact.value.artifactId
                        && !IsBlank(x.target) && IsReference(x.reference)
                        && x.recordedAt >= p.artifact.value.recordedAt;
    var liveVerified := p.installation.Some? && p.live.Some? && installed
                        && var v := p.live.value;
                           && v.artifactId == p.installation.value.artifactId && v.target == p.installation.value.target
                           && !IsBlank(v.verifier) && IsReference(v.reference)
                           && v.recordedAt >= p.installation.value.recordedAt;
    States(implemented, reviewed, tested, complete, integrated, packaged, installed, liveVerified)
  }

  /* ---- validate: one check per slot ---- */

  predicate CommitValidates(p: Record) {
    p.commit.Some? ==> IsCommit(p.commit.value)
  }

  predicate ReviewValidates(p: Record) {
    p.review.Some? ==>
      var r := p.review.value;
      && p.commit.Some?
      && IsCommit(r.commit) && r.commit == p.commit.value
      && !IsBlank(r.reviewer) && IsReference(r.reference)
  }

  predicate TestValidates(p: Record) {
    p.test.Some? ==>
      var t := p.test.value;
      && p.commit.Some?
      && IsCommit(t.commit) && t.commit == p.commit.value
      && !IsBlank(t.runner) && IsReference(t.reference)
      && match t.environment
         case Source => !p.requiresGui
         case PackagedGuiE2e(artifactId, sourceCommit, target) =>
           !IsBlank(artifactId) && IsCommit(sourceCommit) && sourceCommit == p.commit.value && !IsBlank(target)
  }

  function ReviewedAt(p: Record): nat {
    if p.review.Some? then p.review.value.recordedAt else 0
  }

  function TestedAt(p: Record): nat {
    if p.test.Some? then p.test.value.recordedAt else 0
  }

  predicate IntegrationValidates(p: Record) {
    p.integration.Some? ==>
      var i := p.integration.value;
      && p.commit.Some?
      && StatesOf(p).complete
      && IsCommit(i.sourceCommit) && i.sourceCommit == p.commit.value
      && !IsBlank(i.canonicalBaseline) && IsCommit(i.canonicalCommit) && IsReference(i.reference)
      && (i.manifest.Some? ==> ManifestFits(i.manifest.value, i.sourceCommit))
      && i.recordedAt >= Max(ReviewedAt(p), TestedAt(p))
  }

  predicate ArtifactValidates(p: Record) {
    p.artifact.Some? ==>
      var a := p.artifact.value;
      && p.integration.Some?
      && !IsBlank(a.artifactId)
      && IsCommit(a.sourceBaseline) && a.sourceBaseline == p.integration.value.canonicalCommit
      && IsReference(a.reference)
      && (a.manifest.Some? ==> ArtifactManifestFits(a, p.integration.value))
      && a.recordedAt >= p.integration.value.recordedAt
  }

  predicate InstallationValidates(p: Record) {
    p.installation.Some? ==>
      var x := p.installation.value;
      && p.artifact.Some?
      && x.artifactId == p.artifact.value.artifactId
      && !IsBlank(x.target) && IsReference(x.reference)
      && x.recordedAt >= p.artifact.value.recordedAt
  }

  predicate LiveValidates(p: Record) {
    p.live.Some? ==>
      var v := p.live.value;
      && p.installation.Some?
      && v.artifactId == p.installation.value.artifactId && v.target == p.installation.value.target
      && !IsBlank(v.verifier) && IsReference(v.reference)
      && v.recordedAt >= p.installation.value.recordedAt
  }

  predicate Validates(p: Record) {
    && IsCommit(p.sourceBaseline)
    && CommitValidates(p) && ReviewValidates(p) && TestValidates(p) && IntegrationValidates(p)
    && ArtifactValidates(p) && InstallationValidates(p) && LiveValidates(p)
  }

  /* ---- the two definitions agree ---- */

  predicate FlagsMatchSlots(p: Record) {
    StatesOf(p) == States(p.commit.Some?, p.review.Some?, p.test.Some?, p.review.Some? && p.test.Some?,
                          p.integration.Some?, p.artifact.Some?, p.installation.Some?, p.live.Some?)
  }

  // Records from before manifests were required lack them.
  predicate Manifested(p: Record) {
    && (p.integration.Some? ==> p.integration.value.manifest.Some?)
    && (p.artifact.Some? ==> p.artifact.value.manifest.Some?)
  }

  // A record validates and carries its manifests exactly if its baseline is a commit
  // and each flag says whether its slot is filled.
  lemma DefinitionsAgree(p: Record)
    ensures Validates(p) && Manifested(p) <==> IsCommit(p.sourceBaseline) && FlagsMatchSlots(p)
  {
  }

  // Whatever a validated record holds, with manifests or without, is a chain from its
  // commit on: nothing is missing before a filled slot, and each slot fits the one before.
  lemma ValidatedIsLinked(p: Record)
    requires Validates(p)
    ensures p.review.Some? ==> p.commit == Some(p.review.value.commit)
    ensures p.test.Some? ==>
              && p.commit == Some(p.test.value.commit)
              && (if p.test.value.environment.Source? then !p.requiresGui
                  else p.commit == Some(p.test.value.environment.sourceCommit))
    ensures p.integration.Some? ==>
              && p.review.Some? && p.test.Some? && p.commit == Some(p.integration.value.sourceCommit)
              && p.review.value.recordedAt <= p.integration.value.recordedAt
              && p.test.value.recordedAt <= p.integration.value.recordedAt
    ensures p.artifact.Some? ==>
              && p.integration.Some? && p.artifact.value.sourceBaseline == p.integration.value.canonicalCommit
              && p.integration.value.recordedAt <= p.artifact.value.recordedAt
    ensures p.installation.Some? ==>
              && p.artifact.Some? && p.installation.value.artifactId == p.artifact.value.artifactId
              && p.artifact.value.recordedAt <= p.installation.value.recordedAt
    ensures p.live.Some? ==>
              && p.installation.Some? && p.live.value.artifactId == p.installation.value.artifactId
              && p.live.value.target == p.installation.value.target
              && p.installation.value.recordedAt <= p.live.value.recordedAt
  {
  }

  // Without manifests the flags may lag behind the slots, but never run ahead.
  lemma FlagsOfValidated(p: Record)
    requires Validates(p)
    ensures FlagsMatchSlots(p) <==> Manifested(p)
    ensures var f := StatesOf(p);
            && f.implemented == p.commit.Some? && f.reviewed == p.review.Some? && f.tested == p.test.Some?
            && f.integrated == (p.integration.Some? && p.integration.value.manifest.Some?)
            && f.packaged == (f.integrated && p.artifact.Some? && p.artifact.value.manifest.Some?)
            && f.installed == (f.packaged && p.installation.Some?) && f.liveVerified == (f.installed && p.live.Some?)
  {
    DefinitionsAgree(p);
  }

  /* ---- recording ---- */

  datatype Error = MissingManifest | ManifestInvalid | NotIntegrated | Immutable | Invalid

  datatype Result<+T> = Ok(value: T) | Err(error: Error) {
    predicate IsFailure() { Err? }

    function PropagateFailure<U>(): Result<U>
      requires Err?
    {
      Err(error)
    }

    function Extract(): T
      requires Ok?
    {
      value
    }
  }

  datatype Evidence =
    | OfImplementation(commit: string)
    | OfReview(review: Review)
    | OfTest(test: AcceptanceTest)
    | OfIntegration(integration: Integration)
    | OfArtifact(artifact: Artifact)
    | OfInstallation(installation: Installation)
    | OfLiveVerification(live: LiveVerification)

  // The record with one more slot filled, whatever it held.
  function Filled(p: Record, e: Evidence): Record {
    match e
    case OfImplementation(x) => p.(commit := Some(x))
    case OfReview(x) => p.(review := Some(x))
    case OfTest(x) => p.(test := Some(x))
    case OfIntegration(x) => p.(integration := Some(x))
    case OfArtifact(x) => p.(artifact := Some(x))
    case OfInstallation(x) => p.(installation := Some(x))
    case OfLiveVerification(x) => p.(live := Some(x))
  }

  // The slot is empty or holds this very evidence.
  predicate Fits(p: Record, e: Evidence) {
    match e
    case OfImplementation(x) => p.commit in {None, Some(x)}
    case OfReview(x) => p.review in {None, Some(x)}
    case OfTest(x) => p.test in {None, Some(x)}
    case OfIntegration(x) => p.integration in {None, Some(x)}
    case OfArtifact(x) => p.artifact in {None, Some(x)}
    case OfInstallation(x) => p.installation in {None, Some(x)}
    case OfLiveVerification(x) => p.live in {None, Some(x)}
  }

  // New integration evidence and new artifact evidence need their manifests.
  predicate Documented(p: Record, e: Evidence) {
    match e
    case OfIntegration(x) => x.manifest.Some? && ManifestFits(x.manifest.value, x.sourceCommit)
    case OfArtifact(x) => StatesOf(p).integrated && p.integration.Some? && ArtifactManifestFits(x, p.integration.value)
    case _ => true
  }

  // When evidence is accepted.
  predicate Accepts(p: Record, e: Evidence) {
    Documented(p, e) && Fits(p, e) && Validates(Filled(p, e))
  }

  // Evidence is either accepted and fills its slot, or changes nothing.
  predicate Answer(before: Record, e: Evidence, r: Result<()>, after: Record) {
    if Accepts(before, e) then r.Ok? && after == Filled(before, e)
    else r.Err? && after == before && Explains(r.error, before, e)
  }

  // Why evidence is refused.
  predicate Explains(error: Error, p: Record, e: Evidence) {
    match error
    case MissingManifest => e.OfIntegration? && e.integration.manifest.None?
    case NotIntegrated => e.OfArtifact? && !StatesOf(p).integrated
    case ManifestInvalid =>
      || (e.OfIntegration? && e.integration.manifest.Some? && !Documented(p, e))
      || (e.OfArtifact? && StatesOf(p).integrated && !Documented(p, e))
    case Immutable => Documented(p, e) && !Fits(p, e)
    case Invalid => Documented(p, e) && Fits(p, e) && !Validates(Filled(p, e))
  }

  // Every refusal has one reason.
  lemma OneReason(p: Record, e: Evidence, a: Error, b: Error)
    requires Explains(a, p, e) && Explains(b, p, e)
    ensures a == b && !Accepts(p, e)
  {
  }

  // set_once
  function SetOnce<T(==)>(slot: Option<T>, value: T): Result<Option<T>> {
    match slot
    case Some(existing) => if existing == value then Ok(slot) else Err(Immutable)
    case None => Ok(Some(value))
  }

  class DeliveryProvenance {
    var record: Record

    constructor (sourceBaseline: string, requiresGui: bool)
      ensures record == New(sourceBaseline, requiresGui)
    {
      record := New(sourceBaseline, requiresGui);
    }

    method Commit(next: Record) returns (r: Result<()>)
      modifies this
      ensures if Validates(next) then r.Ok? && record == next else r == Err(Invalid) && record == old(record)
    {
      if !Validates(next) {
        return Err(Invalid);
      }
      record := next;
      r := Ok(());
    }

    method RecordImplementation(commit: string) returns (r: Result<()>)
      modifies this
      ensures Answer(old(record), OfImplementation(commit), r, record)
    {
      var slot :- SetOnce(record.commit, commit);
      r := Commit(record.(commit := slot));
    }

    method RecordReview(evidence: Review) returns (r: Result<()>)
      modifies this
      ensures Answer(old(record), OfReview(evidence), r, record)
    {
      var slot :- SetOnce(record.review, evidence);
      r := Commit(record.(review := slot));
    }

    method RecordAcceptanceTest(evidence: AcceptanceTest) returns (r: Result<()>)
      modifies this
      ensures Answer(old(record), OfTest(evidence), r, record)
    {
      var slot :- SetOnce(record.test, evidence);
      r := Commit(record.(test := slot));
    }

    method RecordIntegration(evidence: Integration) returns (r: Result<()>)
      modifies this
      ensures Answer(old(record), OfIntegration(evidence), r, record)
    {
      if evidence.manifest.None? {
        return Err(MissingManifest);
      }
      var fits := ValidateForSourceCommit(evidence.manifest.value, evidence.sourceCommit);
      if !fits {
        return Err(ManifestInvalid);
      }
      var slot :- SetOnce(record.integration, evidence);
      r := Commit(record.(integration := slot));
    }

    method RecordArtifact(evidence: Artifact) returns (r: Result<()>)
      modifies this
      ensures Answer(old(record), OfArtifact(evidence), r, record)
    {
      if !StatesOf(record).integrated {
        return Err(NotIntegrated);
      }
      if !ArtifactManifestFits(evidence, record.integration.value) {
        return Err(ManifestInvalid);
      }
      var slot :- SetOnce(record.artifact, evidence);
      r := Commit(record.(artifact := slot));
    }

    method RecordInstallation(evidence: Installation) returns (r: Result<()>)
      modifies this
      ensures Answer(old(record), OfInstallation(evidence), r, record)
    {
      var slot :- SetOnce(record.installation, evidence);
      r := Commit(record.(installation := slot));
    }

    method RecordLiveVerification(evidence: LiveVerification) returns (r: Result<()>)
      modifies this
      ensures Answer(old(record), OfLiveVerification(evidence), r, record)
    {
      var slot :- SetOnce(record.live, evidence);
      r := Commit(record.(live := slot));
    }

    method RecordEvidence(e: Evidence) returns (r: Result<()>)
      modifies this
      ensures Answer(old(record), e, r, record)
    {
      match e
      case OfImplementation(x) => r := RecordImplementation(x);
      case OfReview(x) => r := RecordReview(x);
      case OfTest(x) => r := RecordAcceptanceTest(x);
      case OfIntegration(x) => r := RecordIntegration(x);
      case OfArtifact(x) => r := RecordArtifact(x);
      case OfInstallation(x) => r := RecordInstallation(x);
      case OfLiveVerification(x) => r := RecordLiveVerification(x);
    }
  }

  /* ---- runs ---- */

  predicate SlotGrows<T(==)>(a: Option<T>, b: Option<T>) {
    a.Some? ==> b == a
  }

  // Filled slots stay as they are.
  predicate Grows(a: Record, b: Record) {
    && a.sourceBaseline == b.sourceBaseline && a.requiresGui == b.requiresGui
    && SlotGrows(a.commit, b.commit) && SlotGrows(a.review, b.review) && SlotGrows(a.test, b.test)
    && SlotGrows(a.integration, b.integration) && SlotGrows(a.artifact, b.artifact)
    && SlotGrows(a.installation, b.installation) && SlotGrows(a.live, b.live)
  }

  // No flag of `a` is missing from `b`.
  predicate FlagsGrow(a: States, b: States) {
    && (a.implemented ==> b.implemented) && (a.reviewed ==> b.reviewed) && (a.tested ==> b.tested)
    && (a.complete ==> b.complete) && (a.integrated ==> b.integrated) && (a.packaged ==> b.packaged)
    && (a.installed ==> b.installed) && (a.liveVerified ==> b.liveVerified)
  }

  // What every reachable record is: untouched, or valid with all its manifests.
  predicate Reachable(p: Record) {
    p == New(p.sourceBaseline, p.requiresGui) || (Validates(p) && Manifested(p))
  }

  lemma AcceptedStaysReachable(p: Record, e: Evidence)
    requires Reachable(p) && Accepts(p, e)
    ensures Reachable(Filled(p, e)) && Grows(p, Filled(p, e))
  {
  }

  lemma ReachableFlags(p: Record)
    requires Reachable(p)
    ensures FlagsMatchSlots(p)
  {
    DefinitionsAgree(p);
  }

  lemma GrowingFlags(a: Record, b: Record)
    requires Reachable(a) && Reachable(b) && Grows(a, b)
    ensures FlagsGrow(StatesOf(a), StatesOf(b))
  {
    ReachableFlags(a);
    ReachableFlags(b);
  }

  // Evidence that was accepted once is accepted ever after, and then changes nothing.
  lemma ReplayChangesNothing(p: Record, e: Evidence, later: Record)
    requires Reachable(p) && Accepts(p, e) && Reachable(later) && Grows(Filled(p, e), later)
    ensures Accepts(later, e) && Filled(later, e) == later
  {
    FilledStaysFilled(p, e, later);
    FilledIsValid(p, e, later);
    DocumentedStays(p, e, later);
  }

  lemma FilledStaysFilled(p: Record, e: Evidence, later: Record)
    requires Grows(Filled(p, e), later)
    ensures Fits(later, e) && Filled(later, e) == later
  {
  }

  lemma FilledIsValid(p: Record, e: Evidence, later: Record)
    requires Reachable(later) && Grows(Filled(p, e), later)
    ensures Validates(later)
  {
  }

  lemma DocumentedStays(p: Record, e: Evidence, later: Record)
    requires Documented(p, e) && Grows(Filled(p, e), later)
    ensures Documented(later, e)
  {
  }

  lemma GrowsOnward(a: Record, b: Record, c: Record)
    requires Grows(a, b) && Grows(b, c)
    ensures Grows(a, c)
  {
  }

  // Over any run from a new record: the flags always say which slots are filled, no
  // slot changes once filled, no flag falls back, and refused evidence leaves no trace.
  method Deliver(sourceBaseline: string, requiresGui: bool, calls: seq<Evidence>)
    returns (trace: seq<Record>, results: seq<Result<()>>)
    ensures |results| == |calls| && |trace| == |calls| + 1 && trace[0] == New(sourceBaseline, requiresGui)
    ensures forall i | 0 <= i < |trace| :: FlagsMatchSlots(trace[i])
    ensures forall i, j | 0 <= i <= j < |trace| ::
              Grows(trace[i], trace[j]) && FlagsGrow(StatesOf(trace[i]), StatesOf(trace[j]))
    ensures forall i | 0 <= i < |calls| :: Answer(trace[i], calls[i], results[i], trace[i + 1])
    ensures forall i, j | 0 <= i < j < |calls| && calls[i] == calls[j] && results[i].Ok? ::
              results[j].Ok? && trace[j + 1] == trace[j]
  {
    trace, results := Trace(sourceBaseline, requiresGui, calls);
    forall i, j | 0 <= i <= j < |trace|
      ensures FlagsMatchSlots(trace[i]) && FlagsGrow(StatesOf(trace[i]), StatesOf(trace[j]))
    {
      ReachableFlags(trace[i]);
      GrowingFlags(trace[i], trace[j]);
    }
    forall i, j | 0 <= i < j < |calls| && calls[i] == calls[j] && results[i].Ok?
      ensures results[j].Ok? && trace[j + 1] == trace[j]
    {
      assert Answer(trace[i], calls[i], results[i], trace[i + 1]);
      assert Answer(trace[j], calls[j], results[j], trace[j + 1]);
      ReplayChangesNothing(trace[i], calls[i], trace[j]);
    }
  }

  method Trace(sourceBaseline: string, requiresGui: bool, calls: seq<Evidence>)
    returns (trace: seq<Record>, results: seq<Result<()>>)
    ensures |results| == |calls| && |trace| == |calls| + 1 && trace[0] == New(sourceBaseline, requiresGui)
    ensures forall i | 0 <= i < |trace| :: Reachable(trace[i])
    ensures forall i, j | 0 <= i <= j < |trace| :: Grows(trace[i], trace[j])
    ensures forall i | 0 <= i < |calls| :: Answer(trace[i], calls[i], results[i], trace[i + 1])
  {
    var d := new DeliveryProvenance(sourceBaseline, requiresGui);
    trace, results := [d.record], [];
    for n := 0 to |calls|
      invariant |results| == n && |trace| == n + 1 && trace[0] == New(sourceBaseline, requiresGui)
      invariant d.record == trace[n] && fresh(d)
      invariant forall i | 0 <= i <= n :: Reachable(trace[i])
      invariant forall i, j | 0 <= i <= j <= n :: Grows(trace[i], trace[j])
      invariant forall i | 0 <= i < n :: Answer(trace[i], calls[i], results[i], trace[i + 1])
    {
      var r := d.RecordEvidence(calls[n]);
      assert Answer(trace[n], calls[n], r, d.record);
      AnswerStaysReachable(trace[n], calls[n], r, d.record);
      forall i | 0 <= i <= n
        ensures Grows(trace[i], d.record)
      {
        GrowsOnward(trace[i], trace[n], d.record);
      }
      trace, results := trace + [d.record], results + [r];
    }
  }

  lemma AnswerStaysReachable(p: Record, e: Evidence, r: Result<()>, after: Record)
    requires Reachable(p) && Answer(p, e, r, after)
    ensures Reachable(after) && Grows(p, after)
  {
    if Accepts(p, e) {
      AcceptedStaysReachable(p, e);
    }
  }

  /* ---- what live verification implies ---- */

  // From the reviewed and tested commit to the verified installation, nothing is
  // missing, nothing is swapped, and time does not run backward.
  predicate WholeChain(p: Record) {
    && p.commit.Some? && p.review.Some? && p.test.Some? && p.integration.Some? && p.artifact.Some?
    && p.installation.Some? && p.live.Some?
    && p.integration.value.manifest.Some? && p.artifact.value.manifest.Some?
    && var commit, review, test, i, a, x, v := p.commit.value, p.review.value, p.test.value, p.integration.value,
                                               p.artifact.value, p.installation.value, p.live.value;
       var inputs, build := i.manifest.value.inputs, a.manifest.value;
       && review.commit == test.commit == i.sourceCommit == commit
       && (if test.environment.Source? then !p.requiresGui else test.environment.sourceCommit == commit)
       && 0 < |inputs| <= 256 && (exists k | 0 <= k < |inputs| :: inputs[k].resultingCommit == commit)
       && (forall k, l | 0 <= k < l < |inputs| ::
             inputs[k].laneId != inputs[l].laneId && inputs[k].agentSessionId != inputs[l].agentSessionId)
       && build.branch == i.canonicalBaseline
       && a.sourceBaseline == build.sourceCommit == i.canonicalCommit
       && v.artifactId == x.artifactId == a.artifactId && v.target == x.target
       && review.recordedAt <= i.recordedAt && test.recordedAt <= i.recordedAt
       && 0 < build.builtAt && i.recordedAt <= build.builtAt <= a.recordedAt <= x.recordedAt <= v.recordedAt
  }

  // Every field of such a chain has the form it needs.
  predicate WellFormed(p: Record)
    requires WholeChain(p)
  {
    var review, test, i, a, x, v := p.review.value, p.test.value, p.integration.value, p.artifact.value,
                                    p.installation.value, p.live.value;
    var m, build := i.manifest.value, a.manifest.value;
    && (forall hash | hash in {p.sourceBaseline, p.commit.value, i.canonicalCommit, build.gitTree} :: IsCommit(hash))
    && IsSha256(build.installerSha256)
    && (forall text | text in {review.reference, test.reference, i.reference, a.reference, x.reference, v.reference} ::
          IsReference(text))
    && (forall name | name in {review.reviewer, test.runner, v.verifier, a.artifactId, x.target} :: !IsBlank(name))
    && (test.environment.PackagedGuiE2e? ==>
          !IsBlank(test.environment.artifactId) && !IsBlank(test.environment.installationTarget))
    && IsIdentifier(m.owner) && IsIdentifier(build.branch) && IsIdentifier(build.version)
    && (forall k | 0 <= k < |m.inputs| ::
          && IsIdentifier(m.inputs[k].laneId) && IsIdentifier(m.inputs[k].agentSessionId)
          && IsCommit(m.inputs[k].sourceBaseline) && IsCommit(m.inputs[k].resultingCommit))
  }

  lemma LiveVerifiedIsChain(p: Record)
    requires StatesOf(p).liveVerified
    ensures WholeChain(p) && WellFormed(p)
  {
    var i := p.integration.value;
    ManifestFitsIff(i.manifest.value, i.sourceCommit);
  }

  lemma ChainIsLiveVerified(p: Record)
    requires WholeChain(p) && WellFormed(p)
    ensures StatesOf(p).liveVerified
  {
    var i := p.integration.value;
    ManifestFitsIff(i.manifest.value, i.sourceCommit);
  }

  // Live verification says exactly that.
  lemma LiveVerifiedMeansWholeChain(p: Record)
    ensures StatesOf(p).liveVerified <==> WholeChain(p) && WellFormed(p)
  {
    if StatesOf(p).liveVerified {
      LiveVerifiedIsChain(p);
    }
    if WholeChain(p) && WellFormed(p) {
      ChainIsLiveVerified(p);
    }
  }

  lemma ManifestFitsIff(m: IntegrationManifest, commit: string)
    ensures ManifestFits(m, commit) <==>
              && IsIdentifier(m.owner) && 0 < |m.inputs| <= 256
              && (forall k | 0 <= k < |m.inputs| ::
                    && IsIdentifier(m.inputs[k].laneId) && IsIdentifier(m.inputs[k].agentSessionId)
                    && IsCommit(m.inputs[k].sourceBaseline) && IsCommit(m.inputs[k].resultingCommit))
              && (forall k, l | 0 <= k < l < |m.inputs| ::
                    && m.inputs[k].laneId != m.inputs[l].laneId
                    && m.inputs[k].agentSessionId != m.inputs[l].agentSessionId)
              && (exists k | 0 <= k < |m.inputs| :: m.inputs[k].resultingCommit == commit)
  {
    assert forall k | 0 <= k < |m.inputs| :: m.inputs[k] in m.inputs;
  }

  // What a reference and an identifier are: text that is not blank and not too long.
  lemma ReferenceIff(s: string)
    ensures IsReference(s) <==> Utf8Length(s) <= 16384 && exists i | 0 <= i < |s| :: !IsWhitespace(s[i])
    ensures IsIdentifier(s) <==> IsReference(s) && Utf8Length(s) <= 1024
  {
  }

  // Lengths count bytes, one to four of them for a character.
  lemma {:induction false} Utf8Bounds(s: string)
    ensures |s| <= Utf8Length(s) <= 4 * |s|
    ensures (forall i | 0 <= i < |s| :: s[i] < '\U{80}') <==> Utf8Length(s) == |s|
  {
    if s != "" {
      Utf8Bounds(s[1..]);
      assert forall i | 0 < i < |s| :: s[i] == s[1..][i - 1];
    }
  }

  lemma Utf8Examples()
    ensures Utf8Length("\U{7F}") == 1 && Utf8Length("\U{80}") == 2 && Utf8Length("\U{7FF}") == 2
    ensures Utf8Length("\U{800}") == 3 && Utf8Length("\U{FFFF}") == 3 && Utf8Length("\U{10000}") == 4
  {
  }

  // What a hash is: 40 or 64 hexadecimal digits.
  lemma CommitIff(s: string)
    ensures IsCommit(s) <==> (|s| == 40 || |s| == 64) && forall c | c in s :: c in "0123456789abcdefABCDEF"
    ensures IsSha256(s) <==> IsCommit(s) && |s| == 64
  {
    assert forall i | 0 <= i < |s| :: s[i] in s;
    forall c: char
      ensures c in "0123456789abcdefABCDEF" <==> '0' <= c <= '9' || 'a' <= c <= 'f' || 'A' <= c <= 'F'
    {
      HexDigits(c);
    }
  }

  lemma HexDigits(c: char)
    ensures c in "0123456789abcdefABCDEF" <==> '0' <= c <= '9' || 'a' <= c <= 'f' || 'A' <= c <= 'F'
  {
    var digits := "0123456789abcdefABCDEF";
    assert c in digits <==> exists i | 0 <= i < 22 :: digits[i] == c;
    assert '0' <= c <= '9' ==> digits[(c - '0') as int] == c;
    assert 'a' <= c <= 'f' ==> digits[10 + (c - 'a') as int] == c;
    assert 'A' <= c <= 'F' ==> digits[16 + (c - 'A') as int] == c;
  }
}
