/**
 The project status of scripts/project_status.py: its semantic errors, and the two
 transformers that collect the repository's and the public site's state into it.

 Observing the public site never adds an error to any status, and only the last observation
 counts. Moving the main branch keeps a status valid exactly when QA still matches it.
 */
module ProjectStatus {
  const UNKNOWN_TEXT := "UNKNOWN"

  /** A field that holds a text or a number. */
  datatype Value = Text(text: string) | Number(number: int)

  const UNKNOWN := Text(UNKNOWN_TEXT)

  datatype Evidence = Evidence(status: string, kind: string, reference: string, observedAt: string)

  datatype Capability = Capability(id: string, status: string, evidence: seq<Evidence>)

  datatype Service = Service(id: string, environment: string, state: string, evidence: seq<Evidence>)

  datatype Artifact = Artifact(path: string, state: string, sha256: string, evidence: seq<Evidence>)

  datatype Code = Code(
    state: string,
    mainSha: string,
    mergedPr: string,
    heads: string,
    artifact: Artifact,
    capabilities: seq<Capability>)

  datatype Qa = Qa(
    state: string,
    verdict: string,
    acceptedSha: string,
    testedAt: string,
    task: string,
    mergeAllowed: bool,
    evidence: seq<Evidence>,
    capabilities: seq<Capability>)

  datatype Field =
    | OperationalRevision
    | PublicRevision
    | ActiveReleaseId
    | ActiveReleaseRecordCount
    | ActiveReleaseCohort
    | SemanticReadyCount
    | PublicReadyCount

  /** `mirrored` has the seven fields that the data state repeats. */
  datatype Production = Production(
    state: string,
    serviceState: string,
    runtimeSha: Value,
    deployedAt: Value,
    acceptanceTask: Value,
    mirrored: Mirrored,
    evidence: seq<Evidence>,
    capabilities: seq<Capability>)

  datatype Mirrored = Mirrored(
    operationalRevision: Value,
    publicRevision: Value,
    activeReleaseId: Value,
    activeReleaseRecordCount: Value,
    activeReleaseCohort: Value,
    semanticReadyCount: Value,
    publicReadyCount: Value)
  {
    function Get(field: Field): Value {
      match field
      case OperationalRevision => operationalRevision
      case PublicRevision => publicRevision
      case ActiveReleaseId => activeReleaseId
      case ActiveReleaseRecordCount => activeReleaseRecordCount
      case ActiveReleaseCohort => activeReleaseCohort
      case SemanticReadyCount => semanticReadyCount
      case PublicReadyCount => publicReadyCount
    }
  }

  datatype Visible = Visible(
    state: string,
    siteState: string,
    apiState: string,
    ssrState: string,
    activeReleaseId: Value,
    verifiedAt: Value,
    evidence: seq<Evidence>,
    capabilities: seq<Capability>)

  datatype Data = Data(mirrored: Mirrored, evidence: seq<Evidence>)

  datatype Incidents = Incidents(state: string, active: seq<string>, evidence: seq<Evidence>)

  datatype Status = Status(
    generatedAt: string,
    mainSha: string,
    code: Code,
    qa: Qa,
    production: Production,
    visible: Visible,
    data: Data,
    incidents: Incidents,
    services: seq<Service>)

  datatype Section = CodeSection | QaSection | ProductionSection | VisibleSection | ServiceSection

  datatype Error =
    | CodeShaDiffers
    | DuplicateId(section: Section, id: string)
    | AcceptedWithoutPass
    | AcceptedForAnotherSha
    | AcceptedWithoutTask
    | AcceptedWithoutEvidence
    | StaleForMain
    | MergeWithoutAcceptance
    | MergeWhileNotAccepted
    | RuntimeWithoutEvidence
    | DeployedWithoutRuntime
    | DeployedWithoutEvidence(id: string)
    | VerifiedNotExplicit
    | VerifiedWithoutEvidence
    | UnknownWithoutProvenance
    | VisibleWithoutTime
    | VisibleWithoutObservation
    | CapabilityWithoutObservation(id: string)
    | ReleasesDisagree
    | NotMirrored(field: Field)
    | ClearWithoutEvidence
    | ActiveWithoutIncident
    | ServiceWithoutEvidence(id: string)

  /* ---------- Evidence ---------- */

  const PRODUCTION_KINDS := {"production_handoff", "release_manifest", "runtime_observation"}
  const SERVICE_KINDS := {"production_handoff", "runtime_observation"}
  const OBSERVATION_KINDS := {"runtime_observation"}

  predicate HasVerified(evidence: seq<Evidence>, kinds: set<string>) {
    exists i :: 0 <= i < |evidence| && evidence[i].status == "VERIFIED" && evidence[i].kind in kinds
  }

  predicate HasAnyVerified(evidence: seq<Evidence>) {
    exists i :: 0 <= i < |evidence| && evidence[i].status == "VERIFIED"
  }

  predicate IsProvenance(e: Evidence) {
    e.status == "NOT_VERIFIED"
  }

  predicate HasProvenance(evidence: seq<Evidence>) {
    exists i :: 0 <= i < |evidence| && IsProvenance(evidence[i])
  }

  predicate IsUnknown(v: Value) {
    v == UNKNOWN || v == Text("NOT_VERIFIED")
  }

  /* ---------- Conditions ---------- */

  function Ids(capabilities: seq<Capability>): (r: seq<string>)
    ensures |r| == |capabilities|
  {
    seq(|capabilities|, i requires 0 <= i < |capabilities| => capabilities[i].id)
  }

  function ServiceIds(services: seq<Service>): (r: seq<string>)
    ensures |r| == |services|
  {
    seq(|services|, i requires 0 <= i < |services| => services[i].id)
  }

  function SectionIds(s: Status, section: Section): seq<string> {
    match section
    case CodeSection => Ids(s.code.capabilities)
    case QaSection => Ids(s.qa.capabilities)
    case ProductionSection => Ids(s.production.capabilities)
    case VisibleSection => Ids(s.visible.capabilities)
    case ServiceSection => ServiceIds(s.services)
  }

  predicate IsRepeated(ids: seq<string>, id: string) {
    exists i, j :: 0 <= i < j < |ids| && ids[i] == id && ids[j] == id
  }

  predicate HasUnknown(p: Production) {
    IsUnknown(p.runtimeSha) || IsUnknown(p.mirrored.operationalRevision) || IsUnknown(p.mirrored.publicRevision)
    || IsUnknown(p.mirrored.semanticReadyCount) || IsUnknown(p.mirrored.publicReadyCount) || IsUnknown(p.deployedAt)
  }

  predicate IsExplicit(p: Production) {
    && p.runtimeSha != UNKNOWN && p.mirrored.operationalRevision != UNKNOWN && p.mirrored.publicRevision != UNKNOWN
    && p.deployedAt != UNKNOWN && p.acceptanceTask != UNKNOWN
  }

  predicate ClaimsVisibility(v: Visible) {
    v.siteState == "LIVE" || v.apiState == "LIVE" || v.ssrState == "VERIFIED"
    || exists i :: 0 <= i < |v.capabilities| && v.capabilities[i].status == "VISIBLE"
  }

  /** A capability with this id and status that lacks evidence of these kinds. */
  predicate LacksEvidence(capabilities: seq<Capability>, id: string, status: string, kinds: set<string>) {
    exists i :: 0 <= i < |capabilities| && capabilities[i].id == id && capabilities[i].status == status
                && !HasVerified(capabilities[i].evidence, kinds)
  }

  predicate IsUnsupported(service: Service) {
    service.state in {"HEALTHY", "DEGRADED", "DOWN"} && !HasVerified(service.evidence, SERVICE_KINDS)
  }

  /** A service with this id is claimed to be in a state without evidence. */
  predicate IsReported(services: seq<Service>, id: string) {
    exists i :: 0 <= i < |services| && services[i].id == id && IsUnsupported(services[i])
  }

  /** What each error means. */
  predicate Reports(s: Status, e: Error) {
    match e
    case CodeShaDiffers => s.code.mainSha != s.mainSha
    case DuplicateId(section, id) => IsRepeated(SectionIds(s, section), id)
    case AcceptedWithoutPass => s.qa.state == "ACCEPTED" && s.qa.verdict != "PASS"
    case AcceptedForAnotherSha => s.qa.state == "ACCEPTED" && s.qa.acceptedSha != s.mainSha
    case AcceptedWithoutTask => s.qa.state == "ACCEPTED" && (s.qa.testedAt == UNKNOWN_TEXT || s.qa.task == UNKNOWN_TEXT)
    case AcceptedWithoutEvidence => s.qa.state == "ACCEPTED" && !HasVerified(s.qa.evidence, {"qa_task"})
    case StaleForMain => s.qa.state == "STALE" && s.qa.acceptedSha in {UNKNOWN_TEXT, s.mainSha}
    case MergeWithoutAcceptance =>
      s.qa.mergeAllowed && (s.qa.state != "ACCEPTED" || s.qa.verdict != "PASS" || s.qa.acceptedSha != s.mainSha)
    case MergeWhileNotAccepted => s.qa.mergeAllowed && s.qa.state in {"NOT_ACCEPTED", "STALE", "UNKNOWN"}
    case RuntimeWithoutEvidence => s.production.runtimeSha != UNKNOWN && !HasVerified(s.production.evidence, PRODUCTION_KINDS)
    case DeployedWithoutRuntime =>
      s.production.runtimeSha == UNKNOWN
      && exists i :: 0 <= i < |s.production.capabilities| && s.production.capabilities[i].status == "DEPLOYED"
    case DeployedWithoutEvidence(id) => LacksEvidence(s.production.capabilities, id, "DEPLOYED", PRODUCTION_KINDS)
    case VerifiedNotExplicit => s.production.state == "VERIFIED" && !IsExplicit(s.production)
    case VerifiedWithoutEvidence => s.production.state == "VERIFIED" && !HasVerified(s.production.evidence, PRODUCTION_KINDS)
    case UnknownWithoutProvenance => HasUnknown(s.production) && !HasProvenance(s.production.evidence)
    case VisibleWithoutTime => ClaimsVisibility(s.visible) && s.visible.verifiedAt == UNKNOWN
    case VisibleWithoutObservation => ClaimsVisibility(s.visible) && !HasVerified(s.visible.evidence, OBSERVATION_KINDS)
    case CapabilityWithoutObservation(id) => LacksEvidence(s.visible.capabilities, id, "VISIBLE", OBSERVATION_KINDS)
    case ReleasesDisagree =>
      && s.production.mirrored.activeReleaseId != UNKNOWN && s.visible.activeReleaseId != UNKNOWN
      && s.production.mirrored.activeReleaseId != s.visible.activeReleaseId
    case NotMirrored(field) => s.data.mirrored.Get(field) != s.production.mirrored.Get(field)
    case ClearWithoutEvidence => s.incidents.state == "CLEAR" && !HasAnyVerified(s.incidents.evidence)
    case ActiveWithoutIncident => s.incidents.state == "ACTIVE" && s.incidents.active == []
    case ServiceWithoutEvidence(id) => IsReported(s.services, id)
  }

  ghost predicate IsValid(s: Status) {
    forall e: Error :: !Reports(s, e)
  }

  /* ---------- Finding the errors ---------- */

  /** The errors are listed section by section. */
  datatype Group = CodeGroup | QaGroup | ProductionGroup | VisibleGroup | DataGroup | StateGroup

  function GroupOf(e: Error): Group {
    match e
    case CodeShaDiffers => CodeGroup
    case DuplicateId(section, id) => CodeGroup
    case AcceptedWithoutPass => QaGroup
    case AcceptedForAnotherSha => QaGroup
    case AcceptedWithoutTask => QaGroup
    case AcceptedWithoutEvidence => QaGroup
    case StaleForMain => QaGroup
    case MergeWithoutAcceptance => QaGroup
    case MergeWhileNotAccepted => QaGroup
    case RuntimeWithoutEvidence => ProductionGroup
    case DeployedWithoutRuntime => ProductionGroup
    case DeployedWithoutEvidence(id) => ProductionGroup
    case VerifiedNotExplicit => ProductionGroup
    case VerifiedWithoutEvidence => ProductionGroup
    case UnknownWithoutProvenance => ProductionGroup
    case VisibleWithoutTime => VisibleGroup
    case VisibleWithoutObservation => VisibleGroup
    case CapabilityWithoutObservation(id) => VisibleGroup
    case ReleasesDisagree => DataGroup
    case NotMirrored(field) => DataGroup
    case ClearWithoutEvidence => StateGroup
    case ActiveWithoutIncident => StateGroup
    case ServiceWithoutEvidence(id) => StateGroup
  }

  method ValidateUniqueIds(ids: seq<string>, section: Section) returns (errors: seq<Error>)
    ensures forall e :: e in errors <==> e.DuplicateId? && e.section == section && IsRepeated(ids, e.id)
  {
    hide IsRepeated;
    errors := [];
    for n := 0 to |ids|
      invariant forall e :: e in errors <==>
                  e.DuplicateId? && e.section == section && IsRepeated(ids, e.id) && exists i :: 0 <= i < n && ids[i] == e.id
    {
      if IsRepeated(ids, ids[n]) {
        errors := errors + [DuplicateId(section, ids[n])];
      }
    }
    RepeatedIsNamed(ids);
  }

  lemma RepeatedIsNamed(ids: seq<string>)
    ensures forall id :: IsRepeated(ids, id) ==> exists i :: 0 <= i < |ids| && ids[i] == id
  {
  }

  method CodeErrors(s: Status) returns (errors: seq<Error>)
    ensures forall e :: e in errors <==> GroupOf(e) == CodeGroup && Reports(s, e)
  {
    hide IsRepeated;
    var head: seq<Error> := [];
    if s.code.mainSha != s.mainSha {
      head := [CodeShaDiffers];
    }
    var code := ValidateUniqueIds(Ids(s.code.capabilities), CodeSection);
    var qa := ValidateUniqueIds(Ids(s.qa.capabilities), QaSection);
    var production := ValidateUniqueIds(Ids(s.production.capabilities), ProductionSection);
    var visible := ValidateUniqueIds(Ids(s.visible.capabilities), VisibleSection);
    var services := ValidateUniqueIds(ServiceIds(s.services), ServiceSection);
    return head + code + qa + production + visible + services;
  }

  method QaErrors(s: Status) returns (errors: seq<Error>)
    ensures forall e :: e in errors <==> GroupOf(e) == QaGroup && Reports(s, e)
  {
    hide HasVerified;
    var qa := s.qa;
    errors := [];
    if qa.state == "ACCEPTED" {
      if qa.verdict != "PASS" {
        errors := errors + [AcceptedWithoutPass];
      }
      if qa.acceptedSha != s.mainSha {
        errors := errors + [AcceptedForAnotherSha];
      }
      if qa.testedAt == UNKNOWN_TEXT || qa.task == UNKNOWN_TEXT {
        errors := errors + [AcceptedWithoutTask];
      }
      if !HasVerified(qa.evidence, {"qa_task"}) {
        errors := errors + [AcceptedWithoutEvidence];
      }
    }
    if qa.state == "STALE" && qa.acceptedSha in {UNKNOWN_TEXT, s.mainSha} {
      errors := errors + [StaleForMain];
    }
    if qa.mergeAllowed && (qa.state != "ACCEPTED" || qa.verdict != "PASS" || qa.acceptedSha != s.mainSha) {
      errors := errors + [MergeWithoutAcceptance];
    }
    if qa.state in {"NOT_ACCEPTED", "STALE", "UNKNOWN"} && qa.mergeAllowed {
      errors := errors + [MergeWhileNotAccepted];
    }
  }

  /** The ids of capabilities with this status and without such evidence. */
  method Unproven(capabilities: seq<Capability>, status: string, kinds: set<string>) returns (ids: seq<string>)
    ensures forall id :: id in ids <==> LacksEvidence(capabilities, id, status, kinds)
  {
    hide HasVerified;
    ids := [];
    for n := 0 to |capabilities|
      invariant forall id :: id in ids <==> LacksEvidence(capabilities[..n], id, status, kinds)
    {
      var c := capabilities[n];
      assert forall i :: 0 <= i < n ==> capabilities[..n + 1][i] == capabilities[..n][i];
      assert capabilities[..n + 1][n] == c;
      if c.status == status && !HasVerified(c.evidence, kinds) {
        ids := ids + [c.id];
      }
    }
    assert capabilities[..|capabilities|] == capabilities;
  }

  function DeployedErrors(ids: seq<string>): (r: seq<Error>)
    ensures forall e :: e in r <==> e.DeployedWithoutEvidence? && e.id in ids
  {
    if ids == [] then [] else [DeployedWithoutEvidence(ids[0])] + DeployedErrors(ids[1..])
  }

  function CapabilityErrors(ids: seq<string>): (r: seq<Error>)
    ensures forall e :: e in r <==> e.CapabilityWithoutObservation? && e.id in ids
  {
    if ids == [] then [] else [CapabilityWithoutObservation(ids[0])] + CapabilityErrors(ids[1..])
  }

  function ServiceErrors(ids: seq<string>): (r: seq<Error>)
    ensures forall e :: e in r <==> e.ServiceWithoutEvidence? && e.id in ids
  {
    if ids == [] then [] else [ServiceWithoutEvidence(ids[0])] + ServiceErrors(ids[1..])
  }

  method ProductionErrors(s: Status) returns (errors: seq<Error>)
    ensures forall e :: e in errors <==> GroupOf(e) == ProductionGroup && Reports(s, e)
  {
    hide HasVerified, HasProvenance, LacksEvidence, HasUnknown, IsExplicit, DeployedErrors;
    var production := s.production;
    errors := [];
    if production.runtimeSha != UNKNOWN && !HasVerified(production.evidence, PRODUCTION_KINDS) {
      errors := errors + [RuntimeWithoutEvidence];
    }
    var deployed := exists i :: 0 <= i < |production.capabilities| && production.capabilities[i].status == "DEPLOYED";
    if deployed && production.runtimeSha == UNKNOWN {
      errors := errors + [DeployedWithoutRuntime];
    }
    var ids := Unproven(production.capabilities, "DEPLOYED", PRODUCTION_KINDS);
    errors := errors + DeployedErrors(ids);
    if production.state == "VERIFIED" {
      if !IsExplicit(production) {
        errors := errors + [VerifiedNotExplicit];
      }
      if !HasVerified(production.evidence, PRODUCTION_KINDS) {
        errors := errors + [VerifiedWithoutEvidence];
      }
    }
    if HasUnknown(production) && !HasProvenance(production.evidence) {
      errors := errors + [UnknownWithoutProvenance];
    }
  }

  method VisibleErrors(s: Status) returns (errors: seq<Error>)
    ensures forall e :: e in errors <==> GroupOf(e) == VisibleGroup && Reports(s, e)
  {
    hide HasVerified, LacksEvidence, ClaimsVisibility, CapabilityErrors;
    var visible := s.visible;
    errors := [];
    if ClaimsVisibility(visible) {
      if visible.verifiedAt == UNKNOWN {
        errors := errors + [VisibleWithoutTime];
      }
      if !HasVerified(visible.evidence, OBSERVATION_KINDS) {
        errors := errors + [VisibleWithoutObservation];
      }
    }
    var ids := Unproven(visible.capabilities, "VISIBLE", OBSERVATION_KINDS);
    errors := errors + CapabilityErrors(ids);
  }

  method DataErrors(s: Status) returns (errors: seq<Error>)
    ensures forall e :: e in errors <==> GroupOf(e) == DataGroup && Reports(s, e)
  {
    errors := [];
    var production, visible := s.production.mirrored.activeReleaseId, s.visible.activeReleaseId;
    if production != UNKNOWN && visible != UNKNOWN && production != visible {
      errors := errors + [ReleasesDisagree];
    }
    var fields := [OperationalRevision, PublicRevision, ActiveReleaseId, ActiveReleaseRecordCount,
                   ActiveReleaseCohort, SemanticReadyCount, PublicReadyCount];
    for n := 0 to |fields|
      invariant ReleasesDisagree in errors <==> Reports(s, ReleasesDisagree)
      invariant forall e :: e in errors ==> e == ReleasesDisagree || e.NotMirrored?
      invariant forall field :: NotMirrored(field) in errors <==> field in fields[..n] && Reports(s, NotMirrored(field))
    {
      if s.data.mirrored.Get(fields[n]) != s.production.mirrored.Get(fields[n]) {
        errors := errors + [NotMirrored(fields[n])];
      }
    }
    forall field: Field ensures field in fields {
      match field
      case OperationalRevision => assert fields[0] == field;
      case PublicRevision => assert fields[1] == field;
      case ActiveReleaseId => assert fields[2] == field;
      case ActiveReleaseRecordCount => assert fields[3] == field;
      case ActiveReleaseCohort => assert fields[4] == field;
      case SemanticReadyCount => assert fields[5] == field;
      case PublicReadyCount => assert fields[6] == field;
    }
    assert fields[..|fields|] == fields;
  }

  method StateErrors(s: Status) returns (errors: seq<Error>)
    ensures forall e :: e in errors <==> GroupOf(e) == StateGroup && Reports(s, e)
  {
    hide HasAnyVerified, IsUnsupported, ServiceErrors;
    var head: seq<Error> := [];
    if s.incidents.state == "CLEAR" && !HasAnyVerified(s.incidents.evidence) {
      head := head + [ClearWithoutEvidence];
    }
    if s.incidents.state == "ACTIVE" && s.incidents.active == [] {
      head := head + [ActiveWithoutIncident];
    }
    var ids: seq<string> := [];
    for n := 0 to |s.services|
      invariant forall id :: id in ids <==> exists i :: 0 <= i < n && s.services[i].id == id && IsUnsupported(s.services[i])
    {
      if IsUnsupported(s.services[n]) {
        ids := ids + [s.services[n].id];
      }
    }
    return head + ServiceErrors(ids);
  }

  /** Exactly the errors of the status. */
  method SemanticErrors(s: Status) returns (errors: seq<Error>)
    ensures forall e :: e in errors <==> Reports(s, e)
    ensures errors == [] <==> IsValid(s)
  {
    hide Reports, GroupOf;
    var code := CodeErrors(s);
    var qa := QaErrors(s);
    var production := ProductionErrors(s);
    var visible := VisibleErrors(s);
    var data := DataErrors(s);
    var state := StateErrors(s);
    errors := code + qa + production + visible + data + state;
    if errors != [] {
      assert errors[0] in errors;
    }
  }

  /* ---------- Observing the public site ---------- */

  datatype Observation = Observation(base: string, observedAt: string, releaseId: string, recordCount: nat)

  /** What observing returns: a time stamp, and a release that is named. */
  predicate IsObservation(o: Observation) {
    o.observedAt != UNKNOWN_TEXT && o.releaseId != ""
  }

  function Provenance(evidence: seq<Evidence>): seq<Evidence> {
    if evidence == [] then []
    else
      var n := |evidence| - 1;
      Provenance(evidence[..n]) + (if IsProvenance(evidence[n]) then [evidence[n]] else [])
  }

  function Seen(reference: string, at: string): Evidence {
    Evidence("VERIFIED", "runtime_observation", reference, at)
  }

  /** The place of the last service with this id. */
  function LastIndex(services: seq<Service>, id: string): (r: int)
    ensures -1 <= r < |services|
    ensures r >= 0 ==> services[r].id == id
    ensures forall i :: r < i < |services| ==> services[i].id != id
  {
    if services == [] then -1
    else if services[|services| - 1].id == id then |services| - 1
    else LastIndex(services[..|services| - 1], id)
  }

  /** The services after one of them was seen healthy. */
  function Observed(services: seq<Service>, id: string, seen: Evidence): seq<Service> {
    var i := LastIndex(services, id);
    if i < 0 then services + [Service(id, "production", "HEALTHY", [seen])]
    else services[i := services[i].(state := "HEALTHY", evidence := [seen])]
  }

  function HealthText(base: string): string {
    base + "/api/health returned status=ok"
  }

  function Applied(s: Status, o: Observation, decimal: nat -> string): Status {
    var health := Seen(HealthText(o.base), o.observedAt);
    var ready := Seen(ReadyText(o, decimal), o.observedAt);
    var provenance := Provenance(s.production.evidence);
    var release, count := Text(o.releaseId), Number(o.recordCount);
    s.(generatedAt := o.observedAt,
       production := s.production.(
         state := "PARTIALLY_VERIFIED",
         serviceState := "PARTIALLY_VERIFIED",
         mirrored := s.production.mirrored.(activeReleaseId := release, activeReleaseRecordCount := count),
         evidence := [health, ready] + provenance),
       visible := s.visible.(
         state := "PARTIALLY_VERIFIED",
         siteState := "LIVE",
         apiState := "LIVE",
         activeReleaseId := release,
         verifiedAt := Text(o.observedAt),
         evidence := [Seen(SiteText(o.base), o.observedAt)]),
       data := s.data.(
         mirrored := s.data.mirrored.(activeReleaseId := release, activeReleaseRecordCount := count),
         evidence := [ready] + provenance),
       services := Observed(
         Observed(s.services, "public-web", Seen(WebText(o.base), o.observedAt)),
         "public-api", Seen(ApiText(o.base), o.observedAt)))
  }

  function ReadyText(o: Observation, decimal: nat -> string): string {
    o.base + "/api/ready returned ready with release_id and record_count=" + decimal(o.recordCount)
  }

  function SiteText(base: string): string {
    base + "/, /api/health, and /api/ready returned valid HTTP 200 responses"
  }

  function WebText(base: string): string {
    base + "/ returned HTTP 200"
  }

  function ApiText(base: string): string {
    base + "/api/health and /api/ready returned valid HTTP 200 responses"
  }

  /** Edits a copy of the status field by field. */
  method ApplyPublicRuntime(s: Status, o: Observation, decimal: nat -> string) returns (r: Status)
    ensures r == Applied(s, o, decimal)
  {
    hide Observed, Provenance, ReadyText, SiteText, WebText, ApiText, HealthText;
    var collected := s.(generatedAt := o.observedAt);
    var verified := [Seen(HealthText(o.base), o.observedAt), Seen(ReadyText(o, decimal), o.observedAt)];
    var provenance := UnknownProvenance(collected.production.evidence);
    var production := collected.production.(state := "PARTIALLY_VERIFIED", serviceState := "PARTIALLY_VERIFIED");
    production := production.(mirrored := production.mirrored.(activeReleaseId := Text(o.releaseId)));
    production := production.(mirrored := production.mirrored.(activeReleaseRecordCount := Number(o.recordCount)));
    production := production.(evidence := verified + provenance);
    collected := collected.(production := production);

    var visible := collected.visible.(state := "PARTIALLY_VERIFIED", siteState := "LIVE", apiState := "LIVE");
    visible := visible.(activeReleaseId := Text(o.releaseId), verifiedAt := Text(o.observedAt));
    visible := visible.(evidence := [Seen(SiteText(o.base), o.observedAt)]);
    collected := collected.(visible := visible);

    var data := collected.data;
    data := data.(mirrored := data.mirrored.(activeReleaseId := Text(o.releaseId)));
    data := data.(mirrored := data.mirrored.(activeReleaseRecordCount := Number(o.recordCount)));
    collected := collected.(data := data.(evidence := [verified[1]] + provenance));

    var services := ObserveServices(collected.services, o);
    return collected.(services := services);
  }

  method UnknownProvenance(evidence: seq<Evidence>) returns (r: seq<Evidence>)
    ensures r == Provenance(evidence)
  {
    r := [];
    for n := 0 to |evidence|
      invariant r == Provenance(evidence[..n])
    {
      assert evidence[..n + 1][..n] == evidence[..n];
      if IsProvenance(evidence[n]) {
        r := r + [evidence[n]];
      }
    }
    assert evidence[..|evidence|] == evidence;
  }

  /** Both places are looked up before either service changes. */
  method ObserveServices(services: seq<Service>, o: Observation) returns (r: seq<Service>)
    ensures r == Observed(
                   Observed(services, "public-web", Seen(WebText(o.base), o.observedAt)),
                   "public-api", Seen(ApiText(o.base), o.observedAt))
  {
    hide WebText, ApiText, LastIndex;
    var web, api := LastIndex(services, "public-web"), LastIndex(services, "public-api");
    r := services;
    var seenWeb, seenApi := Seen(WebText(o.base), o.observedAt), Seen(ApiText(o.base), o.observedAt);
    if web < 0 {
      r := r + [Service("public-web", "production", "HEALTHY", [seenWeb])];
    } else {
      r := r[web := r[web].(state := "HEALTHY", evidence := [seenWeb])];
    }
    ObservedKeepsPlaces(services, "public-web", "public-api", seenWeb);
    if api < 0 {
      r := r + [Service("public-api", "production", "HEALTHY", [seenApi])];
    } else {
      r := r[api := r[api].(state := "HEALTHY", evidence := [seenApi])];
    }
  }

  /** There is only one last place. */
  lemma LastIndexIs(services: seq<Service>, id: string, i: int)
    requires -1 <= i < |services| && (i >= 0 ==> services[i].id == id)
    requires forall k :: i < k < |services| ==> services[k].id != id
    ensures LastIndex(services, id) == i
  {
    hide LastIndex;
    var r := LastIndex(services, id);
    assert r >= 0 ==> services[r].id == id;
  }

  /** Observing one service neither moves nor renames any other, and finds itself again. */
  lemma ObservedKeepsPlaces(services: seq<Service>, id: string, other: string, seen: Evidence)
    requires id != other
    ensures LastIndex(Observed(services, id, seen), other) == LastIndex(services, other)
    ensures LastIndex(Observed(services, id, seen), id) ==
            if LastIndex(services, id) < 0 then |services| else LastIndex(services, id)
  {
    hide LastIndex;
    var after := Observed(services, id, seen);
    LastIndexIs(after, other, LastIndex(services, other));
    LastIndexIs(after, id, if LastIndex(services, id) < 0 then |services| else LastIndex(services, id));
  }

  /* ---------- Only the last observation counts ---------- */

  lemma {:induction false} ProvenanceAppends(a: seq<Evidence>, b: seq<Evidence>)
    ensures Provenance(a + b) == Provenance(a) + Provenance(b)
  {
    if b == [] {
      assert a + b == a;
    } else {
      var n := |b| - 1;
      assert (a + b)[..|a + b| - 1] == a + b[..n];
      ProvenanceAppends(a, b[..n]);
    }
  }

  lemma {:induction false} ProvenanceMembers(evidence: seq<Evidence>)
    ensures forall e :: e in Provenance(evidence) <==> e in evidence && IsProvenance(e)
  {
    hide IsProvenance;
    if evidence != [] {
      var n := |evidence| - 1;
      ProvenanceMembers(evidence[..n]);
      assert evidence == evidence[..n] + [evidence[n]];
    }
  }

  lemma {:induction false} ProvenanceIsKept(evidence: seq<Evidence>)
    requires forall e :: e in evidence ==> IsProvenance(e)
    ensures Provenance(evidence) == evidence
  {
    hide IsProvenance;
    if evidence != [] {
      var n := |evidence| - 1;
      ProvenanceIsKept(evidence[..n]);
      assert evidence[n] in evidence;
    }
  }

  lemma OneProvenance(e: Evidence)
    ensures Provenance([e]) == if IsProvenance(e) then [e] else []
    ensures Provenance([]) == []
  {
    assert [e][..0] == [];
  }

  lemma ProvenanceOfVerified(health: Evidence, ready: Evidence, rest: seq<Evidence>)
    requires !IsProvenance(health) && !IsProvenance(ready)
    ensures Provenance([health, ready] + rest) == Provenance(rest)
  {
    ProvenanceAppends([health, ready], rest);
    ProvenanceAppends([health], [ready]);
    OneProvenance(health);
    OneProvenance(ready);
    assert [health] + [ready] == [health, ready];
  }

  /** Observing two services commutes, but for the order in which missing ones are added. */
  lemma ObservedTwice(
    services: seq<Service>, web: string, api: string, w1: Evidence, a1: Evidence, w2: Evidence, a2: Evidence)
    requires web != api
    ensures Observed(Observed(Observed(Observed(services, web, w1), api, a1), web, w2), api, a2)
            == Observed(Observed(services, web, w2), api, a2)
  {
    hide LastIndex;
    var one := Observed(services, web, w1);
    ObservedKeepsPlaces(services, web, api, w1);
    ObservedKeepsPlaces(one, api, web, a1);
    var two := Observed(one, api, a1);
    ObservedKeepsPlaces(two, web, api, w2);
    ObservedKeepsPlaces(services, web, api, w2);
  }

  /** Observing twice is observing once: the last observation replaces the one before. */
  lemma LastObservationCounts(s: Status, first: Observation, second: Observation, decimal: nat -> string)
    ensures Applied(Applied(s, first, decimal), second, decimal) == Applied(s, second, decimal)
  {
    hide Observed, Provenance, ReadyText, SiteText, WebText, ApiText, HealthText;
    var health, ready := Seen(HealthText(first.base), first.observedAt), Seen(ReadyText(first, decimal), first.observedAt);
    var provenance := Provenance(s.production.evidence);
    ProvenanceOfVerified(health, ready, provenance);
    ProvenanceMembers(s.production.evidence);
    ProvenanceIsKept(provenance);
    ObservedTwice(s.services, "public-web", "public-api",
                  Seen(WebText(first.base), first.observedAt), Seen(ApiText(first.base), first.observedAt),
                  Seen(WebText(second.base), second.observedAt), Seen(ApiText(second.base), second.observedAt));
  }

  /* ---------- Observing never adds an error ---------- */

  /** Errors about what an observation has just settled. */
  predicate IsSettled(e: Error) {
    || e in {RuntimeWithoutEvidence, VerifiedNotExplicit, VerifiedWithoutEvidence, VisibleWithoutTime, VisibleWithoutObservation}
    || e in {ReleasesDisagree, NotMirrored(ActiveReleaseId), NotMirrored(ActiveReleaseRecordCount)}
  }

  lemma SeenIsVerified(reference: string, at: string, rest: seq<Evidence>, kinds: set<string>)
    requires "runtime_observation" in kinds
    ensures HasVerified([Seen(reference, at)] + rest, kinds)
  {
    assert ([Seen(reference, at)] + rest)[0] == Seen(reference, at);
  }

  lemma {:induction false} ProvenanceRemains(evidence: seq<Evidence>)
    ensures HasProvenance(Provenance(evidence)) <==> HasProvenance(evidence)
  {
    ProvenanceMembers(evidence);
    if i :| 0 <= i < |evidence| && IsProvenance(evidence[i]) {
      assert evidence[i] in Provenance(evidence);
    }
    if i :| 0 <= i < |Provenance(evidence)| && IsProvenance(Provenance(evidence)[i]) {
      assert Provenance(evidence)[i] in evidence;
    }
  }

  lemma ProvenanceBehind(health: Evidence, ready: Evidence, rest: seq<Evidence>)
    requires !IsProvenance(health) && !IsProvenance(ready)
    ensures HasProvenance([health, ready] + rest) <==> HasProvenance(rest)
  {
    var all := [health, ready] + rest;
    assert forall i :: 0 <= i < |rest| ==> all[i + 2] == rest[i];
    if i :| 0 <= i < |all| && IsProvenance(all[i]) {
      assert rest[i - 2] == all[i];
    }
  }

  lemma ObservedNamesNothingTwice(services: seq<Service>, id: string, seen: Evidence, other: string)
    ensures IsRepeated(ServiceIds(Observed(services, id, seen)), other) <==> IsRepeated(ServiceIds(services), other)
  {
    hide LastIndex;
    var before, after := ServiceIds(services), ServiceIds(Observed(services, id, seen));
    assert forall i :: 0 <= i < |before| ==> after[i] == before[i];
  }

  /** Seeing a service healthy reports nothing new, and nothing at all when its id is unique. */
  lemma ObservedReportsNoMore(services: seq<Service>, id: string, seen: Evidence, other: string)
    requires seen.status == "VERIFIED" && seen.kind == "runtime_observation"
    ensures IsReported(Observed(services, id, seen), other) ==> IsReported(services, other)
    ensures other != id ==> (IsReported(services, other) ==> IsReported(Observed(services, id, seen), other))
    ensures !IsRepeated(ServiceIds(services), id) ==> !IsReported(Observed(services, id, seen), id)
  {
    hide LastIndex, IsUnsupported;
    var after := Observed(services, id, seen);
    var k := LastIndex(services, id);
    var at := if k < 0 then |services| else k;
    SeenIsSupported(after[at], seen);
    assert forall i :: 0 <= i < |services| && i != at ==> after[i] == services[i];
    if !IsRepeated(ServiceIds(services), id) {
      UniqueName(services, id);
    }
    if i :| 0 <= i < |services| && services[i].id == other && IsUnsupported(services[i]) && other != id {
      assert after[i] == services[i];
    }
  }

  lemma UniqueName(services: seq<Service>, id: string)
    requires !IsRepeated(ServiceIds(services), id)
    ensures forall i, j :: 0 <= i < j < |services| ==> services[i].id != id || services[j].id != id
  {
    assert forall i :: 0 <= i < |services| ==> ServiceIds(services)[i] == services[i].id;
  }

  lemma SeenIsSupported(service: Service, seen: Evidence)
    requires seen.status == "VERIFIED" && seen.kind == "runtime_observation" && service.evidence == [seen]
    ensures !IsUnsupported(service)
  {
    assert service.evidence[0] == seen;
  }

  /**
   On every status, valid or not, observing the public site removes the errors it settles
   and changes no other, apart from those about the two services it sees.
   */
  lemma ObservingAddsNoError(s: Status, o: Observation, decimal: nat -> string, e: Error)
    requires IsObservation(o)
    ensures Reports(Applied(s, o, decimal), e) ==> Reports(s, e)
    ensures IsSettled(e) ==> !Reports(Applied(s, o, decimal), e)
    ensures !IsSettled(e) && e != ServiceWithoutEvidence("public-web") && e != ServiceWithoutEvidence("public-api") ==>
              (Reports(Applied(s, o, decimal), e) <==> Reports(s, e))
    ensures e == ServiceWithoutEvidence("public-web") && !IsRepeated(ServiceIds(s.services), "public-web") ==>
              !Reports(Applied(s, o, decimal), e)
    ensures e == ServiceWithoutEvidence("public-api") && !IsRepeated(ServiceIds(s.services), "public-api") ==>
              !Reports(Applied(s, o, decimal), e)
  {
    hide *;
    if IsSettled(e) {
      SettledErrors(s, o, decimal, e);
    } else {
      OtherErrors(s, o, decimal, e);
    }
    SettledIsNoService(e);
  }

  lemma SettledIsNoService(e: Error)
    ensures IsSettled(e) ==> !e.ServiceWithoutEvidence?
  {
  }

  lemma SettledErrors(s: Status, o: Observation, decimal: nat -> string, e: Error)
    requires IsObservation(o) && IsSettled(e)
    ensures !Reports(Applied(s, o, decimal), e)
  {
    AppliedFields(s, o, decimal);
    ProductionAfter(s, o, decimal);
    VisibleAfter(s, o, decimal);
    hide Applied, HasVerified, HasProvenance, IsExplicit, ClaimsVisibility;
  }

  lemma OtherErrors(s: Status, o: Observation, decimal: nat -> string, e: Error)
    requires !IsSettled(e)
    ensures Reports(Applied(s, o, decimal), e) ==> Reports(s, e)
    ensures e != ServiceWithoutEvidence("public-web") && e != ServiceWithoutEvidence("public-api") ==>
              (Reports(Applied(s, o, decimal), e) <==> Reports(s, e))
    ensures e == ServiceWithoutEvidence("public-web") && !IsRepeated(ServiceIds(s.services), "public-web") ==>
              !Reports(Applied(s, o, decimal), e)
    ensures e == ServiceWithoutEvidence("public-api") && !IsRepeated(ServiceIds(s.services), "public-api") ==>
              !Reports(Applied(s, o, decimal), e)
  {
    hide *;
    if e.ServiceWithoutEvidence? {
      ServiceErrorsAfter(s, o, decimal, e.id);
      ServiceReports(s, e.id);
      ServiceReports(Applied(s, o, decimal), e.id);
    } else {
      UntouchedErrors(s, o, decimal, e);
    }
  }

  lemma ServiceReports(s: Status, id: string)
    ensures Reports(s, ServiceWithoutEvidence(id)) <==> IsReported(s.services, id)
  {
  }

  lemma UntouchedErrors(s: Status, o: Observation, decimal: nat -> string, e: Error)
    requires !IsSettled(e) && !e.ServiceWithoutEvidence?
    ensures Reports(Applied(s, o, decimal), e) <==> Reports(s, e)
  {
    AppliedFields(s, o, decimal);
    hide Applied, HasVerified, HasProvenance, IsExplicit, ClaimsVisibility, IsRepeated, LacksEvidence, HasUnknown, IsReported;
    match e
    case DuplicateId(section, id) => NamesAfter(s, o, decimal, id);
    case UnknownWithoutProvenance => ProductionAfter(s, o, decimal);
    case _ =>
  }

  lemma AppliedFields(s: Status, o: Observation, decimal: nat -> string)
    ensures var after := Applied(s, o, decimal);
            && after.mainSha == s.mainSha && after.code == s.code && after.qa == s.qa && after.incidents == s.incidents
            && after.production.capabilities == s.production.capabilities && after.visible.capabilities == s.visible.capabilities
            && after.production.runtimeSha == s.production.runtimeSha
            && (HasUnknown(after.production) <==> HasUnknown(s.production))
            && after.production.state == "PARTIALLY_VERIFIED" && after.visible.verifiedAt == Text(o.observedAt)
            && after.production.mirrored.activeReleaseId == after.visible.activeReleaseId
            && (forall field: Field :: field != ActiveReleaseId && field != ActiveReleaseRecordCount ==>
                  after.data.mirrored.Get(field) == s.data.mirrored.Get(field)
                  && after.production.mirrored.Get(field) == s.production.mirrored.Get(field))
            && after.data.mirrored.Get(ActiveReleaseId) == after.production.mirrored.Get(ActiveReleaseId)
            && after.data.mirrored.Get(ActiveReleaseRecordCount) == after.production.mirrored.Get(ActiveReleaseRecordCount)
  {
    hide Observed, Provenance, ReadyText, SiteText, WebText, ApiText, HealthText;
  }

  lemma ServiceErrorsAfter(s: Status, o: Observation, decimal: nat -> string, id: string)
    ensures IsReported(Applied(s, o, decimal).services, id) ==> IsReported(s.services, id)
    ensures id != "public-web" && id != "public-api" ==>
              (IsReported(s.services, id) ==> IsReported(Applied(s, o, decimal).services, id))
    ensures id in {"public-web", "public-api"} && !IsRepeated(ServiceIds(s.services), id) ==>
              !IsReported(Applied(s, o, decimal).services, id)
  {
    hide Observed, ReadyText, SiteText, WebText, ApiText, HealthText, IsReported, IsRepeated;
    var web, api := Seen(WebText(o.base), o.observedAt), Seen(ApiText(o.base), o.observedAt);
    var one := Observed(s.services, "public-web", web);
    ObservedReportsNoMore(s.services, "public-web", web, id);
    ObservedReportsNoMore(one, "public-api", api, id);
    ObservedNamesNothingTwice(s.services, "public-web", web, id);
  }

  lemma NamesAfter(s: Status, o: Observation, decimal: nat -> string, id: string)
    ensures IsRepeated(ServiceIds(Applied(s, o, decimal).services), id) <==> IsRepeated(ServiceIds(s.services), id)
  {
    hide Observed, ReadyText, SiteText, WebText, ApiText, HealthText, IsRepeated;
    var web, api := Seen(WebText(o.base), o.observedAt), Seen(ApiText(o.base), o.observedAt);
    ObservedNamesNothingTwice(s.services, "public-web", web, id);
    ObservedNamesNothingTwice(Observed(s.services, "public-web", web), "public-api", api, id);
  }

  lemma VisibleAfter(s: Status, o: Observation, decimal: nat -> string)
    ensures HasVerified(Applied(s, o, decimal).visible.evidence, OBSERVATION_KINDS)
  {
    hide Observed, Provenance, ReadyText, SiteText, WebText, ApiText, HealthText;
    assert Applied(s, o, decimal).visible.evidence[0] == Seen(SiteText(o.base), o.observedAt);
  }

  lemma ProductionAfter(s: Status, o: Observation, decimal: nat -> string)
    ensures HasVerified(Applied(s, o, decimal).production.evidence, PRODUCTION_KINDS)
    ensures HasProvenance(Applied(s, o, decimal).production.evidence) <==> HasProvenance(s.production.evidence)
  {
    hide Observed, Provenance, ReadyText, SiteText, WebText, ApiText, HealthText, HasVerified, HasProvenance;
    var health, ready := Seen(HealthText(o.base), o.observedAt), Seen(ReadyText(o, decimal), o.observedAt);
    var rest := Provenance(s.production.evidence);
    ProvenanceRemains(s.production.evidence);
    ProvenanceBehind(health, ready, rest);
    SeenIsVerified(HealthText(o.base), o.observedAt, [ready] + rest, PRODUCTION_KINDS);
    assert [health] + ([ready] + rest) == [health, ready] + rest;
  }

  /** A valid status stays valid under every observation. */
  lemma ObservingKeepsValid(s: Status, o: Observation, decimal: nat -> string)
    requires IsObservation(o) && IsValid(s)
    ensures IsValid(Applied(s, o, decimal))
  {
    hide Applied, Reports;
    forall e: Error ensures !Reports(Applied(s, o, decimal), e) {
      ObservingAddsNoError(s, o, decimal, e);
    }
  }

  /* ---------- Moving the main branch ---------- */

  /** What the repository answers; the digest is None when the artifact is missing. */
  datatype Repository = Repository(
    observedAt: string,
    mainSha: string,
    mergedPr: string,
    heads: string,
    artifactDigest: string,
    artifactExists: bool,
    artifactEvidence: Evidence)

  function Collected(s: Status, repo: Repository): Status {
    s.(generatedAt := repo.observedAt,
       mainSha := repo.mainSha,
       code := s.code.(
         state := "VERIFIED",
         mainSha := repo.mainSha,
         mergedPr := repo.mergedPr,
         heads := repo.heads,
         artifact := s.code.artifact.(
           state := if repo.artifactExists then "PRESENT" else "ABSENT",
           sha256 := if repo.artifactExists then repo.artifactDigest else UNKNOWN_TEXT,
           evidence := [repo.artifactEvidence])))
  }

  method CollectRepository(s: Status, repo: Repository) returns (r: Status)
    ensures r == Collected(s, repo)
  {
    r := s.(generatedAt := repo.observedAt, mainSha := repo.mainSha);
    r := r.(code := r.code.(state := "VERIFIED", mainSha := repo.mainSha));
    r := r.(code := r.code.(mergedPr := repo.mergedPr));
    r := r.(code := r.code.(heads := repo.heads));
    var artifact := r.code.artifact;
    if repo.artifactExists {
      artifact := artifact.(state := "PRESENT", sha256 := repo.artifactDigest, evidence := [repo.artifactEvidence]);
    } else {
      artifact := artifact.(state := "ABSENT", sha256 := UNKNOWN_TEXT, evidence := [repo.artifactEvidence]);
    }
    r := r.(code := r.code.(artifact := artifact));
  }

  /** Collecting touches only errors about the main commit. */
  lemma CollectingMovesMain(s: Status, repo: Repository, e: Error)
    ensures e !in {CodeShaDiffers, AcceptedForAnotherSha, StaleForMain, MergeWithoutAcceptance} ==>
              (Reports(Collected(s, repo), e) <==> Reports(s, e))
    ensures !Reports(Collected(s, repo), CodeShaDiffers)
  {
    hide IsRepeated, LacksEvidence, HasVerified, HasProvenance, IsUnsupported, IsExplicit, HasUnknown, ClaimsVisibility;
  }

  /**
   After the main branch moves, a valid status is valid exactly when an accepted QA was for
   the new commit and a stale one for another: QA accepted for another commit always errs.
   */
  lemma CollectingKeepsValidExactly(s: Status, repo: Repository)
    requires IsValid(s)
    ensures IsValid(Collected(s, repo)) <==>
              && (s.qa.state == "ACCEPTED" ==> s.qa.acceptedSha == repo.mainSha)
              && (s.qa.state == "STALE" ==> s.qa.acceptedSha != repo.mainSha)
    ensures s.qa.state == "ACCEPTED" && s.qa.acceptedSha != repo.mainSha ==>
              Reports(Collected(s, repo), AcceptedForAnotherSha)
  {
    hide Collected, Reports;
    var after := Collected(s, repo);
    QaErrorsAfter(s, repo);
    assert !Reports(s, StaleForMain) && !Reports(s, MergeWithoutAcceptance) && !Reports(s, AcceptedForAnotherSha);
    forall e: Error
      ensures e !in {AcceptedForAnotherSha, StaleForMain, MergeWithoutAcceptance} ==> !Reports(after, e)
    {
      CollectingMovesMain(s, repo, e);
    }
    if IsValid(after) {
      assert !Reports(after, StaleForMain) && !Reports(after, AcceptedForAnotherSha);
    }
  }

  lemma QaErrorsAfter(s: Status, repo: Repository)
    ensures Reports(Collected(s, repo), AcceptedForAnotherSha) <==> s.qa.state == "ACCEPTED" && s.qa.acceptedSha != repo.mainSha
    ensures Reports(Collected(s, repo), StaleForMain) <==>
              s.qa.state == "STALE" && (s.qa.acceptedSha == UNKNOWN_TEXT || s.qa.acceptedSha == repo.mainSha)
    ensures Reports(s, StaleForMain) <==>
              s.qa.state == "STALE" && (s.qa.acceptedSha == UNKNOWN_TEXT || s.qa.acceptedSha == s.mainSha)
    ensures !Reports(s, MergeWithoutAcceptance) && Reports(Collected(s, repo), MergeWithoutAcceptance) ==>
              s.qa.state == "ACCEPTED" && s.qa.acceptedSha != repo.mainSha
  {
  }
}
