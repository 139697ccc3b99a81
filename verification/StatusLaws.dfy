/**
 Exactly when a project status is valid, told by its fields, and which fields an observation
 of the public site and a collection of the repository change.
 */
module StatusLaws {
  import opened ProjectStatus

  /* ---------- Evidence and ids ---------- */

  predicate IsBackedBy(evidence: seq<Evidence>, kind: string) {
    exists e :: e in evidence && e.status == "VERIFIED" && e.kind == kind
  }

  /** Someone saw it, or was handed it. */
  predicate IsServiceBacked(evidence: seq<Evidence>) {
    IsBackedBy(evidence, "production_handoff") || IsBackedBy(evidence, "runtime_observation")
  }

  predicate IsProductionBacked(evidence: seq<Evidence>) {
    IsServiceBacked(evidence) || IsBackedBy(evidence, "release_manifest")
  }

  lemma BackedExactly(evidence: seq<Evidence>)
    ensures HasVerified(evidence, {"qa_task"}) <==> IsBackedBy(evidence, "qa_task")
    ensures HasVerified(evidence, OBSERVATION_KINDS) <==> IsBackedBy(evidence, "runtime_observation")
    ensures HasVerified(evidence, SERVICE_KINDS) <==> IsServiceBacked(evidence)
    ensures HasVerified(evidence, PRODUCTION_KINDS) <==> IsProductionBacked(evidence)
  {
    hide HasVerified, IsBackedBy;
    forall kind ensures HasVerified(evidence, {kind}) <==> IsBackedBy(evidence, kind) {
      KindExactly(evidence, kind);
    }
    KindsSplit(evidence, {"production_handoff"}, {"runtime_observation"});
    KindsSplit(evidence, SERVICE_KINDS, {"release_manifest"});
    assert SERVICE_KINDS == {"production_handoff"} + {"runtime_observation"};
    assert PRODUCTION_KINDS == SERVICE_KINDS + {"release_manifest"};
  }

  lemma KindExactly(evidence: seq<Evidence>, kind: string)
    ensures HasVerified(evidence, {kind}) <==> IsBackedBy(evidence, kind)
  {
    if e :| e in evidence && e.status == "VERIFIED" && e.kind == kind {
      var i :| 0 <= i < |evidence| && evidence[i] == e;
    }
  }

  lemma KindsSplit(evidence: seq<Evidence>, a: set<string>, b: set<string>)
    ensures HasVerified(evidence, a + b) <==> HasVerified(evidence, a) || HasVerified(evidence, b)
  {
  }

  predicate AreDistinct(ids: seq<string>) {
    forall i, j :: 0 <= i < j < |ids| ==> ids[i] != ids[j]
  }

  lemma DistinctExactly(ids: seq<string>)
    ensures AreDistinct(ids) <==> forall id :: !IsRepeated(ids, id)
  {
    if forall id :: !IsRepeated(ids, id) {
      forall i, j | 0 <= i < j < |ids| ensures ids[i] != ids[j] {
        assert !IsRepeated(ids, ids[i]);
      }
    }
  }

  predicate HaveOwnIds(capabilities: seq<Capability>) {
    forall i, j :: 0 <= i < j < |capabilities| ==> capabilities[i].id != capabilities[j].id
  }

  predicate HaveOwnNames(services: seq<Service>) {
    forall i, j :: 0 <= i < j < |services| ==> services[i].id != services[j].id
  }

  lemma IdsAreOwn(capabilities: seq<Capability>)
    ensures HaveOwnIds(capabilities) <==> forall id :: !IsRepeated(Ids(capabilities), id)
  {
    hide IsRepeated;
    DistinctExactly(Ids(capabilities));
    assert forall i :: 0 <= i < |capabilities| ==> Ids(capabilities)[i] == capabilities[i].id;
  }

  lemma NamesAreOwn(services: seq<Service>)
    ensures HaveOwnNames(services) <==> forall id :: !IsRepeated(ServiceIds(services), id)
  {
    hide IsRepeated;
    DistinctExactly(ServiceIds(services));
    assert forall i :: 0 <= i < |services| ==> ServiceIds(services)[i] == services[i].id;
  }

  /* ---------- Valid statuses ---------- */

  /** QA is accepted for this commit with a task, or stale for another; only the first allows a merge. */
  predicate QaIsHonest(s: Status) {
    && (s.qa.state == "ACCEPTED" ==>
          && s.qa.verdict == "PASS" && s.qa.acceptedSha == s.mainSha
          && s.qa.testedAt != "UNKNOWN" && s.qa.task != "UNKNOWN" && IsBackedBy(s.qa.evidence, "qa_task"))
    && (s.qa.state == "STALE" ==> s.qa.acceptedSha != "UNKNOWN" && s.qa.acceptedSha != s.mainSha)
    && (s.qa.mergeAllowed ==> s.qa.state == "ACCEPTED")
  }

  predicate AreKnown(values: seq<Value>) {
    forall i :: 0 <= i < |values| ==> values[i] != Text("UNKNOWN") && values[i] != Text("NOT_VERIFIED")
  }

  /** What runs is known from evidence, and what is not known is said to be so. */
  predicate ProductionIsHonest(p: Production) {
    && (p.runtimeSha != Text("UNKNOWN") ==> IsProductionBacked(p.evidence))
    && (forall c :: c in p.capabilities && c.status == "DEPLOYED" ==>
          p.runtimeSha != Text("UNKNOWN") && IsProductionBacked(c.evidence))
    && (p.state == "VERIFIED" ==>
          && Text("UNKNOWN") !in [p.runtimeSha, p.mirrored.operationalRevision, p.mirrored.publicRevision, p.deployedAt, p.acceptanceTask]
          && IsProductionBacked(p.evidence))
    && (|| (exists e :: e in p.evidence && e.status == "NOT_VERIFIED")
        || AreKnown([p.runtimeSha, p.mirrored.operationalRevision, p.mirrored.publicRevision,
                     p.mirrored.semanticReadyCount, p.mirrored.publicReadyCount, p.deployedAt]))
  }

  /** Users are said to see something. */
  predicate IsClaimed(v: Visible) {
    v.siteState == "LIVE" || v.apiState == "LIVE" || v.ssrState == "VERIFIED" || exists c :: c in v.capabilities && c.status == "VISIBLE"
  }

  /** What they are said to see was observed, at a known time. */
  predicate VisibleIsHonest(v: Visible) {
    && (IsClaimed(v) ==> v.verifiedAt != Text("UNKNOWN") && IsBackedBy(v.evidence, "runtime_observation"))
    && (forall c :: c in v.capabilities && c.status == "VISIBLE" ==> IsBackedBy(c.evidence, "runtime_observation"))
  }

  predicate StatesAreHonest(s: Status) {
    && (s.incidents.state == "CLEAR" ==> exists e :: e in s.incidents.evidence && e.status == "VERIFIED")
    && (s.incidents.state == "ACTIVE" ==> |s.incidents.active| > 0)
    && (forall service :: service in s.services && (service.state == "HEALTHY" || service.state == "DEGRADED" || service.state == "DOWN") ==>
          IsServiceBacked(service.evidence))
  }

  predicate IdsAreUnique(s: Status) {
    && HaveOwnIds(s.code.capabilities) && HaveOwnIds(s.qa.capabilities) && HaveOwnIds(s.production.capabilities)
    && HaveOwnIds(s.visible.capabilities) && HaveOwnNames(s.services)
  }

  /** Everything that a valid status has to be. */
  predicate IsHonest(s: Status) {
    && s.code.mainSha == s.mainSha && IdsAreUnique(s)
    && QaIsHonest(s) && ProductionIsHonest(s.production) && VisibleIsHonest(s.visible)
    && s.data.mirrored == s.production.mirrored
    && (|| s.visible.activeReleaseId == s.production.mirrored.activeReleaseId
        || s.visible.activeReleaseId == Text("UNKNOWN") || s.production.mirrored.activeReleaseId == Text("UNKNOWN"))
    && StatesAreHonest(s)
  }

  ghost predicate NothingOf(s: Status, group: Group) {
    forall e: Error :: GroupOf(e) == group ==> !Reports(s, e)
  }

  lemma IdsExactly(s: Status)
    ensures NothingOf(s, CodeGroup) <==> s.code.mainSha == s.mainSha && IdsAreUnique(s)
  {
    hide IsRepeated, HaveOwnIds, HaveOwnNames;
    IdsAreOwn(s.code.capabilities);
    IdsAreOwn(s.qa.capabilities);
    IdsAreOwn(s.production.capabilities);
    IdsAreOwn(s.visible.capabilities);
    NamesAreOwn(s.services);
    if NothingOf(s, CodeGroup) {
      assert !Reports(s, CodeShaDiffers);
      forall id
        ensures !IsRepeated(Ids(s.code.capabilities), id) && !IsRepeated(Ids(s.qa.capabilities), id)
        ensures !IsRepeated(Ids(s.production.capabilities), id) && !IsRepeated(Ids(s.visible.capabilities), id)
        ensures !IsRepeated(ServiceIds(s.services), id)
      {
        assert !Reports(s, DuplicateId(CodeSection, id)) && !Reports(s, DuplicateId(QaSection, id));
        assert !Reports(s, DuplicateId(ProductionSection, id)) && !Reports(s, DuplicateId(VisibleSection, id));
        assert !Reports(s, DuplicateId(ServiceSection, id));
      }
    }
  }

  lemma QaExactly(s: Status)
    ensures NothingOf(s, QaGroup) <==> QaIsHonest(s)
  {
    hide HasVerified, IsBackedBy;
    BackedExactly(s.qa.evidence);
    if NothingOf(s, QaGroup) {
      assert !Reports(s, AcceptedWithoutPass) && !Reports(s, AcceptedForAnotherSha) && !Reports(s, AcceptedWithoutTask);
      assert !Reports(s, AcceptedWithoutEvidence) && !Reports(s, StaleForMain) && !Reports(s, MergeWithoutAcceptance);
    }
  }

  /** Whether a capability lacks evidence, whatever its id. */
  lemma LackingExactly(capabilities: seq<Capability>, status: string, kinds: set<string>)
    ensures (forall id :: !LacksEvidence(capabilities, id, status, kinds)) <==>
              forall c :: c in capabilities && c.status == status ==> HasVerified(c.evidence, kinds)
  {
    hide HasVerified;
    if forall id :: !LacksEvidence(capabilities, id, status, kinds) {
      forall c | c in capabilities && c.status == status ensures HasVerified(c.evidence, kinds) {
        var i :| 0 <= i < |capabilities| && capabilities[i] == c;
        assert !LacksEvidence(capabilities, c.id, status, kinds);
      }
    }
  }

  lemma ProvenanceExactly(evidence: seq<Evidence>)
    ensures HasProvenance(evidence) <==> exists e :: e in evidence && e.status == "NOT_VERIFIED"
  {
    if e :| e in evidence && e.status == "NOT_VERIFIED" {
      var i :| 0 <= i < |evidence| && evidence[i] == e;
    }
  }

  lemma UnknownExactly(p: Production)
    ensures !HasUnknown(p) <==>
              AreKnown([p.runtimeSha, p.mirrored.operationalRevision, p.mirrored.publicRevision,
                        p.mirrored.semanticReadyCount, p.mirrored.publicReadyCount, p.deployedAt])
  {
    var values := [p.runtimeSha, p.mirrored.operationalRevision, p.mirrored.publicRevision,
                   p.mirrored.semanticReadyCount, p.mirrored.publicReadyCount, p.deployedAt];
    assert values[0] == p.runtimeSha && values[1] == p.mirrored.operationalRevision && values[2] == p.mirrored.publicRevision;
    assert values[3] == p.mirrored.semanticReadyCount && values[4] == p.mirrored.publicReadyCount && values[5] == p.deployedAt;
  }

  lemma ExplicitExactly(p: Production)
    ensures IsExplicit(p) <==>
              Text("UNKNOWN") !in [p.runtimeSha, p.mirrored.operationalRevision, p.mirrored.publicRevision, p.deployedAt, p.acceptanceTask]
  {
    var values := [p.runtimeSha, p.mirrored.operationalRevision, p.mirrored.publicRevision, p.deployedAt, p.acceptanceTask];
    assert values[0] == p.runtimeSha && values[1] == p.mirrored.operationalRevision && values[2] == p.mirrored.publicRevision;
    assert values[3] == p.deployedAt && values[4] == p.acceptanceTask;
  }

  lemma ProductionExactly(s: Status)
    ensures NothingOf(s, ProductionGroup) <==> ProductionIsHonest(s.production)
  {
    hide Reports, GroupOf, HasVerified, LacksEvidence, IsProductionBacked, AreKnown;
    var p := s.production;
    ProductionErrorExactly(s);
    LackingExactly(p.capabilities, "DEPLOYED", PRODUCTION_KINDS);
    forall c | c in p.capabilities ensures HasVerified(c.evidence, PRODUCTION_KINDS) <==> IsProductionBacked(c.evidence) {
      BackedExactly(c.evidence);
    }
    forall id ensures Reports(s, DeployedWithoutEvidence(id)) <==> LacksEvidence(p.capabilities, id, "DEPLOYED", PRODUCTION_KINDS) {
      NamedReported(s, id);
    }
    NothingOfProduction(s);
  }

  lemma NothingOfProduction(s: Status)
    ensures NothingOf(s, ProductionGroup) <==>
              && !Reports(s, RuntimeWithoutEvidence) && !Reports(s, DeployedWithoutRuntime) && !Reports(s, VerifiedNotExplicit)
              && !Reports(s, VerifiedWithoutEvidence) && !Reports(s, UnknownWithoutProvenance)
              && forall id :: !Reports(s, DeployedWithoutEvidence(id))
  {
    hide Reports;
  }

  lemma ClaimExactly(v: Visible)
    ensures ClaimsVisibility(v) <==> IsClaimed(v)
  {
    if c :| c in v.capabilities && c.status == "VISIBLE" {
      var i :| 0 <= i < |v.capabilities| && v.capabilities[i] == c;
    }
  }

  lemma VisibleExactly(s: Status)
    ensures NothingOf(s, VisibleGroup) <==> VisibleIsHonest(s.visible)
  {
    hide HasVerified, ClaimsVisibility, LacksEvidence, IsBackedBy, IsClaimed;
    var v := s.visible;
    BackedExactly(v.evidence);
    ClaimExactly(v);
    LackingExactly(v.capabilities, "VISIBLE", OBSERVATION_KINDS);
    forall c | c in v.capabilities ensures HasVerified(c.evidence, OBSERVATION_KINDS) <==> IsBackedBy(c.evidence, "runtime_observation") {
      BackedExactly(c.evidence);
    }
    if NothingOf(s, VisibleGroup) {
      assert !Reports(s, VisibleWithoutTime) && !Reports(s, VisibleWithoutObservation);
      forall id ensures !LacksEvidence(v.capabilities, id, "VISIBLE", OBSERVATION_KINDS) {
        assert !Reports(s, CapabilityWithoutObservation(id));
      }
    }
  }

  lemma DataExactly(s: Status)
    ensures NothingOf(s, DataGroup) <==>
              && s.data.mirrored == s.production.mirrored
              && (|| s.visible.activeReleaseId == s.production.mirrored.activeReleaseId
                  || s.visible.activeReleaseId == Text("UNKNOWN") || s.production.mirrored.activeReleaseId == Text("UNKNOWN"))
  {
    hide Reports;
    MirroredExactly(s);
    DisagreeExactly(s);
    if NothingOf(s, DataGroup) {
      assert !Reports(s, ReleasesDisagree);
      forall field ensures !Reports(s, NotMirrored(field)) {
      }
    }
  }

  lemma DisagreeExactly(s: Status)
    ensures !Reports(s, ReleasesDisagree) <==>
              || s.visible.activeReleaseId == s.production.mirrored.activeReleaseId
              || s.visible.activeReleaseId == Text("UNKNOWN") || s.production.mirrored.activeReleaseId == Text("UNKNOWN")
  {
  }

  lemma MirroredExactly(s: Status)
    ensures (forall field :: !Reports(s, NotMirrored(field))) <==> s.data.mirrored == s.production.mirrored
  {
    hide Reports;
    MirrorErrorExactly(s);
    if forall field :: !Reports(s, NotMirrored(field)) {
      assert !Reports(s, NotMirrored(OperationalRevision)) && !Reports(s, NotMirrored(PublicRevision));
      assert !Reports(s, NotMirrored(ActiveReleaseId)) && !Reports(s, NotMirrored(ActiveReleaseRecordCount));
      assert !Reports(s, NotMirrored(ActiveReleaseCohort)) && !Reports(s, NotMirrored(SemanticReadyCount));
      assert !Reports(s, NotMirrored(PublicReadyCount));
    }
    if s.data.mirrored == s.production.mirrored {
      forall field ensures !Reports(s, NotMirrored(field)) {
        MirrorReported(s, field);
      }
    }
  }

  lemma AnyVerifiedExactly(evidence: seq<Evidence>)
    ensures HasAnyVerified(evidence) <==> exists e :: e in evidence && e.status == "VERIFIED"
  {
    if e :| e in evidence && e.status == "VERIFIED" {
      var i :| 0 <= i < |evidence| && evidence[i] == e;
    }
  }

  lemma ReportedExactly(services: seq<Service>)
    ensures (forall id :: !IsReported(services, id)) <==> forall service :: service in services ==> !IsUnsupported(service)
  {
    hide IsUnsupported;
    if forall id :: !IsReported(services, id) {
      forall service | service in services ensures !IsUnsupported(service) {
        var i :| 0 <= i < |services| && services[i] == service;
        assert !IsReported(services, service.id);
      }
    }
  }

  lemma StatesExactly(s: Status)
    ensures NothingOf(s, StateGroup) <==> StatesAreHonest(s)
  {
    hide HasVerified, HasAnyVerified, IsReported, IsServiceBacked;
    AnyVerifiedExactly(s.incidents.evidence);
    ReportedExactly(s.services);
    forall service | service in s.services ensures HasVerified(service.evidence, SERVICE_KINDS) <==> IsServiceBacked(service.evidence) {
      BackedExactly(service.evidence);
    }
    if NothingOf(s, StateGroup) {
      assert !Reports(s, ClearWithoutEvidence) && !Reports(s, ActiveWithoutIncident);
      forall id ensures !IsReported(s.services, id) {
        assert !Reports(s, ServiceWithoutEvidence(id));
      }
    }
  }

  /** A status is valid exactly when it is honest in every section. */
  lemma ValidExactly(s: Status)
    ensures IsValid(s) <==> IsHonest(s)
  {
    hide Reports, GroupOf, IdsAreUnique, QaIsHonest, ProductionIsHonest, VisibleIsHonest, StatesAreHonest;
    IdsExactly(s);
    QaExactly(s);
    ProductionExactly(s);
    VisibleExactly(s);
    DataExactly(s);
    StatesExactly(s);
    if IsHonest(s) {
      forall e: Error ensures !Reports(s, e) {
        assert NothingOf(s, GroupOf(e));
      }
    }
  }

  /* ---------- Single errors ---------- */

  predicate IsNamedTwice(s: Status, section: Section, id: string) {
    match section
    case CodeSection => exists i, j :: 0 <= i < j < |s.code.capabilities| && s.code.capabilities[i].id == s.code.capabilities[j].id == id
    case QaSection => exists i, j :: 0 <= i < j < |s.qa.capabilities| && s.qa.capabilities[i].id == s.qa.capabilities[j].id == id
    case ProductionSection =>
      exists i, j :: 0 <= i < j < |s.production.capabilities| && s.production.capabilities[i].id == s.production.capabilities[j].id == id
    case VisibleSection =>
      exists i, j :: 0 <= i < j < |s.visible.capabilities| && s.visible.capabilities[i].id == s.visible.capabilities[j].id == id
    case ServiceSection => exists i, j :: 0 <= i < j < |s.services| && s.services[i].id == s.services[j].id == id
  }

  lemma NamedTwiceExactly(s: Status, section: Section, id: string)
    ensures Reports(s, DuplicateId(section, id)) <==> IsNamedTwice(s, section, id)
  {
    CapabilityNamedTwice(s.code.capabilities, id);
    CapabilityNamedTwice(s.qa.capabilities, id);
    CapabilityNamedTwice(s.production.capabilities, id);
    CapabilityNamedTwice(s.visible.capabilities, id);
    ServiceNamedTwice(s.services, id);
    hide IsRepeated;
  }

  lemma CapabilityNamedTwice(capabilities: seq<Capability>, id: string)
    ensures IsRepeated(Ids(capabilities), id) <==>
              exists i, j :: 0 <= i < j < |capabilities| && capabilities[i].id == capabilities[j].id == id
  {
    assert forall i :: 0 <= i < |capabilities| ==> Ids(capabilities)[i] == capabilities[i].id;
  }

  lemma ServiceNamedTwice(services: seq<Service>, id: string)
    ensures IsRepeated(ServiceIds(services), id) <==>
              exists i, j :: 0 <= i < j < |services| && services[i].id == services[j].id == id
  {
    assert forall i :: 0 <= i < |services| ==> ServiceIds(services)[i] == services[i].id;
  }

  /** An error about one capability or service names it. */
  lemma NamedErrorExactly(s: Status, id: string)
    ensures Reports(s, DeployedWithoutEvidence(id)) <==>
              exists c :: c in s.production.capabilities && c.id == id && c.status == "DEPLOYED" && !IsProductionBacked(c.evidence)
    ensures Reports(s, CapabilityWithoutObservation(id)) <==>
              exists c :: c in s.visible.capabilities && c.id == id && c.status == "VISIBLE" && !IsBackedBy(c.evidence, "runtime_observation")
    ensures Reports(s, ServiceWithoutEvidence(id)) <==>
              exists service :: service in s.services && service.id == id
                                && (service.state == "HEALTHY" || service.state == "DEGRADED" || service.state == "DOWN")
                                && !IsServiceBacked(service.evidence)
  {
    hide HasVerified, IsBackedBy, IsServiceBacked, IsProductionBacked, Reports;
    NamedReported(s, id);
    forall evidence: seq<Evidence>
      ensures HasVerified(evidence, PRODUCTION_KINDS) <==> IsProductionBacked(evidence)
      ensures HasVerified(evidence, OBSERVATION_KINDS) <==> IsBackedBy(evidence, "runtime_observation")
      ensures HasVerified(evidence, SERVICE_KINDS) <==> IsServiceBacked(evidence)
    {
      BackedExactly(evidence);
    }
  }

  lemma NamedReported(s: Status, id: string)
    ensures Reports(s, DeployedWithoutEvidence(id)) <==> LacksEvidence(s.production.capabilities, id, "DEPLOYED", PRODUCTION_KINDS)
    ensures Reports(s, CapabilityWithoutObservation(id)) <==> LacksEvidence(s.visible.capabilities, id, "VISIBLE", OBSERVATION_KINDS)
    ensures Reports(s, ServiceWithoutEvidence(id)) <==> IsReported(s.services, id)
  {
    hide LacksEvidence, IsReported;
  }

  lemma QaErrorExactly(s: Status)
    ensures Reports(s, AcceptedWithoutPass) <==> s.qa.state == "ACCEPTED" && s.qa.verdict != "PASS"
    ensures Reports(s, AcceptedForAnotherSha) <==> s.qa.state == "ACCEPTED" && s.qa.acceptedSha != s.mainSha
    ensures Reports(s, AcceptedWithoutTask) <==> s.qa.state == "ACCEPTED" && "UNKNOWN" in [s.qa.testedAt, s.qa.task]
    ensures Reports(s, AcceptedWithoutEvidence) <==> s.qa.state == "ACCEPTED" && !IsBackedBy(s.qa.evidence, "qa_task")
    ensures Reports(s, StaleForMain) <==> s.qa.state == "STALE" && s.qa.acceptedSha in ["UNKNOWN", s.mainSha]
    ensures Reports(s, MergeWithoutAcceptance) <==>
              s.qa.mergeAllowed && !(s.qa.state == "ACCEPTED" && s.qa.verdict == "PASS" && s.qa.acceptedSha == s.mainSha)
    ensures Reports(s, MergeWhileNotAccepted) <==>
              s.qa.mergeAllowed && (s.qa.state == "NOT_ACCEPTED" || s.qa.state == "STALE" || s.qa.state == "UNKNOWN")
  {
    hide HasVerified, IsBackedBy;
    BackedExactly(s.qa.evidence);
  }

  lemma ProductionErrorExactly(s: Status)
    ensures var p := s.production;
            && (Reports(s, RuntimeWithoutEvidence) <==> p.runtimeSha != Text("UNKNOWN") && !IsProductionBacked(p.evidence))
            && (Reports(s, DeployedWithoutRuntime) <==>
                  p.runtimeSha == Text("UNKNOWN") && exists c :: c in p.capabilities && c.status == "DEPLOYED")
            && (Reports(s, VerifiedNotExplicit) <==>
                  p.state == "VERIFIED"
                  && Text("UNKNOWN") in [p.runtimeSha, p.mirrored.operationalRevision, p.mirrored.publicRevision, p.deployedAt, p.acceptanceTask])
            && (Reports(s, VerifiedWithoutEvidence) <==> p.state == "VERIFIED" && !IsProductionBacked(p.evidence))
            && (Reports(s, UnknownWithoutProvenance) <==>
                  !AreKnown([p.runtimeSha, p.mirrored.operationalRevision, p.mirrored.publicRevision,
                             p.mirrored.semanticReadyCount, p.mirrored.publicReadyCount, p.deployedAt])
                  && forall e :: e in p.evidence ==> e.status != "NOT_VERIFIED")
  {
    hide HasVerified, HasProvenance, HasUnknown, IsExplicit, IsProductionBacked, AreKnown;
    var p := s.production;
    BackedExactly(p.evidence);
    ProvenanceExactly(p.evidence);
    UnknownExactly(p);
    ExplicitExactly(p);
    if c :| c in p.capabilities && c.status == "DEPLOYED" {
      var i :| 0 <= i < |p.capabilities| && p.capabilities[i] == c;
    }
  }

  lemma VisibleErrorExactly(s: Status)
    ensures Reports(s, VisibleWithoutTime) <==> IsClaimed(s.visible) && s.visible.verifiedAt == Text("UNKNOWN")
    ensures Reports(s, VisibleWithoutObservation) <==> IsClaimed(s.visible) && !IsBackedBy(s.visible.evidence, "runtime_observation")
  {
    hide HasVerified, ClaimsVisibility, IsBackedBy, IsClaimed;
    BackedExactly(s.visible.evidence);
    ClaimExactly(s.visible);
  }

  lemma StateErrorExactly(s: Status)
    ensures Reports(s, CodeShaDiffers) <==> s.code.mainSha != s.mainSha
    ensures Reports(s, ReleasesDisagree) <==>
              s.visible.activeReleaseId != s.production.mirrored.activeReleaseId
              && Text("UNKNOWN") !in [s.visible.activeReleaseId, s.production.mirrored.activeReleaseId]
    ensures Reports(s, ClearWithoutEvidence) <==> s.incidents.state == "CLEAR" && forall e :: e in s.incidents.evidence ==> e.status != "VERIFIED"
    ensures Reports(s, ActiveWithoutIncident) <==> s.incidents.state == "ACTIVE" && |s.incidents.active| == 0
  {
    hide HasAnyVerified;
    AnyVerifiedExactly(s.incidents.evidence);
  }

  lemma MirrorErrorExactly(s: Status)
    ensures Reports(s, NotMirrored(OperationalRevision)) <==> s.data.mirrored.operationalRevision != s.production.mirrored.operationalRevision
    ensures Reports(s, NotMirrored(PublicRevision)) <==> s.data.mirrored.publicRevision != s.production.mirrored.publicRevision
    ensures Reports(s, NotMirrored(ActiveReleaseId)) <==> s.data.mirrored.activeReleaseId != s.production.mirrored.activeReleaseId
    ensures Reports(s, NotMirrored(ActiveReleaseRecordCount)) <==>
              s.data.mirrored.activeReleaseRecordCount != s.production.mirrored.activeReleaseRecordCount
    ensures Reports(s, NotMirrored(ActiveReleaseCohort)) <==> s.data.mirrored.activeReleaseCohort != s.production.mirrored.activeReleaseCohort
    ensures Reports(s, NotMirrored(SemanticReadyCount)) <==> s.data.mirrored.semanticReadyCount != s.production.mirrored.semanticReadyCount
    ensures Reports(s, NotMirrored(PublicReadyCount)) <==> s.data.mirrored.publicReadyCount != s.production.mirrored.publicReadyCount
  {
    hide Reports;
    forall field ensures Reports(s, NotMirrored(field)) <==> s.data.mirrored.Get(field) != s.production.mirrored.Get(field) {
      MirrorReported(s, field);
    }
  }

  lemma MirrorReported(s: Status, field: Field)
    ensures Reports(s, NotMirrored(field)) <==> s.data.mirrored.Get(field) != s.production.mirrored.Get(field)
  {
  }

  /* ---------- What an observation changes ---------- */

  /** A verified observation at this time, saying this. */
  predicate Says(e: Evidence, text: string, at: string) {
    e.status == "VERIFIED" && e.kind == "runtime_observation" && e.reference == text && e.observedAt == at
  }

  /** Of some evidence exactly what is not verified, in its order. */
  ghost predicate IsUnverifiedPart(part: seq<Evidence>, evidence: seq<Evidence>) {
    exists places: seq<nat> :: ArePlaces(places, part, evidence)
  }

  /** The part is what stands at these places, and only there something is not verified. */
  ghost predicate ArePlaces(places: seq<nat>, part: seq<Evidence>, evidence: seq<Evidence>) {
    && |places| == |part|
    && (forall i :: 0 <= i < |part| ==> places[i] < |evidence| && part[i] == evidence[places[i]])
    && (forall i, j :: 0 <= i < j < |places| ==> places[i] < places[j])
    && forall k: nat :: k < |evidence| ==> (evidence[k].status == "NOT_VERIFIED" <==> k in places)
  }

  lemma {:induction false} ProvenanceIsPart(evidence: seq<Evidence>)
    ensures IsUnverifiedPart(Provenance(evidence), evidence)
  {
    hide ArePlaces;
    if evidence == [] {
      NothingIsPart();
    } else {
      var n := |evidence| - 1;
      ProvenanceIsPart(evidence[..n]);
      var places: seq<nat> :| ArePlaces(places, Provenance(evidence[..n]), evidence[..n]);
      if IsProvenance(evidence[n]) {
        PlaceIsAdded(evidence, Provenance(evidence[..n]), places);
      } else {
        NoPlaceIsAdded(evidence, Provenance(evidence[..n]), places);
        assert Provenance(evidence) == Provenance(evidence[..n]);
      }
    }
  }

  lemma NothingIsPart()
    ensures IsUnverifiedPart([], [])
  {
    assert ArePlaces([], [], []);
  }

  lemma NoPlaceIsAdded(evidence: seq<Evidence>, part: seq<Evidence>, places: seq<nat>)
    requires evidence != [] && ArePlaces(places, part, evidence[..|evidence| - 1]) && !IsProvenance(evidence[|evidence| - 1])
    ensures ArePlaces(places, part, evidence)
  {
    var n := |evidence| - 1;
    assert n !in places;
    assert forall k: nat :: k < n ==> evidence[..n][k] == evidence[k];
  }

  lemma PlaceIsAdded(evidence: seq<Evidence>, part: seq<Evidence>, places: seq<nat>)
    requires evidence != [] && ArePlaces(places, part, evidence[..|evidence| - 1]) && IsProvenance(evidence[|evidence| - 1])
    ensures ArePlaces(places + [|evidence| - 1], part + [evidence[|evidence| - 1]], evidence)
  {
    var n := |evidence| - 1;
    var more := places + [n];
    assert more[|places|] == n;
    forall k: nat | k < |evidence| ensures evidence[k].status == "NOT_VERIFIED" <==> k in more {
      assert k < n ==> evidence[..n][k] == evidence[k];
    }
  }

  /** Observing tells the release, the time and the evidence in every section that shows them, and keeps all else. */
  lemma ObservingShows(s: Status, o: Observation, decimal: nat -> string)
    ensures var after := Applied(s, o, decimal);
            var p, v, d := after.production, after.visible, after.data;
            && after.generatedAt == o.observedAt
            && v.activeReleaseId == p.mirrored.activeReleaseId == d.mirrored.activeReleaseId == Text(o.releaseId)
            && p.mirrored.activeReleaseRecordCount == d.mirrored.activeReleaseRecordCount == Number(o.recordCount)
            && p.state == p.serviceState == v.state == "PARTIALLY_VERIFIED" && v.siteState == v.apiState == "LIVE"
            && v.verifiedAt == Text(o.observedAt)
    ensures KeepsTheRest(s, Applied(s, o, decimal))
  {
    hide Observed, Provenance, ReadyText, SiteText, WebText, ApiText, HealthText;
  }

  /** Only the fields that an observation is about differ. */
  predicate KeepsTheRest(s: Status, t: Status) {
    && t.mainSha == s.mainSha && t.code == s.code && t.qa == s.qa && t.incidents == s.incidents
    && t.production.runtimeSha == s.production.runtimeSha && t.production.deployedAt == s.production.deployedAt
    && t.production.acceptanceTask == s.production.acceptanceTask && t.production.capabilities == s.production.capabilities
    && t.visible.ssrState == s.visible.ssrState && t.visible.capabilities == s.visible.capabilities
    && KeepsOtherMirrored(s.production.mirrored, t.production.mirrored) && KeepsOtherMirrored(s.data.mirrored, t.data.mirrored)
  }

  predicate KeepsOtherMirrored(m: Mirrored, n: Mirrored) {
    && n.operationalRevision == m.operationalRevision && n.publicRevision == m.publicRevision
    && n.activeReleaseCohort == m.activeReleaseCohort && n.semanticReadyCount == m.semanticReadyCount
    && n.publicReadyCount == m.publicReadyCount
  }

  /** The evidence afterwards: what was seen, and what was known not to be verified before. */
  lemma ObservingLeavesEvidence(s: Status, o: Observation, decimal: nat -> string)
    ensures var after := Applied(s, o, decimal);
            var p, v, d := after.production.evidence, after.visible.evidence, after.data.evidence;
            && |p| >= 2 && Says(p[0], o.base + "/api/health returned status=ok", o.observedAt)
            && Says(p[1], o.base + "/api/ready returned ready with release_id and record_count=" + decimal(o.recordCount), o.observedAt)
            && IsUnverifiedPart(p[2..], s.production.evidence)
            && d == p[1..]
            && |v| == 1 && Says(v[0], o.base + "/, /api/health, and /api/ready returned valid HTTP 200 responses", o.observedAt)
  {
    hide Observed, Provenance, IsUnverifiedPart;
    ProvenanceIsPart(s.production.evidence);
    var p := Applied(s, o, decimal).production.evidence;
    assert p[2..] == Provenance(s.production.evidence);
    assert p[1..] == Applied(s, o, decimal).data.evidence;
  }

  /* ---------- Services ---------- */

  predicate IsLastOf(i: nat, services: seq<Service>, id: string) {
    i < |services| && services[i].id == id && forall k :: i < k < |services| ==> services[k].id != id
  }

  predicate IsNamed(services: seq<Service>, id: string) {
    exists i: nat :: i < |services| && services[i].id == id
  }

  /** Seen healthy: the id and the environment are kept. */
  predicate IsSeen(t: Service, id: string, environment: string, text: string, at: string) {
    t.id == id && t.environment == environment && t.state == "HEALTHY" && |t.evidence| == 1 && Says(t.evidence[0], text, at)
  }

  /** One service is seen: its last place changes, or it is added at the end. */
  predicate SeesOne(services: seq<Service>, after: seq<Service>, id: string, text: string, at: string) {
    && |after| == |services| + (if IsNamed(services, id) then 0 else 1)
    && (forall i: nat :: i < |services| ==>
          if IsLastOf(i, services, id) then IsSeen(after[i], id, services[i].environment, text, at) else after[i] == services[i])
    && (!IsNamed(services, id) ==> IsSeen(after[|services|], id, "production", text, at))
  }

  lemma ObservedSeesOne(services: seq<Service>, id: string, text: string, at: string)
    ensures SeesOne(services, Observed(services, id, Seen(text, at)), id, text, at)
  {
    hide LastIndex;
    var i := LastIndex(services, id);
    if i >= 0 {
      assert IsNamed(services, id);
      assert IsLastOf(i, services, id);
    } else {
      assert !IsNamed(services, id);
    }
    forall k: nat | IsLastOf(k, services, id) ensures k == i {
    }
  }

  /** The two services are seen, the site first; no other service changes or moves. */
  lemma ObservingSeesBoth(s: Status, o: Observation, decimal: nat -> string) returns (between: seq<Service>)
    ensures SeesOne(s.services, between, "public-web", o.base + "/ returned HTTP 200", o.observedAt)
    ensures SeesOne(between, Applied(s, o, decimal).services, "public-api",
                    o.base + "/api/health and /api/ready returned valid HTTP 200 responses", o.observedAt)
  {
    hide Observed, SeesOne;
    between := Observed(s.services, "public-web", Seen(WebText(o.base), o.observedAt));
    ObservedSeesOne(s.services, "public-web", WebText(o.base), o.observedAt);
    ObservedSeesOne(between, "public-api", ApiText(o.base), o.observedAt);
  }

  /* ---------- What a collection changes ---------- */

  /** Collecting takes over what the repository answers and keeps all else. */
  lemma CollectingShows(s: Status, repo: Repository)
    ensures var t := Collected(s, repo);
            && t.mainSha == t.code.mainSha == repo.mainSha && t.generatedAt == repo.observedAt && t.code.state == "VERIFIED"
            && t.code.mergedPr == repo.mergedPr && t.code.heads == repo.heads
            && t.code.artifact.evidence == [repo.artifactEvidence]
            && t.code.artifact.state == (if repo.artifactExists then "PRESENT" else "ABSENT")
            && (repo.artifactExists ==> t.code.artifact.sha256 == repo.artifactDigest)
            && (!repo.artifactExists ==> t.code.artifact.sha256 == "UNKNOWN")
            && t.code.artifact.path == s.code.artifact.path && t.code.capabilities == s.code.capabilities
            && t.qa == s.qa && t.production == s.production && t.visible == s.visible && t.data == s.data
            && t.incidents == s.incidents && t.services == s.services
  {
  }
}
