/** From an enforcement response to receipt, forensic evidence and displayed state. */
module Receipts {
  import opened Bytes
  import opened Options
  import Pep

  datatype Result<+T> = Ok(value: T) | Raised

  datatype Status = ENFORCED | UNAVAILABLE | FAILED | SIMULATED

  datatype Label = BLOCKED | PROVIDER_UNAVAILABLE | ENFORCEMENT_FAILED | OBSERVE

  const PEP_ALLOW: int := 0
  const PEP_BLOCK: int := 1
  const PEP_ESCALATE: int := 4
  const REASON_WFP_UNAVAILABLE: int := 4

  const ACTIONS: set<int> := {1, 2, 3, 4}

  datatype Request = Request(
    requestId: int, eventId: int, policyId: int, traceId: int, auditId: int,
    requestedAction: int, severity: int, capabilityMask: int, reason: string)

  predicate RequestValid(r: Request) {
    && r.requestId > 0 && r.eventId > 0 && r.traceId > 0 && r.auditId > 0
    && r.policyId >= 0 && r.severity >= 0 && r.capabilityMask >= 0
    && r.requestedAction in ACTIONS && r.reason != ""
  }

  /** The response mapping: an absent decision counts as an escalation, an absent reason as 0. */
  datatype Response = Response(decision: Option<int>, reason: Option<int>)

  function DecisionOf(r: Response): int {
    if r.decision.Some? then r.decision.value else PEP_ESCALATE
  }

  function ReasonOf(r: Response): int {
    if r.reason.Some? then r.reason.value else 0
  }

  datatype Receipt = Receipt(
    requestId: int, eventId: int, policyId: int, decision: int, status: Status, provider: string,
    filterId: int, confirmed: bool, enforcedMode: bool, traceId: int, auditId: int, version: int)

  const RECEIPT_VERSION: int := 1

  predicate ReceiptValid(r: Receipt) {
    && r.version == RECEIPT_VERSION && r.requestId > 0 && r.eventId > 0 && r.policyId >= 0 && r.filterId >= 0
    && r.provider != ""
    && (r.status.ENFORCED? ==> r.confirmed)
    && (!r.enforcedMode ==> !r.confirmed)
    && (!r.status.ENFORCED? ==> !r.confirmed)
  }

  function ReceiptFromResponse(resp: Response, req: Request, provider: string, filterId: int, confirmed: bool)
    : Result<Receipt>
  {
    var decision, reason := DecisionOf(resp), ReasonOf(resp);
    var enforced := decision == PEP_BLOCK && confirmed && filterId > 0;
    var status :=
      if enforced then ENFORCED
      else if decision == PEP_ESCALATE && reason == REASON_WFP_UNAVAILABLE then UNAVAILABLE
      else if decision == PEP_ALLOW then SIMULATED
      else FAILED;
    var receipt := Receipt(
      req.requestId, req.eventId, req.policyId, decision, status, provider,
      if enforced then filterId else 0, enforced, enforced, req.traceId, req.auditId, RECEIPT_VERSION);
    if ReceiptValid(receipt) then Ok(receipt) else Raised
  }

  datatype Evidence = Evidence(
    eventId: int, auditId: int, traceId: int, policyId: int, decision: int, status: Status,
    confirmed: bool, provider: string, filterId: int, version: int)

  predicate EvidenceValid(e: Evidence) {
    && e.eventId > 0 && e.auditId > 0 && e.traceId > 0 && e.policyId >= 0 && e.filterId >= 0
    && e.decision >= 0 && e.provider != "" && (e.status.ENFORCED? <==> e.confirmed)
  }

  predicate Matches(e: Evidence, r: Receipt) {
    && e.eventId == r.eventId && e.auditId == r.auditId && e.traceId == r.traceId && e.policyId == r.policyId
    && e.decision == r.decision && e.status == r.status && e.confirmed == r.confirmed
    && e.provider == r.provider && e.filterId == r.filterId && e.version == r.version
  }

  function EvidenceFromReceipt(r: Receipt): Result<Evidence> {
    var e := Evidence(r.eventId, r.auditId, r.traceId, r.policyId, r.decision, r.status,
                      r.confirmed, r.provider, r.filterId, r.version);
    if ReceiptValid(r) && EvidenceValid(e) && Matches(e, r) then Ok(e) else Raised
  }

  datatype MouthState = MouthState(status: Status, display: Label, confirmed: bool, eventId: int, auditId: int)

  predicate MouthValid(m: MouthState) {
    if m.status.ENFORCED? then m.confirmed && m.display == BLOCKED else !m.confirmed
  }

  function MouthFromEvidence(e: Evidence): Result<MouthState> {
    if !EvidenceValid(e) then Raised
    else
      var m :=
        if e.status.ENFORCED? && e.confirmed then MouthState(ENFORCED, BLOCKED, true, e.eventId, e.auditId)
        else if e.status.UNAVAILABLE? then MouthState(UNAVAILABLE, PROVIDER_UNAVAILABLE, false, e.eventId, e.auditId)
        else if e.status.FAILED? then MouthState(FAILED, ENFORCEMENT_FAILED, false, e.eventId, e.auditId)
        else MouthState(e.status, OBSERVE, false, e.eventId, e.auditId);
      if MouthValid(m) then Ok(m) else Raised
  }

  datatype Shown = Shown(receipt: Receipt, evidence: Evidence, mouth: MouthState)

  function ProcessResponse(req: Request, resp: Response, provider: string, filterId: int, confirmed: bool): Result<Shown> {
    if !RequestValid(req) then Raised
    else
      match ReceiptFromResponse(resp, req, provider, filterId, confirmed)
      case Raised => Raised
      case Ok(receipt) =>
        match EvidenceFromReceipt(receipt)
        case Raised => Raised
        case Ok(evidence) =>
          match MouthFromEvidence(evidence)
          case Raised => Raised
          case Ok(mouth) => Ok(Shown(receipt, evidence, mouth))
  }

  /** The chain raises exactly for an invalid request, an empty provider or a negative decision. */
  lemma ChainRaises(req: Request, resp: Response, provider: string, filterId: int, confirmed: bool)
    ensures ProcessResponse(req, resp, provider, filterId, confirmed).Raised?
      <==> !RequestValid(req) || provider == "" || DecisionOf(resp) < 0
    ensures RequestValid(req) <==>
      && req.requestId >= 1 && req.eventId >= 1 && req.traceId >= 1 && req.auditId >= 1
      && req.policyId >= 0 && req.severity >= 0 && req.capabilityMask >= 0
      && 1 <= req.requestedAction <= 4 && |req.reason| > 0
    ensures DecisionOf(resp) == if resp.decision == None then 4 else resp.decision.value
  {}

  /** Otherwise identities are kept from end to end, nothing is shown as blocked without a confirmed
      host effect on a real filter, and unavailability is shown exactly for escalations with reason 4. */
  lemma ChainIsHonest(req: Request, resp: Response, provider: string, filterId: int, confirmed: bool)
    requires ProcessResponse(req, resp, provider, filterId, confirmed).Ok?
    ensures var s := ProcessResponse(req, resp, provider, filterId, confirmed).value;
      && Matches(s.evidence, s.receipt) && s.receipt.requestId == req.requestId
      && s.mouth.eventId == s.evidence.eventId == req.eventId && s.mouth.auditId == s.evidence.auditId == req.auditId
      && s.evidence.traceId == req.traceId && s.evidence.policyId == req.policyId
      && s.mouth.status == s.receipt.status && s.mouth.confirmed == s.receipt.confirmed
      && (s.mouth.display == BLOCKED <==> DecisionOf(resp) == PEP_BLOCK && confirmed && filterId > 0)
      && (s.mouth.display == PROVIDER_UNAVAILABLE <==>
            DecisionOf(resp) == PEP_ESCALATE && ReasonOf(resp) == REASON_WFP_UNAVAILABLE)
      && (s.mouth.display == OBSERVE <==> DecisionOf(resp) == PEP_ALLOW)
      && s.receipt.filterId == (if s.mouth.display == BLOCKED then filterId else 0)
      && s.receipt.eventId == req.eventId && s.receipt.policyId == req.policyId
      && s.receipt.traceId == req.traceId && s.receipt.auditId == req.auditId
      && s.receipt.provider == provider && s.receipt.version == 1
      && s.receipt.decision == (if resp.decision.Some? then resp.decision.value else 4)
      && (s.receipt.enforcedMode <==> s.mouth.display == BLOCKED)
      && (s.receipt.confirmed <==> s.mouth.display == BLOCKED)
      && (s.receipt.status == ENFORCED <==> s.mouth.display == BLOCKED)
      && (s.receipt.status == UNAVAILABLE <==> s.mouth.display == PROVIDER_UNAVAILABLE)
      && (s.receipt.status == SIMULATED <==> s.mouth.display == OBSERVE)
      && (s.receipt.status == FAILED <==> s.mouth.display == ENFORCEMENT_FAILED)
  {}

  /** The response mapping of an answer of the enforcement point. */
  function Relayed(r: Pep.Response): Response {
    Response(Some(r.decision), Some(r.reason))
  }

  /** Fed by the enforcement point, the display says PROVIDER_UNAVAILABLE exactly when a decided block
      failed at the provider, and BLOCKED exactly when a filter was installed and its effect confirmed. */
  lemma DisplayOfEnforcement(
      twoPerson: bool, approvals: map<u64, u32>, preq: Pep.Request,
      before: map<u64, Pep.Flow>, presp: Pep.Response, after: map<u64, Pep.Flow>,
      req: Request, provider: string, confirmed: bool)
    requires RequestValid(req) && provider != ""
    requires Pep.Applied(Pep.Decision(twoPerson, approvals, preq), preq, before, presp, after)
    ensures var shown := ProcessResponse(req, Relayed(presp), provider, presp.filterId, confirmed);
      var decided := Pep.Decision(twoPerson, approvals, preq).decision == Pep.DECISION_BLOCK;
      && shown.Ok?
      && (shown.value.mouth.display == PROVIDER_UNAVAILABLE <==> decided && after == before)
      && (shown.value.mouth.display == BLOCKED <==> decided && after != before && confirmed)
      && (shown.value.mouth.display == BLOCKED ==> shown.value.receipt.filterId in after)
  {
    ChainRaises(req, Relayed(presp), provider, presp.filterId, confirmed);
    ChainIsHonest(req, Relayed(presp), provider, presp.filterId, confirmed);
    Pep.DecisionMeaning(twoPerson, approvals, preq);
    if presp.filterId != 0 {
      assert presp.filterId in after && presp.filterId !in before;
    }
  }
}
