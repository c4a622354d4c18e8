/** The policy enforcement point over an abstract filter provider. */
module Pep {
  import opened Bytes
  import opened Options

  const DECISION_ALLOW: byte := 0
  const DECISION_BLOCK: byte := 1
  const DECISION_RATE_LIMIT: byte := 2
  const DECISION_QUARANTINE: byte := 3
  const DECISION_ESCALATE: byte := 4

  const ACTION_PASS: byte := 0
  const ACTION_LOG: byte := 1
  const ACTION_ALERT: byte := 2
  const ACTION_RATE_LIMIT: byte := 3
  const ACTION_BLOCK: byte := 4
  const ACTION_QUARANTINE: byte := 5
  const ACTION_ESCALATE: byte := 6

  const QUOTA_DEFAULT: u32 := 100

  /** The fields of a request that enforcement looks at. */
  datatype Request = Request(
    action: byte, dstIp: u32, dstPort: u16, protocol: byte, severity: byte, capability: u32, requestId: u64)

  datatype Response = Response(decision: byte, reason: u32, quotaRemaining: u32, signedBy: u32, filterId: u64)

  datatype Flow = Flow(remoteIp: u32, remotePort: u16, protocol: byte)

  datatype FilterState = FilterState(
    filterId: u64, remoteIp: u32, remotePort: u16, protocol: byte, present: byte, providerStatus: u32)

  datatype Answer = Answer(rc: int, state: FilterState)

  /** An answer that is a success and echoes the id. */
  function Echoed(id: u64, asked: Option<Answer>): Option<FilterState> {
    match asked
    case Some(Answer(0, state)) => if state.filterId == id then Some(state) else None
    case _ => None
  }

  /** The provider's answer about a filter tells the truth. */
  predicate Truthful(id: u64, asked: Option<Answer>, installed: map<u64, Flow>) {
    asked.Some? && asked.value.rc == 0 && asked.value.state.filterId == id ==>
      var s := asked.value.state;
      (s.present != 0 <==> id in installed)
      && (id in installed ==> installed[id] == Flow(s.remoteIp, s.remotePort, s.protocol))
  }

  function FlowOf(req: Request): Flow {
    Flow(req.dstIp, req.dstPort, req.protocol)
  }

  /** Bit 0 of the capability mask. */
  predicate Capable(capability: u32) {
    capability % 2 == 1
  }

  datatype Verdict = Verdict(decision: byte, reason: u32)

  /** The decision taken under the lock. */
  function Decision(twoPerson: bool, approvals: map<u64, u32>, req: Request): Verdict {
    var a := req.action;
    if a in {ACTION_RATE_LIMIT, ACTION_BLOCK, ACTION_QUARANTINE, ACTION_ESCALATE} && !Capable(req.capability) then
      Verdict(DECISION_ESCALATE, 1)
    else if a in {ACTION_PASS, ACTION_LOG, ACTION_ALERT} then Verdict(DECISION_ALLOW, 0)
    else if a == ACTION_ESCALATE then Verdict(DECISION_ESCALATE, 2)
    else if a == ACTION_RATE_LIMIT then Verdict(DECISION_RATE_LIMIT, 3)
    else if a == ACTION_QUARANTINE then Verdict(DECISION_QUARANTINE, 5)
    else if a == ACTION_BLOCK then
      if req.severity >= 7 && twoPerson && req.requestId !in approvals then Verdict(DECISION_ESCALATE, 2)
      else Verdict(DECISION_BLOCK, 0)
    else Verdict(DECISION_ESCALATE, 6)
  }

  /** Two-person rule on and severity high: the request needs an approval. */
  predicate NeedsApproval(twoPerson: bool, req: Request) {
    twoPerson && req.severity >= 7
  }

  /** A block is decided exactly for a capable block request that has the approval it needs; and no
      request for anything unknown, unauthorised or unapproved is ever allowed. */
  lemma DecisionMeaning(twoPerson: bool, approvals: map<u64, u32>, req: Request)
    ensures var d := Decision(twoPerson, approvals, req).decision;
      && (d == DECISION_BLOCK <==>
           req.action == ACTION_BLOCK && Capable(req.capability)
           && (NeedsApproval(twoPerson, req) ==> req.requestId in approvals))
      && (d == DECISION_ALLOW <==> req.action <= ACTION_ALERT)
  {}

  lemma CapableIsBit0(capability: u32)
    ensures Capable(capability) <==> (capability as bv32) & 1 == 1
  {}

  /** The whole table, every decision and every reason with its own condition. Decisions: 0 allow, 1 block,
      2 rate limit, 3 quarantine, 4 escalate. Reasons: 1 not capable, 2 escalation asked for or approval
      missing, 3 rate limit, 5 quarantine, 6 unknown action; 4 is the provider's. */
  lemma DecisionTable(twoPerson: bool, approvals: map<u64, u32>, req: Request)
    ensures var v, a, may := Decision(twoPerson, approvals, req), req.action, req.capability % 2 == 1;
      var unapproved := twoPerson && req.severity >= 7 && req.requestId !in approvals;
      && (v.decision == 0 <==> a == 0 || a == 1 || a == 2)
      && (v.decision == 1 <==> a == 4 && may && !unapproved)
      && (v.decision == 2 <==> a == 3 && may)
      && (v.decision == 3 <==> a == 5 && may)
      && (v.decision == 4 <==> a >= 6 || (3 <= a <= 5 && !may) || (a == 4 && may && unapproved))
      && (v.reason == 0 <==> v.decision == 0 || v.decision == 1)
      && (v.reason == 1 <==> 3 <= a <= 6 && !may)
      && (v.reason == 2 <==> may && (a == 6 || (a == 4 && unapproved)))
      && (v.reason == 3 <==> a == 3 && may)
      && (v.reason == 5 <==> a == 5 && may)
      && (v.reason == 6 <==> a > 6)
      && v.reason != 4
  {}

  // ---------- The provider ----------

  /** The filter provider. It may fail at any time; a call that fails changes nothing, and an install
      that succeeds returns an id that is not zero and not in use. */
  class Provider {
    var installed: map<u64, Flow>

    constructor (installed: map<u64, Flow>)
      ensures this.installed == installed
    {
      this.installed := installed;
    }

    method BlockFlow(flow: Flow) returns (r: Option<u64>)
      modifies this
      ensures r.None? ==> installed == old(installed)
      ensures r.Some? ==>
        r.value != 0 && r.value !in old(installed) && installed == old(installed)[r.value := flow]
    {
      var works: bool, id: u64 := *, *;
      if !works || id == 0 || id in installed {
        return None;
      }
      installed := installed[id := flow];
      return Some(id);
    }

    method UnblockFilter(id: u64) returns (ok: bool)
      modifies this
      ensures installed == if ok then old(installed) - {id} else old(installed)
    {
      ok := *;
      if ok {
        installed := installed - {id};
      }
    }

    /** What the provider says about a filter: anything, only it changes nothing. */
    method Query(id: u64) returns (answer: Answer)
    {
      answer := *;
    }

    /** The answer is passed on only if it is a success and names the filter that was asked for; whether it
        says that the filter is present is not looked at. */
    method QueryFilter(id: u64) returns (state: Option<FilterState>, ghost asked: Option<Answer>)
      ensures state == Echoed(id, asked) && (id == 0 ==> asked == None)
    {
      if id == 0 {
        return None, None;
      }
      var answer := Query(id);
      asked := Some(answer);
      if answer.rc == 0 && answer.state.filterId == id {
        return Some(answer.state), asked;
      }
      return None, asked;
    }
  }

  /** What applying a verdict does to the provider and puts into the response. */
  ghost predicate Applied(v: Verdict, req: Request, before: map<u64, Flow>, resp: Response, after: map<u64, Flow>) {
    && resp.quotaRemaining == QUOTA_DEFAULT && resp.signedBy == 0
    && if v.decision != DECISION_BLOCK then
         resp.decision == v.decision && resp.reason == v.reason && resp.filterId == 0 && after == before
       else if resp.filterId != 0 then
         && resp.decision == DECISION_BLOCK && resp.reason == v.reason
         && resp.filterId !in before && after == before[resp.filterId := FlowOf(req)]
       else
         resp.decision == DECISION_ESCALATE && resp.reason == 4 && after == before
  }

  class PepState {
    const twoPersonRule: bool
    var pendingApprovals: map<u64, u32>
    const provider: Provider

    constructor (twoPersonRule: bool, pendingApprovals: map<u64, u32>, provider: Provider)
      ensures this.twoPersonRule == twoPersonRule && this.pendingApprovals == pendingApprovals
      ensures this.provider == provider
    {
      this.twoPersonRule, this.pendingApprovals, this.provider := twoPersonRule, pendingApprovals, provider;
    }

    /** The part of enforce that holds the lock. */
    method Decide(req: Request) returns (v: Verdict)
      ensures v == Decision(twoPersonRule, pendingApprovals, req)
    {
      var decision, reason := DECISION_ALLOW, 0;
      var requiresPrivilege :=
        req.action == ACTION_RATE_LIMIT || req.action == ACTION_BLOCK || req.action == ACTION_QUARANTINE
        || req.action == ACTION_ESCALATE;
      if requiresPrivilege && !Capable(req.capability) {
        decision := DECISION_ESCALATE;
        reason := 1;
      } else if req.action == ACTION_PASS || req.action == ACTION_LOG || req.action == ACTION_ALERT {
        decision := DECISION_ALLOW;
      } else if req.action == ACTION_ESCALATE {
        decision := DECISION_ESCALATE;
        reason := 2;
      } else if req.action == ACTION_RATE_LIMIT {
        decision := DECISION_RATE_LIMIT;
        reason := 3;
      } else if req.action == ACTION_QUARANTINE {
        decision := DECISION_QUARANTINE;
        reason := 5;
      } else if req.action == ACTION_BLOCK {
        if req.severity >= 7 && twoPersonRule {
          if req.requestId in pendingApprovals {
            decision := DECISION_BLOCK;
          } else {
            decision := DECISION_ESCALATE;
            reason := 2;
          }
        } else {
          decision := DECISION_BLOCK;
        }
      } else {
        decision := DECISION_ESCALATE;
        reason := 6;
      }
      return Verdict(decision, reason);
    }

    /** The part of enforce after the lock was dropped; loading the adapter may fail. */
    method Apply(req: Request, v: Verdict) returns (resp: Response)
      modifies provider
      ensures Applied(v, req, old(provider.installed), resp, provider.installed)
    {
      var decision, reason, filterId: u64 := v.decision, v.reason, 0;
      if decision == DECISION_BLOCK {
        var loaded: bool := *;
        if loaded {
          var r := provider.BlockFlow(FlowOf(req));
          match r {
            case Some(id) => filterId := id;
            case None =>
              decision := DECISION_ESCALATE;
              reason := 4;
          }
        } else {
          decision := DECISION_ESCALATE;
          reason := 4;
        }
      }
      return Response(decision, reason, QUOTA_DEFAULT, 0, filterId);
    }

    method Enforce(req: Option<Request>, wantsResponse: bool) returns (rc: int, resp: Option<Response>)
      modifies provider
      ensures req.None? || !wantsResponse ==> rc == -1 && resp == None && provider.installed == old(provider.installed)
      ensures req.Some? && wantsResponse ==>
        && rc == 0 && resp.Some?
        && Applied(Decision(twoPersonRule, pendingApprovals, req.value), req.value,
                   old(provider.installed), resp.value, provider.installed)
      ensures req.Some? && wantsResponse ==>
        var q, r, v := req.value, resp.value, Decision(twoPersonRule, pendingApprovals, req.value);
        && r.quotaRemaining == 100 && r.signedBy == 0
        && (r.filterId != 0 <==> r.decision == 1)
        && (v.decision == 1 && r.filterId == 0 <==> r.reason == 4)
        && (r.reason == 4 ==> r.decision == 4)
        && (r.reason != 4 ==> r.decision == v.decision && r.reason == v.reason)
        && (r.filterId == 0 ==> provider.installed == old(provider.installed))
        && (r.filterId != 0 ==>
              r.filterId !in old(provider.installed)
              && provider.installed == old(provider.installed)[r.filterId := Flow(q.dstIp, q.dstPort, q.protocol)])
    {
      if req.Some? {
        DecisionTable(twoPersonRule, pendingApprovals, req.value);
      }
      if req.None? || !wantsResponse {
        return -1, None;
      }
      var v := Decide(req.value);
      var r := Apply(req.value, v);
      return 0, Some(r);
    }

    method UnblockFilter(id: u64, capability: u32) returns (rc: int)
      modifies provider
      ensures rc == -3 <==> id == 0 || !Capable(capability)
      ensures rc in {0, -2, -3}
      ensures provider.installed == if rc == 0 then old(provider.installed) - {id} else old(provider.installed)
    {
      if id == 0 || !Capable(capability) {
        return -3;
      }
      var loaded: bool := *;
      if loaded {
        var ok := provider.UnblockFilter(id);
        if ok {
          return 0;
        }
      }
      return -2;
    }

    /** Removal by address alone never touches the provider, whatever the capability. */
    method UnblockIp(capability: u32) returns (rc: int)
      ensures rc == if Capable(capability) then -4 else -3
    {
      if !Capable(capability) {
        return -3;
      }
      return -4;
    }

    /** 0 exactly when the provider was asked and its answer echoes the id, and then with that answer; state
        is what the caller's record holds afterwards. */
    method QueryFilter(id: u64, into: Option<FilterState>)
      returns (rc: int, state: Option<FilterState>, ghost asked: Option<Answer>)
      ensures rc == if id == 0 || into.None? then -3 else if Echoed(id, asked).Some? then 0 else -2
      ensures state == if rc == 0 then Echoed(id, asked) else into
      ensures rc == -3 ==> asked == None
    {
      state, asked := into, None;
      if id == 0 || into.None? {
        return -3, state, asked;
      }
      var loaded: bool := *;
      if loaded {
        var answer;
        answer, asked := provider.QueryFilter(id);
        if answer.Some? {
          return 0, answer, asked;
        }
      }
      return -2, state, asked;
    }

    method Shutdown()
      modifies this`pendingApprovals
      ensures pendingApprovals == map[]
    {
      pendingApprovals := map[];
    }
  }

  // ---------- Every run, with enforce calls overlapping between decide and apply ----------

  /** An enforce call that has decided and not yet applied; approved says what the lock section saw. */
  datatype InFlight = InFlight(req: Request, verdict: Verdict, approved: bool)

  datatype Entry =
    | Answered(call: nat, req: Request, resp: Response, approved: bool)
    | Removed(id: u64)

  /** calls numbers the enforce calls, so that no two of them share a number. */
  datatype Sys = Sys(
    twoPerson: bool, approvals: map<u64, u32>, installed: map<u64, Flow>,
    calls: nat, inFlight: map<nat, InFlight>, history: seq<Entry>)

  datatype Event =
    | Decided(call: nat, req: Request)
    | Answer(call: nat, resp: Response)
    | Unblock(id: u64, capability: u32, rc: int)
    | UnblockByIp(capability: u32)
    | Query(id: u64, asked: Option<Answer>)
    | ShutDown
    | ApprovalsChange(approvals: map<u64, u32>)

  /** One atomic step. Approvals may be changed from outside at any time: nothing shown fixes how. */
  ghost predicate Next(s: Sys, ev: Event, t: Sys) {
    match ev
    case Decided(call, req) =>
      && call == s.calls
      && t == s.(calls := call + 1, inFlight := s.inFlight[call :=
                   InFlight(req, Decision(s.twoPerson, s.approvals, req), req.requestId in s.approvals)])
    case Answer(call, resp) =>
      && call in s.inFlight
      && var c := s.inFlight[call];
         && Applied(c.verdict, c.req, s.installed, resp, t.installed)
         && t == s.(installed := t.installed, inFlight := s.inFlight - {call},
                    history := s.history + [Answered(call, c.req, resp, c.approved)])
    case Unblock(id, capability, rc) =>
      && rc in {0, -2, -3} && (rc == -3 <==> id == 0 || !Capable(capability))
      && t == if rc != 0 then s else s.(installed := s.installed - {id}, history := s.history + [Removed(id)])
    case UnblockByIp(_) => t == s
    case Query(id, asked) => (id == 0 ==> asked == None) && t == s
    case ShutDown => t == s.(approvals := map[])
    case ApprovalsChange(approvals) => t == s.(approvals := approvals)
  }

  /** What one entry of the history means for the filters. */
  function Replayed(before: map<u64, Flow>, e: Entry): map<u64, Flow> {
    if e.Removed? then before - {e.id}
    else if e.resp.decision == DECISION_BLOCK then before[e.resp.filterId := FlowOf(e.req)]
    else before
  }

  /** The filters there should be: those of the base, plus every answered block, minus every removal. */
  function Replay(base: map<u64, Flow>, history: seq<Entry>): map<u64, Flow> {
    if history == [] then base
    else
      Replayed(Replay(base, history[..|history| - 1]), history[|history| - 1])
  }

  /** A block that a capable caller asked for, with the approval it needed when it was decided. */
  predicate Authorised(twoPerson: bool, req: Request, approved: bool) {
    req.action == ACTION_BLOCK && Capable(req.capability) && (NeedsApproval(twoPerson, req) ==> approved)
  }

  predicate EntryOk(twoPerson: bool, e: Entry) {
    e.Answered? ==>
      && (e.resp.filterId != 0 <==> e.resp.decision == DECISION_BLOCK)
      && (e.resp.decision == DECISION_BLOCK ==> Authorised(twoPerson, e.req, e.approved))
  }

  ghost predicate Safe(base: map<u64, Flow>, s: Sys) {
    && s.installed == Replay(base, s.history)
    && (forall e :: e in s.history ==> EntryOk(s.twoPerson, e))
    && (forall call :: call in s.inFlight && s.inFlight[call].verdict.decision == DECISION_BLOCK ==>
          Authorised(s.twoPerson, s.inFlight[call].req, s.inFlight[call].approved))
  }

  lemma ReplaySnoc(base: map<u64, Flow>, history: seq<Entry>, e: Entry)
    ensures Replay(base, history + [e]) == Replayed(Replay(base, history), e)
  {
    assert (history + [e])[..|history|] == history;
  }

  lemma StepKeepsSafe(base: map<u64, Flow>, s: Sys, ev: Event, t: Sys)
    requires Safe(base, s) && Next(s, ev, t)
    ensures Safe(base, t) && t.twoPerson == s.twoPerson
  {
    match ev
    case Decided(call, req) =>
      DecisionMeaning(s.twoPerson, s.approvals, req);
    case Answer(call, resp) =>
      var c := s.inFlight[call];
      ReplaySnoc(base, s.history, Answered(call, c.req, resp, c.approved));
    case Unblock(id, capability, rc) =>
      ReplaySnoc(base, s.history, Removed(id));
    case _ =>
  }

  ghost predicate IsRun(states: seq<Sys>, events: seq<Event>) {
    && |states| == |events| + 1
    && states[0].inFlight == map[] && states[0].history == []
    && forall i :: 0 <= i < |events| ==> Next(states[i], events[i], states[i + 1])
  }

  /** Over any run, however the calls overlap: the installed filters are those at the start, plus exactly
      the ids returned with a block, minus exactly those unblocked; and every answer is sound. */
  lemma {:induction false} EveryRunIsSafe(states: seq<Sys>, events: seq<Event>)
    requires IsRun(states, events)
    ensures Safe(states[0].installed, states[|events|]) && states[|events|].twoPerson == states[0].twoPerson
  {
    if events == [] {
    } else {
      var n := |events| - 1;
      EveryRunIsSafe(states[..n + 1], events[..n]);
      StepKeepsSafe(states[0].installed, states[n], events[n], states[n + 1]);
    }
  }

  /** An answered block gave this id to a filter of this flow. */
  ghost predicate Caused(history: seq<Entry>, id: u64, flow: Flow) {
    exists e :: e in history && e.Answered? && e.resp.decision == DECISION_BLOCK && e.resp.filterId == id
                && FlowOf(e.req) == flow
  }

  /** The filter was there at the start and nobody removed it since. */
  predicate Inherited(base: map<u64, Flow>, history: seq<Entry>, id: u64, flow: Flow) {
    id in base && base[id] == flow && Removed(id) !in history
  }

  /** Every filter stems from an answered block of its flow, or was there all along. */
  lemma {:induction false} FilterHasCause(base: map<u64, Flow>, history: seq<Entry>, id: u64)
    requires id in Replay(base, history)
    ensures var flow := Replay(base, history)[id];
      Caused(history, id, flow) || Inherited(base, history, id, flow)
  {
    if history == [] {
    } else {
      var front, last := history[..|history| - 1], history[|history| - 1];
      assert last in history && forall e :: e in history ==> e in front || e == last;
      if last.Answered? && last.resp.decision == DECISION_BLOCK && last.resp.filterId == id {
        assert Caused(history, id, FlowOf(last.req));
      } else {
        FilterHasCause(base, front, id);
        var flow := Replay(base, front)[id];
        if Caused(front, id, flow) {
          var e :| e in front && e.Answered? && e.resp.decision == DECISION_BLOCK && e.resp.filterId == id
                   && FlowOf(e.req) == flow;
          assert e in history;
        }
      }
    }
  }

  /** Step i took the decision on this call, and approved says whether an approval was held then. */
  ghost predicate DecidedAt(
      states: seq<Sys>, events: seq<Event>, i: nat, call: nat, req: Request, approved: bool) {
    && i < |events| && i < |states|
    && events[i] == Decided(call, req)
    && approved == (req.requestId in states[i].approvals)
  }

  ghost predicate WasDecided(states: seq<Sys>, events: seq<Event>, call: nat, req: Request, approved: bool) {
    exists i: nat :: DecidedAt(states, events, i, call, req, approved)
  }

  lemma DecidedEarlier(states: seq<Sys>, events: seq<Event>, n: nat, call: nat, req: Request, approved: bool)
    requires n < |events| < |states| && WasDecided(states[..n + 1], events[..n], call, req, approved)
    ensures WasDecided(states, events, call, req, approved)
  {
    var i: nat :| DecidedAt(states[..n + 1], events[..n], i, call, req, approved);
    assert DecidedAt(states, events, i, call, req, approved);
  }

  /** Every call in flight and every answer goes back to the step of the run that decided that call, and
      what they say of the approval is what was held in that step. */
  lemma {:induction false} ApprovalsWereHeld(states: seq<Sys>, events: seq<Event>)
    requires IsRun(states, events)
    ensures var s := states[|events|];
      && (forall call :: call in s.inFlight ==>
            WasDecided(states, events, call, s.inFlight[call].req, s.inFlight[call].approved))
      && (forall e :: e in s.history && e.Answered? ==> WasDecided(states, events, e.call, e.req, e.approved))
  {
    if events == [] {
    } else {
      var n := |events| - 1;
      var s, t := states[n], states[n + 1];
      ApprovalsWereHeld(states[..n + 1], events[..n]);
      hide Applied, Decision, WasDecided;
      forall call | call in s.inFlight
        ensures WasDecided(states, events, call, s.inFlight[call].req, s.inFlight[call].approved)
      {
        DecidedEarlier(states, events, n, call, s.inFlight[call].req, s.inFlight[call].approved);
      }
      forall e | e in s.history && e.Answered?
        ensures WasDecided(states, events, e.call, e.req, e.approved)
      {
        DecidedEarlier(states, events, n, e.call, e.req, e.approved);
      }
      assert Next(s, events[n], t);
      if events[n].Decided? {
        DecidedNow(states, events, n);
      }
    }
  }

  lemma DecidedNow(states: seq<Sys>, events: seq<Event>, n: nat)
    requires n < |events| && n < |states| && events[n].Decided?
    ensures var req := events[n].req;
      WasDecided(states, events, events[n].call, req, req.requestId in states[n].approvals)
  {
    var req := events[n].req;
    assert DecidedAt(states, events, n, events[n].call, req, req.requestId in states[n].approvals);
  }

  lemma {:induction false} CallsGrow(states: seq<Sys>, events: seq<Event>, i: nat, j: nat)
    requires IsRun(states, events) && i <= j <= |events|
    ensures states[i].calls <= states[j].calls
    decreases j - i
  {
    if i == j {
    } else {
      CallsGrow(states, events, i, j - 1);
      assert Next(states[j - 1], events[j - 1], states[j]);
    }
  }

  /** A call is decided in one step of the run only. */
  lemma DecidedOnce(states: seq<Sys>, events: seq<Event>, i: nat, j: nat)
    requires IsRun(states, events) && i < |events| && j < |events|
    requires events[i].Decided? && events[j].Decided? && events[i].call == events[j].call
    ensures i == j
  {
    assert Next(states[i], events[i], states[i + 1]) && Next(states[j], events[j], states[j + 1]);
    if i < j {
      CallsGrow(states, events, i + 1, j);
    } else if j < i {
      CallsGrow(states, events, j + 1, i);
    }
  }

  /** Every filter a run installs, whatever became of it later, was asked for by a capable caller and, under
      the two-person rule at severity 7 or more, its call was decided in a step of the run that held an
      approval for its request id. */
  lemma EveryBlockIsAuthorised(states: seq<Sys>, events: seq<Event>, e: Entry)
    requires IsRun(states, events)
    requires e in states[|events|].history && e.Answered? && e.resp.decision == DECISION_BLOCK
    ensures e.resp.filterId != 0
    ensures exists i: nat ::
      && DecidedAt(states, events, i, e.call, e.req, e.approved)
      && Authorised(states[0].twoPerson, e.req, e.req.requestId in states[i].approvals)
  {
    hide Decision, Applied;
    EveryRunIsSafe(states, events);
    ApprovalsWereHeld(states, events);
    assert EntryOk(states[0].twoPerson, e) && WasDecided(states, events, e.call, e.req, e.approved);
    var i: nat :| DecidedAt(states, events, i, e.call, e.req, e.approved);
    assert Authorised(states[0].twoPerson, e.req, e.req.requestId in states[i].approvals);
  }

  /** Every filter at the end of a run was there all along, or blocks the flow of an answered call that was
      authorised when it was decided. */
  lemma EveryFilterIsAuthorised(states: seq<Sys>, events: seq<Event>, id: u64)
    requires IsRun(states, events)
    requires id in states[|events|].installed
    ensures var history, flow := states[|events|].history, states[|events|].installed[id];
      || Inherited(states[0].installed, history, id, flow)
      || exists e, i: nat ::
           e in history && e.Answered? && e.resp.filterId == id && id != 0 && FlowOf(e.req) == flow
           && DecidedAt(states, events, i, e.call, e.req, e.approved)
           && Authorised(states[0].twoPerson, e.req, e.req.requestId in states[i].approvals)
  {
    hide Decision, Applied, DecidedAt, Authorised;
    EveryRunIsSafe(states, events);
    var history, flow := states[|events|].history, states[|events|].installed[id];
    FilterHasCause(states[0].installed, history, id);
    if Caused(history, id, flow) {
      var e :| e in history && e.Answered? && e.resp.decision == DECISION_BLOCK && e.resp.filterId == id
               && FlowOf(e.req) == flow;
      EveryBlockIsAuthorised(states, events, e);
    }
  }

  /** A state that a query hands on says nothing about the filter, unless the provider told the truth: that it
      did means exactly that the filter is present, with that flow, by the history of the run; and then a
      filter that is present was there all along or stems from an answered block of that flow. */
  lemma QueriedState(states: seq<Sys>, events: seq<Event>, i: nat)
    requires IsRun(states, events) && i < |events| && events[i].Query?
    requires Echoed(events[i].id, events[i].asked).Some?
    ensures var id, s := events[i].id, Echoed(events[i].id, events[i].asked).value;
      var base, history := states[0].installed, states[i].history;
      var flow := Flow(s.remoteIp, s.remotePort, s.protocol);
      var there := Replay(base, history);
      && s.filterId == id != 0
      && (Truthful(id, events[i].asked, states[i].installed)
          <==> (s.present != 0 <==> id in there) && (id in there ==> there[id] == flow))
      && (Truthful(id, events[i].asked, states[i].installed) && s.present != 0 ==>
            Caused(history, id, flow) || Inherited(base, history, id, flow))
  {
    hide Decision, Applied, Caused, Inherited;
    EveryRunIsSafe(states[..i + 1], events[..i]);
    assert Next(states[i], events[i], states[i + 1]);
    var id := events[i].id;
    if id in states[i].installed {
      FilterHasCause(states[0].installed, states[i].history, id);
    }
  }

  /** A call without capability bit 0 never changes the provider. */
  lemma NoCapabilityNoEffect(base: map<u64, Flow>, s: Sys, ev: Event, t: Sys)
    requires Safe(base, s) && Next(s, ev, t)
    requires ev.Answer? ==> !Capable(s.inFlight[ev.call].req.capability)
    requires ev.Unblock? ==> !Capable(ev.capability)
    ensures t.installed == s.installed
  {}
}
