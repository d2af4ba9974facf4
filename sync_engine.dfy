/** dnsctl's sync engine (dnsctl/core/sync_engine.py): drift detection, plan generation and
    plan application. Its collaborators are the state store, the git repository and the
    Cloudflare API, which is a `Transport`: what `list_records` returns and how the API
    answers each write are functions of the writes sent before, which the model leaves
    unconstrained. */
module SyncEngine {
  import opened Wrappers
  import opened Text
  import opened Records
  import opened DiffEngine
  import opened DiffProperties
  import opened CloudflareClient
  import opened StateManager
  import opened GitManager

  // ------------------------------------------------------------------
  // Plans
  // ------------------------------------------------------------------

  datatype ActionKind = Create | Update | Delete

  /** `PlanAction`; `before` is the current remote record of an update. */
  datatype PlanAction = PlanAction(
    kind: ActionKind,
    record: Record,
    before: Option<Record>,
    protected: bool,
    protectionReason: string)

  /** The number of actions of kind `k`. */
  function CountKind(actions: seq<PlanAction>, k: ActionKind): (n: nat)
    ensures n <= |actions|
  {
    if |actions| == 0 then 0
    else CountKind(actions[..|actions| - 1], k) + if actions[|actions| - 1].kind == k then 1 else 0
  }

  /** Every action has one of the three kinds. */
  lemma {:induction false} CountKindsSum(actions: seq<PlanAction>)
    ensures CountKind(actions, Create) + CountKind(actions, Update) + CountKind(actions, Delete) == |actions|
  {
    if |actions| > 0 {
      CountKindsSum(actions[..|actions| - 1]);
    }
  }

  lemma {:induction false} CountKindAppend(a: seq<PlanAction>, b: seq<PlanAction>, k: ActionKind)
    ensures CountKind(a + b, k) == CountKind(a, k) + CountKind(b, k)
  {
    if |b| > 0 {
      CountKindAppend(a, b[..|b| - 1], k);
      assert (a + b)[..|a + b| - 1] == a + b[..|b| - 1];
    } else {
      assert a + b == a;
    }
  }

  /** In a list of actions of one kind `j`, `k` counts all of them or none. */
  lemma {:induction false} CountKindUniform(actions: seq<PlanAction>, j: ActionKind, k: ActionKind)
    requires forall i :: 0 <= i < |actions| ==> actions[i].kind == j
    ensures CountKind(actions, k) == if j == k then |actions| else 0
  {
    if |actions| > 0 {
      CountKindUniform(actions[..|actions| - 1], j, k);
    }
  }

  /** `Plan`. */
  datatype Plan = Plan(zoneName: string, zoneId: string, actions: seq<PlanAction>, drift: Option<DiffResult>) {
    predicate HasChanges() {
      |actions| > 0
    }

    predicate HasProtected() {
      exists i :: 0 <= i < |actions| && actions[i].protected
    }

    function SummaryParts(): (parts: seq<string>)
      ensures parts == [] <==> !HasChanges()
      ensures forall i :: 0 <= i < |parts| ==> parts[i] != [] && parts[i][0] in {'+', '-', '~'}
    {
      var creates := CountKind(actions, Create);
      var updates := CountKind(actions, Update);
      var deletes := CountKind(actions, Delete);
      CountKindsSum(actions);
      (if creates > 0 then ["+" + NatToString(creates) + " create"] else [])
      + (if updates > 0 then ["~" + NatToString(updates) + " update"] else [])
      + (if deletes > 0 then ["-" + NatToString(deletes) + " delete"] else [])
    }

    /** The nonzero create, update and delete counts, joined by ", ", or "No changes". */
    function Summary(): (s: string)
      ensures s == "No changes" <==> !HasChanges()
    {
      var parts := SummaryParts();
      if parts == [] then "No changes"
      else
        JoinStartsWithFirst(parts, ", ");
        assert Join(parts, ", ")[0] == parts[0][0];
        Join(parts, ", ")
    }
  }

  /** Each nonzero count appears in the plan summary, behind its sign and label. */
  lemma PlanSummaryReportsCounts(p: Plan)
    ensures CountKind(p.actions, Create) > 0 ==>
      Contains(p.Summary(), "+" + NatToString(CountKind(p.actions, Create)) + " create")
    ensures CountKind(p.actions, Update) > 0 ==>
      Contains(p.Summary(), "~" + NatToString(CountKind(p.actions, Update)) + " update")
    ensures CountKind(p.actions, Delete) > 0 ==>
      Contains(p.Summary(), "-" + NatToString(CountKind(p.actions, Delete)) + " delete")
  {
    var parts := p.SummaryParts();
    var creates := CountKind(p.actions, Create);
    var updates := CountKind(p.actions, Update);
    var c := if creates > 0 then ["+" + NatToString(creates) + " create"] else [];
    var u := if updates > 0 then ["~" + NatToString(updates) + " update"] else [];
    if creates > 0 {
      JoinContainsPart(parts, ", ", 0);
    }
    if updates > 0 {
      JoinContainsPart(parts, ", ", |c|);
    }
    if CountKind(p.actions, Delete) > 0 {
      JoinContainsPart(parts, ", ", |c| + |u|);
    }
  }

  /** The action `generate_plan` appends for `rec`, with its protection status. */
  function ActionFor(kind: ActionKind, rec: Record, before: Option<Record>, ledger: seq<ProtectedEntry>): (action: PlanAction) {
    var p := IsProtected(rec, ledger);
    PlanAction(kind, rec, before, p.protected, p.reason)
  }

  /** The actions of a plan for `diff = compute_diff(remote, local)`: a create per added
      record, then a delete per removed record, then an update per modification, which
      writes the local `after` over the remote `before`. */
  function PlanActions(diff: DiffResult, ledger: seq<ProtectedEntry>): (actions: seq<PlanAction>)
    ensures |actions| == |diff.added| + |diff.removed| + |diff.modified|
    ensures forall i :: 0 <= i < |diff.added| ==> actions[i] == ActionFor(Create, diff.added[i], None, ledger)
    ensures forall i :: |diff.added| <= i < |diff.added| + |diff.removed| ==>
      actions[i] == ActionFor(Delete, diff.removed[i - |diff.added|], None, ledger)
    ensures forall i :: |diff.added| + |diff.removed| <= i < |actions| ==>
      var m := diff.modified[i - |diff.added| - |diff.removed|];
      actions[i] == ActionFor(Update, m.after, Some(m.before), ledger)
  {
    seq(|diff.added|, i requires 0 <= i < |diff.added| => ActionFor(Create, diff.added[i], None, ledger))
    + seq(|diff.removed|, i requires 0 <= i < |diff.removed| => ActionFor(Delete, diff.removed[i], None, ledger))
    + seq(|diff.modified|, i requires 0 <= i < |diff.modified| =>
        ActionFor(Update, diff.modified[i].after, Some(diff.modified[i].before), ledger))
  }

  /** The errors of `detect_drift` and `generate_plan`. */
  datatype SyncError = ZoneNotSynced(zoneName: string) | ListFailed(message: string) {
    function Message(): (msg: string) {
      match this
      case ZoneNotSynced(zoneName) => "Zone '" + zoneName + "' not synced. Run sync first."
      case ListFailed(message) => message
    }
  }

  /** The plan `generate_plan` returns for a synced zone, given what `list_records` gave. */
  function PlanFor(zoneName: string, local: ZoneState, remote: Result<seq<Record>, string>,
                   ledger: seq<ProtectedEntry>): (r: Result<Plan, SyncError>)
    ensures r.Err? <==> remote.Err?
    ensures r.Ok? ==> r.value.zoneName == zoneName && r.value.zoneId == local.zoneId
  {
    match remote
    case Err(message) => Err(ListFailed(message))
    case Ok(records) =>
      Ok(Plan(zoneName, local.zoneId, PlanActions(Diff(records, local.records), ledger),
              Some(Diff(local.records, records))))
  }

  /** The planned actions count one create per added record, one update per modification
      and one delete per removed record, so there are actions exactly when the diff has
      changes. */
  lemma PlanActionCounts(diff: DiffResult, ledger: seq<ProtectedEntry>)
    ensures var actions := PlanActions(diff, ledger);
      && CountKind(actions, Create) == |diff.added|
      && CountKind(actions, Update) == |diff.modified|
      && CountKind(actions, Delete) == |diff.removed|
      && (|actions| > 0 <==> diff.HasChanges())
  {
    var actions := PlanActions(diff, ledger);
    var creates := actions[..|diff.added|];
    var deletes := actions[|diff.added|..|diff.added| + |diff.removed|];
    var updates := actions[|diff.added| + |diff.removed|..];
    assert actions == creates + deletes + updates;
    forall i | 0 <= i < |creates| ensures creates[i].kind == Create {
      assert creates[i] == actions[i];
    }
    forall i | 0 <= i < |deletes| ensures deletes[i].kind == Delete {
      assert deletes[i] == actions[|diff.added| + i];
    }
    forall i | 0 <= i < |updates| ensures updates[i].kind == Update {
      assert updates[i] == actions[|diff.added| + |diff.removed| + i];
    }
    CountSegments(creates, deletes, updates);
  }

  lemma CountSegment(creates: seq<PlanAction>, deletes: seq<PlanAction>, updates: seq<PlanAction>, k: ActionKind)
    requires forall i :: 0 <= i < |creates| ==> creates[i].kind == Create
    requires forall i :: 0 <= i < |deletes| ==> deletes[i].kind == Delete
    requires forall i :: 0 <= i < |updates| ==> updates[i].kind == Update
    ensures CountKind(creates + deletes + updates, k)
         == (if k == Create then |creates| else 0) + (if k == Delete then |deletes| else 0)
            + (if k == Update then |updates| else 0)
  {
    CountKindAppend(creates, deletes, k);
    CountKindAppend(creates + deletes, updates, k);
    CountKindUniform(creates, Create, k);
    CountKindUniform(deletes, Delete, k);
    CountKindUniform(updates, Update, k);
  }

  lemma CountSegments(creates: seq<PlanAction>, deletes: seq<PlanAction>, updates: seq<PlanAction>)
    requires forall i :: 0 <= i < |creates| ==> creates[i].kind == Create
    requires forall i :: 0 <= i < |deletes| ==> deletes[i].kind == Delete
    requires forall i :: 0 <= i < |updates| ==> updates[i].kind == Update
    ensures CountKind(creates + deletes + updates, Create) == |creates|
    ensures CountKind(creates + deletes + updates, Delete) == |deletes|
    ensures CountKind(creates + deletes + updates, Update) == |updates|
  {
    CountSegment(creates, deletes, updates, Create);
    CountSegment(creates, deletes, updates, Delete);
    CountSegment(creates, deletes, updates, Update);
  }

  /** Every planned action carries the protection status `is_protected` gives its record,
      and every update writes the `after` of a modification over its `before`. */
  lemma PlanActionAnnotations(diff: DiffResult, ledger: seq<ProtectedEntry>)
    ensures forall a :: a in PlanActions(diff, ledger) ==>
      a.protected == IsProtected(a.record, ledger).protected
      && a.protectionReason == IsProtected(a.record, ledger).reason
    ensures forall a :: a in PlanActions(diff, ledger) && a.kind == Update ==>
      a.before.Some? && Modification(a.before.value, a.record) in diff.modified
  {
    var actions := PlanActions(diff, ledger);
    forall a | a in actions && a.kind == Update
      ensures a.before.Some? && Modification(a.before.value, a.record) in diff.modified
    {
      var i :| 0 <= i < |actions| && actions[i] == a;
      assert i >= |diff.added| + |diff.removed|;
      var j := i - |diff.added| - |diff.removed|;
      assert diff.modified[j] == Modification(a.before.value, a.record);
    }
  }

  /** A plan for a synced zone: its actions are planned from the diff from remote to local,
      it has changes exactly when that diff has, and its drift is the diff from local to
      remote, whose removed records are the ones created and whose added records are the
      ones deleted. */
  lemma PlanOfZone(zoneName: string, local: ZoneState, remote: seq<Record>, ledger: seq<ProtectedEntry>)
    ensures var p := PlanFor(zoneName, local, Ok(remote), ledger).value;
      && p.actions == PlanActions(Diff(remote, local.records), ledger)
      && (p.HasChanges() <==> Diff(remote, local.records).HasChanges())
      && p.drift == Some(Diff(local.records, remote))
      && Diff(local.records, remote).removed == Diff(remote, local.records).added
      && Diff(local.records, remote).added == Diff(remote, local.records).removed
  {
    PlanActionCounts(Diff(remote, local.records), ledger);
    DiffSwap(local.records, remote);
  }

  /** A zone whose remote records are the ones last synced gets an empty plan and no drift. */
  lemma PlanOfZoneInSync(zoneName: string, local: ZoneState, ledger: seq<ProtectedEntry>)
    ensures var p := PlanFor(zoneName, local, Ok(local.records), ledger).value;
      !p.HasChanges() && p.Summary() == "No changes" && p.drift.Some? && !p.drift.value.HasChanges()
  {
    DiffOfSelf(local.records);
  }

  // ------------------------------------------------------------------
  // The Cloudflare API
  // ------------------------------------------------------------------

  /** A write request the engine sends. */
  datatype Call =
    | CreateCall(zoneId: string, payload: ApiPayload)
    | UpdateCall(zoneId: string, recordId: string, payload: ApiPayload)
    | DeleteCall(zoneId: string, recordId: string)

  /** The API as the engine sees it: `listing(sent, zone)` is what `list_records` returns
      (or the error it raises) after the writes `sent`, and `respond(sent, call)` is `None`
      when the API accepts `call` after `sent` and the raised error's text otherwise. */
  class Transport {
    const listing: (seq<Call>, string) -> Result<seq<Record>, string>
    const respond: (seq<Call>, Call) -> Option<string>
    var calls: seq<Call>

    constructor (listing: (seq<Call>, string) -> Result<seq<Record>, string>, respond: (seq<Call>, Call) -> Option<string>)
      ensures this.listing == listing && this.respond == respond && calls == []
    {
      this.listing := listing;
      this.respond := respond;
      calls := [];
    }

    function ListRecords(zoneId: string): (remote: Result<seq<Record>, string>)
      reads this
    {
      listing(calls, zoneId)
    }

    /** `create_record`: a record without content fails with the `KeyError` text before any
        request is made. */
    method CreateRecord(zoneId: string, record: Record) returns (error: Option<string>)
      modifies this
      ensures ToApiPayload(record).Err? ==>
        error == Some(ToApiPayload(record).error.Message()) && calls == old(calls)
      ensures ToApiPayload(record).Ok? ==>
        var c := CreateCall(zoneId, ToApiPayload(record).value);
        error == respond(old(calls), c) && calls == old(calls) + [c]
    {
      var body := ToApiPayload(record);
      if body.Err? {
        return Some(body.error.Message());
      }
      var c := CreateCall(zoneId, body.value);
      error := respond(calls, c);
      calls := calls + [c];
    }

    /** `update_record`. */
    method UpdateRecord(zoneId: string, recordId: string, record: Record) returns (error: Option<string>)
      modifies this
      ensures ToApiPayload(record).Err? ==>
        error == Some(ToApiPayload(record).error.Message()) && calls == old(calls)
      ensures ToApiPayload(record).Ok? ==>
        var c := UpdateCall(zoneId, recordId, ToApiPayload(record).value);
        error == respond(old(calls), c) && calls == old(calls) + [c]
    {
      var body := ToApiPayload(record);
      if body.Err? {
        return Some(body.error.Message());
      }
      var c := UpdateCall(zoneId, recordId, body.value);
      error := respond(calls, c);
      calls := calls + [c];
    }

    /** `delete_record`. */
    method DeleteRecord(zoneId: string, recordId: string) returns (error: Option<string>)
      modifies this
      ensures error == respond(old(calls), DeleteCall(zoneId, recordId))
      ensures calls == old(calls) + [DeleteCall(zoneId, recordId)]
    {
      error := respond(calls, DeleteCall(zoneId, recordId));
      calls := calls + [DeleteCall(zoneId, recordId)];
    }
  }

  // ------------------------------------------------------------------
  // Applying a plan
  // ------------------------------------------------------------------

  /** `ApplyResult`. */
  datatype ApplyResult = ApplyResult(succeeded: seq<PlanAction>, failed: seq<(PlanAction, string)>) {
    predicate AllSucceeded() {
      |failed| == 0
    }
  }

  function ProtectedMessage(reason: string): (msg: string) {
    "Protected (" + reason + "). Use --force to override."
  }

  /** The id an update is sent with: `(action.before or action.record).get("id")`. A record
      dictionary always holds `type` and `name`, so it is never empty and `before` is used
      whenever it is present. */
  function UpdateId(a: PlanAction): string {
    if a.before.Some? then IdKey(a.before.value) else IdKey(a.record)
  }

  /** What `apply_plan` does with one action before hearing from the API: refuse it with a
      message, or send a request. */
  datatype Decision = Refuse(message: string) | Send(call: Call)

  function Decide(a: PlanAction, zoneId: string, force: bool): Decision {
    if a.protected && !force then Refuse(ProtectedMessage(a.protectionReason))
    else
      match a.kind
      case Create =>
        var body := ToApiPayload(a.record);
        if body.Err? then Refuse(body.error.Message()) else Send(CreateCall(zoneId, body.value))
      case Update =>
        var id := UpdateId(a);
        if id == "" then Refuse("No record ID for update")
        else
          var body := ToApiPayload(a.record);
          if body.Err? then Refuse(body.error.Message()) else Send(UpdateCall(zoneId, id, body.value))
      case Delete =>
        var id := IdKey(a.record);
        if id == "" then Refuse("No record ID for delete") else Send(DeleteCall(zoneId, id))
  }

  /** The guards of `apply_plan`: an unforced protected action is refused with the
      "Protected" message; `force` makes protection irrelevant; an update is sent with the id
      of `before` when there is one and of `record` otherwise, a delete with the id of
      `record`, and a missing or empty id refuses the action. */
  lemma DecideGuards(a: PlanAction, zoneId: string, force: bool)
    ensures a.protected && !force ==> Decide(a, zoneId, force) == Refuse(ProtectedMessage(a.protectionReason))
    ensures Decide(a, zoneId, true) == Decide(a.(protected := false), zoneId, false)
    ensures !(a.protected && !force) && a.kind == Update ==>
      && (UpdateId(a) == "" ==> Decide(a, zoneId, force) == Refuse("No record ID for update"))
      && (Decide(a, zoneId, force).Send? ==> Decide(a, zoneId, force).call.recordId == UpdateId(a) != "")
    ensures !(a.protected && !force) && a.kind == Delete ==>
      && (IdKey(a.record) == "" ==> Decide(a, zoneId, force) == Refuse("No record ID for delete"))
      && (IdKey(a.record) != "" ==> Decide(a, zoneId, force) == Send(DeleteCall(zoneId, IdKey(a.record))))
    ensures !(a.protected && !force) && a.kind == Create ==>
      (Decide(a, zoneId, force).Send? <==> a.record.content.Some?)
  {
  }

  datatype Outcome = Succeeded | Failed(message: string)

  /** The result so far, the requests sent (after the `history` sent before the plan) and
      the outcome of each action. */
  datatype Applied = Applied(result: ApplyResult, calls: seq<Call>, outcomes: seq<Outcome>)

  /** Record an action's outcome: a success when there is no error message. */
  function Settle(r: ApplyResult, a: PlanAction, error: Option<string>): ApplyResult {
    if error.None? then ApplyResult(r.succeeded + [a], r.failed) else ApplyResult(r.succeeded, r.failed + [(a, error.value)])
  }

  function Step(st: Applied, a: PlanAction, zoneId: string, force: bool,
                respond: (seq<Call>, Call) -> Option<string>): Applied {
    match Decide(a, zoneId, force)
    case Refuse(m) => Applied(Settle(st.result, a, Some(m)), st.calls, st.outcomes + [Failed(m)])
    case Send(c) =>
      var reply := respond(st.calls, c);
      Applied(Settle(st.result, a, reply), st.calls + [c],
              st.outcomes + [if reply.None? then Succeeded else Failed(reply.value)])
  }

  /** The loop of `apply_plan` over `actions`. */
  function ApplySpec(actions: seq<PlanAction>, zoneId: string, force: bool,
                     respond: (seq<Call>, Call) -> Option<string>, history: seq<Call>): Applied
  {
    if |actions| == 0 then Applied(ApplyResult([], []), history, [])
    else Step(ApplySpec(actions[..|actions| - 1], zoneId, force, respond, history), actions[|actions| - 1], zoneId, force, respond)
  }

  /** The actions that succeeded, in plan order. */
  function Successes(actions: seq<PlanAction>, outcomes: seq<Outcome>): seq<PlanAction>
    requires |actions| == |outcomes|
  {
    if |actions| == 0 then []
    else
      Successes(actions[..|actions| - 1], outcomes[..|outcomes| - 1])
      + if outcomes[|outcomes| - 1].Succeeded? then [actions[|actions| - 1]] else []
  }

  /** The actions that failed with their messages, in plan order. */
  function Failures(actions: seq<PlanAction>, outcomes: seq<Outcome>): seq<(PlanAction, string)>
    requires |actions| == |outcomes|
  {
    if |actions| == 0 then []
    else
      Failures(actions[..|actions| - 1], outcomes[..|outcomes| - 1])
      + match outcomes[|outcomes| - 1]
        case Succeeded => []
        case Failed(m) => [(actions[|actions| - 1], m)]
  }

  /** The requests the actions that are not refused send, in plan order. */
  function SentCalls(actions: seq<PlanAction>, zoneId: string, force: bool): seq<Call> {
    if |actions| == 0 then []
    else
      SentCalls(actions[..|actions| - 1], zoneId, force)
      + match Decide(actions[|actions| - 1], zoneId, force)
        case Refuse(_) => []
        case Send(c) => [c]
  }

  /** Every action gets exactly one outcome, the succeeded and failed lists are the actions
      with each outcome in plan order, a refused action fails with the refusal's message,
      and the requests sent are those of the actions not refused, whatever the API answers:
      no failure stops the actions after it. */
  lemma {:induction false} ApplyShape(actions: seq<PlanAction>, zoneId: string, force: bool,
                                      respond: (seq<Call>, Call) -> Option<string>, history: seq<Call>)
    ensures var ap := ApplySpec(actions, zoneId, force, respond, history);
      && |ap.outcomes| == |actions|
      && ap.result.succeeded == Successes(actions, ap.outcomes)
      && ap.result.failed == Failures(actions, ap.outcomes)
      && ap.calls == history + SentCalls(actions, zoneId, force)
      && (forall i :: 0 <= i < |actions| && Decide(actions[i], zoneId, force).Refuse? ==>
            ap.outcomes[i] == Failed(Decide(actions[i], zoneId, force).message))
  {
    if |actions| > 0 {
      var n := |actions|;
      var prefix := actions[..n - 1];
      ApplyShape(prefix, zoneId, force, respond, history);
      var prev := ApplySpec(prefix, zoneId, force, respond, history);
      var ap := ApplySpec(actions, zoneId, force, respond, history);
      assert ap == Step(prev, actions[n - 1], zoneId, force, respond);
      assert ap.outcomes[..n - 1] == prev.outcomes;
      forall i | 0 <= i < n && Decide(actions[i], zoneId, force).Refuse?
        ensures ap.outcomes[i] == Failed(Decide(actions[i], zoneId, force).message)
      {
        if i < n - 1 {
          assert prefix[i] == actions[i];
          assert ap.outcomes[i] == prev.outcomes[i];
        }
      }
    }
  }

  /** An action's outcome as the API's answer decides it: a sent request succeeds exactly
      when the API accepts it after the requests `sent` before it, and otherwise fails with
      the API's error text. A refused action is not covered here. */
  predicate ReplyDecides(o: Outcome, d: Decision, sent: seq<Call>, respond: (seq<Call>, Call) -> Option<string>) {
    d.Send? ==> o == if respond(sent, d.call).None? then Succeeded else Failed(respond(sent, d.call).value)
  }

  /** The last action's outcome is decided by the API's answer to its request. */
  lemma LastSentOutcome(actions: seq<PlanAction>, zoneId: string, force: bool,
                        respond: (seq<Call>, Call) -> Option<string>, history: seq<Call>)
    requires |actions| > 0
    ensures var ap := ApplySpec(actions, zoneId, force, respond, history);
      |ap.outcomes| == |actions| &&
      ReplyDecides(ap.outcomes[|actions| - 1], Decide(actions[|actions| - 1], zoneId, force),
                   history + SentCalls(actions[..|actions| - 1], zoneId, force), respond)
  {
    var prefix := actions[..|actions| - 1];
    ApplyShape(prefix, zoneId, force, respond, history);
  }

  /** Applying one more action leaves the earlier outcomes as they were. */
  lemma ApplySpecKeepsOutcomes(actions: seq<PlanAction>, zoneId: string, force: bool,
                               respond: (seq<Call>, Call) -> Option<string>, history: seq<Call>)
    requires |actions| > 0
    ensures |ApplySpec(actions, zoneId, force, respond, history).outcomes| == |actions|
    ensures ApplySpec(actions, zoneId, force, respond, history).outcomes[..|actions| - 1]
         == ApplySpec(actions[..|actions| - 1], zoneId, force, respond, history).outcomes
  {
    ApplyShape(actions[..|actions| - 1], zoneId, force, respond, history);
  }

  /** An action whose request is sent succeeds exactly when the API accepts that request,
      and otherwise fails with the API's error text; the API sees the request after the
      `history` and the requests of the actions before it. */
  lemma {:induction false} SentOutcome(actions: seq<PlanAction>, zoneId: string, force: bool,
                                       respond: (seq<Call>, Call) -> Option<string>, history: seq<Call>)
    ensures var ap := ApplySpec(actions, zoneId, force, respond, history);
      |ap.outcomes| == |actions| &&
      forall i :: 0 <= i < |actions| ==>
        ReplyDecides(ap.outcomes[i], Decide(actions[i], zoneId, force),
                     history + SentCalls(actions[..i], zoneId, force), respond)
  {
    if |actions| > 0 {
      var n := |actions|;
      var prefix := actions[..n - 1];
      SentOutcome(prefix, zoneId, force, respond, history);
      LastSentOutcome(actions, zoneId, force, respond, history);
      ApplySpecKeepsOutcomes(actions, zoneId, force, respond, history);
      var before := ApplySpec(prefix, zoneId, force, respond, history).outcomes;
      var after := ApplySpec(actions, zoneId, force, respond, history).outcomes;
      forall i | 0 <= i < n - 1
        ensures ReplyDecides(after[i], Decide(actions[i], zoneId, force),
                             history + SentCalls(actions[..i], zoneId, force), respond)
      {
        assert prefix[i] == actions[i] && prefix[..i] == actions[..i];
        assert after[i] == after[..n - 1][i] == before[i];
      }
    }
  }

  /** Every action lands in exactly one of the two lists. */
  lemma {:induction false} PartitionSizes(actions: seq<PlanAction>, outcomes: seq<Outcome>)
    requires |actions| == |outcomes|
    ensures |Successes(actions, outcomes)| + |Failures(actions, outcomes)| == |actions|
    ensures |Successes(actions, outcomes)| == |actions| <==> forall i :: 0 <= i < |outcomes| ==> outcomes[i].Succeeded?
  {
    if |actions| > 0 {
      var n := |actions|;
      PartitionSizes(actions[..n - 1], outcomes[..n - 1]);
      if forall i :: 0 <= i < n - 1 ==> outcomes[i].Succeeded? {
        var pre := outcomes[..n - 1];
        forall i | 0 <= i < n - 1 ensures pre[i].Succeeded? {
          assert pre[i] == outcomes[i];
        }
      } else {
        var i :| 0 <= i < n - 1 && !outcomes[i].Succeeded?;
        assert !outcomes[..n - 1][i].Succeeded?;
      }
    }
  }

  /** `all_succeeded` holds exactly when every action succeeded. */
  lemma AllSucceededIff(actions: seq<PlanAction>, zoneId: string, force: bool,
                        respond: (seq<Call>, Call) -> Option<string>, history: seq<Call>)
    ensures var ap := ApplySpec(actions, zoneId, force, respond, history);
      ap.result.AllSucceeded() <==> forall i :: 0 <= i < |ap.outcomes| ==> ap.outcomes[i] == Succeeded
  {
    var ap := ApplySpec(actions, zoneId, force, respond, history);
    ApplyShape(actions, zoneId, force, respond, history);
    PartitionSizes(actions, ap.outcomes);
  }

  /** Without `force` no request is sent for a protected action: the requests sent are those
      of the unprotected actions that are not refused for another reason. */
  lemma {:induction false} NoCallForProtected(actions: seq<PlanAction>, zoneId: string)
    ensures SentCalls(actions, zoneId, false) == SentCalls(Unprotected(actions), zoneId, false)
  {
    if |actions| > 0 {
      var n := |actions|;
      NoCallForProtected(actions[..n - 1], zoneId);
      DecideGuards(actions[n - 1], zoneId, false);
      var u := Unprotected(actions[..n - 1]);
      if !actions[n - 1].protected {
        var w := u + [actions[n - 1]];
        assert Unprotected(actions) == w;
        assert w[..|w| - 1] == u && w[|w| - 1] == actions[n - 1];
        assert SentCalls(w, zoneId, false) == SentCalls(u, zoneId, false) + SentCalls([actions[n - 1]], zoneId, false);
      } else {
        assert Unprotected(actions) == u;
      }
    }
  }

  /** The actions not marked protected, in order. */
  function Unprotected(actions: seq<PlanAction>): seq<PlanAction> {
    if |actions| == 0 then []
    else Unprotected(actions[..|actions| - 1]) + if actions[|actions| - 1].protected then [] else [actions[|actions| - 1]]
  }

  /** The message of the commit after applying a plan. */
  function ApplyMessage(plan: Plan): string {
    "Applied changes to " + plan.zoneName + " (" + plan.Summary() + ")"
  }

  // ------------------------------------------------------------------
  // The engine
  // ------------------------------------------------------------------

  /** The three loops of `generate_plan`. */
  method BuildActions(diff: DiffResult, ledger: seq<ProtectedEntry>) returns (actions: seq<PlanAction>)
    ensures actions == PlanActions(diff, ledger)
  {
    ghost var expected := PlanActions(diff, ledger);
    actions := [];
    var i := 0;
    while i < |diff.added|
      invariant 0 <= i <= |diff.added| && |actions| == i
      invariant forall j :: 0 <= j < i ==> actions[j] == expected[j]
    {
      var p := IsProtected(diff.added[i], ledger);
      actions := actions + [PlanAction(Create, diff.added[i], None, p.protected, p.reason)];
      i := i + 1;
    }
    i := 0;
    while i < |diff.removed|
      invariant 0 <= i <= |diff.removed| && |actions| == |diff.added| + i
      invariant forall j :: 0 <= j < |actions| ==> actions[j] == expected[j]
    {
      var p := IsProtected(diff.removed[i], ledger);
      actions := actions + [PlanAction(Delete, diff.removed[i], None, p.protected, p.reason)];
      i := i + 1;
    }
    i := 0;
    while i < |diff.modified|
      invariant 0 <= i <= |diff.modified| && |actions| == |diff.added| + |diff.removed| + i
      invariant forall j :: 0 <= j < |actions| ==> actions[j] == expected[j]
    {
      var m := diff.modified[i];
      var p := IsProtected(m.after, ledger);
      actions := actions + [PlanAction(Update, m.after, Some(m.before), p.protected, p.reason)];
      i := i + 1;
    }
  }

  class Engine {
    const store: StateStore
    const cf: Transport
    const git: GitRepo

    constructor (store: StateStore, cf: Transport, git: GitRepo)
      ensures this.store == store && this.cf == cf && this.git == git
    {
      this.store := store;
      this.cf := cf;
      this.git := git;
    }

    /** `detect_drift`: `None` for a zone never synced, otherwise the diff from the last
        synced records to the current remote ones. */
    method DetectDrift(zoneName: string) returns (r: Result<Option<DiffResult>, SyncError>)
      ensures store.LoadZone(zoneName).None? ==> r == Ok(None)
      ensures store.LoadZone(zoneName).Some? ==>
        var local := store.LoadZone(zoneName).value;
        match cf.ListRecords(local.zoneId)
        case Err(m) => r == Err(ListFailed(m))
        case Ok(remote) => r == Ok(Some(Diff(local.records, remote)))
    {
      var localState := store.LoadZone(zoneName);
      if localState.None? {
        return Ok(None);
      }
      var local := localState.value;
      var listed := cf.ListRecords(local.zoneId);
      if listed.Err? {
        return Err(ListFailed(listed.error));
      }
      var drift := ComputeDiff(local.records, listed.value);
      return Ok(Some(drift));
    }

    /** `generate_plan`. */
    method GeneratePlan(zoneName: string) returns (r: Result<Plan, SyncError>)
      ensures store.LoadZone(zoneName).None? ==> r == Err(ZoneNotSynced(zoneName))
      ensures store.LoadZone(zoneName).Some? ==>
        var local := store.LoadZone(zoneName).value;
        r == PlanFor(zoneName, local, cf.ListRecords(local.zoneId), store.protectedRecords)
    {
      var localState := store.LoadZone(zoneName);
      if localState.None? {
        return Err(ZoneNotSynced(zoneName));
      }
      var local := localState.value;
      var listed := cf.ListRecords(local.zoneId);
      if listed.Err? {
        return Err(ListFailed(listed.error));
      }
      var remote := listed.value;
      var drift := ComputeDiff(local.records, remote);
      var diff := ComputeDiff(remote, local.records);
      var actions := BuildActions(diff, store.protectedRecords);
      return Ok(Plan(zoneName, local.zoneId, actions, Some(drift)));
    }

    /** `apply_plan`: run every action, then re-list the zone, save it and commit; a failing
        re-list is swallowed and changes neither the store, the repository nor the result. */
    method ApplyPlan(plan: Plan, force: bool, now: string) returns (result: ApplyResult)
      modifies cf, store, git
      ensures var ap := ApplySpec(plan.actions, plan.zoneId, force, cf.respond, old(cf.calls));
        result == ap.result && cf.calls == ap.calls
      ensures store.config == old(store.config) && store.protectedRecords == old(store.protectedRecords)
      ensures cf.ListRecords(plan.zoneId).Err? ==>
        store.zones == old(store.zones)
        && git.initialised == old(git.initialised) && git.commits == old(git.commits) && git.head == old(git.head)
      ensures cf.ListRecords(plan.zoneId).Ok? ==>
        && store.zones
           == SaveZoneSpec(old(store.zones), store.hash, plan.zoneId, plan.zoneName, cf.ListRecords(plan.zoneId).value, now).zones
        && git.initialised && git.head == Some(store.Contents())
        && git.commits == CommitLog(old(git.initialised), old(git.commits), old(git.head), ApplyMessage(plan), store.Contents())
    {
      result := ApplyResult([], []);
      var i := 0;
      while i < |plan.actions|
        invariant 0 <= i <= |plan.actions|
        invariant var ap := ApplySpec(plan.actions[..i], plan.zoneId, force, cf.respond, old(cf.calls));
          result == ap.result && cf.calls == ap.calls
        invariant unchanged(store) && unchanged(git)
      {
        var action := plan.actions[i];
        assert plan.actions[..i + 1][..i] == plan.actions[..i];
        if action.protected && !force {
          result := Settle(result, action, Some(ProtectedMessage(action.protectionReason)));
        } else {
          match action.kind
          case Create =>
            var error := cf.CreateRecord(plan.zoneId, action.record);
            result := Settle(result, action, error);
          case Update =>
            var recordId := UpdateId(action);
            if recordId == "" {
              result := Settle(result, action, Some("No record ID for update"));
            } else {
              var error := cf.UpdateRecord(plan.zoneId, recordId, action.record);
              result := Settle(result, action, error);
            }
          case Delete =>
            var recordId := IdKey(action.record);
            if recordId == "" {
              result := Settle(result, action, Some("No record ID for delete"));
            } else {
              var error := cf.DeleteRecord(plan.zoneId, recordId);
              result := Settle(result, action, error);
            }
        }
        i := i + 1;
      }
      assert plan.actions[..i] == plan.actions;
      var listed := cf.ListRecords(plan.zoneId);
      if listed.Ok? {
        var _ := store.SaveZone(plan.zoneId, plan.zoneName, listed.value, now);
        git.AutoInit();
        var _ := git.Commit(ApplyMessage(plan), store.Contents());
      }
    }
  }
}
