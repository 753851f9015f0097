/** The scheduler sweep: find the published, scheduled workflows whose next
    run time has passed and ask the execute endpoint to start each of them. */
module CronSweep {
  import opened Common

  datatype WorkflowStatus = Draft | Published

  /** The columns of a workflow row the sweep looks at. */
  datatype Workflow = Workflow(
    id: string,
    status: WorkflowStatus,
    cron: Option<string>,
    nextRunAt: Option<int>)

  /** The query's filter: published, a schedule that is not null (an empty
      one counts), and a next run time not after `now`. A row without a next
      run time never satisfies `lte`. */
  predicate IsDue(w: Workflow, now: int): (due: bool)
    ensures w.status == Draft ==> !due
    ensures w.cron.None? ==> !due
    ensures w.nextRunAt.None? ==> !due
    ensures w.nextRunAt.Some? && now < w.nextRunAt.value ==> !due
    ensures w.status == Published && w.cron.Some? && w.nextRunAt.Some? && w.nextRunAt.value <= now ==> due
  {
    w.status == Published && w.cron.Some? && w.nextRunAt.Some? && w.nextRunAt.value <= now
  }

  /** A workflow that is due stays due at every later tick until its row
      changes: the sweep itself never makes it not due. */
  lemma DueStaysDue(w: Workflow, now: int, later: int)
    requires IsDue(w, now) && now <= later
    ensures IsDue(w, later)
  {
  }

  /** The due workflows, in table order. */
  function DueWorkflows(table: seq<Workflow>, now: int): (r: seq<Workflow>)
    ensures |r| <= |table|
    ensures forall w :: multiset(r)[w] == if IsDue(w, now) then multiset(table)[w] else 0
    ensures forall i :: 0 <= i < |r| ==> IsDue(r[i], now)
  {
    if table == [] then []
    else
      assert table == [table[0]] + table[1..];
      (if IsDue(table[0], now) then [table[0]] else []) + DueWorkflows(table[1..], now)
  }

  /** Selecting from two parts of the table one after the other gives the
      selection of the whole: the sweep keeps the query's order. */
  lemma {:induction false} DueWorkflowsAppend(a: seq<Workflow>, b: seq<Workflow>, now: int)
    ensures DueWorkflows(a + b, now) == DueWorkflows(a, now) + DueWorkflows(b, now)
    decreases |a|
  {
    if a == [] {
      assert a + b == b;
    } else {
      assert (a + b)[1..] == a[1..] + b;
      DueWorkflowsAppend(a[1..], b, now);
    }
  }

  /** A due workflow is a row of the table. */
  lemma DueIsInTable(table: seq<Workflow>, now: int, w: Workflow)
    requires w in DueWorkflows(table, now)
    ensures w in table
  {
    assert w in multiset(DueWorkflows(table, now));
  }

  /** No two rows share an id. */
  predicate IdsUnique(s: seq<Workflow>)
  {
    forall i, j :: 0 <= i < j < |s| ==> s[i].id != s[j].id
  }

  lemma ConsIdsUnique(w: Workflow, s: seq<Workflow>)
    requires IdsUnique(s)
    requires forall k :: 0 <= k < |s| ==> s[k].id != w.id
    ensures IdsUnique([w] + s)
  {
    var t := [w] + s;
    forall i, j | 0 <= i < j < |t| ensures t[i].id != t[j].id {
      assert t[j] == s[j - 1];
      if i > 0 { assert t[i] == s[i - 1]; }
    }
  }

  /** Workflow ids that are unique in the table stay unique among the due
      workflows, so no workflow is triggered twice in one sweep. */
  lemma {:induction false} DueIdsUnique(table: seq<Workflow>, now: int)
    requires IdsUnique(table)
    ensures IdsUnique(DueWorkflows(table, now))
    decreases |table|
  {
    if table != [] {
      var rest := table[1..];
      assert IdsUnique(rest) by {
        forall i, j | 0 <= i < j < |rest| ensures rest[i].id != rest[j].id {
          assert rest[i] == table[i + 1] && rest[j] == table[j + 1];
        }
      }
      DueIdsUnique(rest, now);
      var dueRest := DueWorkflows(rest, now);
      if IsDue(table[0], now) {
        forall k | 0 <= k < |dueRest| ensures dueRest[k].id != table[0].id {
          DueIsInTable(rest, now, dueRest[k]);
          var m :| 0 <= m < |rest| && rest[m] == dueRest[k];
          assert table[m + 1] == rest[m];
        }
        ConsIdsUnique(table[0], dueRest);
        assert DueWorkflows(table, now) == [table[0]] + dueRest;
      } else {
        assert DueWorkflows(table, now) == dueRest;
      }
    }
  }

  /** The request the trigger sends: the execute endpoint's path for the
      workflow, and the bearer credential. Prefixing the application's base
      url is not part of this model. */
  datatype Request = Request(url: string, authorization: string)

  const ExecutePath := "api/workflows/execute?workflowId="

  function TriggerRequest(workflowId: string, apiSecret: string): (q: Request)
    ensures |ExecutePath| <= |q.url| && q.url[..|ExecutePath|] == ExecutePath
    ensures q.url[|ExecutePath|..] == workflowId
    ensures q.authorization == "Bearer " + apiSecret
  {
    Request(ExecutePath + workflowId, "Bearer " + apiSecret)
  }

  /** Different workflows are triggered through different urls. */
  lemma TriggerUrlInjective(a: string, b: string, apiSecret: string)
    requires TriggerRequest(a, apiSecret).url == TriggerRequest(b, apiSecret).url
    ensures a == b
  {
  }

  /** What `fetch` does: answers with an HTTP status or throws. */
  datatype FetchResult = Responded(status: int) | Threw(message: string)

  /** How one trigger ended, as the sweep logs it. */
  datatype TriggerOutcome = Accepted | Refused(status: int) | Errored(message: string)

  /** A trigger request that was sent, and how it ended. */
  datatype TriggerCall = TriggerCall(request: Request, outcome: TriggerOutcome)

  /** `res.ok` holds for the 2xx statuses. */
  function Classify(res: FetchResult): (o: TriggerOutcome)
    ensures o.Accepted? <==> res.Responded? && 200 <= res.status <= 299
    ensures o.Refused? ==> res.Responded? && o.status == res.status
    ensures o.Errored? <==> res.Threw?
  {
    match res
    case Responded(status) => if 200 <= status <= 299 then Accepted else Refused(status)
    case Threw(message) => Errored(message)
  }

  /** `triggerWorkflow`: sends one request and swallows every failure; it
      always returns normally. `respond` stands for the network. */
  method TriggerWorkflow(workflowId: string, apiSecret: string, respond: Request -> FetchResult)
    returns (call: TriggerCall)
    ensures call.request == TriggerRequest(workflowId, apiSecret)
    ensures call.outcome == Classify(respond(call.request))
  {
    var request := TriggerRequest(workflowId, apiSecret);
    var res := respond(request);
    call := TriggerCall(request, Classify(res));
  }

  /** The JSON body of the sweep's 200 response. */
  datatype SweepResponse = SweepResponse(workflowsToRun: nat)

  /** `GET`: triggers every due workflow once, in query order, whatever the
      earlier triggers did, and reports how many were due. The workflow table
      is only read. */
  method Get(table: seq<Workflow>, now: int, apiSecret: string, respond: Request -> FetchResult)
    returns (response: SweepResponse, calls: seq<TriggerCall>)
    ensures response.workflowsToRun == |DueWorkflows(table, now)|
    ensures |calls| == |DueWorkflows(table, now)|
    ensures forall i :: 0 <= i < |calls| ==>
      calls[i].request == TriggerRequest(DueWorkflows(table, now)[i].id, apiSecret) &&
      calls[i].outcome == Classify(respond(calls[i].request))
  {
    var workflows := DueWorkflows(table, now);
    calls := [];
    for i := 0 to |workflows|
      invariant |calls| == i
      invariant forall k :: 0 <= k < i ==>
        calls[k].request == TriggerRequest(workflows[k].id, apiSecret) &&
        calls[k].outcome == Classify(respond(calls[k].request))
    {
      var call := TriggerWorkflow(workflows[i].id, apiSecret, respond);
      calls := calls + [call];
    }
    response := SweepResponse(|workflows|);
  }
}
