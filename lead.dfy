/**
 * The lead record of agent_logic.py (`lead_data`) as a value, and one
 * conversation turn as a function on it. A field that Python holds as `None`
 * is the empty string here: the code only ever tests the fields for
 * truthiness, and `None` and `""` are both false. The class in agent.dfy
 * performs the same steps in place and is proved equal to these functions.
 */
module Lead {
  import opened Wrappers
  import opened Text
  import opened Extractors

  datatype LeadRecord = LeadRecord(
    name: string,
    phone: string,
    projectId: string,
    projectName: string,
    leadSubmitted: bool,
    remarks: seq<string>)

  /** The record at module load (agent_logic.py:16-23). */
  const EmptyLead := LeadRecord("", "", "", "", false, [])

  /** What every reachable record satisfies. */
  predicate WellFormed(r: LeadRecord)
  {
    && (r.phone == "" || IsPhoneNumber(r.phone))
    && (r.leadSubmitted ==> r.name != "" && r.phone != "" && r.projectId != "")
  }

  /* ---------------- capture steps ---------------- */

  /** Name capture: only while no name is stored; one remark per capture. */
  function CaptureName(r: LeadRecord, message: string): (r': LeadRecord)
    ensures r.name != "" ==> r' == r
    ensures r' == r.(name := r'.name, remarks := r'.remarks)
    ensures r'.name != r.name <==> r.name == "" && ExtractName(message).Some?
    ensures r'.name != r.name ==> Some(r'.name) == ExtractName(message)
    ensures r'.remarks == r.remarks + (if r'.name != r.name then ["Name: " + r'.name] else [])
    ensures WellFormed(r) ==> WellFormed(r')
  {
    if r.name != "" then r
    else match ExtractName(message)
      case None => r
      case Some(n) => r.(name := n, remarks := r.remarks + ["Name: " + n])
  }

  /** Phone capture: only while no phone is stored; one remark per capture. */
  function CapturePhone(r: LeadRecord, message: string): (r': LeadRecord)
    ensures r.phone != "" ==> r' == r
    ensures r' == r.(phone := r'.phone, remarks := r'.remarks)
    ensures r'.phone != r.phone <==> r.phone == "" && ExtractPhone(message).Some?
    ensures r'.phone != r.phone ==> Some(r'.phone) == ExtractPhone(message)
    ensures r'.phone != "" ==> IsPhoneNumber(r'.phone) || r'.phone == r.phone
    ensures r'.remarks == r.remarks + (if r'.phone != r.phone then ["Phone: " + r'.phone] else [])
    ensures WellFormed(r) ==> WellFormed(r')
  {
    if r.phone != "" then r
    else match ExtractPhone(message)
      case None => r
      case Some(p) => r.(phone := p, remarks := r.remarks + ["Phone: " + p])
  }

  /**
   * Project capture, from the user's message or the model's reply: only while
   * no project id is stored; a capture records the catalogue entry's id and
   * name and one remark. An entry with an empty id still counts as a capture,
   * and the next turn may capture again, as in the source.
   */
  function CaptureProject(r: LeadRecord, text: string, catalog: seq<Project>): (r': LeadRecord)
    ensures r.projectId != "" ==> r' == r
    ensures r' == r.(projectId := r'.projectId, projectName := r'.projectName, remarks := r'.remarks)
    ensures (r.projectId == "" && ExtractProject(text, catalog).Some?) <==> |r'.remarks| == |r.remarks| + 1
    ensures |r'.remarks| == |r.remarks| + 1 ==>
      && ExtractProject(text, catalog) == Some(Project(r'.projectId, r'.projectName))
      && r'.remarks == r.remarks + ["Interested in: " + r'.projectName]
    ensures |r'.remarks| != |r.remarks| + 1 ==> r' == r
    ensures WellFormed(r) ==> WellFormed(r')
  {
    if r.projectId != "" then r
    else match ExtractProject(text, catalog)
      case None => r
      case Some(p) =>
        r.(projectId := p.id, projectName := p.name, remarks := r.remarks + ["Interested in: " + p.name])
  }

  /* ---------------- CRM submission ---------------- */

  /** The condition of check_and_submit_lead under which the CRM is called. */
  predicate CanSubmit(r: LeadRecord)
    ensures CanSubmit(r) && WellFormed(r) ==> IsPhoneNumber(r.phone)
  {
    r.name != "" && r.phone != "" && r.projectId != "" && !r.leadSubmitted
  }

  const DefaultRemarks: string := "Customer showed interest via AI chatbot"
  const RemarksSeparator: string := " | "

  /** The remarks sent to the CRM: the remarks joined by " | ", or the default text. */
  function RemarksText(remarks: seq<string>): (text: string)
    ensures remarks == [] ==> text == DefaultRemarks
  {
    if remarks == [] then DefaultRemarks else Join(remarks, RemarksSeparator)
  }

  /** One more remark extends the text sent to the CRM by the separator and that remark. */
  lemma RemarksTextGrows(remarks: seq<string>, remark: string)
    ensures remarks == [] ==> RemarksText(remarks + [remark]) == remark
    ensures remarks != [] ==> RemarksText(remarks + [remark]) == RemarksText(remarks) + RemarksSeparator + remark
  {
    if remarks != [] {
      JoinSnoc(remarks, remark, RemarksSeparator);
    } else {
      assert remarks + [remark] == [remark];
    }
  }

  /** The arguments of one `add_lead_to_crm` call and the status it reported. */
  datatype CrmCall = CrmCall(name: string, phone: string, projectId: string, remarks: string, status: string)

  const SuccessStatus: string := "success"

  /** The CRM call check_and_submit_lead makes on `r`, when the CRM reports `status`. */
  function CrmRequest(r: LeadRecord, status: string): (c: CrmCall)
    requires CanSubmit(r)
    ensures c.name == r.name && c.phone == r.phone && c.projectId == r.projectId
    ensures c.name != "" && c.phone != "" && c.projectId != ""
    ensures r.remarks != [] ==> c.remarks == Join(r.remarks, RemarksSeparator)
    ensures r.remarks == [] ==> c.remarks == DefaultRemarks
    ensures c.status == status
  {
    CrmCall(r.name, r.phone, r.projectId, RemarksText(r.remarks), status)
  }

  /** The state change of check_and_submit_lead (agent_logic.py:120-174). */
  function Submit(r: LeadRecord, status: string): (r': LeadRecord)
    ensures r' == r.(leadSubmitted := r'.leadSubmitted)
    ensures r'.leadSubmitted <==> r.leadSubmitted || (CanSubmit(r) && status == SuccessStatus)
    ensures WellFormed(r) ==> WellFormed(r')
  {
    if CanSubmit(r) && status == SuccessStatus then r.(leadSubmitted := true) else r
  }

  /** The calls check_and_submit_lead makes on `r`: one when it can submit, none otherwise. */
  function SubmitCalls(r: LeadRecord, status: string): (calls: seq<CrmCall>)
    ensures |calls| <= 1
    ensures calls != [] <==> CanSubmit(r)
    ensures calls != [] ==> calls[0] == CrmRequest(r, status)
  {
    if CanSubmit(r) then [CrmRequest(r, status)] else []
  }

  /* ---------------- one turn of run_conversation ---------------- */

  /** What the language-model call produced: a reply text, or a thrown call. */
  datatype LlmOutcome = Reply(text: string) | CallFailed(error: string)

  /**
   * The inputs of one turn that come from outside: the user's message, the
   * catalogue fetched for the turn, the model's outcome and the status the CRM
   * reports if it is called.
   */
  datatype TurnInput = TurnInput(prompt: string, catalog: seq<Project>, llm: LlmOutcome, crmStatus: string)

  /** The record after the three captures from the user's message (agent_logic.py:191-214). */
  function AfterUserMessage(r: LeadRecord, t: TurnInput): (r': LeadRecord)
    ensures r.name != "" ==> r'.name == r.name
    ensures r.phone != "" ==> r'.phone == r.phone
    ensures r.projectId != "" ==> r'.projectId == r.projectId && r'.projectName == r.projectName
    ensures r'.leadSubmitted == r.leadSubmitted
    ensures r.remarks <= r'.remarks && |r'.remarks| <= |r.remarks| + 3
    ensures WellFormed(r) ==> WellFormed(r')
  {
    CaptureProject(CapturePhone(CaptureName(r, t.prompt), t.prompt), t.prompt, t.catalog)
  }

  /** The record just before the CRM check, on the path where the model replied. */
  function BeforeSubmit(r: LeadRecord, t: TurnInput): LeadRecord
    requires t.llm.Reply?
  {
    CaptureProject(AfterUserMessage(r, t), t.llm.text, t.catalog)
  }

  /** The record after one call of run_conversation. */
  function Step(r: LeadRecord, t: TurnInput): (r': LeadRecord)
    ensures WellFormed(r) ==> WellFormed(r')
  {
    match t.llm
    case CallFailed(_) => AfterUserMessage(r, t)
    case Reply(_) => Submit(BeforeSubmit(r, t), t.crmStatus)
  }

  /** The CRM calls one call of run_conversation makes: none when the model call threw. */
  function StepCalls(r: LeadRecord, t: TurnInput): (calls: seq<CrmCall>)
    ensures |calls| <= 1
  {
    match t.llm
    case CallFailed(_) => []
    case Reply(_) => SubmitCalls(BeforeSubmit(r, t), t.crmStatus)
  }

  /** One turn never overwrites a stored field, never clears the flag, and only appends remarks. */
  lemma StepKeeps(r: LeadRecord, t: TurnInput)
    ensures r.name != "" ==> Step(r, t).name == r.name
    ensures r.phone != "" ==> Step(r, t).phone == r.phone
    ensures r.projectId != "" ==> Step(r, t).projectId == r.projectId && Step(r, t).projectName == r.projectName
    ensures r.leadSubmitted ==> Step(r, t).leadSubmitted
    ensures r.remarks <= Step(r, t).remarks
    ensures |Step(r, t).remarks| <= |r.remarks| + 4
  {
    var r3 := AfterUserMessage(r, t);
    assert r.remarks <= r3.remarks && |r3.remarks| <= |r.remarks| + 3;
    match t.llm
    case CallFailed(_) =>
    case Reply(text) =>
      var r4 := CaptureProject(r3, text, t.catalog);
      assert r3.remarks <= r4.remarks;
      assert Step(r, t) == Submit(r4, t.crmStatus);
  }

  /** A turn sets the flag exactly when it called the CRM and the CRM reported success. */
  lemma StepSetsFlag(r: LeadRecord, t: TurnInput)
    ensures !r.leadSubmitted ==>
      (Step(r, t).leadSubmitted <==> StepCalls(r, t) != [] && StepCalls(r, t)[0].status == SuccessStatus)
    ensures r.leadSubmitted ==> StepCalls(r, t) == []
  {
  }

  /* ---------------- many turns ---------------- */

  /** The record after a sequence of turns. */
  function Run(r: LeadRecord, ts: seq<TurnInput>): LeadRecord
    decreases |ts|
  {
    if ts == [] then r else Run(Step(r, ts[0]), ts[1..])
  }

  /** Every CRM call made over a sequence of turns, in order. */
  function RunCalls(r: LeadRecord, ts: seq<TurnInput>): seq<CrmCall>
    decreases |ts|
  {
    if ts == [] then [] else StepCalls(r, ts[0]) + RunCalls(Step(r, ts[0]), ts[1..])
  }

  /** Number of calls in `calls` that reported success. */
  function Successes(calls: seq<CrmCall>): nat
  {
    if calls == [] then 0 else (if calls[0].status == SuccessStatus then 1 else 0) + Successes(calls[1..])
  }

  lemma {:induction false} SuccessesAppend(a: seq<CrmCall>, b: seq<CrmCall>)
    ensures Successes(a + b) == Successes(a) + Successes(b)
  {
    if a != [] {
      assert (a + b)[1..] == a[1..] + b;
      SuccessesAppend(a[1..], b);
    } else {
      assert a + b == b;
    }
  }

  /**
   * Over any sequence of turns, stored fields are never overwritten, the flag
   * is never cleared, remarks only grow, and the well-formedness of the record
   * is kept.
   */
  lemma {:induction false} RunKeeps(r: LeadRecord, ts: seq<TurnInput>)
    ensures r.name != "" ==> Run(r, ts).name == r.name
    ensures r.phone != "" ==> Run(r, ts).phone == r.phone
    ensures r.projectId != "" ==> Run(r, ts).projectId == r.projectId && Run(r, ts).projectName == r.projectName
    ensures r.leadSubmitted ==> Run(r, ts).leadSubmitted
    ensures r.remarks <= Run(r, ts).remarks
    ensures WellFormed(r) ==> WellFormed(Run(r, ts))
    decreases |ts|
  {
    if ts != [] {
      StepKeeps(r, ts[0]);
      RunKeeps(Step(r, ts[0]), ts[1..]);
    }
  }

  /** Once the lead is submitted, no later turn calls the CRM. */
  lemma {:induction false} NoCallsAfterSubmission(r: LeadRecord, ts: seq<TurnInput>)
    requires r.leadSubmitted
    ensures RunCalls(r, ts) == []
    decreases |ts|
  {
    if ts != [] {
      StepSetsFlag(r, ts[0]);
      StepKeeps(r, ts[0]);
      NoCallsAfterSubmission(Step(r, ts[0]), ts[1..]);
    }
  }

  /**
   * At-most-once submission: over any sequence of turns, the CRM reports
   * success at most once, and none at all if the lead was already submitted;
   * the flag ends up set exactly when it was set before or some call succeeded.
   */
  lemma {:induction false} AtMostOneSuccess(r: LeadRecord, ts: seq<TurnInput>)
    ensures Successes(RunCalls(r, ts)) + (if r.leadSubmitted then 1 else 0) <= 1
    ensures Run(r, ts).leadSubmitted <==> r.leadSubmitted || Successes(RunCalls(r, ts)) > 0
    decreases |ts|
  {
    if ts != [] {
      var t, r1 := ts[0], Step(r, ts[0]);
      StepSetsFlag(r, t);
      StepKeeps(r, t);
      AtMostOneSuccess(r1, ts[1..]);
      SuccessesAppend(StepCalls(r, t), RunCalls(r1, ts[1..]));
      if r.leadSubmitted {
        NoCallsAfterSubmission(r1, ts[1..]);
      } else if r1.leadSubmitted {
        NoCallsAfterSubmission(r1, ts[1..]);
        assert Successes(StepCalls(r, t)) == 1;
      } else {
        assert Successes(StepCalls(r, t)) == 0;
      }
    }
  }
}
