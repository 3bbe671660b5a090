/**
 * The module-level state of agent_logic.py as an object: the fields of
 * `lead_data`, the `conversation_history` list, and the two operations that
 * change them, check_and_submit_lead and run_conversation. The external calls
 * are inputs: the catalogue of the turn, the outcome of the language-model
 * call, the status the CRM reports, and the JSON check of the reply.
 */
module Agent {
  import opened Wrappers
  import opened Extractors
  import opened Lead

  /**
   * A reply handed back to the caller. `ModelText` is the model's text passed
   * through unchanged; `TextBlock(t)` is the payload
   * `{"blocks": [{"component": "Text", "props": {"text": t}}]}` the code builds
   * with `json.dumps`.
   */
  datatype Reply = ModelText(text: string) | TextBlock(text: string)

  /** Text of the payload that replaces a reply failing the JSON check (agent_logic.py:260). */
  const InvalidReplyText: string := "\U{26A0}\U{FE0F} Kuch technical issue aa gaya hai. Please try again."

  /** Text of the payload returned when the model call throws (agent_logic.py:272). */
  function CallFailedText(error: string): string
  {
    "\U{26A0}\U{FE0F} Kuch technical issue aa gaya hai: " + error
  }

  /** One entry of `conversation_history`. */
  datatype Message =
    | SystemMessage(name: string, phone: string, projectName: string, leadSubmitted: bool, catalog: seq<Project>)
    | UserMessage(content: string)
    | AssistantMessage(reply: Reply)

  /** The system message: the prompt template filled from the lead record and the catalogue. */
  function SystemPrompt(r: LeadRecord, catalog: seq<Project>): (m: Message)
    ensures m.SystemMessage? && m.catalog == catalog
    ensures m.name == r.name && m.phone == r.phone && m.projectName == r.projectName
    ensures m.leadSubmitted == r.leadSubmitted
  {
    SystemMessage(r.name, r.phone, r.projectName, r.leadSubmitted, catalog)
  }

  /**
   * The history's shape: one system message, at the head, and every assistant
   * reply right after a user message.
   */
  predicate HistoryShape(h: seq<Message>)
  {
    && (h != [] ==> h[0].SystemMessage?)
    && (forall i :: 0 < i < |h| ==> !h[i].SystemMessage?)
    && (forall i :: 0 < i < |h| && h[i].AssistantMessage? ==> h[i - 1].UserMessage?)
  }

  /**
   * The CRM calls made so far: a success, if any, is the last call, and the
   * flag is set exactly when there was one.
   */
  predicate CrmLogShape(log: seq<CrmCall>, submitted: bool)
  {
    && (forall i :: 0 <= i < |log| && log[i].status == SuccessStatus ==> i == |log| - 1)
    && (submitted <==> log != [] && log[|log| - 1].status == SuccessStatus)
  }

  class LeadAgent {
    var name: string
    var phone: string
    var projectId: string
    var projectName: string
    var leadSubmitted: bool
    var remarks: seq<string>
    var history: seq<Message>
    /** Every call made to the CRM, with the status it reported. */
    ghost var crmLog: seq<CrmCall>

    /** The current `lead_data`. */
    function Snapshot(): LeadRecord
      reads this
    {
      LeadRecord(name, phone, projectId, projectName, leadSubmitted, remarks)
    }

    ghost predicate Valid()
      reads this
    {
      WellFormed(Snapshot()) && HistoryShape(history) && CrmLogShape(crmLog, leadSubmitted)
    }

    constructor ()
      ensures Valid()
      ensures Snapshot() == EmptyLead && history == [] && crmLog == []
    {
      name, phone, projectId, projectName := "", "", "", "";
      leadSubmitted, remarks := false, [];
      history := [];
      crmLog := [];
    }

    /**
     * check_and_submit_lead: when name, phone and project id are set and the
     * lead is not yet submitted, call the CRM (which reports `crmStatus`) and
     * set the flag only on "success". Returns whether this call set the flag.
     */
    method CheckAndSubmitLead(crmStatus: string) returns (submitted: bool)
      requires Valid()
      modifies this
      ensures Valid()
      ensures Snapshot() == Submit(old(Snapshot()), crmStatus)
      ensures crmLog == old(crmLog) + SubmitCalls(old(Snapshot()), crmStatus)
      ensures submitted <==> !old(leadSubmitted) && leadSubmitted
      ensures old(leadSubmitted) ==> crmLog == old(crmLog) && leadSubmitted
      ensures history == old(history)
    {
      if CanSubmit(Snapshot()) {
        var remarksText := RemarksText(remarks);
        crmLog := crmLog + [CrmCall(name, phone, projectId, remarksText, crmStatus)];
        if crmStatus == SuccessStatus {
          leadSubmitted := true;
          submitted := true;
        } else {
          submitted := false;
        }
      } else {
        submitted := false;
      }
    }

    /** The name capture of run_conversation (agent_logic.py:191-197). */
    method CaptureNameFrom(message: string)
      requires Valid()
      modifies this
      ensures Valid()
      ensures Snapshot() == CaptureName(old(Snapshot()), message)
      ensures history == old(history) && crmLog == old(crmLog)
    {
      if name == "" {
        var n := ExtractName(message);
        if n.Some? {
          name := n.value;
          remarks := remarks + ["Name: " + n.value];
        }
      }
    }

    /** The phone capture of run_conversation (agent_logic.py:199-205). */
    method CapturePhoneFrom(message: string)
      requires Valid()
      modifies this
      ensures Valid()
      ensures Snapshot() == CapturePhone(old(Snapshot()), message)
      ensures history == old(history) && crmLog == old(crmLog)
    {
      if phone == "" {
        var p := ExtractPhone(message);
        if p.Some? {
          phone := p.value;
          remarks := remarks + ["Phone: " + p.value];
        }
      }
    }

    /**
     * The project capture of run_conversation, from the user's message
     * (agent_logic.py:207-214) or from the model's reply (agent_logic.py:241-247).
     */
    method CaptureProjectFrom(text: string, catalog: seq<Project>)
      requires Valid()
      modifies this
      ensures Valid()
      ensures Snapshot() == CaptureProject(old(Snapshot()), text, catalog)
      ensures history == old(history) && crmLog == old(crmLog)
    {
      if projectId == "" {
        var project := ExtractProject(text, catalog);
        if project.Some? {
          projectId := project.value.id;
          projectName := project.value.name;
          remarks := remarks + ["Interested in: " + project.value.name];
        }
      }
    }

    /**
     * The captures of run_conversation from the user's message
     * (agent_logic.py:191-214): name, then phone, then project.
     */
    method CaptureFromUser(t: TurnInput)
      requires Valid()
      modifies this
      ensures Valid()
      ensures Snapshot() == AfterUserMessage(old(Snapshot()), t)
      ensures history == old(history) && crmLog == old(crmLog)
    {
      CaptureNameFrom(t.prompt);
      CapturePhoneFrom(t.prompt);
      CaptureProjectFrom(t.prompt, t.catalog);
    }

    /**
     * The history update before the model call (agent_logic.py:225-227): the
     * system message only when the history is empty, then the user message.
     */
    method AddUserTurn(prompt: string, catalog: seq<Project>)
      requires Valid()
      modifies this`history
      ensures Valid()
      ensures history == old(history)
        + (if old(history) == [] then [SystemPrompt(Snapshot(), catalog)] else [])
        + [UserMessage(prompt)]
    {
      if history == [] {
        history := [SystemPrompt(Snapshot(), catalog)];
      }
      history := history + [UserMessage(prompt)];
    }

    /** Stores the assistant reply after the user message that ends the history (agent_logic.py:264). */
    method AddReply(response: Reply)
      requires Valid() && history != [] && history[|history| - 1].UserMessage?
      modifies this`history
      ensures Valid()
      ensures history == old(history) + [AssistantMessage(response)]
    {
      history := history + [AssistantMessage(response)];
    }

    /**
     * The success path of run_conversation after the model replied
     * (agent_logic.py:240-265): project capture from the reply, the CRM
     * submission, the JSON check and the stored reply.
     */
    method HandleReply(t: TurnInput, isValidJson: string -> bool) returns (response: Reply)
      requires Valid() && t.llm.Reply?
      requires history != [] && history[|history| - 1].UserMessage?
      modifies this
      ensures Valid()
      ensures Snapshot() == Submit(CaptureProject(old(Snapshot()), t.llm.text, t.catalog), t.crmStatus)
      ensures crmLog == old(crmLog) + SubmitCalls(CaptureProject(old(Snapshot()), t.llm.text, t.catalog), t.crmStatus)
      ensures history == old(history) + [AssistantMessage(response)]
      ensures response == if isValidJson(t.llm.text) then ModelText(t.llm.text) else TextBlock(InvalidReplyText)
    {
      CaptureProjectFrom(t.llm.text, t.catalog);
      var _ := CheckAndSubmitLead(t.crmStatus);
      response := if isValidJson(t.llm.text) then ModelText(t.llm.text) else TextBlock(InvalidReplyText);
      AddReply(response);
    }

    /**
     * run_conversation: capture name, phone and project from the user's
     * message, add the system message on the first turn and the user message
     * on every turn, then either return the failure payload (the model call
     * threw) or capture a project from the reply, try the CRM submission,
     * replace a reply that fails the JSON check, store it and return it.
     */
    method RunConversation(prompt: string, catalog: seq<Project>, llm: LlmOutcome, crmStatus: string,
                           isValidJson: string -> bool)
      returns (response: Reply)
      requires Valid()
      modifies this
      ensures Valid()
      ensures Snapshot() == Step(old(Snapshot()), TurnInput(prompt, catalog, llm, crmStatus))
      ensures crmLog == old(crmLog) + StepCalls(old(Snapshot()), TurnInput(prompt, catalog, llm, crmStatus))
      ensures history == old(history)
        + (if old(history) == [] then [SystemPrompt(AfterUserMessage(old(Snapshot()), TurnInput(prompt, catalog, llm, crmStatus)), catalog)] else [])
        + [UserMessage(prompt)]
        + (if llm.Reply? then [AssistantMessage(response)] else [])
      ensures llm.CallFailed? ==> response == TextBlock(CallFailedText(llm.error))
      ensures llm.Reply? && isValidJson(llm.text) ==> response == ModelText(llm.text)
      ensures llm.Reply? && !isValidJson(llm.text) ==> response == TextBlock(InvalidReplyText)
    {
      var t := TurnInput(prompt, catalog, llm, crmStatus);
      CaptureFromUser(t);
      AddUserTurn(prompt, catalog);
      ghost var h1 := history;
      ghost var s1 := Snapshot();

      match llm
      case CallFailed(error) =>
        response := TextBlock(CallFailedText(error));
      case Reply(aiReply) =>
        response := HandleReply(t, isValidJson);
        assert s1 == AfterUserMessage(old(Snapshot()), t);
        assert history == h1 + [AssistantMessage(response)];
    }
  }
}
