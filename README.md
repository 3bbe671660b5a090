# Real-estate lead agent: a Dafny model of its lead logic and conversation log

The system is a chat agent that talks to prospective home buyers about
real-estate projects. On every user message it pulls the visitor's name, a
10-digit Indian mobile number and the project they care about out of the
text, and keeps them in a module-level lead record. On every turn where the
language model replied and name, phone and project are all known, it calls
the CRM, until one call reports success. After that it makes no more calls. A
turn whose model call failed makes no CRM call. If no call succeeds, the lead
is never marked as submitted. A separate logger offers an append of one turn
to a JSON log file. It derives per-session summaries and dashboard analytics
from that file.

This project models that core:

- `text.dfy` (module `Text`): the ASCII string operations the extractors use.
  These are `lower`, `title`, whitespace `split`, `' '.join`, substring `in` and the `\D` digit filter.
- `extractors.dfy` (modules `Wrappers`, `Extractors`): the phone, name and
  project extractors of `agent_logic.py`, as pure functions.
- `lead.dfy` (module `Lead`): the lead record as a value and the functions
  that describe one conversation turn. It covers the three captures, the CRM
  submission and the turn as a whole. It also has lemmas over any sequence of
  turns: captured fields are never overwritten, and the CRM reports success at
  most once.
- `agent.dfy` (module `Agent`): class `LeadAgent`, whose fields are the lead
  record and the conversation history. Its methods update these in place as
  `check_and_submit_lead` and `run_conversation` do. Each method is proved
  against the functions of `Lead`. A ghost field records every CRM call.
- `collections.dfy` (module `Collections`): occurrence counts and the
  insertion order of a Python dict's keys.
- `conversation_log.dfy` (module `ConversationLog`): class `LogFile`, whose
  `logs` field is the log file's content. It covers `log_conversation` as an
  append, `get_session_logs`, and `get_all_sessions` as a loop over a dict of
  summaries. The loop is proved equal to a specification function, and lemmas
  about that function follow.
- `analytics.dfy` (module `Analytics`): `get_analytics`. That is the visitor,
  message and lead counts, the project counter, and the stable sort by
  decreasing count cut to five.

Outside inputs are parameters:

- the language model's reply, or the exception it raised (`Lead.LlmOutcome`);
- the project catalogue, already parsed into `Project` values;
- the status string the CRM returns;
- whether a reply parses as JSON (`isValidJson`);
- timestamps, as opaque strings.

Python's `None` and falsy values of the lead record are the empty string.

## Model

| member | source | states |
|---|---|---|
| Text.Lower | agent_logic.py:84 | lower-casing keeps the length and maps each character on its own |
| Text.Title | agent_logic.py:37 | keeps the length (also used at line 42); defined by its body, and characterised by `TitleOfJoin` and `LowerOfTitle` |
| Text.Words | agent_logic.py:30 | every word is non-empty and holds no space; characterised by `WordsOfJoin` |
| Text.Join | agent_logic.py:34 | defined by its body (also used for the remarks at line 129); characterised by `JoinSnoc` and `WordsOfJoin` |
| Text.Contains | agent_logic.py:89 | a needle found is no longer than the text; characterised by `ContainsFindsOccurrence` and `OccurrenceIsContained` |
| Text.DigitsOnly | agent_logic.py:49 | removing non-digits leaves only digits and never lengthens the text |
| Text.DigitsOnlyAppend | agent_logic.py:49 | the digit filter works character by character: the digits of a concatenation are the digits of each part, in order |
| Text.DigitsOnlyOfChar | agent_logic.py:49 | one character is kept exactly when it is a digit |
| Text.DigitsOnlyOfDigits | agent_logic.py:49 | a text of digits is left unchanged by the digit filter |
| Text.WordsOfJoin | agent_logic.py:30-34 | splitting a space-joined list of non-empty, space-free words gives the words back |
| Text.TitleOfJoin | agent_logic.py:37 | title-casing a space-joined list title-cases each word separately |
| Text.LowerOfTitle | agent_logic.py:37 | title-casing changes only letter case: lower-casing the result gives the lower-cased input |
| Text.ContainsFindsOccurrence | agent_logic.py:89 | a substring test that holds has an offset where the needle occurs |
| Text.OccurrenceIsContained | agent_logic.py:89 | an occurrence at any offset makes the substring test hold |
| Extractors.StripPrefixes | agent_logic.py:51-57 | the `91` and `0` strips leave a suffix of the digits: exactly 9 digits after an 11-digit `91…` number, at least 10 for other longer numbers, and untouched at 10 or fewer |
| Extractors.ExtractPhone | agent_logic.py:46-71 | the result is 10 digits and a suffix of the message's digits; there is no result exactly when the message has fewer than 10 digits or is 11 digits starting `91`; exactly 10 digits come back unchanged |
| Extractors.PhonePrefixForms | agent_logic.py:51-62 | a number written bare, with `91`, with `0` or with `910` in front yields that number |
| Extractors.PhoneWithSeparators | agent_logic.py:46-71 | a number written `+91 98765-43210` keeps its twelve digits, and extracts to the bare ten |
| Extractors.ExtractPhoneOfPhone | agent_logic.py:59-62 | a 10-digit number is its own extraction |
| Extractors.ExtractPhoneIdempotent | agent_logic.py:46-71 | extracting from an extracted phone gives it back |
| Extractors.NonStopWords | agent_logic.py:31-34 | the kept words are words of the message and none is a stop word in any letter case; every word of the message that is not a stop word is kept |
| Extractors.NonStopWordsOfOne | agent_logic.py:34 | a single word is kept exactly when it is not a stop word |
| Extractors.NonStopWordsAppend | agent_logic.py:34 | the filter works word by word: the kept words of a concatenation are the kept words of each part, in order |
| Extractors.NameGroup | agent_logic.py:40 | the captured group is a non-empty prefix of the text holding at least the whole first word |
| Extractors.NameGroupMatchesPattern | agent_logic.py:40 | the group is the first word alone exactly when no run of spaces followed by a word character comes after it; otherwise it runs through the spaces and the whole second word; it always stops before a character that is not a word character |
| Extractors.NameFallback | agent_logic.py:39-42 | there is a match exactly when `my name is ` occurs at some offset, ignoring case, followed by a word character; the group is taken at the leftmost such offset |
| Extractors.ExtractName | agent_logic.py:28-44 | an extracted name is never empty |
| Extractors.NameCandidate | agent_logic.py:34 | defined by its body; characterised by `NameCandidateEmpty` and `NameFromWordFilter` |
| Extractors.NameCandidateEmpty | agent_logic.py:34-36 | the candidate is empty exactly when no word of the message survives the stop-word filter |
| Extractors.ShortCandidateUsesFallback | agent_logic.py:36-44 | a candidate of at most one character leaves the name to the `my name is` pattern, title-cased, or no name |
| Extractors.NameFromWordFilter | agent_logic.py:33-37 | when the filtered words are longer than one character, the name is those words title-cased, in order, none of them a stop word, and it equals the candidate up to letter case |
| Extractors.AllStopWordsLeaveNothing | agent_logic.py:31-34 | filtering a list of stop words leaves nothing |
| Extractors.OnlyStopWordsUseFallback | agent_logic.py:36-44 | a message of stop words only gets its name from the `my name is` pattern, or no name without a match |
| Extractors.Mentions | agent_logic.py:88-89 | a mentioned project has a non-empty name no longer than the text; characterised through `ExtractProject` |
| Extractors.ExtractProject | agent_logic.py:82-106 | a project is found exactly when some catalogue entry's non-empty name occurs in the text, ignoring case, and the one found is the first such entry |
| Lead.CaptureName | agent_logic.py:191-197 | a stored name is kept; a name is stored exactly when none was stored and the extractor finds one; it adds the remark `Name: …`; nothing else changes |
| Lead.CapturePhone | agent_logic.py:199-205 | a stored phone is kept; a phone is stored exactly when none was stored and the extractor finds one, and it is 10 digits; it adds the remark `Phone: …`; nothing else changes |
| Lead.CaptureProject | agent_logic.py:207-214 | a stored project id is kept; a project is recorded with one `Interested in: …` remark exactly when no id was stored and the text mentions a catalogue project; otherwise nothing changes |
| Lead.AfterUserMessage | agent_logic.py:191-214 | the three captures from the user's message keep every stored field and the flag, append at most three remarks, and keep the record well formed |
| Lead.CanSubmit | agent_logic.py:120-125 | the CRM guard; on a well-formed record it implies a 10-digit phone |
| Lead.RemarksText | agent_logic.py:129 | the default remark when there are none; otherwise characterised by `RemarksTextGrows` |
| Lead.RemarksTextGrows | agent_logic.py:129 | the joined remarks grow by the pipe separator (space, bar, space) and the new remark; a first remark stands alone |
| Lead.CrmRequest | agent_logic.py:128-149 | the CRM gets the record's own name, phone and project id, all non-empty; it gets the remarks joined by the pipe separator, or the default remark when there are none; the call carries the status the CRM reported |
| Lead.Submit | agent_logic.py:119-162 | the submitted flag is set exactly when it was set already, or all three fields are present and the CRM reports `success`; nothing else changes |
| Lead.SubmitCalls | agent_logic.py:120-149 | the CRM is called at most once, exactly when name, phone and project id are present and no lead was submitted, and the call is the record's `CrmRequest` |
| Lead.Step | agent_logic.py:179-274 | a turn keeps the record well formed: a stored phone is 10 digits, and a submitted lead has a name, a phone and a project id |
| Lead.StepCalls | agent_logic.py:231-274 | one turn makes at most one CRM call |
| Lead.StepKeeps | agent_logic.py:191-250 | a turn keeps every stored field and a set flag, only appends remarks, and appends at most four |
| Lead.StepSetsFlag | agent_logic.py:155-158 | a turn sets the flag exactly when it called the CRM and the CRM answered `success`; after submission it makes no call |
| Lead.RunKeeps | agent_logic.py:179-250 | over any sequence of turns, stored fields and the flag persist and the remarks only grow |
| Lead.NoCallsAfterSubmission | agent_logic.py:120-125 | once a lead is submitted, no later turn calls the CRM |
| Lead.AtMostOneSuccess | agent_logic.py:120-158 | over any sequence of turns the CRM reports success at most once in all, and the flag is set exactly when it was already or such a success happened |
| Agent.SystemPrompt | agent_logic.py:217-226 | the system message carries the record's name, phone, project name and flag and the catalogue; the template text is left out |
| Agent.LeadAgent.constructor | agent_logic.py:14-23 | the agent starts with an empty lead record, an empty history and no CRM calls |
| Agent.LeadAgent.CheckAndSubmitLead | agent_logic.py:108-174 | the new record is `Submit` of the old one and the CRM log grows by `SubmitCalls`; it returns true exactly when this call set the flag |
| Agent.LeadAgent.CaptureNameFrom | agent_logic.py:191-197 | the record becomes `CaptureName` of the old one; history and CRM log are unchanged |
| Agent.LeadAgent.CapturePhoneFrom | agent_logic.py:199-205 | the record becomes `CapturePhone` of the old one; history and CRM log are unchanged |
| Agent.LeadAgent.CaptureProjectFrom | agent_logic.py:207-214 | the record becomes `CaptureProject` of the old one; history and CRM log are unchanged |
| Agent.LeadAgent.CaptureFromUser | agent_logic.py:191-214 | the three captures in order: the record becomes `AfterUserMessage` of the old one |
| Agent.LeadAgent.AddUserTurn | agent_logic.py:225-227 | the system message is added only to an empty history, then the user message |
| Agent.LeadAgent.AddReply | agent_logic.py:264 | the reply is appended to the history as an assistant message |
| Agent.LeadAgent.HandleReply | agent_logic.py:240-265 | the project is captured from the reply, the CRM check runs, and the response is the reply if it parses as JSON and the wrapped error text if not |
| Agent.LeadAgent.RunConversation | agent_logic.py:179-274 | one turn moves the record to `Step` of the old one and logs the `StepCalls` CRM calls; the history gains the system message (first turn only), the user message and, when the model answered, the reply; the response is the reply, the invalid-JSON text, or the error text of a failed call |
| Collections.FirstSeen | conversation_logger.py:62-82 | the dict's keys: distinct, drawn from the values, and covering every value |
| Collections.FirstSeenOrder | conversation_logger.py:62-82 | the keys come in order of their first occurrence |
| Collections.OccurrenceSumIsLength | conversation_logger.py:75 | distinct keys covering every value count the values exactly once in total |
| ConversationLog.StoredLead | conversation_logger.py:44 | a missing lead snapshot is stored as the empty object, a given one as is |
| ConversationLog.SessionLogs | conversation_logger.py:54-57 | every returned entry belongs to the session |
| ConversationLog.SessionLogsCount | conversation_logger.py:54-57 | a session's entries are as many as the log entries with its id |
| ConversationLog.SessionLogsAppend | conversation_logger.py:47-57 | the session view of two concatenated logs is the concatenation of their views |
| ConversationLog.SessionLogsEmpty | conversation_logger.py:54-57 | a session has no entries exactly when no entry carries its id |
| ConversationLog.SessionLogsFirst | conversation_logger.py:64-73 | a session's first entry is the log's earliest entry with its id, at the returned position |
| ConversationLog.SessionLogsLast | conversation_logger.py:75-76 | a session's last entry is the log's latest entry with its id, at the returned position |
| ConversationLog.LastLead | conversation_logger.py:78-80 | a session's lead info is the snapshot of its last entry with a non-empty snapshot, or empty when there is none |
| ConversationLog.Summary | conversation_logger.py:67-80 | a summary carries its session id and a count of at least one; characterised by `SessionSummaryFacts` |
| ConversationLog.Sessions | conversation_logger.py:59-82 | one summary per session id; characterised by `SessionsAreFirstSeen`, `SessionSummaryFacts` and `SessionsCountEveryEntry` |
| ConversationLog.SessionOrder | conversation_logger.py:62-82 | the session ids are distinct and each has entries |
| ConversationLog.SessionsAreFirstSeen | conversation_logger.py:59-82 | there is one summary per session id in the log, with no repeats, in order of each session's first entry |
| ConversationLog.SessionSummaryFacts | conversation_logger.py:64-80 | each summary counts its session's entries (at least one) and holds their first and last timestamps and the last lead snapshot |
| ConversationLog.SessionsCountEveryEntry | conversation_logger.py:71-75 | the summaries' message counts add up to the number of log entries |
| ConversationLog.AppendUpdatesSession | conversation_logger.py:47 | appending a turn adds it to its own session only, and that session's count grows by one with the new last timestamp |
| ConversationLog.LogFile.constructor | conversation_logger.py:9-17 | a missing log file reads as the empty log |
| ConversationLog.LogFile.LogConversation | conversation_logger.py:24-52 | the log grows by exactly the returned entry, which stores `{}` when no lead snapshot is given |
| ConversationLog.LogFile.GetAllSessions | conversation_logger.py:59-82 | the dict-building loop returns exactly `Sessions(logs)` |
| Analytics.CountWith | conversation_logger.py:126-129 | the count of sessions with a truthy key is at most the number of sessions, and zero exactly when no session has it |
| Analytics.ProjectNamesCount | conversation_logger.py:132-136 | a project occurs in the list of named projects once per session naming it |
| Analytics.SessionsNaming | conversation_logger.py:132-136 | the number of sessions naming a project is positive exactly when some session names it |
| Analytics.CounterCounts | conversation_logger.py:132-136 | the counter's keys are exactly the named projects, each counting the sessions that name it |
| Analytics.Tally | conversation_logger.py:132-136 | one item per distinct named project; characterised by `CounterCounts` and `CountProjects` |
| Analytics.CountProjects | conversation_logger.py:132-136 | the counting loop returns the counter's items, in first-mention order, each with the number of sessions naming its project |
| Analytics.InsertByCount | conversation_logger.py:144 | inserting into a list sorted by decreasing count keeps it sorted and adds exactly the new element |
| Analytics.SortByCount | conversation_logger.py:144 | the sort returns a permutation of the items in decreasing order of count |
| Analytics.SortByCountIsStable | conversation_logger.py:144 | items with equal counts keep their order, as Python's stable sort with `reverse=True` does |
| Analytics.TopProjects | conversation_logger.py:144 | at most five items; characterised by `TopProjectsRanking` |
| Analytics.TopProjectsRanking | conversation_logger.py:132-144 | at most five projects, by decreasing count, each with its number of sessions and no project twice; a named project left out means five are listed, each with at least its count |
| Analytics.GetAnalytics | conversation_logger.py:117-144 | messages are the log's length; visitors are the sessions; lead and verified counts are at most the visitors; the ranking is `TopProjects` of the sessions |
| Analytics.VisitorsAndMessages | conversation_logger.py:122-123 | there are never more visitors than messages, and the sessions' message counts add up to the messages |

## Left out

- The language-model call (`client.chat.completions.create`) is not modelled. The model takes its outcome as a parameter.
- The JSON parse of the reply is not modelled. The model takes it as a predicate parameter.
- `get_projects`, `add_lead_to_crm` and the rest of `tools.py` are not part of this model. The catalogue and the CRM's status string are inputs, and a ghost `crmLog` records the requests.
- `safe_parse_projects` (quote replacement and `json.loads` of the catalogue) is left out. The catalogue arrives as parsed `Project` values.
- `SYSTEM_PROMPT.format` is left out. The system message is `SystemPrompt(record, catalog)`, an uninterpreted text.
- The JSON texts of the wrapped error responses are left out. They are the `TextBlock` reply with the same message text.
- File I/O is left out: `load_logs`, `save_logs` and `export_logs_csv`. The log file is the `logs` field of `LogFile`, and a corrupt file is not modelled.
- `datetime.now()` is left out. Timestamps are caller-supplied strings.
- `conversion_rate` in `get_analytics` is left out, because it is floating-point formatting.
- All `print` output, the Streamlit dashboard, `app.py` and `main.py` are left out.
- Text.Lower, Text.Title: only ASCII letters change case. Python's Unicode case mapping is not modelled.
- Text.Words: splits on the space character only. Python's `split()` also splits on tabs and newlines.
- Extractors.NameFallback: `\w` and `\s` are ASCII word characters and the space. Unicode categories are not modelled.
- Text.DigitsOnly: keeps only the ASCII digits 0 to 9. Python 3's `\D` keeps every Unicode decimal digit, so a message in Devanagari digits yields a phone in the source and none here. `Extractors.IsPhoneNumber` and `Lead.WellFormed` say "ten ASCII digits", but the source only guarantees ten Unicode decimal digits.
- Concurrency is not modelled. Turns run one at a time over the single module-level lead record. `app.py` serves `run_conversation` from a web server. Two overlapping turns there could both pass the check of agent_logic.py:120-125 and both call the CRM. `Lead.AtMostOneSuccess` and `Lead.NoCallsAfterSubmission` hold only when turns do not overlap.
- Lead values that are `None` or otherwise falsy in Python are the empty string, and a lead snapshot's values are strings. The boolean `phone_verified` is truthy when non-empty.
- Extractors.ExtractName: its own ensures only says the name is non-empty. What the name is, is stated by `NameFromWordFilter` for a candidate longer than one character, and by `ShortCandidateUsesFallback` (with `OnlyStopWordsUseFallback` for messages of stop words only) for every other message.
- Analytics.TopProjectsRanking: does not say which project is kept when several tie at the fifth place. That order follows from `SortByCountIsStable` together with `Collections.FirstSeenOrder`, but no lemma combines them.

Behaviour of the code that may be unexpected, and that the model keeps:

- When the model call throws, the user message stays in the history. On the first turn, so does the system message.
- The reply check is `json.loads` only. A reply that is valid JSON but not a `blocks` object is returned as it is.
- Numbers with more than 10 digits keep the last ten after the `91` and `0` strips. An 11-digit number starting `91` is left with nine digits and rejected.
