/**
 * The conversation log of conversation_logger.py: an append-only list of
 * turns, the per-session view of it and the per-session summaries. The JSON
 * file the source loads and saves on every call is the `logs` field of a
 * `LogFile` object; timestamps are opaque strings supplied by the caller.
 */
module ConversationLog {
  import opened Wrappers
  import opened Collections

  /**
   * The lead snapshot stored with a turn (a JSON object). Values are kept as
   * strings; a falsy JSON value (null, false, "", 0, an empty list) is "".
   */
  type LeadInfo = map<string, string>

  /** `info.get(key)` is truthy. */
  predicate Truthy(info: LeadInfo, key: string)
  {
    key in info && info[key] != ""
  }

  /** One element of the log file. */
  datatype LogEntry = LogEntry(
    sessionId: string,
    timestamp: string,
    formattedTime: string,
    userMessage: string,
    aiResponse: string,
    leadData: LeadInfo)

  /** `lead_data or {}`: a missing snapshot is stored as the empty object. */
  function StoredLead(leadData: Option<LeadInfo>): (info: LeadInfo)
    ensures leadData.None? ==> info == map[]
    ensures leadData.Some? ==> info == leadData.value
  {
    match leadData
    case None => map[]
    case Some(d) => d
  }

  /** The session id of every entry, in log order. */
  function SessionIdsOf(logs: seq<LogEntry>): (ids: seq<string>)
    ensures |ids| == |logs|
    ensures forall i :: 0 <= i < |logs| ==> ids[i] == logs[i].sessionId
  {
    seq(|logs|, i requires 0 <= i < |logs| => logs[i].sessionId)
  }

  lemma SessionIdsOfPrefix(logs: seq<LogEntry>, n: nat)
    requires n <= |logs|
    ensures SessionIdsOf(logs[..n]) == SessionIdsOf(logs)[..n]
  {
  }

  /* ---------------- get_session_logs ---------------- */

  /** get_session_logs: the entries of one session, in log order (conversation_logger.py:54-57). */
  function SessionLogs(logs: seq<LogEntry>, sid: string): (es: seq<LogEntry>)
    ensures forall i :: 0 <= i < |es| ==> es[i].sessionId == sid
  {
    if logs == [] then []
    else
      var n := |logs| - 1;
      SessionLogs(logs[..n], sid) + (if logs[n].sessionId == sid then [logs[n]] else [])
  }

  /** A session has as many entries as the log has entries with its id. */
  lemma {:induction false} SessionLogsCount(logs: seq<LogEntry>, sid: string)
    ensures |SessionLogs(logs, sid)| == Occurrences(SessionIdsOf(logs), sid)
  {
    if logs != [] {
      var n := |logs| - 1;
      SessionIdsOfPrefix(logs, n);
      SessionLogsCount(logs[..n], sid);
    }
  }

  /**
   * The filter distributes over concatenation: the entries of a session in a
   * log made of two parts are those of the first part followed by those of
   * the second; with SessionLogsOfOne this fixes the result entirely.
   */
  lemma {:induction false} SessionLogsAppend(a: seq<LogEntry>, b: seq<LogEntry>, sid: string)
    ensures SessionLogs(a + b, sid) == SessionLogs(a, sid) + SessionLogs(b, sid)
    decreases |b|
  {
    if b == [] {
      assert a + b == a;
    } else {
      var n := |b| - 1;
      assert (a + b)[..|a + b| - 1] == a + b[..n];
      SessionLogsAppend(a, b[..n], sid);
    }
  }

  /** A one-entry log belongs to a session exactly when its entry does. */
  lemma SessionLogsOfOne(e: LogEntry, sid: string)
    ensures SessionLogs([e], sid) == if e.sessionId == sid then [e] else []
  {
    assert [e][..0] == [];
  }

  /** A session has no entries exactly when no entry carries its id. */
  lemma {:induction false} SessionLogsEmpty(logs: seq<LogEntry>, sid: string)
    ensures SessionLogs(logs, sid) == [] <==> forall m :: 0 <= m < |logs| ==> logs[m].sessionId != sid
  {
    if logs != [] {
      var n := |logs| - 1;
      SessionLogsEmpty(logs[..n], sid);
      assert forall m :: 0 <= m < n ==> logs[..n][m] == logs[m];
    }
  }

  /** A session has entries exactly when some entry carries its id. */
  lemma SessionLogsNonEmpty(logs: seq<LogEntry>, sid: string)
    ensures SessionLogs(logs, sid) != [] <==> sid in SessionIdsOf(logs)
  {
    SessionLogsEmpty(logs, sid);
  }

  /** The session's first entry is the earliest entry of the log with its id. */
  lemma {:induction false} SessionLogsFirst(logs: seq<LogEntry>, sid: string) returns (k: nat)
    requires SessionLogs(logs, sid) != []
    ensures k < |logs| && logs[k] == SessionLogs(logs, sid)[0] && logs[k].sessionId == sid
    ensures forall m :: 0 <= m < k ==> logs[m].sessionId != sid
  {
    var n := |logs| - 1;
    var init, es := logs[..n], SessionLogs(logs[..n], sid);
    assert SessionLogs(logs, sid) == es + (if logs[n].sessionId == sid then [logs[n]] else []);
    if es != [] {
      k := SessionLogsFirst(init, sid);
      assert logs[k] == init[k];
      assert forall m :: 0 <= m < k ==> logs[m] == init[m];
    } else {
      SessionLogsEmpty(init, sid);
      k := n;
      assert forall m :: 0 <= m < n ==> logs[m] == init[m];
      assert logs[n] == SessionLogs(logs, sid)[0];
    }
  }

  /** The session's last entry is the latest entry of the log with its id. */
  lemma {:induction false} SessionLogsLast(logs: seq<LogEntry>, sid: string) returns (k: nat)
    requires SessionLogs(logs, sid) != []
    ensures k < |logs| && logs[k] == SessionLogs(logs, sid)[|SessionLogs(logs, sid)| - 1] && logs[k].sessionId == sid
    ensures forall m :: k < m < |logs| ==> logs[m].sessionId != sid
  {
    var n := |logs| - 1;
    var init, es := logs[..n], SessionLogs(logs[..n], sid);
    var all := SessionLogs(logs, sid);
    if logs[n].sessionId != sid {
      assert es + [] == es;
      assert all == es;
      k := SessionLogsLast(init, sid);
      assert logs[k] == init[k];
      assert forall m :: k < m < n ==> logs[m] == init[m];
    } else {
      assert all == es + [logs[n]];
      k := n;
    }
  }

  /* ---------------- get_all_sessions ---------------- */

  /** One element of get_all_sessions' result. */
  datatype SessionSummary = SessionSummary(
    sessionId: string,
    firstMessage: string,
    lastMessage: string,
    messageCount: nat,
    leadInfo: LeadInfo)

  /**
   * The lead snapshot a session ends with: that of its last entry whose
   * snapshot is a non-empty object, or the empty object if there is none.
   */
  function LastLead(es: seq<LogEntry>): (info: LeadInfo)
    ensures info == map[] ==> forall i :: 0 <= i < |es| ==> es[i].leadData == map[]
    ensures info != map[] ==> exists i :: (0 <= i < |es| && es[i].leadData == info
      && forall j :: i < j < |es| ==> es[j].leadData == map[])
  {
    if es == [] then map[]
    else
      var n := |es| - 1;
      if es[n].leadData != map[] then es[n].leadData
      else
        var info := LastLead(es[..n]);
        assert es == es[..n] + [es[n]];
        LastLeadStep(es[..n], es[n], info);
        info
  }

  /** An entry with an empty snapshot at the end leaves the session's lead snapshot as it was. */
  lemma LastLeadStep(init: seq<LogEntry>, e: LogEntry, info: LeadInfo)
    requires e.leadData == map[]
    requires info == map[] ==> forall i :: 0 <= i < |init| ==> init[i].leadData == map[]
    requires info != map[] ==> exists i :: (0 <= i < |init| && init[i].leadData == info
      && forall j :: i < j < |init| ==> init[j].leadData == map[])
    ensures var es := init + [e];
      && (info == map[] ==> forall i :: 0 <= i < |es| ==> es[i].leadData == map[])
      && (info != map[] ==> exists i :: (0 <= i < |es| && es[i].leadData == info
            && forall j :: i < j < |es| ==> es[j].leadData == map[]))
  {
    var es := init + [e];
    assert forall i :: 0 <= i < |init| ==> es[i] == init[i];
    if info != map[] {
      var i :| 0 <= i < |init| && init[i].leadData == info
        && forall j :: i < j < |init| ==> init[j].leadData == map[];
      assert es[i].leadData == info;
    }
  }

  /** The summary of a session whose entries, in order, are `es`. */
  function Summary(sid: string, es: seq<LogEntry>): (s: SessionSummary)
    requires es != []
    ensures s.sessionId == sid && s.messageCount >= 1
  {
    SessionSummary(sid, es[0].timestamp, es[|es| - 1].timestamp, |es|, LastLead(es))
  }

  /** The distinct session ids of the log, in order of first appearance. */
  function SessionOrder(logs: seq<LogEntry>): (ids: seq<string>)
    ensures Distinct(ids)
    ensures forall i :: 0 <= i < |ids| ==> SessionLogs(logs, ids[i]) != []
  {
    var ids := FirstSeen(SessionIdsOf(logs));
    assert forall i :: 0 <= i < |ids| ==> SessionLogs(logs, ids[i]) != [] by {
      forall i | 0 <= i < |ids|
        ensures SessionLogs(logs, ids[i]) != []
      {
        SessionLogsNonEmpty(logs, ids[i]);
      }
    }
    ids
  }

  /** What get_all_sessions returns for the log `logs`. */
  function Sessions(logs: seq<LogEntry>): (ss: seq<SessionSummary>)
    ensures |ss| == |SessionOrder(logs)|
  {
    var ids := SessionOrder(logs);
    seq(|ids|, i requires 0 <= i < |ids| => Summary(ids[i], SessionLogs(logs, ids[i])))
  }

  /**
   * The summaries describe each session of the log exactly once, in order of
   * first appearance: a summary exists for an id exactly when some entry has
   * it, the ids are distinct, and an earlier summary's session starts earlier.
   */
  lemma SessionsAreFirstSeen(logs: seq<LogEntry>)
    ensures forall i, j :: 0 <= i < j < |Sessions(logs)| ==> Sessions(logs)[i].sessionId != Sessions(logs)[j].sessionId
    ensures forall k :: 0 <= k < |logs| ==>
      exists i :: 0 <= i < |Sessions(logs)| && Sessions(logs)[i].sessionId == logs[k].sessionId
    ensures forall i, j :: 0 <= i < j < |Sessions(logs)| ==>
      FirstIndex(SessionIdsOf(logs), Sessions(logs)[i].sessionId) < FirstIndex(SessionIdsOf(logs), Sessions(logs)[j].sessionId)
  {
    var ss, ids := Sessions(logs), SessionOrder(logs);
    SessionIdsAreOrder(logs);
    assert ids == FirstSeen(SessionIdsOf(logs));
    FirstSeenOrder(SessionIdsOf(logs));
    forall i, j | 0 <= i < j < |ss|
      ensures FirstIndex(SessionIdsOf(logs), ss[i].sessionId) < FirstIndex(SessionIdsOf(logs), ss[j].sessionId)
    {
      assert ss[i].sessionId == ids[i] && ss[j].sessionId == ids[j];
    }
    forall k | 0 <= k < |logs|
      ensures exists i :: 0 <= i < |Sessions(logs)| && Sessions(logs)[i].sessionId == logs[k].sessionId
    {
      EntryHasSession(logs, k);
    }
  }

  /** The summaries' ids are the session order. */
  lemma SessionIdsAreOrder(logs: seq<LogEntry>)
    ensures forall i :: 0 <= i < |Sessions(logs)| ==> Sessions(logs)[i].sessionId == SessionOrder(logs)[i]
  {
  }

  /** The session of any entry has a summary. */
  lemma EntryHasSession(logs: seq<LogEntry>, k: nat)
    requires k < |logs|
    ensures exists i :: 0 <= i < |Sessions(logs)| && Sessions(logs)[i].sessionId == logs[k].sessionId
  {
    var ss, ids := Sessions(logs), SessionOrder(logs);
    assert SessionIdsOf(logs)[k] in ids;
    var i :| 0 <= i < |ids| && ids[i] == logs[k].sessionId;
    assert ss[i].sessionId == ids[i];
  }

  /**
   * Each summary: a message count of at least one equal to the number of
   * the session's entries, the timestamps of its first and last entries, and
   * the lead snapshot it ended with.
   */
  lemma SessionSummaryFacts(logs: seq<LogEntry>, i: nat)
    requires i < |Sessions(logs)|
    ensures var s, es := Sessions(logs)[i], SessionLogs(logs, Sessions(logs)[i].sessionId);
      && es != []
      && s.messageCount == |es| >= 1
      && s.messageCount == Occurrences(SessionIdsOf(logs), s.sessionId)
      && s.firstMessage == es[0].timestamp
      && s.lastMessage == es[|es| - 1].timestamp
      && s.leadInfo == LastLead(es)
  {
    SessionLogsCount(logs, Sessions(logs)[i].sessionId);
  }

  /** Sum of the message counts of a list of summaries. */
  function MessageTotal(ss: seq<SessionSummary>): nat
  {
    if ss == [] then 0 else ss[0].messageCount + MessageTotal(ss[1..])
  }

  lemma {:induction false} MessageTotalOfIds(logs: seq<LogEntry>, ids: seq<string>, ss: seq<SessionSummary>)
    requires |ss| == |ids|
    requires forall i :: 0 <= i < |ids| ==> ss[i].messageCount == |SessionLogs(logs, ids[i])|
    ensures MessageTotal(ss) == OccurrenceSum(SessionIdsOf(logs), ids)
  {
    if ids != [] {
      SessionLogsCount(logs, ids[0]);
      MessageTotalOfIds(logs, ids[1..], ss[1..]);
    }
  }

  /** Every entry is counted in exactly one summary: the counts add up to the log's length. */
  lemma SessionsCountEveryEntry(logs: seq<LogEntry>)
    ensures MessageTotal(Sessions(logs)) == |logs|
  {
    var ids := SessionOrder(logs);
    MessageTotalOfIds(logs, ids, Sessions(logs));
    OccurrenceSumIsLength(SessionIdsOf(logs), ids);
  }

  /* ---------------- the log file ---------------- */

  /** The log file's contents. */
  class LogFile {
    var logs: seq<LogEntry>

    /** A missing log file reads as the empty list (conversation_logger.py:9-17). */
    constructor ()
      ensures logs == []
    {
      logs := [];
    }

    /**
     * log_conversation: append one entry for the turn, storing `{}` when no
     * lead snapshot is given, and return it (conversation_logger.py:24-52).
     */
    method LogConversation(sessionId: string, userMessage: string, aiResponse: string,
                           leadData: Option<LeadInfo>, timestamp: string, formattedTime: string)
      returns (entry: LogEntry)
      modifies this
      ensures logs == old(logs) + [entry]
      ensures entry == LogEntry(sessionId, timestamp, formattedTime, userMessage, aiResponse, StoredLead(leadData))
    {
      entry := LogEntry(sessionId, timestamp, formattedTime, userMessage, aiResponse, StoredLead(leadData));
      logs := logs + [entry];
    }

    /**
     * get_all_sessions: one pass over the log, creating a session's summary
     * at its first entry and then counting the entry, moving its last
     * timestamp and taking a non-empty lead snapshot (conversation_logger.py:59-82).
     */
    method GetAllSessions() returns (summaries: seq<SessionSummary>)
      ensures summaries == Sessions(logs)
    {
      var entries := logs;
      var sessions: map<string, SessionSummary> := map[];
      var order: seq<string> := [];
      var i := 0;
      while i < |entries|
        invariant 0 <= i <= |entries|
        invariant order == FirstSeen(SessionIdsOf(entries[..i]))
        invariant sessions == Table(entries[..i])
      {
        var log := entries[i];
        var sid := log.sessionId;
        TableStep(entries, i, order, sessions);
        ghost var sessions0 := sessions;
        var s: SessionSummary;
        if sid !in sessions {
          s := SessionSummary(sid, log.timestamp, log.timestamp, 0, map[]);
          order := order + [sid];
        } else {
          s := sessions[sid];
        }
        s := s.(messageCount := s.messageCount + 1, lastMessage := log.timestamp);
        if log.leadData != map[] {
          s := s.(leadInfo := log.leadData);
        }
        assert s == NextSummary(sessions0, log);
        sessions := sessions[sid := s];
        i := i + 1;
      }
      assert entries[..i] == entries;
      TableIsSessions(entries, order);
      summaries := seq(|order|, k requires 0 <= k < |order| => sessions[order[k]]);
    }
  }

  /**
   * The dict get_all_sessions has built after the entries `prefix`: each
   * entry creates its session's summary if needed, counts itself, moves the
   * last timestamp and takes a non-empty lead snapshot.
   */
  ghost function Table(prefix: seq<LogEntry>): map<string, SessionSummary>
  {
    if prefix == [] then map[]
    else
      var t := Table(prefix[..|prefix| - 1]);
      t[prefix[|prefix| - 1].sessionId := NextSummary(t, prefix[|prefix| - 1])]
  }

  /** One iteration of get_all_sessions' loop, on the dict and on its key order. */
  lemma TableStep(entries: seq<LogEntry>, i: nat, order: seq<string>, sessions: map<string, SessionSummary>)
    requires i < |entries|
    requires order == FirstSeen(SessionIdsOf(entries[..i])) && sessions == Table(entries[..i])
    ensures Table(entries[..i + 1]) == sessions[entries[i].sessionId := NextSummary(sessions, entries[i])]
    ensures FirstSeen(SessionIdsOf(entries[..i + 1]))
      == if entries[i].sessionId in sessions then order else order + [entries[i].sessionId]
  {
    var next := entries[..i + 1];
    assert next[..i] == entries[..i] && next[i] == entries[i];
    TableKeys(entries[..i]);
    OrderStep(next);
  }

  /** The key order after one more entry. */
  lemma OrderStep(logs: seq<LogEntry>)
    requires logs != []
    ensures var n := |logs| - 1;
      FirstSeen(SessionIdsOf(logs)) == var ks := FirstSeen(SessionIdsOf(logs[..n]));
        if logs[n].sessionId in ks then ks else ks + [logs[n].sessionId]
  {
    var n := |logs| - 1;
    assert SessionIdsOf(logs)[..n] == SessionIdsOf(logs[..n]);
  }

  /** The dict's keys are the session ids seen so far. */
  lemma {:induction false} TableKeys(prefix: seq<LogEntry>)
    ensures forall sid :: sid in Table(prefix) <==> sid in FirstSeen(SessionIdsOf(prefix))
  {
    if prefix != [] {
      var n := |prefix| - 1;
      TableKeys(prefix[..n]);
      assert SessionIdsOf(prefix)[..n] == SessionIdsOf(prefix[..n]);
    }
  }

  /** The dict holds, for each session seen so far, that session's summary. */
  lemma {:induction false} TableIsSummaries(logs: seq<LogEntry>)
    ensures forall sid :: sid in Table(logs) ==>
      SessionLogs(logs, sid) != [] && Table(logs)[sid] == Summary(sid, SessionLogs(logs, sid))
  {
    if logs != [] {
      var n := |logs| - 1;
      var init := logs[..n];
      TableIsSummaries(init);
      TableKeys(init);
      forall x | x in Table(logs)
        ensures SessionLogs(logs, x) != [] && Table(logs)[x] == Summary(x, SessionLogs(logs, x))
      {
        if x !in Table(init) {
          SessionLogsNonEmpty(init, x);
        }
        SummaryStep(logs, Table(init), x);
      }
    }
  }

  /** After the whole log, the dict's values in key order are get_all_sessions' result. */
  lemma TableIsSessions(logs: seq<LogEntry>, order: seq<string>)
    requires order == FirstSeen(SessionIdsOf(logs))
    ensures forall k :: 0 <= k < |order| ==> order[k] in Table(logs)
    ensures seq(|order|, k requires 0 <= k < |order| => Table(logs)[order[k]]) == Sessions(logs)
  {
    TableKeys(logs);
    TableIsSummaries(logs);
  }

  /** The summary get_all_sessions' loop body stores for the entry `log`. */
  function NextSummary(sessions: map<string, SessionSummary>, log: LogEntry): SessionSummary
  {
    var sid := log.sessionId;
    var s := if sid in sessions then sessions[sid] else SessionSummary(sid, log.timestamp, log.timestamp, 0, map[]);
    var s' := s.(messageCount := s.messageCount + 1, lastMessage := log.timestamp);
    if log.leadData != map[] then s'.(leadInfo := log.leadData) else s'
  }

  /**
   * The last entry of `logs` updates its own session's summary as the loop
   * body does, and leaves every other session's summary as it was.
   */
  lemma SummaryStep(logs: seq<LogEntry>, t: map<string, SessionSummary>, x: string)
    requires logs != []
    requires x in t ==> SessionLogs(logs[..|logs| - 1], x) != [] && t[x] == Summary(x, SessionLogs(logs[..|logs| - 1], x))
    requires x !in t ==> SessionLogs(logs[..|logs| - 1], x) == []
    requires x in t || x == logs[|logs| - 1].sessionId
    ensures SessionLogs(logs, x) != []
    ensures t[logs[|logs| - 1].sessionId := NextSummary(t, logs[|logs| - 1])][x] == Summary(x, SessionLogs(logs, x))
  {
    var n := |logs| - 1;
    var log, es := logs[n], SessionLogs(logs[..n], x);
    assert SessionLogs(logs, x) == es + (if x == log.sessionId then [log] else []);
    if x == log.sessionId {
      SummarySnoc(x, es, log);
      var next := NextSummary(t, log);
      if x in t {
        assert next.messageCount == |es| + 1;
        assert next == Summary(x, es + [log]);
      } else {
        assert next == Summary(x, es + [log]);
      }
    } else {
      assert es + [] == es;
      assert t[log.sessionId := NextSummary(t, log)][x] == t[x];
    }
  }

  /** A session's summary after one more entry of it. */
  lemma SummarySnoc(sid: string, es: seq<LogEntry>, log: LogEntry)
    ensures es == [] ==>
      Summary(sid, es + [log])
        == SessionSummary(sid, log.timestamp, log.timestamp, 1, if log.leadData != map[] then log.leadData else map[])
    ensures es != [] ==>
      Summary(sid, es + [log])
        == Summary(sid, es).(messageCount := |es| + 1, lastMessage := log.timestamp,
                             leadInfo := if log.leadData != map[] then log.leadData else LastLead(es))
  {
    assert (es + [log])[..|es|] == es;
    if es == [] {
      assert es + [log] == [log];
    }
  }

  /**
   * Logging a turn leaves the log before it unchanged, adds it to its
   * session's entries and no other session's, and updates that session's
   * summary: one more message, the new timestamp as the last one.
   */
  lemma AppendUpdatesSession(logs: seq<LogEntry>, e: LogEntry, sid: string)
    ensures (logs + [e])[..|logs|] == logs
    ensures SessionLogs(logs + [e], sid) == SessionLogs(logs, sid) + (if e.sessionId == sid then [e] else [])
    ensures e.sessionId == sid ==>
      var es := SessionLogs(logs + [e], sid);
      Summary(sid, es).messageCount == |SessionLogs(logs, sid)| + 1 && Summary(sid, es).lastMessage == e.timestamp
  {
    assert (logs + [e])[..|logs|] == logs;
  }
}
