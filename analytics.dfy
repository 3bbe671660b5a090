/**
 * get_analytics of conversation_logger.py: visitor and message counts, the
 * number of sessions that left a phone number or a verified phone, and the
 * five projects most sessions were interested in.
 */
module Analytics {
  import opened Collections
  import opened ConversationLog

  const PhoneKey: string := "phone"
  const VerifiedKey: string := "phone_verified"
  const ProjectKey: string := "interested_project_name"

  /** Length of the `top_projects` list. */
  const TopLimit: nat := 5

  /* ---------------- counts ---------------- */

  /** `sum(1 for s in sessions if s.get('lead_info', {}).get(key))`. */
  function CountWith(ss: seq<SessionSummary>, key: string): (n: nat)
    ensures n <= |ss|
    ensures n == 0 <==> forall i :: 0 <= i < |ss| ==> !Truthy(ss[i].leadInfo, key)
  {
    if ss == [] then 0
    else
      var rest := CountWith(ss[1..], key);
      assert forall i :: 0 < i < |ss| ==> ss[i] == ss[1..][i - 1];
      (if Truthy(ss[0].leadInfo, key) then 1 else 0) + rest
  }

  /* ---------------- project interest ---------------- */

  /** Whether a session's lead snapshot names project `p`. */
  predicate Names(s: SessionSummary, p: string)
  {
    Truthy(s.leadInfo, ProjectKey) && s.leadInfo[ProjectKey] == p
  }

  /** The project each session is interested in, for the sessions that name one, in order. */
  function ProjectNames(ss: seq<SessionSummary>): (ps: seq<string>)
    ensures |ps| <= |ss|
  {
    if ss == [] then []
    else
      var s := ss[|ss| - 1];
      ProjectNames(ss[..|ss| - 1]) + (if Truthy(s.leadInfo, ProjectKey) then [s.leadInfo[ProjectKey]] else [])
  }

  /** Number of sessions whose lead snapshot names project `p`. */
  function SessionsNaming(ss: seq<SessionSummary>, p: string): (n: nat)
    ensures n <= |ss|
    ensures n > 0 <==> exists i :: 0 <= i < |ss| && Names(ss[i], p)
  {
    if ss == [] then 0
    else
      var n := |ss| - 1;
      assert forall i :: 0 <= i < n ==> ss[..n][i] == ss[i];
      SessionsNaming(ss[..n], p) + (if Names(ss[n], p) then 1 else 0)
  }

  /** A project occurs in ProjectNames once per session that names it. */
  lemma {:induction false} ProjectNamesCount(ss: seq<SessionSummary>, p: string)
    ensures Occurrences(ProjectNames(ss), p) == SessionsNaming(ss, p)
  {
    if ss != [] {
      var n := |ss| - 1;
      var ps, ps0 := ProjectNames(ss), ProjectNames(ss[..n]);
      ProjectNamesCount(ss[..n], p);
      if Truthy(ss[n].leadInfo, ProjectKey) {
        assert ps == ps0 + [ss[n].leadInfo[ProjectKey]];
        assert ps[..|ps| - 1] == ps0;
      } else {
        assert ps == ps0 + [] == ps0;
      }
    }
  }

  /** One element of `top_projects`: a project name and its number of sessions. */
  datatype ProjectInterest = ProjectInterest(project: string, count: nat)

  /**
   * The `project_interests` counter built by get_analytics' loop: each
   * session naming a project adds one to that project's count.
   */
  ghost function Counter(ss: seq<SessionSummary>): map<string, nat>
  {
    if ss == [] then map[] else Bump(Counter(ss[..|ss| - 1]), ss[|ss| - 1])
  }

  /** The counter after session `s`: one more for the project it names, if any. */
  function Bump(counter: map<string, nat>, s: SessionSummary): (next: map<string, nat>)
    ensures Truthy(s.leadInfo, ProjectKey) ==> var p := s.leadInfo[ProjectKey];
      && p in next && next[p] == (if p in counter then counter[p] else 0) + 1
      && forall q :: q != p ==> (q in next <==> q in counter) && (q in counter ==> next[q] == counter[q])
    ensures !Truthy(s.leadInfo, ProjectKey) ==> next == counter
  {
    if Truthy(s.leadInfo, ProjectKey) then
      var p := s.leadInfo[ProjectKey];
      counter[p := (if p in counter then counter[p] else 0) + 1]
    else counter
  }

  /** The counter's key order after session `s`: a project it names for the first time goes last. */
  function NextKeys(keys: seq<string>, counter: map<string, nat>, s: SessionSummary): (next: seq<string>)
    ensures keys <= next && |next| <= |keys| + 1
  {
    if Truthy(s.leadInfo, ProjectKey) && s.leadInfo[ProjectKey] !in counter then keys + [s.leadInfo[ProjectKey]]
    else keys
  }

  /** The counter holds exactly the named projects, each with its number of sessions. */
  lemma {:induction false} CounterCounts(ss: seq<SessionSummary>)
    ensures forall p :: p in Counter(ss) <==> p in ProjectNames(ss)
    ensures forall p :: p in Counter(ss) ==> Counter(ss)[p] == SessionsNaming(ss, p)
  {
    if ss != [] {
      var n := |ss| - 1;
      CounterCounts(ss[..n]);
      forall p
        ensures p in Counter(ss) <==> p in ProjectNames(ss)
        ensures p in Counter(ss) ==> Counter(ss)[p] == SessionsNaming(ss, p)
      {
        ProjectNamesCount(ss[..n], p);
      }
    }
  }

  /** `project_interests.items()`: each project in order of first mention, with its count. */
  function Tally(ss: seq<SessionSummary>): (items: seq<ProjectInterest>)
    ensures |items| == |FirstSeen(ProjectNames(ss))|
  {
    var ps := FirstSeen(ProjectNames(ss));
    seq(|ps|, k requires 0 <= k < |ps| => ProjectInterest(ps[k], SessionsNaming(ss, ps[k])))
  }

  /* ---------------- sorted(..., key=count, reverse=True) ---------------- */

  predicate SortedByCount(xs: seq<ProjectInterest>)
  {
    forall i, j :: 0 <= i < j < |xs| ==> xs[i].count >= xs[j].count
  }

  /** The elements of `xs` with count `c`, in order. */
  function WithCount(xs: seq<ProjectInterest>, c: nat): seq<ProjectInterest>
  {
    if xs == [] then []
    else WithCount(xs[..|xs| - 1], c) + (if xs[|xs| - 1].count == c then [xs[|xs| - 1]] else [])
  }

  /** Number of leading elements of `sorted` whose count is at least that of `x`. */
  function InsertPos(x: ProjectInterest, sorted: seq<ProjectInterest>): (p: nat)
    ensures p <= |sorted|
    ensures forall k :: 0 <= k < p ==> sorted[k].count >= x.count
    ensures p < |sorted| ==> sorted[p].count < x.count
  {
    if sorted == [] || sorted[0].count < x.count then 0
    else 1 + InsertPos(x, sorted[1..])
  }

  /** Puts `x` after every element of `sorted` whose count is at least its own. */
  function InsertByCount(x: ProjectInterest, sorted: seq<ProjectInterest>): (r: seq<ProjectInterest>)
    requires SortedByCount(sorted)
    ensures SortedByCount(r)
    ensures multiset(r) == multiset(sorted) + multiset{x}
  {
    var p := InsertPos(x, sorted);
    InsertSorted(x, sorted, p);
    assert sorted == sorted[..p] + sorted[p..];
    sorted[..p] + [x] + sorted[p..]
  }

  /** The elements after the insertion point all count less than `x`. */
  lemma AfterInsertPos(x: ProjectInterest, sorted: seq<ProjectInterest>, p: nat)
    requires SortedByCount(sorted) && p == InsertPos(x, sorted)
    ensures forall k :: 0 <= k < |sorted[p..]| ==> sorted[p..][k].count < x.count
  {
    forall k | 0 <= k < |sorted[p..]|
      ensures sorted[p..][k].count < x.count
    {
      assert sorted[p..][k] == sorted[p + k];
    }
  }

  lemma InsertSorted(x: ProjectInterest, sorted: seq<ProjectInterest>, p: nat)
    requires SortedByCount(sorted) && p == InsertPos(x, sorted)
    ensures SortedByCount(sorted[..p] + [x] + sorted[p..])
  {
    var front, back := sorted[..p], sorted[p..];
    AfterInsertPos(x, sorted, p);
    assert SortedByCount(front) && forall k :: 0 <= k < |front| ==> front[k].count >= x.count by {
      assert forall k :: 0 <= k < |front| ==> front[k] == sorted[k];
    }
    assert SortedByCount(back) by {
      assert forall k :: 0 <= k < |back| ==> back[k] == sorted[p + k];
    }
    SortedAround(front, x, back);
  }

  /** An element between a list that counts at least as much and one that counts less keeps the order. */
  lemma SortedAround(front: seq<ProjectInterest>, x: ProjectInterest, back: seq<ProjectInterest>)
    requires SortedByCount(front) && SortedByCount(back)
    requires forall k :: 0 <= k < |front| ==> front[k].count >= x.count
    requires forall k :: 0 <= k < |back| ==> back[k].count < x.count
    ensures SortedByCount(front + [x] + back)
  {
    SortedConcat([x], back);
    var tail := [x] + back;
    forall j | 0 <= j < |tail|
      ensures tail[j].count <= x.count
    {
      if j > 0 {
        assert tail[j] == back[j - 1];
      }
    }
    SortedConcat(front, tail);
    assert front + [x] + back == front + tail;
  }

  /** Two lists sorted by count, the first counting at least as much as the second throughout, concatenate to a sorted list. */
  lemma SortedConcat(a: seq<ProjectInterest>, b: seq<ProjectInterest>)
    requires SortedByCount(a) && SortedByCount(b)
    requires forall i, j :: 0 <= i < |a| && 0 <= j < |b| ==> a[i].count >= b[j].count
    ensures SortedByCount(a + b)
  {
    var r := a + b;
    forall i, j | 0 <= i < j < |r|
      ensures r[i].count >= r[j].count
    {
      if j < |a| {
        assert r[i] == a[i] && r[j] == a[j];
      } else if i < |a| {
        assert r[i] == a[i] && r[j] == b[j - |a|];
      } else {
        assert r[i] == b[i - |a|] && r[j] == b[j - |a|];
      }
    }
  }

  /**
   * Python's `sorted(items, key=lambda x: x[1], reverse=True)`: a stable sort
   * by decreasing count, as an insertion sort taking the items in order.
   */
  function SortByCount(items: seq<ProjectInterest>): (r: seq<ProjectInterest>)
    ensures SortedByCount(r)
    ensures multiset(r) == multiset(items)
  {
    if items == [] then []
    else
      var n := |items| - 1;
      assert items == items[..n] + [items[n]];
      InsertByCount(items[n], SortByCount(items[..n]))
  }

  lemma {:induction false} WithCountAppend(a: seq<ProjectInterest>, b: seq<ProjectInterest>, c: nat)
    ensures WithCount(a + b, c) == WithCount(a, c) + WithCount(b, c)
    decreases |b|
  {
    if b == [] {
      assert a + b == a;
    } else {
      var n := |b| - 1;
      assert (a + b)[..|a + b| - 1] == a + b[..n];
      WithCountAppend(a, b[..n], c);
    }
  }

  lemma WithCountOne(x: ProjectInterest, c: nat)
    ensures WithCount([x], c) == if x.count == c then [x] else []
  {
    assert [x][..0] == [];
  }

  /** Every element of a list whose counts are all below `c` is left out of WithCount(_, c). */
  lemma {:induction false} WithCountNone(xs: seq<ProjectInterest>, c: nat)
    requires forall k :: 0 <= k < |xs| ==> xs[k].count != c
    ensures WithCount(xs, c) == []
  {
    if xs != [] {
      WithCountNone(xs[..|xs| - 1], c);
    }
  }

  /**
   * Inserting `x` puts it after the elements of its own count that were
   * already there: the sort is stable.
   */
  lemma InsertKeepsTies(x: ProjectInterest, sorted: seq<ProjectInterest>, c: nat)
    requires SortedByCount(sorted)
    ensures WithCount(InsertByCount(x, sorted), c) == WithCount(sorted, c) + (if x.count == c then [x] else [])
  {
    var p := InsertPos(x, sorted);
    var front, back := sorted[..p], sorted[p..];
    assert sorted == front + back;
    assert InsertByCount(x, sorted) == front + [x] + back;
    AfterInsertPos(x, sorted, p);
    if x.count == c {
      TieGoesLast(front, x, back);
    } else {
      OtherCountIgnored(front, x, back, c);
      var w := WithCount(sorted, c);
      assert w + [] == w;
    }
  }

  /** An element placed before every lower count comes last among its own count. */
  lemma TieGoesLast(front: seq<ProjectInterest>, x: ProjectInterest, back: seq<ProjectInterest>)
    requires forall k :: 0 <= k < |back| ==> back[k].count < x.count
    ensures WithCount(front + [x] + back, x.count) == WithCount(front + back, x.count) + [x]
  {
    var c := x.count;
    WithCountAppend(front + [x], back, c);
    WithCountAppend(front, [x], c);
    WithCountAppend(front, back, c);
    WithCountOne(x, c);
    WithCountNone(back, c);
    var wf := WithCount(front, c);
    assert wf + [x] + [] == wf + [x];
    assert wf + [] == wf;
  }

  /** An element of another count leaves WithCount(_, c) unchanged. */
  lemma OtherCountIgnored(front: seq<ProjectInterest>, x: ProjectInterest, back: seq<ProjectInterest>, c: nat)
    requires x.count != c
    ensures WithCount(front + [x] + back, c) == WithCount(front + back, c)
  {
    WithCountAppend(front + [x], back, c);
    WithCountAppend(front, [x], c);
    WithCountAppend(front, back, c);
    WithCountOne(x, c);
    var wf := WithCount(front, c);
    assert wf + [] == wf;
  }

  /** Sorting keeps the order of the items that have the same count. */
  lemma {:induction false} SortByCountIsStable(items: seq<ProjectInterest>, c: nat)
    ensures WithCount(SortByCount(items), c) == WithCount(items, c)
  {
    if items != [] {
      var n := |items| - 1;
      SortByCountIsStable(items[..n], c);
      InsertKeepsTies(items[n], SortByCount(items[..n]), c);
    }
  }

  /* ---------------- top_projects ---------------- */

  /** `sorted(project_interests.items(), key=..., reverse=True)[:5]`. */
  function TopProjects(ss: seq<SessionSummary>): (top: seq<ProjectInterest>)
    ensures |top| <= TopLimit
  {
    var sorted := SortByCount(Tally(ss));
    sorted[..if |sorted| < TopLimit then |sorted| else TopLimit]
  }

  /** Project `p` has a place in the ranking `top`. */
  predicate Listed(top: seq<ProjectInterest>, p: string)
  {
    exists k :: 0 <= k < |top| && top[k].project == p
  }

  /** The ranking is full and every project in it has a count of at least `n`. */
  predicate Outranked(top: seq<ProjectInterest>, n: nat)
  {
    |top| == TopLimit && forall k :: 0 <= k < |top| ==> top[k].count >= n
  }

  /**
   * The ranking holds at most five projects by decreasing count; each
   * count is the number of sessions naming that project; no project appears
   * twice; and a named project that is left out means five are listed, each
   * named by at least as many sessions as it.
   */
  lemma TopProjectsRanking(ss: seq<SessionSummary>)
    ensures |TopProjects(ss)| <= TopLimit
    ensures SortedByCount(TopProjects(ss))
    ensures forall k :: 0 <= k < |TopProjects(ss)| ==>
      TopProjects(ss)[k].count == SessionsNaming(ss, TopProjects(ss)[k].project) >= 1
    ensures forall i, j :: 0 <= i < j < |TopProjects(ss)| ==> TopProjects(ss)[i].project != TopProjects(ss)[j].project
    ensures forall i :: 0 <= i < |ss| && Truthy(ss[i].leadInfo, ProjectKey) ==>
      Listed(TopProjects(ss), ss[i].leadInfo[ProjectKey])
      || Outranked(TopProjects(ss), SessionsNaming(ss, ss[i].leadInfo[ProjectKey]))
  {
    var sorted := SortByCount(Tally(ss));
    TalliedCounts(ss, sorted);
    DistinctProjects(ss, sorted);
    PrefixKeeps(sorted, |TopProjects(ss)|);
    forall i | 0 <= i < |ss| && Truthy(ss[i].leadInfo, ProjectKey)
      ensures Listed(TopProjects(ss), ss[i].leadInfo[ProjectKey])
        || Outranked(TopProjects(ss), SessionsNaming(ss, ss[i].leadInfo[ProjectKey]))
    {
      OmittedIsOutranked(ss, i);
    }
  }

  /** A prefix of a list keeps its order by count, its elements, and the distinctness of its projects. */
  lemma PrefixKeeps(xs: seq<ProjectInterest>, n: nat)
    requires n <= |xs|
    ensures forall k :: 0 <= k < n ==> xs[..n][k] == xs[k]
    ensures SortedByCount(xs) ==> SortedByCount(xs[..n])
    ensures (forall i, j :: 0 <= i < j < |xs| ==> xs[i].project != xs[j].project) ==>
      forall i, j :: 0 <= i < j < n ==> xs[..n][i].project != xs[..n][j].project
  {
  }

  /** A named project is in the ranking, or the ranking is full of projects counted at least as often. */
  lemma OmittedIsOutranked(ss: seq<SessionSummary>, i: nat)
    requires i < |ss| && Truthy(ss[i].leadInfo, ProjectKey)
    ensures Listed(TopProjects(ss), ss[i].leadInfo[ProjectKey])
      || Outranked(TopProjects(ss), SessionsNaming(ss, ss[i].leadInfo[ProjectKey]))
  {
    var sorted := SortByCount(Tally(ss));
    var top := TopProjects(ss);
    var j := TalliedPosition(ss, sorted, i);
    if j < |top| {
      assert top[j].project == ss[i].leadInfo[ProjectKey];
    } else {
      assert forall k :: 0 <= k < |top| ==> top[k] == sorted[k];
    }
  }

  /** In any reordering of the tally, each count is the number of sessions naming its project. */
  lemma TalliedCounts(ss: seq<SessionSummary>, sorted: seq<ProjectInterest>)
    requires multiset(sorted) == multiset(Tally(ss))
    ensures forall k :: 0 <= k < |sorted| ==> sorted[k].count == SessionsNaming(ss, sorted[k].project) >= 1
  {
    var items, ps := Tally(ss), FirstSeen(ProjectNames(ss));
    forall k | 0 <= k < |sorted|
      ensures sorted[k].count == SessionsNaming(ss, sorted[k].project) >= 1
    {
      assert sorted[k] in multiset(sorted);
      assert sorted[k] in items;
      var m :| 0 <= m < |items| && items[m] == sorted[k];
      assert ps[m] in ProjectNames(ss);
      ProjectNamesCount(ss, ps[m]);
    }
  }

  /** A project some session names has a place in the sorted tally. */
  lemma TalliedPosition(ss: seq<SessionSummary>, sorted: seq<ProjectInterest>, i: nat) returns (j: nat)
    requires SortedByCount(sorted) && multiset(sorted) == multiset(Tally(ss))
    requires i < |ss| && Truthy(ss[i].leadInfo, ProjectKey)
    ensures j < |sorted| && sorted[j].project == ss[i].leadInfo[ProjectKey]
    ensures forall k :: 0 <= k < j ==> sorted[k].count >= SessionsNaming(ss, ss[i].leadInfo[ProjectKey])
  {
    var items, ps := Tally(ss), FirstSeen(ProjectNames(ss));
    var p := ss[i].leadInfo[ProjectKey];
    NamedProjectIsListed(ss, i);
    var m :| 0 <= m < |ps| && ps[m] == p;
    var x := items[m];
    assert x in multiset(sorted);
    j :| 0 <= j < |sorted| && sorted[j] == x;
  }

  /** A project some session names is one of the counter's keys. */
  lemma {:induction false} NamedProjectIsListed(ss: seq<SessionSummary>, i: nat)
    requires i < |ss| && Truthy(ss[i].leadInfo, ProjectKey)
    ensures ss[i].leadInfo[ProjectKey] in ProjectNames(ss)
  {
    var n := |ss| - 1;
    if i < n {
      NamedProjectIsListed(ss[..n], i);
    }
  }

  /** A list holding the tally's items, each once, lists no project twice. */
  lemma DistinctProjects(ss: seq<SessionSummary>, sorted: seq<ProjectInterest>)
    requires multiset(sorted) == multiset(Tally(ss))
    ensures forall i, j :: 0 <= i < j < |sorted| ==> sorted[i].project != sorted[j].project
  {
    var items, ps := Tally(ss), FirstSeen(ProjectNames(ss));
    forall i, j | 0 <= i < j < |sorted|
      ensures sorted[i].project != sorted[j].project
    {
      if sorted[i].project == sorted[j].project {
        assert sorted[i] in multiset(items) && sorted[j] in multiset(items);
        var a :| 0 <= a < |items| && items[a] == sorted[i];
        var b :| 0 <= b < |items| && items[b] == sorted[j];
        assert ps[a] == ps[b];
        assert a == b;
        assert sorted[i] == sorted[j];
        TwoCopies(sorted, i, j);
        assert multiset(items)[items[a]] >= 2;
        OneCopy(items, a);
      }
    }
  }

  /** Two equal positions make at least two copies. */
  lemma TwoCopies(xs: seq<ProjectInterest>, i: nat, j: nat)
    requires i < j < |xs| && xs[i] == xs[j]
    ensures multiset(xs)[xs[i]] >= 2
  {
    assert xs == xs[..j] + [xs[j]] + xs[j + 1..];
    assert xs[i] in multiset(xs[..j]) by { assert xs[..j][i] == xs[i]; }
  }

  /** An item of the tally occurs in it once: its projects are distinct. */
  lemma OneCopy(items: seq<ProjectInterest>, a: nat)
    requires a < |items|
    requires forall i, j :: 0 <= i < j < |items| ==> items[i].project != items[j].project
    ensures multiset(items)[items[a]] == 1
  {
    assert items == items[..a] + [items[a]] + items[a + 1..];
    assert items[a] !in multiset(items[..a]) by {
      forall k | 0 <= k < a ensures items[..a][k] != items[a] { }
    }
    var tail := items[a + 1..];
    assert items[a] !in multiset(tail) by {
      forall k | 0 <= k < |tail| ensures tail[k] != items[a] {
        assert tail[k] == items[a + 1 + k];
      }
    }
  }

  /* ---------------- get_analytics ---------------- */

  /** The counts and ranking get_analytics returns (without `conversion_rate`). */
  datatype Report = Report(
    totalVisitors: nat,
    totalMessages: nat,
    leadsCaptured: nat,
    verifiedLeads: nat,
    topProjects: seq<ProjectInterest>)

  /**
   * get_analytics (conversation_logger.py:117-144): counts over the log and
   * its session summaries, and the project counter built in one pass over the
   * summaries, sorted and cut to five.
   */
  method GetAnalytics(file: LogFile) returns (r: Report)
    ensures r.totalMessages == |file.logs|
    ensures r.totalVisitors == |Sessions(file.logs)| == |SessionOrder(file.logs)|
    ensures r.leadsCaptured == CountWith(Sessions(file.logs), PhoneKey) <= r.totalVisitors
    ensures r.verifiedLeads == CountWith(Sessions(file.logs), VerifiedKey) <= r.totalVisitors
    ensures r.topProjects == TopProjects(Sessions(file.logs))
  {
    var sessions := file.GetAllSessions();
    var logs := file.logs;
    var totalVisitors := |sessions|;
    var totalMessages := |logs|;
    var leadsCaptured := CountWith(sessions, PhoneKey);
    var verifiedLeads := CountWith(sessions, VerifiedKey);

    var items := CountProjects(sessions);
    var sorted := SortByCount(items);
    var top := sorted[..if |sorted| < TopLimit then |sorted| else TopLimit];
    r := Report(totalVisitors, totalMessages, leadsCaptured, verifiedLeads, top);
  }

  /**
   * get_analytics' project counter (conversation_logger.py:132-136) and its
   * `items()`: one pass over the summaries, adding one to the count of the
   * project each one names, a new project going after the known ones.
   */
  method CountProjects(sessions: seq<SessionSummary>) returns (items: seq<ProjectInterest>)
    ensures items == Tally(sessions)
  {
    var projectInterests: map<string, nat> := map[];
    var keys: seq<string> := [];
    for i := 0 to |sessions|
      invariant keys == KeysAfter(sessions, i)
      invariant projectInterests == CounterAfter(sessions, i)
    {
      CounterStep(sessions, i, keys, projectInterests);
      ghost var keys0, counter0 := keys, projectInterests;
      var s := sessions[i];
      if Truthy(s.leadInfo, ProjectKey) {
        var project := s.leadInfo[ProjectKey];
        if project !in projectInterests {
          keys := keys + [project];
        }
        projectInterests := projectInterests[project := (if project in projectInterests then projectInterests[project] else 0) + 1];
      }
      assert keys == NextKeys(keys0, counter0, s);
      assert projectInterests == Bump(counter0, s);
    }
    assert sessions[..|sessions|] == sessions;
    CounterIsTally(sessions, keys);
    items := seq(|keys|, k requires 0 <= k < |keys| => ProjectInterest(keys[k], projectInterests[keys[k]]));
  }

  /** The counter's keys after the first `i` summaries. */
  ghost function KeysAfter(ss: seq<SessionSummary>, i: nat): seq<string>
    requires i <= |ss|
  {
    FirstSeen(ProjectNames(ss[..i]))
  }

  /** The counter after the first `i` summaries. */
  ghost function CounterAfter(ss: seq<SessionSummary>, i: nat): map<string, nat>
    requires i <= |ss|
  {
    Counter(ss[..i])
  }

  /** One iteration of get_analytics' counting loop, on the counter and on its key order. */
  lemma CounterStep(ss: seq<SessionSummary>, i: nat, keys: seq<string>, counter: map<string, nat>)
    requires i < |ss|
    requires keys == KeysAfter(ss, i) && counter == CounterAfter(ss, i)
    ensures CounterAfter(ss, i + 1) == Bump(counter, ss[i])
    ensures KeysAfter(ss, i + 1) == NextKeys(keys, counter, ss[i])
  {
    var next := ss[..i + 1];
    assert next[..i] == ss[..i] && next[i] == ss[i];
    KeysStep(next, keys, counter);
  }

  /** The key order after one more summary: a project is new exactly when the counter lacks it. */
  lemma KeysStep(next: seq<SessionSummary>, keys: seq<string>, counter: map<string, nat>)
    requires next != []
    requires keys == FirstSeen(ProjectNames(next[..|next| - 1])) && counter == Counter(next[..|next| - 1])
    ensures FirstSeen(ProjectNames(next)) == NextKeys(keys, counter, next[|next| - 1])
  {
    var init, s := next[..|next| - 1], next[|next| - 1];
    var ps0, ps := ProjectNames(init), ProjectNames(next);
    if Truthy(s.leadInfo, ProjectKey) {
      var p := s.leadInfo[ProjectKey];
      assert ps == ps0 + [p];
      assert ps[..|ps| - 1] == ps0;
      CounterCounts(init);
      assert p in counter <==> p in ps0;
      assert p in ps0 <==> p in keys;
    } else {
      assert ps == ps0 + [] == ps0;
    }
  }

  /** After all summaries, the counter's items in key order are the tally. */
  lemma CounterIsTally(ss: seq<SessionSummary>, keys: seq<string>)
    requires keys == FirstSeen(ProjectNames(ss))
    ensures forall k :: 0 <= k < |keys| ==> keys[k] in Counter(ss)
    ensures seq(|keys|, k requires 0 <= k < |keys| => ProjectInterest(keys[k], Counter(ss)[keys[k]])) == Tally(ss)
  {
    CounterCounts(ss);
  }

  /** Every visitor is counted once: the sessions' message counts add up to the messages. */
  lemma VisitorsAndMessages(logs: seq<LogEntry>)
    ensures MessageTotal(Sessions(logs)) == |logs|
    ensures |Sessions(logs)| <= |logs|
  {
    SessionsCountEveryEntry(logs);
    MessageTotalAtLeastLength(Sessions(logs));
  }

  lemma {:induction false} MessageTotalAtLeastLength(ss: seq<SessionSummary>)
    requires forall i :: 0 <= i < |ss| ==> ss[i].messageCount >= 1
    ensures MessageTotal(ss) >= |ss|
  {
    if ss != [] {
      MessageTotalAtLeastLength(ss[1..]);
    }
  }
}
