/**
 * The frontend's chat sidebar (sidebar.component.ts): the list of chat
 * sessions, the part of it that matches the search field, and the split
 * of that part into today's, yesterday's and older sessions.
 *
 * Times are milliseconds. The clock (`Date.now()`) and the two local
 * midnights the day buckets are measured from are parameters. The two
 * outputs are recorded in `emitted`, oldest first.
 */
module Sidebar {
  import opened Wrappers
  import opened JsText
  import opened Lists

  /** `ChatSession`; `isActive` is `None` where the property is left undefined. */
  datatype ChatSession = ChatSession(id: string, title: string, timestamp: int, preview: string, isActive: Option<bool>)

  predicate Active(s: ChatSession) {
    s.isActive == Some(true)
  }

  /** What the component emits: `newChatCreated`, or `sessionSelected` with the session. */
  datatype SidebarEvent = NewChatCreated | SessionSelected(session: ChatSession)

  const NewChatTitle: string := "新しいチャット"
  const NewChatPreview: string := "チャットを開始..."

  /** The three sessions the component starts with, made at `now`: one from now, one a day old, one two days old. */
  function InitialSessions(now: int): seq<ChatSession> {
    [ ChatSession("1", "TypeScript質問", now, "TypeScriptの型システムについて...", Some(true)),
      ChatSession("2", "Angular 20の新機能", now - 86400000, "Angular 20でのSignalsの改善点...", None),
      ChatSession("3", "NestJSベストプラクティス", now - 172800000, "NestJSでのDI実装パターン...", None) ]
  }

  /** The session `createNewChat` makes at `now`: named after the clock, active. */
  function NewSession(now: nat): ChatSession {
    ChatSession(Decimal(now), NewChatTitle, now, NewChatPreview, Some(true))
  }

  /** The first `update` of `createNewChat`: every session inactive, nothing else changed. */
  function Deactivated(sessions: seq<ChatSession>): (r: seq<ChatSession>)
    ensures |r| == |sessions|
    ensures forall i :: 0 <= i < |r| ==> !Active(r[i]) && r[i].(isActive := sessions[i].isActive) == sessions[i]
  {
    seq(|sessions|, i requires 0 <= i < |sessions| => sessions[i].(isActive := Some(false)))
  }

  /** The list after `createNewChat` at `now`. */
  function WithNewChat(sessions: seq<ChatSession>, now: nat): seq<ChatSession> {
    [NewSession(now)] + Deactivated(sessions)
  }

  /**
   * `createNewChat` grows the list by one and puts the new session first;
   * it is the only active session, and every earlier one follows in order,
   * otherwise unchanged.
   */
  lemma NewChatFirst(sessions: seq<ChatSession>, now: nat)
    ensures var r := WithNewChat(sessions, now);
      && |r| == |sessions| + 1
      && r[0].title == NewChatTitle && r[0].preview == NewChatPreview && r[0].timestamp == now
      && (forall i :: 0 <= i < |r| ==> (Active(r[i]) <==> i == 0))
      && (forall i :: 1 <= i < |r| ==> r[i].(isActive := sessions[i - 1].isActive) == sessions[i - 1])
  {
    var r := WithNewChat(sessions, now);
    assert forall i :: 1 <= i < |r| ==> r[i] == Deactivated(sessions)[i - 1];
  }

  /** `selectSession`: a session is active exactly when its id is the selected one. */
  function Selected(sessions: seq<ChatSession>, id: string): (r: seq<ChatSession>)
    ensures |r| == |sessions|
    ensures forall i :: 0 <= i < |r| ==> (Active(r[i]) <==> sessions[i].id == id)
    ensures forall i :: 0 <= i < |r| ==> r[i].(isActive := sessions[i].isActive) == sessions[i]
  {
    seq(|sessions|, i requires 0 <= i < |sessions| => sessions[i].(isActive := Some(sessions[i].id == id)))
  }

  /** No two sessions share an id. */
  predicate DistinctIds(sessions: seq<ChatSession>) {
    forall i, j :: 0 <= i < j < |sessions| ==> sessions[i].id != sessions[j].id
  }

  /** With distinct ids, selecting a listed session leaves exactly that one active. */
  lemma SelectLeavesOneActive(sessions: seq<ChatSession>, k: nat)
    requires DistinctIds(sessions) && k < |sessions|
    ensures forall i :: 0 <= i < |sessions| ==> (Active(Selected(sessions, sessions[k].id)[i]) <==> i == k)
  {
    forall i | 0 <= i < |sessions| ensures sessions[i].id == sessions[k].id <==> i == k {
      if i < k {
        assert sessions[i].id != sessions[k].id;
      } else if k < i {
        assert sessions[k].id != sessions[i].id;
      }
    }
  }

  function OtherThan(id: string): ChatSession -> bool {
    (s: ChatSession) => s.id != id
  }

  /** How many sessions carry the id. */
  function CountId(sessions: seq<ChatSession>, id: string): nat {
    if sessions == [] then 0 else (if sessions[0].id == id then 1 else 0) + CountId(sessions[1..], id)
  }

  /** Removing by id removes as many sessions as carry it. */
  lemma {:induction false} WithoutCount(sessions: seq<ChatSession>, id: string)
    ensures |Filter(sessions, OtherThan(id))| + CountId(sessions, id) == |sessions|
  {
    if sessions != [] {
      WithoutCount(sessions[1..], id);
    }
  }

  /** Among distinct ids, a listed one is carried by one session only. */
  lemma {:induction false} CountIdOne(sessions: seq<ChatSession>, k: nat)
    requires DistinctIds(sessions) && k < |sessions|
    ensures CountId(sessions, sessions[k].id) == 1
  {
    var rest := sessions[1..];
    assert DistinctIds(rest) by {
      forall i, j | 0 <= i < j < |rest| ensures rest[i].id != rest[j].id {
        assert rest[i] == sessions[i + 1] && rest[j] == sessions[j + 1];
      }
    }
    if k == 0 {
      CountIdNone(rest, sessions[0].id);
    } else {
      assert rest[k - 1] == sessions[k];
      CountIdOne(rest, k - 1);
    }
  }

  lemma {:induction false} CountIdNone(sessions: seq<ChatSession>, id: string)
    requires forall i :: 0 <= i < |sessions| ==> sessions[i].id != id
    ensures CountId(sessions, id) == 0
  {
    if sessions != [] {
      CountIdNone(sessions[1..], id);
    }
  }

  /**
   * `deleteSession`: every session with the id goes, the others stay in
   * order, and the list is shorter by the number of sessions that had it.
   */
  function Without(sessions: seq<ChatSession>, id: string): (r: seq<ChatSession>)
    ensures forall s :: s in r <==> s in sessions && s.id != id
    ensures Subsequence(r, sessions)
    ensures |r| == |sessions| - CountId(sessions, id)
  {
    FilterMembers(sessions, OtherThan(id));
    FilterOrdered(sessions, OtherThan(id));
    WithoutCount(sessions, id);
    Filter(sessions, OtherThan(id))
  }

  /** With distinct ids, deleting a listed session shortens the list by one. */
  lemma DeleteRemovesOne(sessions: seq<ChatSession>, k: nat)
    requires DistinctIds(sessions) && k < |sessions|
    ensures |Without(sessions, sessions[k].id)| == |sessions| - 1
    ensures forall s :: s in Without(sessions, sessions[k].id) ==> s.id != sessions[k].id
  {
    CountIdOne(sessions, k);
  }

  /** The lowercased title or preview contains the lowercased query. */
  predicate SessionMatches(query: string, s: ChatSession) {
    Includes(ToLower(s.title), ToLower(query)) || Includes(ToLower(s.preview), ToLower(query))
  }

  function Matcher(query: string): ChatSession -> bool {
    s => SessionMatches(query, s)
  }

  /** Every title contains the empty query, so filtering by it keeps everything. */
  lemma EmptyQueryKeepsAll(sessions: seq<ChatSession>)
    ensures Filter(sessions, Matcher("")) == sessions
  {
    forall k | 0 <= k < |sessions| ensures Matcher("")(sessions[k]) {
      assert OccursAt(ToLower(sessions[k].title), ToLower(""), 0);
    }
    FilterAll(sessions, Matcher(""));
  }

  /**
   * `filterSessions`: all sessions for an empty query, and otherwise
   * exactly those whose title or preview matches, in their original order.
   */
  function Matching(sessions: seq<ChatSession>, query: string): (r: seq<ChatSession>)
    ensures query == "" ==> r == sessions
    ensures forall s :: s in r <==> s in sessions && SessionMatches(query, s)
    ensures Subsequence(r, sessions)
  {
    FilterMembers(sessions, Matcher(query));
    FilterOrdered(sessions, Matcher(query));
    if query == "" then
      EmptyQueryKeepsAll(sessions);
      sessions
    else
      Filter(sessions, Matcher(query))
  }

  function Since(start: int): ChatSession -> bool {
    (s: ChatSession) => s.timestamp >= start
  }

  function Between(start: int, end: int): ChatSession -> bool {
    (s: ChatSession) => s.timestamp >= start && s.timestamp < end
  }

  function Before(end: int): ChatSession -> bool {
    (s: ChatSession) => s.timestamp < end
  }

  /** `getTodaySessions`: the sessions from today's midnight on. */
  function TodaySessions(sessions: seq<ChatSession>, todayStart: int): (r: seq<ChatSession>)
    ensures forall s :: s in r <==> s in sessions && s.timestamp >= todayStart
  {
    FilterMembers(sessions, Since(todayStart));
    Filter(sessions, Since(todayStart))
  }

  /** `getYesterdaySessions`: the sessions from yesterday's midnight up to today's. */
  function YesterdaySessions(sessions: seq<ChatSession>, yesterdayStart: int, todayStart: int): (r: seq<ChatSession>)
    ensures forall s :: s in r <==> s in sessions && yesterdayStart <= s.timestamp < todayStart
  {
    FilterMembers(sessions, Between(yesterdayStart, todayStart));
    Filter(sessions, Between(yesterdayStart, todayStart))
  }

  /** `getOlderSessions`: the sessions before yesterday's midnight. */
  function OlderSessions(sessions: seq<ChatSession>, yesterdayStart: int): (r: seq<ChatSession>)
    ensures forall s :: s in r <==> s in sessions && s.timestamp < yesterdayStart
  {
    FilterMembers(sessions, Before(yesterdayStart));
    Filter(sessions, Before(yesterdayStart))
  }

  /**
   * When yesterday's midnight is not after today's, the three buckets
   * split the sessions: each one, with its repetitions, lands in exactly
   * one bucket.
   */
  lemma {:induction false} BucketsPartition(sessions: seq<ChatSession>, yesterdayStart: int, todayStart: int)
    requires yesterdayStart <= todayStart
    ensures multiset(TodaySessions(sessions, todayStart)) + multiset(YesterdaySessions(sessions, yesterdayStart, todayStart))
      + multiset(OlderSessions(sessions, yesterdayStart)) == multiset(sessions)
  {
    if sessions != [] {
      BucketsPartition(sessions[1..], yesterdayStart, todayStart);
      assert sessions == [sessions[0]] + sessions[1..];
    }
  }

  /** The two tests on the buckets: today's are from today on, yesterday's are from yesterday and before today. */
  lemma BucketsBounded(sessions: seq<ChatSession>, yesterdayStart: int, todayStart: int)
    ensures forall s :: s in TodaySessions(sessions, todayStart) ==> s.timestamp >= todayStart
    ensures forall s :: s in YesterdaySessions(sessions, yesterdayStart, todayStart) ==>
      s.timestamp >= yesterdayStart && s.timestamp < todayStart
  {
  }

  /** `SidebarComponent`. */
  class SidebarComponent {
    var searchQuery: string
    var sessions: seq<ChatSession>
    var filteredSessions: seq<ChatSession>
    var emitted: seq<SidebarEvent>

    /** Starts with the three sessions, all of them shown. */
    constructor(now: int)
      ensures searchQuery == "" && sessions == InitialSessions(now) && filteredSessions == sessions && emitted == []
    {
      searchQuery := "";
      sessions := InitialSessions(now);
      filteredSessions := sessions;
      emitted := [];
    }

    /** The search field's binding: typing replaces the query. */
    method SetSearchQuery(query: string)
      modifies this
      ensures searchQuery == query
      ensures sessions == old(sessions) && filteredSessions == old(filteredSessions) && emitted == old(emitted)
    {
      searchQuery := query;
    }

    /** `filterSessions`: the shown sessions are the matching ones. */
    method FilterSessions()
      modifies this
      ensures filteredSessions == Matching(sessions, searchQuery)
      ensures searchQuery == old(searchQuery) && sessions == old(sessions) && emitted == old(emitted)
    {
      if searchQuery == "" {
        filteredSessions := sessions;
      } else {
        filteredSessions := Filter(sessions, Matcher(searchQuery));
      }
    }

    /** `createNewChat` at `now`: the new active session first, the shown list refreshed, the event emitted. */
    method CreateNewChat(now: nat)
      modifies this
      ensures sessions == WithNewChat(old(sessions), now)
      ensures filteredSessions == Matching(sessions, searchQuery)
      ensures searchQuery == old(searchQuery) && emitted == old(emitted) + [NewChatCreated]
    {
      var newSession := NewSession(now);
      sessions := Deactivated(sessions);
      sessions := [newSession] + sessions;
      FilterSessions();
      emitted := emitted + [NewChatCreated];
    }

    /** `selectSession`: only the session's id is active; the shown list is not refreshed. */
    method SelectSession(session: ChatSession)
      modifies this
      ensures sessions == Selected(old(sessions), session.id)
      ensures filteredSessions == old(filteredSessions) && searchQuery == old(searchQuery)
      ensures emitted == old(emitted) + [SessionSelected(session)]
    {
      sessions := Selected(sessions, session.id);
      emitted := emitted + [SessionSelected(session)];
    }

    /** `deleteSession`: every session with the id goes, and the shown list is refreshed. */
    method DeleteSession(session: ChatSession)
      modifies this
      ensures sessions == Without(old(sessions), session.id)
      ensures filteredSessions == Matching(sessions, searchQuery)
      ensures searchQuery == old(searchQuery) && emitted == old(emitted)
    {
      sessions := Without(sessions, session.id);
      FilterSessions();
    }

    function GetTodaySessions(todayStart: int): seq<ChatSession>
      reads this
    {
      TodaySessions(filteredSessions, todayStart)
    }

    function GetYesterdaySessions(yesterdayStart: int, todayStart: int): seq<ChatSession>
      reads this
    {
      YesterdaySessions(filteredSessions, yesterdayStart, todayStart)
    }

    function GetOlderSessions(yesterdayStart: int): seq<ChatSession>
      reads this
    {
      OlderSessions(filteredSessions, yesterdayStart)
    }
  }

  /** The initial sessions have distinct ids, and only the first is active. */
  lemma InitialSessionsFacts(now: int)
    ensures DistinctIds(InitialSessions(now))
    ensures forall i :: 0 <= i < 3 ==> (Active(InitialSessions(now)[i]) <==> i == 0)
  {
  }

  /**
   * The component's tests on a fresh component each: all sessions are
   * shown at first; a new chat makes four sessions with the new, active
   * one first, and is announced; selecting the second session makes it
   * the active one, and is announced; deleting the first leaves two, none
   * with its id.
   */
  method SessionScenario(now: int, later: nat)
      returns (shown: nat, total: nat, created: nat, first: ChatSession, announced: seq<SidebarEvent>,
               selectedActive: bool, selection: seq<SidebarEvent>, left: nat, gone: bool)
    ensures shown == total == 3
    ensures created == 4 && first.title == NewChatTitle && Active(first) && announced == [NewChatCreated]
    ensures selectedActive && selection == [SessionSelected(InitialSessions(now)[1])]
    ensures left == 2 && gone
  {
    InitialSessionsFacts(now);
    var sidebar := new SidebarComponent(now);
    shown, total := |sidebar.filteredSessions|, |sidebar.sessions|;

    var creating := new SidebarComponent(now);
    creating.CreateNewChat(later);
    NewChatFirst(InitialSessions(now), later);
    created, first, announced := |creating.sessions|, creating.sessions[0], creating.emitted;

    var selecting := new SidebarComponent(now);
    var second := selecting.sessions[1];
    selecting.SelectSession(second);
    SelectLeavesOneActive(InitialSessions(now), 1);
    selectedActive, selection := Active(selecting.sessions[1]), selecting.emitted;

    var deleting := new SidebarComponent(now);
    var doomed := deleting.sessions[0];
    deleting.DeleteSession(doomed);
    DeleteRemovesOne(InitialSessions(now), 0);
    left := |deleting.sessions|;
    gone := forall s | s in deleting.sessions :: s.id != doomed.id;
  }

  /** A session whose title starts with the query matches it, whatever the case. */
  lemma TitlePrefixMatches(s: ChatSession, query: string)
    requires |query| <= |s.title| && s.title[..|query|] == query
    ensures SessionMatches(query, s)
  {
    var title := ToLower(s.title);
    assert title[..|query|] == ToLower(query) by {
      forall k | 0 <= k < |query| ensures title[k] == ToLower(query)[k] {
        assert s.title[k] == query[k];
      }
    }
    assert OccursAt(title, ToLower(query), 0);
  }

  /** The search test: `TypeScript` finds the first session, which comes first. */
  lemma TypeScriptSearch(now: int)
    ensures var r := Matching(InitialSessions(now), "TypeScript");
      |r| > 0 && r[0] == InitialSessions(now)[0]
  {
    var sessions := InitialSessions(now);
    var query := "TypeScript";
    assert sessions[0].title == query + "質問";
    TitlePrefixMatches(sessions[0], query);
    assert Matcher(query)(sessions[0]);
  }
}
