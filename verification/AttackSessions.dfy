/** Attack sessions: the suspicious events of one address on one node, cut wherever five
    minutes pass without one. */
module AttackSessions {
  import opened Wrappers
  import opened Sequences
  import opened Sorting
  import opened Timestamps

  const SESSION_WINDOW_MS: int := 5 * 60 * 1000

  datatype Event = Event(nodeId: string, ip: string, timestamp: Stamp, risk: int, signals: seq<string>, host: string)

  /** Sessions are kept per node and address. */
  datatype Key = Key(nodeId: string, ip: string)

  datatype Session = Session(key: Key, requests: int, maxRisk: int, signals: set<string>, hosts: set<string>,
                             firstSeen: Stamp, lastSeen: Stamp, lastSeenMs: int, timeline: seq<Event>)

  function KeyOf(e: Event): Key {
    Key(if e.nodeId == "" then "local" else e.nodeId, e.ip)
  }

  /** An event that names no node is of the local one. */
  lemma SameKeyIff(a: Event, b: Event)
    ensures KeyOf(a) == KeyOf(b) <==> a.ip == b.ip && (a.nodeId == b.nodeId || {a.nodeId, b.nodeId} == {"", "local"})
  {
    assert "" in {a.nodeId, b.nodeId} || "local" !in {a.nodeId, b.nodeId} || {a.nodeId, b.nodeId} != {"", "local"};
  }

  function Time(e: Event): int {
    ParseTimestamp(e.timestamp).GetOr(0)
  }

  function Suspicious(events: seq<Event>): seq<Event> {
    if events == [] then []
    else
      var r := Suspicious(events[..|events| - 1]);
      var e := events[|events| - 1];
      if e.risk >= 40 then r + [e] else r
  }

  function AtFortyOrMore(e: Event): Option<Event> {
    if e.risk >= 40 then Some(e) else None
  }

  /** Those of a risk of 40 or more, each as often as it is there and in order. */
  lemma {:induction false} SuspiciousAre(events: seq<Event>) returns (at: seq<nat>)
    ensures KeptFrom(Suspicious(events), events, AtFortyOrMore, at)
  {
    at := [];
    if events != [] {
      hide KeptFrom;
      var n := |events| - 1;
      at := SuspiciousAre(events[..n]);
      assert events[..n] + [events[n]] == events;
      KeepsOneMore(Suspicious(events[..n]), events[..n], AtFortyOrMore, at, events[n]);
      if events[n].risk >= 40 {
        at := at + [n];
      }
    }
  }

  // ----- What a session stands for -----

  function MaxRisk(timeline: seq<Event>): int {
    if timeline == [] then 0 else Max(MaxRisk(timeline[..|timeline| - 1]), timeline[|timeline| - 1].risk)
  }

  function SignalsOf(timeline: seq<Event>): set<string> {
    if timeline == [] then {}
    else
      var signals := timeline[|timeline| - 1].signals;
      SignalsOf(timeline[..|timeline| - 1]) + set x | x in signals
  }

  function HostsOf(timeline: seq<Event>): set<string> {
    if timeline == [] then {}
    else
      var host := timeline[|timeline| - 1].host;
      HostsOf(timeline[..|timeline| - 1]) + if host == "" then {} else {host}
  }

  /** Neighbours in a session are in time order and at most five minutes apart. */
  ghost predicate Unbroken(timeline: seq<Event>) {
    forall i :: 0 <= i < |timeline| - 1 ==> 0 <= Time(timeline[i + 1]) - Time(timeline[i]) <= 300_000
  }

  /** The fields of a session sum up its timeline. */
  ghost predicate SumsUp(s: Session) {
    s.requests == |s.timeline| && s.maxRisk == MaxRisk(s.timeline) &&
    s.signals == SignalsOf(s.timeline) && s.hosts == HostsOf(s.timeline) &&
    (forall e <- s.timeline :: KeyOf(e) == s.key) && Unbroken(s.timeline) &&
    (s.timeline != [] ==>
      s.firstSeen == s.timeline[0].timestamp && s.lastSeen == s.timeline[|s.timeline| - 1].timestamp &&
      s.lastSeenMs == Time(s.timeline[|s.timeline| - 1]))
  }

  /** The events of one key, in the given order. */
  function OfKey(events: seq<Event>, key: Key): seq<Event> {
    if events == [] then []
    else
      var r := OfKey(events[..|events| - 1], key);
      var e := events[|events| - 1];
      if KeyOf(e) == key then r + [e] else r
  }

  /** The timelines of one key's sessions, one after the other. */
  function Timelines(sessions: seq<Session>, key: Key): seq<Event> {
    if sessions == [] then []
    else
      var r := Timelines(sessions[..|sessions| - 1], key);
      var s := sessions[|sessions| - 1];
      if s.key == key then r + s.timeline else r
  }

  function TotalRequests(sessions: seq<Session>): int {
    if sessions == [] then 0 else TotalRequests(sessions[..|sessions| - 1]) + sessions[|sessions| - 1].requests
  }

  /** Sessions of one key lie more than five minutes apart, in the order of the list. */
  ghost predicate Apart(sessions: seq<Session>) {
    forall i, j :: 0 <= i < j < |sessions| ==> PauseBetween(sessions[i], sessions[j])
  }

  ghost predicate PauseBetween(a: Session, b: Session) {
    a.key == b.key && a.timeline != [] && b.timeline != [] ==>
      Time(b.timeline[0]) - Time(a.timeline[|a.timeline| - 1]) > 300_000
  }

  // ----- Building sessions -----

  function Started(e: Event): Session {
    Session(KeyOf(e), 0, 0, {}, {}, e.timestamp, e.timestamp, Time(e), [])
  }

  function Extended(s: Session, e: Event): Session {
    s.(requests := s.requests + 1,
       maxRisk := Max(s.maxRisk, e.risk),
       signals := s.signals + (set x | x in e.signals),
       hosts := if e.host == "" then s.hosts else s.hosts + {e.host},
       timeline := s.timeline + [e],
       lastSeen := e.timestamp,
       lastSeenMs := Time(e))
  }

  lemma ExtendedSumsUp(s: Session, e: Event)
    requires SumsUp(s) && s.key == KeyOf(e)
    requires if s.timeline == [] then s.firstSeen == e.timestamp else 0 <= Time(e) - s.lastSeenMs <= SESSION_WINDOW_MS
    ensures SumsUp(Extended(s, e))
  {
    var t := s.timeline + [e];
    assert t[..|t| - 1] == s.timeline;
  }

  lemma {:induction false} TimelinesOfLater(sessions: seq<Session>, more: seq<Session>, key: Key)
    ensures Timelines(sessions + more, key) == Timelines(sessions, key) + Timelines(more, key)
  {
    if more == [] {
      assert sessions + more == sessions;
    } else {
      var all, n := sessions + more, |more| - 1;
      TimelinesOfLater(sessions, more[..n], key);
      assert all[..|all| - 1] == sessions + more[..n];
      AppendAssociates(Timelines(sessions, key), Timelines(more[..n], key), more[n].timeline);
    }
  }

  lemma {:induction false} NoSessionNoTimeline(sessions: seq<Session>, key: Key)
    requires forall i :: 0 <= i < |sessions| ==> sessions[i].key != key
    ensures Timelines(sessions, key) == []
  {
    if sessions != [] {
      NoSessionNoTimeline(sessions[..|sessions| - 1], key);
    }
  }

  /** Extending the last session of a key adds the event to the end of that key's timelines,
      and touches no other key. */
  lemma TimelinesExtended(sessions: seq<Session>, k: nat, e: Event, key: Key)
    requires k < |sessions| && sessions[k].key == KeyOf(e)
    requires forall j :: k < j < |sessions| ==> sessions[j].key != KeyOf(e)
    ensures Timelines(sessions[k := Extended(sessions[k], e)], key) ==
      Timelines(sessions, key) + if KeyOf(e) == key then [e] else []
  {
    var before, s, later := sessions[..k], sessions[k], sessions[k + 1..];
    assert sessions == before + [s] + later;
    assert sessions[k := Extended(s, e)] == before + [Extended(s, e)] + later;
    TimelinesOfLater(before + [s], later, key);
    TimelinesOfLater(before + [Extended(s, e)], later, key);
    assert (before + [s])[..k] == before && (before + [Extended(s, e)])[..k] == before;
    if KeyOf(e) == key {
      NoSessionNoTimeline(later, key);
      AppendAssociates(Timelines(before, key), s.timeline, [e]);
    }
  }

  lemma {:induction false} TotalExtended(sessions: seq<Session>, k: nat, e: Event)
    requires k < |sessions|
    ensures TotalRequests(sessions[k := Extended(sessions[k], e)]) == TotalRequests(sessions) + 1
  {
    var n := |sessions| - 1;
    var r := sessions[k := Extended(sessions[k], e)];
    if k == n {
      assert r[..n] == sessions[..n];
    } else {
      TotalExtended(sessions[..n], k, e);
      assert r[..n] == sessions[..n][k := Extended(sessions[k], e)];
    }
  }

  ghost predicate AllSumUp(sessions: seq<Session>) {
    forall i :: 0 <= i < |sessions| ==> SumsUp(sessions[i]) && sessions[i].timeline != []
  }

  /** A finished list of sessions over the events handled so far, oldest first. */
  ghost predicate Sessionized(sessions: seq<Session>, handled: seq<Event>) {
    AllSumUp(sessions) && Apart(sessions) && TotalRequests(sessions) == |handled| && SameTimelines(sessions, handled)
  }

  ghost predicate SameTimelines(sessions: seq<Session>, handled: seq<Event>) {
    forall key :: Timelines(sessions, key) == OfKey(handled, key)
  }

  /** The open sessions: for each key that has any session, its last one. */
  ghost predicate LastOnes(open: map<Key, nat>, sessions: seq<Session>) {
    (forall i :: 0 <= i < |sessions| ==> sessions[i].key in open) && forall key <- open :: IsLast(sessions, open[key], key)
  }

  ghost predicate IsLast(sessions: seq<Session>, k: nat, key: Key) {
    k < |sessions| && sessions[k].key == key && forall j :: k < j < |sessions| ==> sessions[j].key != key
  }

  /** Every session ended no later than the given time. */
  ghost predicate Past(sessions: seq<Session>, time: int) {
    forall i :: 0 <= i < |sessions| ==> sessions[i].lastSeenMs <= time
  }

  /** The list and the open sessions after some events, the last of them at `time`. */
  ghost predicate Good(sessions: seq<Session>, open: map<Key, nat>, handled: seq<Event>, time: int) {
    Sessionized(sessions, handled) && LastOnes(open, sessions) && Past(sessions, time)
  }

  // An event that continues the open session of its key.

  lemma ContinueApart(sessions: seq<Session>, k: nat, e: Event)
    requires AllSumUp(sessions) && Apart(sessions) && IsLast(sessions, k, KeyOf(e))
    ensures Apart(sessions[k := Extended(sessions[k], e)])
  {
    var r := sessions[k := Extended(sessions[k], e)];
    assert r[k].timeline[0] == sessions[k].timeline[0];
    forall i, j | 0 <= i < j < |r|
      ensures PauseBetween(r[i], r[j])
    {
      assert PauseBetween(sessions[i], sessions[j]);
    }
  }

  lemma ContinueTimelines(sessions: seq<Session>, handled: seq<Event>, k: nat, e: Event)
    requires SameTimelines(sessions, handled) && IsLast(sessions, k, KeyOf(e))
    ensures SameTimelines(sessions[k := Extended(sessions[k], e)], handled + [e])
  {
    assert (handled + [e])[..|handled|] == handled;
    forall key
      ensures Timelines(sessions[k := Extended(sessions[k], e)], key) == OfKey(handled + [e], key)
    {
      TimelinesExtended(sessions, k, e, key);
    }
  }

  lemma ContinueOpen(sessions: seq<Session>, open: map<Key, nat>, k: nat, e: Event, s: Session)
    requires LastOnes(open, sessions) && k < |sessions| && s.key == sessions[k].key
    ensures LastOnes(open, sessions[k := s])
  {
    forall key | key in open
      ensures IsLast(sessions[k := s], open[key], key)
    {
      assert IsLast(sessions, open[key], key);
    }
  }

  lemma ContinueSums(sessions: seq<Session>, k: nat, e: Event)
    requires AllSumUp(sessions) && k < |sessions| && sessions[k].key == KeyOf(e)
    requires 0 <= Time(e) - sessions[k].lastSeenMs <= SESSION_WINDOW_MS
    ensures AllSumUp(sessions[k := Extended(sessions[k], e)])
  {
    ExtendedSumsUp(sessions[k], e);
    hide SumsUp;
  }

  lemma ContinuedIsGood(sessions: seq<Session>, open: map<Key, nat>, handled: seq<Event>, time: int, e: Event)
    requires Good(sessions, open, handled, time) && time <= Time(e) && KeyOf(e) in open
    requires IsLast(sessions, open[KeyOf(e)], KeyOf(e))
    requires Time(e) - sessions[open[KeyOf(e)]].lastSeenMs <= SESSION_WINDOW_MS
    ensures var k := open[KeyOf(e)]; Good(sessions[k := Extended(sessions[k], e)], open, handled + [e], Time(e))
  {
    var k := open[KeyOf(e)];
    var s := Extended(sessions[k], e);
    assert sessions[k].lastSeenMs <= time;
    assert Past(sessions[k := s], Time(e));
    hide Past, LastOnes, AllSumUp, Apart, SameTimelines, TotalRequests;
    ContinueSums(sessions, k, e);
    ContinueApart(sessions, k, e);
    TotalExtended(sessions, k, e);
    ContinueTimelines(sessions, handled, k, e);
    ContinueOpen(sessions, open, k, e, s);
  }

  // An event that opens a new session.

  /** Earlier sessions of the key ended before its last one did. */
  lemma AllEnded(sessions: seq<Session>, k: nat, key: Key, time: int)
    requires AllSumUp(sessions) && Apart(sessions) && IsLast(sessions, k, key)
    requires time - sessions[k].lastSeenMs > SESSION_WINDOW_MS
    ensures forall i :: 0 <= i < |sessions| && sessions[i].key == key ==> time - sessions[i].lastSeenMs > SESSION_WINDOW_MS
  {
    var t := sessions[k].timeline;
    FirstNotAfterLast(t);
    forall i | 0 <= i < k && sessions[i].key == key
      ensures time - sessions[i].lastSeenMs > SESSION_WINDOW_MS
    {
      assert PauseBetween(sessions[i], sessions[k]);
    }
  }

  lemma {:induction false} FirstNotAfterLast(t: seq<Event>)
    requires t != [] && Unbroken(t)
    ensures Time(t[0]) <= Time(t[|t| - 1])
  {
    if |t| > 1 {
      FirstNotAfterLast(t[..|t| - 1]);
    }
  }

  lemma OpenApart(sessions: seq<Session>, e: Event)
    requires AllSumUp(sessions) && Apart(sessions)
    requires forall i :: 0 <= i < |sessions| && sessions[i].key == KeyOf(e) ==> Time(e) - sessions[i].lastSeenMs > SESSION_WINDOW_MS
    ensures Apart(sessions + [Extended(Started(e), e)])
  {
    var s := Extended(Started(e), e);
    var r := sessions + [s];
    assert s.timeline == [e];
    forall i, j | 0 <= i < j < |r|
      ensures PauseBetween(r[i], r[j])
    {
      if j < |sessions| {
        assert PauseBetween(sessions[i], sessions[j]);
      } else {
        assert SumsUp(sessions[i]);
      }
    }
  }

  lemma OpenTimelines(sessions: seq<Session>, handled: seq<Event>, e: Event)
    requires SameTimelines(sessions, handled)
    ensures SameTimelines(sessions + [Extended(Started(e), e)], handled + [e])
    ensures TotalRequests(sessions + [Extended(Started(e), e)]) == TotalRequests(sessions) + 1
  {
    var s := Extended(Started(e), e);
    assert (sessions + [s])[..|sessions|] == sessions;
    assert (handled + [e])[..|handled|] == handled;
    assert s.timeline == [e];
  }

  lemma OpenLast(sessions: seq<Session>, open: map<Key, nat>, s: Session)
    requires LastOnes(open, sessions)
    ensures LastOnes(open[s.key := |sessions|], sessions + [s])
  {
    var open' := open[s.key := |sessions|];
    forall key | key in open'
      ensures IsLast(sessions + [s], open'[key], key)
    {
      assert key != s.key ==> IsLast(sessions, open[key], key);
    }
  }

  lemma OpenSums(sessions: seq<Session>, e: Event)
    requires AllSumUp(sessions)
    ensures AllSumUp(sessions + [Extended(Started(e), e)])
  {
    ExtendedSumsUp(Started(e), e);
    hide SumsUp;
  }

  lemma OpenedIsGood(sessions: seq<Session>, open: map<Key, nat>, handled: seq<Event>, time: int, e: Event)
    requires Good(sessions, open, handled, time) && time <= Time(e)
    requires KeyOf(e) in open ==> IsLast(sessions, open[KeyOf(e)], KeyOf(e))
    requires KeyOf(e) in open ==> Time(e) - sessions[open[KeyOf(e)]].lastSeenMs > SESSION_WINDOW_MS
    ensures Good(sessions + [Extended(Started(e), e)], open[KeyOf(e) := |sessions|], handled + [e], Time(e))
  {
    assert Past(sessions + [Extended(Started(e), e)], Time(e));
    OpenLast(sessions, open, Extended(Started(e), e));
    hide Past, SameTimelines, TotalRequests;
    if KeyOf(e) in open {
      AllEnded(sessions, open[KeyOf(e)], KeyOf(e), Time(e));
    }
    assert forall i :: 0 <= i < |sessions| && sessions[i].key == KeyOf(e) ==> Time(e) - sessions[i].lastSeenMs > SESSION_WINDOW_MS;
    hide LastOnes, IsLast, AllSumUp, Apart;
    OpenSums(sessions, e);
    OpenApart(sessions, e);
    OpenTimelines(sessions, handled, e);
  }

  lemma OpenKeyIsLast(sessions: seq<Session>, open: map<Key, nat>, handled: seq<Event>, time: int, key: Key)
    requires Good(sessions, open, handled, time) && key in open
    ensures IsLast(sessions, open[key], key)
  {}

  lemma GoodGivesSessions(sessions: seq<Session>, open: map<Key, nat>, handled: seq<Event>, time: int)
    requires Good(sessions, open, handled, time)
    ensures Sessionized(sessions, handled)
  {}

  lemma NextNotEarlier(ordered: seq<Event>, i: nat)
    requires InOrder(ordered) && i < |ordered|
    ensures i + 1 < |ordered| ==> Time(ordered[i]) <= Time(ordered[i + 1])
  {}

  lemma InTimeOrder(s: seq<Event>)
    ensures InOrder(SortBy(s, Time))
  {
    SortIsStable(s, Time, (x, y) => true);
  }

  ghost predicate InOrder(s: seq<Event>) {
    forall i, j :: 0 <= i < j < |s| ==> Time(s[i]) <= Time(s[j])
  }

  /** One event: it goes into the open session of its key, or opens a new one. */
  method HandleEvent(attackSessions: seq<Session>, sessionsByIp: map<Key, nat>, event: Event,
                     ghost handled: seq<Event>, ghost time: int)
    returns (sessions: seq<Session>, open: map<Key, nat>)
    requires Good(attackSessions, sessionsByIp, handled, time) && time <= Time(event)
    ensures Good(sessions, open, handled + [event], Time(event))
  {
    hide Good;
    var key := KeyOf(event);
    if key in sessionsByIp {
      OpenKeyIsLast(attackSessions, sessionsByIp, handled, time, key);
    }
    if key !in sessionsByIp || Time(event) - attackSessions[sessionsByIp[key]].lastSeenMs > SESSION_WINDOW_MS {
      OpenedIsGood(attackSessions, sessionsByIp, handled, time, event);
      hide *;
      sessions := attackSessions + [Extended(Started(event), event)];
      open := sessionsByIp[key := |sessions| - 1];
    } else {
      ContinuedIsGood(attackSessions, sessionsByIp, handled, time, event);
      hide Extended;
      var k := sessionsByIp[key];
      sessions := attackSessions[k := Extended(attackSessions[k], event)];
      open := sessionsByIp;
    }
  }

  method Sessionize(ordered: seq<Event>) returns (attackSessions: seq<Session>)
    requires InOrder(ordered)
    ensures Sessionized(attackSessions, ordered)
  {
    var sessionsByIp: map<Key, nat> := map[];
    attackSessions := [];
    ghost var time := if ordered == [] then 0 else Time(ordered[0]);
    assert Good(attackSessions, sessionsByIp, ordered[..0], time);
    hide *;
    var i := 0;
    while i < |ordered|
      invariant 0 <= i <= |ordered|
      invariant Good(attackSessions, sessionsByIp, ordered[..i], time)
      invariant i < |ordered| ==> time <= Time(ordered[i])
    {
      attackSessions, sessionsByIp := HandleEvent(attackSessions, sessionsByIp, ordered[i], ordered[..i], time);
      time := Time(ordered[i]);
      PrefixGrows(ordered, i);
      NextNotEarlier(ordered, i);
      i := i + 1;
    }
    assert ordered[..|ordered|] == ordered;
    GoodGivesSessions(attackSessions, sessionsByIp, ordered, time);
  }

  /** The sessions partition the suspicious events: per key, their timelines one after the
      other are exactly the key's suspicious events in time order. */
  method BuildAttackSessions(events: seq<Event>) returns (attackSessions: seq<Session>)
    ensures Sessionized(attackSessions, SortBy(Suspicious(events), Time))
  {
    InTimeOrder(Suspicious(events));
    attackSessions := Sessionize(SortBy(Suspicious(events), Time));
  }

  // ----- Consequences -----

  lemma {:induction false} MaxRiskIsMax(timeline: seq<Event>)
    requires timeline != [] && forall e <- timeline :: e.risk >= 0
    ensures (forall e <- timeline :: e.risk <= MaxRisk(timeline)) && exists e :: e in timeline && e.risk == MaxRisk(timeline)
  {
    var n := |timeline| - 1;
    assert timeline == timeline[..n] + [timeline[n]];
    assert timeline[n] in timeline;
    if n > 0 {
      MaxRiskIsMax(timeline[..n]);
    }
  }

  lemma SameTimelineSameSession(s: Session, t: Session)
    requires SumsUp(s) && SumsUp(t) && s.timeline == t.timeline != []
    ensures s == t
  {
    assert s.timeline[0] in s.timeline;
  }

  ghost predicate SessionsOf(a: seq<Session>, key: Key) {
    Apart(a) && AllSumUp(a) && forall i :: 0 <= i < |a| ==> a[i].key == key
  }

  lemma SessionsOfInit(a: seq<Session>, key: Key)
    requires SessionsOf(a, key) && a != []
    ensures SessionsOf(a[..|a| - 1], key)
  {}

  /** Two suspicious events of a key that follow each other within five minutes are in one
      session; a longer pause separates them.  So the sessions are the only possible ones. */
  lemma {:induction false} SessionsAreDetermined(a: seq<Session>, b: seq<Session>, key: Key)
    requires SessionsOf(a, key) && SessionsOf(b, key) && Timelines(a, key) == Timelines(b, key)
    ensures a == b
  {
    if a == [] || b == [] {
      NoTimelineNoSession(a, key);
      NoTimelineNoSession(b, key);
    } else {
      var m, n := |a| - 1, |b| - 1;
      LastTimelinesMatch(a, b, key);
      SessionsOfInit(a, key);
      SessionsOfInit(b, key);
      SameTimelineSameSession(a[m], b[n]);
      SessionsAreDetermined(a[..m], b[..n], key);
      assert a == a[..m] + [a[m]] && b == b[..n] + [b[n]];
    }
  }

  lemma NoTimelineNoSession(a: seq<Session>, key: Key)
    requires forall i :: 0 <= i < |a| ==> a[i].timeline != [] && a[i].key == key
    ensures Timelines(a, key) == [] <==> a == []
  {}

  lemma LastTimelinesMatch(a: seq<Session>, b: seq<Session>, key: Key)
    requires a != [] && b != [] && SessionsOf(a, key) && SessionsOf(b, key)
    requires Timelines(a, key) == Timelines(b, key)
    ensures a[|a| - 1].timeline == b[|b| - 1].timeline
    ensures Timelines(a[..|a| - 1], key) == Timelines(b[..|b| - 1], key)
  {
    SessionsOfInit(a, key);
    SessionsOfInit(b, key);
    PauseBeforeLast(a, key);
    PauseBeforeLast(b, key);
    var s, t := a[|a| - 1].timeline, b[|b| - 1].timeline;
    var p, q := Timelines(a[..|a| - 1], key), Timelines(b[..|b| - 1], key);
    InnerGaps(p, s);
    InnerGaps(q, t);
    CutsAgree(p, s, q, t);
  }

  lemma CutsAgree(p: seq<Event>, s: seq<Event>, q: seq<Event>, t: seq<Event>)
    requires p + s == q + t && s != [] && t != []
    requires var all := p + s;
      (forall i :: |p| < i < |all| ==> Time(all[i]) - Time(all[i - 1]) <= 300_000) &&
      (forall i :: |q| < i < |all| ==> Time(all[i]) - Time(all[i - 1]) <= 300_000) &&
      (p != [] ==> Time(all[|p|]) - Time(all[|p| - 1]) > 300_000) &&
      (q != [] ==> Time(all[|q|]) - Time(all[|q| - 1]) > 300_000)
    ensures p == q && s == t
  {
    assert |p| == |q|;
    assert p == (p + s)[..|p|] && q == (q + t)[..|q|];
    assert s == (p + s)[|p|..] && t == (q + t)[|q|..];
  }

  /** Where the last session starts there is a pause, unless it is the first. */
  lemma PauseBeforeLast(a: seq<Session>, key: Key)
    requires a != [] && Apart(a) && forall i :: 0 <= i < |a| ==> a[i].timeline != [] && a[i].key == key
    ensures var all, p := Timelines(a, key), Timelines(a[..|a| - 1], key);
      |p| < |all| && (p != [] ==> Time(all[|p|]) - Time(all[|p| - 1]) > 300_000)
  {
    var m := |a| - 1;
    if m > 0 {
      var init := a[..m];
      assert Timelines(init, key) == Timelines(init[..m - 1], key) + a[m - 1].timeline;
      assert PauseBetween(a[m - 1], a[m]);
    }
  }

  /** Inside a session there is none. */
  lemma InnerGaps(before: seq<Event>, timeline: seq<Event>)
    requires Unbroken(timeline)
    ensures var all := before + timeline;
      forall i :: |before| < i < |all| ==> Time(all[i]) - Time(all[i - 1]) <= 300_000
  {
    var all, n := before + timeline, |before|;
    forall i | n < i < |all|
      ensures Time(all[i]) - Time(all[i - 1]) <= 300_000
    {
      assert 0 <= i - 1 - n < |timeline| - 1 && all[i - 1] == timeline[i - 1 - n];
      assert all[i] == timeline[i - 1 - n + 1];
    }
  }

  function WithKey(sessions: seq<Session>, key: Key): (r: seq<Session>)
    ensures forall i :: 0 <= i < |r| ==> r[i].key == key && r[i] in sessions
  {
    if sessions == [] then []
    else
      var r := WithKey(sessions[..|sessions| - 1], key);
      var s := sessions[|sessions| - 1];
      if s.key == key then r + [s] else r
  }

  lemma {:induction false} WithKeyKeepsTimelines(sessions: seq<Session>, key: Key)
    ensures Timelines(WithKey(sessions, key), key) == Timelines(sessions, key)
  {
    if sessions != [] {
      var n := |sessions| - 1;
      WithKeyKeepsTimelines(sessions[..n], key);
      var r := WithKey(sessions[..n], key);
      assert (r + [sessions[n]])[..|r|] == r;
    }
  }

  lemma {:induction false} WithKeyKeeps(sessions: seq<Session>, key: Key)
    requires Apart(sessions) && AllSumUp(sessions)
    ensures SessionsOf(WithKey(sessions, key), key)
  {
    hide SumsUp, PauseBetween;
    if sessions != [] {
      var n := |sessions| - 1;
      var init, s := sessions[..n], sessions[n];
      WithKeyKeeps(init, key);
      var r := WithKey(init, key);
      forall k | 0 <= k < |r|
        ensures PauseBetween(r[k], s)
      {
        var i :| 0 <= i < n && init[i] == r[k];
        assert PauseBetween(sessions[i], sessions[n]);
      }
    }
  }

  /** Whatever cuts the same events into sessions by these rules gets the same sessions. */
  lemma SessionsAreUnique(a: seq<Session>, b: seq<Session>, handled: seq<Event>, key: Key)
    requires Sessionized(a, handled) && Sessionized(b, handled)
    ensures WithKey(a, key) == WithKey(b, key)
  {
    WithKeyKeeps(a, key);
    WithKeyKeeps(b, key);
    WithKeyKeepsTimelines(a, key);
    WithKeyKeepsTimelines(b, key);
    SessionsAreDetermined(WithKey(a, key), WithKey(b, key), key);
  }
}
