/** The sliding-window analyser: for each event, counts over the last 60 seconds of requests
    from its address.  The source keeps the counts up to date with two pointers over the
    events of one address; they are proved equal to counts taken afresh over all events. */
module RequestWindow {
  import opened Sequences
  import opened Sorting
  import opened Timestamps

  const REQUEST_CONTEXT_WINDOW_MS: int := 60_000

  datatype Event = Event(ip: string, timestamp: Stamp, status: int, path: string)

  /** An event with its position in the input and its base automation risk. */
  datatype Item = Item(index: int, event: Event, automationRisk: int)

  datatype Context = Context(requests: int, denied: int, missing: int, uniquePaths: int, suspiciousPaths: int)

  datatype Kind = Any | Denied | Missing | Suspicious

  predicate Matches(x: Item, kind: Kind) {
    match kind
    case Any => true
    case Denied => x.event.status == 401 || x.event.status == 403
    case Missing => x.event.status == 404
    case Suspicious => x.automationRisk >= 30
  }

  /** Events without an address or a readable time are not analysed. */
  predicate Analysed(x: Item) {
    x.event.ip != "" && ParseTimestamp(x.event.timestamp).Some?
  }

  function Time(x: Item): int {
    ParseTimestamp(x.event.timestamp).GetOr(0)
  }

  predicate Earlier(x: Item, y: Item) {
    Time(x) < Time(y) || (Time(x) == Time(y) && x.index < y.index)
  }

  // ----- The direct definition -----

  /** Item x is in the window of item y: the same address, not later in (time, index) order,
      and at most 60 seconds older. */
  predicate InWindow(y: Item, x: Item) {
    Analysed(x) && x.event.ip == y.event.ip && !Earlier(y, x) && Time(y) - Time(x) <= 60_000
  }

  ghost function WindowOf(all: seq<Item>, y: Item): set<Item> {
    set x | x in all && InWindow(y, x)
  }

  ghost function Chosen(w: set<Item>, kind: Kind): set<Item> {
    set x | x in w && Matches(x, kind)
  }

  ghost function PathsOf(w: set<Item>, kind: Kind): set<string> {
    set x | x in w && Matches(x, kind) :: x.event.path
  }

  /** The counts over the whole input, taken afresh for one event. */
  ghost function DirectContext(all: seq<Item>, y: Item): Context {
    var w := WindowOf(all, y);
    Context(|w|, |Chosen(w, Denied)|, |Chosen(w, Missing)|, |PathsOf(w, Any)|, |PathsOf(w, Suspicious)|)
  }

  /** The same from scratch: of the events of the address with a readable time, those not later
      and at most a minute older, in the order of time and, at one time, of the list. */
  ghost function EventsBefore(all: seq<Item>, y: Item): set<Item> {
    set x | x in all && x.event.ip == y.event.ip != "" && x.event.timestamp != Unreadable &&
      0 <= Moment(y) - Moment(x) <= 60_000 && (Moment(x) == Moment(y) ==> x.index <= y.index)
  }

  /** Null is read as the epoch. */
  function Moment(x: Item): int {
    if x.event.timestamp.At? then x.event.timestamp.ms else 0
  }

  /** How many there are, how many were refused, how many asked for what is not there, and how many
      paths, and suspicious paths, they name. */
  ghost function CountedAfresh(all: seq<Item>, y: Item): Context {
    var w := EventsBefore(all, y);
    Context(|w|, |set x | x in w && x.event.status in {401, 403}|, |set x | x in w && x.event.status == 404|,
      |set x | x in w :: x.event.path|, |set x | x in w && x.automationRisk >= 30 :: x.event.path|)
  }

  lemma CountsAgree(all: seq<Item>, y: Item)
    requires Analysed(y)
    ensures DirectContext(all, y) == CountedAfresh(all, y)
  {
    var w := WindowOf(all, y);
    assert w == EventsBefore(all, y);
    assert Chosen(w, Denied) == set x | x in w && x.event.status in {401, 403};
    assert Chosen(w, Missing) == set x | x in w && x.event.status == 404;
    assert PathsOf(w, Any) == set x | x in w :: x.event.path;
    assert PathsOf(w, Suspicious) == set x | x in w && x.automationRisk >= 30 :: x.event.path;
  }

  lemma AllCountsAgree(all: seq<Item>, contexts: map<int, Context>)
    requires forall i :: i in contexts <==> 0 <= i < |all| && Analysed(all[i])
    requires forall i <- contexts :: contexts[i] == DirectContext(all, all[i])
    ensures forall i :: i in contexts <==> 0 <= i < |all| && all[i].event.ip != "" && all[i].event.timestamp != Unreadable
    ensures forall i <- contexts :: contexts[i] == CountedAfresh(all, all[i])
  {
    hide DirectContext, CountedAfresh;
    forall i | i in contexts
      ensures contexts[i] == CountedAfresh(all, all[i])
    {
      CountsAgree(all, all[i]);
    }
  }

  // ----- Counting over a list of items -----

  ghost function One(x: Item, kind: Kind): multiset<string> {
    if Matches(x, kind) then multiset{x.event.path} else multiset{}
  }

  /** The paths of the matching items of a list, each as often as it occurs. */
  ghost function Bag(items: seq<Item>, kind: Kind): multiset<string> {
    if items == [] then multiset{} else One(items[0], kind) + Bag(items[1..], kind)
  }

  lemma {:induction false} BagAppend(items: seq<Item>, x: Item, kind: Kind)
    ensures Bag(items + [x], kind) == Bag(items, kind) + One(x, kind)
  {
    if items == [] {
      assert items + [x] == [x];
      assert Bag([x][1..], kind) == multiset{};
    } else {
      BagAppend(items[1..], x, kind);
      assert (items + [x])[1..] == items[1..] + [x];
    }
  }

  lemma {:induction false} BagSize(items: seq<Item>)
    ensures |Bag(items, Any)| == |items|
  {
    if items != [] {
      BagSize(items[1..]);
    }
  }

  lemma ChosenGrows(rest: set<Item>, x: Item, kind: Kind)
    requires x !in rest
    ensures |Chosen(rest + {x}, kind)| == |Chosen(rest, kind)| + if Matches(x, kind) then 1 else 0
  {
    assert Chosen(rest + {x}, kind) == Chosen(rest, kind) + if Matches(x, kind) then {x} else {};
  }

  lemma PathsGrow(rest: set<Item>, x: Item, kind: Kind, p: string)
    ensures p in PathsOf(rest + {x}, kind) <==> p in PathsOf(rest, kind) || (Matches(x, kind) && p == x.event.path)
  {
    if p in PathsOf(rest, kind) {
      var y :| y in rest && Matches(y, kind) && y.event.path == p;
      assert y in rest + {x};
    }
    if Matches(x, kind) && p == x.event.path {
      assert x in rest + {x};
    }
  }

  /** Counting over a list without repetitions counts over the set of its elements. */
  lemma {:induction false} BagCountsSet(items: seq<Item>, w: set<Item>, kind: Kind)
    requires NoDuplicates(items) && forall x :: x in items <==> x in w
    ensures |Bag(items, kind)| == |Chosen(w, kind)|
  {
    if items == [] {
      assert w == {};
    } else {
      var x, rest := items[0], w - {items[0]};
      DropFirst(items);
      BagCountsSet(items[1..], rest, kind);
      assert w == rest + {x};
      ChosenGrows(rest, x, kind);
    }
  }

  lemma {:induction false} BagHoldsPaths(items: seq<Item>, w: set<Item>, kind: Kind, p: string)
    requires NoDuplicates(items) && forall x :: x in items <==> x in w
    ensures p in Bag(items, kind) <==> p in PathsOf(w, kind)
  {
    if items == [] {
      assert w == {};
    } else {
      var x, rest := items[0], w - {items[0]};
      DropFirst(items);
      BagHoldsPaths(items[1..], rest, kind, p);
      assert w == rest + {x};
      PathsGrow(rest, x, kind, p);
    }
  }

  // ----- The counters of the window -----

  ghost function Number(items: seq<Item>, kind: Kind): nat {
    |Bag(items, kind)|
  }

  /** The count map holds each path of the matching items with its number, and no other path. */
  ghost predicate Tracks(counts: map<string, int>, items: seq<Item>, kind: Kind) {
    Represents(counts, Bag(items, kind))
  }

  ghost predicate Represents(counts: map<string, int>, bag: multiset<string>) {
    forall p :: (p in counts <==> p in bag) && (p in counts ==> counts[p] == bag[p])
  }

  function CountUp(counts: map<string, int>, path: string): map<string, int> {
    counts[path := (if path in counts then counts[path] else 0) + 1]
  }

  function CountDown(counts: map<string, int>, path: string): map<string, int> {
    var left := (if path in counts then counts[path] else 0) - 1;
    if left <= 0 then counts - {path} else counts[path := left]
  }

  lemma CountUpRepresents(counts: map<string, int>, bag: multiset<string>, path: string)
    requires Represents(counts, bag)
    ensures Represents(CountUp(counts, path), bag + multiset{path})
  {}

  lemma CountDownRepresents(counts: map<string, int>, bag: multiset<string>, path: string)
    requires Represents(counts, multiset{path} + bag)
    ensures Represents(CountDown(counts, path), bag)
  {
    assert path in multiset{path} + bag;
  }

  lemma TracksAppend(counts: map<string, int>, items: seq<Item>, x: Item, kind: Kind)
    requires Tracks(counts, items, kind)
    ensures Tracks(if Matches(x, kind) then CountUp(counts, x.event.path) else counts, items + [x], kind)
  {
    BagAppend(items, x, kind);
    CountUpRepresents(counts, Bag(items, kind), x.event.path);
  }

  lemma TracksRemove(counts: map<string, int>, items: seq<Item>, kind: Kind)
    requires items != [] && Tracks(counts, items, kind)
    ensures Tracks(if Matches(items[0], kind) then CountDown(counts, items[0].event.path) else counts, items[1..], kind)
  {
    if Matches(items[0], kind) {
      CountDownRepresents(counts, Bag(items[1..], kind), items[0].event.path);
    } else {
      assert Bag(items, kind) == Bag(items[1..], kind);
    }
  }

  lemma NumberAppend(items: seq<Item>, x: Item, kind: Kind)
    ensures Number(items + [x], kind) == Number(items, kind) + if Matches(x, kind) then 1 else 0
  {
    BagAppend(items, x, kind);
  }

  lemma NumberRemove(items: seq<Item>, kind: Kind)
    requires items != []
    ensures Number(items, kind) == Number(items[1..], kind) + if Matches(items[0], kind) then 1 else 0
  {}

  class WindowCounters {
    var denied: int
    var missing: int
    var pathCounts: map<string, int>
    var suspiciousPathCounts: map<string, int>
    /** The items of the window, oldest first. */
    ghost var items: seq<Item>
    /** Everything that ever entered the window, and what has left it. */
    ghost var entered: seq<Item>
    ghost var gone: seq<Item>

    ghost predicate Valid()
      reads this
    {
      entered == gone + items &&
      denied == Number(items, Denied) && missing == Number(items, Missing) &&
      Tracks(pathCounts, items, Any) && Tracks(suspiciousPathCounts, items, Suspicious)
    }

    constructor ()
      ensures Valid() && items == entered == gone == []
    {
      denied, missing, pathCounts, suspiciousPathCounts := 0, 0, map[], map[];
      items, entered, gone := [], [], [];
    }

    method AddToWindow(x: Item)
      requires Valid()
      modifies this
      ensures Valid() && items == old(items) + [x]
      ensures entered == old(entered) + [x] && gone == old(gone)
    {
      hide Bag, Number, Tracks, CountUp;
      TracksAppend(pathCounts, items, x, Any);
      TracksAppend(suspiciousPathCounts, items, x, Suspicious);
      NumberAppend(items, x, Denied);
      NumberAppend(items, x, Missing);
      AppendAssociates(gone, items, [x]);
      items, entered := items + [x], entered + [x];
      if x.event.status == 401 || x.event.status == 403 {
        denied := denied + 1;
      }
      if x.event.status == 404 {
        missing := missing + 1;
      }
      pathCounts := CountUp(pathCounts, x.event.path);
      if x.automationRisk >= 30 {
        suspiciousPathCounts := CountUp(suspiciousPathCounts, x.event.path);
      }
    }

    /** Takes the oldest item out of the window. */
    method RemoveFromWindow(x: Item)
      requires Valid() && items != [] && items[0] == x
      modifies this
      ensures Valid() && items == old(items)[1..]
      ensures gone == old(gone) + [x] && entered == old(entered)
    {
      hide Bag, Number, Tracks, CountDown;
      TracksRemove(pathCounts, items, Any);
      TracksRemove(suspiciousPathCounts, items, Suspicious);
      NumberRemove(items, Denied);
      NumberRemove(items, Missing);
      AppendAssociates(gone, [x], items[1..]);
      assert items == [x] + items[1..];
      items, gone := items[1..], gone + [x];
      if x.event.status == 401 || x.event.status == 403 {
        denied := denied - 1;
      }
      if x.event.status == 404 {
        missing := missing - 1;
      }
      pathCounts := CountDown(pathCounts, x.event.path);
      if x.automationRisk >= 30 {
        suspiciousPathCounts := CountDown(suspiciousPathCounts, x.event.path);
      }
    }
  }

  // ----- The two-pointer pass over the items of one address -----

  ghost predicate Sorted(list: seq<Item>) {
    forall i, j :: 0 <= i < j < |list| ==> Earlier(list[i], list[j])
  }

  /** All analysed items of one address, in strict (time, index) order. */
  ghost predicate IsTimeline(all: seq<Item>, list: seq<Item>, ip: string) {
    Sorted(list) && forall x :: x in list <==> x in all && Analysed(x) && x.event.ip == ip
  }

  /** Every pair of a skipped item and one still to come is more than the window apart. */
  ghost predicate Skipped(list: seq<Item>, start: nat, end: nat)
    requires start <= |list|
  {
    forall k, e :: 0 <= k < start && end <= e < |list| ==> Time(list[e]) - Time(list[k]) > REQUEST_CONTEXT_WINDOW_MS
  }

  lemma SkipStep(list: seq<Item>, start: nat, end: nat)
    requires Sorted(list) && start <= end < |list| && Skipped(list, start, end)
    ensures Skipped(list, start, end + 1)
    ensures Time(list[end]) - Time(list[start]) > REQUEST_CONTEXT_WINDOW_MS ==> start < end && Skipped(list, start + 1, end)
  {}

  /** The part of the list between the pointers is the window of the item at its end. */
  lemma SliceIsWindow(all: seq<Item>, list: seq<Item>, ip: string, start: nat, end: nat)
    requires IsTimeline(all, list, ip) && start <= end < |list|
    requires Skipped(list, start, end)
    requires Time(list[end]) - Time(list[start]) <= REQUEST_CONTEXT_WINDOW_MS
    ensures NoDuplicates(list[start..end + 1])
    ensures forall x :: x in list[start..end + 1] <==> x in WindowOf(all, list[end])
  {
    var y, slice := list[end], list[start..end + 1];
    assert y in list;
    forall x
      ensures x in slice <==> x in WindowOf(all, y)
    {
      if x in slice {
        var k :| 0 <= k < |slice| && slice[k] == x;
        assert list[start + k] == x && x in list;
      }
      if x in WindowOf(all, y) {
        assert x in list;
        var k :| 0 <= k < |list| && list[k] == x;
        assert start <= k <= end;
        assert slice[k - start] == x;
      }
    }
  }

  lemma TracksSize(counts: map<string, int>, items: seq<Item>, kind: Kind, w: set<Item>)
    requires Tracks(counts, items, kind) && NoDuplicates(items) && forall x :: x in items <==> x in w
    ensures |counts| == |PathsOf(w, kind)|
  {
    forall p
      ensures p in counts.Keys <==> p in PathsOf(w, kind)
    {
      BagHoldsPaths(items, w, kind, p);
    }
    assert counts.Keys == PathsOf(w, kind);
  }

  lemma CountersGiveContext(c: WindowCounters, all: seq<Item>, y: Item)
    requires c.Valid() && NoDuplicates(c.items) && forall x :: x in c.items <==> x in WindowOf(all, y)
    ensures DirectContext(all, y) ==
      Context(|c.items|, c.denied, c.missing, |c.pathCounts|, |c.suspiciousPathCounts|)
  {
    var w := WindowOf(all, y);
    BagCountsSet(c.items, w, Any);
    BagCountsSet(c.items, w, Denied);
    BagCountsSet(c.items, w, Missing);
    TracksSize(c.pathCounts, c.items, Any, w);
    TracksSize(c.suspiciousPathCounts, c.items, Suspicious, w);
    BagSize(c.items);
    assert Chosen(w, Any) == w;
  }

  lemma NothingSkipped(all: seq<Item>, list: seq<Item>, ip: string)
    requires IsTimeline(all, list, ip)
    ensures Skipped(list, 0, 0) && Sorted(list)
  {}

  lemma SliceGrows(list: seq<Item>, start: nat, end: nat)
    requires start <= end < |list|
    ensures list[start..end] + [list[end]] == list[start..end + 1]
  {}

  lemma SliceShrinks(list: seq<Item>, start: nat, end: nat)
    requires start < end <= |list|
    ensures list[start..end] != [] && list[start..end][0] == list[start] && list[start..end][1..] == list[start + 1..end]
  {}

  /** The contexts of one address.  Every item enters the window exactly once, in order, and a
      part of them from the oldest on leaves it, each once. */
  method AnalyseTimeline(ghost all: seq<Item>, list: seq<Item>, ghost ip: string)
    returns (contexts: seq<Context>, ghost entered: seq<Item>, ghost gone: seq<Item>)
    requires IsTimeline(all, list, ip)
    ensures entered == list && gone <= list
    ensures |contexts| == |list|
    ensures forall e :: 0 <= e < |list| ==> contexts[e] == DirectContext(all, list[e])
  {
    hide DirectContext, Tracks, Number, WindowOf, NoDuplicates, Earlier, Analysed, Skipped, Sorted, IsTimeline, Bag, Matches;
    NothingSkipped(all, list, ip);
    contexts := [];
    var counters := new WindowCounters();
    var startIndex, endIndex := 0, 0;
    while endIndex < |list|
      invariant 0 <= startIndex <= endIndex <= |list| && |contexts| == endIndex
      invariant counters.Valid() && counters.items == list[startIndex..endIndex]
      invariant counters.gone == list[..startIndex]
      invariant Skipped(list, startIndex, endIndex)
      invariant forall e :: 0 <= e < endIndex ==> contexts[e] == DirectContext(all, list[e])
    {
      var current := list[endIndex];
      counters.AddToWindow(current);
      SliceGrows(list, startIndex, endIndex);
      while startIndex <= endIndex && Time(current) - Time(list[startIndex]) > REQUEST_CONTEXT_WINDOW_MS
        invariant 0 <= startIndex <= endIndex
        invariant counters.Valid() && counters.items == list[startIndex..endIndex + 1]
        invariant counters.gone == list[..startIndex]
        invariant Skipped(list, startIndex, endIndex)
      {
        SkipStep(list, startIndex, endIndex);
        SliceShrinks(list, startIndex, endIndex + 1);
        counters.RemoveFromWindow(list[startIndex]);
        PrefixGrows(list, startIndex);
        startIndex := startIndex + 1;
      }
      SkipStep(list, startIndex, endIndex);
      SliceIsWindow(all, list, ip, startIndex, endIndex);
      CountersGiveContext(counters, all, current);
      contexts := contexts + [Context(endIndex - startIndex + 1, counters.denied, counters.missing,
        |counters.pathCounts|, |counters.suspiciousPathCounts|)];
      endIndex := endIndex + 1;
    }
    entered, gone := counters.entered, counters.gone;
    assert list[..startIndex] + list[startIndex..endIndex] == list;
  }

  // ----- All addresses -----

  /** The items in input order, each at its own index. */
  ghost predicate Indexed(all: seq<Item>) {
    forall k :: 0 <= k < |all| ==> all[k].index == k
  }

  /** The events as analysed: each with its index and its base automation risk. */
  function Analyse(events: seq<Event>, baseAutomationRisk: Event -> int): (all: seq<Item>)
    ensures Indexed(all) && |all| == |events|
  {
    seq(|events|, i requires 0 <= i < |events| => Item(i, events[i], baseAutomationRisk(events[i])))
  }

  /** The items of one address, in input order, put into time order. */
  function Timeline(items: seq<Item>, ip: string): seq<Item> {
    SortBy(SameAddress(items, ip), Time)
  }

  function SameAddress(items: seq<Item>, ip: string): (r: seq<Item>)
    ensures forall x :: x in r <==> x in items && Analysed(x) && x.event.ip == ip
  {
    if items == [] then []
    else
      var last := items[|items| - 1];
      var r := SameAddress(items[..|items| - 1], ip);
      if Analysed(last) && last.event.ip == ip then r + [last] else r
  }

  lemma {:induction false} SameAddressInOrder(items: seq<Item>, ip: string)
    requires forall i, j :: 0 <= i < j < |items| ==> items[i].index < items[j].index
    ensures Pairwise(SameAddress(items, ip), (x: Item, y: Item) => x.index < y.index)
  {
    if items != [] {
      var init := items[..|items| - 1];
      SameAddressInOrder(init, ip);
      forall x | x in SameAddress(init, ip)
        ensures x.index < items[|items| - 1].index
      {
        assert x in init;
      }
    }
  }

  lemma TimelineIsTimeline(all: seq<Item>, ip: string)
    requires Indexed(all)
    ensures IsTimeline(all, Timeline(all, ip), ip)
  {
    var inOrder := (x: Item, y: Item) => x.index < y.index;
    SameAddressInOrder(all, ip);
    SortIsStable(SameAddress(all, ip), Time, inOrder);
    SameMembers(SameAddress(all, ip), Time);
  }

  lemma SameAddressGrows(all: seq<Item>, i: nat)
    requires i < |all|
    ensures forall ip ::
      var before, after := SameAddress(all[..i], ip), SameAddress(all[..i + 1], ip);
      after == if Analysed(all[i]) && all[i].event.ip == ip then before + [all[i]] else before
  {
    assert all[..i + 1][..i] == all[..i];
  }

  lemma NoneTwice()
    ensures NoDuplicates<string>([])
  {}

  /** The analysed items of each address, and the addresses in the order they are first met. */
  method GroupByAddress(all: seq<Item>) returns (eventsByIp: map<string, seq<Item>>, addresses: seq<string>)
    ensures NoDuplicates(addresses) && forall ip :: ip in addresses <==> ip in eventsByIp
    ensures forall ip <- eventsByIp :: eventsByIp[ip] == SameAddress(all, ip)
    ensures forall x <- all :: Analysed(x) ==> x.event.ip in eventsByIp
  {
    hide SameAddress, Analysed, NoDuplicates;
    eventsByIp, addresses := map[], [];
    NoneTwice();
    var i := 0;
    while i < |all|
      invariant 0 <= i <= |all|
      invariant NoDuplicates(addresses) && forall ip :: ip in addresses <==> ip in eventsByIp
      invariant forall ip <- eventsByIp :: eventsByIp[ip] == SameAddress(all[..i], ip)
      invariant forall k :: 0 <= k < i && Analysed(all[k]) ==> all[k].event.ip in eventsByIp
    {
      var item := all[i];
      SameAddressGrows(all, i);
      if Analysed(item) {
        var ip := item.event.ip;
        var list := if ip in eventsByIp then eventsByIp[ip] else [];
        if ip !in eventsByIp {
          NoneYet(all[..i], ip);
          AppendDistinct(addresses, ip);
          addresses := addresses + [ip];
        }
        eventsByIp := eventsByIp[ip := list + [item]];
      }
      i := i + 1;
    }
    assert all[..|all|] == all;
  }

  /** The contexts of all analysed events, keyed by their index. */
  method WindowContexts(all: seq<Item>) returns (contextByIndex: map<int, Context>)
    requires Indexed(all)
    ensures forall i :: i in contextByIndex <==>
      0 <= i < |all| && all[i].event.ip != "" && all[i].event.timestamp != Unreadable
    ensures forall i <- contextByIndex :: contextByIndex[i] == CountedAfresh(all, all[i])
  {
    hide DirectContext, CountedAfresh, IsTimeline;
    var eventsByIp, addresses := GroupByAddress(all);
    contextByIndex := map[];
    var a := 0;
    while a < |addresses|
      invariant 0 <= a <= |addresses|
      invariant forall i :: i in contextByIndex <==> 0 <= i < |all| && Analysed(all[i]) && all[i].event.ip in addresses[..a]
      invariant forall i <- contextByIndex :: contextByIndex[i] == DirectContext(all, all[i])
    {
      var ip := addresses[a];
      var list := SortBy(eventsByIp[ip], Time);
      TimelineIsTimeline(all, ip);
      var contexts, _, _ := AnalyseTimeline(all, list, ip);
      contextByIndex := Record(contextByIndex, all, list, ip, contexts);
      assert addresses[..a + 1] == addresses[..a] + [ip];
      a := a + 1;
    }
    assert addresses[..|addresses|] == addresses;
    AllCountsAgree(all, contextByIndex);
  }

  /** The contexts of the events of a batch, by their position. */
  method EnrichEvents(events: seq<Event>, baseAutomationRisk: Event -> int) returns (contextByIndex: map<int, Context>)
    ensures var all := Analyse(events, baseAutomationRisk);
      (forall i :: i in contextByIndex <==> 0 <= i < |events| && events[i].ip != "" && events[i].timestamp != Unreadable) &&
      forall i <- contextByIndex :: contextByIndex[i] == CountedAfresh(all, all[i])
  {
    hide CountedAfresh;
    contextByIndex := WindowContexts(Analyse(events, baseAutomationRisk));
  }

  lemma NoneYet(items: seq<Item>, ip: string)
    requires forall x <- items :: Analysed(x) ==> x.event.ip != ip
    ensures SameAddress(items, ip) == []
  {
    HasElement(SameAddress(items, ip));
  }

  /** Stores the contexts of one address under the indices of its items. */
  method Record(known: map<int, Context>, ghost all: seq<Item>, list: seq<Item>, ghost ip: string, contexts: seq<Context>)
    returns (r: map<int, Context>)
    requires Indexed(all) && IsTimeline(all, list, ip) && |contexts| == |list|
    requires forall e :: 0 <= e < |list| ==> contexts[e] == DirectContext(all, list[e])
    ensures forall i :: i in r <==> i in known || (0 <= i < |all| && Analysed(all[i]) && all[i].event.ip == ip)
    ensures forall i <- r ::
      if 0 <= i < |all| && Analysed(all[i]) && all[i].event.ip == ip then r[i] == DirectContext(all, all[i])
      else i in known && r[i] == known[i]
  {
    r := known;
    var e := 0;
    while e < |list|
      invariant 0 <= e <= |list|
      invariant forall i :: i in r <==> i in known || (0 <= i < |all| && all[i] in list[..e])
      invariant forall i <- r ::
        if 0 <= i < |all| && all[i] in list[..e] then r[i] == DirectContext(all, all[i]) else i in known && r[i] == known[i]
    {
      var x := list[e];
      assert x in list;
      assert all[x.index] == x;
      assert list[..e + 1] == list[..e] + [x];
      r := r[x.index := contexts[e]];
      e := e + 1;
    }
    assert list[..|list|] == list;
  }
}
