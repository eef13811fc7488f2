/** The bounded memory of handled events: a set for the test and a queue for the eviction,
    kept in step.  Together with the bounded window over the log it makes the monitor handle
    every log entry exactly once. */
module SeenMemory {
  import opened Sequences

  const PROCESSED_EVENT_LIMIT: nat := 5_000
  const MAX_EVENT_LIST_LIMIT: nat := 2_000

  class EventMemory {
    const limit: nat
    var ids: set<string>
    var order: seq<string>
    /** Every id ever accepted. */
    ghost var accepted: seq<string>

    ghost predicate Valid()
      reads this
    {
      order == LastN(accepted, limit) && NoDuplicates(order) &&
      forall id :: id in ids <==> id in order
    }

    constructor (limit: nat)
      ensures Valid() && accepted == [] && this.limit == limit
    {
      this.limit := limit;
      ids, order, accepted := {}, [], [];
    }

    /** True exactly when the id is not among the last `limit` accepted ones. */
    method Remember(id: string) returns (isNew: bool)
      requires Valid()
      modifies this
      ensures Valid()
      ensures isNew <==> id !in LastN(old(accepted), limit)
      ensures accepted == Remembered(old(accepted), limit, id)
    {
      if id in ids {
        return false;
      }
      ids := ids + {id};
      order := order + [id];
      ghost var full := order;
      assert full == LastN(old(accepted), limit) + [id] && NoDuplicates(full);
      while |order| > limit
        invariant order == LastN(full, |order|) && |order| >= Min(limit, |full|) && NoDuplicates(order)
        invariant accepted == old(accepted) && forall x :: x in ids <==> x in order
      {
        DropFirst(order);
        ids := ids - {order[0]};
        order := order[1..];
      }
      accepted := accepted + [id];
      LastNOfLastN(old(accepted), limit, id);
      assert order == LastN(full, limit);
      return true;
    }
  }

  /** What one call does to the list of accepted ids. */
  function Remembered<Id(==)>(accepted: seq<Id>, limit: nat, id: Id): seq<Id> {
    if id in LastN(accepted, limit) then accepted else accepted + [id]
  }

  function RememberAll<Id(==)>(accepted: seq<Id>, limit: nat, ids: seq<Id>): seq<Id>
    decreases |ids|
  {
    if ids == [] then accepted else RememberAll(Remembered(accepted, limit, ids[0]), limit, ids[1..])
  }

  /** Equal ids stand more than `limit` apart in the list of accepted ids. */
  ghost predicate Spaced<Id>(accepted: seq<Id>, limit: nat) {
    forall i, j :: 0 <= i < j < |accepted| && accepted[i] == accepted[j] ==> j - i > limit
  }

  /** Over any sequence of calls, an id is accepted again only after `limit` others. */
  lemma {:induction false} RepeatsAreSpaced<Id>(accepted: seq<Id>, limit: nat, ids: seq<Id>)
    requires Spaced(accepted, limit)
    ensures Spaced(RememberAll(accepted, limit, ids), limit)
    decreases |ids|
  {
    if ids != [] {
      var next := Remembered(accepted, limit, ids[0]);
      forall i | 0 <= i < |accepted| && |next| > |accepted| && next[i] == ids[0]
        ensures |accepted| - i > limit
      {
        LastNMembers(accepted, limit, i);
      }
      RepeatsAreSpaced(next, limit, ids[1..]);
    }
  }

  /** No id is ever missed: every one that comes along has been accepted by then, and what has
      been accepted stays on record. */
  lemma {:induction false} NoneMissed<Id>(accepted: seq<Id>, limit: nat, ids: seq<Id>)
    ensures accepted <= RememberAll(accepted, limit, ids)
    ensures forall k :: 0 <= k < |ids| ==> ids[k] in RememberAll(accepted, limit, ids)
    decreases |ids|
  {
    if ids != [] {
      var next := Remembered(accepted, limit, ids[0]);
      NoneMissed(next, limit, ids[1..]);
      if |accepted| > 0 {
        LastNMembers(accepted, limit, 0);
      }
      assert ids[0] in next;
      var r := RememberAll(accepted, limit, ids);
      forall k | 0 <= k < |ids|
        ensures ids[k] in r
      {
        assert k > 0 ==> ids[k] == ids[1..][k - 1];
        if k == 0 {
          var i :| 0 <= i < |next| && next[i] == ids[0];
          assert r[i] == ids[0];
        }
      }
    }
  }

  // ----- Passes over the log -----

  /** One pass sees the log entries lo..hi; entries have distinct identities, here their
      positions in the log. */
  datatype Window = Window(lo: int, hi: int)

  function Ascending(lo: int, hi: int): (s: seq<int>)
    requires lo <= hi
    ensures |s| == hi - lo && forall i :: 0 <= i < |s| ==> s[i] == lo + i
    decreases hi - lo
  {
    if lo == hi then [] else [lo] + Ascending(lo + 1, hi)
  }

  function Descending(lo: int, hi: int): (s: seq<int>)
    requires lo <= hi
    ensures |s| == hi - lo && forall i :: 0 <= i < |s| ==> s[i] == hi - 1 - i
    decreases hi - lo
  {
    if lo == hi then [] else [hi - 1] + Descending(lo, hi - 1)
  }

  /** Windows are at most MAX_EVENT_LIST_LIMIT entries of a growing log, and never move back. */
  ghost predicate Follows(windows: seq<Window>) {
    (forall i :: 0 <= i < |windows| ==> windows[i].lo <= windows[i].hi <= windows[i].lo + MAX_EVENT_LIST_LIMIT) &&
    forall i, j :: 0 <= i < j < |windows| ==> windows[i].lo <= windows[j].lo && windows[i].hi <= windows[j].hi
  }

  /** The accepted entries after the passes: the first pass runs newest first and only
      primes the memory, the later ones run oldest first. */
  function Passes(windows: seq<Window>): seq<int>
    requires forall i :: 0 <= i < |windows| ==> windows[i].lo <= windows[i].hi
  {
    if windows == [] then []
    else
      var w := windows[|windows| - 1];
      var before := Passes(windows[..|windows| - 1]);
      RememberAll(before, PROCESSED_EVENT_LIMIT, if |windows| == 1 then Descending(w.lo, w.hi) else Ascending(w.lo, w.hi))
  }

  /** The list of accepted entries: the primed ones newest first, then later ones in order. */
  ghost predicate InOrder(accepted: seq<int>, first: Window, hi: int) {
    first.lo <= first.hi && |accepted| >= first.hi - first.lo &&
    (forall i :: 0 <= i < first.hi - first.lo ==> accepted[i] == first.hi - 1 - i) &&
    (forall i :: first.hi - first.lo <= i < |accepted| ==> first.hi <= accepted[i] < hi) &&
    (forall i, j :: first.hi - first.lo <= i < j < |accepted| ==> accepted[i] < accepted[j])
  }

  lemma {:induction false} PrimeAll(accepted: seq<int>, lo: int, hi: int)
    requires lo <= hi && forall x <- accepted :: x >= hi
    ensures RememberAll(accepted, PROCESSED_EVENT_LIMIT, Descending(lo, hi)) == accepted + Descending(lo, hi)
    decreases hi - lo
  {
    if lo < hi {
      assert forall x <- LastN(accepted, PROCESSED_EVENT_LIMIT) :: x in accepted;
      PrimeAll(accepted + [hi - 1], lo, hi - 1);
      AppendAssociates(accepted, [hi - 1], Descending(lo, hi - 1));
      assert Descending(lo, hi)[1..] == Descending(lo, hi - 1);
    } else {
      assert accepted + [] == accepted;
    }
  }

  /** Entries later than all accepted ones are accepted, in order. */
  lemma {:induction false} TakeNew(accepted: seq<int>, lo: int, hi: int)
    requires lo <= hi && forall x <- accepted :: x < lo
    ensures RememberAll(accepted, PROCESSED_EVENT_LIMIT, Ascending(lo, hi)) == accepted + Ascending(lo, hi)
    decreases hi - lo
  {
    if lo < hi {
      assert forall x <- LastN(accepted, PROCESSED_EVENT_LIMIT) :: x in accepted;
      TakeNew(accepted + [lo], lo + 1, hi);
      AppendAssociates(accepted, [lo], Ascending(lo + 1, hi));
      assert Ascending(lo, hi)[1..] == Ascending(lo + 1, hi);
    } else {
      assert accepted + [] == accepted;
    }
  }

  lemma {:induction false} TailGap(accepted: seq<int>, first: Window, hi: int, i: nat, j: nat)
    requires InOrder(accepted, first, hi) && first.hi - first.lo <= i <= j < |accepted|
    ensures accepted[j] - accepted[i] >= j - i
    decreases j - i
  {
    if i < j {
      TailGap(accepted, first, hi, i, j - 1);
    }
  }

  /** An entry of the new window that was accepted before is still in the memory. */
  lemma StillRemembered(accepted: seq<int>, first: Window, hi: int, entry: int, lo: int)
    requires InOrder(accepted, first, hi) && first.hi <= first.lo + MAX_EVENT_LIST_LIMIT
    requires lo <= entry < hi <= lo + MAX_EVENT_LIST_LIMIT && entry in accepted
    ensures entry in LastN(accepted, PROCESSED_EVENT_LIMIT)
  {
    var i :| 0 <= i < |accepted| && accepted[i] == entry;
    var k, n := first.hi - first.lo, |accepted|;
    if i < n - 1 && k <= n - 1 {
      TailGap(accepted, first, hi, Max(i, k), n - 1);
    }
    assert n - i <= PROCESSED_EVENT_LIMIT;
    LastNMembers(accepted, PROCESSED_EVENT_LIMIT, i);
  }

  /** A pass accepts exactly the entries that came after the previous window. */
  lemma {:induction false} PassTakesNew(accepted: seq<int>, hi: int, lo: int, hi': int)
    requires lo <= hi' && hi <= hi' && forall x <- accepted :: x < hi
    requires forall x :: lo <= x < hi ==> x in LastN(accepted, PROCESSED_EVENT_LIMIT)
    ensures RememberAll(accepted, PROCESSED_EVENT_LIMIT, Ascending(lo, hi')) == accepted + Ascending(Max(lo, hi), hi')
    decreases hi' - lo
  {
    if lo >= hi {
      TakeNew(accepted, lo, hi');
    } else {
      PassTakesNew(accepted, hi, lo + 1, hi');
      assert Ascending(lo, hi')[1..] == Ascending(lo + 1, hi');
      assert lo in LastN(accepted, PROCESSED_EVENT_LIMIT);
    }
  }

  /** Entry x came into one of the windows. */
  ghost predicate Entered(windows: seq<Window>, x: int) {
    exists i :: 0 <= i < |windows| && windows[i].lo <= x < windows[i].hi
  }

  lemma AscendingHas(lo: int, hi: int, x: int)
    requires lo <= hi
    ensures x in Ascending(lo, hi) <==> lo <= x < hi
    ensures x in Descending(lo, hi) <==> lo <= x < hi
  {
    if lo <= x < hi {
      assert Ascending(lo, hi)[x - lo] == x;
      assert Descending(lo, hi)[hi - 1 - x] == x;
    }
  }

  lemma FirstPass(w: Window)
    requires w.lo <= w.hi
    ensures Passes([w]) == Descending(w.lo, w.hi)
    ensures InOrder(Passes([w]), w, w.hi)
  {
    assert [w][..0] == [];
    PrimeAll([], w.lo, w.hi);
    assert [] + Descending(w.lo, w.hi) == Descending(w.lo, w.hi);
  }

  lemma ExtendInOrder(accepted: seq<int>, first: Window, hi: int, lo: int, hi': int)
    requires InOrder(accepted, first, hi) && first.hi <= hi <= hi' && lo <= hi'
    ensures InOrder(accepted + Ascending(Max(lo, hi), hi'), first, hi')
  {}

  /** After each pass the accepted entries are in order, and are those of all windows. */
  lemma {:induction false} PassesInOrder(windows: seq<Window>)
    requires windows != [] && Follows(windows)
    ensures InOrder(Passes(windows), windows[0], windows[|windows| - 1].hi)
    ensures windows[0].hi <= windows[|windows| - 1].hi
    ensures forall x: int :: x in Passes(windows) <==> Entered(windows, x)
  {
    var n := |windows|;
    var w := windows[n - 1];
    if n == 1 {
      assert windows == [w];
      FirstPass(w);
      forall x: int
        ensures x in Passes(windows) <==> Entered(windows, x)
      {
        AscendingHas(w.lo, w.hi, x);
      }
    } else {
      var before, v := windows[..n - 1], windows[n - 2];
      var accepted := Passes(before);
      PassesInOrder(before);
      forall x: int | w.lo <= x < v.hi
        ensures x in LastN(accepted, PROCESSED_EVENT_LIMIT)
      {
        assert before[n - 2].lo <= x < before[n - 2].hi;
        StillRemembered(accepted, windows[0], v.hi, x, w.lo);
      }
      PassTakesNew(accepted, v.hi, w.lo, w.hi);
      ExtendInOrder(accepted, windows[0], v.hi, w.lo, w.hi);
      forall x: int
        ensures x in Passes(windows) <==> Entered(windows, x)
      {
        AscendingHas(Max(w.lo, v.hi), w.hi, x);
        EnteredLast(windows, x);
        EnteredLast(before, x);
      }
    }
  }

  lemma EnteredLast(windows: seq<Window>, x: int)
    requires windows != []
    ensures var w := windows[|windows| - 1];
      Entered(windows, x) <==> Entered(windows[..|windows| - 1], x) || w.lo <= x < w.hi
  {
    var before, w := windows[..|windows| - 1], windows[|windows| - 1];
    if Entered(before, x) {
      var i :| 0 <= i < |before| && before[i].lo <= x < before[i].hi;
      assert windows[i].lo <= x < windows[i].hi;
    }
  }

  /** Over any run of passes, every log entry that enters a window is handled exactly once:
      none twice, and none missed. */
  lemma EachEntryHandledOnce(windows: seq<Window>)
    requires windows != [] && Follows(windows)
    ensures NoDuplicates(Passes(windows))
    ensures forall x: int :: x in Passes(windows) <==> Entered(windows, x)
  {
    PassesInOrder(windows);
  }
}
