/** The store of adaptive challenges: an address has at most one, nginx holds back exactly the
    challenged addresses, and a challenge ends by proof of work, expiry or removal. */
module Challenges {
  import opened Wrappers
  import opened Sequences
  import opened Arithmetic
  import opened Addresses
  import opened ProofOfWork

  const MAX_CHALLENGES: nat := 5000
  const DEFAULT_DURATION_MINUTES: int := 10
  const DEFAULT_DIFFICULTY: int := 14
  const MAX_VERIFY_COUNTER: int := 50_000_000
  const MAX_VERIFY_ATTEMPTS: nat := 25

  datatype Challenge = Challenge(id: int, ip: Address, nonce: string, difficulty: int, attempts: nat, expiresAt: int)

  /** What a caller asks for.  An unusable address is given as none, an unusable number as 0. */
  datatype Item = Item(ip: Option<Address>, minutes: int, difficulty: int)

  /** A random id and nonce for a new challenge. */
  datatype Ticket = Ticket(id: int, nonce: string)

  datatype Error = InvalidAddress | TooMany | NotFound | InvalidCounter | AttemptsExhausted | NotApplied

  /** The hash of a challenge's id, its nonce and a counter. */
  type Digest = (int, string, int) -> seq<Byte>

  function NewChallenge(item: Item, ticket: Ticket, now: int): (c: Challenge)
    requires item.ip.Some?
    ensures 10 <= c.difficulty <= 22 && (10 <= item.difficulty <= 22 ==> c.difficulty == item.difficulty)
    ensures now + 60_000 <= c.expiresAt <= now + 120 * 60_000 && (1 <= item.minutes <= 120 ==> c.expiresAt == now + item.minutes * 60_000)
    ensures (item.difficulty == 0 ==> c.difficulty == 14) && (item.minutes == 0 ==> c.expiresAt == now + 600_000)
    ensures Some(c.ip) == item.ip && c.id == ticket.id && c.nonce == ticket.nonce && c.attempts == 0
  {
    var minutes := Clamp(if item.minutes == 0 then DEFAULT_DURATION_MINUTES else item.minutes, 1, 120);
    var difficulty := Clamp(if item.difficulty == 0 then DEFAULT_DIFFICULTY else item.difficulty, 10, 22);
    Challenge(ticket.id, item.ip.value, ticket.nonce, difficulty, 0, now + minutes * 60_000)
  }

  function Active(challenges: seq<Challenge>, now: int): (r: seq<Challenge>)
    ensures forall c :: c in r <==> c in challenges && c.expiresAt > now
    ensures |r| <= |challenges|
    ensures |r| == |challenges| ==> r == challenges
  {
    if challenges == [] then []
    else
      var init, last := challenges[..|challenges| - 1], challenges[|challenges| - 1];
      assert challenges == init + [last];
      if last.expiresAt > now then Active(init, now) + [last] else Active(init, now)
  }

  /** The addresses nginx holds back; none while the emergency bypass is on. */
  function Render(challenges: seq<Challenge>, bypass: bool): seq<Address> {
    if bypass then [] else seq(|challenges|, i requires 0 <= i < |challenges| => challenges[i].ip)
  }

  function Find(challenges: seq<Challenge>, ip: Address, id: int): (r: Option<Challenge>)
    ensures r.Some? ==> r.value in challenges && r.value.ip == ip && r.value.id == id
    ensures r.None? ==> forall c <- challenges :: c.ip != ip || c.id != id
  {
    if challenges == [] then None
    else if challenges[0].ip == ip && challenges[0].id == id then Some(challenges[0])
    else Find(challenges[1..], ip, id)
  }

  /** The first challenge with the given id or the given address. */
  function FindEither(challenges: seq<Challenge>, id: Option<int>, ip: Option<Address>): (r: Option<Challenge>)
    ensures r.Some? ==> r.value in challenges && (id == Some(r.value.id) || ip == Some(r.value.ip))
    ensures r.None? ==> forall c <- challenges :: id != Some(c.id) && ip != Some(c.ip)
  {
    if challenges == [] then None
    else if id == Some(challenges[0].id) || ip == Some(challenges[0].ip) then Some(challenges[0])
    else FindEither(challenges[1..], id, ip)
  }

  function Removed(challenges: seq<Challenge>, id: Option<int>, ip: Option<Address>): seq<Challenge> {
    var c := FindEither(challenges, id, ip);
    if c.Some? then Without(challenges, c.value.id) else challenges
  }

  function Without(challenges: seq<Challenge>, id: int): (r: seq<Challenge>)
    ensures forall c :: c in r <==> c in challenges && c.id != id
    ensures |r| <= |challenges|
  {
    if challenges == [] then []
    else
      var init, last := challenges[..|challenges| - 1], challenges[|challenges| - 1];
      assert challenges == init + [last];
      if last.id == id then Without(init, id) else Without(init, id) + [last]
  }

  function WithAttempt(challenges: seq<Challenge>, id: int): (r: seq<Challenge>) {
    seq(|challenges|, i requires 0 <= i < |challenges| =>
      if challenges[i].id == id then challenges[i].(attempts := challenges[i].attempts + 1) else challenges[i])
  }

  datatype Verdict = Refused(error: Error) | Wrong | Solved

  function Judge(challenge: Option<Challenge>, counter: Option<int>, digest: Digest): Verdict {
    if challenge.None? then Refused(NotFound)
    else if counter.None? || counter.value < 0 || counter.value > MAX_VERIFY_COUNTER then Refused(InvalidCounter)
    else if challenge.value.attempts >= MAX_VERIFY_ATTEMPTS then Refused(AttemptsExhausted)
    else if ZeroBits(digest(challenge.value.id, challenge.value.nonce, counter.value)) >= challenge.value.difficulty then Solved
    else Wrong
  }

  /** A counter solves a challenge exactly when it is in range, attempts are left, and its digest
      of n bytes, read as a number, lies below 2^(8n - difficulty). */
  lemma SolvedIff(challenge: Challenge, counter: int, digest: Digest)
    requires 0 <= challenge.difficulty <= 8 * |digest(challenge.id, challenge.nonce, counter)|
    ensures var d := digest(challenge.id, challenge.nonce, counter);
      Judge(Some(challenge), Some(counter), digest).Solved? <==>
        0 <= counter <= 50_000_000 && challenge.attempts < 25 &&
        Value(d) < Pow2(8 * |d| - challenge.difficulty)
  {
    ZeroBitsBoundValue(digest(challenge.id, challenge.nonce, counter), challenge.difficulty);
  }

  // ----- Invariant -----

  ghost predicate OnePerAddress(challenges: seq<Challenge>) {
    forall i, j :: 0 <= i < j < |challenges| ==> challenges[i].ip != challenges[j].ip && challenges[i].id != challenges[j].id
  }

  ghost predicate Good(challenges: seq<Challenge>) {
    OnePerAddress(challenges) && |challenges| <= 5000 &&
    forall i :: 0 <= i < |challenges| ==> 10 <= challenges[i].difficulty <= 22 && challenges[i].attempts <= MAX_VERIFY_ATTEMPTS
  }

  lemma ExtendedIsGood(challenges: seq<Challenge>, c: Challenge)
    requires Good(challenges) && |challenges| < MAX_CHALLENGES
    requires forall d <- challenges :: d.ip != c.ip && d.id != c.id
    requires 10 <= c.difficulty <= 22 && c.attempts <= MAX_VERIFY_ATTEMPTS
    ensures Good(challenges + [c])
  {
    forall i | 0 <= i < |challenges|
      ensures challenges[i].ip != c.ip && challenges[i].id != c.id
    {
      assert challenges[i] in challenges;
    }
  }

  lemma PartOfGood(challenges: seq<Challenge>, part: seq<Challenge>)
    requires Good(challenges) && challenges != [] && |part| < |challenges|
    requires forall c :: c in part ==> c in challenges[..|challenges| - 1]
    ensures Good(challenges[..|challenges| - 1])
    ensures Good(part) ==> Good(part + [challenges[|challenges| - 1]])
  {
    if Good(part) {
      var init, last := challenges[..|challenges| - 1], challenges[|challenges| - 1];
      forall c | c in part
        ensures c.ip != last.ip && c.id != last.id
      {
        var i :| 0 <= i < |init| && init[i] == c;
        assert challenges[i] == c;
      }
      ExtendedIsGood(part, last);
    }
  }

  lemma {:induction false} ActiveIsGood(challenges: seq<Challenge>, now: int)
    requires Good(challenges)
    ensures Good(Active(challenges, now))
  {
    if challenges != [] {
      var init := challenges[..|challenges| - 1];
      PartOfGood(challenges, Active(init, now));
      hide Good;
      ActiveIsGood(init, now);
    }
  }

  lemma {:induction false} WithoutIsGood(challenges: seq<Challenge>, id: int)
    requires Good(challenges)
    ensures Good(Without(challenges, id))
  {
    if challenges != [] {
      var init := challenges[..|challenges| - 1];
      PartOfGood(challenges, Without(init, id));
      hide Good;
      WithoutIsGood(init, id);
    }
  }

  ghost function Challenged(challenges: seq<Challenge>): set<Address> {
    set i | 0 <= i < |challenges| :: challenges[i].ip
  }

  ghost function Requested(items: seq<Item>): set<Address> {
    set i | 0 <= i < |items| && items[i].ip.Some? :: items[i].ip.value
  }

  lemma {:induction false} AsManyAddresses(challenges: seq<Challenge>)
    requires OnePerAddress(challenges)
    ensures |Challenged(challenges)| == |challenges|
  {
    if challenges != [] {
      var init, last := challenges[..|challenges| - 1], challenges[|challenges| - 1];
      AsManyAddresses(init);
      assert Challenged(challenges) == Challenged(init) + {last.ip};
    }
  }

  lemma SubsetCard<T>(a: set<T>, b: set<T>)
    requires a <= b
    ensures |a| <= |b|
  {
    assert b == a + (b - a);
  }

  // ----- The service -----

  class Service {
    var stored: seq<Challenge>
    var held: seq<Address>
    const bypass: bool

    ghost predicate Valid()
      reads this
    {
      Good(stored) && held == Render(stored, bypass)
    }

    /** With the bypass off exactly the addresses that have a challenge are held back. */
    lemma HeldBackIff(ip: Address)
      requires Valid()
      ensures ip in held <==> !bypass && exists c :: c in stored && c.ip == ip
    {
      if i :| 0 <= i < |stored| && stored[i].ip == ip {
        assert !bypass ==> held[i] == ip;
        assert stored[i] in stored;
      }
    }

    constructor (bypass: bool)
      ensures Valid() && stored == [] && this.bypass == bypass
    {
      stored := [];
      held := [];
      this.bypass := bypass;
    }

    /** The configuration is reloaded and the state stored, or both stay as they were. */
    method Commit(next: seq<Challenge>, works: bool) returns (ok: bool)
      modifies this
      ensures ok == works
      ensures if ok then stored == next && held == Render(next, bypass) else stored == old(stored) && held == old(held)
    {
      if works {
        held := Render(next, bypass);
        stored := next;
      }
      ok := works;
    }

    /** Drops what has expired. */
    method PurgeExpired(now: int, works: bool) returns (ok: bool)
      requires Valid()
      modifies this
      ensures Valid()
      ensures ok <==> works || Active(old(stored), now) == old(stored)
      ensures stored == if ok then Active(old(stored), now) else old(stored)
    {
      var active := Active(stored, now);
      ActiveIsGood(stored, now);
      if |active| == |stored| {
        return true;
      }
      ok := Commit(active, works);
    }

    /** Gives each address a challenge, unless it has one; all or, when an address is invalid
        or the limit is reached, none. */
    method ChallengeIps(items: seq<Item>, tickets: seq<Ticket>, now: int, purges: bool, works: bool)
      returns (r: Result<seq<Challenge>, Error>)
      requires Valid() && |tickets| == |items| && Unused(stored, tickets, 0)
      modifies this
      ensures Valid()
      ensures r.Ok? ==> Answers(r.value, stored, items)
      ensures r.Ok? ==> Active(old(stored), now) <= stored && Challenged(stored) == Challenged(Active(old(stored), now)) + Requested(items)
      ensures r.Ok? ==> MadeFor(stored[|Active(old(stored), now)|..], items, tickets, now, |items|)
      ensures var purged := purges || Active(old(stored), now) == old(stored);
        (!purged ==> r == Err(NotApplied)) && (r == Err(NotApplied) ==> !purged || !works) &&
        (r.Err? ==> stored == if purged then Active(old(stored), now) else old(stored))
      ensures r.Ok? && !works ==> stored == Active(old(stored), now)
      ensures r.Err? && r.error != NotApplied ==>
        (exists i :: 0 <= i < |items| && items[i].ip.None?) ||
        |Challenged(Active(old(stored), now)) + Requested(items)| > 5000
    {
      hide Progress, Good, Challenged, Requested, Answers, Unused, Active, MadeFor;
      var purged := PurgeExpired(now, purges);
      if !purged {
        return Err(NotApplied);
      }
      ghost var active := stored;
      var next := stored;
      AddressFixesChallenge(stored);
      ActiveIsUnused(old(stored), now, tickets);
      var byIp := map c | c in stored :: c.ip := c;
      ProgressStarts(active, byIp, items, tickets);
      MadeNone(items, tickets, now);
      assert next[|active|..] == [];
      var result: seq<Challenge> := [];
      var changed := false;
      var i := 0;
      while i < |items|
        invariant 0 <= i <= |items|
        invariant Progress(active, next, byIp, result, items, tickets, i)
        invariant stored == active && held == Render(stored, bypass) && Good(stored)
        invariant active <= next
        invariant MadeFor(next[|active|..], items, tickets, now, i)
        invariant !changed ==> next == active
      {
        var item := items[i];
        if item.ip.None? {
          return Err(InvalidAddress);
        }
        var ip := item.ip.value;
        if ip in byIp {
          ExistingAnswers(active, next, byIp, result, items, tickets, i);
          MadeLater(next[|active|..], items, tickets, now, i);
          result := result + [byIp[ip]];
        } else {
          if |next| >= MAX_CHALLENGES {
            NoRoom(active, next, byIp, result, items, tickets, i);
            return Err(TooMany);
          }
          var challenge := NewChallenge(item, tickets[i], now);
          NewAnswers(active, next, byIp, result, items, tickets, i, challenge);
          NewIsMade(active, next, byIp, result, items, tickets, i, now);
          next := next + [challenge];
          byIp := byIp[ip := challenge];
          result := result + [challenge];
          changed := true;
        }
        i := i + 1;
      }
      ProgressEnds(active, next, byIp, result, items, tickets);
      if changed {
        var ok := Commit(next, works);
        if !ok {
          return Err(NotApplied);
        }
      }
      r := Ok(result);
    }

    method RemoveChallenge(id: Option<int>, ip: Option<Address>, now: int, purges: bool, works: bool)
      returns (r: Result<Option<Challenge>, Error>)
      requires Valid()
      modifies this
      ensures Valid()
      ensures var active := Active(old(stored), now);
        var found := FindEither(active, id, ip);
        if !purges && active != old(stored) then r == Err(NotApplied) && stored == old(stored)
        else if found.Some? && !works then r == Err(NotApplied) && stored == active
        else r == Ok(found) && stored == Removed(active, id, ip)
    {
      hide Good, Active, Without, FindEither;
      var purged := PurgeExpired(now, purges);
      if !purged {
        return Err(NotApplied);
      }
      var found := FindEither(stored, id, ip);
      if found.None? {
        return Ok(None);
      }
      WithoutIsGood(stored, found.value.id);
      var ok := Commit(Without(stored, found.value.id), works);
      r := if ok then Ok(found) else Err(NotApplied);
    }

    /** A wrong answer costs an attempt; a right one ends the challenge.  Where the attempt or
        the end cannot be stored the answer is refused and changes nothing. */
    method Verify(ip: Address, id: int, counter: Option<int>, digest: Digest, now: int, purges: bool, works: bool)
      returns (r: Result<bool, Error>)
      requires Valid()
      modifies this
      ensures Valid()
      ensures var active := Active(old(stored), now);
        var verdict := Judge(Find(active, ip, id), counter, digest);
        if !purges && active != old(stored) then r == Err(NotApplied) && stored == old(stored)
        else if verdict.Refused? then r == Err(verdict.error) && stored == active
        else if !works then r == Err(NotApplied) && stored == active
        else if verdict.Wrong? then r == Ok(false) && stored == WithAttempt(active, id)
        else r == Ok(true) && stored == Without(active, id)
    {
      hide Good, Active, Without, WithAttempt, Find, ZeroBits;
      var purged := PurgeExpired(now, purges);
      if !purged {
        return Err(NotApplied);
      }
      var challenge := Find(stored, ip, id);
      if challenge.None? {
        return Err(NotFound);
      }
      if counter.None? || counter.value < 0 || counter.value > MAX_VERIFY_COUNTER {
        return Err(InvalidCounter);
      }
      if challenge.value.attempts >= MAX_VERIFY_ATTEMPTS {
        return Err(AttemptsExhausted);
      }
      var bits := LeadingZeroBits(digest(challenge.value.id, challenge.value.nonce, counter.value));
      if bits < challenge.value.difficulty {
        if !works {
          return Err(NotApplied);
        }
        AttemptIsGood(stored, ip, id);
        AttemptHoldsSame(stored, id, bypass);
        stored := WithAttempt(stored, id);
        return Ok(false);
      }
      WithoutIsGood(stored, id);
      var ok := Commit(Without(stored, id), works);
      r := if ok then Ok(true) else Err(NotApplied);
    }
  }

  lemma AttemptIsGood(challenges: seq<Challenge>, ip: Address, id: int)
    requires Good(challenges) && Find(challenges, ip, id).Some? && Find(challenges, ip, id).value.attempts < MAX_VERIFY_ATTEMPTS
    ensures Good(WithAttempt(challenges, id))
  {
    var c := Find(challenges, ip, id).value;
    hide Find;
    var k :| 0 <= k < |challenges| && challenges[k] == c;
    assert forall i :: 0 <= i < |challenges| && i != k ==> challenges[i].id != id;
  }

  lemma AttemptHoldsSame(challenges: seq<Challenge>, id: int, bypass: bool)
    ensures Render(WithAttempt(challenges, id), bypass) == Render(challenges, bypass)
  {}

  // ----- The loop that creates challenges -----

  /** Every item has its challenge in the store. */
  ghost predicate Answers(result: seq<Challenge>, challenges: seq<Challenge>, items: seq<Item>) {
    |result| == |items| && forall k :: 0 <= k < |items| ==> result[k] in challenges && items[k].ip == Some(result[k].ip)
  }

  /** From the i-th on no two tickets share an id, and none has the id of a challenge. */
  ghost predicate Unused(challenges: seq<Challenge>, tickets: seq<Ticket>, i: nat) {
    (forall j, k :: i <= j < k < |tickets| ==> tickets[j].id != tickets[k].id) &&
    forall c, k :: c in challenges && i <= k < |tickets| ==> c.id != tickets[k].id
  }

  ghost predicate IsByIp(byIp: map<Address, Challenge>, challenges: seq<Challenge>) {
    byIp.Keys == Challenged(challenges) && forall ip :: ip in byIp ==> byIp[ip] in challenges && byIp[ip].ip == ip
  }

  ghost predicate Progress(active: seq<Challenge>, next: seq<Challenge>, byIp: map<Address, Challenge>, result: seq<Challenge>,
                           items: seq<Item>, tickets: seq<Ticket>, i: nat)
    requires i <= |items|
  {
    Good(next) && active <= next && IsByIp(byIp, next) && Answers(result, next, items[..i]) && Unused(next, tickets, i) &&
    Challenged(next) == Challenged(active) + Requested(items[..i])
  }

  lemma ActiveIsUnused(challenges: seq<Challenge>, now: int, tickets: seq<Ticket>)
    requires Unused(challenges, tickets, 0)
    ensures Unused(Active(challenges, now), tickets, 0)
  {}

  lemma AddressFixesChallenge(challenges: seq<Challenge>)
    requires Good(challenges)
    ensures forall c, d :: c in challenges && d in challenges && c.ip == d.ip ==> c == d
  {}

  lemma ChallengedBy(challenges: seq<Challenge>, ip: Address)
    ensures ip in Challenged(challenges) <==> exists c :: c in challenges && c.ip == ip
  {
    if c :| c in challenges && c.ip == ip {
      var i :| 0 <= i < |challenges| && challenges[i] == c;
      assert challenges[i].ip in Challenged(challenges);
    }
  }

  lemma ProgressStarts(active: seq<Challenge>, byIp: map<Address, Challenge>, items: seq<Item>, tickets: seq<Ticket>)
    requires Good(active) && Unused(active, tickets, 0)
    requires byIp.Keys == set c | c in active :: c.ip
    requires forall ip :: ip in byIp ==> byIp[ip] in active && byIp[ip].ip == ip
    ensures Progress(active, active, byIp, [], items, tickets, 0)
  {
    hide Good, Unused;
    forall ip
      ensures ip in byIp.Keys <==> ip in Challenged(active)
    {
      ChallengedBy(active, ip);
    }
    assert byIp.Keys == Challenged(active);
    assert Requested(items[..0]) == {};
  }

  /** The challenge was made for one of the first items, the earliest with its address. */
  ghost predicate MadeForOne(c: Challenge, items: seq<Item>, tickets: seq<Ticket>, now: int, i: nat)
    requires i <= |items| == |tickets|
  {
    exists j :: 0 <= j < i && IsFor(c, items, tickets, now, j)
  }

  ghost predicate MadeFor(made: seq<Challenge>, items: seq<Item>, tickets: seq<Ticket>, now: int, i: nat)
    requires i <= |items| == |tickets|
  {
    forall k :: 0 <= k < |made| ==> MadeForOne(made[k], items, tickets, now, i)
  }

  ghost predicate IsFor(c: Challenge, items: seq<Item>, tickets: seq<Ticket>, now: int, j: nat)
    requires j < |items| == |tickets|
  {
    items[j].ip.Some? && c == NewChallenge(items[j], tickets[j], now) && forall l :: 0 <= l < j ==> items[l].ip != items[j].ip
  }

  lemma MadeNone(items: seq<Item>, tickets: seq<Ticket>, now: int)
    requires |items| == |tickets|
    ensures MadeFor([], items, tickets, now, 0)
  {}

  lemma MadeLater(made: seq<Challenge>, items: seq<Item>, tickets: seq<Ticket>, now: int, i: nat)
    requires i < |items| == |tickets| && MadeFor(made, items, tickets, now, i)
    ensures MadeFor(made, items, tickets, now, i + 1)
  {
    forall k | 0 <= k < |made|
      ensures MadeForOne(made[k], items, tickets, now, i + 1)
    {
      assert MadeForOne(made[k], items, tickets, now, i);
    }
  }

  lemma NewIsMade(active: seq<Challenge>, next: seq<Challenge>, byIp: map<Address, Challenge>, result: seq<Challenge>,
                  items: seq<Item>, tickets: seq<Ticket>, i: nat, now: int)
    requires i < |items| == |tickets| && Progress(active, next, byIp, result, items, tickets, i)
    requires items[i].ip.Some? && items[i].ip.value !in byIp && MadeFor(next[|active|..], items, tickets, now, i)
    ensures MadeFor((next + [NewChallenge(items[i], tickets[i], now)])[|active|..], items, tickets, now, i + 1)
  {
    var c := NewChallenge(items[i], tickets[i], now);
    forall l | 0 <= l < i
      ensures items[l].ip != items[i].ip
    {
      assert items[..i][l].ip.Some? ==> items[..i][l].ip.value in Requested(items[..i]);
    }
    assert IsFor(c, items, tickets, now, i);
    assert (next + [c])[|active|..] == next[|active|..] + [c];
    hide Progress;
    MadeLater(next[|active|..], items, tickets, now, i);
  }

  lemma ProgressEnds(active: seq<Challenge>, next: seq<Challenge>, byIp: map<Address, Challenge>, result: seq<Challenge>,
                     items: seq<Item>, tickets: seq<Ticket>)
    requires Progress(active, next, byIp, result, items, tickets, |items|)
    ensures Good(next) && active <= next && Answers(result, next, items)
    ensures Challenged(next) == Challenged(active) + Requested(items)
  {
    hide Good, Challenged, Requested, Unused, IsByIp;
    assert items[..|items|] == items;
  }

  lemma RequestedGrows(items: seq<Item>, i: nat)
    requires i < |items| && items[i].ip.Some?
    ensures Requested(items[..i + 1]) == Requested(items[..i]) + {items[i].ip.value}
    ensures Requested(items[..i + 1]) <= Requested(items)
  {}

  lemma ExistingAnswers(active: seq<Challenge>, next: seq<Challenge>, byIp: map<Address, Challenge>, result: seq<Challenge>,
                        items: seq<Item>, tickets: seq<Ticket>, i: nat)
    requires i < |items| && Progress(active, next, byIp, result, items, tickets, i)
    requires items[i].ip.Some? && items[i].ip.value in byIp
    ensures Progress(active, next, byIp, result + [byIp[items[i].ip.value]], items, tickets, i + 1)
  {
    hide Good, Challenged, Requested;
    RequestedGrows(items, i);
  }

  lemma NoRoom(active: seq<Challenge>, next: seq<Challenge>, byIp: map<Address, Challenge>, result: seq<Challenge>,
               items: seq<Item>, tickets: seq<Ticket>, i: nat)
    requires i < |items| && Progress(active, next, byIp, result, items, tickets, i)
    requires items[i].ip.Some? && items[i].ip.value !in byIp && |next| >= MAX_CHALLENGES
    ensures |Challenged(active) + Requested(items)| > MAX_CHALLENGES
  {
    AsManyAddresses(next);
    RequestedGrows(items, i);
    hide Good, Challenged, Requested, Answers, Unused;
    SubsetCard(Challenged(next) + {items[i].ip.value}, Challenged(active) + Requested(items));
  }

  lemma ChallengedGrows(challenges: seq<Challenge>, c: Challenge)
    ensures Challenged(challenges + [c]) == Challenged(challenges) + {c.ip}
  {
    forall ip
      ensures ip in Challenged(challenges + [c]) <==> ip in Challenged(challenges) + {c.ip}
    {
      ChallengedBy(challenges, ip);
      ChallengedBy(challenges + [c], ip);
      assert forall d :: d in challenges + [c] <==> d in challenges || d == c;
    }
  }

  lemma NewAnswers(active: seq<Challenge>, next: seq<Challenge>, byIp: map<Address, Challenge>, result: seq<Challenge>,
                   items: seq<Item>, tickets: seq<Ticket>, i: nat, c: Challenge)
    requires i < |items| == |tickets| && Progress(active, next, byIp, result, items, tickets, i)
    requires items[i].ip == Some(c.ip) && c.ip !in byIp && c.id == tickets[i].id && |next| < MAX_CHALLENGES
    requires 10 <= c.difficulty <= 22 && c.attempts <= MAX_VERIFY_ATTEMPTS
    ensures Progress(active, next + [c], byIp[c.ip := c], result + [c], items, tickets, i + 1)
  {
    forall d | d in next
      ensures d.ip != c.ip && d.id != c.id
    {
      ChallengedBy(next, d.ip);
    }
    ExtendedIsGood(next, c);
    ChallengedGrows(next, c);
    RequestedGrows(items, i);
    hide Good, Challenged, Requested;
    assert forall d :: d in next + [c] <==> d in next || d == c;
    assert Unused(next + [c], tickets, i + 1);
    hide Unused;
    assert byIp[c.ip := c].Keys == Challenged(next + [c]);
    assert IsByIp(byIp[c.ip := c], next + [c]);
    hide IsByIp;
    assert Answers(result + [c], next + [c], items[..i + 1]);
  }
}
