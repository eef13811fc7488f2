/** The two-file commit protocol for blocks and for rate limits: a durable JSON state file,
    the nginx include generated from it, and the configuration nginx is running.  Every file
    write and reload may fail, and the process may stop before any of them. */
module ConfigCommit {
  import opened Wrappers

  /** A block or rate limit; `target` is none when its address is not a valid one. */
  datatype Entry = Entry(id: string, reason: string, target: Option<string>, expiresAt: Option<int>)

  datatype Kind = Blocks | RateLimits

  datatype Rule = Rule(id: string, reason: string, target: string)

  /** A generated include.  A file that is absent reads as the empty text. */
  datatype Config = Empty | Bypassed | Rules(rules: seq<Rule>)

  /** What rendering depends on besides the entries, fixed within one operation. */
  datatype Settings = Settings(kind: Kind, now: int, bypass: bool)

  predicate IsActive(e: Entry, now: int) {
    e.expiresAt.None? || e.expiresAt.value > now
  }

  function Active(entries: seq<Entry>, now: int): (r: seq<Entry>)
    ensures |r| <= |entries|
    ensures |r| == |entries| ==> r == entries
  {
    if entries == [] then []
    else if IsActive(entries[0], now) then [entries[0]] + Active(entries[1..], now)
    else Active(entries[1..], now)
  }

  function RenderRules(entries: seq<Entry>, kind: Kind): seq<Rule> {
    if entries == [] then []
    else if entries[0].target.None? then RenderRules(entries[1..], kind)
    else
      var e := entries[0];
      [Rule(e.id, if kind.Blocks? then e.reason else "", e.target.value)] + RenderRules(entries[1..], kind)
  }

  function Render(entries: seq<Entry>, s: Settings): Config {
    if s.bypass then Bypassed else Rules(RenderRules(Active(entries, s.now), s.kind))
  }

  /** The state file, the include file, and what nginx enforces. */
  datatype Disk = Disk(state: seq<Entry>, conf: Config, live: Config)

  /** What happens at one write or reload; a crash is a stop before it takes effect. */
  datatype Io = Works | Fails | Crashes

  datatype Outcome = Done | Failed | Crashed

  /** The faults of one application of a configuration, in the order they can strike. */
  datatype ApplyFaults = ApplyFaults(write: Io, reload: Io, restore: Io, reloadAgain: Io)

  datatype CommitFaults = CommitFaults(apply: ApplyFaults, persist: Io, rollback: ApplyFaults)

  const NO_FAULTS := ApplyFaults(Works, Works, Works, Works)

  function Stopped(io: Io): Outcome
    requires !io.Works?
  {
    if io.Crashes? then Crashed else Failed
  }

  function Apply(d: Disk, next: Config, f: ApplyFaults): (Disk, Outcome) {
    if d.conf == next then (d, Done)
    else if !f.write.Works? then (d, Stopped(f.write))
    else
      var written := d.(conf := next);
      if f.reload.Works? then (written.(live := next), Done)
      else if f.reload.Crashes? then (written, Crashed)
      else if !f.restore.Works? then (written, Stopped(f.restore))
      else if f.reloadAgain.Crashes? then (d, Crashed)
      else (if f.reloadAgain.Works? then d.(live := d.conf) else d, Failed)
  }

  function Commit(d: Disk, previous: seq<Entry>, next: seq<Entry>, s: Settings, f: CommitFaults): (Disk, Outcome) {
    var (applied, outcome) := Apply(d, Render(next, s), f.apply);
    if !outcome.Done? then (applied, outcome)
    else if f.persist.Works? then (applied.(state := next), Done)
    else if f.persist.Crashes? then (applied, Crashed)
    else
      var (undone, rollback) := Apply(applied, Render(previous, s), f.rollback);
      (undone, if rollback.Crashed? then Crashed else Failed)
  }

  function Synchronize(d: Disk, s: Settings, f: CommitFaults): (Disk, Outcome) {
    var active := Active(d.state, s.now);
    if |active| != |d.state| then Commit(d, d.state, active, s, f) else Apply(d, Render(active, s), f.apply)
  }

  /** The same steps on the files themselves. */
  class ConfigStore {
    var state: seq<Entry>
    var conf: Config
    var live: Config

    ghost function OnDisk(): Disk
      reads this
    {
      Disk(state, conf, live)
    }

    constructor (state: seq<Entry>, conf: Config, live: Config)
      ensures OnDisk() == Disk(state, conf, live)
    {
      this.state, this.conf, this.live := state, conf, live;
    }

    method WriteConf(next: Config, io: Io)
      modifies this`conf
      ensures conf == if io.Works? then next else old(conf)
    {
      if io.Works? {
        conf := next;
      }
    }

    method Reload(io: Io)
      modifies this`live
      ensures live == if io.Works? then conf else old(live)
    {
      if io.Works? {
        live := conf;
      }
    }

    method ApplyConfig(entries: seq<Entry>, s: Settings, f: ApplyFaults) returns (outcome: Outcome)
      modifies this`conf, this`live
      ensures (OnDisk(), outcome) == Apply(old(OnDisk()), Render(entries, s), f)
    {
      var previous := conf;
      var next := Render(entries, s);
      if previous == next {
        return Done;
      }
      WriteConf(next, f.write);
      if !f.write.Works? {
        return Stopped(f.write);
      }
      Reload(f.reload);
      match f.reload {
        case Works => return Done;
        case Crashes => return Crashed;
        case Fails =>
      }
      WriteConf(previous, f.restore);
      if !f.restore.Works? {
        return Stopped(f.restore);
      }
      Reload(f.reloadAgain);
      return if f.reloadAgain.Crashes? then Crashed else Failed;
    }

    method CommitState(previous: seq<Entry>, next: seq<Entry>, s: Settings, f: CommitFaults) returns (outcome: Outcome)
      modifies this
      ensures (OnDisk(), outcome) == Commit(old(OnDisk()), previous, next, s, f)
    {
      outcome := ApplyConfig(next, s, f.apply);
      if !outcome.Done? {
        return;
      }
      match f.persist {
        case Works =>
          state := next;
        case Crashes =>
          outcome := Crashed;
        case Fails =>
          var rollback := ApplyConfig(previous, s, f.rollback);
          outcome := if rollback.Crashed? then Crashed else Failed;
      }
    }

    method SynchronizeConfig(s: Settings, f: CommitFaults) returns (outcome: Outcome)
      modifies this
      ensures (OnDisk(), outcome) == Synchronize(old(OnDisk()), s, f)
    {
      var active := Active(state, s.now);
      if |active| != |state| {
        outcome := CommitState(state, active, s, f);
      } else {
        outcome := ApplyConfig(active, s, f.apply);
      }
    }
  }

  // ----- Properties -----

  lemma {:induction false} ActiveTwice(entries: seq<Entry>, now: int)
    ensures Active(Active(entries, now), now) == Active(entries, now)
  {
    if entries != [] {
      ActiveTwice(entries[1..], now);
      assert IsActive(entries[0], now) ==> Active(entries, now)[1..] == Active(entries[1..], now);
    }
  }

  /** The generated include depends on the active entries only. */
  lemma RenderActive(entries: seq<Entry>, s: Settings)
    ensures Render(Active(entries, s.now), s) == Render(entries, s)
  {
    ActiveTwice(entries, s.now);
  }

  /** It has no end, or one that is still to come. */
  predicate Unexpired(e: Entry, now: int) {
    e.expiresAt.Some? ==> now < e.expiresAt.value
  }

  /** The line of an active entry: its id and target, and for a block its reason. */
  ghost predicate LineOf(r: Rule, e: Entry, s: Settings) {
    Unexpired(e, s.now) && e.target == Some(r.target) && e.id == r.id && r.reason == if s.kind == Blocks then e.reason else ""
  }

  lemma {:induction false} RulesAre(entries: seq<Entry>, s: Settings, r: Rule)
    ensures r in RenderRules(Active(entries, s.now), s.kind) <==> exists e :: e in entries && LineOf(r, e, s)
  {
    if entries != [] {
      var e, rest := entries[0], entries[1..];
      RulesAre(rest, s, r);
      var active, all := Active(rest, s.now), RenderRules(Active(entries, s.now), s.kind);
      assert entries == [e] + rest;
      if IsActive(e, s.now) {
        assert Active(entries, s.now)[1..] == active;
        if e.target.Some? {
          assert all == [all[0]] + RenderRules(active, s.kind);
          assert LineOf(r, e, s) <==> r == all[0];
        }
      }
    }
  }

  /** The include denies, or limits, a target. */
  ghost predicate Enforces(conf: Config, target: string) {
    conf.Rules? && exists r :: r in conf.rules && r.target == target
  }

  /** Every enforced target is an active entry with a valid address, and each such entry is
      enforced, unless the emergency bypass is on. */
  lemma IncludeEnforces(entries: seq<Entry>, s: Settings, target: string)
    ensures Enforces(Render(entries, s), target) <==>
      !s.bypass && exists e :: e in entries && Unexpired(e, s.now) && e.target == Some(target)
    ensures !s.bypass ==>
      Render(entries, s).Rules? && forall r :: r in Render(entries, s).rules <==> exists e :: e in entries && LineOf(r, e, s)
  {
    forall r: Rule
      ensures r in RenderRules(Active(entries, s.now), s.kind) <==> exists e :: e in entries && LineOf(r, e, s)
    {
      RulesAre(entries, s, r);
    }
    if e :| e in entries && Unexpired(e, s.now) && e.target == Some(target) {
      var r := Rule(e.id, if s.kind == Blocks then e.reason else "", target);
      assert LineOf(r, e, s);
    }
  }

  predicate Crashing(f: ApplyFaults) {
    f.write.Crashes? || f.reload.Crashes? || f.restore.Crashes? || f.reloadAgain.Crashes?
  }

  predicate Failing(f: ApplyFaults) {
    f.write.Fails? || f.reload.Fails? || f.restore.Fails? || f.reloadAgain.Fails?
  }

  /** Only a crash is reported as one, and without a failure none is reported. */
  lemma OutcomesMean(d: Disk, previous: seq<Entry>, next: seq<Entry>, s: Settings, f: CommitFaults)
    ensures var outcome := Commit(d, previous, next, s, f).1;
      (outcome.Crashed? ==> Crashing(f.apply) || f.persist.Crashes? || Crashing(f.rollback)) &&
      (outcome.Failed? ==> Failing(f.apply) || f.persist.Fails?)
  {}

  /** A commit that reports success leaves state file and include in agreement. */
  lemma CommitAgrees(d: Disk, previous: seq<Entry>, next: seq<Entry>, s: Settings, f: CommitFaults)
    ensures var (after, outcome) := Commit(d, previous, next, s, f);
      (outcome.Done? ==> after.state == next && after.conf == Render(next, s)) &&
      (!outcome.Done? ==> after.state == d.state) &&
      after.conf in {d.conf, Render(next, s), Render(previous, s)}
  {}

  /** When nginx rejects the new include, both files are as before exactly when the old
      include could be written back. */
  lemma FailedReloadUndone(d: Disk, previous: seq<Entry>, next: seq<Entry>, s: Settings, f: CommitFaults)
    requires d.conf != Render(next, s) && f.apply.write.Works? && f.apply.reload.Fails?
    ensures var (after, outcome) := Commit(d, previous, next, s, f);
      !outcome.Done? && after.state == d.state && (after.conf == d.conf <==> f.apply.restore.Works?) &&
      (after.live == d.live || after.live == d.conf)
  {}

  /** When the state file cannot be written and the rollback works, nginx is given back the
      include of the previous entries. */
  lemma FailedPersistUndone(d: Disk, previous: seq<Entry>, next: seq<Entry>, s: Settings, f: CommitFaults)
    requires f.persist.Fails? && f.rollback.write.Works? && f.rollback.reload.Works?
    requires Apply(d, Render(next, s), f.apply).1.Done?
    ensures var (after, outcome) := Commit(d, previous, next, s, f);
      outcome.Failed? && after.state == d.state && after.conf == Render(previous, s)
  {}

  /** After a commit that ended in any way, a crash included, a successful synchronisation
      makes the include that of the surviving state, which is the old one or the new one. */
  lemma RecoversAfterAnything(d: Disk, previous: seq<Entry>, next: seq<Entry>, s: Settings, f: CommitFaults,
                              later: Settings, g: CommitFaults)
    requires var (broken, _) := Commit(d, previous, next, s, f); Synchronize(broken, later, g).1.Done?
    ensures var (broken, _) := Commit(d, previous, next, s, f);
      var (after, _) := Synchronize(broken, later, g);
      broken.state in {d.state, next} &&
      after.state == Active(broken.state, later.now) && after.conf == Render(broken.state, later)
  {
    var (broken, _) := Commit(d, previous, next, s, f);
    RenderActive(broken.state, later);
  }

  /** What synchronisation does not restore: it returns early when the include already has the
      right text.  So nginx ends up running it exactly when the text differed or nginx was
      running it anyway. */
  lemma SynchronizedLiveIff(d: Disk, s: Settings, f: CommitFaults)
    requires Synchronize(d, s, f).1.Done?
    ensures var (after, _) := Synchronize(d, s, f);
      after.live == after.conf <==> d.conf != Render(d.state, s) || d.live == d.conf
  {
    RenderActive(d.state, s);
  }

  // ----- Rounds of synchronisation -----

  datatype Round = Round(s: Settings, f: CommitFaults)

  /** Synchronisations one after the other. */
  function Rounds(d: Disk, rounds: seq<Round>): Disk {
    if rounds == [] then d
    else
      var n := |rounds| - 1;
      Synchronize(Rounds(d, rounds[..n]), rounds[n].s, rounds[n].f).0
  }

  /** All of them succeed, and the clock does not go back. */
  ghost predicate AllDone(d: Disk, rounds: seq<Round>) {
    (forall k :: 0 <= k < |rounds| ==> DoneAt(d, rounds, k)) &&
    forall i, j :: 0 <= i <= j < |rounds| ==> rounds[i].s.now <= rounds[j].s.now
  }

  ghost predicate DoneAt(d: Disk, rounds: seq<Round>, k: nat)
    requires k < |rounds|
  {
    Synchronize(Rounds(d, rounds[..k]), rounds[k].s, rounds[k].f).1.Done?
  }

  lemma {:induction false} ActiveLater(entries: seq<Entry>, early: int, late: int)
    requires early <= late
    ensures Active(Active(entries, early), late) == Active(entries, late)
  {
    if entries != [] {
      ActiveLater(entries[1..], early, late);
      assert IsActive(entries[0], early) ==> Active(entries, early)[1..] == Active(entries[1..], early);
    }
  }

  /** Dropping what has expired changes no later include. */
  ghost predicate RendersAlike(a: seq<Entry>, b: seq<Entry>, now: int) {
    forall late :: now <= late ==> Active(a, late) == Active(b, late)
  }

  lemma DoneMeans(d: Disk, s: Settings, f: CommitFaults)
    requires Synchronize(d, s, f).1.Done?
    ensures var after := Synchronize(d, s, f).0;
      after.state == Active(d.state, s.now) && after.conf == Render(d.state, s) &&
      after.live == if d.conf == Render(d.state, s) then d.live else after.conf
  {
    RenderActive(d.state, s);
  }

  lemma InitDone(d: Disk, rounds: seq<Round>)
    requires AllDone(d, rounds) && rounds != []
    ensures AllDone(d, rounds[..|rounds| - 1]) && DoneAt(d, rounds, |rounds| - 1)
  {
    hide Synchronize, Rounds;
    var init := rounds[..|rounds| - 1];
    forall k | 0 <= k < |init|
      ensures DoneAt(d, init, k)
    {
      assert init[..k] == rounds[..k];
      assert DoneAt(d, rounds, k);
    }
  }

  /** The state the rounds leave renders like the one they began with. */
  lemma {:induction false} StateRendersAlike(d: Disk, rounds: seq<Round>, now: int)
    requires AllDone(d, rounds) && forall k :: 0 <= k < |rounds| ==> rounds[k].s.now <= now
    ensures RendersAlike(Rounds(d, rounds).state, d.state, now)
  {
    hide Synchronize, Active, AllDone;
    if rounds != [] {
      var n := |rounds| - 1;
      InitDone(d, rounds);
      StateRendersAlike(d, rounds[..n], now);
      var before := Rounds(d, rounds[..n]);
      DoneMeans(before, rounds[n].s, rounds[n].f);
      forall late | now <= late
        ensures Active(Rounds(d, rounds).state, late) == Active(d.state, late)
      {
        ActiveLater(before.state, rounds[n].s.now, late);
      }
    }
  }

  /** Some round finds another text than the include has. */
  ghost predicate TextChanges(d: Disk, rounds: seq<Round>) {
    exists k :: 0 <= k < |rounds| && Render(d.state, rounds[k].s) != d.conf
  }

  /** Once nginx runs something else than the include, successful synchronisations leave it so
      exactly until the surviving entries render to another text, because one has expired or the
      bypass was switched. */
  lemma {:induction false} StaleUntilTextChanges(d: Disk, rounds: seq<Round>)
    requires AllDone(d, rounds) && d.live != d.conf
    ensures var after := Rounds(d, rounds);
      if TextChanges(d, rounds) then after.live == after.conf else after.live == d.live && after.conf == d.conf
  {
    hide Synchronize, Active, RenderRules, AllDone;
    if rounds != [] {
      var n := |rounds| - 1;
      var init, last := rounds[..n], rounds[n];
      InitDone(d, rounds);
      StaleUntilTextChanges(d, init);
      var before := Rounds(d, init);
      DoneMeans(before, last.s, last.f);
      ClockForward(d, rounds);
      StateRendersAlike(d, init, last.s.now);
      assert Active(before.state, last.s.now) == Active(d.state, last.s.now);
      assert TextChanges(d, rounds) <==> TextChanges(d, init) || Render(d.state, last.s) != d.conf by { TextChangesLast(d, rounds); }
    }
  }

  lemma ClockForward(d: Disk, rounds: seq<Round>)
    requires AllDone(d, rounds) && rounds != []
    ensures var init := rounds[..|rounds| - 1];
      forall k :: 0 <= k < |init| ==> init[k].s.now <= rounds[|rounds| - 1].s.now
  {
    hide DoneAt;
  }

  lemma TextChangesLast(d: Disk, rounds: seq<Round>)
    requires rounds != []
    ensures var n := |rounds| - 1;
      TextChanges(d, rounds) <==> TextChanges(d, rounds[..n]) || Render(d.state, rounds[n].s) != d.conf
  {
    hide Render;
    var n := |rounds| - 1;
    if k :| 0 <= k < n && Render(d.state, rounds[..n][k].s) != d.conf {
      assert Render(d.state, rounds[k].s) != d.conf;
    }
    if k :| 0 <= k < n && Render(d.state, rounds[k].s) != d.conf {
      assert Render(d.state, rounds[..n][k].s) != d.conf;
    }
  }

  /** The source's start-up comment promises that an interrupted write or reload cannot leave
      nginx enforcing a stale set.  It can: when the state file cannot be written and the
      process stops between the rollback's write and its reload, synchronisations find the
      include already right, and nginx goes on enforcing the rejected set until the surviving
      entries render to another text. */
  lemma InterruptedRollbackStaysStale(previous: seq<Entry>, next: seq<Entry>, s: Settings, rounds: seq<Round>)
    requires Render(previous, s) != Render(next, s)
    requires var d := Disk(previous, Render(previous, s), Render(next, s)); AllDone(d, rounds)
    ensures var f := CommitFaults(NO_FAULTS, Fails, NO_FAULTS.(reload := Crashes));
      var (broken, outcome) := Commit(Disk(previous, Render(previous, s), Render(previous, s)), previous, next, s, f);
      var after := Rounds(broken, rounds);
      outcome.Crashed? && broken == Disk(previous, Render(previous, s), Render(next, s)) &&
      if exists k :: 0 <= k < |rounds| && Render(previous, rounds[k].s) != Render(previous, s) then after.live == after.conf
      else after.live == Render(next, s) && after.conf == Render(previous, s)
  {
    hide Render, Active, AllDone, Rounds;
    var broken := Disk(previous, Render(previous, s), Render(next, s));
    var f := CommitFaults(NO_FAULTS, Fails, NO_FAULTS.(reload := Crashes));
    assert Commit(Disk(previous, Render(previous, s), Render(previous, s)), previous, next, s, f).0 == broken;
    StaleUntilTextChanges(broken, rounds);
  }
}
