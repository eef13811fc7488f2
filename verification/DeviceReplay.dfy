/** Replay protection over whole runs of the device registry. */
module DeviceReplay {
  import opened Wrappers
  import opened Texts
  import opened DeviceRegistry

  datatype Step = Step(op: Op, now: int)

  const EMPTY := Registry([], map[])

  /** How far a request may be stamped from the clock, in milliseconds. */
  const FIVE_MINUTES: int := 300_000

  /** The registry after the first k steps. */
  function StateAt(steps: seq<Step>, k: nat, scheme: Scheme): Registry
    requires k <= |steps|
  {
    if k == 0 then EMPTY else After(StateAt(steps, k - 1, scheme), steps[k - 1].op, steps[k - 1].now, scheme)
  }

  function AcceptedBy(r: Registry, step: Step, scheme: Scheme): Option<Acceptance> {
    if !step.op.Verify? then None
    else
      match Verified(r, step.op.request, step.now, scheme)
      case Ok(a) => a
      case Err(_) => None
  }

  /** The request that step k accepts, if it does. */
  function AcceptedAt(steps: seq<Step>, k: nat, scheme: Scheme): Option<Acceptance>
    requires k < |steps|
  {
    AcceptedBy(StateAt(steps, k, scheme), steps[k], scheme)
  }

  predicate RegistersIn(r: Registry, step: Step, id: string) {
    step.op.Register? && Registered(r, step.op, step.now).Ok? && Trim(step.op.id) == id
  }

  predicate RegistersAt(steps: seq<Step>, k: nat, id: string, scheme: Scheme)
    requires k < |steps|
  {
    RegistersIn(StateAt(steps, k, scheme), steps[k], id)
  }

  predicate ResetsIn(r: Registry, step: Step, id: string) {
    step.op.ResetSequence? && IsIdentifier(id) && Trim(step.op.id) == id && Trusted(r, id).Some?
  }

  predicate ResetsAt(steps: seq<Step>, k: nat, id: string, scheme: Scheme)
    requires k < |steps|
  {
    ResetsIn(StateAt(steps, k, scheme), steps[k], id)
  }

  /** Steps i to j belong to one registration of the device: none of them registers it. */
  ghost predicate OneRegistration(steps: seq<Step>, i: nat, j: nat, id: string, scheme: Scheme)
    requires j <= |steps|
  {
    forall k :: i <= k < j ==> !RegistersAt(steps, k, id, scheme)
  }

  // ----- One step -----

  /** Nothing but a registration makes a device trusted. */
  lemma TrustNeedsRegistration(r: Registry, step: Step, scheme: Scheme, id: string)
    requires Trusted(r, id).None? && !RegistersIn(r, step, id)
    ensures Trusted(After(r, step.op, step.now, scheme), id).None?
  {
    hide NormalizeAllowedApps, Verified, Put, IndexOf, IsIdentifier;
    if step.op.Register? && Registered(r, step.op, step.now).Ok? {
      PutGives(r.devices, Registered(r, step.op, step.now).value, id);
    } else if step.op.Revoke? && DeviceOf(r.devices, Trim(step.op.id)).Some? {
      var device := DeviceOf(r.devices, Trim(step.op.id)).value;
      PutGives(r.devices, device.(revokedAt := Some(step.now), updatedAt := step.now), id);
    }
  }

  /** A trusted device stays as it was registered until it is revoked; then it is not trusted. */
  lemma TrustedStaysAsRegistered(r: Registry, step: Step, scheme: Scheme, id: string)
    requires Trusted(r, id).Some?
    ensures Trusted(After(r, step.op, step.now, scheme), id) ==
      if step.op.Revoke? && Trim(step.op.id) == id && IsIdentifier(id) then None else Trusted(r, id)
  {
    hide NormalizeAllowedApps, Verified, Put, IndexOf, IsIdentifier;
    if step.op.Register? && Registered(r, step.op, step.now).Ok? {
      PutGives(r.devices, Registered(r, step.op, step.now).value, id);
    } else if step.op.Revoke? && DeviceOf(r.devices, Trim(step.op.id)).Some? {
      var device := DeviceOf(r.devices, Trim(step.op.id)).value;
      PutGives(r.devices, device.(revokedAt := Some(step.now), updatedAt := step.now), id);
    }
  }

  /** A registration makes its device trusted, under its key and for its apps, exactly when the id,
      the key and the apps are usable and there is room, or the id is revoked and the key not the
      one it had; otherwise nothing changes. */
  lemma RegisteredIff(r: Registry, op: Op, now: int, scheme: Scheme)
    requires op.Register?
    ensures var id, after := Trim(op.id), After(r, op, now, scheme);
      var known := DeviceOf(r.devices, id);
      var usable := IsIdentifier(id) && op.key.Some? && NormalizeAllowedApps(op.apps).Ok? &&
        (known.None? ==> |r.devices| < 200) &&
        (known.Some? ==> known.value.revokedAt.Some? && known.value.key.fingerprint != op.key.value.fingerprint);
      if usable then
        Trusted(after, id).Some? && Some(Trusted(after, id).value.key) == op.key &&
        Ok(Trusted(after, id).value.allowedApps) == NormalizeAllowedApps(op.apps) && CounterOf(after, id).lastSequence == 0 &&
        forall other :: other != id ==> DeviceOf(after.devices, other) == DeviceOf(r.devices, other)
      else after == r
  {
    hide NormalizeAllowedApps, Put, IndexOf, IsIdentifier, DeviceOf;
    if Registered(r, op, now).Ok? {
      forall other
        ensures DeviceOf(After(r, op, now, scheme).devices, other) ==
          if other == Trim(op.id) then Some(Registered(r, op, now).value) else DeviceOf(r.devices, other)
      {
        PutGives(r.devices, Registered(r, op, now).value, other);
      }
    }
  }

  /** A trusted device's counter moves up with each accepted request and starts anew with each
      reset; nothing else touches it while the device stays trusted. */
  lemma CounterMoves(r: Registry, step: Step, scheme: Scheme, id: string)
    requires Trusted(After(r, step.op, step.now, scheme), id).Some? && !RegistersIn(r, step, id)
    ensures var before, after := CounterOf(r, id), CounterOf(After(r, step.op, step.now, scheme), id);
      var accepted := AcceptedBy(r, step, scheme);
      Trusted(r, id).Some? &&
      (if ResetsIn(r, step, id) then after.lastSequence == 0 && after.resetAt == Some(step.now)
       else if accepted.Some? && accepted.value.message.deviceId == id then
         after.lastSequence == accepted.value.message.sequence > before.lastSequence && after.resetAt == before.resetAt
       else after == before)
  {
    if Trusted(r, id).None? {
      TrustNeedsRegistration(r, step, scheme, id);
    }
    if step.op.Register? && Registered(r, step.op, step.now).Ok? {
      PutGives(r.devices, Registered(r, step.op, step.now).value, id);
    } else if step.op.Revoke? && DeviceOf(r.devices, Trim(step.op.id)).Some? {
      var device := DeviceOf(r.devices, Trim(step.op.id)).value;
      PutGives(r.devices, device.(revokedAt := Some(step.now), updatedAt := step.now), id);
    }
    hide NormalizeAllowedApps, Put, IndexOf, IsIdentifier, Trim, ReadHeaders, Authenticate, DeviceOf;
  }

  /** Some text besides white space, cut to a length. */
  lemma BoundedOptionIs(s: Option<string>, max: nat)
    requires max > 0
    ensures match BoundedOption(s, max)
      case Some(t) => s.Some? && t == Bounded(s.value, max) && exists c :: c in s.value && !IsSpace(c)
      case None => s.None? || forall c <- s.value :: IsSpace(c)
  {
    if s.Some? { BoundedIs(s.value, max); }
  }

  /** The apps of a device: 32 at most, some named, each of them a star or an identifier of up to 80
      characters. */
  lemma AppsIff(apps: seq<string>)
    ensures var names := set i | 0 <= i < |apps| && (exists c :: c in apps[i] && !IsSpace(c)) :: Bounded(apps[i], 80);
      (NormalizeAllowedApps(apps).Ok? <==>
        |apps| <= 32 && names != {} && forall a <- names :: a == "*" || (|a| <= 80 && IsIdentifier(a))) &&
      (NormalizeAllowedApps(apps).Ok? ==> forall a :: a in NormalizeAllowedApps(apps).value <==> a in names)
  {
    hide Bounded, IsSpace, IsIdentifier;
    forall i | 0 <= i < |apps|
      ensures Bounded(apps[i], 80) != "" <==> exists c :: c in apps[i] && !IsSpace(c)
    {
      BoundedIs(apps[i], 80);
    }
    var unique := UniqueApps(apps);
    assert forall i :: 0 <= i < |unique| ==> unique[i] in unique;
    var names := set i | 0 <= i < |apps| && (exists c :: c in apps[i] && !IsSpace(c)) :: Bounded(apps[i], 80);
    forall a
      ensures a in unique <==> a in names
    {
      if i :| 0 <= i < |apps| && Bounded(apps[i], 80) == a && a != "" {
        assert exists c :: c in apps[i] && !IsSpace(c);
      }
    }
    assert unique == [] <==> names == {} by {
      if unique != [] { assert unique[0] in names; }
    }
  }

  /** A request is let through unsigned exactly when it carries none of the four headers. */
  lemma UnsignedIff(r: Registry, q: Request, now: int, scheme: Scheme)
    ensures Verified(r, q, now, scheme) == Ok(None) <==> q.deviceId == q.sequence == q.time == q.signature == ""
  {
    hide ReadHeaders, Authenticate, CheckCounter, Trusted;
  }

  predicate MaySubmit(device: Device, id: string, body: Body) {
    var app, reported := BoundedOption(body.app, 80), BoundedOption(body.deviceId, 160);
    app.Some? && ("*" in device.allowedApps || app.value in device.allowedApps) && (reported == None || reported == Some(id))
  }

  /** A request is accepted exactly when its numbers are in range, its time is within five
      minutes of the clock, a trusted device signed exactly this message for an app it may use,
      and the counter has neither passed the number nor begun after the time. */
  lemma AcceptedIff(r: Registry, q: Request, now: int, scheme: Scheme)
    ensures AcceptedBy(r, Step(Verify(q), now), scheme).Some? <==>
      (var id := Trim(q.deviceId);
       IsIdentifier(id) && AllDigits(q.sequence) && AllDigits(q.time) && q.signature != "" &&
       var sequence, time, counter := NumberOf(q.sequence), NumberOf(q.time), CounterOf(r, id);
       1 <= sequence < 0x20_0000_0000_0000 && time < 0x20_0000_0000_0000 && -FIVE_MINUTES <= now - time <= FIVE_MINUTES &&
       Trusted(r, id).Some? && MaySubmit(Trusted(r, id).value, id, q.body) && scheme.byteLength(q.signature) == 64 &&
       scheme.verifies(Trusted(r, id).value.key, Message(id, sequence, time, q.body), q.signature) &&
       sequence > counter.lastSequence && (counter.resetAt.Some? ==> time > counter.resetAt.value))
  {
    hide IsIdentifier, Trim, NumberOf, AllDigits, Trusted, CounterOf, BoundedOption;
  }

  /** An accepted request is signed under the device's present key, is ahead of the counter,
      and is stamped after the counter's epoch began. */
  lemma AcceptanceMeans(r: Registry, step: Step, scheme: Scheme)
    requires AcceptedBy(r, step, scheme).Some?
    ensures var m := AcceptedBy(r, step, scheme).value.message;
      var q := step.op.request;
      var device := Trusted(r, m.deviceId);
      IsIdentifier(m.deviceId) && device.Some? && scheme.verifies(device.value.key, m, q.signature) &&
      m == Message(Trim(q.deviceId), NumberOf(q.sequence), NumberOf(q.time), q.body) &&
      m.sequence > CounterOf(r, m.deviceId).lastSequence && m.sequence >= 1 &&
      (CounterOf(r, m.deviceId).resetAt.Some? ==> m.timestamp > CounterOf(r, m.deviceId).resetAt.value) &&
      step.now - FIVE_MINUTES <= m.timestamp <= step.now + FIVE_MINUTES
  {
    hide IsIdentifier, Trim, NumberOf, DeviceOf, CounterOf;
  }

  // ----- Runs -----

  /** After step i accepted a request, as long as the device is not registered anew: its
      counter is at least as far, or was reset since and bears the time of that reset. */
  ghost predicate Guarded(steps: seq<Step>, i: nat, p: nat, id: string, sequence: int, scheme: Scheme)
    requires i < p <= |steps|
  {
    var r := StateAt(steps, p, scheme);
    Trusted(r, id).Some? ==>
      CounterOf(r, id).lastSequence >= sequence ||
      exists k :: i < k < p && ResetsAt(steps, k, id, scheme) && CounterOf(r, id).resetAt == Some(steps[k].now)
  }

  lemma {:induction false} StaysGuarded(steps: seq<Step>, i: nat, p: nat, id: string, sequence: int, scheme: Scheme)
    requires i < p <= |steps| && OneRegistration(steps, i, p, id, scheme)
    requires AcceptedAt(steps, i, scheme).Some? && AcceptedAt(steps, i, scheme).value.message.deviceId == id
    requires AcceptedAt(steps, i, scheme).value.message.sequence == sequence
    ensures Guarded(steps, i, p, id, sequence, scheme)
    decreases p
  {
    hide StateAt, After, Trusted, CounterOf, RegistersIn, Verified, OneRegistration;
    LastStep(steps, i, p, id, scheme);
    var before := StateAt(steps, p - 1, scheme);
    var step := steps[p - 1];
    if Trusted(StateAt(steps, p, scheme), id).Some? {
      CounterMoves(before, step, scheme, id);
      if i < p - 1 {
        StaysGuarded(steps, i, p - 1, id, sequence, scheme);
        if ResetsAt(steps, p - 1, id, scheme) {
          assert CounterOf(StateAt(steps, p, scheme), id).resetAt == Some(steps[p - 1].now);
        }
      }
    }
  }

  /** Of two requests of a device accepted in one registration the later has the larger sequence
      number, or was stamped after a reset between them.  The clock may do anything. */
  lemma AcceptedInOrder(steps: seq<Step>, i: nat, j: nat, scheme: Scheme)
    requires i < j < |steps| && AcceptedAt(steps, i, scheme).Some? && AcceptedAt(steps, j, scheme).Some?
    requires AcceptedAt(steps, i, scheme).value.message.deviceId == AcceptedAt(steps, j, scheme).value.message.deviceId
    requires OneRegistration(steps, i, j, AcceptedAt(steps, i, scheme).value.message.deviceId, scheme)
    ensures var a, b := AcceptedAt(steps, i, scheme).value.message, AcceptedAt(steps, j, scheme).value.message;
      a.sequence < b.sequence || exists k :: i < k < j && ResetsAt(steps, k, a.deviceId, scheme) && b.timestamp > steps[k].now
  {
    var a := AcceptedAt(steps, i, scheme).value.message;
    StaysGuarded(steps, i, j, a.deviceId, a.sequence, scheme);
    AcceptanceMeans(StateAt(steps, j, scheme), steps[j], scheme);
    hide StateAt, AcceptedBy, ResetsIn, Trusted, CounterOf;
  }

  ghost predicate ClockMovesForward(steps: seq<Step>) {
    forall i, j :: 0 <= i <= j < |steps| ==> steps[i].now <= steps[j].now
  }

  /** With a clock that never goes back, a message that was not ahead of it when accepted is
      never accepted again in the same registration, whatever resets follow. */
  lemma NeverAcceptedAgain(steps: seq<Step>, i: nat, j: nat, scheme: Scheme)
    requires i < j < |steps| && ClockMovesForward(steps)
    requires AcceptedAt(steps, i, scheme).Some? && AcceptedAt(steps, i, scheme).value.message.timestamp <= steps[i].now
    requires OneRegistration(steps, i, j, AcceptedAt(steps, i, scheme).value.message.deviceId, scheme)
    ensures AcceptedAt(steps, j, scheme).Some? ==>
      AcceptedAt(steps, j, scheme).value.message != AcceptedAt(steps, i, scheme).value.message
  {
    var a, b := AcceptedAt(steps, i, scheme).value.message, AcceptedAt(steps, j, scheme);
    assert forall k :: i < k < j ==> steps[i].now <= steps[k].now;
    hide StateAt, AcceptedBy, ResetsIn, OneRegistration, ClockMovesForward;
    if b.Some? && b.value.message == a {
      AcceptedInOrder(steps, i, j, scheme);
    }
  }

  /** A trusted device with the key and apps under which a request was accepted accepts it again
      exactly while it is recent and the counter lets it pass. */
  lemma AcceptedAgainIff(r: Registry, later: Registry, q: Request, accepted: int, again: int, scheme: Scheme)
    requires AcceptedBy(r, Step(Verify(q), accepted), scheme).Some?
    requires var id := Trim(q.deviceId);
      Trusted(r, id).Some? && Trusted(later, id).Some? &&
      Trusted(r, id).value.key == Trusted(later, id).value.key &&
      Trusted(r, id).value.allowedApps == Trusted(later, id).value.allowedApps
    ensures var m := AcceptedBy(r, Step(Verify(q), accepted), scheme).value.message;
      AcceptedBy(later, Step(Verify(q), again), scheme).Some? <==>
        again - FIVE_MINUTES <= m.timestamp <= again + FIVE_MINUTES && CheckCounter(CounterOf(later, m.deviceId), m).None?
  {
    hide IsIdentifier, Trim, NumberOf, Trusted, AllDigits, CheckCounter, CounterOf;
  }

  /** For a message that was ahead of the clock the reset decides: sent again right after one
      it is accepted exactly when it is stamped after the reset and still recent. */
  lemma ReplayAfterResetIff(r: Registry, q: Request, accepted: int, reset: int, again: int, scheme: Scheme)
    requires AcceptedBy(r, Step(Verify(q), accepted), scheme).Some?
    ensures var m := AcceptedBy(r, Step(Verify(q), accepted), scheme).value.message;
      var counted := After(r, Verify(q), accepted, scheme);
      var afresh := After(counted, ResetSequence(m.deviceId), reset, scheme);
      AcceptedBy(afresh, Step(Verify(q), again), scheme).Some? <==>
        m.timestamp > reset && again - FIVE_MINUTES <= m.timestamp <= again + FIVE_MINUTES
  {
    var m := AcceptedBy(r, Step(Verify(q), accepted), scheme).value.message;
    TrimOfTrim(q.deviceId);
    AcceptanceMeans(r, Step(Verify(q), accepted), scheme);
    hide IsIdentifier, Trim, NumberOf, DeviceOf, AllDigits, Authenticate, ReadHeaders;
    var counted := After(r, Verify(q), accepted, scheme);
    assert counted.devices == r.devices && Trusted(counted, m.deviceId) == Trusted(r, m.deviceId);
    var afresh := After(counted, ResetSequence(m.deviceId), reset, scheme);
    assert CounterOf(afresh, m.deviceId) == Counter(0, Some(reset), None, None) && Trusted(afresh, m.deviceId) == Trusted(r, m.deviceId);
    AcceptedAgainIff(r, afresh, q, accepted, again, scheme);
  }

  lemma {:induction false} TrimOfTrim(s: string)
    ensures Trim(Trim(s)) == Trim(s)
  {
    var t := Trim(s);
    if t != [] {
      assert t[0] == TrimLeft(s)[0];
    }
  }

  // ----- Across registrations -----

  function FingerprintOf(r: Registry, id: string): Option<string> {
    var device := DeviceOf(r.devices, id);
    if device.Some? then Some(device.value.key.fingerprint) else None
  }

  lemma RegistrationGives(r: Registry, op: Op, now: int, scheme: Scheme)
    requires op.Register? && Registered(r, op, now).Ok?
    ensures var after, device := After(r, op, now, scheme), Registered(r, op, now).value;
      DeviceOf(after.devices, Trim(op.id)) == Some(device) && device.revokedAt.None? && Some(device.key) == op.key &&
      NormalizeAllowedApps(op.apps) == Ok(device.allowedApps) && Trim(op.id) !in after.counters &&
      Some(device.key.fingerprint) != FingerprintOf(r, Trim(op.id))
  {
    hide NormalizeAllowedApps, Put, IndexOf, IsIdentifier;
    PutGives(r.devices, Registered(r, op, now).value, Trim(op.id));
  }

  lemma RevocationGives(r: Registry, id: string, now: int, scheme: Scheme)
    requires IsIdentifier(id) && Trim(id) == id && DeviceOf(r.devices, id).Some?
    ensures var before, after := DeviceOf(r.devices, id).value, DeviceOf(After(r, Revoke(id), now, scheme).devices, id);
      after.Some? && after.value.revokedAt.Some? && after.value.key == before.key
  {
    hide Put, IndexOf, IsIdentifier, Trim;
    var device := DeviceOf(r.devices, id).value;
    PutGives(r.devices, device.(revokedAt := Some(now), updatedAt := now), id);
  }

  lemma KeyStays(r: Registry, step: Step, scheme: Scheme, id: string)
    requires !RegistersIn(r, step, id)
    ensures FingerprintOf(After(r, step.op, step.now, scheme), id) == FingerprintOf(r, id)
  {
    hide NormalizeAllowedApps, Verified, Put, IndexOf, IsIdentifier;
    if step.op.Register? && Registered(r, step.op, step.now).Ok? {
      PutGives(r.devices, Registered(r, step.op, step.now).value, id);
    } else if step.op.Revoke? && DeviceOf(r.devices, Trim(step.op.id)).Some? {
      var device := DeviceOf(r.devices, Trim(step.op.id)).value;
      PutGives(r.devices, device.(revokedAt := Some(step.now), updatedAt := step.now), id);
    }
  }

  lemma LastStep(steps: seq<Step>, i: nat, j: nat, id: string, scheme: Scheme)
    requires i < j <= |steps| && OneRegistration(steps, i, j, id, scheme)
    ensures OneRegistration(steps, i, j - 1, id, scheme) && !RegistersIn(StateAt(steps, j - 1, scheme), steps[j - 1], id)
    ensures StateAt(steps, j, scheme) == After(StateAt(steps, j - 1, scheme), steps[j - 1].op, steps[j - 1].now, scheme)
  {
    hide RegistersIn, After;
    assert !RegistersAt(steps, j - 1, id, scheme);
  }

  lemma {:induction false} KeyStaysInRegistration(steps: seq<Step>, i: nat, j: nat, id: string, scheme: Scheme)
    requires i <= j <= |steps| && OneRegistration(steps, i, j, id, scheme)
    ensures FingerprintOf(StateAt(steps, j, scheme), id) == FingerprintOf(StateAt(steps, i, scheme), id)
    decreases j
  {
    hide StateAt, After, FingerprintOf, RegistersIn, OneRegistration;
    if i < j {
      LastStep(steps, i, j, id, scheme);
      KeyStaysInRegistration(steps, i, j - 1, id, scheme);
      KeyStays(StateAt(steps, j - 1, scheme), steps[j - 1], scheme, id);
    }
  }

  /** Registering a device anew changes its key: with one registration between them, two
      requests are accepted under keys of different fingerprints. */
  lemma NextRegistrationHasOtherKey(steps: seq<Step>, i: nat, k: nat, j: nat, id: string, scheme: Scheme)
    requires i < k < j < |steps| && RegistersAt(steps, k, id, scheme)
    requires OneRegistration(steps, i, k, id, scheme) && OneRegistration(steps, k + 1, j, id, scheme)
    ensures FingerprintOf(StateAt(steps, i, scheme), id) != FingerprintOf(StateAt(steps, j, scheme), id)
  {
    hide After, DeviceOf, Registered, OneRegistration, Trim, NormalizeAllowedApps;
    KeyStaysInRegistration(steps, i, k, id, scheme);
    KeyStaysInRegistration(steps, k + 1, j, id, scheme);
    RegistrationGives(StateAt(steps, k, scheme), steps[k].op, steps[k].now, scheme);
  }

  lemma VerifyKeepsDevices(r: Registry, q: Request, now: int, scheme: Scheme)
    ensures After(r, Verify(q), now, scheme).devices == r.devices
  {
    hide Verified;
  }

  /** Two registrations later the first key may be back, for only the last key is compared.  A
      message of the first registration is then accepted again exactly while it is recent. */
  lemma ReplayAfterKeyReturnsIff(r: Registry, q: Request, other: PublicKey, apps: seq<string>, t: seq<int>, scheme: Scheme)
    requires |t| == 6 && AcceptedBy(r, Step(Verify(q), t[0]), scheme).Some?
    requires var device := Trusted(r, Trim(q.deviceId));
      device.Some? && NormalizeAllowedApps(apps) == Ok(device.value.allowedApps) && other.fingerprint != device.value.key.fingerprint
    ensures var m, key := AcceptedBy(r, Step(Verify(q), t[0]), scheme).value.message, Trusted(r, Trim(q.deviceId)).value.key;
      var id := m.deviceId;
      var r1 := After(After(r, Verify(q), t[0], scheme), Revoke(id), t[1], scheme);
      var r2 := After(After(r1, Register(id, id, Some(other), apps), t[2], scheme), Revoke(id), t[3], scheme);
      var r3 := After(r2, Register(id, id, Some(key), apps), t[4], scheme);
      AcceptedBy(r3, Step(Verify(q), t[5]), scheme).Some? <==>
        t[5] - FIVE_MINUTES <= m.timestamp <= t[5] + FIVE_MINUTES
  {
    var m, key := AcceptedBy(r, Step(Verify(q), t[0]), scheme).value.message, Trusted(r, Trim(q.deviceId)).value.key;
    var id := m.deviceId;
    AcceptanceMeans(r, Step(Verify(q), t[0]), scheme);
    TrimOfTrim(q.deviceId);
    VerifyKeepsDevices(r, q, t[0], scheme);
    hide After, IsIdentifier, Trim, NormalizeAllowedApps, DeviceOf, AcceptedBy;
    var r0 := After(r, Verify(q), t[0], scheme);
    RevocationGives(r0, id, t[1], scheme);
    var r1 := After(r0, Revoke(id), t[1], scheme);
    var first := Register(id, id, Some(other), apps);
    RegistrationGives(r1, first, t[2], scheme);
    var r1' := After(r1, first, t[2], scheme);
    RevocationGives(r1', id, t[3], scheme);
    var r2 := After(r1', Revoke(id), t[3], scheme);
    var second := Register(id, id, Some(key), apps);
    RegistrationGives(r2, second, t[4], scheme);
    var r3 := After(r2, second, t[4], scheme);
    AcceptedAgainIff(r, r3, q, t[0], t[5], scheme);
  }
}
