/** Trusted devices: registered keys, and per device a replay counter that an administrator
    may reset. */
module DeviceRegistry {
  import opened Wrappers
  import opened Sequences
  import opened Texts

  const MAX_DEVICES: nat := 200
  const MAX_ALLOWED_APPS: nat := 32
  const MAX_CLOCK_SKEW_MS: int := 5 * 60 * 1000
  const MAX_SAFE_INTEGER: int := 0x1F_FFFF_FFFF_FFFF
  const SIGNATURE_BYTES: nat := 64

  datatype PublicKey = PublicKey(pem: string, fingerprint: string)

  datatype Device = Device(deviceId: string, name: string, key: PublicKey, allowedApps: seq<string>,
                           createdAt: int, updatedAt: int, revokedAt: Option<int>)

  /** `resetAt` opens the current epoch of the counter. */
  datatype Counter = Counter(lastSequence: int, resetAt: Option<int>, lastSeenAt: Option<int>, lastApp: Option<string>)

  datatype Registry = Registry(devices: seq<Device>, counters: map<string, Counter>)

  /** What a device signs, and what its request carries. */
  datatype Body = Body(app: Option<string>, deviceId: Option<string>, rest: string)
  datatype Message = Message(deviceId: string, sequence: int, timestamp: int, body: Body)
  datatype Request = Request(deviceId: string, sequence: string, time: string, signature: string, body: Body)

  /** Signature checking is given: whether a signature of a message holds under a key, and the
      length of a signature's bytes. */
  datatype Scheme = Scheme(verifies: (PublicKey, Message, string) -> bool, byteLength: string -> nat)

  datatype Error =
    | InvalidId | InvalidKey | InvalidApps | AlreadyTrusted | SameKeyAgain | TooManyDevices | UnknownDevice
    | IncompleteHeaders | InvalidSequence | OutsideClockWindow | AppNotAllowed | OtherDevice | InvalidSignatureLength
    | InvalidSignature | BeforeEpoch | Replayed

  datatype Acceptance = Acceptance(name: string, fingerprint: string, message: Message, app: string)

  // ----- Text -----

  predicate IsDigit(c: char) { '0' <= c <= '9' }

  predicate AllDigits(s: string) {
    s != [] && forall i :: 0 <= i < |s| ==> IsDigit(s[i])
  }

  function NumberOf(s: string): nat
    requires s != [] ==> AllDigits(s)
  {
    if s == [] then 0 else NumberOf(s[..|s| - 1]) * 10 + (s[|s| - 1] as int - '0' as int)
  }

  function PrintedDigit(d: nat): (c: char)
    requires d < 10
    ensures IsDigit(c) && c as int - '0' as int == d
  {
    "0123456789"[d]
  }

  /** A number as a device writes it. */
  function Printed(n: nat): (s: string)
    ensures AllDigits(s)
  {
    (if n < 10 then [] else Printed(n / 10)) + [PrintedDigit(n % 10)]
  }

  lemma {:induction false} NumberIsRead(n: nat)
    ensures NumberOf(Printed(n)) == n
  {
    hide PrintedDigit, AllDigits;
    var s := Printed(n);
    if n < 10 {
      assert s == [PrintedDigit(n)] && s[..0] == [];
    } else {
      NumberIsRead(n / 10);
      assert s[..|s| - 1] == Printed(n / 10) && s[|s| - 1] == PrintedDigit(n % 10);
    }
  }

  /** None for what is missing or blank. */
  function BoundedOption(s: Option<string>, max: nat): Option<string> {
    if s.Some? && Bounded(s.value, max) != "" then Some(Bounded(s.value, max)) else None
  }

  function UniqueApps(apps: seq<string>): (r: seq<string>)
    ensures NoDuplicates(r)
    ensures forall a :: a in r <==> a != "" && exists i :: 0 <= i < |apps| && Bounded(apps[i], 80) == a
  {
    if apps == [] then []
    else
      var r, app := UniqueApps(apps[..|apps| - 1]), Bounded(apps[|apps| - 1], 80);
      if app == "" || app in r then r else r + [app]
  }

  predicate IsAppName(app: string) {
    app == "*" || (|app| <= 80 && IsIdentifier(app))
  }

  function NormalizeAllowedApps(apps: seq<string>): Result<seq<string>, Error> {
    var unique := UniqueApps(apps);
    if |apps| > MAX_ALLOWED_APPS || unique == [] || exists i :: 0 <= i < |unique| && !IsAppName(unique[i])
    then Err(InvalidApps) else Ok(unique)
  }

  // ----- The list of devices -----

  function IndexOf(devices: seq<Device>, id: string): (r: Option<nat>)
    ensures r.Some? ==> r.value < |devices| && devices[r.value].deviceId == id &&
                        forall k :: 0 <= k < r.value ==> devices[k].deviceId != id
    ensures r.None? ==> forall k :: 0 <= k < |devices| ==> devices[k].deviceId != id
  {
    if devices == [] then None
    else
      var n := |devices| - 1;
      var earlier := IndexOf(devices[..n], id);
      if earlier.Some? then earlier else if devices[n].deviceId == id then Some(n) else None
  }

  function DeviceOf(devices: seq<Device>, id: string): Option<Device> {
    var i := IndexOf(devices, id);
    if i.Some? then Some(devices[i.value]) else None
  }

  function Put(devices: seq<Device>, device: Device): seq<Device> {
    var i := IndexOf(devices, device.deviceId);
    if i.Some? then devices[i.value := device] else devices + [device]
  }

  lemma FirstIs(devices: seq<Device>, id: string, i: nat)
    requires i < |devices| && devices[i].deviceId == id && forall k :: 0 <= k < i ==> devices[k].deviceId != id
    ensures IndexOf(devices, id) == Some(i)
  {
    var r := IndexOf(devices, id);
    hide IndexOf;
    assert r.Some? && !(r.value < i);
  }

  lemma NoneIs(devices: seq<Device>, id: string)
    requires forall k :: 0 <= k < |devices| ==> devices[k].deviceId != id
    ensures IndexOf(devices, id).None?
  {
    hide IndexOf;
  }

  lemma PutGives(devices: seq<Device>, device: Device, id: string)
    ensures DeviceOf(Put(devices, device), id) == if id == device.deviceId then Some(device) else DeviceOf(devices, id)
  {
    hide IndexOf;
    var next := Put(devices, device);
    var i := IndexOf(devices, id);
    if id == device.deviceId {
      FirstIs(next, id, if i.Some? then i.value else |devices|);
    } else if i.Some? {
      FirstIs(next, id, i.value);
    } else {
      NoneIs(next, id);
    }
  }

  // ----- Operations on values -----

  datatype Op =
    | Register(id: string, name: string, key: Option<PublicKey>, apps: seq<string>)
    | Revoke(id: string)
    | ResetSequence(id: string)
    | Verify(request: Request)

  /** The device a registration makes; an id in use, or a revoked id with its last key, is
      refused.  An unusable key is given as none. */
  function Registered(r: Registry, op: Op, now: int): Result<Device, Error>
    requires op.Register?
  {
    var id := Trim(op.id);
    var apps := NormalizeAllowedApps(op.apps);
    var existing := DeviceOf(r.devices, id);
    if !IsIdentifier(id) then Err(InvalidId)
    else if op.key.None? then Err(InvalidKey)
    else if apps.Err? then Err(apps.error)
    else if existing.Some? && existing.value.revokedAt.None? then Err(AlreadyTrusted)
    else if existing.Some? && existing.value.key.fingerprint == op.key.value.fingerprint then Err(SameKeyAgain)
    else if existing.None? && |r.devices| >= MAX_DEVICES then Err(TooManyDevices)
    else Ok(Device(id, BoundedOption(Some(op.name), 120).GetOr(id), op.key.value, apps.value, now, now, None))
  }

  function Trusted(r: Registry, id: string): Option<Device> {
    var device := DeviceOf(r.devices, id);
    if device.Some? && device.value.revokedAt.Some? then None else device
  }

  function CounterOf(r: Registry, id: string): Counter {
    if id in r.counters then r.counters[id] else Counter(0, None, None, None)
  }

  predicate Unsigned(q: Request) {
    q.deviceId == "" && q.sequence == "" && q.time == "" && q.signature == ""
  }

  /** The headers of a signed request, as far as they are well formed and recent. */
  function ReadHeaders(q: Request, now: int): Result<Message, Error> {
    if !IsIdentifier(Trim(q.deviceId)) then Err(InvalidId)
    else if !AllDigits(q.sequence) || !AllDigits(q.time) || q.signature == "" then Err(IncompleteHeaders)
    else
      var sequence, timestamp := NumberOf(q.sequence), NumberOf(q.time);
      if sequence > MAX_SAFE_INTEGER || sequence < 1 then Err(InvalidSequence)
      else if timestamp > MAX_SAFE_INTEGER || now - timestamp > MAX_CLOCK_SKEW_MS || timestamp - now > MAX_CLOCK_SKEW_MS
      then Err(OutsideClockWindow)
      else Ok(Message(Trim(q.deviceId), sequence, timestamp, q.body))
  }

  /** That the device may speak for the app, and signed the message. */
  function Authenticate(device: Device, q: Request, m: Message, scheme: Scheme): Result<string, Error> {
    var app := BoundedOption(q.body.app, 80);
    var reported := BoundedOption(q.body.deviceId, 160);
    if app.None? || ("*" !in device.allowedApps && app.value !in device.allowedApps) then Err(AppNotAllowed)
    else if reported.Some? && reported.value != m.deviceId then Err(OtherDevice)
    else if scheme.byteLength(q.signature) != SIGNATURE_BYTES then Err(InvalidSignatureLength)
    else if !scheme.verifies(device.key, m, q.signature) then Err(InvalidSignature)
    else Ok(app.value)
  }

  /** Not before the counter's epoch, and beyond its last sequence number. */
  function CheckCounter(c: Counter, m: Message): Option<Error> {
    if c.resetAt.Some? && m.timestamp <= c.resetAt.value then Some(BeforeEpoch)
    else if m.sequence <= c.lastSequence then Some(Replayed)
    else None
  }

  /** None for a request without signature headers. */
  function Verified(r: Registry, q: Request, now: int, scheme: Scheme): Result<Option<Acceptance>, Error> {
    if Unsigned(q) then Ok(None)
    else
      match ReadHeaders(q, now)
      case Err(e) => Err(e)
      case Ok(m) =>
        match Trusted(r, m.deviceId)
        case None => Err(UnknownDevice)
        case Some(device) =>
          match Authenticate(device, q, m, scheme)
          case Err(e) => Err(e)
          case Ok(app) =>
            match CheckCounter(CounterOf(r, m.deviceId), m)
            case Some(e) => Err(e)
            case None => Ok(Some(Acceptance(device.name, device.key.fingerprint, m, app)))
  }

  function Counted(r: Registry, a: Acceptance, now: int): Registry {
    var id := a.message.deviceId;
    r.(counters := r.counters[id := Counter(a.message.sequence, CounterOf(r, id).resetAt, Some(now), Some(a.app))])
  }

  function After(r: Registry, op: Op, now: int, scheme: Scheme): Registry {
    match op
    case Register(_, _, _, _) =>
      (match Registered(r, op, now)
       case Ok(device) => Registry(Put(r.devices, device), r.counters - {device.deviceId})
       case Err(_) => r)
    case Revoke(id) =>
      var device := DeviceOf(r.devices, Trim(id));
      if !IsIdentifier(Trim(id)) || device.None? then r
      else
        Registry(if device.value.revokedAt.Some? then r.devices
                 else Put(r.devices, device.value.(revokedAt := Some(now), updatedAt := now)),
                 r.counters - {Trim(id)})
    case ResetSequence(id) =>
      if !IsIdentifier(Trim(id)) || Trusted(r, Trim(id)).None? then r
      else r.(counters := r.counters[Trim(id) := Counter(0, Some(now), None, None)])
    case Verify(q) =>
      match Verified(r, q, now, scheme)
      case Ok(Some(a)) => Counted(r, a, now)
      case _ => r
  }

  // ----- The service -----

  class Service {
    var devices: seq<Device>
    var counters: map<string, Counter>
    const scheme: Scheme

    function Now(): Registry
      reads this
    {
      Registry(devices, counters)
    }

    constructor (scheme: Scheme)
      ensures Now() == Registry([], map[]) && this.scheme == scheme
    {
      devices := [];
      counters := map[];
      this.scheme := scheme;
    }

    method RegisterDevice(id: string, name: string, key: Option<PublicKey>, apps: seq<string>, now: int)
      returns (r: Result<Device, Error>)
      modifies this
      ensures r == Registered(old(Now()), Register(id, name, key, apps), now)
      ensures Now() == After(old(Now()), Register(id, name, key, apps), now, scheme)
    {
      var deviceId := Trim(id);
      if !IsIdentifier(deviceId) {
        return Err(InvalidId);
      }
      if key.None? {
        return Err(InvalidKey);
      }
      var allowed := NormalizeAllowedApps(apps);
      if allowed.Err? {
        return Err(allowed.error);
      }
      var index := IndexOf(devices, deviceId);
      if index.Some? && devices[index.value].revokedAt.None? {
        return Err(AlreadyTrusted);
      }
      if index.Some? && devices[index.value].key.fingerprint == key.value.fingerprint {
        return Err(SameKeyAgain);
      }
      if index.None? && |devices| >= MAX_DEVICES {
        return Err(TooManyDevices);
      }
      var device := Device(deviceId, BoundedOption(Some(name), 120).GetOr(deviceId), key.value, allowed.value, now, now, None);
      if index.Some? {
        devices := devices[index.value := device];
      } else {
        devices := devices + [device];
      }
      counters := counters - {deviceId};
      r := Ok(device);
    }

    method RevokeDevice(id: string, now: int) returns (r: Result<Device, Error>)
      modifies this
      ensures Now() == After(old(Now()), Revoke(id), now, scheme)
      ensures r.Ok? <==> IsIdentifier(Trim(id)) && DeviceOf(old(devices), Trim(id)).Some?
      ensures r.Ok? ==> Some(r.value) == DeviceOf(devices, Trim(id)) && r.value.revokedAt.Some? && Trim(id) !in counters
    {
      var deviceId := Trim(id);
      if !IsIdentifier(deviceId) {
        return Err(InvalidId);
      }
      var index := IndexOf(devices, deviceId);
      if index.None? {
        return Err(UnknownDevice);
      }
      var device := devices[index.value];
      if device.revokedAt.None? {
        device := device.(revokedAt := Some(now), updatedAt := now);
        PutGives(devices, device, deviceId);
        devices := devices[index.value := device];
      }
      counters := counters - {deviceId};
      r := Ok(device);
    }

    method Reset(id: string, now: int) returns (r: Result<Device, Error>)
      modifies this
      ensures Now() == After(old(Now()), ResetSequence(id), now, scheme)
      ensures r.Ok? <==> IsIdentifier(Trim(id)) && Trusted(old(Now()), Trim(id)).Some?
    {
      var deviceId := Trim(id);
      if !IsIdentifier(deviceId) {
        return Err(InvalidId);
      }
      var device := DeviceOf(devices, deviceId);
      if device.None? || device.value.revokedAt.Some? {
        return Err(UnknownDevice);
      }
      counters := counters[deviceId := Counter(0, Some(now), None, None)];
      r := Ok(device.value);
    }

    method VerifySignedRequest(q: Request, now: int) returns (r: Result<Option<Acceptance>, Error>)
      modifies this
      ensures r == Verified(old(Now()), q, now, scheme)
      ensures Now() == After(old(Now()), Verify(q), now, scheme)
    {
      if Unsigned(q) {
        return Ok(None);
      }
      var headers := ReadHeaders(q, now);
      if headers.Err? {
        return Err(headers.error);
      }
      var message := headers.value;
      var device := DeviceOf(devices, message.deviceId);
      if device.None? || device.value.revokedAt.Some? {
        return Err(UnknownDevice);
      }
      var app := Authenticate(device.value, q, message, scheme);
      if app.Err? {
        return Err(app.error);
      }
      var counter := CounterOf(Now(), message.deviceId);
      if counter.resetAt.Some? && message.timestamp <= counter.resetAt.value {
        return Err(BeforeEpoch);
      }
      if message.sequence <= counter.lastSequence {
        return Err(Replayed);
      }
      counters := counters[message.deviceId := Counter(message.sequence, counter.resetAt, Some(now), Some(app.value))];
      r := Ok(Some(Acceptance(device.value.name, device.value.key.fingerprint, message, app.value)));
    }
  }
}
