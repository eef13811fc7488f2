/** The text a device signs.  It fixes the device, the sequence number, the timestamp and,
    through the hash, the request body. */
module SigningMessage {
  import opened CanonicalJson
  import opened CanonicalJsonProofs

  const NEWLINE: Unit := 0x0a

  /** "HYROVI-SEC-DEVICE-V1" */
  const SIGNATURE_CONTEXT: Text := [
    0x48, 0x59, 0x52, 0x4f, 0x56, 0x49, 0x2d, 0x53, 0x45, 0x43, 0x2d,
    0x44, 0x45, 0x56, 0x49, 0x43, 0x45, 0x2d, 0x56, 0x31]

  datatype Request = Request(deviceId: Text, sequence: nat, timestamp: nat, body: Json)

  /** A missing body is signed as the empty object. */
  function SignedBody(body: Json): Json {
    if body.Undefined? || body.Null? then Obj([]) else body
  }

  function Line(text: Text, rest: Text): Text {
    text + ([NEWLINE] + rest)
  }

  function Message(r: Request, sha: Text -> Text): Text {
    Line(SIGNATURE_CONTEXT,
      Line(r.deviceId,
        Line(Digits(r.sequence),
          Line(Digits(r.timestamp), sha(StableJson(SignedBody(r.body)))))))
  }

  function Ascii(s: string): Text {
    seq(|s|, i requires 0 <= i < |s| => if s[i] < 128 as char then s[i] as int else 0)
  }

  /** The text reads: the version, the device, the number, the time and the hash, a line each; where
      there is no body, or null, the hash is that of the empty object. */
  lemma MessageReads(r: Request, sha: Text -> Text)
    ensures Message(r, sha) ==
      Ascii("HYROVI-SEC-DEVICE-V1\n") + r.deviceId + [10] + Digits(r.sequence) + [10] + Digits(r.timestamp) + [10] +
      sha(if r.body in {Undefined, Null} then Ascii("{}") else StableJson(r.body))
  {
    hide Digits;
    assert StableJson(Obj([])) == Ascii("{}");
    assert SIGNATURE_CONTEXT + [10] == Ascii("HYROVI-SEC-DEVICE-V1\n");
  }

  lemma LineSplits(a: Text, b: Text, x: Text, y: Text)
    requires NEWLINE !in a && NEWLINE !in b
    ensures Line(a, x) == Line(b, y) <==> a == b && x == y
  {
    var s, t := Line(a, x), Line(b, y);
    assert s[|a|] == NEWLINE && t[|b|] == NEWLINE;
    assert |a| < |b| ==> t[|a|] == b[|a|] && b[|a|] in b;
    assert |b| < |a| ==> s[|b|] == a[|b|] && a[|b|] in a;
    if s == t {
      DropFront(a, [NEWLINE] + x);
      DropFront(b, [NEWLINE] + y);
      DropFront([NEWLINE], x);
      DropFront([NEWLINE], y);
    }
  }

  lemma DigitsSplit(m: nat, n: nat)
    ensures NEWLINE !in Digits(m) && (Digits(m) == Digits(n) <==> m == n)
  {
    DigitsDenote(m);
    DigitsDenote(n);
  }

  /** Two messages agree exactly when all signed parts agree, the body through its hash. */
  lemma MessageFixesParts(a: Request, b: Request, sha: Text -> Text)
    requires NEWLINE !in a.deviceId && NEWLINE !in b.deviceId
    ensures Message(a, sha) == Message(b, sha) <==>
      a.deviceId == b.deviceId && a.sequence == b.sequence && a.timestamp == b.timestamp &&
      sha(StableJson(SignedBody(a.body))) == sha(StableJson(SignedBody(b.body)))
  {
    var ha, hb := sha(StableJson(SignedBody(a.body))), sha(StableJson(SignedBody(b.body)));
    var ta, tb := Line(Digits(a.timestamp), ha), Line(Digits(b.timestamp), hb);
    var qa, qb := Line(Digits(a.sequence), ta), Line(Digits(b.sequence), tb);
    DigitsSplit(a.timestamp, b.timestamp);
    DigitsSplit(b.timestamp, a.timestamp);
    DigitsSplit(a.sequence, b.sequence);
    DigitsSplit(b.sequence, a.sequence);
    LineSplits(Digits(a.timestamp), Digits(b.timestamp), ha, hb);
    LineSplits(Digits(a.sequence), Digits(b.sequence), ta, tb);
    LineSplits(a.deviceId, b.deviceId, qa, qb);
    LineSplits(SIGNATURE_CONTEXT, SIGNATURE_CONTEXT, Line(a.deviceId, qa), Line(b.deviceId, qb));
  }

  /** With a hash that never collides, a message fixes the body up to object key order. */
  lemma MessageIsInjective(a: Request, b: Request, sha: Text -> Text)
    requires NEWLINE !in a.deviceId && NEWLINE !in b.deviceId
    requires DistinctKeys(a.body) && DistinctKeys(b.body)
    requires forall x, y :: sha(x) == sha(y) ==> x == y
    ensures Message(a, sha) == Message(b, sha) <==>
      a.deviceId == b.deviceId && a.sequence == b.sequence && a.timestamp == b.timestamp &&
      Same(SignedBody(a.body), SignedBody(b.body))
  {
    MessageFixesParts(a, b, sha);
    Unambiguous(SignedBody(a.body), SignedBody(b.body));
  }
}
