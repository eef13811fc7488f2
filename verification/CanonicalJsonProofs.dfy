/** The printer and the reader of canonical JSON are inverse, so the printed text identifies
    a value exactly up to object key order. */
module CanonicalJsonProofs {
  import opened Wrappers
  import opened CanonicalJson

  predicate StartsWithDigit(t: Text) { t != [] && IsDigit(t[0]) }

  // ----- Concatenation -----

  lemma Regroup(a: Text, b: Text, c: Text, d: Text)
    ensures a + b + c + d == a + (b + c + d)
    ensures a + b + c == a + (b + c)
  {}

  lemma RegroupList(head: Text, tail: Text, close: Text, x: Text)
    ensures head + [COMMA] + tail + close + x == head + ([COMMA] + (tail + close + x))
  {
    Regroup(head + [COMMA], tail, close, x);
    Regroup(head, [COMMA], tail + close + x, []);
  }

  lemma DropFront(a: Text, b: Text)
    ensures (a + b)[|a|..] == b && (a + b)[..|a|] == a
  {}

  // ----- Strings -----

  lemma DigitDenotes(n: int)
    requires 0 <= n < 16
    ensures HexValue(HexDigit(n)) == Some(n)
  {}

  lemma DigitsGive(c: nat)
    ensures ((c / 4096 * 16 + c / 256 % 16) * 16 + c / 16 % 16) * 16 + c % 16 == c
  {
    var a, b, d := c / 16, c / 256, c / 4096;
    assert b == a / 16 && d == b / 16;
    assert c == a * 16 + c % 16 && a == b * 16 + a % 16 && b == d * 16 + b % 16;
  }

  lemma HexDenotes(c: Unit)
    ensures ReadHex(UnicodeEscape(c)[2..6]) == Some(c)
  {
    DigitDenotes(c / 4096);
    DigitDenotes(c / 256 % 16);
    DigitDenotes(c / 16 % 16);
    DigitDenotes(c % 16);
    hide HexDigit, HexValue;
    DigitsGive(c);
  }

  lemma ReadUnicodeEscape(c: Unit, y: Text)
    ensures ReadBody(UnicodeEscape(c) + y) == Prepend(c, ReadBody(y))
  {
    var t := UnicodeEscape(c) + y;
    HexDenotes(c);
    DropFront(UnicodeEscape(c), y);
    assert t[2..6] == UnicodeEscape(c)[2..6];
  }

  lemma ReadLiteral(c: Unit, y: Text)
    requires c != QUOTE && c != BACKSLASH
    ensures ReadBody([c] + y) == Prepend(c, ReadBody(y))
  {
    DropFront([c], y);
  }

  lemma ReadShortEscape(c: Unit, e: Unit, y: Text)
    requires e != 0x75 && ReadEscape(e) == Some(c)
    ensures ReadBody([BACKSLASH, e] + y) == Prepend(c, ReadBody(y))
  {
    DropFront([BACKSLASH, e], y);
  }

  lemma ReadEscapedUnit(c: Unit, y: Text)
    ensures ReadBody(EscapeUnit(c) + y) == Prepend(c, ReadBody(y))
  {
    var e := EscapeUnit(c);
    if |e| == 6 {
      ReadUnicodeEscape(c, y);
    } else if |e| == 2 {
      ReadShortEscape(c, e[1], y);
    } else {
      ReadLiteral(c, y);
    }
  }

  ghost predicate StartsWithPair(s: Text) { |s| > 1 && IsLead(s[0]) && IsTrail(s[1]) }

  lemma ReadPair(s: Text, x: Text)
    requires StartsWithPair(s)
    requires ReadBody(EscapeBody(s[2..]) + [QUOTE] + x) == Some((s[2..], x))
    ensures ReadBody(EscapeBody(s) + [QUOTE] + x) == Some((s, x))
  {
    var y := EscapeBody(s[2..]) + [QUOTE] + x;
    ReadLiteral(s[1], y);
    ReadLiteral(s[0], [s[1]] + y);
    assert EscapeBody(s) + [QUOTE] + x == [s[0]] + ([s[1]] + y) by {
      Regroup([s[0], s[1]], EscapeBody(s[2..]), [QUOTE], x);
      assert [s[0], s[1]] == [s[0]] + [s[1]];
      Regroup([s[0]], [s[1]], y, []);
    }
    assert [s[0]] + ([s[1]] + s[2..]) == s;
  }

  lemma ReadOneUnit(s: Text, x: Text)
    requires s != [] && !StartsWithPair(s)
    requires ReadBody(EscapeBody(s[1..]) + [QUOTE] + x) == Some((s[1..], x))
    ensures ReadBody(EscapeBody(s) + [QUOTE] + x) == Some((s, x))
  {
    var e, y := EscapeUnit(s[0]), EscapeBody(s[1..]) + [QUOTE] + x;
    assert EscapeBody(s) == e + EscapeBody(s[1..]);
    Regroup(e, EscapeBody(s[1..]), [QUOTE], x);
    ReadEscapedUnit(s[0], y);
    assert [s[0]] + s[1..] == s;
  }

  /** What is read back from an escaped string is the string, for every string, lone
      surrogates included. */
  lemma {:induction false} ReadEscapedBody(s: Text, x: Text)
    ensures ReadBody(EscapeBody(s) + [QUOTE] + x) == Some((s, x))
  {
    if s == [] {
      assert EscapeBody(s) + [QUOTE] + x == [QUOTE] + x;
    } else if StartsWithPair(s) {
      ReadEscapedBody(s[2..], x);
      ReadPair(s, x);
    } else {
      ReadEscapedBody(s[1..], x);
      ReadOneUnit(s, x);
    }
  }

  lemma ReadQuoted(s: Text, x: Text)
    ensures (Quote(s) + x)[0] == QUOTE
    ensures ReadBody((Quote(s) + x)[1..]) == Some((s, x))
  {
    ReadEscapedBody(s, x);
    Regroup([QUOTE], EscapeBody(s), [QUOTE], x);
    DropFront([QUOTE], EscapeBody(s) + [QUOTE] + x);
  }

  // ----- Integers -----

  lemma {:induction false} DigitsDenote(n: nat)
    ensures DigitsValue(Digits(n)) == n
  {
    if n >= 10 {
      DigitsDenote(n / 10);
      var t := Digits(n);
      assert t[..|t| - 1] == Digits(n / 10);
    } else {
      assert DigitsValue([]) == 0;
      assert Digits(n)[..0] == [];
    }
  }

  lemma {:induction false} CountDigits(ds: Text, x: Text)
    requires forall i :: 0 <= i < |ds| ==> IsDigit(ds[i])
    requires !StartsWithDigit(x)
    ensures DigitCount(ds + x) == |ds|
  {
    if ds == [] {
      assert ds + x == x;
    } else {
      CountDigits(ds[1..], x);
      assert (ds + x)[1..] == ds[1..] + x;
    }
  }

  lemma ReadDecimal(n: int, x: Text)
    requires !StartsWithDigit(x)
    ensures ReadNumber(Decimal(n) + x) == Some((Num(n), x))
  {
    var ds := Digits(if n < 0 then -n else n);
    CountDigits(ds, x);
    DigitsDenote(if n < 0 then -n else n);
    DropFront(Decimal(n), x);
    DropFront(ds, x);
    if n < 0 {
      Regroup([MINUS], ds, x, []);
      DropFront([MINUS], ds + x);
    }
  }

  // ----- Values -----

  /** Every printed value starts with a unit that closes nothing. */
  lemma FirstUnit(v: Json)
    ensures StableJson(v) != [] && StableJson(v)[0] !in {CLOSE_BRACKET, CLOSE_BRACE, COMMA}
  {
    if v.Num? {
      var _ := Digits(if v.n < 0 then -v.n else v.n);
    }
  }

  /** Reading a printed value back gives its canonical form, whatever follows the value. */
  lemma {:induction false} ReadPrinted(v: Json, x: Text)
    requires !StartsWithDigit(x)
    ensures ReadValue(StableJson(v) + x) == Some((Canon(v), x))
    decreases v, 4
  {
    if v.Arr? {
      ReadPrintedArray(v, x);
    } else if v.Obj? {
      ReadPrintedObject(v, x);
    } else {
      ReadPrintedScalar(v, x);
    }
  }

  lemma ReadWord(word: Text, x: Text)
    requires word in {NULL_TEXT, TRUE_TEXT, FALSE_TEXT}
    ensures ReadValue(word + x) == Some((if word == NULL_TEXT then Null else Bool(word == TRUE_TEXT), x))
  {
    var t := word + x;
    DropFront(word, x);
    assert t[0] == word[0];
  }

  lemma ReadPrintedNumber(n: int, x: Text)
    requires !StartsWithDigit(x)
    ensures ReadValue(Decimal(n) + x) == Some((Num(n), x))
  {
    ReadDecimal(n, x);
    var t := Decimal(n) + x;
    assert t[0] == MINUS || IsDigit(t[0]);
    assert ReadValue(t) == ReadNumber(t);
  }

  lemma ReadPrintedString(s: Text, x: Text)
    ensures ReadValue(Quote(s) + x) == Some((Str(s), x))
  {
    ReadQuoted(s, x);
  }

  lemma ReadPrintedScalar(v: Json, x: Text)
    requires !v.Arr? && !v.Obj? && !StartsWithDigit(x)
    ensures ReadValue(StableJson(v) + x) == Some((if v.Undefined? then Null else v, x))
  {
    if v.Num? {
      ReadPrintedNumber(v.n, x);
    } else if v.Str? {
      ReadPrintedString(v.s, x);
    } else {
      ReadWord(StableJson(v), x);
    }
  }

  lemma ReadArray(inner: Text, items: seq<Json>, x: Text)
    requires inner != [] && inner[0] != CLOSE_BRACKET && ReadItems(inner) == Some((items, x))
    ensures ReadValue([OPEN_BRACKET] + inner) == Some((Arr(items), x))
  {
    DropFront([OPEN_BRACKET], inner);
  }

  lemma ReadObject(inner: Text, fields: seq<Field>, x: Text)
    requires inner != [] && inner[0] != CLOSE_BRACE && ReadMembers(inner) == Some((fields, x))
    ensures ReadValue([OPEN_BRACE] + inner) == Some((Obj(fields), x))
  {
    DropFront([OPEN_BRACE], inner);
  }

  lemma ReadEmpty(x: Text)
    ensures ReadValue([OPEN_BRACKET, CLOSE_BRACKET] + x) == Some((Arr([]), x))
    ensures ReadValue([OPEN_BRACE, CLOSE_BRACE] + x) == Some((Obj([]), x))
  {
    DropFront([OPEN_BRACKET, CLOSE_BRACKET], x);
    DropFront([OPEN_BRACE, CLOSE_BRACE], x);
  }

  lemma {:induction false} ReadPrintedArray(v: Json, x: Text)
    requires v.Arr?
    ensures ReadValue(StableJson(v) + x) == Some((Canon(v), x))
    decreases v, 3
  {
    if v.items == [] {
      assert PrintItems(v.items) == [];
      assert StableJson(v) == [OPEN_BRACKET, CLOSE_BRACKET];
      ReadEmpty(x);
    } else {
      ReadPrintedItems(v.items, x);
      var inner := PrintItems(v.items) + [CLOSE_BRACKET] + x;
      Regroup([OPEN_BRACKET], PrintItems(v.items), [CLOSE_BRACKET], x);
      FirstUnit(v.items[0]);
      ReadArray(inner, CanonItems(v.items), x);
    }
  }

  lemma {:induction false} ReadPrintedObject(v: Json, x: Text)
    requires v.Obj?
    ensures ReadValue(StableJson(v) + x) == Some((Canon(v), x))
    decreases v, 3
  {
    var ks := PrintedKeys(v);
    if ks == [] {
      assert PrintMembers(v, ks) == [] && CanonMembers(v, ks) == [];
      assert StableJson(v) == [OPEN_BRACE, CLOSE_BRACE];
      ReadEmpty(x);
    } else {
      ReadPrintedMembers(v, ks, x);
      var inner := PrintMembers(v, ks) + [CLOSE_BRACE] + x;
      Regroup([OPEN_BRACE], PrintMembers(v, ks), [CLOSE_BRACE], x);
      assert inner[0] == QUOTE by {
        assert PrintMembers(v, ks)[0] == PrintMember(v, ks[0])[0] == QUOTE;
      }
      ReadObject(inner, CanonMembers(v, ks), x);
    }
  }

  lemma JoinItems(t: Text, v: Json, last: Text, vs: seq<Json>, x: Text)
    requires ReadValue(t) == Some((v, [COMMA] + last)) && ReadItems(last) == Some((vs, x))
    ensures ReadItems(t) == Some(([v] + vs, x))
  {
    DropFront([COMMA], last);
  }

  lemma EndItems(t: Text, v: Json, x: Text)
    requires ReadValue(t) == Some((v, [CLOSE_BRACKET] + x))
    ensures ReadItems(t) == Some(([v], x))
  {
    DropFront([CLOSE_BRACKET], x);
  }

  lemma {:induction false} ReadPrintedItems(items: seq<Json>, x: Text)
    requires items != []
    ensures ReadItems(PrintItems(items) + [CLOSE_BRACKET] + x) == Some((CanonItems(items), x))
    decreases items
  {
    var t := PrintItems(items) + [CLOSE_BRACKET] + x;
    if |items| == 1 {
      ReadPrinted(items[0], [CLOSE_BRACKET] + x);
      Regroup(StableJson(items[0]), [CLOSE_BRACKET], x, []);
      EndItems(t, Canon(items[0]), x);
      assert CanonItems(items) == [Canon(items[0])];
    } else {
      var last := PrintItems(items[1..]) + [CLOSE_BRACKET] + x;
      ReadPrinted(items[0], [COMMA] + last);
      RegroupList(StableJson(items[0]), PrintItems(items[1..]), [CLOSE_BRACKET], x);
      ReadPrintedItems(items[1..], x);
      JoinItems(t, Canon(items[0]), last, CanonItems(items[1..]), x);
    }
  }

  lemma {:induction false} ReadPrintedMember(v: Json, k: Text, x: Text)
    requires v.Obj? && k in Keys(v.fields)
    requires !StartsWithDigit(x)
    ensures ReadMember(PrintMember(v, k) + x) == Some((Field(k, Canon(Get(v, k))), x))
    decreases v, 1
  {
    var p := StableJson(Get(v, k));
    var rest := [COLON] + p + x;
    Regroup(Quote(k), [COLON], p, x);
    ReadQuoted(k, rest);
    Regroup([COLON], p, x, []);
    DropFront([COLON], p + x);
    ReadPrinted(Get(v, k), x);
  }

  lemma JoinMembers(t: Text, f: Field, last: Text, fs: seq<Field>, x: Text)
    requires ReadMember(t) == Some((f, [COMMA] + last)) && ReadMembers(last) == Some((fs, x))
    ensures ReadMembers(t) == Some(([f] + fs, x))
  {
    DropFront([COMMA], last);
  }

  lemma EndMembers(t: Text, f: Field, x: Text)
    requires ReadMember(t) == Some((f, [CLOSE_BRACE] + x))
    ensures ReadMembers(t) == Some(([f], x))
  {
    DropFront([CLOSE_BRACE], x);
  }

  lemma {:induction false} ReadPrintedMembers(v: Json, ks: seq<Text>, x: Text)
    requires v.Obj? && ks != [] && forall k <- ks :: k in Keys(v.fields)
    ensures ReadMembers(PrintMembers(v, ks) + [CLOSE_BRACE] + x) == Some((CanonMembers(v, ks), x))
    decreases v, 2, |ks|
  {
    var t := PrintMembers(v, ks) + [CLOSE_BRACE] + x;
    var f := Field(ks[0], Canon(Get(v, ks[0])));
    assert CanonMembers(v, ks) == [f] + CanonMembers(v, ks[1..]);
    if |ks| == 1 {
      assert [f] + CanonMembers(v, ks[1..]) == [f];
      Regroup(PrintMember(v, ks[0]), [CLOSE_BRACE], x, []);
      ReadPrintedMember(v, ks[0], [CLOSE_BRACE] + x);
      EndMembers(t, f, x);
    } else {
      var last := PrintMembers(v, ks[1..]) + [CLOSE_BRACE] + x;
      RegroupList(PrintMember(v, ks[0]), PrintMembers(v, ks[1..]), [CLOSE_BRACE], x);
      ReadPrintedMember(v, ks[0], [COMMA] + last);
      ReadPrintedMembers(v, ks[1..], x);
      JoinMembers(t, f, last, CanonMembers(v, ks[1..]), x);
    }
  }

  /** Reading a whole printed text gives the canonical form and leaves nothing over. */
  lemma RoundTrip(v: Json)
    ensures ReadValue(StableJson(v)) == Some((Canon(v), []))
  {
    ReadPrinted(v, []);
    assert StableJson(v) + [] == StableJson(v);
  }

  // ----- Key order -----

  ghost predicate StrictlySorted(ks: seq<Text>) {
    forall i, j :: 0 <= i < j < |ks| ==> Before(ks[i], ks[j])
  }

  lemma BeforeIsStrictOrder(a: Text, b: Text, c: Text)
    ensures !Before(a, a)
    ensures !(Before(a, b) && Before(b, a))
    ensures Before(a, b) && Before(b, c) ==> Before(a, c)
    ensures a == b || Before(a, b) || Before(b, a)
    decreases |a| + |b| + |c|
  {
    if a != [] && b != [] && c != [] {
      BeforeIsStrictOrder(a[1..], b[1..], c[1..]);
      assert a[0] == b[0] && a[1..] == b[1..] ==> a == b by {
        assert a == [a[0]] + a[1..] && b == [b[0]] + b[1..];
      }
    } else if a != [] && b != [] {
      BeforeIsStrictOrder(a[1..], b[1..], c);
      assert a == [a[0]] + a[1..] && b == [b[0]] + b[1..];
    } else if a != [] && c != [] {
      BeforeIsStrictOrder(a[1..], b, c[1..]);
    } else if a != [] {
      BeforeIsStrictOrder(a[1..], b, c);
    }
  }

  lemma {:induction false} InsertKeepsSorted(k: Text, ks: seq<Text>)
    requires StrictlySorted(ks) && k !in ks
    ensures StrictlySorted(InsertKey(k, ks))
  {
    var r := InsertKey(k, ks);
    if ks != [] {
      forall j | 0 <= j < |ks| && Before(k, ks[0])
        ensures Before(k, ks[j])
      {
        BeforeIsStrictOrder(k, ks[0], ks[j]);
      }
      if !Before(k, ks[0]) {
        InsertKeepsSorted(k, ks[1..]);
        BeforeIsStrictOrder(k, ks[0], k);
        forall j | 1 <= j < |r|
          ensures Before(r[0], r[j])
        {
          assert r[j] in multiset(r[1..]) && multiset(r[1..]) == multiset(ks[1..]) + multiset{k};
        }
      }
    }
  }

  lemma SortKeepsElements(ks: seq<Text>)
    ensures forall k :: k in SortKeys(ks) <==> k in ks
  {
    assert forall k :: k in SortKeys(ks) <==> k in multiset(SortKeys(ks));
  }

  lemma {:induction false} SortGivesSorted(ks: seq<Text>)
    requires forall i, j :: 0 <= i < j < |ks| ==> ks[i] != ks[j]
    ensures StrictlySorted(SortKeys(ks))
  {
    if ks != [] {
      var n := |ks| - 1;
      SortGivesSorted(ks[..n]);
      SortKeepsElements(ks[..n]);
      InsertKeepsSorted(ks[n], SortKeys(ks[..n]));
    }
  }

  lemma {:induction false} DefinedKeepsSorted(v: Json, ks: seq<Text>)
    requires v.Obj? && (forall k <- ks :: k in Keys(v.fields)) && StrictlySorted(ks)
    ensures StrictlySorted(Defined(v, ks))
  {
    if ks != [] {
      DefinedKeepsSorted(v, ks[1..]);
      var r := Defined(v, ks[1..]);
      forall j | 0 <= j < |r|
        ensures Before(ks[0], r[j])
      {
        assert r[j] in r;
        assert r[j] in ks[1..];
      }
    }
  }

  /** The printed keys of an object are its defined keys, each once, in sorted order. */
  lemma PrintedKeysAre(v: Json)
    requires v.Obj? && DistinctKeys(v)
    ensures StrictlySorted(PrintedKeys(v))
    ensures forall k :: k in PrintedKeys(v) <==> k in DefinedKeys(v)
  {
    SortGivesSorted(Keys(v.fields));
    SortKeepsElements(Keys(v.fields));
    DefinedKeepsSorted(v, SortKeys(Keys(v.fields)));
  }

  /** What is printed as it is: no control character, quote, backslash or half of a surrogate pair. */
  predicate Plain(c: Unit) {
    c >= 0x20 && c != 0x22 && c != 0x5c && !(0xd800 <= c <= 0xdfff)
  }

  /** Section 7 of RFC 8259 asks for no more. */
  lemma PlainTextStays(s: Text)
    requires forall i :: 0 <= i < |s| ==> Plain(s[i])
    ensures Quote(s) == [0x22] + s + [0x22]
  {
    PlainBodyStays(s);
  }

  lemma {:induction false} PlainBodyStays(s: Text)
    requires forall i :: 0 <= i < |s| ==> Plain(s[i])
    ensures EscapeBody(s) == s
  {
    if s != [] {
      PlainBodyStays(s[1..]);
      assert s == [s[0]] + s[1..];
    }
  }

  /** A surrogate pair is printed as it is; half of one alone is escaped with six characters. */
  lemma SurrogatesArePaired(a: Unit, b: Unit, rest: Text)
    requires 0xd800 <= a < 0xdc00 <= b < 0xe000
    ensures EscapeBody([a, b] + rest) == [a, b] + EscapeBody(rest)
    ensures |EscapeBody([a])| == |EscapeBody([b])| == 6
  {
    assert ([a, b] + rest)[2..] == rest;
  }

  lemma {:induction false} BeforeMeans(a: Text, b: Text) returns (k: nat)
    requires Before(a, b)
    ensures k <= |a| && k < |b| && a[..k] == b[..k] && (k == |a| || a[k] < b[k])
  {
    k := 0;
    if a != [] && a[0] == b[0] {
      k := BeforeMeans(a[1..], b[1..]);
      assert a[..k + 1] == [a[0]] + a[1..][..k] && b[..k + 1] == [b[0]] + b[1..][..k];
      k := k + 1;
    }
  }

  /** Of two printed keys the later one is larger: where they part, the earlier one ends or has
      the smaller code unit. */
  lemma PrintedKeysAscend(v: Json, i: nat, j: nat)
    requires v.Obj? && DistinctKeys(v) && i < j < |PrintedKeys(v)|
    ensures var a, b := PrintedKeys(v)[i], PrintedKeys(v)[j];
      exists k :: 0 <= k <= |a| && k < |b| && a[..k] == b[..k] && (k == |a| || a[k] < b[k])
  {
    PrintedKeysAre(v);
    var k := BeforeMeans(PrintedKeys(v)[i], PrintedKeys(v)[j]);
  }

  lemma HasElement(b: seq<Text>)
    ensures b == [] || exists k :: k in b
  {
    if b != [] {
      assert b[0] in b;
    }
  }

  /** A strictly sorted list is determined by its elements. */
  lemma {:induction false} SortedIsUnique(a: seq<Text>, b: seq<Text>)
    requires StrictlySorted(a) && StrictlySorted(b)
    requires forall k :: k in a <==> k in b
    ensures a == b
  {
    if a == [] {
      HasElement(b);
    } else {
      assert a[0] in b;
      assert b[0] in a;
      BeforeIsStrictOrder(a[0], b[0], a[0]);
      assert a[0] == b[0];
      forall k
        ensures k in a[1..] <==> k in b[1..]
      {
        BeforeIsStrictOrder(k, k, k);
        assert k in a <==> k == a[0] || k in a[1..];
        assert k in b <==> k == b[0] || k in b[1..];
      }
      SortedIsUnique(a[1..], b[1..]);
    }
  }

  // ----- Unambiguity -----

  lemma SortKeepsKeys(v: Json)
    requires v.Obj?
    ensures forall k :: k in PrintedKeys(v) <==> k in DefinedKeys(v)
  {
    SortKeepsElements(Keys(v.fields));
  }

  lemma MembersShowKeys(v: Json, w: Json, a: seq<Text>, b: seq<Text>)
    requires v.Obj? && w.Obj?
    requires (forall k <- a :: k in Keys(v.fields)) && (forall k <- b :: k in Keys(w.fields))
    requires CanonMembers(v, a) == CanonMembers(w, b)
    ensures a == b && forall i :: 0 <= i < |a| ==> Canon(Get(v, a[i])) == Canon(Get(w, a[i]))
  {
    var ca, cb := CanonMembers(v, a), CanonMembers(w, b);
    assert |a| == |b|;
    forall i | 0 <= i < |a|
      ensures a[i] == b[i] && Canon(Get(v, a[i])) == Canon(Get(w, a[i]))
    {
      assert ca[i] == cb[i];
    }
  }

  lemma {:induction false} CanonGivesSame(v: Json, w: Json)
    requires Canon(v) == Canon(w)
    ensures Same(v, w)
    decreases v, 1
  {
    if v.Arr? {
      CanonItemsGiveSame(v.items, w.items);
    } else if v.Obj? {
      CanonMembersGiveSame(v, w);
    }
  }

  lemma {:induction false} CanonItemsGiveSame(a: seq<Json>, b: seq<Json>)
    requires CanonItems(a) == CanonItems(b)
    ensures |a| == |b| && forall i :: 0 <= i < |a| ==> Same(a[i], b[i])
    decreases a, 0
  {
    assert |a| == |CanonItems(a)| == |b|;
    forall i | 0 <= i < |a|
      ensures Same(a[i], b[i])
    {
      assert Canon(a[i]) == CanonItems(a)[i] == CanonItems(b)[i] == Canon(b[i]);
      CanonGivesSame(a[i], b[i]);
    }
  }

  lemma {:induction false} CanonMembersGiveSame(v: Json, w: Json)
    requires v.Obj? && w.Obj? && CanonMembers(v, PrintedKeys(v)) == CanonMembers(w, PrintedKeys(w))
    ensures Same(v, w)
    decreases v, 0
  {
    var a := PrintedKeys(v);
    MembersShowKeys(v, w, a, PrintedKeys(w));
    SortKeepsKeys(v);
    SortKeepsKeys(w);
    forall k | k in DefinedKeys(v)
      ensures Same(Get(v, k), Get(w, k))
    {
      var i :| 0 <= i < |a| && a[i] == k;
      CanonGivesSame(Get(v, k), Get(w, k));
    }
    assert DefinedKeys(v) == DefinedKeys(w);
  }

  lemma {:induction false} SameGivesCanon(v: Json, w: Json)
    requires DistinctKeys(v) && DistinctKeys(w) && Same(v, w)
    ensures Canon(v) == Canon(w)
    decreases v
  {
    match v
    case Arr(items) =>
      forall i | 0 <= i < |items|
        ensures CanonItems(items)[i] == CanonItems(w.items)[i]
      {
        SameGivesCanon(items[i], w.items[i]);
      }
      assert CanonItems(items) == CanonItems(w.items);
    case Obj(_) =>
      PrintedKeysAre(v);
      PrintedKeysAre(w);
      SortedIsUnique(PrintedKeys(v), PrintedKeys(w));
      var ks := PrintedKeys(v);
      forall i | 0 <= i < |ks|
        ensures CanonMembers(v, ks)[i] == CanonMembers(w, ks)[i]
      {
        assert ks[i] in DefinedKeys(v);
        SameGivesCanon(Get(v, ks[i]), Get(w, ks[i]));
      }
      assert CanonMembers(v, ks) == CanonMembers(w, ks);
    case _ =>
  }

  /** Printing forgets exactly the canonical form. */
  lemma {:induction false} PrintFollowsCanon(v: Json, w: Json)
    requires Canon(v) == Canon(w)
    ensures StableJson(v) == StableJson(w)
    decreases v, 1
  {
    if v.Arr? {
      PrintItemsFollow(v.items, w.items);
    } else if v.Obj? {
      MembersShowKeys(v, w, PrintedKeys(v), PrintedKeys(w));
      PrintMembersFollow(v, w, PrintedKeys(v));
    }
  }

  lemma {:induction false} PrintItemsFollow(a: seq<Json>, b: seq<Json>)
    requires CanonItems(a) == CanonItems(b)
    ensures PrintItems(a) == PrintItems(b)
    decreases a, 0
  {
    assert |a| == |CanonItems(a)| == |b|;
    if a != [] {
      assert CanonItems(a)[0] == CanonItems(b)[0];
      assert CanonItems(a)[1..] == CanonItems(b)[1..];
      PrintFollowsCanon(a[0], b[0]);
      PrintItemsFollow(a[1..], b[1..]);
    }
  }

  lemma {:induction false} PrintMembersFollow(v: Json, w: Json, ks: seq<Text>)
    requires v.Obj? && w.Obj?
    requires forall k <- ks :: k in Keys(v.fields) && k in Keys(w.fields)
    requires CanonMembers(v, ks) == CanonMembers(w, ks)
    ensures PrintMembers(v, ks) == PrintMembers(w, ks)
    decreases v, 0, |ks|
  {
    if ks != [] {
      assert CanonMembers(v, ks)[0].value == CanonMembers(w, ks)[0].value;
      PrintFollowsCanon(Get(v, ks[0]), Get(w, ks[0]));
      assert CanonMembers(v, ks)[1..] == CanonMembers(w, ks)[1..];
      PrintMembersFollow(v, w, ks[1..]);
    }
  }

  /** Two values print the same text exactly when they are equal up to object key order. */
  lemma Unambiguous(v: Json, w: Json)
    requires DistinctKeys(v) && DistinctKeys(w)
    ensures StableJson(v) == StableJson(w) <==> Same(v, w)
  {
    if StableJson(v) == StableJson(w) {
      RoundTrip(v);
      RoundTrip(w);
      CanonGivesSame(v, w);
    }
    if Same(v, w) {
      SameGivesCanon(v, w);
      PrintFollowsCanon(v, w);
    }
  }
}
