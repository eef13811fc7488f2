/** String handling of the source, for ASCII letters and white space. */
module Texts {
  predicate IsSpace(c: char) {
    c == ' ' || '\t' <= c <= '\r'
  }

  function TrimLeft(s: string): (r: string)
    ensures r != [] ==> !IsSpace(r[0])
  {
    if s != [] && IsSpace(s[0]) then TrimLeft(s[1..]) else s
  }

  function TrimRight(s: string): (r: string)
    ensures |r| <= |s| && r == s[..|r|] && (r != [] ==> !IsSpace(r[|r| - 1]))
  {
    if s != [] && IsSpace(s[|s| - 1]) then TrimRight(s[..|s| - 1]) else s
  }

  function Trim(s: string): string {
    TrimRight(TrimLeft(s))
  }

  function Lower(s: string): (r: string)
    ensures |r| == |s|
  {
    if s == [] then []
    else [if 'A' <= s[0] <= 'Z' then s[0] - 'A' + 'a' else s[0]] + Lower(s[1..])
  }

  function DropFinalDot(s: string): string {
    if s != [] && s[|s| - 1] == '.' then s[..|s| - 1] else s
  }

  /** Trimmed, in lower case, without a final dot. */
  function NormalizeHostname(s: string): string {
    DropFinalDot(Lower(Trim(s)))
  }

  predicate EndsWith(s: string, suffix: string) {
    |suffix| <= |s| && s[|s| - |suffix|..] == suffix
  }

  predicate StartsWith(s: string, prefix: string) {
    prefix <= s
  }

  /** Trimmed and cut to a length. */
  function Bounded(s: string, max: nat): (r: string)
    ensures |r| <= max
  {
    Trim(s)[..if |Trim(s)| <= max then |Trim(s)| else max]
  }

  predicate IsLetterOrDigit(c: char) {
    'a' <= c <= 'z' || 'A' <= c <= 'Z' || '0' <= c <= '9'
  }

  /** An identifier of a node or device: a letter or digit and up to 119 more characters. */
  predicate IsIdentifier(id: string) {
    1 <= |id| <= 120 && IsLetterOrDigit(id[0]) && forall i :: 1 <= i < |id| ==> IsLetterOrDigit(id[i]) || id[i] in "._:-"
  }

  // ----- What normalising does -----

  /** Letters become small ones, which are 32 further on; nothing else changes. */
  lemma {:induction false} LowerIs(s: string, i: nat)
    requires i < |s|
    ensures Lower(s)[i] as int == s[i] as int + if 65 <= s[i] as int <= 90 then 32 else 0
  {
    if i > 0 { LowerIs(s[1..], i - 1); }
  }

  /** Trimming takes off the white space at both ends and no more. */
  lemma TrimIs(s: string) returns (i: nat, j: nat)
    ensures i <= j <= |s| && Trim(s) == s[i..j]
    ensures (forall c <- s[..i] :: IsSpace(c)) && (forall c <- s[j..] :: IsSpace(c))
    ensures i < j ==> !IsSpace(s[i]) && !IsSpace(s[j - 1])
  {
    TrimLeftIs(s);
    var t := TrimLeft(s);
    i := |s| - |t|;
    j := i + |Trim(s)|;
    SpaceBefore(s);
    SpaceAfter(t);
    assert t[|Trim(s)|..] == s[j..];
    if i < j {
      assert s[i] == t[0] && s[j - 1] == Trim(s)[|Trim(s)| - 1];
    }
  }

  lemma {:induction false} SpaceBefore(s: string)
    ensures |TrimLeft(s)| <= |s| && forall c <- s[..|s| - |TrimLeft(s)|] :: IsSpace(c)
  {
    if s != [] && IsSpace(s[0]) {
      SpaceBefore(s[1..]);
      var n := |s| - |TrimLeft(s)|;
      assert s[..n] == [s[0]] + s[1..][..n - 1];
    }
  }

  lemma {:induction false} SpaceAfter(s: string)
    ensures forall c <- s[|TrimRight(s)|..] :: IsSpace(c)
  {
    if s != [] && IsSpace(s[|s| - 1]) {
      var n := |s| - 1;
      SpaceAfter(s[..n]);
      var k := |TrimRight(s)|;
      assert s[k..] == s[..n][k..] + [s[n]];
    }
  }

  // ----- What bounding leaves -----

  lemma {:induction false} TrimLeftIs(s: string)
    ensures |TrimLeft(s)| <= |s| && TrimLeft(s) == s[|s| - |TrimLeft(s)|..]
    ensures TrimLeft(s) == "" <==> forall c <- s :: IsSpace(c)
  {
    if s != [] && IsSpace(s[0]) {
      TrimLeftIs(s[1..]);
      assert s == [s[0]] + s[1..];
    }
  }

  /** A part of the string, empty exactly when that holds only white space. */
  lemma BoundedIs(s: string, max: nat)
    requires max > 0
    ensures exists i, j :: 0 <= i <= j <= |s| && Bounded(s, max) == s[i..j]
    ensures Bounded(s, max) == "" <==> forall c <- s :: IsSpace(c)
  {
    TrimLeftIs(s);
    var t := TrimLeft(s);
    var i, n := |s| - |t|, |Bounded(s, max)|;
    assert t != "" ==> TrimRight(t) != "" by {
      if t != "" { NotAllSpace(t); }
    }
    assert Bounded(s, max) == t[..n] == s[i..i + n];
  }

  lemma {:induction false} NotAllSpace(t: string)
    requires t != "" && !IsSpace(t[0])
    ensures TrimRight(t) != ""
  {
    if IsSpace(t[|t| - 1]) { NotAllSpace(t[..|t| - 1]); }
  }
}
