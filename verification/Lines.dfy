/** Text files as bytes, split at newlines. */
module Lines {
  type Byte = n: int | 0 <= n < 256
  type Bytes = seq<Byte>

  const NEWLINE: Byte := 0x0a

  function CountNewlines(t: Bytes): (n: nat) {
    if t == [] then 0 else (if t[0] == NEWLINE then 1 else 0) + CountNewlines(t[1..])
  }

  /** The pieces between newlines; a text without any is one piece. */
  function Split(t: Bytes): (r: seq<Bytes>)
    ensures |r| == 1 + CountNewlines(t)
  {
    if t == [] then [[]]
    else if t[0] == NEWLINE then [[]] + Split(t[1..])
    else PrependToFirst(t[0], Split(t[1..]))
  }

  function PrependToFirst(c: Byte, r: seq<Bytes>): (p: seq<Bytes>)
    requires r != []
    ensures |p| == |r|
  {
    [[c] + r[0]] + r[1..]
  }

  /** Two lists of pieces as one, the last piece of the left joined to the first of the right. */
  function Glue(p: seq<Bytes>, q: seq<Bytes>): seq<Bytes>
    requires p != [] && q != []
  {
    p[..|p| - 1] + [p[|p| - 1] + q[0]] + q[1..]
  }

  function DropFinalEmpty(pieces: seq<Bytes>): seq<Bytes> {
    if pieces != [] && pieces[|pieces| - 1] == [] then pieces[..|pieces| - 1] else pieces
  }

  /** The lines of a text: its pieces without the empty one after a final newline. */
  function LinesOf(t: Bytes): seq<Bytes> {
    DropFinalEmpty(Split(t))
  }

  /** Each line followed by its newline. */
  function JoinLines(lines: seq<Bytes>): Bytes {
    if lines == [] then [] else lines[0] + [NEWLINE] + JoinLines(lines[1..])
  }

  lemma {:induction false} CountAdds(a: Bytes, b: Bytes)
    ensures CountNewlines(a + b) == CountNewlines(a) + CountNewlines(b)
  {
    if a == [] {
      assert a + b == b;
    } else {
      CountAdds(a[1..], b);
      assert (a + b)[1..] == a[1..] + b;
    }
  }

  lemma GlueAfterEmpty(p: seq<Bytes>, q: seq<Bytes>)
    requires p != [] && q != []
    ensures Glue([[]] + p, q) == [[]] + Glue(p, q)
  {
    assert ([[]] + p)[..|p|] == [[]] + p[..|p| - 1];
  }

  lemma GlueAfterPrepend(c: Byte, p: seq<Bytes>, q: seq<Bytes>)
    requires p != [] && q != []
    ensures Glue(PrependToFirst(c, p), q) == PrependToFirst(c, Glue(p, q))
  {
    var l, r := Glue(PrependToFirst(c, p), q), PrependToFirst(c, Glue(p, q));
    assert |l| == |r|;
    if |p| == 1 {
      assert [c] + (p[0] + q[0]) == [c] + p[0] + q[0];
    }
    assert forall i :: 0 <= i < |l| ==> l[i] == r[i];
  }

  lemma GlueEmptyLeft(q: seq<Bytes>)
    requires q != []
    ensures Glue([[]], q) == q
  {
    assert [] + q[0] == q[0];
    assert q == [q[0]] + q[1..];
  }

  /** Splitting a concatenation joins the last piece of the left part to the first piece of
      the right part and leaves the others alone. */
  lemma {:induction false} SplitAdds(a: Bytes, b: Bytes)
    ensures Split(a + b) == Glue(Split(a), Split(b))
  {
    if a == [] {
      assert a + b == b;
      GlueEmptyLeft(Split(b));
    } else {
      SplitAdds(a[1..], b);
      assert (a + b)[1..] == a[1..] + b;
      GlueAfterEmpty(Split(a[1..]), Split(b));
      GlueAfterPrepend(a[0], Split(a[1..]), Split(b));
    }
  }

  /** The last piece is empty exactly when the text is empty or ends in a newline. */
  lemma {:induction false} LastPiece(t: Bytes)
    ensures Split(t)[|Split(t)| - 1] == [] <==> t == [] || t[|t| - 1] == NEWLINE
  {
    if t != [] {
      LastPiece(t[1..]);
    }
  }
}
