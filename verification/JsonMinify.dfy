// cJSON_Minify of packages/cJSON-v1.0.2/cJSON.c: in place it computes a simple
// left-to-right function of the text, and that function turns the formatted
// print of any tree into the unformatted one.
module JsonMinify {
  import opened Bytes
  import opened JsonPrint
  import opened JsonParse

  predicate Blank(c: byte) {
    c == SPACE || c == TAB || c == RETURN || c == NEWLINE
  }

  // Behind a "//" comment: its newline, or the end of the text.
  function LineEnd(t: seq<byte>, i: nat): (j: nat)
    ensures i <= j && (i <= |t| ==> j <= |t|)
    decreases Left(t, i)
  {
    if At(t, i) != 0 && At(t, i) != NEWLINE then LineEnd(t, i + 1) else i
  }

  // The closing star of a comment, or the end of the text.
  function CommentEnd(t: seq<byte>, i: nat): (j: nat)
    ensures i <= j && (i <= |t| ==> j <= |t|)
    decreases Left(t, i)
  {
    if At(t, i) != 0 && !(At(t, i) == STAR && At(t, i + 1) == SLASH) then CommentEnd(t, i + 1) else i
  }

  // The closing quote of a string whose contents start at i, or the end of the text.
  function StringEnd(t: seq<byte>, i: nat): (j: nat)
    ensures i <= j
    decreases Left(t, i)
  {
    if At(t, i) == 0 || At(t, i) == QUOTE then i
    else StringEnd(t, if At(t, i) == BACKSLASH then i + 2 else i + 1)
  }

  // One turn of the outer loop: how far it reads, and whether it keeps what it read.
  datatype Token = Token(next: nat, keep: bool)

  function NextToken(t: seq<byte>, i: nat): (k: Token)
    ensures i < k.next
  {
    var c := At(t, i);
    if Blank(c) then Token(i + 1, false)
    else if c == SLASH && At(t, i + 1) == SLASH then Token(LineEnd(t, i + 1), false)
    else if c == SLASH && At(t, i + 1) == STAR then Token(CommentEnd(t, i + 1) + 2, false)
    else if c == QUOTE then Token(StringEnd(t, i + 1) + 1, true)
    else Token(i + 1, true)
  }

  // Strings and comments are closed before the text ends.
  predicate Closed(t: seq<byte>, i: nat)
    decreases Left(t, i)
  {
    i <= |t| && (At(t, i) == 0 || (NextToken(t, i).next <= |t| && Closed(t, NextToken(t, i).next)))
  }

  function Minify(t: seq<byte>, i: nat): (s: seq<byte>)
    requires Closed(t, i)
    ensures |s| <= |t| - i
    decreases Left(t, i)
  {
    if At(t, i) == 0 then []
    else
      var k := NextToken(t, i);
      (if k.keep then t[i..k.next] else []) + Minify(t, k.next)
  }

  // ------------------------------------------------------------- in place

  // The unread part of the text is untouched; what has been kept is out, before it.
  ghost predicate Kept(a: array<byte>, n: nat, t: seq<byte>, out: seq<byte>, into: nat, j: nat)
    reads a
  {
    && n == |t| < a.Length && into <= j <= n && a[n] == 0
    && a[j..n] == t[j..] && a[..into] == out
  }

  lemma KeptAt(a: array<byte>, n: nat, t: seq<byte>, out: seq<byte>, into: nat, j: nat, x: nat)
    requires Kept(a, n, t, out, into, j) && j <= x <= n
    ensures a[x] == At(t, x)
  {
    if x < n {
      assert a[x] == a[j..n][x - j] == t[j..][x - j];
    }
  }

  // The "//" and "/* */" branches: read on without writing.
  method SkipComment(a: array<byte>, ghost t: seq<byte>, ghost out: seq<byte>, ghost into: nat, i: nat) returns (j: nat)
    requires CString(t) && Kept(a, |t|, t, out, into, i) && i < |t| && NextToken(t, i).next <= |t|
    requires At(t, i) == SLASH && (At(t, i + 1) == SLASH || At(t, i + 1) == STAR)
    ensures j == NextToken(t, i).next && Kept(a, |t|, t, out, into, j)
  {
    ghost var n := |t|;
    KeptAt(a, n, t, out, into, i, i + 1);
    j := i + 1;
    if a[i + 1] == STAR {
      while a[j] != 0 && !(a[j] == STAR && a[j + 1] == SLASH)
        invariant i < j && CommentEnd(t, i + 1) == CommentEnd(t, j) && j + 2 <= n + 2 && j <= n && a[j] == At(t, j)
        invariant j < n ==> a[j + 1] == At(t, j + 1)
        decreases n - j
      {
        j := j + 1;
        KeptAt(a, n, t, out, into, i, j);
        if j < n {
          KeptAt(a, n, t, out, into, i, j + 1);
        }
      }
      j := j + 2;
    } else {
      while a[j] != 0 && a[j] != NEWLINE
        invariant i < j <= n && LineEnd(t, i + 1) == LineEnd(t, j) && a[j] == At(t, j)
        decreases n - j
      {
        j := j + 1;
        KeptAt(a, n, t, out, into, i, j);
      }
    }
    KeptSkips(a, t, out, into, i, j);
  }

  // out, then everything read since from, has been kept.
  ghost predicate KeptSince(a: array<byte>, t: seq<byte>, out: seq<byte>, from: nat, into: nat, j: nat)
    reads a
  {
    from <= j <= |t| && Kept(a, |t|, t, out + t[from..j], into, j) && a[j] == At(t, j)
  }

  // *into++ = *json++
  method CopyOne(a: array<byte>, ghost t: seq<byte>, ghost out: seq<byte>, ghost from: nat, into: nat, j: nat)
    returns (into': nat, j': nat)
    requires KeptSince(a, t, out, from, into, j) && j < |t|
    modifies a
    ensures into' == into + 1 && j' == j + 1 && KeptSince(a, t, out, from, into', j')
  {
    ghost var n := |t|;
    ghost var was := a[..];
    a[into] := a[j];
    into', j' := into + 1, j + 1;
    assert a[..into] == was[..into];
    assert a[j + 1..n] == t[j + 1..] by {
      assert a[j + 1..n] == was[j + 1..n] == was[j..n][1..];
    }
    assert out + t[from..j] + [t[j]] == out + t[from..j + 1];
    KeptAt(a, n, t, out + t[from..j'], into', j', j');
  }

  // The string branch.
  method CopyString(a: array<byte>, ghost t: seq<byte>, ghost out: seq<byte>, into: nat, from: nat)
    returns (into': nat, j: nat)
    requires KeptSince(a, t, out, from, into, from) && At(t, from) == QUOTE
    requires StringEnd(t, from + 1) < |t|
    modifies a
    ensures j == StringEnd(t, from + 1) + 1 <= |t|
    ensures KeptSince(a, t, out, from, into', j)
  {
    into', j := CopyOne(a, t, out, from, into, from);
    while a[j] != 0 && a[j] != QUOTE
      invariant j < a.Length && a[j] == At(t, j)
      invariant from < j <= StringEnd(t, from + 1) == StringEnd(t, j)
      invariant KeptSince(a, t, out, from, into', j)
      decreases |t| - j
    {
      if a[j] == BACKSLASH {
        into', j := CopyOne(a, t, out, from, into', j);
      }
      into', j := CopyOne(a, t, out, from, into', j);
    }
    into', j := CopyOne(a, t, out, from, into', j);
  }

  lemma KeptToSince(a: array<byte>, t: seq<byte>, out: seq<byte>, into: nat, j: nat)
    requires Kept(a, |t|, t, out, into, j)
    ensures KeptSince(a, t, out, j, into, j)
  {
    assert out + t[j..j] == out;
    KeptAt(a, |t|, t, out, into, j, j);
  }

  lemma KeptSkips(a: array<byte>, t: seq<byte>, out: seq<byte>, into: nat, j: nat, next: nat)
    requires Kept(a, |t|, t, out, into, j) && j <= next <= |t|
    ensures Kept(a, |t|, t, out, into, next)
  {
    assert a[next..|t|] == a[j..|t|][next - j..];
  }

  // One turn of the outer loop.
  method TakeToken(a: array<byte>, ghost t: seq<byte>, ghost out: seq<byte>, into: nat, j: nat)
    returns (into': nat, j': nat)
    requires CString(t) && Kept(a, |t|, t, out, into, j) && j < |t| && NextToken(t, j).next <= |t|
    modifies a
    ensures var k := NextToken(t, j);
            j' == k.next && Kept(a, |t|, t, if k.keep then out + t[j..j'] else out, into', j')
  {
    KeptToSince(a, t, out, into, j);
    KeptAt(a, |t|, t, out, into, j, j + 1);
    if Blank(a[j]) {
      into', j' := into, j + 1;
      KeptSkips(a, t, out, into, j, j');
    } else if a[j] == SLASH && (a[j + 1] == SLASH || a[j + 1] == STAR) {
      j' := SkipComment(a, t, out, into, j);
      into' := into;
    } else if a[j] == QUOTE {
      into', j' := CopyString(a, t, out, into, j);
    } else {
      into', j' := CopyOne(a, t, out, j, into, j);
    }
  }

  lemma MinifyTurn(t: seq<byte>, out: seq<byte>, j: nat)
    requires Closed(t, j) && At(t, j) != 0
    ensures var k := NextToken(t, j);
            && j < k.next <= |t| && Closed(t, k.next)
            && out + Minify(t, j) == (if k.keep then out + t[j..k.next] else out) + Minify(t, k.next)
  {
    hide NextToken;
    var k := NextToken(t, j);
    if k.keep {
      assert out + (t[j..k.next] + Minify(t, k.next)) == out + t[j..k.next] + Minify(t, k.next);
    } else {
      assert [] + Minify(t, k.next) == Minify(t, k.next);
    }
  }

  // *into = 0
  method Terminate(a: array<byte>, ghost t: seq<byte>, ghost out: seq<byte>, into: nat, ghost j: nat)
    requires Kept(a, |t|, t, out, into, j)
    modifies a
    ensures a[..into] == out && a[into] == 0
  {
    ghost var was := a[..];
    a[into] := 0;
    assert a[..into] == was[..into];
  }

  // cJSON_Minify.  The text ends at a[n]; the result stands before a[into], which is zero.
  method MinifyInPlace(a: array<byte>, ghost n: nat) returns (into: nat)
    requires n < a.Length && a[n] == 0 && CString(a[..n]) && Closed(a[..n], 0)
    modifies a
    ensures into <= n && a[..into] == Minify(old(a[..n]), 0) && a[into] == 0
  {
    hide NextToken, Closed;
    ghost var t := a[..n];
    ghost var out: seq<byte> := [];
    var j := 0;
    into := 0;
    while a[j] != 0
      invariant into <= j <= n && Kept(a, n, t, out, into, j) && Closed(t, j) && a[j] == At(t, j)
      invariant Minify(t, 0) == out + Minify(t, j)
      decreases n - j
    {
      MinifyTurn(t, out, j);
      ghost var k := NextToken(t, j);
      ghost var kept := if k.keep then out + t[j..k.next] else out;
      into, j := TakeToken(a, t, out, into, j);
      out := kept;
      KeptAt(a, n, t, out, into, j, j);
    }
    Terminate(a, t, out, into, j);
  }
}
