// mg_normalize_uri_path of packages/mongoose-v6.7/mongoose.c: the path is taken
// apart at its slashes onto a stack of segments, as in section 5.2.4 of RFC 3986.
module UriPath {
  import opened Bytes

  const SLASH: byte := 0x2F
  const DOT: byte := 0x2E

  // --------------------------------------------------------------- segments

  // How far the first piece goes: behind its slash, or to the end.
  function PieceEnd(s: seq<byte>): (n: nat)
    requires s != []
    ensures 0 < n <= |s|
    ensures forall k :: 0 <= k < n - 1 ==> s[k] != SLASH
    ensures s[n - 1] == SLASH || n == |s|
  {
    if s[0] == SLASH || |s| == 1 then 1 else 1 + PieceEnd(s[1..])
  }

  // A path as its pieces, each with the slash that ends it.
  function Pieces(s: seq<byte>): seq<seq<byte>>
    decreases |s|
  {
    if s == [] then [] else [s[..PieceEnd(s)]] + Pieces(s[PieceEnd(s)..])
  }

  function Join(pieces: seq<seq<byte>>): seq<byte> {
    if pieces == [] then [] else Join(pieces[..|pieces| - 1]) + pieces[|pieces| - 1]
  }

  // The piece without its slash
  function Name(p: seq<byte>): seq<byte> {
    if p != [] && p[|p| - 1] == SLASH then p[..|p| - 1] else p
  }

  predicate IsDot(p: seq<byte>) { Name(p) == [DOT] }

  predicate IsDotDot(p: seq<byte>) { Name(p) == [DOT, DOT] }

  // A dot segment is dropped, a double dot takes the last segment with it but never the root.
  function Push(stack: seq<seq<byte>>, p: seq<byte>): seq<seq<byte>> {
    if IsDot(p) then stack
    else if IsDotDot(p) then (if |stack| > 1 then stack[..|stack| - 1] else stack)
    else stack + [p]
  }

  function Resolve(stack: seq<seq<byte>>, pieces: seq<seq<byte>>): seq<seq<byte>>
    decreases |pieces|
  {
    if pieces == [] then stack else Resolve(Push(stack, pieces[0]), pieces[1..])
  }

  // None: not an absolute path
  function Normalize(s: seq<byte>): Option<seq<byte>> {
    if s == [] || s[0] != SLASH then None else Some(Join(Resolve([], Pieces(s))))
  }

  // ------------------------------------------------------- what stacks hold

  predicate Directory(p: seq<byte>) {
    p != [] && p[|p| - 1] == SLASH && forall k :: 0 <= k < |p| - 1 ==> p[k] != SLASH
  }

  predicate Plain(p: seq<byte>) {
    p != [] && forall k :: 0 <= k < |p| ==> p[k] != SLASH
  }

  // The root, then pieces that end in a slash, of which the last need not.
  predicate Rooted(stack: seq<seq<byte>>) {
    && |stack| > 0 && stack[0] == [SLASH]
    && (forall i :: 0 <= i < |stack| - 1 ==> Directory(stack[i]))
    && (Directory(stack[|stack| - 1]) || Plain(stack[|stack| - 1]))
  }

  predicate NoDots(stack: seq<seq<byte>>) {
    forall i :: 0 <= i < |stack| ==> !IsDot(stack[i]) && !IsDotDot(stack[i])
  }

  predicate Directories(stack: seq<seq<byte>>) {
    forall i :: 0 <= i < |stack| ==> Directory(stack[i])
  }

  lemma {:induction false} PiecesShape(s: seq<byte>)
    requires s != []
    ensures var ps := Pieces(s);
            && ps != [] && (forall i :: 0 <= i < |ps| - 1 ==> Directory(ps[i]))
            && (Directory(ps[|ps| - 1]) || Plain(ps[|ps| - 1]))
    decreases |s|
  {
    var n := PieceEnd(s);
    if s[n..] != [] {
      PiecesShape(s[n..]);
    }
  }

  // Resolving keeps the stack rooted and free of dots.
  lemma {:induction false} ResolveShape(stack: seq<seq<byte>>, pieces: seq<seq<byte>>)
    requires Rooted(stack) && NoDots(stack) && Directories(stack)
    requires forall i :: 0 <= i < |pieces| - 1 ==> Directory(pieces[i])
    requires pieces != [] ==> Directory(pieces[|pieces| - 1]) || Plain(pieces[|pieces| - 1])
    ensures Rooted(Resolve(stack, pieces)) && NoDots(Resolve(stack, pieces))
    decreases |pieces|
  {
    hide Name;
    if pieces != [] {
      var next := Push(stack, pieces[0]);
      if |pieces| == 1 {
        assert Resolve(next, pieces[1..]) == next;
      } else {
        ResolveShape(next, pieces[1..]);
      }
    }
  }

  lemma AbsoluteShape(s: seq<byte>)
    requires s != [] && s[0] == SLASH
    ensures var stack := Resolve([], Pieces(s)); Rooted(stack) && NoDots(stack)
    ensures Resolve([], Pieces(s)) == Resolve([[SLASH]], Pieces(s[1..]))
  {
    assert s[..PieceEnd(s)] == [SLASH];
    assert Pieces(s)[1..] == Pieces(s[1..]);
    assert Push([], [SLASH]) == [[SLASH]];
    if s[1..] != [] {
      PiecesShape(s[1..]);
    }
    ResolveShape([[SLASH]], Pieces(s[1..]));
  }

  // ----------------------------------------------------------- idempotence

  lemma {:induction false} JoinFront(stack: seq<seq<byte>>)
    requires stack != []
    ensures Join(stack) == stack[0] + Join(stack[1..])
    decreases |stack|
  {
    var n := |stack| - 1;
    if n == 0 {
      assert Join(stack[..0]) == [] && Join(stack[1..]) == [];
    } else {
      JoinFront(stack[..n]);
      assert stack[..n][1..] == stack[1..][..n - 1];
      assert stack[0] + Join(stack[1..][..n - 1]) + stack[n] == stack[0] + (Join(stack[1..][..n - 1]) + stack[n]);
    }
  }

  lemma EndOf(p: seq<byte>, t: seq<byte>)
    requires Directory(p) || (Plain(p) && t == [])
    ensures PieceEnd(p + t) == |p|
  {
    assert forall k :: 0 <= k < |p| ==> (p + t)[k] == p[k];
  }

  // Taking apart what was put together gives the pieces back.
  lemma {:induction false} PiecesOfJoin(stack: seq<seq<byte>>)
    requires forall i :: 0 <= i < |stack| - 1 ==> Directory(stack[i])
    requires stack != [] ==> Directory(stack[|stack| - 1]) || Plain(stack[|stack| - 1])
    ensures Pieces(Join(stack)) == stack
    decreases |stack|
  {
    hide Directory, Plain;
    if stack != [] {
      var p, rest := stack[0], Join(stack[1..]);
      JoinFront(stack);
      PiecesOfJoin(stack[1..]);
      NotEmpty(p);
      NoJoin();
      EndOf(p, rest);
      assert (p + rest)[..|p|] == p && (p + rest)[|p|..] == rest;
    }
  }

  lemma NotEmpty(p: seq<byte>)
    ensures Directory(p) || Plain(p) ==> p != []
  {}

  lemma NoJoin()
    ensures Join([]) == []
  {}

  lemma {:induction false} NothingToResolve(stack: seq<seq<byte>>, pieces: seq<seq<byte>>)
    requires NoDots(pieces)
    ensures Resolve(stack, pieces) == stack + pieces
    decreases |pieces|
  {
    if pieces != [] {
      NothingToResolve(stack + [pieces[0]], pieces[1..]);
      assert stack + [pieces[0]] + pieces[1..] == stack + pieces;
    }
  }

  // A normalized path is absolute, has no dot segments, and is its own normal form.
  lemma Normalized(s: seq<byte>)
    requires Normalize(s).Some?
    ensures var t := Normalize(s).value;
            t != [] && t[0] == SLASH && NoDots(Pieces(t)) && Normalize(t) == Some(t)
  {
    var stack := Resolve([], Pieces(s));
    AbsoluteShape(s);
    PiecesOfJoin(stack);
    JoinFront(stack);
    NothingToResolve([], stack);
    assert [] + stack == stack;
  }

  // ------------------------------------------------------------ the program

  // parse_uri_component: where the component ends, and where the next one starts.
  method ParseComponent(a: array<byte>, at: nat, end: nat) returns (len: nat, next: nat)
    requires at < end <= a.Length
    ensures at + len <= next <= end
    ensures next == at + PieceEnd(a[at..end]) && a[at..at + len] == Name(a[at..next])
  {
    ghost var s := a[at..end];
    var p := at;
    while p < end
      invariant at <= p <= end && forall k :: at <= k < p ==> a[k] != SLASH
    {
      if a[p] == SLASH {
        break;
      }
      p := p + 1;
    }
    len := p - at;
    next := if p < end then p + 1 else p;
    EndIs(s, next - at);
    assert a[at..next][..next - at - 1] == a[at..next - 1];
  }

  lemma EndIs(s: seq<byte>, n: nat)
    requires 0 < n <= |s| && (forall k :: 0 <= k < n - 1 ==> s[k] != SLASH) && (s[n - 1] == SLASH || n == |s|)
    ensures n == PieceEnd(s)
  {
    assert !(PieceEnd(s) < n) && !(n < PieceEnd(s));
  }

  // The loops that take the last piece off again.
  method Backtrack(out: array<byte>, cp: nat, from: nat, ghost stack: seq<seq<byte>>) returns (d: nat)
    requires cp <= from <= out.Length && out[cp..from] == Join(stack) && Rooted(stack) && Directories(stack)
    ensures cp < d <= from
    ensures out[cp..d] == Join(if |stack| > 1 then stack[..|stack| - 1] else stack)
  {
    ghost var all, keep := Join(stack), Join(stack[..|stack| - 1]);
    LastSlash(stack);
    d := from;
    if d > cp + 1 && out[d - 1] == SLASH {
      d := d - 1;
    }
    while d > cp && out[d - 1] != SLASH
      invariant if |stack| > 1 then cp + |keep| <= d < from else cp < d == from
      decreases d
    {
      assert out[d - 1] == all[d - 1 - cp];
      d := d - 1;
    }
    assert out[cp..d] == all[..d - cp] && out[d - 1] == all[d - 1 - cp];
  }

  // The bytes where pieces meet.
  lemma LastSlash(stack: seq<seq<byte>>)
    requires Rooted(stack) && Directories(stack)
    ensures Join(stack) != [] && Join(stack)[|Join(stack)| - 1] == SLASH
    ensures |stack| > 1 ==>
      var all, keep := Join(stack), Join(stack[..|stack| - 1]);
      && 0 < |keep| < |all| && all[..|keep|] == keep && keep[|keep| - 1] == SLASH == all[|keep| - 1]
      && forall k :: |keep| <= k < |all| - 1 ==> all[k] != SLASH
    ensures |stack| == 1 ==> Join(stack) == [SLASH]
  {
    var n := |stack| - 1;
    if n > 0 {
      var m := n - 1;
      assert stack[..n][..m] == stack[..m];
    } else {
      assert stack[..0] == [];
    }
  }

  // The stack after some of the path's pieces; it only ends without a slash with the path.
  ghost predicate SoFar(stack: seq<seq<byte>>, first: bool, last: bool) {
    if first then stack == [] else Rooted(stack) && NoDots(stack) && (last || Directories(stack))
  }

  lemma NextPiece(stack: seq<seq<byte>>, rest: seq<byte>, first: bool)
    requires rest != [] && (first ==> rest[0] == SLASH) && SoFar(stack, first, false)
    ensures var p, n := rest[..PieceEnd(rest)], PieceEnd(rest); var next := Push(stack, p);
            && SoFar(next, false, n == |rest|)
            && Resolve(next, Pieces(rest[n..])) == Resolve(stack, Pieces(rest))
            && (first ==> p == [SLASH])
  {
    hide Resolve, Pieces, Push, Rooted, NoDots, Directories, PieceEnd, Directory, Plain;
    var p := rest[..PieceEnd(rest)];
    FirstPiece(rest);
    ResolveFront(stack, rest);
    if first {
      RootFirst();
    } else {
      PushShape(stack, p);
    }
  }

  lemma FirstPiece(rest: seq<byte>)
    requires rest != []
    ensures var n := PieceEnd(rest);
            var p := rest[..n];
            (Directory(p) || (Plain(p) && n == |rest|)) && (rest[0] == SLASH ==> p == [SLASH])
  {
    hide PieceEnd;
    var n := PieceEnd(rest);
    var p := rest[..n];
    if rest[n - 1] == SLASH {
      assert p[n - 1] == SLASH && Directory(p);
    } else {
      assert Plain(p);
    }
  }

  lemma RootFirst()
    ensures Push([], [SLASH]) == [[SLASH]] && Rooted([[SLASH]]) && NoDots([[SLASH]]) && Directories([[SLASH]])
  {}

  lemma ResolveFront(stack: seq<seq<byte>>, rest: seq<byte>)
    requires rest != []
    ensures var n := PieceEnd(rest);
            Resolve(Push(stack, rest[..n]), Pieces(rest[n..])) == Resolve(stack, Pieces(rest))
  {
    hide Push, PieceEnd;
    assert Pieces(rest)[1..] == Pieces(rest[PieceEnd(rest)..]);
  }

  lemma PushShape(stack: seq<seq<byte>>, p: seq<byte>)
    requires Rooted(stack) && NoDots(stack) && Directories(stack) && (Directory(p) || Plain(p))
    ensures Rooted(Push(stack, p)) && NoDots(Push(stack, p)) && (Directory(p) ==> Directories(Push(stack, p)))
  {
    hide Name, Directory, Plain;
  }

  lemma JoinPushed(stack: seq<seq<byte>>, p: seq<byte>)
    ensures Join(Push(stack, p)) ==
            if IsDot(p) then Join(stack)
            else if IsDotDot(p) then Join(if |stack| > 1 then stack[..|stack| - 1] else stack)
            else Join(stack) + p
  {
    assert (stack + [p])[..|stack|] == stack;
  }

  // memmove of a component; what follows it in the path stays as it is.
  method Copy(a: array<byte>, from: nat, to: nat, ghost end: nat, out: array<byte>, d: nat) returns (d': nat)
    requires from <= to <= end <= a.Length && d + (to - from) <= out.Length && (out == a ==> d <= from)
    modifies out
    ensures d' == d + (to - from) && out[..d'] == old(out[..d]) + old(a[from..to]) && a[to..end] == old(a[to..end])
  {
    d' := d + (to - from);
    ghost var piece := a[from..to];
    forall k | 0 <= k < to - from {
      out[d + k] := a[from + k];
    }
    assert out[d..d'] == piece;
    assert out[..d'] == out[..d] + out[d..d'];
  }

  // One turn of the loop: a component is dropped, takes one back, or is copied.
  method Turn(
    a: array<byte>, s: nat, se: nat, out: array<byte>, cp: nat, d: nat, ghost first: bool,
    ghost stack: seq<seq<byte>>)
    returns (d': nat, s': nat, ghost stack': seq<seq<byte>>)
    requires s < se <= a.Length && cp <= d && d + (se - s) <= out.Length && (out == a ==> d <= s)
    requires out[cp..d] == Join(stack) && SoFar(stack, first, false) && (first ==> a[s] == SLASH)
    modifies out
    ensures s < s' <= se && cp <= d' <= d + (s' - s)
    ensures a[s'..se] == old(a[s'..se]) && out[..cp] == old(out[..cp])
    ensures out[cp..d'] == Join(stack') && SoFar(stack', false, s' == se)
    ensures Resolve(stack', Pieces(old(a[s'..se]))) == Resolve(stack, Pieces(old(a[s..se])))
  {
    hide Resolve, Pieces, PieceEnd, Join, SoFar, NoDots;
    ghost var rest := a[s..se];
    var len;
    len, s' := ParseComponent(a, s, se);
    ghost var p := a[s..s'];
    assert p == rest[..s' - s] && a[s'..se] == rest[s' - s..];
    NextPiece(stack, rest, first);
    JoinPushed(stack, p);
    stack' := Push(stack, p);
    if a[s..s + len] == [DOT] {
      d' := d;
    } else if a[s..s + len] == [DOT, DOT] {
      NotFirst(stack, first, p);
      d' := Backtrack(out, cp, d, stack);
    } else {
      d' := Copy(a, s, s', se, out, d);
      assert out[..d'][..cp] == out[..cp] && out[..d'][cp..] == out[cp..d'];
    }
  }

  lemma NotFirst(stack: seq<seq<byte>>, first: bool, p: seq<byte>)
    requires SoFar(stack, first, false) && (first ==> p == [SLASH]) && IsDotDot(p)
    ensures Rooted(stack) && Directories(stack)
  {}

  // mg_normalize_uri_path.  The two strings may share memory as long as the
  // result does not start behind the path; None stands for an error.
  method NormalizeUriPath(a: array<byte>, at: nat, len: nat, out: array<byte>, cp: nat) returns (n: Option<nat>)
    requires at + len <= a.Length && cp + len <= out.Length && (out == a ==> cp <= at)
    modifies out
    ensures var r := Normalize(old(a[at..at + len]));
            if r.None? then n == None && out[..] == old(out[..])
            else n == Some(|r.value|) && |r.value| <= len && out[cp..cp + |r.value|] == r.value
    ensures out[..cp] == old(out[..cp])
  {
    hide Resolve, Pieces, Join;
    if len == 0 || a[at] != SLASH {
      return None;
    }
    var d := Walk(a, at, at + len, out, cp);
    // The check for an empty result never fires: the root stays.
    n := Some(d - cp);
  }

  // The loop over the components
  method Walk(a: array<byte>, at: nat, se: nat, out: array<byte>, cp: nat) returns (d: nat)
    requires at < se <= a.Length && cp + (se - at) <= out.Length && (out == a ==> cp <= at) && a[at] == SLASH
    modifies out
    ensures cp <= d <= cp + (se - at) && out[..cp] == old(out[..cp])
    ensures out[cp..d] == Join(Resolve([], Pieces(old(a[at..se]))))
  {
    hide Resolve, Pieces, Push, SoFar, Join;
    ghost var path := a[at..se];
    var s := at;
    d := cp;
    ghost var stack: seq<seq<byte>> := [];
    StartsEmpty();
    while s < se
      invariant at <= s <= se && cp <= d <= cp + (s - at)
      invariant a[s..se] == path[s - at..] && out[..cp] == old(out[..cp])
      invariant out[cp..d] == Join(stack) && SoFar(stack, s == at, s == se)
      invariant Resolve(stack, Pieces(path[s - at..])) == Resolve([], Pieces(path))
      decreases se - s
    {
      Suffixes(path, s - at, a[s..se]);
      d, s, stack := Turn(a, s, se, out, cp, d, s == at, stack);
    }
    ResolveNothing(stack);
    assert path[se - at..] == [];
  }

  lemma ResolveNothing(stack: seq<seq<byte>>)
    ensures Resolve(stack, Pieces([])) == stack
  {}

  lemma Suffixes(path: seq<byte>, i: nat, t: seq<byte>)
    requires i <= |path| && t == path[i..]
    ensures forall j :: 0 <= j <= |t| ==> t[j..] == path[i + j..]
  {}

  lemma StartsEmpty()
    ensures SoFar([], true, false) && Join([]) == []
  {}
}
