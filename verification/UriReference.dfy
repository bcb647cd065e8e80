// The procedure of section 5.2.4 of RFC 3986, step by step, and its agreement
// with the path normalization of packages/mongoose-v6.7/mongoose.c.
module UriReference {
  import opened Bytes
  import opened UriPath

  predicate Begins(s: seq<byte>, t: seq<byte>) {
    |t| <= |s| && forall k :: 0 <= k < |t| ==> s[k] == t[k]
  }

  // The output buffer without its last segment and the slash before it
  function RemoveLast(out: seq<byte>): (r: seq<byte>)
    ensures |r| <= |out|
  {
    if out == [] then [] else if out[|out| - 1] == '/' as int then out[..|out| - 1] else RemoveLast(out[..|out| - 1])
  }

  // Where the first segment of the input ends: at the next slash, or at the end.
  function SegmentEnd(s: seq<byte>): (n: nat)
    requires s != []
    ensures 0 < n <= |s|
  {
    if |s| == 1 || s[1] == '/' as int then 1 else 1 + SegmentEnd(s[1..])
  }

  // Steps 2A to 2E on an input and an output buffer
  function RemoveDotSegments(s: seq<byte>, out: seq<byte>): seq<byte>
    decreases |s|
  {
    if s == [] then out
    else if Begins(s, Ascii("../")) then RemoveDotSegments(s[3..], out)
    else if Begins(s, Ascii("./")) then RemoveDotSegments(s[2..], out)
    else if Begins(s, Ascii("/./")) then RemoveDotSegments(s[2..], out)
    else if s == Ascii("/.") then RemoveDotSegments(Ascii("/"), out)
    else if Begins(s, Ascii("/../")) then RemoveDotSegments(s[3..], RemoveLast(out))
    else if s == Ascii("/..") then RemoveDotSegments(Ascii("/"), RemoveLast(out))
    else if s == Ascii(".") || s == Ascii("..") then out
    else RemoveDotSegments(s[SegmentEnd(s)..], out + s[..SegmentEnd(s)])
  }

  // The characters of the procedure are those of the program.
  lemma Marks()
    ensures '/' as int == SLASH && Ascii("/") == [SLASH]
    ensures Ascii("../") == [DOT, DOT, SLASH] && Ascii("./") == [DOT, SLASH]
    ensures Ascii("/./") == [SLASH, DOT, SLASH] && Ascii("/.") == [SLASH, DOT]
    ensures Ascii("/../") == [SLASH, DOT, DOT, SLASH] && Ascii("/..") == [SLASH, DOT, DOT]
    ensures Ascii(".") == [DOT] && Ascii("..") == [DOT, DOT]
  {}

  lemma {:induction false} SegmentOfPiece(s: seq<byte>, n: nat)
    requires s != [] && 1 <= n <= |s| && (forall k :: 1 <= k < n ==> s[k] != SLASH) && (n == |s| || s[n] == SLASH)
    ensures SegmentEnd(s) == n
    decreases n
  {
    if n > 1 {
      SegmentOfPiece(s[1..], n - 1);
    }
  }

  lemma {:induction false} LastRemoved(out: seq<byte>, segment: seq<byte>)
    requires forall k :: 0 <= k < |segment| ==> segment[k] != SLASH
    ensures RemoveLast(out + [SLASH] + segment) == out
    decreases |segment|
  {
    var s := out + [SLASH] + segment;
    if segment == [] {
      assert s == out + [SLASH];
    } else {
      var shorter := segment[..|segment| - 1];
      assert s[..|s| - 1] == out + [SLASH] + shorter;
      LastRemoved(out, shorter);
    }
  }

  // A stack of directories as the output buffer has it, with the slash that is still in the input.
  lemma {:induction false} StackShape(stack: seq<seq<byte>>) returns (out: seq<byte>)
    requires Rooted(stack) && Directories(stack)
    ensures Join(stack) == out + [SLASH]
    ensures |stack| > 1 ==> Join(stack[..|stack| - 1]) == RemoveLast(out) + [SLASH]
    ensures |stack| == 1 ==> out == []
  {
    var n := |stack| - 1;
    out := Join(stack)[..|Join(stack)| - 1];
    LastSlash(stack);
    if n > 0 {
      var keep, p := Join(stack[..n]), stack[n];
      var segment, before := p[..|p| - 1], keep[..|keep| - 1];
      LastSlash(stack);
      assert keep == before + [SLASH] && p == segment + [SLASH];
      assert out == before + [SLASH] + segment;
      LastRemoved(before, segment);
    }
  }

  // One step of the procedure on a slash and the path behind it, by the path's first piece.
  lemma StepAtPiece(rest: seq<byte>, out: seq<byte>)
    requires rest != []
    ensures var n := PieceEnd(rest);
            var p, left := rest[..n], [SLASH] + rest[n..];
            RemoveDotSegments([SLASH] + rest, out) ==
            if Directory(p) then
              if IsDot(p) then RemoveDotSegments(left, out)
              else if IsDotDot(p) then RemoveDotSegments(left, RemoveLast(out))
              else RemoveDotSegments(left, out + [SLASH] + Name(p))
            else if IsDot(p) then RemoveDotSegments([SLASH], out)
            else if IsDotDot(p) then RemoveDotSegments([SLASH], RemoveLast(out))
            else out + [SLASH] + rest
  {
    hide RemoveDotSegments, PieceEnd, RemoveLast;
    var n := PieceEnd(rest);
    var p := rest[..n];
    FirstPiece(rest);
    if Directory(p) {
      DirectoryStep(Name(p), rest[n..], out);
      assert [SLASH] + rest == [SLASH] + Name(p) + [SLASH] + rest[n..];
    } else {
      PlainStep(rest, out);
      assert p == rest && Name(p) == p;
    }
  }

  predicate SlashFree(name: seq<byte>) { forall k :: 0 <= k < |name| ==> name[k] != SLASH }

  lemma DirectoryStep(name: seq<byte>, tail: seq<byte>, out: seq<byte>)
    requires SlashFree(name)
    ensures RemoveDotSegments([SLASH] + name + [SLASH] + tail, out) ==
            if name == [DOT] then RemoveDotSegments([SLASH] + tail, out)
            else if name == [DOT, DOT] then RemoveDotSegments([SLASH] + tail, RemoveLast(out))
            else RemoveDotSegments([SLASH] + tail, out + [SLASH] + name)
  {
    hide Begins, SegmentEnd, Ascii;
    Marks();
    var s, n := [SLASH] + name + [SLASH] + tail, 1 + |name|;
    assert s[0] == SLASH && s[n] == SLASH && s[1..n] == name;
    SegmentOfPiece(s, n);
    assert s[n..] == [SLASH] + tail && out + s[..n] == out + [SLASH] + name;
    DotsAhead(s, name);
  }

  // The two tests for dots see the first segment.
  lemma DotsAhead(s: seq<byte>, name: seq<byte>)
    requires SlashFree(name) && |s| >= 2 + |name| && s[0] == SLASH && s[1..1 + |name|] == name && s[1 + |name|] == SLASH
    ensures Begins(s, [SLASH, DOT, SLASH]) <==> name == [DOT]
    ensures Begins(s, [SLASH, DOT, DOT, SLASH]) <==> name == [DOT, DOT]
    ensures !Begins(s, [DOT, SLASH]) && !Begins(s, [DOT, DOT, SLASH])
  {
    assert [DOT, SLASH][0] != s[0] && [DOT, DOT, SLASH][0] != s[0];
    assert forall k :: 0 <= k < |name| ==> name[k] == s[1 + k];
    if Begins(s, [SLASH, DOT, SLASH]) {
      assert s[1] == [SLASH, DOT, SLASH][1] && s[2] == [SLASH, DOT, SLASH][2];
      assert |name| >= 1 && name[0] == DOT;
    }
    if Begins(s, [SLASH, DOT, DOT, SLASH]) {
      var t := [SLASH, DOT, DOT, SLASH];
      assert s[1] == t[1] && s[2] == t[2] && s[3] == t[3];
      assert |name| >= 2 && name[0] == DOT && name[1] == DOT;
    }
  }

  lemma NoDotsAhead(s: seq<byte>)
    requires s != [] && s[0] == SLASH && forall k :: 1 <= k < |s| ==> s[k] != SLASH
    ensures !Begins(s, [DOT, SLASH]) && !Begins(s, [DOT, DOT, SLASH])
    ensures !Begins(s, [SLASH, DOT, SLASH]) && !Begins(s, [SLASH, DOT, DOT, SLASH])
  {
    assert [DOT, SLASH][0] != s[0] && [DOT, DOT, SLASH][0] != s[0];
    assert |s| > 2 ==> [SLASH, DOT, SLASH][2] != s[2];
    assert |s| > 3 ==> [SLASH, DOT, DOT, SLASH][3] != s[3];
  }

  lemma Nothing(out: seq<byte>)
    ensures RemoveDotSegments([], out) == out
  {}

  lemma PlainStep(name: seq<byte>, out: seq<byte>)
    requires SlashFree(name) && name != []
    ensures RemoveDotSegments([SLASH] + name, out) ==
            if name == [DOT] then RemoveDotSegments([SLASH], out)
            else if name == [DOT, DOT] then RemoveDotSegments([SLASH], RemoveLast(out))
            else out + [SLASH] + name
  {
    hide Begins, SegmentEnd, RemoveLast, Ascii;
    Marks();
    var s := [SLASH] + name;
    assert forall k :: 0 <= k < |name| ==> s[1 + k] == name[k];
    SegmentOfPiece(s, |s|);
    NoDotsAhead(s);
    assert s[0] == SLASH && s[1..] == name && out + s == out + [SLASH] + name;
    assert name == [DOT] <==> s == [SLASH, DOT];
    assert name == [DOT, DOT] <==> s == [SLASH, DOT, DOT];
    Nothing(out + s);
    assert s[|s|..] == [] && s[..|s|] == s;
  }

  lemma AtEnd(out: seq<byte>)
    ensures RemoveDotSegments([SLASH], out) == out + [SLASH] && RemoveDotSegments([SLASH] + [], out) == out + [SLASH]
  {
    hide Ascii;
    Marks();
    NoDotsAhead([SLASH]);
    assert [SLASH][1..] == [] && [SLASH][..1] == [SLASH] && [SLASH] + [] == [SLASH];
  }

  // The output buffer once a piece has been dealt with.
  function NextOut(p: seq<byte>, out: seq<byte>): seq<byte> {
    if IsDot(p) then out else if IsDotDot(p) then RemoveLast(out) else out + [SLASH] + Name(p)
  }

  lemma PushedOut(stack: seq<seq<byte>>, p: seq<byte>, out: seq<byte>)
    requires Rooted(stack) && Directories(stack) && Join(stack) == out + [SLASH]
    ensures Join(Push(stack, p)) ==
            if IsDot(p) || IsDotDot(p) || Directory(p) then NextOut(p, out) + [SLASH] else out + [SLASH] + p
  {
    hide Join, Rooted, Directories, RemoveLast;
    JoinPushed(stack, p);
    var o := StackShape(stack);
    assert o == (o + [SLASH])[..|o|] == (out + [SLASH])[..|out|] == out;
    if Directory(p) {
      assert p == Name(p) + [SLASH];
      assert out + [SLASH] + p == out + [SLASH] + Name(p) + [SLASH];
    }
    OnlyRoot(stack);
  }

  lemma OnlyRoot(stack: seq<seq<byte>>)
    requires Rooted(stack)
    ensures |stack| > 0 && RemoveLast([]) == []
  {}

  // What is left of the procedure agrees with what is left of the pieces.
  lemma {:induction false} StepsAgree(stack: seq<seq<byte>>, rest: seq<byte>, out: seq<byte>)
    requires Rooted(stack) && NoDots(stack) && Directories(stack) && Join(stack) == out + [SLASH]
    ensures RemoveDotSegments([SLASH] + rest, out) == Join(Resolve(stack, Pieces(rest)))
    decreases |rest|
  {
    hide RemoveDotSegments, Resolve, Pieces, Join, Rooted, NoDots, Directories, RemoveLast, IsDot, IsDotDot, Name, Push;
    if rest == [] {
      AtEnd(out);
      ResolveNothing(stack);
    } else {
      var n := PieceEnd(rest);
      var p := rest[..n];
      FirstPiece(rest);
      StepAtPiece(rest, out);
      ResolveFront(stack, rest);
      PushShape(stack, p);
      PushedOut(stack, p, out);
      if Directory(p) {
        StepsAgree(Push(stack, p), rest[n..], NextOut(p, out));
      } else {
        assert rest[n..] == [] && p == rest;
        ResolveNothing(Push(stack, p));
        AtEnd(out);
        AtEnd(RemoveLast(out));
      }
    }
  }

  // An absolute path is normalized to what section 5.2.4 makes of it.
  lemma NormalizesAsReference(s: seq<byte>)
    requires s != [] && s[0] == SLASH
    ensures Normalize(s) == Some(RemoveDotSegments(s, []))
  {
    hide RemoveDotSegments, Resolve, Pieces;
    AbsoluteShape(s);
    RootFirst();
    JoinRoot();
    StepsAgree([[SLASH]], s[1..], []);
    assert s == [SLASH] + s[1..];
  }

  lemma JoinRoot()
    ensures Join([[SLASH]]) == [] + [SLASH]
  {
    assert [[SLASH]][..0] == [];
  }
}
