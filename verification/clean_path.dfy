/** Cleaning a path in place with a reading and a writing pointer, against a specification on the
    stack of its parts. */
module CleanPath {
  import opened Basics
  import opened PathWalk

  /** The string as its reading pointer sees it. */
  function At(s: seq<char>, i: nat): char {
    if i < |s| then s[i] else NUL
  }

  // ----- Specification -------------------------------------------------------------------------------

  /** The length of the part before the first separator. */
  function PartLength(s: string): (k: nat)
    ensures k <= |s| && (k < |s| ==> s[k] == '/')
    ensures forall i :: 0 <= i < k ==> s[i] != '/'
  {
    if s == "" || s[0] == '/' then 0 else 1 + PartLength(s[1..])
  }

  function AfterPart(s: string): (rest: string)
    ensures s != "" ==> |rest| < |s|
  {
    if PartLength(s) < |s| then s[PartLength(s) + 1..] else ""
  }

  /** The parts between separators, without empty ones and ".". */
  function Parts(s: string): seq<string>
    decreases |s|
  {
    if s == "" then []
    else
      var part := s[..PartLength(s)];
      (if part == "" || part == "." then [] else [part]) + Parts(AfterPart(s))
  }

  /** ".." takes the last part back if there is one; otherwise it is dropped at the root and kept in
      a relative path. */
  function Push(stack: seq<string>, part: string, absolute: bool): seq<string> {
    if part != ".." then stack + [part]
    else if stack != [] && stack[|stack| - 1] != ".." then stack[..|stack| - 1]
    else if absolute then stack
    else stack + [".."]
  }

  function Resolve(stack: seq<string>, parts: seq<string>, absolute: bool): seq<string>
    decreases |parts|
  {
    if parts == [] then stack else Resolve(Push(stack, parts[0], absolute), parts[1..], absolute)
  }

  function Render(stack: seq<string>): string {
    if stack == [] then "" else Render(stack[..|stack| - 1]) + stack[|stack| - 1] + "/"
  }

  function Join(stack: seq<string>): string {
    if stack == [] then "" else Render(stack[..|stack| - 1]) + stack[|stack| - 1]
  }

  predicate IsAbsolute(s: string) { s != "" && s[0] == '/' }

  function Base(absolute: bool): string { if absolute then "/" else "" }

  function Show(stack: seq<string>, absolute: bool): string {
    if !absolute && stack == [] then "." else Base(absolute) + Join(stack)
  }

  /** What is left on the stack at the end. */
  function Stack(s: string): seq<string> {
    Resolve([], Parts(s), IsAbsolute(s))
  }

  function Clean(s: string): string {
    Show(Stack(s), IsAbsolute(s))
  }

  // ----- Stacks ----------------------------------------------------------------------------------------

  predicate GoodPart(part: string) {
    part != "" && part != "." && forall i :: 0 <= i < |part| ==> part[i] != '/'
  }

  /** Leading ".." parts. */
  function Ups(stack: seq<string>): (u: nat)
    ensures u <= |stack| && forall i :: 0 <= i < u ==> stack[i] == ".."
    ensures u < |stack| ==> stack[u] != ".."
  {
    if stack == [] || stack[0] != ".." then 0 else 1 + Ups(stack[1..])
  }

  /** A stack that resolving leaves alone: good parts, ".." only in front and only when relative. */
  predicate GoodStack(stack: seq<string>, absolute: bool) {
    && (forall i :: 0 <= i < |stack| ==> GoodPart(stack[i]))
    && (forall i :: Ups(stack) <= i < |stack| ==> stack[i] != "..")
    && (absolute ==> Ups(stack) == 0)
  }

  lemma {:induction false} UpsOf(stack: seq<string>, u: nat)
    requires u <= |stack| && (forall i :: 0 <= i < u ==> stack[i] == "..")
    requires u < |stack| ==> stack[u] != ".."
    ensures Ups(stack) == u
  {
  }

  lemma PushPart(stack: seq<string>, part: string, absolute: bool)
    requires GoodStack(stack, absolute) && GoodPart(part) && part != ".."
    ensures GoodStack(stack + [part], absolute) && Ups(stack + [part]) == Ups(stack)
  {
    UpsOf(stack + [part], Ups(stack));
  }

  lemma PopPart(stack: seq<string>, absolute: bool)
    requires GoodStack(stack, absolute) && Ups(stack) < |stack|
    ensures stack[|stack| - 1] != ".."
    ensures GoodStack(stack[..|stack| - 1], absolute) && Ups(stack[..|stack| - 1]) == Ups(stack)
  {
    UpsOf(stack[..|stack| - 1], Ups(stack));
  }

  lemma PushUp(stack: seq<string>)
    requires GoodStack(stack, false) && Ups(stack) == |stack|
    ensures GoodStack(stack + [".."], false) && Ups(stack + [".."]) == |stack| + 1
  {
    UpsOf(stack + [".."], |stack| + 1);
  }

  lemma PushKeepsGood(stack: seq<string>, part: string, absolute: bool)
    requires GoodStack(stack, absolute) && GoodPart(part)
    ensures GoodStack(Push(stack, part, absolute), absolute)
  {
    if part != ".." {
      PushPart(stack, part, absolute);
    } else if Ups(stack) < |stack| {
      PopPart(stack, absolute);
    } else if !absolute {
      PushUp(stack);
    }
  }

  lemma PartIsGood(s: string)
    requires s != "" && s[0] != '/' && s[..PartLength(s)] != "."
    ensures GoodPart(s[..PartLength(s)])
  {
  }

  lemma SeparatorAddsNothing(s: string)
    requires s != "" && s[0] == '/'
    ensures Parts(s) == Parts(s[1..])
  {
    assert PartLength(s) == 0 && s[..0] == "";
    assert Parts(s) == [] + Parts(s[1..]);
  }

  lemma {:induction false} RenderAppend(stack: seq<string>, part: string)
    ensures Render(stack + [part]) == Render(stack) + part + "/"
    ensures Join(stack + [part]) == Render(stack) + part
  {
    assert (stack + [part])[..|stack|] == stack;
  }

  lemma {:induction false} RenderPrefix(stack: seq<string>, k: nat)
    requires k <= |stack|
    ensures |Render(stack[..k])| <= |Render(stack)|
    ensures k < |stack| && (forall i :: 0 <= i < |stack| ==> stack[i] != "") ==> |Render(stack[..k])| < |Render(stack)|
    decreases |stack| - k
  {
    if k < |stack| {
      RenderPrefix(stack, k + 1);
      assert stack[..k + 1][..k] == stack[..k];
    } else {
      assert stack[..k] == stack;
    }
  }

  // ----- The loops ----------------------------------------------------------------------------------------

  /** What has been written so far: every part with its separator, except that the last one may
      lack it at the end of the input. */
  ghost predicate Written(out: string, stack: seq<string>, absolute: bool, open: bool) {
    if open then stack != [] && out == Base(absolute) + Join(stack) else out == Base(absolute) + Render(stack)
  }

  /** Where backtracking must stop. */
  function Limit(stack: seq<string>, absolute: bool): nat {
    |Base(absolute)| + |Render(stack[..Ups(stack)])|
  }

  /** Moves the writing pointer back over the last part. */
  method Backtrack(path: array<char>, dst: nat, limit: nat) returns (d: nat)
    requires limit < dst <= path.Length
    ensures limit <= d < dst
    ensures d == limit || path[d - 1] == '/'
    ensures forall i :: d <= i < dst - 1 ==> path[i] != '/'
  {
    d := dst - 1;
    while d != limit && path[d - 1] != '/'
      invariant limit <= d < dst
      invariant forall i :: d <= i < dst - 1 ==> path[i] != '/'
    {
      d := d - 1;
    }
  }

  /** Backtracking stops at the start of the last part. */
  lemma BacktrackFinds(before: string, part: string, limit: nat, d: nat)
    requires limit <= |before| && (before != "" ==> before[|before| - 1] == '/')
    requires part != "" && forall i :: 0 <= i < |part| ==> part[i] != '/'
    requires var out := before + part + "/";
             && limit <= d < |out| && (d == limit || out[d - 1] == '/')
             && forall i :: d <= i < |out| - 1 ==> out[i] != '/'
    ensures d == |before| && (before + part + "/")[..d] == before
  {
    var out := before + part + "/";
    assert forall i :: 0 <= i < |part| ==> out[|before| + i] == part[i];
    assert before != "" ==> out[|before| - 1] == '/';
  }

  lemma EndsWithSeparator(stack: seq<string>, absolute: bool)
    ensures var out := Base(absolute) + Render(stack); out != "" ==> out[|out| - 1] == '/'
  {
  }

  lemma RenderUnfolds(stack: seq<string>, absolute: bool)
    requires stack != []
    ensures Base(absolute) + Render(stack) == Base(absolute) + Render(stack[..|stack| - 1]) + stack[|stack| - 1] + "/"
    ensures Base(absolute) + Join(stack) == Base(absolute) + Render(stack[..|stack| - 1]) + stack[|stack| - 1]
  {
    Regroup(Base(absolute), Render(stack[..|stack| - 1]), stack[|stack| - 1], "/");
  }

  lemma Regroup(a: string, b: string, c: string, d: string)
    ensures a + (b + c + d) == a + b + c + d
    ensures a + (b + c) == a + b + c
  {
  }

  lemma LimitBeforeLast(stack: seq<string>, absolute: bool)
    requires Ups(stack) < |stack|
    ensures Limit(stack, absolute) <= |Base(absolute) + Render(stack[..|stack| - 1])|
  {
    var n := |stack| - 1;
    RenderPrefix(stack[..n], Ups(stack));
    assert stack[..n][..Ups(stack)] == stack[..Ups(stack)];
  }

  /** Backtracking takes back exactly the last part of the stack. */
  lemma BacktrackPops(out: string, stack: seq<string>, absolute: bool, d: nat)
    requires Ups(stack) < |stack| && GoodPart(stack[|stack| - 1]) && out == Base(absolute) + Render(stack)
    requires Limit(stack, absolute) <= d < |out| && (d == Limit(stack, absolute) || out[d - 1] == '/')
    requires forall i :: d <= i < |out| - 1 ==> out[i] != '/'
    ensures out[..d] == Base(absolute) + Render(stack[..|stack| - 1])
  {
    var n := |stack| - 1;
    var before, part := Base(absolute) + Render(stack[..n]), stack[n];
    RenderUnfolds(stack, absolute);
    LimitBeforeLast(stack, absolute);
    EndsWithSeparator(stack[..n], absolute);
    BacktrackFinds(before, part, Limit(stack, absolute), d);
  }

  // ----- The state of the loop ------------------------------------------------------------------------

  /** The pointers, and the stack that the written part stands for. `open` says that the last part
      was written without a separator, at the end of the input. */
  datatype Cursor = Cursor(src: nat, dst: nat, limit: nat, stack: seq<string>, open: bool)

  /** The writing pointer never passes the reading one, what is still to be read is untouched, and
      stack and rest together resolve to `goal`, what the whole path resolves to. */
  ghost predicate Consistent(s: string, p: string, c: Cursor, absolute: bool, goal: seq<string>) {
    && |p| == |s| && c.dst <= c.src <= |s| && p[c.src..] == s[c.src..]
    && GoodStack(c.stack, absolute) && Written(p[..c.dst], c.stack, absolute, c.open)
    && (c.open ==> c.src == |s|)
    && (!c.open ==> c.limit == Limit(c.stack, absolute))
    && Resolve(c.stack, Parts(s[c.src..]), absolute) == goal
  }

  /** Where the reading pointer is after a part and its separator. */
  function Past(s: string, src: nat): (r: nat)
    requires src < |s|
    ensures r <= |s|
  {
    var end := src + PartLength(s[src..]);
    if end < |s| then end + 1 else end
  }

  lemma NextPart(s: string, src: nat, stack: seq<string>, absolute: bool)
    requires src < |s| && s[src] != '/'
    ensures var part := s[src..][..PartLength(s[src..])];
            var after := if part == "." then stack else Push(stack, part, absolute);
            Resolve(stack, Parts(s[src..]), absolute) == Resolve(after, Parts(s[Past(s, src)..]), absolute)
  {
    var r := s[src..];
    var part, rest := r[..PartLength(r)], Parts(s[Past(s, src)..]);
    assert AfterPart(r) == s[Past(s, src)..];
    if part == "." {
      assert Parts(r) == [] + rest == rest;
    } else {
      assert Parts(r) == [part] + rest;
      assert ([part] + rest)[1..] == rest;
    }
  }

  /** The end of the first part, seen through the characters the code looks at. */
  lemma DotParts(r: string)
    requires r != "" && r[0] == '.' && forall i :: 0 <= i < |r| ==> r[i] != NUL
    ensures r[..PartLength(r)] == "." <==> At(r, 1) == '/' || At(r, 1) == NUL
    ensures r[..PartLength(r)] == "." ==> PartLength(r) == 1
    ensures r[..PartLength(r)] == ".." <==> At(r, 1) == '.' && (At(r, 2) == '/' || At(r, 2) == NUL)
    ensures r[..PartLength(r)] == ".." ==> PartLength(r) == 2
  {
    var k := PartLength(r);
    assert k >= 1;
    assert r[..1] == ".";
    if At(r, 1) == '.' {
      assert r[..2] == "..";
    }
  }

  /** Reading ahead, the array still holds the source string. */
  lemma HeadAgrees(p: string, s: string, i: nat)
    requires |p| == |s| && i < |s| && p[i..] == s[i..]
    ensures p[i] == s[i] && p[i + 1..] == s[i + 1..]
  {
    assert p[i] == p[i..][0] && s[i] == s[i..][0];
    assert p[i + 1..] == p[i..][1..] && s[i + 1..] == s[i..][1..];
  }

  method CopyChar(path: array<char>, src: nat, dst: nat, ghost s: string)
    requires dst <= src < path.Length == |s| && path[src..] == s[src..]
    modifies path
    ensures path[src + 1..] == s[src + 1..] && path[..dst + 1] == old(path[..dst]) + [s[src]]
  {
    HeadAgrees(path[..], s, src);
    path[dst] := path[src];
  }

  lemma OneMore(a: string, s: string, from: nat, src: nat)
    requires from <= src < |s|
    ensures a + s[from..src] + [s[src]] == a + s[from..src + 1]
  {
  }

  /** Copies a part with its separator. */
  method CopyPart(path: array<char>, from: nat, to: nat, ghost s: string) returns (src: nat, dst: nat)
    requires to <= from < path.Length == |s| && path[from..] == s[from..]
    modifies path
    ensures src == Past(s, from) && dst == to + src - from
    ensures path[src..] == s[src..]
    ensures path[..dst] == old(path[..to]) + s[from..src]
  {
    src, dst := from, to;
    ghost var before := path[..to];
    while src < path.Length && path[src] != '/'
      invariant from <= src <= path.Length && dst == to + src - from
      invariant forall i :: from <= i < src ==> s[i] != '/'
      invariant path[src..] == s[src..]
      invariant path[..dst] == before + s[from..src]
    {
      HeadAgrees(path[..], s, src);
      OneMore(before, s, from, src);
      CopyChar(path, src, dst, s);
      src, dst := src + 1, dst + 1;
    }
    if src < path.Length {
      HeadAgrees(path[..], s, src);
      PartEnds(s, from, src);
      OneMore(before, s, from, src);
      CopyChar(path, src, dst, s);
      src, dst := src + 1, dst + 1;
    } else {
      PartEnds(s, from, src);
    }
  }

  lemma {:induction false} PartEnds(s: string, from: nat, end: nat)
    requires from <= end <= |s| && (forall i :: from <= i < end ==> s[i] != '/') && (end < |s| ==> s[end] == '/')
    ensures PartLength(s[from..]) == end - from
  {
    var k := PartLength(s[from..]);
    assert forall i :: 0 <= i < |s[from..]| ==> s[from..][i] == s[from + i];
  }

  /** "..": back over the last part, or kept in front of a relative path, or dropped at the root. */
  method TakeUp(path: array<char>, from: nat, to: nat, oldLimit: nat, absolute: bool, ghost s: string,
                ghost stack: seq<string>)
    returns (src: nat, dst: nat, limit: nat, ghost open: bool)
    requires to <= from < path.Length == |s| && path[from..] == s[from..]
    requires GoodStack(stack, absolute) && Written(path[..to], stack, absolute, false)
        && oldLimit == Limit(stack, absolute)
    requires s[from..][..PartLength(s[from..])] == ".."
    modifies path
    ensures src == Past(s, from)
    ensures dst <= src && path[src..] == s[src..]
    ensures Written(path[..dst], Push(stack, "..", absolute), absolute, open) && (open ==> src == |s|)
    ensures !open ==> limit == Limit(Push(stack, "..", absolute), absolute)
  {
    assert s[from..][..2] == ".." && from + 2 <= |s|;
    TailsAgree(path[..], s, from, from + 2);
    limit, open := oldLimit, false;
    src, dst := from + 2, to;
    LimitMeansUps(path[..to], stack, absolute);
    if dst != limit {
      dst := GoBack(path, dst, limit, absolute, stack);
    } else if !absolute {
      dst, open := KeepUp(path, from, to, s, stack);
      limit := dst;
    }
    if src < path.Length {
      TailsAgree(path[..], s, src, src + 1);
      src := src + 1;
    }
  }

  lemma TailsAgree(p: string, s: string, i: nat, j: nat)
    requires |p| == |s| && i <= j <= |s| && p[i..] == s[i..]
    ensures p[j..] == s[j..]
  {
    assert p[j..] == p[i..][j - i..] && s[j..] == s[i..][j - i..];
  }

  method GoBack(path: array<char>, to: nat, limit: nat, absolute: bool, ghost stack: seq<string>) returns (dst: nat)
    requires to <= path.Length && GoodStack(stack, absolute) && Written(path[..to], stack, absolute, false)
    requires limit == Limit(stack, absolute) < to && Ups(stack) < |stack|
    ensures dst < to && Written(path[..dst], Push(stack, "..", absolute), absolute, false)
    ensures limit == Limit(Push(stack, "..", absolute), absolute)
  {
    dst := Backtrack(path, to, limit);
    PopPart(stack, absolute);
    BacktrackPops(path[..to], stack, absolute, dst);
    assert path[..to][..dst] == path[..dst];
    assert stack[..|stack| - 1][..Ups(stack)] == stack[..Ups(stack)];
  }

  method KeepUp(path: array<char>, from: nat, to: nat, ghost s: string, ghost stack: seq<string>)
    returns (dst: nat, ghost open: bool)
    requires to <= from && from + 2 <= path.Length == |s| && path[from..] == s[from..]
    requires s[from..][..PartLength(s[from..])] == ".."
    requires GoodStack(stack, false) && Written(path[..to], stack, false, false) && Ups(stack) == |stack|
    modifies path
    ensures path[from + 2..] == s[from + 2..]
    ensures open <==> from + 2 == |s|
    ensures dst <= (if open then from + 2 else from + 3)
    ensures Written(path[..dst], Push(stack, "..", false), false, open)
    ensures !open ==> dst == Limit(Push(stack, "..", false), false)
  {
    dst, open := CopyUp(path, from, to, s);
    PushUp(stack);
    RenderAppend(stack, "..");
    assert (stack + [".."])[..|stack| + 1] == stack + [".."];
    assert stack != [] ==> stack[|stack| - 1] == "..";
  }

  /** Copies ".." and, if there is one, its separator. */
  method CopyUp(path: array<char>, from: nat, to: nat, ghost s: string) returns (dst: nat, ghost open: bool)
    requires to <= from && from + 2 <= path.Length == |s| && path[from..] == s[from..]
    requires s[from..][..PartLength(s[from..])] == ".."
    modifies path
    ensures path[from + 2..] == s[from + 2..]
    ensures open <==> from + 2 == |s|
    ensures dst <= (if open then from + 2 else from + 3)
    ensures path[..dst] == old(path[..to]) + ".." + (if open then "" else "/")
  {
    assert path[from] == path[from..][0] == '.' && path[from + 1] == path[from..][1] == '.';
    var src := from;
    dst, open := to, from + 2 == path.Length;
    path[dst] := path[src];
    src, dst := src + 1, dst + 1;
    path[dst] := path[src];
    src, dst := src + 1, dst + 1;
    assert path[src..] == s[src..] by {
      assert s[src..] == s[from..][2..];
    }
    if src < path.Length {
      assert path[src] == s[src] == s[from..][2] == '/';
      path[dst] := path[src];
      dst := dst + 1;
    }
  }

  /** Standing at the limit means that there is no part to take back. */
  lemma LimitMeansUps(out: string, stack: seq<string>, absolute: bool)
    requires GoodStack(stack, absolute) && Written(out, stack, absolute, false)
    ensures |out| >= Limit(stack, absolute)
    ensures |out| == Limit(stack, absolute) <==> Ups(stack) == |stack|
  {
    RenderPrefix(stack, Ups(stack));
    assert stack[..|stack|] == stack;
  }

  lemma WrittenAppend(out: string, stack: seq<string>, part: string, absolute: bool)
    requires Written(out, stack, absolute, false)
    ensures Written(out + part, stack + [part], absolute, true)
    ensures Written(out + part + "/", stack + [part], absolute, false)
  {
    RenderAppend(stack, part);
    Regroup(Base(absolute), Render(stack), part, "/");
  }

  /** What is copied is a part with its separator, if it has one. */
  lemma CopiedPart(out: string, s: string, from: nat)
    requires from < |s|
    ensures var part := s[from..][..PartLength(s[from..])];
            out + s[from..Past(s, from)] == if from + |part| == |s| then out + part else out + part + "/"
  {
    var part := s[from..][..PartLength(s[from..])];
    if from + |part| == |s| {
      assert s[from..Past(s, from)] == part;
    } else {
      assert s[from..][|part|] == s[from + |part|] == '/';
      assert s[from..Past(s, from)] == part + "/";
      Regroup(out, part, "/", "");
    }
  }

  method CopyNamed(path: array<char>, from: nat, to: nat, absolute: bool, ghost s: string, ghost stack: seq<string>)
    returns (src: nat, dst: nat, ghost open: bool)
    requires to <= from < path.Length == |s| && path[from..] == s[from..]
    requires Written(path[..to], stack, absolute, false)
    modifies path
    ensures src == Past(s, from) && dst <= src && path[src..] == s[src..]
    ensures Written(path[..dst], stack + [s[from..][..PartLength(s[from..])]], absolute, open)
    ensures open ==> src == |s|
  {
    ghost var part, before := s[from..][..PartLength(s[from..])], path[..to];
    src, dst := CopyPart(path, from, to, s);
    open := from + |part| == |s|;
    WrittenAppend(before, stack, part, absolute);
    CopiedPart(before, s, from);
  }

  lemma NamedKeepsLimit(stack: seq<string>, part: string, absolute: bool)
    requires GoodStack(stack, absolute) && GoodPart(part) && part != ".."
    ensures GoodStack(stack + [part], absolute) && Limit(stack + [part], absolute) == Limit(stack, absolute)
  {
    PushPart(stack, part, absolute);
    assert (stack + [part])[..Ups(stack)] == stack[..Ups(stack)];
  }

  /** A part of its own is copied behind the others and leaves the limit where it is. */
  method TakeNamed(path: array<char>, from: nat, to: nat, absolute: bool, ghost s: string, ghost stack: seq<string>)
    returns (src: nat, dst: nat, ghost open: bool)
    requires to <= from < path.Length == |s| && path[from..] == s[from..] && s[from] != '/'
    requires GoodStack(stack, absolute) && Written(path[..to], stack, absolute, false)
    requires var part := s[from..][..PartLength(s[from..])]; part != "." && part != ".."
    modifies path
    ensures src == Past(s, from) && dst <= src && path[src..] == s[src..]
    ensures var after := stack + [s[from..][..PartLength(s[from..])]];
            && GoodStack(after, absolute) && Written(path[..dst], after, absolute, open)
            && Limit(after, absolute) == Limit(stack, absolute)
    ensures open ==> src == |s|
  {
    src, dst, open := CopyNamed(path, from, to, absolute, s, stack);
    PartIsGood(s[from..]);
    NamedKeepsLimit(stack, s[from..][..PartLength(s[from..])], absolute);
  }

  datatype PartKind = Dot | Up | Named

  /** What the first three characters of a part say about it. */
  method Classify(path: array<char>, from: nat, ghost s: string) returns (kind: PartKind)
    requires from < path.Length == |s| && path[from..] == s[from..] && forall i :: 0 <= i < |s| ==> s[i] != NUL
    requires s[from] != '/'
    ensures var part := s[from..][..PartLength(s[from..])];
            kind == if part == "." then Dot else if part == ".." then Up else Named
  {
    ghost var r := s[from..];
    assert forall i :: 0 <= i < |r| ==> path[from + i] == path[from..][i] == r[i] == s[from + i];
    if path[from] != '.' {
      assert r[..PartLength(r)] != [] ==> r[..PartLength(r)][0] != '.';
      return Named;
    }
    DotParts(r);
    var next := if from + 1 < path.Length then path[from + 1] else NUL;
    var third := if from + 2 < path.Length then path[from + 2] else NUL;
    assert next == At(r, 1) && third == At(r, 2);
    if next == '/' || next == NUL {
      return Dot;
    }
    return if next == '.' && (third == '/' || third == NUL) then Up else Named;
  }

  /** One turn of the loop: reads one part with its separator. */
  method TakePart(path: array<char>, from: nat, to: nat, oldLimit: nat, absolute: bool, ghost s: string,
                  ghost stack: seq<string>, ghost goal: seq<string>)
    returns (src: nat, dst: nat, limit: nat, ghost after: seq<string>, ghost open: bool)
    requires Consistent(s, path[..], Cursor(from, to, oldLimit, stack, false), absolute, goal)
    requires from < |s| && s[from] != '/' && forall i :: 0 <= i < |s| ==> s[i] != NUL
    modifies path
    ensures src > from && Consistent(s, path[..], Cursor(src, dst, limit, after, open), absolute, goal)
  {
    ghost var part := s[from..][..PartLength(s[from..])];
    NextPart(s, from, stack, absolute);
    var kind := Classify(path, from, s);
    src, dst, limit, after, open := from, to, oldLimit, stack, false;
    match kind {
      case Dot =>
        src := if from + 1 < path.Length then from + 2 else from + 1;
        assert PartLength(s[from..]) == |part| == 1;
        TailsAgree(path[..], s, from, src);
      case Up =>
        src, dst, limit, open := TakeUp(path, from, to, oldLimit, absolute, s, stack);
        after := Push(stack, "..", absolute);
        PushKeepsGood(stack, "..", absolute);
      case Named =>
        src, dst, open := TakeNamed(path, from, to, absolute, s, stack);
        after := stack + [part];
    }
    assert src == Past(s, from) && GoodStack(after, absolute) && Written(path[..dst], after, absolute, open);
    assert Resolve(after, Parts(s[src..]), absolute) == Resolve(stack, Parts(s[from..]), absolute);
  }

  /** Skips consecutive separators. */
  method SkipSeparators(path: array<char>, from: nat, ghost s: string) returns (src: nat)
    requires from <= path.Length == |s| && path[from..] == s[from..]
    ensures from <= src <= |s| && path[src..] == s[src..] && (src < |s| ==> s[src] != '/')
    ensures Parts(s[src..]) == Parts(s[from..])
  {
    src := from;
    while src < path.Length && path[src] == '/'
      invariant from <= src <= path.Length && path[src..] == s[src..]
      invariant Parts(s[src..]) == Parts(s[from..])
    {
      HeadAgrees(path[..], s, src);
      SeparatorSkipped(s, src);
      src := src + 1;
    }
    if src < |s| {
      HeadAgrees(path[..], s, src);
    }
  }

  lemma SeparatorSkipped(s: string, i: nat)
    requires i < |s| && s[i] == '/'
    ensures Parts(s[i + 1..]) == Parts(s[i..])
  {
    SeparatorAddsNothing(s[i..]);
    assert s[i..][1..] == s[i + 1..];
  }

  /** The last lines: no separator at the end, except for the root, and "." for nothing at all. */
  function Trimmed(out: string): string {
    if out == "" then "."
    else if |out| > 1 && out[|out| - 1] == '/' then out[..|out| - 1]
    else out
  }

  lemma TrimmedIsShow(out: string, stack: seq<string>, absolute: bool, open: bool)
    requires GoodStack(stack, absolute) && Written(out, stack, absolute, open)
    ensures Trimmed(out) == Show(stack, absolute)
  {
    if stack != [] {
      RenderUnfolds(stack, absolute);
      var part := stack[|stack| - 1];
      assert GoodPart(part);
      if open {
        assert out[|out| - 1] == part[|part| - 1];
      } else {
        assert out[..|out| - 1] == Base(absolute) + Render(stack[..|stack| - 1]) + part;
      }
    }
  }

  method Trim(path: array<char>, dst: nat) returns (r: string)
    requires dst <= path.Length
    ensures r == Trimmed(path[..dst])
  {
    var length := dst;
    if length != 0 {
      if length > 1 && path[length - 1] == '/' {
        length := length - 1;
      }
      assert path[..dst][..length] == path[..length];
      r := path[..length];
    } else {
      r := ".";
    }
  }

  /** Before the first part: an absolute path keeps its root. */
  method Begin(path: array<char>, ghost s: string) returns (src: nat, dst: nat, absolute: bool)
    requires path[..] == s
    modifies path
    ensures absolute == IsAbsolute(s) && dst <= src <= |s| && path[src..] == s[src..] && path[..dst] == Base(absolute)
    ensures Parts(s[src..]) == Parts(s) && (src < |s| ==> s[src] != '/')
  {
    src, dst := 0, 0;
    absolute := path.Length > 0 && path[0] == '/';
    assert s[0..] == s;
    if absolute {
      path[dst] := path[src];
      src, dst := 1, 1;
      SeparatorSkipped(s, 0);
      assert path[..1] == "/" && path[..] == s;
      src := SkipSeparators(path, src, s);
    }
  }

  lemma BeginIsConsistent(s: string, p: string, src: nat, dst: nat)
    requires |p| == |s| && dst <= src <= |s| && p[src..] == s[src..] && p[..dst] == Base(IsAbsolute(s))
    requires Parts(s[src..]) == Parts(s)
    ensures Consistent(s, p, Cursor(src, dst, dst, [], false), IsAbsolute(s), Resolve([], Parts(s), IsAbsolute(s)))
  {
  }

  /** One turn of the loop, with the separators that follow the part. */
  method TakeTurn(path: array<char>, from: nat, to: nat, oldLimit: nat, absolute: bool, ghost s: string,
                  ghost stack: seq<string>, ghost goal: seq<string>)
    returns (src: nat, dst: nat, limit: nat, ghost after: seq<string>, ghost open: bool)
    requires Consistent(s, path[..], Cursor(from, to, oldLimit, stack, false), absolute, goal)
    requires from < |s| && s[from] != '/' && forall i :: 0 <= i < |s| ==> s[i] != NUL
    modifies path
    ensures src > from && Consistent(s, path[..], Cursor(src, dst, limit, after, open), absolute, goal)
    ensures src < |s| ==> s[src] != '/'
  {
    src, dst, limit, after, open := TakePart(path, from, to, oldLimit, absolute, s, stack, goal);
    src := SkipSeparators(path, src, s);
  }

  /** At the end of the input, what was written is the clean path but for its last separator. */
  lemma DoneIsClean(s: string, p: string, c: Cursor)
    requires Consistent(s, p, c, IsAbsolute(s), Resolve([], Parts(s), IsAbsolute(s))) && c.src == |s|
    ensures Trimmed(p[..c.dst]) == Clean(s)
  {
    assert s[c.src..] == "";
    TrimmedIsShow(p[..c.dst], c.stack, IsAbsolute(s), c.open);
  }

  /** The loop over the parts. */
  method TakeAll(path: array<char>, from: nat, to: nat, absolute: bool, ghost s: string, ghost goal: seq<string>)
    returns (dst: nat, ghost end: Cursor)
    requires Consistent(s, path[..], Cursor(from, to, to, [], false), absolute, goal) && (from < |s| ==> s[from] != '/')
    requires forall i :: 0 <= i < |s| ==> s[i] != NUL
    modifies path
    ensures end.dst == dst && end.src == |s| && Consistent(s, path[..], end, absolute, goal)
  {
    var src, limit := from, to;
    dst := to;
    ghost var stack, open := [], false;
    while src < path.Length
      invariant Consistent(s, path[..], Cursor(src, dst, limit, stack, open), absolute, goal)
      invariant src < |s| ==> s[src] != '/'
    {
      src, dst, limit, stack, open := TakeTurn(path, src, dst, limit, absolute, s, stack, goal);
    }
    end := Cursor(src, dst, limit, stack, open);
  }

  /** Cleans a path in place; the result is the one of the specification, for every string that
      does not contain the terminator, and leads from every directory to where the path leads. */
  method CleanPath(s: string) returns (r: string)
    requires forall i :: 0 <= i < |s| ==> s[i] != NUL
    ensures r == Clean(s)
    ensures forall dir :: Leads(dir, r) == Leads(dir, s)
  {
    var path := new char[|s|](i requires 0 <= i < |s| => s[i]);
    assert path[..] == s;
    var src, dst, absolute := Begin(path, s);
    assert path[..][src..] == path[src..] && path[..][..dst] == path[..dst];
    BeginIsConsistent(s, path[..], src, dst);
    ghost var end;
    dst, end := TakeAll(path, src, dst, absolute, s, Resolve([], Parts(s), absolute));
    DoneIsClean(s, path[..], end);
    assert path[..][..dst] == path[..dst];
    r := Trim(path, dst);
    forall dir ensures Leads(dir, r) == Leads(dir, s) {
      CleanLeadsThere(dir, s);
    }
  }

  // ----- Idempotence ---------------------------------------------------------------------------------------

  lemma {:induction false} ResolveKeepsGood(stack: seq<string>, parts: seq<string>, absolute: bool)
    requires GoodStack(stack, absolute) && forall i :: 0 <= i < |parts| ==> GoodPart(parts[i])
    ensures GoodStack(Resolve(stack, parts, absolute), absolute)
    decreases |parts|
  {
    if parts != [] {
      PushKeepsGood(stack, parts[0], absolute);
      ResolveKeepsGood(Push(stack, parts[0], absolute), parts[1..], absolute);
    }
  }

  lemma {:induction false} PartsAreGood(s: string)
    ensures forall i :: 0 <= i < |Parts(s)| ==> GoodPart(Parts(s)[i])
    decreases |s|
  {
    if s != "" {
      PartsAreGood(AfterPart(s));
    }
  }

  /** Parts of a joined stack are its elements. */
  lemma {:induction false} PartsOfRender(stack: seq<string>, rest: string)
    requires forall i :: 0 <= i < |stack| ==> GoodPart(stack[i])
    ensures Parts(Render(stack) + rest) == stack + Parts(rest)
    decreases |stack|
  {
    if stack == [] {
      assert Render(stack) + rest == rest;
      assert stack + Parts(rest) == Parts(rest);
    } else {
      var n := |stack| - 1;
      var tail := stack[n] + "/" + rest;
      RegroupTail(Render(stack[..n]), stack[n], "/", rest);
      PartsOfRender(stack[..n], tail);
      PartThenRest(stack[n], rest);
      LastThenRest(stack, Parts(rest));
    }
  }

  lemma RegroupTail(a: string, b: string, c: string, d: string)
    ensures a + b + c + d == a + (b + c + d)
  {
  }

  lemma LastThenRest(stack: seq<string>, rest: seq<string>)
    requires stack != []
    ensures stack[..|stack| - 1] + ([stack[|stack| - 1]] + rest) == stack + rest
  {
  }

  lemma FirstPartOf(part: string, rest: string)
    ensures var s := part + "/" + rest; s[..|part|] == part && s[|part|] == '/' && s[|part| + 1..] == rest
  {
  }

  lemma PartThenRest(part: string, rest: string)
    requires GoodPart(part)
    ensures Parts(part + "/" + rest) == [part] + Parts(rest)
  {
    var s := part + "/" + rest;
    FirstPartOf(part, rest);
    PartEnds(s, 0, |part|);
    assert s[0..] == s;
  }

  lemma PartAlone(part: string)
    requires GoodPart(part)
    ensures Parts(part) == [part]
  {
    PartEnds(part, 0, |part|);
    assert part[0..] == part && part[..|part|] == part;
  }

  lemma InitAndLast(stack: seq<string>)
    requires stack != []
    ensures stack[..|stack| - 1] + [stack[|stack| - 1]] == stack
  {
  }

  lemma PartsOfJoin(stack: seq<string>)
    requires forall i :: 0 <= i < |stack| ==> GoodPart(stack[i])
    ensures Parts(Join(stack)) == stack
  {
    if stack != [] {
      var n := |stack| - 1;
      PartsOfRender(stack[..n], stack[n]);
      PartAlone(stack[n]);
      InitAndLast(stack);
    }
  }

  lemma PartsOfShow(stack: seq<string>, absolute: bool)
    requires GoodStack(stack, absolute)
    ensures Parts(Show(stack, absolute)) == stack && IsAbsolute(Show(stack, absolute)) == absolute
  {
    var joined := Join(stack);
    PartsOfJoin(stack);
    if absolute {
      SeparatorAddsNothing("/" + joined);
      assert ("/" + joined)[1..] == joined;
    } else if stack != [] {
      JoinStarts(stack);
      assert "" + joined == joined;
    } else {
      NoPartsInDot();
    }
  }

  lemma NoPartsInDot()
    ensures Parts(".") == []
  {
    var s := ".";
    PartEnds(s, 0, 1);
    assert s[0..] == s && s[..1] == s;
  }

  lemma {:induction false} JoinStarts(stack: seq<string>)
    requires stack != [] && forall i :: 0 <= i < |stack| ==> GoodPart(stack[i])
    ensures Join(stack) != "" && Join(stack)[0] != '/'
    ensures Render(stack) != "" && Render(stack)[0] != '/'
  {
    if |stack| > 1 {
      JoinStarts(stack[..|stack| - 1]);
    }
  }

  /** Resolving a good stack from scratch gives it back. */
  lemma {:induction false} GoodStackResolves(stack: seq<string>, k: nat, absolute: bool)
    requires GoodStack(stack, absolute) && k <= |stack|
    ensures Resolve(stack[..k], stack[k..], absolute) == stack
    decreases |stack| - k
  {
    if k < |stack| {
      assert stack[..k + 1] == stack[..k] + [stack[k]] && stack[k..][1..] == stack[k + 1..];
      assert k > 0 && stack[k] == ".." ==> stack[k - 1] == "..";
      GoodStackResolves(stack, k + 1, absolute);
    } else {
      assert stack[..k] == stack;
    }
  }

  /** Cleaning a clean path changes nothing. */
  lemma CleanIsIdempotent(s: string)
    ensures Clean(Clean(s)) == Clean(s)
  {
    var stack := Stack(s);
    PartsAreGood(s);
    ResolveKeepsGood([], Parts(s), IsAbsolute(s));
    PartsOfShow(stack, IsAbsolute(s));
    GoodStackResolves(stack, 0, IsAbsolute(s));
    assert stack[..0] == [] && stack[0..] == stack;
  }

  // ----- Where paths lead ------------------------------------------------------------------------------------

  /** One part after the other. */
  function EnterAll(dir: Directory, parts: seq<string>): Directory {
    if parts == [] then dir else Enter(EnterAll(dir, parts[..|parts| - 1]), parts[|parts| - 1])
  }

  lemma {:induction false} EnterAllAppend(dir: Directory, a: seq<string>, b: seq<string>)
    ensures EnterAll(dir, a + b) == EnterAll(EnterAll(dir, a), b)
  {
    if b == [] {
      assert a + b == a;
    } else {
      var n := |b| - 1;
      EnterAllAppend(dir, a, b[..n]);
      assert (a + b)[..|a + b| - 1] == a + b[..n];
    }
  }

  lemma EnterOne(dir: Directory, part: string)
    ensures EnterAll(dir, [part]) == Enter(dir, part)
  {
    assert [part][..0] == [] && EnterAll(dir, []) == dir;
  }

  /** The walk enters the part before the first separator as a whole. */
  lemma {:induction false} WalkPart(dir: Directory, part: string, s: string)
    ensures var entered := Enter(dir, part + s[..PartLength(s)]);
            Walk(dir, part, s) == if PartLength(s) < |s| then Walk(entered, "", s[PartLength(s) + 1..]) else entered
    decreases |s|
  {
    var k := PartLength(s);
    if s == "" || s[0] == '/' {
      assert part + s[..0] == part;
    } else {
      WalkPart(dir, part + [s[0]], s[1..]);
      assert part + [s[0]] + s[1..][..k - 1] == part + s[..k];
      assert k < |s| ==> s[1..][k..] == s[k + 1..];
    }
  }

  lemma {:induction false} WalkParts(dir: Directory, s: string)
    ensures Walk(dir, "", s) == EnterAll(dir, Parts(s))
    decreases |s|
  {
    if s != "" {
      var part, rest := s[..PartLength(s)], AfterPart(s);
      WalkPart(dir, "", s);
      assert "" + part == part;
      WalkParts(Enter(dir, part), rest);
      EnterOne(dir, part);
      EnterAllAppend(dir, [part], Parts(rest));
      assert [] + Parts(rest) == Parts(rest);
    }
  }

  /** A stack leads on as the parts that were pushed. */
  lemma PushLeads(dir: Directory, stack: seq<string>, part: string, absolute: bool)
    requires GoodStack(stack, absolute) && GoodPart(part) && (absolute ==> dir == [])
    ensures EnterAll(dir, Push(stack, part, absolute)) == Enter(EnterAll(dir, stack), part)
  {
    if Push(stack, part, absolute) == stack + [part] {
      assert (stack + [part])[..|stack|] == stack;
    } else if stack != [] && stack[|stack| - 1] != ".." {
      assert GoodPart(stack[|stack| - 1]);
    } else {
      assert Ups(stack) == 0;
    }
  }

  lemma {:induction false} ResolveLeads(dir: Directory, stack: seq<string>, parts: seq<string>, absolute: bool)
    requires GoodStack(stack, absolute) && (absolute ==> dir == [])
    requires forall i :: 0 <= i < |parts| ==> GoodPart(parts[i])
    ensures EnterAll(dir, Resolve(stack, parts, absolute)) == EnterAll(EnterAll(dir, stack), parts)
    decreases |parts|
  {
    if parts != [] {
      PushLeads(dir, stack, parts[0], absolute);
      PushKeepsGood(stack, parts[0], absolute);
      ResolveLeads(dir, Push(stack, parts[0], absolute), parts[1..], absolute);
      EnterOne(EnterAll(dir, stack), parts[0]);
      EnterAllAppend(EnterAll(dir, stack), [parts[0]], parts[1..]);
      assert [parts[0]] + parts[1..] == parts;
    }
  }

  function Start(dir: Directory, absolute: bool): Directory { if absolute then [] else dir }

  lemma StackLeads(dir: Directory, s: string)
    ensures GoodStack(Stack(s), IsAbsolute(s))
    ensures Leads(dir, s) == EnterAll(Start(dir, IsAbsolute(s)), Stack(s))
  {
    var start := Start(dir, IsAbsolute(s));
    PartsAreGood(s);
    ResolveKeepsGood([], Parts(s), IsAbsolute(s));
    WalkParts(start, s);
    ResolveLeads(start, [], Parts(s), IsAbsolute(s));
  }

  /** A clean path leads where the path leads, from every directory. */
  lemma CleanLeadsThere(dir: Directory, s: string)
    ensures Leads(dir, Clean(s)) == Leads(dir, s)
  {
    StackLeads(dir, s);
    PartsOfShow(Stack(s), IsAbsolute(s));
    WalkParts(Start(dir, IsAbsolute(s)), Clean(s));
  }

  // ----- Cleaning again ------------------------------------------------------------------------------------

  /** What the method asks of a string. */
  predicate NoNul(s: string) { forall i :: 0 <= i < |s| ==> s[i] != NUL }

  predicate NoNuls(parts: seq<string>) { forall i :: 0 <= i < |parts| ==> NoNul(parts[i]) }

  lemma {:induction false} PartsHaveNoNul(s: string)
    requires NoNul(s)
    ensures NoNuls(Parts(s))
    decreases |s|
  {
    if s != "" {
      PartsHaveNoNul(AfterPart(s));
    }
  }

  lemma {:induction false} ResolvedHasNoNul(stack: seq<string>, parts: seq<string>, absolute: bool)
    requires NoNuls(stack) && NoNuls(parts)
    ensures NoNuls(Resolve(stack, parts, absolute))
    decreases |parts|
  {
    if parts != [] {
      ResolvedHasNoNul(Push(stack, parts[0], absolute), parts[1..], absolute);
    }
  }

  lemma {:induction false} RenderedHasNoNul(stack: seq<string>)
    requires NoNuls(stack)
    ensures NoNul(Render(stack)) && NoNul(Join(stack))
  {
    if stack != [] {
      RenderedHasNoNul(stack[..|stack| - 1]);
    }
  }

  /** A clean path may be cleaned again. */
  lemma CleanHasNoNul(s: string)
    requires NoNul(s)
    ensures NoNul(Clean(s))
  {
    PartsHaveNoNul(s);
    ResolvedHasNoNul([], Parts(s), IsAbsolute(s));
    RenderedHasNoNul(Stack(s));
  }

  /** Cleaning twice gives what cleaning once gives. */
  method CleanTwice(s: string) returns (once: string, twice: string)
    requires NoNul(s)
    ensures once == Clean(s) && twice == once
  {
    once := CleanPath(s);
    CleanHasNoNul(s);
    CleanIsIdempotent(s);
    twice := CleanPath(once);
  }
}
