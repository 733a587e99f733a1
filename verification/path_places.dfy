/** Cleaning as a normal form: two paths have the same clean path exactly when they lead to the same
    places, and no path that leads there is shorter. */
module PathPlaces {
  import opened PathWalk
  import opened CleanPath

  /** A directory as the file system has it: names only. */
  predicate IsDirectory(dir: Directory) {
    forall i :: 0 <= i < |dir| ==> GoodPart(dir[i]) && dir[i] != ".."
  }

  /** Both paths lead to the same place, from every directory. */
  ghost predicate SamePlaces(s: string, t: string) {
    forall dir :: IsDirectory(dir) ==> Leads(dir, s) == Leads(dir, t)
  }

  // ----- Where a clean path leads --------------------------------------------------------------------

  /** A stack goes up its leading ".." parts, or to the root, and down its names. */
  lemma {:induction false} StackGoes(dir: Directory, stack: seq<string>, absolute: bool)
    requires GoodStack(stack, absolute) && Ups(stack) <= |dir|
    ensures EnterAll(dir, stack) == dir[..|dir| - Ups(stack)] + stack[Ups(stack)..]
  {
    if stack == [] {
      assert dir[..|dir|] + [] == dir;
    } else {
      var n := |stack| - 1;
      var front, last := stack[..n], stack[n];
      assert GoodPart(last);
      if Ups(stack) < |stack| {
        PopPart(stack, absolute);
        StackGoes(dir, front, absolute);
        NameLast(stack, Ups(stack));
      } else {
        UpsOf(front, n);
        StackGoes(dir, front, absolute);
      }
    }
  }

  lemma NameLast(stack: seq<string>, u: nat)
    requires u < |stack|
    ensures stack[..|stack| - 1][u..] + [stack[|stack| - 1]] == stack[u..]
  {
  }

  lemma AbsoluteGoes(stack: seq<string>)
    requires GoodStack(stack, true)
    ensures EnterAll([], stack) == stack
  {
    StackGoes([], stack, true);
    var root: Directory := [];
    assert root[..0] + stack[0..] == stack;
  }

  // ----- Telling stacks apart ---------------------------------------------------------------------------

  function TotalLength(stack: seq<string>): nat {
    if stack == [] then 0 else TotalLength(stack[..|stack| - 1]) + |stack[|stack| - 1]|
  }

  lemma {:induction false} NoneIsLonger(stack: seq<string>, part: string)
    requires part in stack
    ensures |part| <= TotalLength(stack)
  {
    if part != stack[|stack| - 1] {
      NoneIsLonger(stack[..|stack| - 1], part);
    }
  }

  /** A name that is longer than everything in both stacks. */
  function NewName(a: seq<string>, b: seq<string>): string {
    seq(TotalLength(a) + TotalLength(b) + 1, _ => 'a')
  }

  lemma NewNameIsNew(a: seq<string>, b: seq<string>)
    ensures NewName(a, b) !in a && NewName(a, b) !in b
    ensures GoodPart(NewName(a, b)) && NewName(a, b) != ".."
  {
    if NewName(a, b) in a {
      NoneIsLonger(a, NewName(a, b));
    }
    if NewName(a, b) in b {
      NoneIsLonger(b, NewName(a, b));
    }
    assert NewName(a, b)[0] == 'a';
  }

  /** A directory deep enough for both, whose names are new. */
  function Deep(a: seq<string>, b: seq<string>): (dir: Directory)
    ensures |dir| == Ups(a) + Ups(b) + 1
    ensures IsDirectory(dir) && forall i :: 0 <= i < |dir| ==> dir[i] !in a && dir[i] !in b
  {
    NewNameIsNew(a, b);
    seq(Ups(a) + Ups(b) + 1, _ => NewName(a, b))
  }

  /** A stack that goes up less leaves more of the directory. */
  lemma UpsTell(a: seq<string>, b: seq<string>, dir: Directory)
    requires |dir| == Ups(a) + Ups(b) + 1 && forall i :: 0 <= i < |dir| ==> dir[i] !in b
    requires dir[..|dir| - Ups(a)] + a[Ups(a)..] == dir[..|dir| - Ups(b)] + b[Ups(b)..]
    ensures Ups(a) >= Ups(b)
  {
    if Ups(a) < Ups(b) {
      BehindIsOf(dir[..|dir| - Ups(b)], b, Ups(b));
    }
  }

  lemma BehindIsOf(front: seq<string>, stack: seq<string>, u: nat)
    requires u <= |stack| && front + stack[u..] != front
    ensures (front + stack[u..])[|front|] in stack
  {
    assert stack[u..] != [];
    assert (front + stack[u..])[|front|] == stack[u];
  }

  lemma SameUps(a: seq<string>, b: seq<string>)
    requires Ups(a) == Ups(b) && a[Ups(a)..] == b[Ups(b)..]
    ensures a == b
  {
    assert a == a[..Ups(a)] + a[Ups(a)..] && b == b[..Ups(b)] + b[Ups(b)..];
    assert a[..Ups(a)] == b[..Ups(b)];
  }

  lemma RelativeTell(a: seq<string>, b: seq<string>)
    requires GoodStack(a, false) && GoodStack(b, false) && EnterAll(Deep(a, b), a) == EnterAll(Deep(a, b), b)
    ensures a == b
  {
    var dir := Deep(a, b);
    StackGoes(dir, a, false);
    StackGoes(dir, b, false);
    UpsTell(a, b, dir);
    UpsTell(b, a, dir);
    var k := |dir| - Ups(a);
    assert (dir[..k] + a[Ups(a)..])[k..] == a[Ups(a)..] && (dir[..k] + b[Ups(b)..])[k..] == b[Ups(b)..];
    SameUps(a, b);
  }

  lemma AbsoluteTell(a: seq<string>, b: seq<string>)
    requires GoodStack(a, true) && GoodStack(b, false)
    ensures EnterAll([], a) != EnterAll(Deep(a, b), b)
  {
    var dir := Deep(a, b);
    AbsoluteGoes(a);
    StackGoes(dir, b, false);
    assert EnterAll(dir, b)[0] == dir[0];
  }

  /** Stacks that lead to the same places are the same. */
  lemma StacksTell(s: string, t: string)
    requires SamePlaces(s, t)
    ensures IsAbsolute(s) == IsAbsolute(t) && Stack(s) == Stack(t)
  {
    var a, b := Stack(s), Stack(t);
    StackLeads([], s);
    StackLeads([], t);
    assert IsDirectory([]);
    StackLeads(Deep(a, b), s);
    StackLeads(Deep(a, b), t);
    StackLeads(Deep(b, a), s);
    StackLeads(Deep(b, a), t);
    if IsAbsolute(s) && IsAbsolute(t) {
      AbsoluteGoes(a);
      AbsoluteGoes(b);
    } else if IsAbsolute(s) {
      AbsoluteTell(a, b);
    } else if IsAbsolute(t) {
      AbsoluteTell(b, a);
    } else {
      RelativeTell(a, b);
    }
  }

  /** Two paths are cleaned to the same path if and only if they lead to the same places. */
  lemma SameCleanIff(s: string, t: string)
    ensures Clean(s) == Clean(t) <==> SamePlaces(s, t)
  {
    if Clean(s) == Clean(t) {
      forall dir | IsDirectory(dir) ensures Leads(dir, s) == Leads(dir, t) {
        CleanLeadsThere(dir, s);
        CleanLeadsThere(dir, t);
      }
    }
    if SamePlaces(s, t) {
      StacksTell(s, t);
    }
  }

  // ----- No shorter path -------------------------------------------------------------------------------

  /** The length of parts with a separator each. */
  function Cost(parts: seq<string>): nat {
    if parts == [] then 0 else Cost(parts[..|parts| - 1]) + |parts[|parts| - 1]| + 1
  }

  lemma {:induction false} CostAppend(a: seq<string>, b: seq<string>)
    ensures Cost(a + b) == Cost(a) + Cost(b)
  {
    if b == [] {
      assert a + b == a;
    } else {
      CostAppend(a, b[..|b| - 1]);
      assert (a + b)[..|a + b| - 1] == a + b[..|b| - 1];
    }
  }

  lemma CostOne(part: string)
    ensures Cost([part]) == |part| + 1
  {
    assert [part][..0] == [];
  }

  lemma {:induction false} PartsCost(s: string)
    ensures Cost(Parts(s)) <= |s| + 1
    decreases |s|
  {
    if s != "" {
      var part := s[..PartLength(s)];
      PartsCost(AfterPart(s));
      CostOne(part);
      CostAppend([part], Parts(AfterPart(s)));
      assert [] + Parts(AfterPart(s)) == Parts(AfterPart(s));
    }
  }

  lemma {:induction false} ResolveCost(stack: seq<string>, parts: seq<string>, absolute: bool)
    ensures Cost(Resolve(stack, parts, absolute)) <= Cost(stack) + Cost(parts)
    decreases |parts|
  {
    if parts != [] {
      ResolveCost(Push(stack, parts[0], absolute), parts[1..], absolute);
      CostOne(parts[0]);
      CostAppend(stack, [parts[0]]);
      CostAppend([parts[0]], parts[1..]);
      assert [parts[0]] + parts[1..] == parts;
    }
  }

  lemma {:induction false} RenderCost(stack: seq<string>)
    ensures |Render(stack)| == Cost(stack)
    ensures stack != [] ==> |Join(stack)| == Cost(stack) - 1
  {
    if stack != [] {
      RenderCost(stack[..|stack| - 1]);
    }
  }

  lemma CleanIsNoLonger(t: string)
    requires t != ""
    ensures |Clean(t)| <= |t|
  {
    ResolveCost([], Parts(t), IsAbsolute(t));
    RenderCost(Stack(t));
    if IsAbsolute(t) {
      SeparatorAddsNothing(t);
      PartsCost(t[1..]);
    } else {
      PartsCost(t);
    }
  }

  lemma {:induction false} NeverEmpty(s: string)
    ensures Clean(s) != ""
  {
    StackLeads([], s);
    if Stack(s) != [] {
      assert GoodPart(Stack(s)[|Stack(s)| - 1]);
    }
  }

  /** The clean path is a shortest one of all that are not empty and lead to the same places. */
  lemma CleanIsShortest(s: string, t: string)
    requires t != "" && SamePlaces(s, t)
    ensures Clean(s) != "" && |Clean(s)| <= |t|
  {
    NeverEmpty(s);
    SameCleanIff(s, t);
    CleanIsNoLonger(t);
  }
}
