/** Any sequence of operations on several strings follows the same operations on plain byte strings. */
module TStringRuns {
  import opened Basics
  import opened TString

  // ----- Plain byte strings ------------------------------------------------------------------------

  datatype Shape = Inline | Heap | Viewed

  /** What a string stands for: its bytes, and where they are. */
  datatype Text = Text(bytes: seq<byte>, shape: Shape) {
    predicate FitsWithItself() {
      || bytes == [] || shape == Viewed
      || (shape == Inline && 2 * |bytes| <= SMALL_CAPACITY)
    }
  }

  /** The text of a string that owns its bytes. */
  function Own(bytes: seq<byte>): Text {
    Text(bytes, if |bytes| <= SMALL_CAPACITY then Inline else Heap)
  }

  /** What becomes of a string whose heap buffer is freed or handed over. */
  function Emptied(t: Text): Text { if t.shape == Heap then Text([], Inline) else t }

  /** Nothing changes when nothing is appended. */
  function Appended(t: Text, bytes: seq<byte>): Text {
    if bytes == [] then t else Own(t.bytes + bytes)
  }

  /** Heap bytes are copied; a view is shared. */
  function Assigned(t: Text): Text { if t.shape == Heap then Own(t.bytes) else t }

  /** Operations on one string. */
  datatype Op =
    | Resizing(newSize: nat, c: byte)
    | Reserving(newCap: nat)
    | Owning
    | Viewing(source: array<byte>, at: nat, size: nat)
    | Appending(bytes: seq<byte>)
    | Copying(bytes: seq<byte>)
    | Freeing
  {
    ghost function Sources(): set<object> { if Viewing? then {source} else {} }

    /** The bytes that the operation brings along. */
    ghost function Brings(): seq<byte>
      reads Sources()
    {
      match this
      case Viewing(source, at, size) => if at + size <= source.Length then source[at..at + size] else []
      case Appending(bytes) => bytes
      case Copying(bytes) => bytes
      case _ => []
    }

    /** The text after an operation that brings `bytes` along. */
    function After(t: Text, bytes: seq<byte>): Text {
      match this
      case Resizing(newSize, c) => Own(Resized(t.bytes, newSize, c))
      case Reserving(newCap) => if newCap <= SMALL_CAPACITY then t else t.(shape := Heap)
      case Owning => if t.shape == Viewed then Own(t.bytes) else t
      case Viewing(_, _, _) => Text(bytes, Viewed)
      case Appending(_) => Appended(t, bytes)
      case Copying(_) => Own(bytes)
      case Freeing => Emptied(t)
    }

    /** The sizes are those that a string can store, and a view lies within its source. */
    predicate Fits(t: Text) {
      match this
      case Resizing(newSize, _) => newSize < SIZE_LIMIT
      case Reserving(newCap) => newCap <= RESERVE_LIMIT
      case Viewing(source, at, size) => at + size <= source.Length && size < SIZE_LIMIT
      case Appending(bytes) => |t.bytes| + |bytes| < SIZE_LIMIT
      case Copying(bytes) => |bytes| < SIZE_LIMIT
      case _ => true
    }
  }

  /** An operation on string `i`, or one between strings `i` and `j`, which may be the same. */
  datatype Step =
    | On(i: nat, op: Op)
    | Assigning(i: nat, j: nat)
    | Moving(i: nat, j: nat)
    | Joining(i: nat, j: nat)
  {
    ghost function Sources(): set<object> { if On? then op.Sources() else {} }

    ghost function Brings(): seq<byte>
      reads Sources()
    {
      if On? then op.Brings() else []
    }

    predicate InRange(n: nat) { i < n && (On? || j < n) }

    /** Moving hands the bytes over. */
    function After(texts: seq<Text>, bytes: seq<byte>): (r: seq<Text>)
      requires InRange(|texts|)
      ensures |r| == |texts|
    {
      match this
      case On(i, op) => texts[i := op.After(texts[i], bytes)]
      case Assigning(i, j) => if i == j then texts else texts[i := Assigned(texts[j])]
      case Moving(i, j) => if i == j then texts else texts[i := texts[j]][j := Emptied(texts[j])]
      case Joining(i, j) => texts[i := Appended(texts[i], texts[j].bytes)]
    }

    predicate Fits(texts: seq<Text>) {
      && InRange(|texts|)
      && match this
         case On(i, op) => op.Fits(texts[i])
         case Joining(i, j) =>
           |texts[i].bytes| + |texts[j].bytes| < SIZE_LIMIT && (i == j ==> texts[i].FitsWithItself())
         case _ => true
    }
  }

  // ----- Strings that share no heap bytes ------------------------------------------------------------

  ghost function ShapeOf(u: Union): Shape {
    match u
    case Small(_, _) => Inline
    case Large(_, _, _) => Heap
    case View(_, _, _) => Viewed
  }

  ghost predicate Is(str: TString, t: Text)
    reads str, str.Bytes()
  {
    str.Valid() && str.Contents() == t.bytes && ShapeOf(str.u) == t.shape
  }

  /** A string of shape `a` depends on no heap byte that belongs to one of shape `b`. */
  ghost predicate Apart(a: Union, b: Union) {
    b.Large? ==> (a.Large? ==> a.ptr != b.ptr) && (a.View? ==> a.source != b.ptr)
  }

  ghost predicate AllApart(us: seq<Union>) {
    forall j, k :: 0 <= j < |us| && 0 <= k < |us| && j != k ==> Apart(us[j], us[k])
  }

  // The heap bytes that belong to strings of these shapes, and those that they depend on.
  ghost function OwnedBy(us: seq<Union>): set<object> {
    set k | 0 <= k < |us| && us[k].Large? :: us[k].ptr
  }

  ghost function UsedBy(us: seq<Union>): set<object> {
    OwnedBy(us) + set k | 0 <= k < |us| && us[k].View? :: us[k].source
  }

  /** `u` may take the place of `us[i]`: its heap bytes are the same or new, and what it views is the
      same or nobody's heap bytes. */
  ghost predicate MayReplace(us: seq<Union>, i: nat, u: Union)
    requires i < |us|
  {
    && (u.Large? ==> (us[i].Large? && us[i].ptr == u.ptr) || u.ptr !in UsedBy(us))
    && (u.View? ==> (us[i].View? && us[i].source == u.source) || u.source !in OwnedBy(us))
  }

  lemma ReplacedStaysApart(us: seq<Union>, i: nat, u: Union)
    requires AllApart(us) && i < |us| && MayReplace(us, i, u)
    ensures AllApart(us[i := u])
    ensures OwnedBy(us[i := u]) <= OwnedBy(us) + if u.Large? then {u.ptr} else {}
  {
    var r := us[i := u];
    forall j, k | 0 <= j < |r| && 0 <= k < |r| && j != k ensures Apart(r[j], r[k]) {
      assert Apart(us[j], us[k]);
      assert us[j].Large? ==> us[j].ptr in OwnedBy(us);
      assert us[k].Large? ==> us[k].ptr in OwnedBy(us);
      assert us[j].View? ==> us[j].source in UsedBy(us);
    }
  }

  ghost function Shapes(strs: seq<TString>): (us: seq<Union>)
    reads strs
    ensures |us| == |strs| && forall k :: 0 <= k < |us| ==> us[k] == strs[k].u
  {
    seq(|strs|, k requires 0 <= k < |strs| reads strs => strs[k].u)
  }

  /** Distinct strings with these texts; no heap buffer has two owners or is viewed. */
  ghost predicate Family(strs: seq<TString>, texts: seq<Text>)
    reads strs, UsedBy(Shapes(strs))
  {
    && |strs| == |texts|
    && (forall j, k :: 0 <= j < k < |strs| ==> strs[j] != strs[k])
    && AllApart(Shapes(strs))
    && (forall k :: 0 <= k < |strs| ==> Has(strs, k, texts[k]))
  }

  ghost predicate Has(strs: seq<TString>, k: int, t: Text)
    requires 0 <= k < |strs|
    reads strs, UsedBy(Shapes(strs))
  {
    var u := strs[k].u;
    assert u.Large? ==> Shapes(strs)[k].ptr in UsedBy(Shapes(strs));
    assert u.View? ==> Shapes(strs)[k].source in UsedBy(Shapes(strs));
    Is(strs[k], t)
  }

  method PerformOn(str: TString, op: Op, ghost t: Text)
    requires Is(str, t) && op.Fits(t) && op.Sources() !! str.Owned()
    modifies str, str.Owned()
    ensures Is(str, op.After(t, old(op.Brings())))
    ensures str.u.Large? ==> (old(str.u.Large?) && str.u.ptr == old(str.u).ptr) || fresh(str.u.ptr)
    ensures str.u.View? && !op.Viewing? ==> old(str.u.View?) && str.u.source == old(str.u).source
    ensures op.Viewing? ==> str.u.View? && str.u.source == op.source
  {
    match op {
      case Resizing(newSize, c) => str.Resize(newSize, c);
      case Reserving(newCap) => str.Reserve(newCap);
      case Owning => str.GetMutableDataPointer();
      case Viewing(source, at, size) => str.AssignView(source, at, size);
      case Appending(bytes) => str.AppendN(bytes);
      case Copying(bytes) => str.Copy(bytes);
      case Freeing => str.Dealloc();
    }
  }

  /** A change of one string of a family does not touch the others. */
  lemma OthersStay(strs: seq<TString>, texts: seq<Text>, i: nat)
    requires Family(strs, texts) && i < |strs|
    ensures forall k :: 0 <= k < |strs| && k != i ==>
              strs[k] != strs[i] && strs[k].Bytes() !! strs[i].Owned() && Is(strs[k], texts[k])
    ensures Is(strs[i], texts[i])
  {
    forall k | 0 <= k < |strs| && k != i
      ensures strs[k] != strs[i] && strs[k].Bytes() !! strs[i].Owned() && Is(strs[k], texts[k])
    {
      assert Apart(Shapes(strs)[k], Shapes(strs)[i]);
      assert Has(strs, k, texts[k]);
    }
    assert Has(strs, i, texts[i]);
  }

  /** And so it leaves a family. */
  lemma StillFamily(strs: seq<TString>, us: seq<Union>, texts: seq<Text>, i: nat, t: Text)
    requires i < |strs| == |us| == |texts| && AllApart(us) && MayReplace(us, i, strs[i].u)
    requires forall j, k :: 0 <= j < k < |strs| ==> strs[j] != strs[k]
    requires forall k :: 0 <= k < |strs| && k != i ==> strs[k].u == us[k] && Is(strs[k], texts[k])
    requires Is(strs[i], t)
    ensures Family(strs, texts[i := t])
    ensures OwnedBy(Shapes(strs)) <= OwnedBy(us) + strs[i].Owned()
  {
    assert Shapes(strs) == us[i := strs[i].u];
    ReplacedStaysApart(us, i, strs[i].u);
    var after := texts[i := t];
    forall k | 0 <= k < |strs| ensures Has(strs, k, after[k]) {
    }
  }

  /** An operation on one string of a family. */
  method PerformAt(strs: seq<TString>, i: nat, op: Op, ghost texts: seq<Text>)
    requires Family(strs, texts) && i < |strs| && op.Fits(texts[i]) && op.Sources() !! OwnedBy(Shapes(strs))
    modifies strs[i], strs[i].Owned()
    ensures Family(strs, texts[i := op.After(texts[i], old(op.Brings()))])
    ensures forall o :: o in OwnedBy(Shapes(strs)) ==> o in old(OwnedBy(Shapes(strs))) || fresh(o)
  {
    var str := strs[i];
    ghost var us := Shapes(strs);
    OthersStay(strs, texts, i);
    ghost var brought := op.Brings();
    PerformOn(str, op, texts[i]);
    assert MayReplace(us, i, str.u);
    StillFamily(strs, us, texts, i, op.After(texts[i], brought));
  }

  lemma ViewedIsFree(us: seq<Union>, j: nat)
    requires AllApart(us) && j < |us| && us[j].View?
    ensures us[j].source !in OwnedBy(us)
  {
    forall k | 0 <= k < |us| && us[k].Large? ensures us[k].ptr != us[j].source {
      assert Apart(us[j], us[k]);
    }
  }

  /** Assigning between two strings, seen on their texts. */
  method AssignOn(a: TString, b: TString, ghost t: Text, ghost from: Text)
    requires a != b && Is(a, t) && Is(b, from) && b.Bytes() !! a.Owned()
    modifies a
    ensures Is(a, Assigned(from)) && Is(b, from) && b.u == old(b.u)
    ensures a.u.Large? ==> fresh(a.u.ptr)
    ensures a.u.View? ==> b.u.View? && a.u.source == b.u.source
  {
    a.Assign(b);
  }

  method JoinOn(a: TString, b: TString, ghost t: Text, ghost from: Text)
    requires a != b && Is(a, t) && Is(b, from) && b.Bytes() !! a.Owned() && |t.bytes| + |from.bytes| < SIZE_LIMIT
    modifies a, a.Owned()
    ensures Is(a, Appended(t, from.bytes)) && Is(b, from) && b.u == old(b.u)
    ensures a.u.Large? ==> (old(a.u.Large?) && a.u.ptr == old(a.u).ptr) || fresh(a.u.ptr)
    ensures a.u.View? ==> old(a.u.View?) && a.u.source == old(a.u).source
  {
    a.Append(b);
  }

  method JoinSelf(a: TString, ghost t: Text)
    requires Is(a, t) && 2 * |t.bytes| < SIZE_LIMIT && t.FitsWithItself()
    modifies a, a.Owned()
    ensures Is(a, Appended(t, t.bytes))
    ensures a.u.Large? ==> (old(a.u.Large?) && a.u.ptr == old(a.u).ptr) || fresh(a.u.ptr)
    ensures a.u.View? ==> old(a.u.View?) && a.u.source == old(a.u).source
  {
    a.Append(a);
  }

  method MoveOn(a: TString, b: TString, ghost t: Text, ghost from: Text)
    requires a != b && Is(a, t) && Is(b, from) && b.Bytes() !! a.Owned()
    modifies a, b
    ensures Is(a, from) && Is(b, Emptied(from)) && a.u == old(b.u)
    ensures if old(b.u.Large?) then b.u.Small? else b.u == old(b.u)
  {
    a.Move(b);
  }

  method AssignAt(strs: seq<TString>, i: nat, j: nat, ghost texts: seq<Text>)
    requires Family(strs, texts) && i < |strs| && j < |strs| && i != j
    modifies strs[i]
    ensures Family(strs, texts[i := Assigned(texts[j])])
    ensures forall o :: o in OwnedBy(Shapes(strs)) ==> o in old(OwnedBy(Shapes(strs))) || fresh(o)
  {
    var str := strs[i];
    ghost var us := Shapes(strs);
    OthersStay(strs, texts, i);
    AssignOn(str, strs[j], texts[i], texts[j]);
    if us[j].View? {
      ViewedIsFree(us, j);
    }
    assert MayReplace(us, i, str.u);
    StillFamily(strs, us, texts, i, Assigned(texts[j]));
  }

  method JoinAt(strs: seq<TString>, i: nat, j: nat, ghost texts: seq<Text>)
    requires Family(strs, texts) && i < |strs| && j < |strs| && i != j
    requires |texts[i].bytes| + |texts[j].bytes| < SIZE_LIMIT
    modifies strs[i], strs[i].Owned()
    ensures Family(strs, texts[i := Appended(texts[i], texts[j].bytes)])
    ensures forall o :: o in OwnedBy(Shapes(strs)) ==> o in old(OwnedBy(Shapes(strs))) || fresh(o)
  {
    var str := strs[i];
    ghost var us := Shapes(strs);
    OthersStay(strs, texts, i);
    JoinOn(str, strs[j], texts[i], texts[j]);
    assert MayReplace(us, i, str.u);
    StillFamily(strs, us, texts, i, Appended(texts[i], texts[j].bytes));
  }

  method JoinSelfAt(strs: seq<TString>, i: nat, ghost texts: seq<Text>)
    requires Family(strs, texts) && i < |strs| && 2 * |texts[i].bytes| < SIZE_LIMIT && texts[i].FitsWithItself()
    modifies strs[i], strs[i].Owned()
    ensures Family(strs, texts[i := Appended(texts[i], texts[i].bytes)])
    ensures forall o :: o in OwnedBy(Shapes(strs)) ==> o in old(OwnedBy(Shapes(strs))) || fresh(o)
  {
    var str := strs[i];
    ghost var us := Shapes(strs);
    OthersStay(strs, texts, i);
    JoinSelf(str, texts[i]);
    assert MayReplace(us, i, str.u);
    StillFamily(strs, us, texts, i, Appended(texts[i], texts[i].bytes));
  }

  lemma MovedStaysApart(us: seq<Union>, i: nat, j: nat, left: Union)
    requires AllApart(us) && i < |us| && j < |us| && i != j && if us[j].Large? then left.Small? else left == us[j]
    ensures AllApart(us[i := us[j]][j := left]) && OwnedBy(us[i := us[j]][j := left]) <= OwnedBy(us)
  {
    var r := us[i := us[j]][j := left];
    forall a, b | 0 <= a < |r| && 0 <= b < |r| && a != b ensures Apart(r[a], r[b]) {
      var a', b' := if a == i then j else a, if b == i then j else b;
      assert a' != b' ==> Apart(us[a'], us[b']);
    }
  }

  method MoveAt(strs: seq<TString>, i: nat, j: nat, ghost texts: seq<Text>)
    requires Family(strs, texts) && i < |strs| && j < |strs| && i != j
    modifies strs[i], strs[j]
    ensures Family(strs, texts[i := texts[j]][j := Emptied(texts[j])])
    ensures OwnedBy(Shapes(strs)) <= old(OwnedBy(Shapes(strs)))
  {
    ghost var us := Shapes(strs);
    OthersStay(strs, texts, i);
    MoveOn(strs[i], strs[j], texts[i], texts[j]);
    assert Shapes(strs) == us[i := us[j]][j := strs[j].u];
    MovedStaysApart(us, i, j, strs[j].u);
  }

  /** Assigning or moving a string to itself does nothing. */
  method NothingAt(strs: seq<TString>, i: nat, moving: bool, ghost texts: seq<Text>)
    requires Family(strs, texts) && i < |strs|
    modifies strs[i]
    ensures Family(strs, texts)
    ensures OwnedBy(Shapes(strs)) <= old(OwnedBy(Shapes(strs)))
  {
    var str := strs[i];
    ghost var us := Shapes(strs);
    OthersStay(strs, texts, i);
    if moving {
      str.Move(str);
    } else {
      str.Assign(str);
    }
    assert str.u == us[i] && texts[i := texts[i]] == texts;
    StillFamily(strs, us, texts, i, texts[i]);
  }

  method PerformOnPair(strs: seq<TString>, step: Step, ghost texts: seq<Text>)
    requires Family(strs, texts) && step.Fits(texts) && !step.On?
    modifies strs, OwnedBy(Shapes(strs))
    ensures Family(strs, step.After(texts, []))
    ensures forall o :: o in OwnedBy(Shapes(strs)) ==> o in old(OwnedBy(Shapes(strs))) || fresh(o)
  {
    if step.i == step.j {
      if step.Joining? {
        JoinSelfAt(strs, step.i, texts);
      } else {
        NothingAt(strs, step.i, step.Moving?, texts);
      }
    } else {
      match step {
        case Assigning(i, j) => AssignAt(strs, i, j, texts);
        case Moving(i, j) => MoveAt(strs, i, j, texts);
        case Joining(i, j) => JoinAt(strs, i, j, texts);
      }
    }
  }

  method Perform(strs: seq<TString>, step: Step, ghost texts: seq<Text>)
    requires Family(strs, texts) && step.Fits(texts) && step.Sources() !! OwnedBy(Shapes(strs))
    modifies strs, OwnedBy(Shapes(strs))
    ensures Family(strs, step.After(texts, old(step.Brings())))
    ensures forall o :: o in OwnedBy(Shapes(strs)) ==> o in old(OwnedBy(Shapes(strs))) || fresh(o)
  {
    if step.On? {
      PerformAt(strs, step.i, step.op, texts);
    } else {
      PerformOnPair(strs, step, texts);
    }
  }

  /** The texts after the first `n` steps; `brought[k]` is what step `k` brings along. */
  ghost function AfterAll(texts: seq<Text>, steps: seq<Step>, brought: seq<seq<byte>>, n: nat): (r: seq<Text>)
    requires n <= |steps| == |brought| && forall k :: 0 <= k < n ==> steps[k].InRange(|texts|)
    ensures |r| == |texts|
  {
    if n == 0 then texts else steps[n - 1].After(AfterAll(texts, steps, brought, n - 1), brought[n - 1])
  }

  /** Each of the first `n` steps asks for sizes that fit when its turn comes. */
  ghost predicate AllFit(texts: seq<Text>, steps: seq<Step>, brought: seq<seq<byte>>, n: nat)
    requires n <= |steps| == |brought|
    ensures AllFit(texts, steps, brought, n) ==> forall k :: 0 <= k < n ==> steps[k].InRange(|texts|)
  {
    n == 0 ||
    (AllFit(texts, steps, brought, n - 1) && steps[n - 1].Fits(AfterAll(texts, steps, brought, n - 1)))
  }

  /** Whatever shapes and capacities the strings go through in `n` steps, their bytes are those that
      the same steps make of plain byte strings, and no heap buffer ever has two owners. */
  method PerformFirst(strs: seq<TString>, steps: seq<Step>, n: nat, ghost brought: seq<seq<byte>>,
                      ghost texts: seq<Text>)
    requires n <= |steps| == |brought| && Family(strs, texts) && AllFit(texts, steps, brought, n)
    requires forall k :: 0 <= k < n ==> steps[k].Brings() == brought[k] && steps[k].Sources() !! OwnedBy(Shapes(strs))
    modifies strs, OwnedBy(Shapes(strs))
    ensures Family(strs, AfterAll(texts, steps, brought, n))
    ensures forall o :: o in OwnedBy(Shapes(strs)) ==> o in old(OwnedBy(Shapes(strs))) || fresh(o)
  {
    if n > 0 {
      var step := steps[n - 1];
      ghost var before := AfterAll(texts, steps, brought, n - 1);
      PerformFirst(strs, steps, n - 1, brought, texts);
      assert step.Brings() == brought[n - 1] && step.Sources() !! OwnedBy(Shapes(strs));
      Perform(strs, step, before);
    }
  }
}
