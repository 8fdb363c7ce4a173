/** Lists and the views into them.  A view is a pointer into the list's memory that is guarded by the
    list's version counter. */
module Views {
  import opened MergeSort
  import opened Options

  datatype Panic = IndexOutOfBounds | EmptyPop | ViewInvalid
  datatype Result<+R> = Ok(value: R) | Raised(panic: Panic)

  class PsList<T(0, !new)> {
    /** The capacity is the length of the memory block; growing moves the list to another block. */
    var ptr: array<T>
    var len: nat
    var version: nat

    ghost predicate Valid()
      reads this
    {
      len <= ptr.Length
    }

    ghost function Contents(): (s: seq<T>)
      reads this, ptr
      requires Valid()
      ensures |s| == len
    {
      ptr[..len]
    }

    constructor (items: seq<T>)
      ensures Valid() && Contents() == items && version == 0 && fresh(ptr)
    {
      len, version := |items|, 0;
      ptr := new T[|items|](i requires 0 <= i < |items| => items[i]);
    }

    /** What a view relies on: without a new version nothing has moved or changed its length. */
    twostate predicate Kept()
      reads this
    {
      old(version) <= version && (version == old(version) ==> ptr == old(ptr) && len == old(len))
    }

    method Push(x: T)
      requires Valid()
      modifies this, ptr
      ensures Valid() && Contents() == old(Contents()) + [x] && version == old(version) + 1 && Kept()
      ensures ptr == old(ptr) || fresh(ptr)
      ensures ptr.Length == if old(len) < old(ptr.Length) then old(ptr.Length) else if old(len) == 0 then 4
                            else 2 * old(len)
    {
      if len == ptr.Length {
        var newCap := if ptr.Length > 0 then ptr.Length * 2 else 4;
        var block := new T[newCap];
        ghost var before := Contents();
        Move(ptr, block, len);
        assert block[..len] == before;
        ptr := block;
      }
      ptr[len] := x;
      len := len + 1;
      version := version + 1;
    }

    /** The copying half of `realloc`. */
    static method Move(from: array<T>, to: array<T>, n: nat)
      requires n <= from.Length && n <= to.Length && from != to
      modifies to
      ensures to[..n] == from[..n]
    {
      var i := 0;
      while i < n
        invariant i <= n && to[..i] == from[..i]
      {
        to[i] := from[i];
        i := i + 1;
      }
    }

    method Pop() returns (r: Result<T>)
      requires Valid()
      modifies this
      ensures Valid() && Kept() && ptr == old(ptr)
      ensures old(len) == 0 ==> r == Raised(EmptyPop) && len == 0 && version == old(version)
      ensures old(len) > 0 ==> version == old(version) + 1 && r.Ok? && old(Contents()) == Contents() + [r.value]
    {
      if len == 0 { return Raised(EmptyPop); }
      len := len - 1;
      version := version + 1;
      return Ok(ptr[len]);
    }

    method Set(i: int, x: T) returns (r: Result<()>)
      requires Valid()
      modifies ptr
      ensures Valid() && Kept() && version == old(version)
      ensures r == if 0 <= i < len then Ok(()) else Raised(IndexOutOfBounds)
      ensures Contents() == if 0 <= i < len then old(Contents())[i := x] else old(Contents())
    {
      if i < 0 || i >= len { return Raised(IndexOutOfBounds); }
      ptr[i] := x;
      return Ok(());
    }

    method SortList(cmp: Compare<T>)
      requires Valid()
      modifies ptr
      ensures Valid() && Kept() && version == old(version) && Contents() == SortFrom(old(Contents()), 1, cmp)
    {
      Sort(ptr, len, cmp);
    }

    /** `make_view` on a list. */
    method MakeView(offset: int, n: int) returns (r: Result<View<T>>)
      requires Valid()
      ensures r.Ok? <==> 0 <= offset && 0 <= n && offset + n <= len
      ensures r.Ok? ==> r.value == View(ptr, offset, n, this, version) && r.value.Tracks()
      ensures r.Raised? ==> r.panic == IndexOutOfBounds
    {
      if offset < 0 || n < 0 || offset + n > len { return Raised(IndexOutOfBounds); }
      return Ok(View(ptr, offset, n, this, version));
    }
  }

  /** `mem` and `base` stand for the C pointer. */
  datatype View<T(0, !new)> = View(mem: array<T>, base: nat, len: nat, list: PsList<T>, version: nat) {
    /** As long as the version check passes, the pointer and the length are good. */
    ghost predicate Tracks()
      reads list
    {
      version <= list.version &&
      (version == list.version ==> mem == list.ptr && base + len <= list.len)
    }

    /** `make_view` on a view; it copies the version it was given. */
    method SubView(offset: int, n: int) returns (r: Result<View<T>>)
      ensures r.Ok? <==> 0 <= offset && 0 <= n && offset + n <= len
      ensures r.Ok? ==> r.value == View(mem, base + offset, n, list, version) && (Tracks() ==> r.value.Tracks())
      ensures r.Raised? ==> r.panic == IndexOutOfBounds
    {
      if offset < 0 || n < 0 || offset + n > len { return Raised(IndexOutOfBounds); }
      return Ok(View(mem, base + offset, n, list, version));
    }

    /** The bounds check, the version check, then the read through the pointer. */
    method Get(k: int) returns (r: Result<T>)
      requires list.Valid() && Tracks()
      ensures 0 <= k < len && version == list.version ==>
                base + k < list.len && r == Ok(list.Contents()[base + k])
      ensures !(0 <= k < len) ==> r == Raised(IndexOutOfBounds)
      ensures 0 <= k < len && version != list.version ==> r == Raised(ViewInvalid)
    {
      if k < 0 || k >= len { return Raised(IndexOutOfBounds); }
      if list.version != version { return Raised(ViewInvalid); }
      return Ok(mem[base + k]);
    }

    method Put(k: int, x: T) returns (r: Result<()>)
      requires list.Valid() && Tracks()
      modifies list.ptr
      ensures list.Valid() && list.Kept() && list.version == old(list.version)
      ensures r.Ok? <==> 0 <= k < len && version == list.version
      ensures r.Ok? ==> base + k < list.len && list.Contents() == old(list.Contents())[base + k := x]
      ensures r.Raised? ==> list.Contents() == old(list.Contents())
    {
      if k < 0 || k >= len { return Raised(IndexOutOfBounds); }
      if list.version != version { return Raised(ViewInvalid); }
      mem[base + k] := x;
      return Ok(());
    }
  }

  /** Whatever a step does that keeps what views rely on, it keeps every view. */
  twostate lemma ViewSurvives<T(0, !new)>(v: View<T>)
    requires old(v.Tracks()) && v.list.Kept()
    ensures v.Tracks()
  {
  }

  // ----- all runs -----

  /** Views are named by the order in which the run makes them; `src` is the view that a view is taken
      of, or none for the list itself. */
  datatype Op<!T(0, !new)> =
    | DoPush(x: T)
    | DoPop
    | DoSet(i: int, x: T)
    | DoSort(cmp: Compare<T>)
    | DoView(src: Option<nat>, offset: int, n: int)
    | DoPut(h: nat, k: int, x: T)
    | DoGet(h: nat, k: int)

  predicate Resizes<T(0, !new)>(op: Op<T>) {
    op.DoPush? || op.DoPop?
  }

  function CountResizes<T(0, !new)>(ops: seq<Op<T>>): nat {
    if ops == [] then 0 else CountResizes(ops[..|ops| - 1]) + if Resizes(ops[|ops| - 1]) then 1 else 0
  }

  function CountViews<T(0, !new)>(ops: seq<Op<T>>): nat {
    if ops == [] then 0 else CountViews(ops[..|ops| - 1]) + if ops[|ops| - 1].DoView? then 1 else 0
  }

  predicate InScope<T(0, !new)>(op: Op<T>, views: nat) {
    (op.DoView? && op.src.Some? ==> op.src.value < views) && (op.DoPut? || op.DoGet? ==> op.h < views)
  }

  /** Only views that have been made are named. */
  predicate Scoped<T(0, !new)>(ops: seq<Op<T>>) {
    ops == [] || (Scoped(ops[..|ops| - 1]) && InScope(ops[|ops| - 1], CountViews(ops[..|ops| - 1])))
  }

  // ----- what a view means, told from the history alone -----

  /** The operation that took the first view of the chain that view `h` ends. */
  function RootAt<T(0, !new)>(past: seq<Op<T>>, h: nat): (r: nat)
    requires Scoped(past) && h < CountViews(past)
    ensures r < |past|
  {
    var n := |past| - 1;
    if h < CountViews(past[..n]) then RootAt(past[..n], h)
    else if past[n].src.None? then n
    else RootAt(past[..n], past[n].src.value)
  }

  /** The sum of the offsets along that chain. */
  function OffsetOf<T(0, !new)>(past: seq<Op<T>>, h: nat): int
    requires Scoped(past) && h < CountViews(past)
  {
    var n := |past| - 1;
    if h < CountViews(past[..n]) then OffsetOf(past[..n], h)
    else past[n].offset + if past[n].src.None? then 0 else OffsetOf(past[..n], past[n].src.value)
  }

  function LengthOf<T(0, !new)>(past: seq<Op<T>>, h: nat): int
    requires Scoped(past) && h < CountViews(past)
  {
    var n := |past| - 1;
    if h < CountViews(past[..n]) then LengthOf(past[..n], h) else past[n].n
  }

  /** Nothing has been pushed or popped since the first view of the chain was taken. */
  predicate Fresh<T(0, !new)>(past: seq<Op<T>>, h: nat)
    requires Scoped(past) && h < CountViews(past)
  {
    CountResizes(past[RootAt(past, h)..]) == 0
  }

  /** What goes through without a panic, on a list that holds `items` after `past`. */
  predicate Allowed<T(0, !new)>(items: seq<T>, past: seq<Op<T>>, op: Op<T>)
    requires Scoped(past) && InScope(op, CountViews(past))
  {
    match op
    case DoPush(_) => true
    case DoPop => items != []
    case DoSet(i, _) => 0 <= i < |items|
    case DoSort(_) => true
    case DoView(src, offset, n) =>
      0 <= offset && 0 <= n && offset + n <= if src.None? then |items| else LengthOf(past, src.value)
    case DoPut(h, k, _) => 0 <= k < LengthOf(past, h) && Fresh(past, h)
    case DoGet(h, k) => 0 <= k < LengthOf(past, h) && Fresh(past, h)
  }

  function After<T(0, !new)>(items: seq<T>, past: seq<Op<T>>, op: Op<T>): seq<T>
    requires Scoped(past) && InScope(op, CountViews(past))
  {
    match op
    case DoPush(x) => items + [x]
    case DoPop => if items == [] then items else items[..|items| - 1]
    case DoSet(i, x) => if 0 <= i < |items| then items[i := x] else items
    case DoSort(cmp) => SortFrom(items, 1, cmp)
    case DoPut(h, k, x) =>
      var at := OffsetOf(past, h) + k;
      if 0 <= at < |items| then items[at := x] else items
    case _ => items
  }

  /** The list after a run. */
  function Items<T(0, !new)>(items: seq<T>, ops: seq<Op<T>>): seq<T>
    requires Scoped(ops)
  {
    if ops == [] then items
    else
      var n := |ops| - 1;
      After(Items(items, ops[..n]), ops[..n], ops[n])
  }

  predicate AllAllowed<T(0, !new)>(items: seq<T>, ops: seq<Op<T>>)
    requires Scoped(ops)
  {
    ops == [] ||
    var n := |ops| - 1;
    AllAllowed(items, ops[..n]) && Allowed(Items(items, ops[..n]), ops[..n], ops[n])
  }

  lemma {:induction false} ResizesSplit<T(0, !new)>(ops: seq<Op<T>>, r: nat)
    requires r <= |ops|
    ensures CountResizes(ops) == CountResizes(ops[..r]) + CountResizes(ops[r..])
  {
    if r == |ops| {
      assert ops[..r] == ops;
    } else {
      var n := |ops| - 1;
      ResizesSplit(ops[..n], r);
      assert ops[..n][..r] == ops[..r] && ops[..n][r..] == ops[r..][..n - r];
    }
  }

  /** One more operation leaves what is known of the views before it. */
  lemma OneMore<T(0, !new)>(past: seq<Op<T>>, op: Op<T>, h: nat)
    requires Scoped(past) && InScope(op, CountViews(past)) && h < CountViews(past)
    ensures Scoped(past + [op]) && CountViews(past) <= CountViews(past + [op])
    ensures RootAt(past + [op], h) == RootAt(past, h) && OffsetOf(past + [op], h) == OffsetOf(past, h) &&
            LengthOf(past + [op], h) == LengthOf(past, h)
    ensures Fresh(past + [op], h) <==> Fresh(past, h) && !Resizes(op)
  {
    var r := RootAt(past, h);
    assert (past + [op])[..|past|] == past;
    assert (past + [op])[r..] == past[r..] + [op] && (past[r..] + [op])[..|past| - r] == past[r..];
  }

  /** As long as a view may be used, it lies inside the list. */
  lemma {:induction false} FreshInside<T(0, !new)>(items: seq<T>, past: seq<Op<T>>, h: nat)
    requires Scoped(past) && AllAllowed(items, past) && h < CountViews(past) && Fresh(past, h)
    ensures 0 <= OffsetOf(past, h) && 0 <= LengthOf(past, h) &&
            OffsetOf(past, h) + LengthOf(past, h) <= |Items(items, past)|
  {
    var n := |past| - 1;
    var before, op := past[..n], past[n];
    assert past == before + [op];
    if h < CountViews(before) {
      OneMore(before, op, h);
      FreshInside(items, before, h);
    } else if op.src.Some? {
      OneMore(before, op, op.src.value);
      SameRoot(before, op);
      FreshInside(items, before, op.src.value);
    }
  }

  /** A view of a view has the root of that view, so it becomes stale with it. */
  lemma SameRoot<T(0, !new)>(past: seq<Op<T>>, op: Op<T>)
    requires Scoped(past) && InScope(op, CountViews(past)) && op.DoView? && op.src.Some?
    ensures var all := past + [op];
            var h := CountViews(past);
            Scoped(all) && h < CountViews(all) && RootAt(all, h) == RootAt(past, op.src.value) &&
            (Fresh(all, h) <==> Fresh(past, op.src.value))
  {
    assert (past + [op])[..|past|] == past;
    OneMore(past, op, op.src.value);
  }

  /** Once stale, a view stays stale, and so does every view taken of it. */
  lemma {:induction false} StaysStale<T(0, !new)>(past: seq<Op<T>>, more: seq<Op<T>>, h: nat)
    requires Scoped(past + more) && Scoped(past) && h < CountViews(past) && !Fresh(past, h)
    ensures h < CountViews(past + more) && !Fresh(past + more, h)
    decreases |more|
  {
    if more == [] {
      assert past + more == past;
    } else {
      var n := |more| - 1;
      var all := past + more;
      assert all[..|all| - 1] == past + more[..n] && all == (past + more[..n]) + [more[n]];
      StaysStale(past, more[..n], h);
      OneMore(past + more[..n], more[n], h);
    }
  }

  // ----- the same run on the list in memory -----

  ghost predicate Placed<T(0, !new)>(v: View<T>, list: PsList<T>, past: seq<Op<T>>, h: nat, first: nat)
    requires Scoped(past) && h < CountViews(past)
  {
    v.list == list && v.base == OffsetOf(past, h) && v.len == LengthOf(past, h) &&
    v.version == first + CountResizes(past[..RootAt(past, h)])
  }

  ghost predicate Stands<T(0, !new)>(v: View<T>, list: PsList<T>, past: seq<Op<T>>, h: nat, first: nat)
    requires Scoped(past) && h < CountViews(past)
    reads list
  {
    Placed(v, list, past, h, first) && v.Tracks()
  }

  /** List and views are what the history says; `first` is the version at its start. */
  ghost predicate Agrees<T(0, !new)>(list: PsList<T>, views: seq<View<T>>, items: seq<T>, past: seq<Op<T>>, first: nat)
    reads list, list.ptr
  {
    list.Valid() && Scoped(past) && |views| == CountViews(past) &&
    list.Contents() == Items(items, past) && list.version == first + CountResizes(past) &&
    forall h :: 0 <= h < |views| ==> Stands(views[h], list, past, h, first)
  }

  /** The version check passes exactly if the view is still fresh. */
  lemma VersionTells<T(0, !new)>(v: View<T>, list: PsList<T>, past: seq<Op<T>>, h: nat, first: nat)
    requires Scoped(past) && h < CountViews(past) && Stands(v, list, past, h, first) &&
             list.version == first + CountResizes(past)
    ensures v.version == list.version <==> Fresh(past, h)
  {
    ResizesSplit(past, RootAt(past, h));
  }

  lemma StepsOn<T(0, !new)>(items: seq<T>, past: seq<Op<T>>, op: Op<T>)
    requires Scoped(past) && InScope(op, CountViews(past))
    ensures Scoped(past + [op]) && Items(items, past + [op]) == After(Items(items, past), past, op)
    ensures CountResizes(past + [op]) == CountResizes(past) + if Resizes(op) then 1 else 0
    ensures CountViews(past + [op]) == CountViews(past) + if op.DoView? then 1 else 0
  {
    assert (past + [op])[..|past|] == past;
  }

  /** What the history says of a view goes on to hold after one more operation. */
  lemma StandsOn<T(0, !new)>(v: View<T>, list: PsList<T>, past: seq<Op<T>>, op: Op<T>, h: nat, first: nat)
    requires Scoped(past) && InScope(op, CountViews(past)) && h < CountViews(past)
    requires Placed(v, list, past, h, first) && v.Tracks()
    ensures Scoped(past + [op]) && h < CountViews(past + [op]) && Stands(v, list, past + [op], h, first)
  {
    OneMore(past, op, h);
    var r := RootAt(past, h);
    assert (past + [op])[..r] == past[..r];
  }

  lemma AllStand<T(0, !new)>(list: PsList<T>, views: seq<View<T>>, past: seq<Op<T>>, op: Op<T>, first: nat)
    requires Scoped(past) && |views| == CountViews(past) && InScope(op, |views|)
    requires forall h :: 0 <= h < |views| ==> Placed(views[h], list, past, h, first) && views[h].Tracks()
    ensures Scoped(past + [op]) && CountViews(past) <= CountViews(past + [op])
    ensures forall h :: 0 <= h < |views| ==> Stands(views[h], list, past + [op], h, first)
  {
    assert (past + [op])[..|past|] == past;
    forall h | 0 <= h < |views|
      ensures Stands(views[h], list, past + [op], h, first)
    {
      StandsOn(views[h], list, past, op, h, first);
    }
  }

  /** A new view stands. */
  lemma NewStands<T(0, !new)>(v: View<T>, list: PsList<T>, views: seq<View<T>>, items: seq<T>, past: seq<Op<T>>,
                              op: Op<T>, first: nat)
    requires Agrees(list, views, items, past, first) && InScope(op, |views|) && op.DoView? && v.list == list &&
             v.Tracks() && v.len == op.n
    requires op.src.None? ==> v.base == op.offset && v.version == list.version
    requires op.src.Some? ==> v.base == views[op.src.value].base + op.offset && v.version == views[op.src.value].version
    ensures Scoped(past + [op]) && |views| < CountViews(past + [op]) && Stands(v, list, past + [op], |views|, first)
  {
    StepsOn(items, past, op);
    assert (past + [op])[..|past|] == past;
    if op.src.Some? {
      SameRoot(past, op);
      assert Stands(views[op.src.value], list, past, op.src.value, first);
      assert (past + [op])[..RootAt(past, op.src.value)] == past[..RootAt(past, op.src.value)];
    }
  }

  /** The operations on the list itself. */
  method Change<T(0, !new)>(list: PsList<T>, op: Op<T>, ghost past: seq<Op<T>>) returns (ok: bool)
    requires list.Valid() && (op.DoPush? || op.DoPop? || op.DoSet? || op.DoSort?) && Scoped(past)
    modifies list, list.ptr
    ensures list.Valid() && list.Kept() && (list.ptr == old(list.ptr) || fresh(list.ptr))
    ensures ok <==> Allowed(old(list.Contents()), past, op)
    ensures list.Contents() == if ok then After(old(list.Contents()), past, op) else old(list.Contents())
    ensures list.version == old(list.version) + if ok && Resizes(op) then 1 else 0
    ensures !Resizes(op) || !ok ==> list.ptr == old(list.ptr)
  {
    ok := true;
    ghost var before := list.Contents();
    match op {
      case DoPush(x) => list.Push(x);
      case DoPop =>
        var r := list.Pop();
        ok := r.Ok?;
        assert ok ==> list.Contents() == before[..|before| - 1];
      case DoSet(i, x) =>
        var r := list.Set(i, x);
        ok := r.Ok?;
      case DoSort(cmp) => list.SortList(cmp);
    }
  }

  /** A read or a write through a view. */
  method Access<T(0, !new)>(list: PsList<T>, v: View<T>, op: Op<T>, ghost past: seq<Op<T>>, ghost first: nat)
    returns (ok: bool, got: Option<T>)
    requires list.Valid() && (op.DoPut? || op.DoGet?) && Scoped(past) && op.h < CountViews(past)
    requires Stands(v, list, past, op.h, first) && list.version == first + CountResizes(past)
    modifies list.ptr
    ensures list.Valid() && list.Kept() && list.version == old(list.version) && list.ptr == old(list.ptr)
    ensures ok <==> Allowed(old(list.Contents()), past, op)
    ensures list.Contents() == if ok then After(old(list.Contents()), past, op) else old(list.Contents())
    ensures ok ==> var at := OffsetOf(past, op.h) + op.k;
                   0 <= at < list.len && (op.DoGet? ==> got == Some(old(list.Contents())[at]))
  {
    hide CountResizes;
    hide OffsetOf;
    hide LengthOf;
    got := None;
    VersionTells(v, list, past, op.h, first);
    if op.DoPut? {
      var r := v.Put(op.k, op.x);
      ok := r.Ok?;
    } else {
      var r := v.Get(op.k);
      ok := r.Ok?;
      if ok { got := Some(r.value); }
    }
  }

  /** One operation of the run. */
  method Step<T(0, !new)>(list: PsList<T>, views: seq<View<T>>, op: Op<T>, ghost items: seq<T>, ghost past: seq<Op<T>>,
                          ghost first: nat)
    returns (ok: bool, now: seq<View<T>>, got: Option<T>)
    requires Agrees(list, views, items, past, first) && InScope(op, |views|)
    modifies list, list.ptr
    ensures ok <==> Allowed(Items(items, past), past, op)
    ensures ok ==> Agrees(list, now, items, past + [op], first)
    ensures !ok ==> Agrees(list, views, items, past, first)
    ensures ok && op.DoGet? ==> 0 <= OffsetOf(past, op.h) + op.k < |Items(items, past)| &&
                                got == Some(Items(items, past)[OffsetOf(past, op.h) + op.k])
    ensures list.ptr == old(list.ptr) || fresh(list.ptr)
    ensures !Resizes(op) || !ok ==> list.ptr == old(list.ptr)
  {
    hide Items;
    hide After;
    hide Allowed;
    hide CountResizes;
    hide CountViews;
    hide Scoped;
    hide Placed;
    StepsOn(items, past, op);
    ok, now, got := true, views, None;
    assert forall h :: 0 <= h < |views| ==> Stands(views[h], list, past, h, first);
    if op.DoView? {
      ok, now := Take(list, views, op, items, past, first);
      Quiet(Items(items, past), past, op);
    } else if op.DoPut? || op.DoGet? {
      ok, got := Access(list, views[op.h], op, past, first);
    } else {
      ok := Change(list, op, past);
    }
    assert forall h :: 0 <= h < |views| ==> Placed(views[h], list, past, h, first) && views[h].Tracks();
    AllStand(list, views, past, op, first);
  }

  lemma Quiet<T(0, !new)>(items: seq<T>, past: seq<Op<T>>, op: Op<T>)
    requires Scoped(past) && InScope(op, CountViews(past)) && op.DoView?
    ensures After(items, past, op) == items
  {
  }

  /** A view of the list, or of a view. */
  method Take<T(0, !new)>(list: PsList<T>, views: seq<View<T>>, op: Op<T>, ghost items: seq<T>, ghost past: seq<Op<T>>,
                          ghost first: nat)
    returns (ok: bool, now: seq<View<T>>)
    requires Agrees(list, views, items, past, first) && InScope(op, |views|) && op.DoView?
    ensures ok <==> Allowed(Items(items, past), past, op)
    ensures Scoped(past + [op])
    ensures ok ==> |now| == |views| + 1 && now[..|views|] == views && CountViews(past + [op]) == |now| &&
                   Stands(now[|views|], list, past + [op], |views|, first)
    ensures !ok ==> now == views
  {
    StepsOn(items, past, op);
    var r: Result<View<T>>;
    if op.src.None? {
      r := list.MakeView(op.offset, op.n);
    } else {
      assert Stands(views[op.src.value], list, past, op.src.value, first);
      r := views[op.src.value].SubView(op.offset, op.n);
    }
    if r.Raised? { return false, views; }
    NewStands(r.value, list, views, items, past, op, first);
    return true, views + [r.value];
  }

  /** Views are safe over all runs.  Any operations in any order: pushes, pops, writes and sorts of the
      list, views of it and of views at any time, reads and writes through them at any time.  The run
      goes on exactly as long as operations are allowed: an access through a view is if its index is in
      range and nothing has been pushed or popped since the first view of its chain was taken.  It then
      reads or writes the list's element at the summed offsets plus the index. */
  method RunOps<T(0, !new)>(list: PsList<T>, ops: seq<Op<T>>) returns (done: nat, got: seq<Option<T>>)
    requires list.Valid() && Scoped(ops)
    modifies list, list.ptr
    ensures done <= |ops| && Scoped(ops[..done]) && AllAllowed(old(list.Contents()), ops[..done])
    ensures list.Valid() && list.Contents() == Items(old(list.Contents()), ops[..done])
    ensures done < |ops| ==> InScope(ops[done], CountViews(ops[..done])) &&
                             !Allowed(list.Contents(), ops[..done], ops[done])
    ensures list.version == old(list.version) + CountResizes(ops[..done])
    ensures CountResizes(ops[..done]) == 0 ==> list.ptr == old(list.ptr)
    ensures |got| == done && forall j :: 0 <= j < done && ops[j].DoGet? ==> Reads(old(list.Contents()), ops, j, got[j])
  {
    hide *;
    var views: seq<View<T>> := [];
    done, got := 0, [];
    ghost var items, first := list.Contents(), list.version;
    AtStart(list);
    while done < |ops|
      invariant done <= |ops| && Scoped(ops[..done]) && AllAllowed(items, ops[..done])
      invariant Agrees(list, views, items, ops[..done], first)
      invariant list.ptr == old(list.ptr) || fresh(list.ptr)
      invariant CountResizes(ops[..done]) == 0 ==> list.ptr == old(list.ptr)
      invariant |got| == done && forall j :: 0 <= j < done && ops[j].DoGet? ==> Reads(items, ops, j, got[j])
    {
      var op := ops[done];
      ghost var past := ops[..done];
      OpInScope(ops, done);
      AgreesParts(list, views, items, past, first);
      var ok, now, x := Step(list, views, op, items, past, first);
      if !ok {
        AgreesParts(list, views, items, past, first);
        return;
      }
      StepsOn(items, past, op);
      OneAllowed(items, past, op);
      if op.DoGet? { ReadIs(items, ops, done, x); }
      views, got, done := now, got + [x], done + 1;
    }
    assert ops[..done] == ops;
    AgreesParts(list, views, items, ops, first);
  }

  lemma AtStart<T(0, !new)>(list: PsList<T>)
    requires list.Valid()
    ensures Scoped<T>([]) && CountResizes<T>([]) == 0 && AllAllowed(list.Contents(), []) &&
            Agrees(list, [], list.Contents(), [], list.version)
  {
  }

  lemma AgreesParts<T(0, !new)>(list: PsList<T>, views: seq<View<T>>, items: seq<T>, past: seq<Op<T>>, first: nat)
    requires Agrees(list, views, items, past, first)
    ensures list.Valid() && Scoped(past) && |views| == CountViews(past)
    ensures list.Contents() == Items(items, past) && list.version == first + CountResizes(past)
  {
  }

  lemma OpInScope<T(0, !new)>(ops: seq<Op<T>>, n: nat)
    requires Scoped(ops) && n < |ops|
    ensures ops[..n + 1] == ops[..n] + [ops[n]] && Scoped(ops[..n]) && InScope(ops[n], CountViews(ops[..n]))
  {
    ScopedFront(ops, n + 1);
    assert ops[..n + 1][..n] == ops[..n];
  }

  lemma OneAllowed<T(0, !new)>(items: seq<T>, past: seq<Op<T>>, op: Op<T>)
    requires Scoped(past) && InScope(op, CountViews(past)) && AllAllowed(items, past) &&
             Allowed(Items(items, past), past, op)
    ensures Scoped(past + [op]) && AllAllowed(items, past + [op])
    ensures CountResizes(past + [op]) == 0 ==> CountResizes(past) == 0 && !Resizes(op)
  {
    assert (past + [op])[..|past|] == past;
  }

  lemma ReadIs<T(0, !new)>(items: seq<T>, ops: seq<Op<T>>, j: nat, got: Option<T>)
    requires j < |ops| && ops[j].DoGet? && Scoped(ops[..j]) && ops[j].h < CountViews(ops[..j])
    requires var now, at := Items(items, ops[..j]), OffsetOf(ops[..j], ops[j].h) + ops[j].k;
             0 <= at < |now| && got == Some(now[at])
    ensures Reads(items, ops, j, got)
  {
  }

  /** What a read at step `j` of the run gives. */
  ghost predicate Reads<T(0, !new)>(items: seq<T>, ops: seq<Op<T>>, j: nat, got: Option<T>)
    requires j < |ops| && ops[j].DoGet?
  {
    Scoped(ops[..j]) && ops[j].h < CountViews(ops[..j]) &&
    var now, at := Items(items, ops[..j]), OffsetOf(ops[..j], ops[j].h) + ops[j].k;
    0 <= at < |now| && got == Some(now[at])
  }

  lemma {:induction false} ScopedFront<T(0, !new)>(ops: seq<Op<T>>, n: nat)
    requires Scoped(ops) && n <= |ops|
    ensures Scoped(ops[..n])
  {
    if n == |ops| {
      assert ops[..n] == ops;
    } else {
      ScopedFront(ops[..|ops| - 1], n);
      assert ops[..|ops| - 1][..n] == ops[..n];
    }
  }
}
