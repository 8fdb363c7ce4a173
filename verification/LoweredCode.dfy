/** What the optimizer asks of its input holds of every lowered function: temporaries are written once,
    none of them is the optimizer's own, and no name that a check reads is written later in its block. */
module LoweredCode {
  import opened Options
  import opened Ir
  import opened Source
  import opened Lowering
  import opened Blocks
  import opened Inlining

  // ----- guarded names of a block -----

  function GuardedIn(code: seq<Instr>): set<Name> {
    if code == [] then {} else GuardedIn(code[..|code| - 1]) + Guarded(code[|code| - 1])
  }

  lemma {:induction false} StableAppend(code: seq<Instr>, i: Instr, g: set<Name>)
    requires Stable(code, g) && Written(i) !! g + GuardedIn(code) + Guarded(i)
    ensures Stable(code + [i], g)
    decreases |code|
  {
    hide Written;
    hide Guarded;
    if code == [] {
      assert code + [i] == [i] && Stable([i][1..], g + Guarded(i));
    } else {
      assert (code + [i])[0] == code[0] && (code + [i])[1..] == code[1..] + [i];
      GuardedFirst(code);
      StableAppend(code[1..], i, g + Guarded(code[0]));
    }
  }

  lemma {:induction false} GuardedFirst(code: seq<Instr>)
    requires code != []
    ensures GuardedIn(code) == Guarded(code[0]) + GuardedIn(code[1..])
  {
    hide Guarded;
    var n := |code| - 1;
    if n > 0 {
      GuardedFirst(code[..n]);
      assert code[..n][1..] == code[1..][..n - 1] && code[1..][n - 1] == code[n];
    } else {
      assert code[..n] == [] && code[1..] == [];
    }
  }

  lemma GuardedAppend(code: seq<Instr>, i: Instr)
    ensures GuardedIn(code + [i]) == GuardedIn(code) + Guarded(i)
  {
    assert (code + [i])[..|code|] == code;
  }

  // ----- contexts -----

  /** Some block has a check of `x`. */
  ghost predicate UnderGuard(st: Ctx, x: Name) {
    exists b :: 0 <= b < |st.blocks| && x in GuardedIn(st.blocks[b].instrs)
  }

  predicate Plain(i: Instr) {
    NoOpt(i) && !i.CallStatic? && RawLiteral(i)
  }

  /** Constants of the source are whole numbers as text and booleans as they are. */
  predicate RawLiteral(i: Instr) {
    i.Const? ==> (i.lit.IntText? && i.lit.n >= INT_MIN) || i.lit.RawBool?
  }

  predicate PlainCode(code: seq<Instr>) {
    forall p :: 0 <= p < |code| ==> Plain(code[p])
  }

  /** A temporary that has been drawn after `low` and no later than now. */
  predicate Drawn(n: Name, low: nat, st: Ctx) {
    n.Temp? && low < n.id <= st.tempId
  }

  ghost predicate Tame(st: Ctx) {
    GoodCode(st) &&
    (forall x :: UnderGuard(st, x) ==> Drawn(x, 0, st)) &&
    forall k :: 0 <= k < |st.scope| ==> st.scope[k].ir.Local?
  }

  /** From `a` to `b`, only temporaries drawn in between have come under guard. */
  ghost predicate Later(a: Ctx, b: Ctx) {
    Tame(b) && a.tempId <= b.tempId && b.scope == a.scope &&
    forall x :: UnderGuard(b, x) ==> UnderGuard(a, x) || Drawn(x, a.tempId, b)
  }

  lemma LaterSelf(a: Ctx)
    requires Tame(a)
    ensures Later(a, a)
  {
  }

  lemma LaterThen(a: Ctx, b: Ctx, c: Ctx)
    requires Later(a, b) && Later(b, c)
    ensures Later(a, c)
  {
  }

  /** The blocks and counters that matter are the same. */
  predicate SameCode(a: Ctx, b: Ctx) {
    b.blocks == a.blocks && b.tempId == a.tempId
  }

  lemma SameIsLater(o: Ctx, a: Ctx, b: Ctx)
    requires Later(o, a) && SameCode(a, b) && b.scope == a.scope
    ensures Later(o, b)
  {
    assert forall x :: UnderGuard(b, x) == UnderGuard(a, x);
  }

  lemma SameIsTame(a: Ctx, b: Ctx)
    requires Tame(a) && SameCode(a, b) && forall k :: 0 <= k < |b.scope| ==> b.scope[k].ir.Local?
    ensures Tame(b)
  {
    assert forall x :: UnderGuard(b, x) == UnderGuard(a, x);
  }

  lemma TempLater(o: Ctx, a: Ctx)
    requires Later(o, a)
    ensures Later(o, NextTemp(a).0) && Drawn(NextTemp(a).1, o.tempId, NextTemp(a).0)
    ensures !UnderGuard(NextTemp(a).0, NextTemp(a).1)
    ensures forall x :: UnderGuard(NextTemp(a).0, x) == UnderGuard(a, x)
  {
    var b := NextTemp(a).0;
    assert forall x :: UnderGuard(b, x) == UnderGuard(a, x);
  }

  lemma EmitGuards(st: Ctx, i: Instr, x: Name)
    ensures UnderGuard(Emit(st, i), x) <==> UnderGuard(st, x) || (st.cur < |st.blocks| && x in Guarded(i))
  {
    hide Guarded;
    var r := Emit(st, i);
    if st.cur < |st.blocks| {
      var code := st.blocks[st.cur].instrs;
      GuardedAppend(code, i);
      assert r.blocks[st.cur].instrs == code + [i];
      assert x in GuardedIn(r.blocks[st.cur].instrs) <==> x in GuardedIn(code) || x in Guarded(i);
      assert forall b :: 0 <= b < |st.blocks| && b != st.cur ==> r.blocks[b] == st.blocks[b];
      if UnderGuard(st, x) {
        var b :| 0 <= b < |st.blocks| && x in GuardedIn(st.blocks[b].instrs);
        assert x in GuardedIn(r.blocks[b].instrs);
      }
    }
  }

  /** One more instruction whose result, if any, nothing guards. */
  lemma EmitLater(o: Ctx, st: Ctx, i: Instr)
    requires Later(o, st) && Plain(i) && forall x :: x in Guarded(i) ==> Drawn(x, o.tempId, st)
    requires forall x :: x in Written(i) ==> x !in Guarded(i) && (x.Temp? ==> !UnderGuard(st, x))
    ensures Later(o, Emit(st, i))
    ensures Guarded(i) == {} ==> forall x :: UnderGuard(Emit(st, i), x) == UnderGuard(st, x)
  {
    hide Guarded;
    hide Written;
    hide Plain;
    hide GoodCode;
    hide UnderGuard;
    var r := Emit(st, i);
    assert r.tempId == st.tempId && r.scope == st.scope;
    forall x
      ensures UnderGuard(r, x) <==> UnderGuard(st, x) || (st.cur < |st.blocks| && x in Guarded(i))
    {
      EmitGuards(st, i, x);
    }
    EmitStable(st, i);
  }

  /** The code of every block stays stable and plain. */
  ghost predicate GoodCode(st: Ctx) {
    forall b :: 0 <= b < |st.blocks| ==> Stable(st.blocks[b].instrs, {}) && PlainCode(st.blocks[b].instrs)
  }

  lemma EmitStable(st: Ctx, i: Instr)
    requires GoodCode(st) && Plain(i) && forall x :: x in Written(i) ==> x !in Guarded(i) && !UnderGuard(st, x)
    ensures GoodCode(Emit(st, i))
  {
    hide Guarded;
    hide Written;
    hide Plain;
    hide Stable;
    if st.cur < |st.blocks| {
      var code := st.blocks[st.cur].instrs;
      assert forall x :: x in GuardedIn(code) ==> UnderGuard(st, x);
      hide UnderGuard;
      StableAppend(code, i, {});
      assert PlainCode(code + [i]);
    }
  }

  /** Draws a temporary and writes it. */
  lemma WriteLater(o: Ctx, st: Ctx, i: Instr)
    requires Later(o, st) && Plain(i) && Guarded(i) == {} && Written(i) == {Temp(st.tempId + 1)}
    ensures Later(o, Emit(NextTemp(st).0, i))
  {
    TempLater(o, st);
    EmitLater(o, NextTemp(st).0, i);
  }

  /** Neither guards nor writes. */
  predicate Inert(i: Instr) {
    Plain(i) && Guarded(i) == {} && forall x :: x in Written(i) ==> !x.Temp?
  }

  lemma InertLater(o: Ctx, st: Ctx, i: Instr)
    requires Later(o, st) && Inert(i)
    ensures Later(o, Emit(st, i))
    ensures forall x :: UnderGuard(Emit(st, i), x) == UnderGuard(st, x)
  {
    EmitLater(o, st, i);
  }

  lemma {:induction false} OpenLater(o: Ctx, st: Ctx, prefixes: seq<string>)
    requires Later(o, st)
    ensures Later(o, OpenBlocks(st, prefixes).0) && OpenBlocks(st, prefixes).0.tempId == st.tempId
    decreases |prefixes|
  {
    if prefixes != [] {
      var k := |prefixes| - 1;
      OpenLater(o, st, prefixes[..k]);
      var s1 := OpenBlocks(st, prefixes[..k]).0;
      var s2 := NextLabel(s1, prefixes[k]).0;
      SameIsLater(o, s1, s2);
      AddLater(o, s2, NextLabel(s1, prefixes[k]).1);
    }
  }

  lemma AddLater(o: Ctx, st: Ctx, l: Label)
    requires Later(o, st)
    ensures Later(o, AddBlock(st, l))
  {
    var r := AddBlock(st, l);
    assert GuardedIn(r.blocks[|st.blocks|].instrs) == {};
    forall x | UnderGuard(r, x)
      ensures UnderGuard(st, x)
    {
      var b :| 0 <= b < |r.blocks| && x in GuardedIn(r.blocks[b].instrs);
      assert x in GuardedIn(st.blocks[b].instrs);
    }
    forall x | UnderGuard(st, x)
      ensures UnderGuard(r, x)
    {
      var b :| 0 <= b < |st.blocks| && x in GuardedIn(st.blocks[b].instrs);
      assert x in GuardedIn(r.blocks[b].instrs);
    }
  }

  lemma {:induction false} LookupLocal(scope: seq<Binding>, x: string)
    requires forall k :: 0 <= k < |scope| ==> scope[k].ir.Local?
    ensures Lookup(scope, x).Some? ==> Lookup(scope, x).value.Local?
  {
    if scope != [] && scope[|scope| - 1].name != x { LookupLocal(scope[..|scope| - 1], x); }
  }

  lemma ResolveNoTemp(st: Ctx, x: string)
    requires Tame(st)
    ensures Resolve(st, x).Local? || Resolve(st, x).Global?
  {
    LookupLocal(st.scope, x);
  }

  // ----- expressions -----

  lemma BinLater(o: Ctx, st: Ctx, op: BinOp, l: Name, r: Name, intLike: bool)
    requires Later(o, st) && Drawn(l, o.tempId, st) && Drawn(r, o.tempId, st)
    ensures var (s, dst) := EmitBin(st, op, l, r, intLike); Later(o, s) && Drawn(dst, o.tempId, s)
  {
    var code := Checks(op, l, r, intLike);
    ChecksGuard(op, l, r, intLike);
    BinPlain(Temp(st.tempId + 1), op, l, r);
    hide Checks;
    hide Later;
    hide Emit;
    hide Plain;
    hide Guarded;
    hide Written;
    if code != [] {
      EmitTemps(st, code[0]);
      assert code[1..] == [];
      assert EmitAll(st, code) == EmitAll(Emit(st, code[0]), []) == Emit(st, code[0]);
      EmitLater(o, st, code[0]);
    }
    var s1 := EmitAll(st, code);
    assert s1.tempId == st.tempId && Later(o, s1);
    WriteLater(o, s1, Bin(Temp(s1.tempId + 1), op, l, r));
    DrawnNext(o, st, s1, Bin(Temp(s1.tempId + 1), op, l, r));
  }

  lemma ChecksGuard(op: BinOp, l: Name, r: Name, intLike: bool)
    requires l.Temp? && r.Temp?
    ensures var code := Checks(op, l, r, intLike);
            |code| <= 1 && (|code| == 1 ==> Plain(code[0]) && Guarded(code[0]) <= {l, r} && Written(code[0]) == {})
  {
  }

  lemma BinPlain(dst: Name, op: BinOp, l: Name, r: Name)
    requires l.Temp? && r.Temp? && dst.Temp?
    ensures var i := Bin(dst, op, l, r); Plain(i) && Guarded(i) == {} && Written(i) == {dst}
  {
  }

  lemma DrawnNext(o: Ctx, st: Ctx, s1: Ctx, i: Instr)
    requires o.tempId <= st.tempId && s1.tempId == st.tempId
    ensures Drawn(Temp(s1.tempId + 1), o.tempId, Emit(NextTemp(s1).0, i))
  {
  }

  lemma ThreeTemps(st: Ctx)
    requires Tame(st)
    ensures var s := st.(tempId := st.tempId + 3);
            Later(st, s) && !UnderGuard(s, Temp(st.tempId + 1)) && !UnderGuard(s, Temp(st.tempId + 2)) &&
            !UnderGuard(s, Temp(st.tempId + 3))
  {
    var s := st.(tempId := st.tempId + 3);
    assert forall x :: UnderGuard(s, x) == UnderGuard(st, x);
  }

  /** Nothing that an unguarded instruction writes is under guard. */
  ghost predicate Harmless(st: Ctx, i: Instr) {
    Plain(i) && Guarded(i) == {} && forall x :: x in Written(i) && x.Temp? ==> !UnderGuard(st, x)
  }

  lemma {:induction false} EmitAllLater(o: Ctx, st: Ctx, code: seq<Instr>)
    requires Later(o, st) && forall k :: 0 <= k < |code| ==> Harmless(st, code[k])
    ensures Later(o, EmitAll(st, code)) && EmitAll(st, code).tempId == st.tempId
    decreases |code|
  {
    if code != [] {
      EmitOne(o, st, code);
      hide *;
      EmitTemps(st, code[0]);
      EmitAllLater(o, Emit(st, code[0]), code[1..]);
      EmitAllStep(st, code);
    }
  }

  lemma EmitOne(o: Ctx, st: Ctx, code: seq<Instr>)
    requires code != [] && Later(o, st) && forall k :: 0 <= k < |code| ==> Harmless(st, code[k])
    ensures Later(o, Emit(st, code[0])) && forall k :: 0 <= k < |code[1..]| ==>
                                                         Harmless(Emit(st, code[0]), code[1..][k])
  {
    hide Plain;
    hide Guarded;
    hide Written;
    hide Emit;
    hide UnderGuard;
    hide Later;
    EmitLater(o, st, code[0]);
    assert forall k :: 0 <= k < |code[1..]| ==> code[1..][k] == code[k + 1];
  }

  lemma EmitAllStep(st: Ctx, code: seq<Instr>)
    requires code != []
    ensures EmitAll(st, code) == EmitAll(Emit(st, code[0]), code[1..])
  {
  }

  function IncCode(op: BinOp, name: Name, n: nat): seq<Instr> {
    [LoadVar(Temp(n + 1), name), Const(Temp(n + 2), IntText(1)), Bin(Temp(n + 3), op, Temp(n + 1), Temp(n + 2)),
     StoreVar(name, Temp(n + 3))]
  }

  lemma EmitFour(st: Ctx, a: Instr, b: Instr, c: Instr, d: Instr)
    ensures EmitAll(st, [a, b, c, d]) == Emit(Emit(Emit(Emit(st, a), b), c), d)
  {
    hide Emit;
    var code := [a, b, c, d];
    assert code[1..] == [b, c, d] && [b, c, d][1..] == [c, d] && [c, d][1..] == [d] && [d][1..] == [];
    var s1 := Emit(st, a);
    var s2 := Emit(s1, b);
    var s3 := Emit(s2, c);
    hide EmitAll;
    EmitAllStep(st, code);
    EmitAllStep(s1, [b, c, d]);
    EmitAllStep(s2, [c, d]);
    EmitAllStep(s3, [d]);
    EmitNone(Emit(s3, d));
  }

  lemma EmitNone(st: Ctx)
    ensures EmitAll(st, []) == st
  {
  }

  lemma DrawThree(st: Ctx)
    ensures NextTemp(NextTemp(NextTemp(st).0).0).0 == st.(tempId := st.tempId + 3)
    ensures NextTemp(st).1 == Temp(st.tempId + 1) && NextTemp(NextTemp(st).0).1 == Temp(st.tempId + 2)
    ensures NextTemp(NextTemp(NextTemp(st).0).0).1 == Temp(st.tempId + 3)
  {
  }

  lemma IncIs(e: Expr, st: Ctx)
    requires e.EInc?
    ensures var (r, v) := LowerExpr(e, st);
            r == EmitAll(st.(tempId := st.tempId + 3),
                         IncCode(if e.up then Add else Sub, Resolve(st, e.x), st.tempId)) &&
            v == Temp(st.tempId + if e.prefix then 3 else 1)
  {
    hide Emit;
    hide EmitAll;
    hide Resolve;
    hide NextTemp;
    hide EmitBin;
    hide OpenLogic;
    hide CloseLogic;
    hide Guess;
    DrawThree(st);
    var s, n, name := st.(tempId := st.tempId + 3), st.tempId, Resolve(st, e.x);
    EmitFour(s, LoadVar(Temp(n + 1), name), Const(Temp(n + 2), IntText(1)),
             Bin(Temp(n + 3), if e.up then Add else Sub, Temp(n + 1), Temp(n + 2)), StoreVar(name, Temp(n + 3)));
  }

  lemma IncHarmless(st: Ctx, op: BinOp, name: Name, n: nat)
    requires name.Local? || name.Global?
    requires !UnderGuard(st, Temp(n + 1)) && !UnderGuard(st, Temp(n + 2)) && !UnderGuard(st, Temp(n + 3))
    ensures forall k :: 0 <= k < |IncCode(op, name, n)| ==> Harmless(st, IncCode(op, name, n)[k])
  {
    hide UnderGuard;
  }

  lemma IncLater(st: Ctx, up: bool, prefix: bool, x: string)
    requires Tame(st)
    ensures var (r, v) := LowerExpr(EInc(up, prefix, x), st); Later(st, r) && Drawn(v, st.tempId, r)
  {
    ResolveNoTemp(st, x);
    hide *;
    var s, op := st.(tempId := st.tempId + 3), if up then Add else Sub;
    ThreeTemps(st);
    IncIs(EInc(up, prefix, x), st);
    IncHarmless(s, op, Resolve(st, x), st.tempId);
    EmitAllLater(st, s, IncCode(op, Resolve(st, x), st.tempId));
    DrawnAt(st.tempId, if prefix then 3 else 1, LowerExpr(EInc(up, prefix, x), st).0);
  }

  lemma DrawnAt(low: nat, k: nat, st: Ctx)
    requires k > 0 && low + k <= st.tempId
    ensures Drawn(Temp(low + k), low, st)
  {
  }

  lemma LogicOpens(o: Ctx, st: Ctx, isAnd: bool, l: Name)
    requires Later(o, st) && Drawn(l, o.tempId, st)
    ensures var (s, k) := OpenLogic(isAnd, l, st);
            Later(o, s) && Drawn(k.dst, o.tempId, s) && !UnderGuard(s, k.dst)
  {
    hide Later;
    hide Emit;
    hide UnderGuard;
    var (s1, labels) := OpenBlocks(st, ["logic_right_", "logic_short_", "logic_done_"]);
    OpenLater(o, st, ["logic_right_", "logic_short_", "logic_done_"]);
    var (s2, cont) := NextLabel(s1, "logic_cont_");
    SameIsLater(o, s1, s2);
    var (s3, dst) := NextTemp(s2);
    TempLater(o, s2);
    var right, short, done := labels[0], labels[1], labels[2];
    var branch := BranchIf(l, if isAnd then right else short, if isAnd then short else right);
    var s4 := Emit(s3, branch);
    InertLater(o, s3, branch);
    var t4 := At(s4, |st.blocks| + 1);
    Moved(o, s4, |st.blocks| + 1, dst);
    var s5 := Emit(t4, Const(dst, RawBool(!isAnd)));
    EmitLater(o, t4, Const(dst, RawBool(!isAnd)));
    var s6 := Emit(s5, Jump(done));
    InertLater(o, s5, Jump(done));
    Moved(o, s6, |st.blocks|, dst);
    EmitTemps(s3, branch);
    EmitTemps(t4, Const(dst, RawBool(!isAnd)));
    EmitTemps(s5, Jump(done));
  }

  lemma EmitTemps(st: Ctx, i: Instr)
    ensures Emit(st, i).tempId == st.tempId && Emit(st, i).scope == st.scope
  {
  }

  lemma Moved(o: Ctx, st: Ctx, block: nat, n: Name)
    requires Later(o, st)
    ensures Later(o, At(st, block)) && (!UnderGuard(st, n) ==> !UnderGuard(At(st, block), n))
  {
    SameIsLater(o, st, At(st, block));
    assert UnderGuard(At(st, block), n) == UnderGuard(st, n);
  }

  lemma LogicCloses(o: Ctx, st: Ctx, r: Name, k: Logic)
    requires Later(o, st) && r.Temp? && k.dst.Temp? && !UnderGuard(st, k.dst)
    ensures Later(o, CloseLogic(r, k, st)) && CloseLogic(r, k, st).tempId == st.tempId
  {
    hide Later;
    hide Emit;
    hide UnderGuard;
    var s1 := Emit(st, Copy(k.dst, r));
    EmitLater(o, st, Copy(k.dst, r));
    var s2 := Emit(s1, Jump(k.done));
    InertLater(o, s1, Jump(k.done));
    var s3 := AddBlock(s2, k.cont);
    AddLater(o, s2, k.cont);
    Moved(o, s3, k.base + 2, r);
    var s4 := Emit(At(s3, k.base + 2), Nop);
    InertLater(o, At(s3, k.base + 2), Nop);
    var s5 := Emit(s4, Jump(k.cont));
    InertLater(o, s4, Jump(k.cont));
    Moved(o, s5, |s3.blocks| - 1, r);
    EmitTemps(st, Copy(k.dst, r));
    EmitTemps(s1, Jump(k.done));
    EmitTemps(At(s3, k.base + 2), Nop);
    EmitTemps(s4, Jump(k.cont));
  }

  lemma FreeLater(a: Ctx, b: Ctx, n: Name)
    requires Later(a, b) && !UnderGuard(a, n) && n.Temp? && n.id <= a.tempId
    ensures !UnderGuard(b, n)
  {
  }

  lemma TameOf(a: Ctx, b: Ctx)
    requires Later(a, b)
    ensures Tame(b) && a.tempId <= b.tempId && b.scope == a.scope
  {
  }

  /** An expression guards and writes only temporaries that it draws itself. */
  lemma {:induction false} ExprLater(e: Expr, st: Ctx)
    requires Tame(st)
    ensures var (r, v) := LowerExpr(e, st); Later(st, r) && Drawn(v, st.tempId, r)
    decreases e
  {
    hide Later;
    hide Tame;
    hide Emit;
    hide OpenLogic;
    hide CloseLogic;
    hide EmitBin;
    hide UnderGuard;
    LaterSelf(st);
    match e {
      case ELit(n) => SimpleLater(st, st, Const(Temp(st.tempId + 1), IntText(n)));
      case EBool(b) => SimpleLater(st, st, Const(Temp(st.tempId + 1), RawBool(b)));
      case EVar(x) =>
        ResolveNoTemp(st, x);
        SimpleLater(st, st, LoadVar(Temp(st.tempId + 1), Resolve(st, x)));
      case EUn(op, arg) =>
        if op == Neg && arg == ELit(-INT_MIN) {
          SimpleLater(st, st, Const(Temp(st.tempId + 1), IntText(INT_MIN)));
        } else {
          ExprLater(arg, st);
          var (s1, v) := LowerExpr(arg, st);
          TameOf(st, s1);
          SimpleLater(st, s1, Unary(Temp(s1.tempId + 1), op, v));
        }
      case EBin(op, left, right) =>
        var (s1, l) := LowerExpr(left, st);
        ExprLater(left, st);
        TameOf(st, s1);
        var (s2, r) := LowerExpr(right, s1);
        ExprLater(right, s1);
        TameOf(s1, s2);
        LaterThen(st, s1, s2);
        BinLater(st, s2, op, l, r, Guess(left, s2) == TInt && Guess(right, s2) == TInt);
      case ELogic(isAnd, left, right) => LogicLater(e, st);
      case EInc(up, prefix, x) => IncLater(st, up, prefix, x);
      case ECond(cond, yes, no) =>
        var (s1, c) := LowerExpr(cond, st);
        ExprLater(cond, st);
        TameOf(st, s1);
        var (s2, a) := LowerExpr(yes, s1);
        ExprLater(yes, s1);
        TameOf(s1, s2);
        LaterThen(st, s1, s2);
        var (s3, b) := LowerExpr(no, s2);
        ExprLater(no, s2);
        TameOf(s2, s3);
        LaterThen(st, s2, s3);
        SimpleLater(st, s3, Select(Temp(s3.tempId + 1), c, a, b));
    }
  }

  lemma SimpleLater(o: Ctx, st: Ctx, i: Instr)
    requires Later(o, st) && Plain(i) && Guarded(i) == {} && Written(i) == {Temp(st.tempId + 1)}
    ensures var (s, dst) := NextTemp(st);
            Later(o, Emit(s, i)) && dst == Temp(st.tempId + 1) && Drawn(dst, o.tempId, Emit(s, i))
  {
    WriteLater(o, st, i);
  }

  lemma LogicLater(e: Expr, st: Ctx)
    requires Tame(st) && e.ELogic?
    ensures var (r, v) := LowerExpr(e, st); Later(st, r) && Drawn(v, st.tempId, r)
    decreases e, 0
  {
    hide Later;
    hide Tame;
    hide OpenLogic;
    hide CloseLogic;
    hide UnderGuard;
    var (s1, l) := LowerExpr(e.left, st);
    ExprLater(e.left, st);
    TameOf(st, s1);
    LogicOpens(st, s1, e.isAnd, l);
    var (s2, k) := OpenLogic(e.isAnd, l, s1);
    TameOf(st, s2);
    var (s3, r) := LowerExpr(e.right, s2);
    ExprLater(e.right, s2);
    TameOf(s2, s3);
    FreeLater(s2, s3, k.dst);
    LaterThen(st, s2, s3);
    LogicCloses(st, s3, r, k);
  }

  // ----- statements -----

  /** What a statement leaves. */
  ghost predicate Onward(a: Ctx, b: Ctx) {
    Tame(b) && a.tempId <= b.tempId
  }

  lemma InertTame(st: Ctx, i: Instr)
    requires Tame(st) && Inert(i)
    ensures Tame(Emit(st, i)) && Emit(st, i).tempId == st.tempId
  {
    LaterSelf(st);
    InertLater(st, st, i);
  }

  lemma OpenTame(st: Ctx, prefixes: seq<string>)
    requires Tame(st)
    ensures Tame(OpenBlocks(st, prefixes).0) && OpenBlocks(st, prefixes).0.tempId == st.tempId
  {
    LaterSelf(st);
    OpenLater(st, st, prefixes);
  }

  lemma ExprTame(e: Expr, st: Ctx)
    requires Tame(st)
    ensures var (r, v) := LowerExpr(e, st); Tame(r) && st.tempId <= r.tempId && Drawn(v, st.tempId, r)
  {
    ExprLater(e, st);
  }

  lemma AtTame(st: Ctx, block: nat)
    requires Tame(st)
    ensures Tame(At(st, block)) && At(st, block).tempId == st.tempId
  {
    SameIsTame(st, At(st, block));
  }

  lemma JumpTame(st: Ctx, l: Label)
    requires Tame(st)
    ensures Tame(JumpUnlessTerminated(st, l)) && JumpUnlessTerminated(st, l).tempId == st.tempId
  {
    InertTame(st, Jump(l));
  }

  lemma NopTame(st: Ctx)
    requires Tame(st)
    ensures Tame(Emit(st, Nop)) && Emit(st, Nop).tempId == st.tempId
  {
    InertTame(st, Nop);
  }

  lemma JumpOut(st: Ctx, l: Label)
    requires Tame(st)
    ensures Tame(Emit(st, Jump(l))) && Emit(st, Jump(l)).tempId == st.tempId
  {
    InertTame(st, Jump(l));
  }

  lemma BranchTame(st: Ctx, c: Name, yes: Label, no: Label)
    requires Tame(st) && c.Temp?
    ensures Tame(Emit(st, BranchIf(c, yes, no))) && Emit(st, BranchIf(c, yes, no)).tempId == st.tempId
  {
    InertTame(st, BranchIf(c, yes, no));
  }

  lemma DeclTame(d: Decl, init: Option<Expr>, st: Ctx)
    requires Tame(st)
    ensures Onward(st, LowerDecl(d, init, st))
  {
    hide Tame;
    hide Emit;
    hide Later;
    var (s1, ir) := NextVar(st, d.name);
    var s2 := Define(s1, d, ir);
    DefineTame(st, d);
    InertTame(s2, VarDecl(ir));
    var s3 := Emit(s2, VarDecl(ir));
    if init.Some? {
      ExprTame(init.value, s3);
    } else {
      LaterSelf(s3);
      SimpleLater(s3, s3, Const(Temp(s3.tempId + 1), if d.ty == TBool then RawBool(false) else IntText(0)));
      TameOf(s3, Emit(NextTemp(s3).0,
                      Const(Temp(s3.tempId + 1), if d.ty == TBool then RawBool(false) else IntText(0))));
    }
    var (s4, v) :=
      match init
      case Some(e) => LowerExpr(e, s3)
      case None =>
        var (t, dst) := NextTemp(s3);
        (Emit(t, Const(dst, if d.ty == TBool then RawBool(false) else IntText(0))), dst);
    ResolveNoTemp(s4, d.name);
    InertTame(s4, StoreVar(Resolve(s4, d.name), v));
  }

  lemma DefineTame(st: Ctx, d: Decl)
    requires Tame(st)
    ensures var (s1, ir) := NextVar(st, d.name);
            ir.Local? && Tame(Define(s1, d, ir)) && Define(s1, d, ir).tempId == st.tempId
  {
    var (s1, ir) := NextVar(st, d.name);
    SameIsTame(st, Define(s1, d, ir));
  }

  lemma AssignTame(x: string, aop: Option<BinOp>, rhs: Expr, st: Ctx)
    requires Tame(st)
    ensures Onward(st, LowerAssign(x, aop, rhs, st))
  {
    hide Tame;
    hide Emit;
    hide Later;
    hide LowerExpr;
    hide EmitBin;
    var (s1, v) := LowerExpr(rhs, st);
    ExprTame(rhs, st);
    match aop {
      case None =>
        var s2 := s1.(types := s1.types[Resolve(s1, x) := Guess(rhs, s1)]);
        TypesTame(s1, s2);
        ResolveNoTemp(s2, x);
        InertTame(s2, StoreVar(Resolve(s2, x), v));
      case Some(op) =>
        ExprLater(rhs, st);
        var (s2, cur) := LowerExpr(EVar(x), s1);
        ExprLater(EVar(x), s1);
        TameOf(s1, s2);
        LaterThen(st, s1, s2);
        var intLike := Guess(EVar(x), s1) == TInt && Guess(rhs, s1) == TInt;
        BinLater(st, s2, op, cur, v, intLike);
        var (s3, next) := EmitBin(s2, op, cur, v, intLike);
        TameOf(st, s3);
        ResolveNoTemp(s3, x);
        InertTame(s3, StoreVar(Resolve(s3, x), next));
    }
  }

  lemma TypesTame(a: Ctx, b: Ctx)
    requires Tame(a) && SameCode(a, b) && b.scope == a.scope
    ensures Tame(b)
  {
    SameIsTame(a, b);
  }

  /** Leaving a block restores the scope that it started with. */
  lemma ScopeTame(a: Ctx, b: Ctx)
    requires Tame(a) && Tame(b)
    ensures Tame(b.(scope := a.scope))
  {
    SameIsTame(b, b.(scope := a.scope));
  }

  /** Every statement keeps the context tame. */
  lemma {:induction false} StmtTame(s: Stmt, st: Ctx)
    requires Tame(st)
    ensures Onward(st, LowerStmt(s, st))
    decreases s, 1
  {
    hide Tame;
    hide Emit;
    hide Later;
    hide LowerExpr;
    hide LowerAssign;
    hide LowerDecl;
    match s {
      case SDecl(d, init) => DeclTame(d, init, st);
      case SAssign(x, aop, rhs) => AssignTame(x, aop, rhs, st);
      case SExpr(e) => ExprTame(e, st);
      case SBlock(body) =>
        AllTame(body, st);
        ScopeTame(st, LowerAll(body, st));
      case SIf(_, _, _) => IfTame(s, st);
      case SWhile(_, _) => WhileTame(s, st);
      case SDo(_, _) => DoTame(s, st);
      case SFor(_, _, _, _) => ForTame(s, st);
      case SSwitch(_, _, _) => SwitchTame(s, st);
      case SBreak =>
        if st.breaks == [] { InertTame(st, Unhandled); } else { InertTame(st, Jump(st.breaks[|st.breaks| - 1])); }
      case SContinue =>
        if st.loops == [] { InertTame(st, Unhandled); }
        else { InertTame(st, Jump(st.loops[|st.loops| - 1].continueLabel)); }
      case SReturn(result) =>
        match result {
          case None => InertTame(st, RetVoid);
          case Some(e) =>
            ExprTame(e, st);
            var (s1, v) := LowerExpr(e, st);
            InertTame(s1, Ret(v));
        }
    }
  }

  lemma {:induction false} AllTame(ss: seq<Stmt>, st: Ctx)
    requires Tame(st)
    ensures Onward(st, LowerAll(ss, st))
    decreases ss, 1
  {
    hide Tame;
    hide LowerStmt;
    if ss != [] {
      StmtTame(ss[0], st);
      AllTame(ss[1..], LowerStmt(ss[0], st));
    }
  }

  lemma BodyTame(loop: Stmt, doneL: Label, continueL: Label, st: Ctx)
    requires Tame(st)
    ensures Onward(st, LowerBody(loop, doneL, continueL, st))
    decreases loop, 2
  {
    hide Tame;
    hide LowerStmt;
    hide JumpUnlessTerminated;
    var s1 := Push(st, doneL, continueL);
    TypesTame(st, s1);
    StmtTame(loop, s1);
    var s2 := LowerStmt(loop, s1);
    JumpTame(s2, continueL);
    var s3 := JumpUnlessTerminated(s2, continueL);
    TypesTame(s3, Pop(s3));
  }

  lemma IfTame(s: Stmt, st: Ctx)
    requires Tame(st) && s.SIf?
    ensures Onward(st, LowerStmt(s, st))
    decreases s, 0
  {
    hide Inert;
    hide Tame;
    hide Emit;
    hide LowerExpr;
    hide OpenBlocks;
    hide JumpUnlessTerminated;
    ExprTame(s.cond, st);
    var (s1, c) := LowerExpr(s.cond, st);
    var n := |s1.blocks|;
    var prefixes := ["if_then_", "if_done_"] + if s.no.Some? then ["if_else_"] else [];
    OpenTame(s1, prefixes);
    var (s2, labels) := OpenBlocks(s1, prefixes);
    var branch := BranchIf(c, labels[0], if s.no.Some? then labels[2] else labels[1]);
    BranchTame(s2, c, labels[0], if s.no.Some? then labels[2] else labels[1]);
    var s3 := Emit(s2, branch);
    AtTame(s3, n);
    StmtTame(s.yes, At(s3, n));
    JumpTame(LowerStmt(s.yes, At(s3, n)), labels[1]);
    var s4 := JumpUnlessTerminated(LowerStmt(s.yes, At(s3, n)), labels[1]);
    if s.no.Some? {
      AtTame(s4, n + 2);
      StmtTame(s.no.value, At(s4, n + 2));
      JumpTame(LowerStmt(s.no.value, At(s4, n + 2)), labels[1]);
    }
    var s5 :=
      match s.no
      case Some(other) => JumpUnlessTerminated(LowerStmt(other, At(s4, n + 2)), labels[1])
      case None => s4;
    AtTame(s5, n + 1);
    NopTame(At(s5, n + 1));
  }

  lemma WhileTame(s: Stmt, st: Ctx)
    requires Tame(st) && s.SWhile?
    ensures Onward(st, LowerStmt(s, st))
    decreases s, 0
  {
    hide Inert;
    hide Tame;
    hide Emit;
    hide LowerExpr;
    hide OpenBlocks;
    hide LowerBody;
    var n := |st.blocks|;
    var prefixes := ["while_cond_", "while_body_", "while_done_"];
    OpenTame(st, prefixes);
    var (s1, labels) := OpenBlocks(st, prefixes);
    JumpOut(s1, labels[0]);
    AtTame(Emit(s1, Jump(labels[0])), n);
    var t1 := At(Emit(s1, Jump(labels[0])), n);
    ExprTame(s.cond, t1);
    var (s2, c) := LowerExpr(s.cond, t1);
    BranchTame(s2, c, labels[1], labels[2]);
    AtTame(Emit(s2, BranchIf(c, labels[1], labels[2])), n + 1);
    var s3 := At(Emit(s2, BranchIf(c, labels[1], labels[2])), n + 1);
    BodyTame(s.loop, labels[2], labels[0], s3);
    var s4 := LowerBody(s.loop, labels[2], labels[0], s3);
    AtTame(s4, n + 2);
    NopTame(At(s4, n + 2));
  }

  lemma DoTame(s: Stmt, st: Ctx)
    requires Tame(st) && s.SDo?
    ensures Onward(st, LowerStmt(s, st))
    decreases s, 0
  {
    hide Inert;
    hide Tame;
    hide Emit;
    hide LowerExpr;
    hide OpenBlocks;
    hide LowerBody;
    var n := |st.blocks|;
    var prefixes := ["do_body_", "do_cond_", "do_done_"];
    OpenTame(st, prefixes);
    var (s1, labels) := OpenBlocks(st, prefixes);
    JumpOut(s1, labels[0]);
    AtTame(Emit(s1, Jump(labels[0])), n);
    var t1 := At(Emit(s1, Jump(labels[0])), n);
    BodyTame(s.loop, labels[2], labels[1], t1);
    var s2 := LowerBody(s.loop, labels[2], labels[1], t1);
    AtTame(s2, n + 1);
    ExprTame(s.cond, At(s2, n + 1));
    var (s3, c) := LowerExpr(s.cond, At(s2, n + 1));
    BranchTame(s3, c, labels[0], labels[2]);
    var s4 := Emit(s3, BranchIf(c, labels[0], labels[2]));
    AtTame(s4, n + 2);
    NopTame(At(s4, n + 2));
  }

  lemma ForTame(s: Stmt, st: Ctx)
    requires Tame(st) && s.SFor?
    ensures Onward(st, LowerStmt(s, st))
    decreases s, 0
  {
    hide Inert;
    hide Tame;
    hide Emit;
    hide LowerExpr;
    hide OpenBlocks;
    hide LowerBody;
    var n := |st.blocks|;
    var prefixes := ["for_init_", "for_cond_", "for_body_", "for_step_", "for_done_"];
    OpenTame(st, prefixes);
    var (s1, labels) := OpenBlocks(st, prefixes);
    JumpOut(s1, labels[0]);
    AtTame(Emit(s1, Jump(labels[0])), n);
    var t1 := At(Emit(s1, Jump(labels[0])), n);
    StmtTame(s.start, t1);
    JumpOut(LowerStmt(s.start, t1), labels[1]);
    var s2 := Emit(LowerStmt(s.start, t1), Jump(labels[1]));
    AtTame(s2, n + 1);
    ExprTame(s.cond, At(s2, n + 1));
    var (s3, c) := LowerExpr(s.cond, At(s2, n + 1));
    BranchTame(s3, c, labels[2], labels[4]);
    AtTame(Emit(s3, BranchIf(c, labels[2], labels[4])), n + 2);
    var s4 := At(Emit(s3, BranchIf(c, labels[2], labels[4])), n + 2);
    BodyTame(s.loop, labels[4], labels[3], s4);
    var s5 := LowerBody(s.loop, labels[4], labels[3], s4);
    AtTame(s5, n + 3);
    StmtTame(s.step, At(s5, n + 3));
    JumpOut(LowerStmt(s.step, At(s5, n + 3)), labels[1]);
    var s6 := Emit(LowerStmt(s.step, At(s5, n + 3)), Jump(labels[1]));
    AtTame(s6, n + 4);
    NopTame(At(s6, n + 4));
  }

  lemma SwitchTame(s: Stmt, st: Ctx)
    requires Tame(st) && s.SSwitch?
    ensures Onward(st, LowerStmt(s, st))
    decreases s, 0
  {
    hide Inert;
    hide Tame;
    hide Emit;
    hide LowerExpr;
    hide OpenBlocks;
    hide LowerCases;
    hide JumpUnlessTerminated;
    hide CloseSwitch;
    ExprTame(s.e, st);
    var (s1, v) := LowerExpr(s.e, st);
    var (s2, doneL) := NextLabel(s1, "sw_done_");
    TypesTame(s1, s2);
    var t2 := s2.(breaks := s2.breaks + [doneL]);
    TypesTame(s2, t2);
    var n := |s2.blocks|;
    var prefixes := CasePrefixes(|s.cases|) + if s.default.Otherwise? then ["sw_default_"] else [];
    OpenTame(t2, prefixes);
    var (s3, labels) := OpenBlocks(t2, prefixes);
    var defaultL := if s.default.Otherwise? then labels[2 * |s.cases|] else doneL;
    if |labels| > 0 { JumpOut(s3, labels[0]); }
    var s4 := if |labels| > 0 then Emit(s3, Jump(labels[0])) else s3;
    CasesTame(v, s, 0, n, labels, defaultL, doneL, s4);
    var s5 := LowerCases(v, s, 0, n, labels, defaultL, doneL, s4);
    if s.default.Otherwise? {
      AtTame(s5, n + 2 * |s.cases|);
      AllTame(s.default.body, At(s5, n + 2 * |s.cases|));
      JumpTame(LowerAll(s.default.body, At(s5, n + 2 * |s.cases|)), doneL);
    }
    var s6 :=
      match s.default
      case Otherwise(body) => JumpUnlessTerminated(LowerAll(body, At(s5, n + 2 * |s.cases|)), doneL)
      case NoDefault => s5;
    CloseTame(doneL, s6);
  }

  lemma AddTemps(st: Ctx, l: Label)
    ensures AddBlock(st, l).tempId == st.tempId
  {
  }

  lemma CloseTame(doneL: Label, st: Ctx)
    requires Tame(st)
    ensures Tame(CloseSwitch(doneL, st)) && CloseSwitch(doneL, st).tempId == st.tempId
  {
    hide Inert;
    hide Tame;
    hide Emit;
    LaterSelf(st);
    AddLater(st, st, doneL);
    TameOf(st, AddBlock(st, doneL));
    var s1 := At(AddBlock(st, doneL), |st.blocks|);
    AtTame(AddBlock(st, doneL), |st.blocks|);
    NopTame(s1);
    var s2 := Emit(s1, Nop);
    AddTemps(st, doneL);
    TypesTame(s2, s2.(breaks := Front(st.breaks)));
  }

  lemma {:induction false} CasesTame(v: Name, s: Stmt, i: nat, n: nat, labels: seq<Label>, defaultL: Label,
                                     doneL: Label, st: Ctx)
    requires Tame(st) && v.Temp? && s.SSwitch? && i <= |s.cases| && 2 * |s.cases| <= |labels|
    ensures Onward(st, LowerCases(v, s, i, n, labels, defaultL, doneL, st))
    decreases s, 0, |s.cases| - i
  {
    hide Inert;
    hide Tame;
    hide Emit;
    hide Later;
    hide LowerExpr;
    hide LowerAll;
    hide JumpUnlessTerminated;
    if i < |s.cases| {
      AtTame(st, n + 2 * i);
      var t := At(st, n + 2 * i);
      ExprTame(s.cases[i].value, t);
      var (s1, w) := LowerExpr(s.cases[i].value, t);
      LaterSelf(s1);
      SimpleLater(s1, s1, Bin(Temp(s1.tempId + 1), Eq, v, w));
      var (s2, eq) := NextTemp(s1);
      var u := Emit(s2, Bin(eq, Eq, v, w));
      TameOf(s1, u);
      var otherwise := if i + 1 < |s.cases| then labels[2 * i + 2] else defaultL;
      BranchTame(u, eq, labels[2 * i + 1], otherwise);
      var s3 := Emit(u, BranchIf(eq, labels[2 * i + 1], otherwise));
      AtTame(s3, n + 2 * i + 1);
      AllTame(s.cases[i].body, At(s3, n + 2 * i + 1));
      JumpTame(LowerAll(s.cases[i].body, At(s3, n + 2 * i + 1)), doneL);
      CasesTame(v, s, i + 1, n, labels, defaultL, doneL,
                JumpUnlessTerminated(LowerAll(s.cases[i].body, At(s3, n + 2 * i + 1)), doneL));
    }
  }

  // ----- whole functions -----

  predicate NoCalls(f: Function) {
    forall b, p :: 0 <= b < |f.blocks| && 0 <= p < |f.blocks[b].instrs| ==> !f.blocks[b].instrs[p].CallStatic?
  }

  lemma {:induction false} ParamsTame(params: seq<Decl>)
    ensures var (s, names) := DefineParams(params, START);
            Tame(s) && forall i :: 0 <= i < |names| ==> names[i].Local?
  {
    if params == [] {
      assert START.blocks[0].instrs == [];
    } else {
      ParamsTame(params[..|params| - 1]);
      DefineTame(DefineParams(params[..|params| - 1], START).0, params[|params| - 1]);
    }
  }

  lemma TameFunction(f: Function, st: Ctx)
    requires Tame(st) && f.blocks == st.blocks && forall i :: 0 <= i < |f.params| ==> f.params[i].Local?
    ensures StableBlocks(f) && NoOptFunction(f) && NoCalls(f) && RawLiterals(f)
  {
    forall b | 0 <= b < |f.blocks|
      ensures NoOptCode(f.blocks[b].instrs)
    {
      assert PlainCode(st.blocks[b].instrs);
    }
    forall b, p | 0 <= b < |f.blocks| && 0 <= p < |f.blocks[b].instrs|
      ensures !f.blocks[b].instrs[p].CallStatic?
    {
      assert Plain(st.blocks[b].instrs[p]);
    }
    forall b, p | 0 <= b < |f.blocks| && 0 <= p < |f.blocks[b].instrs|
      ensures RawLiteral(f.blocks[b].instrs[p])
    {
      assert Plain(st.blocks[b].instrs[p]);
    }
  }

  predicate RawLiterals(f: Function) {
    forall b, p :: 0 <= b < |f.blocks| && 0 <= p < |f.blocks[b].instrs| ==> RawLiteral(f.blocks[b].instrs[p])
  }

  /** For every program: no block of its lowered code writes a name after a check has read it, none
      uses a temporary of the optimizer's, none calls, and no boolean constant is text. */
  lemma LoweredIsStable(fn: FnDef)
    ensures StableBlocks(LowerFunction(fn)) && NoOptFunction(LowerFunction(fn)) && NoCalls(LowerFunction(fn)) &&
            RawLiterals(LowerFunction(fn))
  {
    hide Tame;
    hide Emit;
    hide LowerStmt;
    var (s1, params) := DefineParams(fn.params, START);
    ParamsTame(fn.params);
    StmtTame(SBlock(fn.body), s1);
    var s2 := LowerStmt(SBlock(fn.body), s1);
    var ret := if fn.isVoid then RetVoid else RetDefault;
    InertTame(s2, ret);
    TameFunction(LowerFunction(fn), if Terminated(s2) then s2 else Emit(s2, ret));
  }
}
