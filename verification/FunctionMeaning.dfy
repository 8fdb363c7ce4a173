/** The main results about lowering: a lowered function does what its source does. */
module FunctionMeaning {
  import opened Options
  import opened Ir
  import opened Source
  import opened Lowering
  import opened WorkingGraph
  import opened Static
  import opened Names
  import opened StmtShape
  import opened ExprMeaning
  import opened StmtFollows
  import opened WrittenCode
  import opened StmtMeaning

  // ----- parameters -----

  lemma {:induction false} ParamsReady(params: seq<Decl>)
    ensures var (r, names) := DefineParams(params, START);
            Ready(r, params, names) && r.blocks == START.blocks && r.cur == 0 &&
            TypesAt(r.types, names) == TypesOf(params)
  {
    var (r, names) := DefineParams(params, START);
    if params == [] {
      assert Slots(names, r.varId) && |names| == |params|;
      forall x: string
        ensures NameAgrees(r, params, names, x)
      {
      }
    } else {
      var front, d := params[..|params| - 1], params[|params| - 1];
      ParamsReady(front);
      var (s1, ns) := DefineParams(front, START);
      BindsDefine(s1, front, ns, d);
      assert params == front + [d];
      BindsSlots(s1, front, ns);
      var ir := Local(d.name, s1.varId + 1);
      TypesApart(s1.types, ir, d.ty, ns);
      assert r.types == s1.types[ir := d.ty] && names == ns + [ir];
      assert TypesAt(r.types, names) == TypesAt(r.types, ns) + [d.ty];
      assert TypesOf(params) == TypesOf(front) + [d.ty];
    }
  }

  lemma {:induction false} BindHolds(params: seq<Name>, args: seq<Value>, n: nat)
    requires |params| == |args| && Slots(params, n)
    ensures Holds(args, params, Bind(params, args))
  {
    if params != [] {
      BindHolds(params[..|params| - 1], args[..|args| - 1], n);
    }
  }

  // ----- the theorem -----

  ghost function Entered(fn: FnDef, args: seq<Value>): Config
    requires |args| == |fn.params|
  {
    Config(0, 0, Bind(LowerFunction(fn).params, args))
  }

  lemma FunctionIs(fn: FnDef)
    ensures var (s1, params) := DefineParams(fn.params, START);
            var s2 := LowerStmt(SBlock(fn.body), s1);
            LowerFunction(fn) == Function(params,
                                          (if Terminated(s2) then s2
                                           else Emit(s2, if fn.isVoid then RetVoid else RetDefault)).blocks)
  {
    hide LowerStmt;
    hide Emit;
  }

  /** The finished graph contains the lowered body, and the final `ret` if the body needs one. */
  lemma BodyWithin(fn: FnDef)
    requires WfFunction(fn)
    ensures var (s1, params) := DefineParams(fn.params, START);
            var s2 := LowerStmt(SBlock(fn.body), s1);
            var f := LowerFunction(fn);
            Ready(s1, fn.params, params) && Ok(s2) && Within(s2, f) && f.params == params &&
            (!Terminated(s2) ==> Within(Emit(s2, if fn.isVoid then RetVoid else RetDefault), f)) &&
            !Terminated(s1) && WfStmt(SBlock(fn.body), fn.params, false, false) &&
            StmtFits(SBlock(fn.body), s1, fn.params, params)
    ensures forall regs :: Here(DefineParams(fn.params, START).0, regs) == Config(0, 0, regs)
  {
    hide LowerStmt;
    hide Emit;
    hide WfAll;
    hide Binds;
    hide Grows;
    hide TypedAll;
    hide TypesAt;
    FunctionIs(fn);
    ParamsReady(fn.params);
    var (s1, params) := DefineParams(fn.params, START);
    var s := SBlock(fn.body);
    StmtWent(s, s1, fn.params, params, false, false);
    var s2 := LowerStmt(s, s1);
    ReadyOf(s1, s2, After(fn.params, s), SlotsAfter(s, params, s1));
    var ret := if fn.isVoid then RetVoid else RetDefault;
    KeptEmit(s2, ret);
    EmitGrows(s2, ret);
    if !Terminated(s2) { WithinKept(s2, Emit(s2, ret), LowerFunction(fn)); }
  }

  lemma OutcomeOf(fn: FnDef, args: seq<Value>, fuel: nat)
    requires |args| == |fn.params|
    ensures var x := Exec(SBlock(fn.body), fn.params, args, fuel);
            var o := RunSource(fn, args, fuel);
            (x.Faulted? ==> o == Trapped(x.t)) && (x.NoFuel? ==> o == OutOfFuel) &&
            (x.Done? ==>
               o == if x.sig.Normal? then (if fn.isVoid then ReturnedVoid else FellOff) else AbruptOutcome(x.sig))
  {
    hide Exec;
  }

  /** Every finished source run has a graph run with the same outcome; while the source runs on, so
      does the graph. */
  lemma LoweringSimulates(m: Module, fn: FnDef, args: seq<Value>, fuel: nat) returns (k: nat)
    requires WfFunction(fn) && |args| == |fn.params|
    ensures var o := RunSource(fn, args, fuel);
            if o == OutOfFuel then Run(m, LowerFunction(fn), Entered(fn, args), fuel) == OutOfFuel
            else Run(m, LowerFunction(fn), Entered(fn, args), k) == o
  {
    hide *;
    var f := LowerFunction(fn);
    var (s1, params) := DefineParams(fn.params, START);
    var s := SBlock(fn.body);
    var s2 := LowerStmt(s, s1);
    BodyWithin(fn);
    ReadyOk(s1, fn.params, params);
    var regs := Bind(params, args);
    BindHolds(params, args, s1.varId);
    EnteredIs(fn, args);
    // a stray `break` would leave the graph
    var exits := Exits(|f.blocks|, |f.blocks|);
    TargetsNone(s1, f, exits);
    var regs1;
    k, regs1 := SimStmt(m, f, s, fn.params, args, params, exits, s1, regs, fuel, false, false);
    NormalOf(m, f, s, fn.params, args, params, exits, s1, regs, fuel, k, regs1);
    OutcomeOf(fn, args, fuel);
    var x := Exec(s, fn.params, args, fuel);
    if EndsNormally(x) {
      var ret := if fn.isVoid then RetVoid else RetDefault;
      RetStops(fn.isVoid, regs1);
      EmitStop(m, f, s2, ret, regs1, if fn.isVoid then ReturnedVoid else FellOff);
      LeadsEnds(m, f, Here(s1, regs), k, Here(s2, regs1), 0, if fn.isVoid then ReturnedVoid else FellOff);
      EndsRun(m, f, Here(s1, regs), k, if fn.isVoid then ReturnedVoid else FellOff);
      NormalIs(x);
    } else {
      AbruptEnds(m, f, x, params, SlotsAfter(s, params, s1), exits, Here(s1, regs), End(s2), k, regs1, fuel);
    }
  }

  lemma NormalIs(x: Executed)
    requires EndsNormally(x)
    ensures x.Done? && x.sig.Normal?
  {
  }

  lemma EnteredIs(fn: FnDef, args: seq<Value>)
    requires |args| == |fn.params|
    ensures Entered(fn, args) == Config(0, 0, Bind(LowerFunction(fn).params, args))
  {
  }

  lemma RetStops(isVoid: bool, regs: Regs)
    ensures Step(if isVoid then RetVoid else RetDefault, regs) == Stop(if isVoid then ReturnedVoid else FellOff)
  {
  }

  function AbruptOutcome(sig: Signal): (o: Outcome)
    ensures o != OutOfFuel
  {
    if sig.Return? then (if sig.result.Some? then Returned(sig.result.value) else ReturnedVoid) else BadGraph
  }

  lemma AbruptEnds(m: Module, f: Function, x: Executed, slots: seq<Name>, more: seq<Name>, exits: Exits,
                   c: Config, d: Spot, k: nat, regs1: Regs, fuel: nat)
    requires !EndsNormally(x) && exits == Exits(|f.blocks|, |f.blocks|)
    requires FollowsStmt(m, f, x, slots, more, exits, c, d, k, regs1, fuel)
    ensures x.Faulted? ==> Run(m, f, c, k) == Trapped(x.t)
    ensures x.NoFuel? ==> Run(m, f, c, fuel) == OutOfFuel
    ensures x.Done? ==> !x.sig.Normal? && Run(m, f, c, k) == AbruptOutcome(x.sig)
  {
    if x.Done? && (x.sig.Break? || x.sig.Continue?) {
      assert Run(m, f, c, k + 0) == Run(m, f, Config(|f.blocks|, 0, regs1), 0);
    }
  }

  ghost predicate SourceEnds(fn: FnDef, args: seq<Value>, o: Outcome)
    requires |args| == |fn.params|
  {
    o != OutOfFuel && exists fuel: nat :: RunSource(fn, args, fuel) == o
  }

  ghost predicate GraphEnds(m: Module, f: Function, c: Config, o: Outcome) {
    o != OutOfFuel && exists fuel: nat :: Run(m, f, c, fuel) == o
  }

  /** `int f(int a) { var n = 12; n = a; n = n + 1; return n; }`: the assignment makes `n` an int. */
  const SUCCESSOR := FnDef(
                       [Decl("a", TInt)], false,
                       [SDecl(Decl("n", TUnknown), Some(ELit(12))), SAssign("n", None, EVar("a")),
                        SAssign("n", None, EBin(Add, EVar("n"), ELit(1))), SReturn(Some(EVar("n")))])

  const OUTER := [Decl("a", TInt)]
  const INNER := [Decl("a", TInt), Decl("n", TUnknown)]

  lemma SuccessorParts()
    ensures var b := SUCCESSOR.body;
            b[1..][1..] == b[2..] && b[2..][1..] == b[3..] && b[3..][1..] == [] && b[1..][0] == b[1] &&
            b[2..][0] == b[2] && b[3..][0] == b[3] && SUCCESSOR.params == OUTER
    ensures Find(OUTER, "a") == Some(0) && Find(INNER, "n") == Some(1) && Find(INNER, "a") == Some(0)
    ensures After(OUTER, SUCCESSOR.body[0]) == INNER && |OUTER| == 1 && |INNER| == 2
  {
    var b := SUCCESSOR.body;
    assert b[1..][1..] == b[2..] && b[2..][1..] == b[3..] && b[3..][1..] == [];
    assert Find(INNER, "a") == Some(0) by { assert INNER[..1] == OUTER; }
  }

  lemma SuccessorWf()
    ensures WfAll(SUCCESSOR.body, SUCCESSOR.params, false, false)
  {
    SuccessorParts();
    hide Find;
    var b := SUCCESSOR.body;
    assert WfAll(b[3..], INNER, false, false);
    assert WfAll(b[2..], INNER, false, false);
    assert WfAll(b[1..], INNER, false, false);
  }

  lemma SuccessorTyped()
    ensures TypedAll(SUCCESSOR.body, SUCCESSOR.params, TypesOf(SUCCESSOR.params))
  {
    SuccessorParts();
    hide Find;
    var b, t0, t1, t2 := SUCCESSOR.body, [TInt], [TInt, TUnknown], [TInt, TInt];
    assert TypesOf(OUTER) == t0;
    assert TypesAfter(b[0], OUTER, t0) == t1 && TypesAfter(b[1], INNER, t1) == t2;
    assert TypesAfter(b[2], INNER, t2) == t2;
    assert TypedExpr(EVar("n"), INNER, t2) && TypedExpr(ELit(1), INNER, t2);
    assert TypedStmt(b[0], OUTER, t0) && TypedStmt(b[1], INNER, t1);
    assert TypedStmt(b[2], INNER, t2) && TypedStmt(b[3], INNER, t2);
    hide TypesAfter;
    hide TypedStmt;
    assert TypedAll(b[3..], INNER, t2);
    assert TypedAll(b[2..], INNER, t2);
    assert TypedAll(b[1..], INNER, t1);
  }

  lemma SuccessorRuns()
    ensures ExecAll(SUCCESSOR.body, SUCCESSOR.params, [VInt(INT_MAX)], 0) == Faulted(Overflow)
  {
    SuccessorParts();
    hide Find;
    var b, e0, e1, e2 := SUCCESSOR.body, [VInt(INT_MAX)], [VInt(INT_MAX), VInt(12)], [VInt(INT_MAX), VInt(INT_MAX)];
    assert Exec(b[0], OUTER, e0, 0) == Done(Normal, e1);
    assert Exec(b[1], INNER, e1, 0) == Done(Normal, e2);
    assert Eval(EVar("n"), INNER, e2) == Val(VInt(INT_MAX), e2) && Eval(ELit(1), INNER, e2) == Val(VInt(1), e2);
    assert Exec(b[2], INNER, e2, 0) == Faulted(Overflow);
    hide Exec;
    hide After;
    assert ExecAll(b[2..], INNER, e2, 0) == Faulted(Overflow);
    assert ExecAll(b[1..], INNER, e1, 0) == Faulted(Overflow);
  }

  /** A variable declared without a type has its arithmetic checked once it was assigned an int. */
  lemma AssignedIsChecked(m: Module)
    ensures GraphEnds(m, LowerFunction(SUCCESSOR), Entered(SUCCESSOR, [VInt(INT_MAX)]), Trapped(Overflow))
  {
    SuccessorWf();
    SuccessorTyped();
    SuccessorEnds();
    assert WfFunction(SUCCESSOR);
    hide *;
    LoweringPreservesMeaning(m, SUCCESSOR, [VInt(INT_MAX)], Trapped(Overflow));
  }

  lemma SuccessorEnds()
    ensures SourceEnds(SUCCESSOR, [VInt(INT_MAX)], Trapped(Overflow))
  {
    SuccessorRuns();
    hide ExecAll;
    assert RunSource(SUCCESSOR, [VInt(INT_MAX)], 0) == Trapped(Overflow);
  }

  /** The source ends with an outcome if and only if the lowered function does; in particular one
      runs forever exactly when the other does. */
  lemma LoweringPreservesMeaning(m: Module, fn: FnDef, args: seq<Value>, o: Outcome)
    requires WfFunction(fn) && |args| == |fn.params|
    ensures SourceEnds(fn, args, o) <==> GraphEnds(m, LowerFunction(fn), Entered(fn, args), o)
  {
    hide RunSource;
    hide Run;
    hide LowerFunction;
    hide WfFunction;
    var f, c := LowerFunction(fn), Entered(fn, args);
    if SourceEnds(fn, args, o) {
      var fuel: nat :| RunSource(fn, args, fuel) == o;
      var k := LoweringSimulates(m, fn, args, fuel);
    }
    if GraphEnds(m, f, c, o) {
      var fuel: nat :| Run(m, f, c, fuel) == o;
      var k := LoweringSimulates(m, fn, args, fuel);
      RunMonotone(m, f, c, if k < fuel then k else fuel, if k < fuel then fuel else k);
    }
  }
}
