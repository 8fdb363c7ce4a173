/** Lowering as the frontend does it: one mutable context whose blocks, counters, scope and target
    stacks every step updates.  Each method is tied to a function of `Lowering.dfy` by what it does
    to `View()`. */
module LoweringContext {
  import opened Options
  import opened Ir
  import opened Source
  import L = Lowering

  class IrFnCtx {
    var blocks: seq<Block>
    var cur: nat
    var tempId: nat
    var labelId: nat
    var varId: nat
    var scope: seq<L.Binding>
    var types: map<Name, Ty>
    var breaks: seq<Label>
    var loops: seq<L.LoopTarget>

    ghost function View(): L.Ctx
      reads this
    {
      L.Ctx(blocks, cur, tempId, labelId, varId, scope, types, breaks, loops)
    }

    constructor ()
      ensures View() == L.START
    {
      blocks, cur := [Block(Entry, [])], 0;
      tempId, labelId, varId := 0, 0, 0;
      scope, types := [], map[];
      breaks, loops := [], [];
    }

    // ----- counters, scopes, blocks -----

    method NextTemp() returns (t: Name)
      modifies this
      ensures (View(), t) == L.NextTemp(old(View()))
    {
      tempId := tempId + 1;
      t := Temp(tempId);
    }

    method NextVar(base: string) returns (x: Name)
      modifies this
      ensures (View(), x) == L.NextVar(old(View()), base)
    {
      varId := varId + 1;
      x := Local(base, varId);
    }

    method NextLabel(prefix: string) returns (l: Label)
      modifies this
      ensures (View(), l) == L.NextLabel(old(View()), prefix)
    {
      labelId := labelId + 1;
      l := Fresh(prefix, labelId);
    }

    /** The index is the one `cur` is set to when the block is filled. */
    method AddBlock(l: Label) returns (index: nat)
      modifies this
      ensures View() == L.AddBlock(old(View()), l) && index == |old(blocks)|
    {
      index := |blocks|;
      blocks := blocks + [Block(l, [])];
    }

    /** One label and one block for each prefix, in order. */
    method OpenBlocks(prefixes: seq<string>) returns (labels: seq<Label>)
      modifies this
      ensures (View(), labels) == L.OpenBlocks(old(View()), prefixes)
    {
      labels := [];
      var i := 0;
      while i < |prefixes|
        invariant i <= |prefixes| && |labels| == i
        invariant (View(), labels) == L.OpenBlocks(old(View()), prefixes[..i])
      {
        assert prefixes[..i + 1][..i] == prefixes[..i];
        var l := NextLabel(prefixes[i]);
        var _ := AddBlock(l);
        labels := labels + [l];
        i := i + 1;
      }
      assert prefixes[..|prefixes|] == prefixes;
    }

    method Emit(i: Instr)
      modifies this
      ensures View() == L.Emit(old(View()), i)
    {
      if cur < |blocks| {
        blocks := blocks[cur := blocks[cur].(instrs := blocks[cur].instrs + [i])];
      }
    }

    method EmitAll(code: seq<Instr>)
      modifies this
      ensures View() == L.EmitAll(old(View()), code)
    {
      var i := 0;
      assert code[0..] == code;
      while i < |code|
        invariant i <= |code|
        invariant L.EmitAll(View(), code[i..]) == L.EmitAll(old(View()), code)
      {
        assert code[i..][1..] == code[i + 1..];
        Emit(code[i]);
        i := i + 1;
      }
    }

    method Define(d: Decl, ir: Name)
      modifies this
      ensures View() == L.Define(old(View()), d, ir)
    {
      scope := scope + [L.Binding(d.name, ir)];
      types := types[ir := d.ty];
    }

    /** Searches from the newest binding outwards. */
    method Resolve(x: string) returns (ir: Name)
      ensures ir == L.Resolve(View(), x)
    {
      var i := |scope|;
      assert scope[..i] == scope;
      while i > 0
        invariant i <= |scope|
        invariant L.Lookup(scope[..i], x) == L.Lookup(scope, x)
      {
        if scope[i - 1].name == x { return scope[i - 1].ir; }
        assert scope[..i][..i - 1] == scope[..i - 1];
        i := i - 1;
      }
      ir := Global(x);
    }

    method JumpUnlessTerminated(l: Label)
      modifies this
      ensures View() == L.JumpUnlessTerminated(old(View()), l)
    {
      var done := cur < |blocks| && |blocks[cur].instrs| > 0 &&
                  L.IsTerminator(blocks[cur].instrs[|blocks[cur].instrs| - 1]);
      if !done { Emit(Jump(l)); }
    }

    method PushTargets(breakLabel: Label, continueLabel: Label)
      modifies this
      ensures View() == L.Push(old(View()), breakLabel, continueLabel)
    {
      breaks := breaks + [breakLabel];
      loops := loops + [L.LoopTarget(breakLabel, continueLabel)];
    }

    method PopTargets()
      modifies this
      ensures View() == L.Pop(old(View()))
    {
      breaks := L.Front(breaks);
      loops := L.Front(loops);
    }

    // ----- expressions -----

    method EmitBin(op: BinOp, l: Name, r: Name, intLike: bool) returns (dst: Name)
      modifies this
      ensures (View(), dst) == L.EmitBin(old(View()), op, l, r, intLike)
    {
      EmitAll(L.Checks(op, l, r, intLike));
      dst := NextTemp();
      Emit(Bin(dst, op, l, r));
    }

    method GuessType(e: Expr) returns (ty: Ty)
      ensures ty == L.Guess(e, View())
    {
      match e {
        case ELit(_) => ty := TInt;
        case EBool(_) => ty := TBool;
        case EVar(x) =>
          var ir := Resolve(x);
          ty := if ir in types then types[ir] else TUnknown;
        case EUn(_, arg) => ty := GuessType(arg);
        case EBin(op, left, _) => if L.IsComparison(op) { ty := TBool; } else { ty := GuessType(left); }
        case ELogic(_, _, _) => ty := TBool;
        case EInc(_, _, x) =>
          var ir := Resolve(x);
          ty := if ir in types then types[ir] else TUnknown;
        case ECond(_, yes, _) => ty := GuessType(yes);
      }
    }

    method LowerExpr(e: Expr) returns (v: Name)
      modifies this
      ensures (View(), v) == L.LowerExpr(e, old(View()))
      decreases e, 1
    {
      match e {
        case ELit(n) =>
          v := NextTemp();
          Emit(Const(v, IntText(n)));
        case EBool(b) =>
          v := NextTemp();
          Emit(Const(v, RawBool(b)));
        case EVar(x) =>
          var name := Resolve(x);
          v := NextTemp();
          Emit(LoadVar(v, name));
        case EUn(op, arg) =>
          if op == Neg && arg == ELit(-INT_MIN) {
            v := NextTemp();
            Emit(Const(v, IntText(INT_MIN)));
          } else {
            var src := LowerExpr(arg);
            v := NextTemp();
            Emit(Unary(v, op, src));
          }
        case EBin(op, left, right) =>
          var l := LowerExpr(left);
          var r := LowerExpr(right);
          var lt := GuessType(left);
          var rt := GuessType(right);
          v := EmitBin(op, l, r, lt == TInt && rt == TInt);
        case ELogic(isAnd, left, right) => v := LowerLogic(e);
        case EInc(up, prefix, x) =>
          var name := Resolve(x);
          var was := NextTemp();
          var one := NextTemp();
          var next := NextTemp();
          Emit(LoadVar(was, name));
          Emit(Const(one, IntText(1)));
          Emit(Bin(next, if up then Add else Sub, was, one));
          Emit(StoreVar(name, next));
          v := if prefix then next else was;
        case ECond(cond, yes, no) =>
          var c := LowerExpr(cond);
          var a := LowerExpr(yes);
          var b := LowerExpr(no);
          v := NextTemp();
          Emit(Select(v, c, a, b));
      }
    }

    /** `&&` and `||`: blocks for the right operand and for the short cut, joined through a third. */
    method LowerLogic(e: Expr) returns (v: Name)
      requires e.ELogic?
      modifies this
      ensures (View(), v) == L.LowerExpr(e, old(View()))
      decreases e, 0
    {
      var l := LowerExpr(e.left);
      var k := OpenLogic(e.isAnd, l);
      var r := LowerExpr(e.right);
      CloseLogic(r, k);
      v := k.dst;
    }

    method OpenLogic(isAnd: bool, l: Name) returns (k: L.Logic)
      modifies this
      ensures (View(), k) == L.OpenLogic(isAnd, l, old(View()))
    {
      var base := |blocks|;
      var labels := OpenBlocks(["logic_right_", "logic_short_", "logic_done_"]);
      var cont := NextLabel("logic_cont_");
      var dst := NextTemp();
      Emit(BranchIf(l, if isAnd then labels[0] else labels[1], if isAnd then labels[1] else labels[0]));
      cur := base + 1;
      Emit(Const(dst, RawBool(!isAnd)));
      Emit(Jump(labels[2]));
      cur := base;
      k := L.Logic(labels[2], cont, base, dst);
    }

    method CloseLogic(r: Name, k: L.Logic)
      modifies this
      ensures View() == L.CloseLogic(r, k, old(View()))
    {
      Emit(Copy(k.dst, r));
      Emit(Jump(k.done));
      var last := AddBlock(k.cont);
      cur := k.base + 2;
      Emit(Nop);
      Emit(Jump(k.cont));
      cur := last;
    }

    // ----- statements -----

    method LowerDecl(d: Decl, init: Option<Expr>)
      modifies this
      ensures View() == L.LowerDecl(d, init, old(View()))
    {
      var ir := NextVar(d.name);
      Define(d, ir);
      Emit(VarDecl(ir));
      var v;
      match init {
        case Some(e) => v := LowerExpr(e);
        case None =>
          v := NextTemp();
          Emit(Const(v, if d.ty == TBool then RawBool(false) else IntText(0)));
      }
      var name := Resolve(d.name);
      Emit(StoreVar(name, v));
    }

    method LowerAssign(x: string, aop: Option<BinOp>, rhs: Expr)
      modifies this
      ensures View() == L.LowerAssign(x, aop, rhs, old(View()))
    {
      var v := LowerExpr(rhs);
      match aop {
        case None =>
          var ty := GuessType(rhs);
          var name := Resolve(x);
          types := types[name := ty];
          Emit(StoreVar(name, v));
        case Some(op) =>
          var lt := GuessType(EVar(x));
          var rt := GuessType(rhs);
          var was := LowerExpr(EVar(x));
          var next := EmitBin(op, was, v, lt == TInt && rt == TInt);
          var name := Resolve(x);
          Emit(StoreVar(name, next));
      }
    }

    method LowerStmt(s: Stmt)
      modifies this
      ensures View() == L.LowerStmt(s, old(View()))
      decreases s, 2
    {
      match s {
        case SDecl(d, init) => LowerDecl(d, init);
        case SAssign(x, aop, rhs) => LowerAssign(x, aop, rhs);
        case SExpr(e) => var _ := LowerExpr(e);
        case SBlock(body) =>
          var outer := scope;
          LowerAll(body);
          scope := outer;
        case SIf(_, _, _) => LowerIf(s);
        case SWhile(_, _) => LowerWhile(s);
        case SDo(_, _) => LowerDo(s);
        case SFor(_, _, _, _) => LowerFor(s);
        case SSwitch(_, _, _) => LowerSwitch(s);
        case SBreak => Emit(if breaks == [] then Unhandled else Jump(breaks[|breaks| - 1]));
        case SContinue => Emit(if loops == [] then Unhandled else Jump(loops[|loops| - 1].continueLabel));
        case SReturn(result) =>
          match result {
            case None => Emit(RetVoid);
            case Some(e) =>
              var v := LowerExpr(e);
              Emit(Ret(v));
          }
      }
    }

    method LowerAll(ss: seq<Stmt>)
      modifies this
      ensures View() == L.LowerAll(ss, old(View()))
      decreases ss, 0
    {
      var i := 0;
      assert ss[0..] == ss;
      while i < |ss|
        invariant i <= |ss|
        invariant L.LowerAll(ss[i..], View()) == L.LowerAll(ss, old(View()))
      {
        assert ss[i..][1..] == ss[i + 1..];
        LowerStmt(ss[i]);
        i := i + 1;
      }
    }

    method LowerBody(loop: Stmt, doneL: Label, continueL: Label)
      modifies this
      ensures View() == L.LowerBody(loop, doneL, continueL, old(View()))
      decreases loop, 3
    {
      PushTargets(doneL, continueL);
      LowerStmt(loop);
      JumpUnlessTerminated(continueL);
      PopTargets();
    }

    method LowerIf(s: Stmt)
      requires s.SIf?
      modifies this
      ensures View() == L.LowerStmt(s, old(View()))
      decreases s, 1
    {
      var c := LowerExpr(s.cond);
      var n := |blocks|;
      var labels := OpenBlocks(["if_then_", "if_done_"] + if s.no.Some? then ["if_else_"] else []);
      Emit(BranchIf(c, labels[0], if s.no.Some? then labels[2] else labels[1]));
      cur := n;
      LowerStmt(s.yes);
      JumpUnlessTerminated(labels[1]);
      match s.no {
        case Some(other) =>
          cur := n + 2;
          LowerStmt(other);
          JumpUnlessTerminated(labels[1]);
        case None =>
      }
      cur := n + 1;
      Emit(Nop);
    }

    method LowerWhile(s: Stmt)
      requires s.SWhile?
      modifies this
      ensures View() == L.LowerStmt(s, old(View()))
      decreases s, 1
    {
      var n := |blocks|;
      var labels := OpenBlocks(["while_cond_", "while_body_", "while_done_"]);
      Emit(Jump(labels[0]));
      cur := n;
      var c := LowerExpr(s.cond);
      Emit(BranchIf(c, labels[1], labels[2]));
      cur := n + 1;
      LowerBody(s.loop, labels[2], labels[0]);
      cur := n + 2;
      Emit(Nop);
    }

    method LowerDo(s: Stmt)
      requires s.SDo?
      modifies this
      ensures View() == L.LowerStmt(s, old(View()))
      decreases s, 1
    {
      var n := |blocks|;
      var labels := OpenBlocks(["do_body_", "do_cond_", "do_done_"]);
      Emit(Jump(labels[0]));
      cur := n;
      LowerBody(s.loop, labels[2], labels[1]);
      cur := n + 1;
      var c := LowerExpr(s.cond);
      Emit(BranchIf(c, labels[0], labels[2]));
      cur := n + 2;
      Emit(Nop);
    }

    method LowerFor(s: Stmt)
      requires s.SFor?
      modifies this
      ensures View() == L.LowerStmt(s, old(View()))
      decreases s, 1
    {
      var n := |blocks|;
      var labels := OpenBlocks(["for_init_", "for_cond_", "for_body_", "for_step_", "for_done_"]);
      Emit(Jump(labels[0]));
      cur := n;
      LowerStmt(s.start);
      Emit(Jump(labels[1]));
      cur := n + 1;
      var c := LowerExpr(s.cond);
      Emit(BranchIf(c, labels[2], labels[4]));
      cur := n + 2;
      LowerBody(s.loop, labels[4], labels[3]);
      cur := n + 3;
      LowerStmt(s.step);
      Emit(Jump(labels[1]));
      cur := n + 4;
      Emit(Nop);
    }

    method LowerSwitch(s: Stmt)
      requires s.SSwitch?
      modifies this
      ensures View() == L.LowerStmt(s, old(View()))
      decreases s, 1
    {
      hide L.LowerExpr;
      hide L.LowerAll;
      hide L.LowerCases;
      hide L.OpenBlocks;
      hide L.JumpUnlessTerminated;
      hide L.CasePrefixes;
      hide L.CloseSwitch;
      hide L.Emit;
      var v := LowerExpr(s.e);
      var doneL := NextLabel("sw_done_");
      breaks := breaks + [doneL];
      var n := |blocks|;
      var labels := OpenBlocks(L.CasePrefixes(|s.cases|) + if s.default.Otherwise? then ["sw_default_"] else []);
      var defaultL := if s.default.Otherwise? then labels[2 * |s.cases|] else doneL;
      if |labels| > 0 { Emit(Jump(labels[0])); }
      LowerCases(v, s, n, labels, defaultL, doneL);
      match s.default {
        case Otherwise(body) =>
          cur := n + 2 * |s.cases|;
          LowerAll(body);
          JumpUnlessTerminated(doneL);
        case NoDefault =>
      }
      CloseSwitch(doneL);
    }

    method CloseSwitch(doneL: Label)
      modifies this
      ensures View() == L.CloseSwitch(doneL, old(View()))
    {
      var last := AddBlock(doneL);
      cur := last;
      Emit(Nop);
      breaks := L.Front(breaks);
    }

    method LowerCases(v: Name, s: Stmt, n: nat, labels: seq<Label>, defaultL: Label, doneL: Label)
      requires s.SSwitch? && 2 * |s.cases| <= |labels|
      modifies this
      ensures View() == L.LowerCases(v, s, 0, n, labels, defaultL, doneL, old(View()))
      decreases s, 0
    {
      hide L.LowerExpr;
      hide L.LowerAll;
      hide L.Emit;
      hide L.JumpUnlessTerminated;
      var i := 0;
      while i < |s.cases|
        invariant i <= |s.cases|
        invariant L.LowerCases(v, s, i, n, labels, defaultL, doneL, View()) ==
                  L.LowerCases(v, s, 0, n, labels, defaultL, doneL, old(View()))
      {
        ghost var was := View();
        cur := n + 2 * i;
        var w := LowerExpr(s.cases[i].value);
        var eq := NextTemp();
        var otherwise := if i + 1 < |s.cases| then labels[2 * i + 2] else defaultL;
        Emit(Bin(eq, Eq, v, w));
        Emit(BranchIf(eq, labels[2 * i + 1], otherwise));
        cur := n + 2 * i + 1;
        LowerAll(s.cases[i].body);
        JumpUnlessTerminated(doneL);
        assert L.LowerCases(v, s, i, n, labels, defaultL, doneL, was) ==
               L.LowerCases(v, s, i + 1, n, labels, defaultL, doneL, View());
        i := i + 1;
      }
    }

    method DefineParams(params: seq<Decl>) returns (names: seq<Name>)
      modifies this
      ensures (View(), names) == L.DefineParams(params, old(View()))
    {
      names := [];
      var i := 0;
      while i < |params|
        invariant i <= |params| && |names| == i
        invariant (View(), names) == L.DefineParams(params[..i], old(View()))
      {
        assert params[..i + 1][..i] == params[..i];
        var ir := NextVar(params[i].name);
        Define(params[i], ir);
        names := names + [ir];
        i := i + 1;
      }
      assert params[..|params|] == params;
    }
  }

  /** Lowers one function in a context of its own. */
  method LowerFunction(fn: FnDef) returns (f: Function)
    ensures f == L.LowerFunction(fn)
  {
    var ctx := new IrFnCtx();
    var params := ctx.DefineParams(fn.params);
    assert ctx.View() == L.DefineParams(fn.params, L.START).0;
    ctx.LowerStmt(SBlock(fn.body));
    var last := ctx.cur < |ctx.blocks| && |ctx.blocks[ctx.cur].instrs| > 0 &&
                L.IsTerminator(ctx.blocks[ctx.cur].instrs[|ctx.blocks[ctx.cur].instrs| - 1]);
    if !last { ctx.Emit(if fn.isVoid then RetVoid else RetDefault); }
    f := Function(params, ctx.blocks);
  }
}
