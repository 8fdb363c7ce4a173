/** The intermediate representation: values, instructions, basic blocks and their meaning.

    One semantics serves the lowering (which builds the graph) and the optimizer (which rewrites
    it).  Fuel is spent at jumps and at calls only, so removing or adding straight-line
    instructions does not change how much fuel a run needs. */
module Ir {
  import opened Options
  import opened Arith

  // ----- values and operators -----

  const INT_MIN: int := -0x8000_0000_0000_0000
  const INT_MAX: int := 0x7FFF_FFFF_FFFF_FFFF

  datatype Value = VInt(n: int) | VBool(b: bool)

  /** `Undefined` stands for what C leaves undefined: a signed result outside 64 bits that no
      check instruction guards, or a register that was never written. */
  datatype Trap = Overflow | DivZero | ShiftRange | TypeError | Undefined

  datatype BinOp = Add | Sub | Mul | Div | Mod | Shl | Shr | Eq | Ne | Lt | Le | Gt | Ge
  datatype UnOp = Neg | Not | BitNot

  datatype Computed = Good(v: Value) | Bad(t: Trap)

  predicate InInt64(n: int) {
    INT_MIN <= n <= INT_MAX
  }

  function Fit(n: int): Computed {
    if InInt64(n) then Good(VInt(n)) else Bad(Undefined)
  }

  /** The arithmetic instruction by itself, as the emitted C performs it: no check. */
  function RawInt(op: BinOp, a: int, b: int): Computed {
    match op
    case Add => Fit(a + b)
    case Sub => Fit(a - b)
    case Mul => Fit(a * b)
    case Div => if b == 0 then Bad(Undefined) else Fit(TruncDiv(a, b))
    // `a % b` is undefined exactly when `a / b` does not fit (section 6.5.5 of C11)
    case Mod => if b == 0 || !InInt64(TruncDiv(a, b)) then Bad(Undefined) else Good(VInt(TruncMod(a, b)))
    case Shl => if b < 0 || b >= 64 || a < 0 then Bad(Undefined) else Fit(a * Pow2(b))
    case Shr => if b < 0 || b >= 64 then Bad(Undefined) else Good(VInt(a / Pow2(b)))
    case Eq => Good(VBool(a == b))
    case Ne => Good(VBool(a != b))
    case Lt => Good(VBool(a < b))
    case Le => Good(VBool(a <= b))
    case Gt => Good(VBool(a > b))
    case Ge => Good(VBool(a >= b))
  }

  function RawBin(op: BinOp, l: Value, r: Value): Computed {
    if l.VInt? && r.VInt? then RawInt(op, l.n, r.n)
    else if l.VBool? && r.VBool? && op.Eq? then Good(VBool(l.b == r.b))
    else if l.VBool? && r.VBool? && op.Ne? then Good(VBool(l.b != r.b))
    else Bad(TypeError)
  }

  function RawUn(op: UnOp, v: Value): Computed {
    match (op, v)
    case (Neg, VInt(n)) => Fit(-n)
    case (BitNot, VInt(n)) => Fit(-n - 1)
    case (Not, VBool(b)) => Good(VBool(!b))
    case _ => Bad(TypeError)
  }

  // ----- instructions -----

  /** Temporaries (`%t7`), the optimizer's temporaries (`%opt7`), renamed variables (`x$3`), and a
      name that no scope renamed. */
  datatype Name = Temp(id: nat) | OptTemp(id: nat) | Local(base: string, id: nat) | Global(base: string)

  datatype Label = Entry | Fresh(prefix: string, id: nat)

  /** The payload of a `const`.  Whole numbers are text; booleans of the source and of short cuts
      are raw JSON booleans, folded ones are text.  Folding can leave an `int` whose text has a fraction, or a
      `bool` whose text is a number. */
  datatype Literal = IntText(n: int) | FracText(r: real) | BoolText(b: bool) | RawBool(b: bool) | BoolNumber(r: real)

  datatype Instr =
    | Const(dst: Name, lit: Literal)
    | VarDecl(name: Name)
    | LoadVar(dst: Name, name: Name)
    | StoreVar(name: Name, src: Name)
    | Copy(dst: Name, src: Name)
    | Unary(dst: Name, unop: UnOp, src: Name)
    | Bin(dst: Name, op: BinOp, left: Name, right: Name)
    | Select(dst: Name, cond: Name, thenValue: Name, elseValue: Name)
    | CheckOverflow(op: BinOp, left: Name, right: Name, loc: nat)
    | CheckNeg(value: Name, loc: nat)
    | CheckDivZero(divisor: Name, loc: nat)
    | CheckShift(shift: Name, width: nat, loc: nat)
    | CallStatic(dst: Name, callee: string, args: seq<Name>)
    | Jump(target: Label)
    | BranchIf(cond: Name, thenLabel: Label, elseLabel: Label)
    | Ret(value: Name)
    | RetVoid
    | RetDefault
    | Nop
    | Unhandled

  datatype Block = Block(tag: Label, instrs: seq<Instr>)
  datatype Function = Function(params: seq<Name>, blocks: seq<Block>)
  type Module = map<string, Function>
  type Regs = map<Name, Value>

  // ----- one instruction -----

  datatype Flow =
    | Next(regs: Regs)
    | Goto(target: Label)
    | Stop(outcome: Outcome)
    | Enter(dst: Name, callee: string, args: seq<Value>)

  datatype Outcome =
    | Returned(value: Value)
    | ReturnedVoid
    | FellOff            // left the body of a value function without `return`
    | Trapped(trap: Trap)
    | OutOfFuel
    | BadGraph           // a missing label, function or terminator

  /** The emitted C assigns an `int64_t` from the text, so a fraction is cut toward zero. */
  function LiteralValue(lit: Literal): Value {
    match lit
    case IntText(n) => VInt(n)
    case FracText(r) => VInt(if r >= 0.0 then r.Floor else -((-r).Floor))
    case BoolText(b) => VBool(b)
    case RawBool(b) => VBool(b)
    case BoolNumber(r) => VBool(r != 0.0)
  }

  function Write(dst: Name, c: Computed, regs: Regs): Flow {
    match c
    case Good(v) => Next(regs[dst := v])
    case Bad(t) => Stop(Trapped(t))
  }

  function ReadAll(args: seq<Name>, regs: Regs): seq<Value>
    requires forall a :: a in args ==> a in regs
  {
    seq(|args|, i requires 0 <= i < |args| => regs[args[i]])
  }

  function Reads(i: Instr): set<Name> {
    match i
    case LoadVar(_, name) => {name}
    case StoreVar(_, src) => {src}
    case Copy(_, src) => {src}
    case Unary(_, _, src) => {src}
    case Bin(_, _, left, right) => {left, right}
    case Select(_, cond, a, b) => {cond, a, b}
    case CheckOverflow(_, left, right, _) => {left, right}
    case CheckNeg(value, _) => {value}
    case CheckDivZero(divisor, _) => {divisor}
    case CheckShift(shift, _, _) => {shift}
    case CallStatic(_, _, args) => set a | a in args
    case BranchIf(cond, _, _) => {cond}
    case Ret(value) => {value}
    case _ => {}
  }

  function Step(i: Instr, regs: Regs): Flow {
    if !(Reads(i) <= regs.Keys) then Stop(Trapped(Undefined))
    else
      match i
      case Const(dst, lit) => Next(regs[dst := LiteralValue(lit)])
      case VarDecl(_) => Next(regs)
      case LoadVar(dst, name) => Next(regs[dst := regs[name]])
      case StoreVar(name, src) => Next(regs[name := regs[src]])
      case Copy(dst, src) => Next(regs[dst := regs[src]])
      case Unary(dst, op, src) => Write(dst, RawUn(op, regs[src]), regs)
      case Bin(dst, op, left, right) => Write(dst, RawBin(op, regs[left], regs[right]), regs)
      case Select(dst, cond, a, b) =>
        if regs[cond].VBool? then Next(regs[dst := if regs[cond].b then regs[a] else regs[b]])
        else Stop(Trapped(TypeError))
      case CheckOverflow(op, left, right, _) =>
        if CheckFails(op, regs[left], regs[right]) then Stop(Trapped(Overflow)) else Next(regs)
      case CheckNeg(value, _) => if regs[value] == VInt(INT_MIN) then Stop(Trapped(Overflow)) else Next(regs)
      case CheckDivZero(divisor, _) => if regs[divisor] == VInt(0) then Stop(Trapped(DivZero)) else Next(regs)
      case CheckShift(shift, width, _) =>
        if regs[shift].VInt? && !(0 <= regs[shift].n < width) then Stop(Trapped(ShiftRange)) else Next(regs)
      case CallStatic(dst, callee, args) => Enter(dst, callee, ReadAll(args, regs))
      case Jump(target) => Goto(target)
      case BranchIf(cond, a, b) =>
        if regs[cond].VBool? then Goto(if regs[cond].b then a else b) else Stop(Trapped(TypeError))
      case Ret(value) => Stop(Returned(regs[value]))
      case RetVoid => Stop(ReturnedVoid)
      case RetDefault => Stop(FellOff)
      case Nop => Next(regs)
      case Unhandled => Next(regs)
  }

  /** `ps_check_int_overflow_add` and its two siblings: the mathematical result leaves 64 bits. */
  predicate CheckFails(op: BinOp, l: Value, r: Value) {
    l.VInt? && r.VInt? &&
    match op
    case Add => !InInt64(l.n + r.n)
    case Sub => !InInt64(l.n - r.n)
    case Mul => !InInt64(l.n * r.n)
    case _ => false
  }

  // ----- whole functions -----

  /** A point of a run: block index, position in the block, register contents. */
  datatype Config = Config(block: nat, pc: nat, regs: Regs)

  /** The first block with that label, or the number of blocks when there is none. */
  function FindLabel(blocks: seq<Block>, l: Label): (i: nat)
    ensures i <= |blocks|
    ensures i < |blocks| ==> blocks[i].tag == l
    ensures forall j :: 0 <= j < i ==> blocks[j].tag != l
  {
    if blocks == [] then 0
    else if blocks[0].tag == l then 0
    else
      var r := FindLabel(blocks[1..], l);
      assert forall j :: 0 < j < r + 1 ==> blocks[j] == blocks[1..][j - 1];
      r + 1
  }

  function Bind(params: seq<Name>, args: seq<Value>): Regs
    requires |params| == |args|
  {
    if params == [] then map[]
    else Bind(params[..|params| - 1], args[..|args| - 1])[params[|params| - 1] := args[|args| - 1]]
  }

  function Room(f: Function, c: Config): nat {
    if c.block < |f.blocks| && c.pc < |f.blocks[c.block].instrs| then |f.blocks[c.block].instrs| - c.pc else 0
  }

  /** Runs function `f` of module `m` from `c`. */
  function Run(m: Module, f: Function, c: Config, fuel: nat): Outcome
    decreases fuel, Room(f, c)
  {
    if c.block >= |f.blocks| || c.pc >= |f.blocks[c.block].instrs| then BadGraph
    else
      match Step(f.blocks[c.block].instrs[c.pc], c.regs)
      case Next(regs) => Run(m, f, Config(c.block, c.pc + 1, regs), fuel)
      case Goto(l) =>
        if fuel == 0 then OutOfFuel else Run(m, f, Config(FindLabel(f.blocks, l), 0, c.regs), fuel - 1)
      case Stop(o) => o
      case Enter(dst, callee, args) =>
        if fuel == 0 then OutOfFuel
        else
          match Call(m, callee, args, fuel - 1)
          case Returned(v) => Run(m, f, Config(c.block, c.pc + 1, c.regs[dst := v]), fuel)
          case ReturnedVoid => Run(m, f, Config(c.block, c.pc + 1, c.regs), fuel)
          case o => o
  }

  function Call(m: Module, callee: string, args: seq<Value>, fuel: nat): Outcome
    decreases fuel + 1, 0
  {
    if callee !in m || |args| != |m[callee].params| then BadGraph
    else Run(m, m[callee], Config(0, 0, Bind(m[callee].params, args)), fuel)
  }

  // ----- facts about runs -----

  /** More fuel never changes a finished run. */
  lemma {:induction false} RunMonotone(m: Module, f: Function, c: Config, fuel: nat, more: nat)
    requires fuel <= more
    requires Run(m, f, c, fuel) != OutOfFuel
    ensures Run(m, f, c, more) == Run(m, f, c, fuel)
    decreases fuel, Room(f, c)
  {
    hide Step;
    if c.block < |f.blocks| && c.pc < |f.blocks[c.block].instrs| {
      match Step(f.blocks[c.block].instrs[c.pc], c.regs) {
        case Next(regs) => RunMonotone(m, f, Config(c.block, c.pc + 1, regs), fuel, more);
        case Goto(l) => RunMonotone(m, f, Config(FindLabel(f.blocks, l), 0, c.regs), fuel - 1, more - 1);
        case Stop(o) =>
        case Enter(dst, callee, args) =>
          var o := Call(m, callee, args, fuel - 1);
          if callee in m && |args| == |m[callee].params| {
            RunMonotone(m, m[callee], Config(0, 0, Bind(m[callee].params, args)), fuel - 1, more - 1);
          }
          match o {
            case Returned(v) => RunMonotone(m, f, Config(c.block, c.pc + 1, c.regs[dst := v]), fuel, more);
            case ReturnedVoid => RunMonotone(m, f, Config(c.block, c.pc + 1, c.regs), fuel, more);
            case _ =>
          }
      }
    }
  }
}
