/** Constant propagation inside blocks, computing with JavaScript numbers. */
module ConstantPropagation {
  import opened Options
  import opened Ir
  import opened Blocks
  import opened Arith

  // ----- JavaScript values -----

  /** How a real result becomes a double; only its exactness on small whole numbers matters here. */
  type Rounding = real -> real

  datatype Js = Num(r: real) | Boolean(b: bool)

  const SAFE := 0x1F_FFFF_FFFF_FFFF

  predicate Safe(n: int) {
    -SAFE <= n <= SAFE
  }

  /** Doubles hold every whole number up to 2^53 - 1. */
  ghost predicate Exact(round: Rounding) {
    forall n: int :: Safe(n) ==> round(n as real) == n as real
  }

  function Number(v: Js): real {
    match v
    case Num(r) => r
    case Boolean(b) => if b then 1.0 else 0.0
  }

  function ToInt32(r: real): int {
    (Trunc(r) + 0x8000_0000) % 0x1_0000_0000 - 0x8000_0000
  }

  function ShiftCount(r: real): nat {
    Trunc(r) % 32
  }

  function FoldUnary(op: UnOp, r: real): Js {
    match op
    case Neg => Num(-r)
    case Not => Boolean(r == 0.0)
    case BitNot => Num((-ToInt32(r) - 1) as real)
  }

  function Times(a: real, b: real): real {
    a * b
  }

  function Remainder(a: real, b: real): real
    requires b != 0.0
  {
    a - b * Trunc(a / b) as real
  }

  /** `None` when the result is infinite or not a number. */
  function FoldBinary(op: BinOp, x: Js, y: Js, round: Rounding): Option<Js> {
    var a, b := Number(x), Number(y);
    match op
    case Add => Some(Num(round(a + b)))
    case Sub => Some(Num(round(a - b)))
    case Mul => Some(Num(round(Times(a, b))))
    case Div => if b == 0.0 then None else Some(Num(round(a / b)))
    case Mod => if b == 0.0 then None else Some(Num(Remainder(a, b)))
    case Shl => Some(Num(ToInt32((ToInt32(a) * Pow2(ShiftCount(b))) as real) as real))
    case Shr => Some(Num((ToInt32(a) / Pow2(ShiftCount(b))) as real))
    case Eq => Some(Boolean(x == y))
    case Ne => Some(Boolean(x != y))
    case Lt => Some(Boolean(a < b))
    case Le => Some(Boolean(a <= b))
    case Gt => Some(Boolean(a > b))
    case Ge => Some(Boolean(a >= b))
  }

  // ----- constants: a literal type and a text or raw boolean -----

  predicate BoolTyped(lit: Literal) {
    lit.BoolText? || lit.RawBool? || lit.BoolNumber?
  }

  /** `Number(value)`; `None` stands for NaN. */
  function NumberOf(lit: Literal, round: Rounding): Option<real> {
    match lit
    case IntText(n) => Some(round(n as real))
    case FracText(r) => Some(r)
    case BoolText(_) => None
    case RawBool(b) => Some(if b then 1.0 else 0.0)
    case BoolNumber(r) => Some(r)
  }

  /** An operand of a binary fold: a `bool` is true only if its value is the text "true". */
  function Operand(lit: Literal, round: Rounding): Js {
    if BoolTyped(lit) then Boolean(lit == BoolText(true))
    else match NumberOf(lit, round) case Some(r) => Num(r) case None => Boolean(false)
  }

  function AsLiteral(v: Js, boolTyped: bool): Literal {
    match v
    case Boolean(b) => BoolText(b)
    case Num(r) => if boolTyped then BoolNumber(r) else if r == r.Floor as real then IntText(r.Floor) else FracText(r)
  }

  function FoldUn(op: UnOp, lit: Literal, round: Rounding): Option<Literal> {
    match NumberOf(lit, round)
    case None => None
    case Some(r) => Some(AsLiteral(FoldUnary(op, r), BoolTyped(lit)))
  }

  function FoldBin(op: BinOp, a: Literal, b: Literal, round: Rounding): Option<Literal> {
    match FoldBinary(op, Operand(a, round), Operand(b, round), round)
    case None => None
    case Some(v) => Some(AsLiteral(v, BoolTyped(a)))
  }

  // ----- the pass -----

  type Constants = map<Name, Literal>

  function Without(cst: Constants, names: set<Name>): Constants {
    cst - names
  }

  function CopyConstant(cst: Constants, dst: Name, src: Name): Constants {
    if src in cst then cst[dst := cst[src]] else Without(cst, {dst})
  }

  predicate HasDst(i: Instr) {
    Written(i) != {} && !i.StoreVar?
  }

  /** The instruction that replaces `i`, and the constants known after it. */
  function PropOne(i: Instr, cst: Constants, round: Rounding): (Instr, Constants) {
    match i
    case Const(dst, lit) => (i, cst[dst := lit])
    case Copy(dst, src) => (i, CopyConstant(cst, dst, src))
    case Unary(dst, op, src) =>
      (match if src in cst then FoldUn(op, cst[src], round) else None
       case Some(lit) => (Const(dst, lit), cst[dst := lit])
       case None => (i, Without(cst, {dst})))
    case Bin(dst, op, left, right) =>
      (match if left in cst && right in cst then FoldBin(op, cst[left], cst[right], round) else None
       case Some(lit) => (Const(dst, lit), cst[dst := lit])
       case None => (i, Without(cst, {dst})))
    case Select(dst, cond, a, b) =>
      if cond in cst then
        var src := if cst[cond] == BoolText(true) then a else b;
        (Copy(dst, src), CopyConstant(cst, dst, src))
      else (i, Without(cst, {dst}))
    case _ => (i, if HasDst(i) then Without(cst, Written(i)) else cst)
  }

  function Prop(code: seq<Instr>, cst: Constants, round: Rounding): (r: seq<Instr>)
    ensures |r| == |code|
    decreases |code|
  {
    if code == [] then []
    else
      var (i, cst1) := PropOne(code[0], cst, round);
      [i] + Prop(code[1..], cst1, round)
  }

  function PropBlocks(blocks: seq<Block>, round: Rounding): (r: seq<Block>)
    ensures SameTags(blocks, r)
    ensures forall i :: 0 <= i < |r| ==> r[i].instrs == Prop(blocks[i].instrs, map[], round)
  {
    seq(|blocks|, i requires 0 <= i < |blocks| => Block(blocks[i].tag, Prop(blocks[i].instrs, map[], round)))
  }

  function PropFunction(f: Function, round: Rounding): Function {
    Function(f.params, PropBlocks(f.blocks, round))
  }

  function PropModule(m: Module, round: Rounding): Module {
    map k | k in m :: PropFunction(m[k], round)
  }

  // ----- when a fold computes what the machine computes -----

  predicate InInt32(n: int) {
    -0x8000_0000 <= n < 0x8000_0000
  }

  predicate UnGuard(op: UnOp, lit: Literal) {
    (lit.IntText? && Safe(lit.n) && (op.Neg? || (op.BitNot? && InInt32(lit.n)))) || (lit.RawBool? && op.Not?)
  }

  /** A boolean constant that reads as itself: the text "true" or "false", or a raw `false`. */
  predicate PlainBool(lit: Literal) {
    lit.BoolText? || lit == RawBool(false)
  }

  predicate IntGuard(op: BinOp, x: int, y: int) {
    match op
    case Add => Safe(x + y)
    case Sub => Safe(x - y)
    case Mul => Safe(x * y)
    case Div => y != 0 ==> x % y == 0
    case Shl => 0 <= x && 0 <= y < 32 && InInt32(x * Pow2(y))
    case Shr => 0 <= y < 32 && InInt32(x)
    case _ => true
  }

  predicate BinGuard(op: BinOp, a: Literal, b: Literal) {
    (a.IntText? && b.IntText? && Safe(a.n) && Safe(b.n) && IntGuard(op, a.n, b.n)) ||
    ((op.Eq? || op.Ne?) && PlainBool(a) && PlainBool(b))
  }

  predicate GuardOne(i: Instr, cst: Constants, round: Rounding) {
    match i
    case Unary(_, op, src) => src in cst && FoldUn(op, cst[src], round).Some? ==> UnGuard(op, cst[src])
    case Bin(_, op, left, right) =>
      left in cst && right in cst && FoldBin(op, cst[left], cst[right], round).Some? ==>
        BinGuard(op, cst[left], cst[right])
    case Select(_, cond, _, _) => cond in cst ==> PlainBool(cst[cond])
    case StoreVar(name, _) => name !in cst
    case _ => true
  }

  /** Every fold that the pass makes in `code` is within its guard. */
  predicate Guards(code: seq<Instr>, cst: Constants, round: Rounding)
    decreases |code|
  {
    code == [] || (GuardOne(code[0], cst, round) && Guards(code[1..], PropOne(code[0], cst, round).1, round))
  }

  predicate GuardedFunction(f: Function, round: Rounding) {
    forall b :: 0 <= b < |f.blocks| ==> Guards(f.blocks[b].instrs, map[], round)
  }

  predicate GuardedModule(m: Module, round: Rounding) {
    forall k :: k in m ==> GuardedFunction(m[k], round)
  }

  // ----- folds are exact -----

  lemma ToInt32Small(n: int)
    requires InInt32(n)
    ensures ToInt32(n as real) == n
  {
    DivUnique(n + 0x8000_0000, 0x1_0000_0000, 0, n + 0x8000_0000);
  }

  lemma ShiftSmall(n: int)
    requires 0 <= n < 32
    ensures ShiftCount(n as real) == n
  {
    DivUnique(n, 32, 0, n);
  }

  /** Within its guard, a fold of two whole numbers is what the instruction computes. */
  lemma IntFoldExact(op: BinOp, x: int, y: int, round: Rounding)
    requires Exact(round) && Safe(x) && Safe(y) && IntGuard(op, x, y)
    ensures var v := FoldBinary(op, Num(x as real), Num(y as real), round);
            v.Some? ==> AsLiteral(v.value, false).IntText? || AsLiteral(v.value, false).BoolText?
    ensures var v := FoldBinary(op, Num(x as real), Num(y as real), round);
            v.Some? ==> RawInt(op, x, y) == Good(LiteralValue(AsLiteral(v.value, false)))
  {
    hide Pow2;
    match op {
      case Add => assert round((x + y) as real) == (x + y) as real;
      case Sub => assert round((x - y) as real) == (x - y) as real;
      case Mul => MulExact(x, y, round);
      case Div => if y != 0 { DivExactly(x, y, round); }
      case Mod => if y != 0 { ModExact(x, y, round); }
      case Shl => ShlExact(x, y, round);
      case Shr => ShrExact(x, y, round);
      case _ =>
    }
  }

  lemma MulExact(x: int, y: int, round: Rounding)
    requires Exact(round) && Safe(x * y)
    ensures FoldBinary(Mul, Num(x as real), Num(y as real), round) == Some(Num((x * y) as real))
    ensures RawInt(Mul, x, y) == Good(VInt(x * y))
  {
    TimesIs(x, y);
    assert round((x * y) as real) == (x * y) as real;
    RawMul(x, y, x * y);
    hide Times;
    hide RawInt;
  }

  lemma TimesIs(x: int, y: int)
    ensures Times(x as real, y as real) == (x * y) as real
  {
    MulReal(x, y);
  }

  lemma RawMul(x: int, y: int, p: int)
    requires p == x * y && Safe(p)
    ensures RawInt(Mul, x, y) == Good(VInt(p))
  {
  }

  lemma RealQuotient(x: int, y: int)
    requires y != 0 && x % y == 0
    ensures (x as real) / (y as real) == TruncDiv(x, y) as real
  {
    TruncDivExact(x, y);
    MulReal(TruncDiv(x, y), y);
  }

  lemma DivExactly(x: int, y: int, round: Rounding)
    requires Exact(round) && Safe(x) && y != 0 && x % y == 0
    ensures FoldBinary(Div, Num(x as real), Num(y as real), round) == Some(Num(TruncDiv(x, y) as real))
    ensures RawInt(Div, x, y) == Good(VInt(TruncDiv(x, y)))
  {
    hide TruncDiv;
    RealQuotient(x, y);
    TruncDivShrinks(x, y);
    var q := TruncDiv(x, y);
    assert Safe(q);
    assert round(q as real) == q as real;
  }

  lemma ModExact(x: int, y: int, round: Rounding)
    requires y != 0 && Safe(x) && Safe(y)
    ensures FoldBinary(Mod, Num(x as real), Num(y as real), round) == Some(Num(TruncMod(x, y) as real))
    ensures RawInt(Mod, x, y) == Good(VInt(TruncMod(x, y)))
  {
    hide TruncDiv;
    hide TruncMod;
    RemainderIs(x, y);
    hide Remainder;
    TruncDivShrinks(x, y);
    RawMod(x, y);
    hide RawInt;
  }

  lemma RemainderIs(x: int, y: int)
    requires y != 0
    ensures Remainder(x as real, y as real) == TruncMod(x, y) as real
  {
    hide TruncDiv;
    hide Trunc;
    TruncIsTruncDiv(x, y);
    MulReal(y, TruncDiv(x, y));
  }

  lemma RawMod(x: int, y: int)
    requires y != 0 && InInt64(TruncDiv(x, y))
    ensures RawInt(Mod, x, y) == Good(VInt(TruncMod(x, y)))
  {
    hide TruncDiv;
    hide TruncMod;
  }

  lemma ShlExact(x: int, y: int, round: Rounding)
    requires IntGuard(Shl, x, y)
    ensures FoldBinary(Shl, Num(x as real), Num(y as real), round) == Some(Num((x * Pow2(y)) as real))
    ensures RawInt(Shl, x, y) == Good(VInt(x * Pow2(y)))
  {
    MulMono(1, Pow2(y), x);
    ToInt32Small(x);
    ShiftSmall(y);
    ToInt32Small(x * Pow2(y));
  }

  lemma ShrExact(x: int, y: int, round: Rounding)
    requires IntGuard(Shr, x, y)
    ensures FoldBinary(Shr, Num(x as real), Num(y as real), round) == Some(Num((x / Pow2(y)) as real))
    ensures RawInt(Shr, x, y) == Good(VInt(x / Pow2(y)))
  {
    ToInt32Small(x);
    ShiftSmall(y);
    if x >= 0 { DivShrinks(x, Pow2(y)); } else { DivNegative(x, Pow2(y)); }
  }

  lemma BinFoldExact(op: BinOp, a: Literal, b: Literal, round: Rounding)
    requires Exact(round) && BinGuard(op, a, b) && FoldBin(op, a, b, round).Some?
    ensures RawBin(op, LiteralValue(a), LiteralValue(b)) == Good(LiteralValue(FoldBin(op, a, b, round).value))
    ensures FoldBin(op, a, b, round).value.IntText? || FoldBin(op, a, b, round).value.BoolText?
  {
    if a.IntText? {
      assert round(a.n as real) == a.n as real && round(b.n as real) == b.n as real;
      IntFoldExact(op, a.n, b.n, round);
    }
  }

  lemma UnFoldExact(op: UnOp, lit: Literal, round: Rounding)
    requires Exact(round) && UnGuard(op, lit)
    ensures FoldUn(op, lit, round).Some? &&
            RawUn(op, LiteralValue(lit)) == Good(LiteralValue(FoldUn(op, lit, round).value))
    ensures FoldUn(op, lit, round).value.IntText? || FoldUn(op, lit, round).value.BoolText?
  {
    hide ToInt32;
    if lit.IntText? {
      assert round(lit.n as real) == lit.n as real;
      if op.BitNot? {
        ToInt32Small(lit.n);
        FoldWhole(op, lit, -lit.n - 1, round);
      } else {
        FoldWhole(op, lit, -lit.n, round);
      }
      hide FoldUn;
    }
  }

  lemma FoldWhole(op: UnOp, lit: Literal, n: int, round: Rounding)
    requires lit.IntText? && FoldUnary(op, round(lit.n as real)) == Num(n as real)
    ensures FoldUn(op, lit, round) == Some(IntText(n))
  {
    hide FoldUnary;
  }

  // ----- what a fold gives for constants of any type -----

  /** Truth values come out as text; any other result has the type of the first operand. */
  lemma FoldedType(op: BinOp, unop: UnOp, a: Literal, b: Literal, round: Rounding)
    ensures var r := FoldBin(op, a, b, round);
            r.Some? ==> if op in {Eq, Ne, Lt, Le, Gt, Ge} then r.value.BoolText? else BoolTyped(r.value) == BoolTyped(a)
    ensures var r := FoldUn(unop, a, round);
            r.Some? ==> if unop.Not? then r.value.BoolText? else BoolTyped(r.value) == BoolTyped(a)
  {
    hide ToInt32;
    hide ShiftCount;
    hide Pow2;
  }

  /** In arithmetic a truth value counts as 1 or 0; a fold takes a raw `true` for false, a prefix operator does not. */
  lemma TruthValuesCount(b: bool, round: Rounding)
    requires Exact(round)
    ensures FoldBin(Add, BoolText(b), IntText(0), round) == Some(BoolNumber(if b then 1.0 else 0.0))
    ensures FoldBin(Add, RawBool(b), IntText(0), round) == Some(BoolNumber(0.0))
    ensures FoldUn(Neg, RawBool(b), round) == Some(BoolNumber(if b then -1.0 else 0.0))
  {
    ExactAt(0, round);
    ExactAt(1, round);
  }

  /** Equality does not convert: a truth value is never equal to a number. */
  lemma MixedNeverEqual(a: Literal, b: Literal, round: Rounding)
    requires BoolTyped(a) != BoolTyped(b)
    ensures FoldBin(Eq, a, b, round) == Some(BoolText(false)) && FoldBin(Ne, a, b, round) == Some(BoolText(true))
  {
  }

  // ----- the guards are exact -----

  function Abs(r: real): real {
    if r < 0.0 then -r else r
  }

  /** 2^53. */
  const TWO53: real := 9007199254740992.0

  /** The quotients of two safe whole numbers other than zero are in this range. */
  predicate Quotient(q: real) {
    1.0 <= Abs(q) * TWO53 && Abs(q) <= TWO53
  }

  predicate Close(r: real, q: real) {
    Abs(r - q) * TWO53 <= Abs(q)
  }

  /** Rounding to the nearest double moves a quotient by at most its 2^53rd part. */
  ghost predicate Nearest(round: Rounding) {
    Exact(round) && forall q: real :: Quotient(q) ==> Close(round(q), q)
  }

  lemma ExactAt(n: int, round: Rounding)
    requires Exact(round) && Safe(n)
    ensures round(n as real) == n as real
  {
  }

  lemma RealMono(a: real, b: real, c: real)
    requires a <= b && c >= 0.0
    ensures a * c <= b * c
  {
    assert (b - a) * c >= 0.0;
  }

  lemma AbsTimes(a: real, b: real)
    ensures Abs(a * b) == Abs(a) * Abs(b)
  {
    assert (-a) * b == -(a * b) && a * (-b) == -(a * b) && (-a) * (-b) == a * b;
    if a >= 0.0 && b >= 0.0 { RealMono(0.0, a, b); }
    if a >= 0.0 && b < 0.0 { RealMono(0.0, a, -b); }
    if a < 0.0 && b >= 0.0 { RealMono(a, 0.0, b); }
    if a < 0.0 && b < 0.0 { RealMono(a, 0.0, -b); }
  }

  lemma AbsWhole(n: int)
    requires n != 0 && Safe(n)
    ensures 1.0 <= Abs(n as real) <= TWO53 - 1.0
  {
  }

  /** A quotient of whole numbers with a remainder is too far from every whole number to be rounded to one. */
  lemma NeverWhole(x: int, y: int, n: int, round: Rounding)
    requires Safe(x) && Safe(y) && y != 0 && x % y != 0 && Nearest(round)
    ensures round((x as real) / (y as real)) != n as real
  {
    assert (y as real) != 0.0;
    hide *;
    NotTheQuotient(x, y, n);
    AbsWhole(x);
    AbsWhole(y);
    NotNearby(x as real, y as real, n as real, round);
  }

  lemma NotTheQuotient(x: int, y: int, n: int)
    requires y != 0 && x % y != 0
    ensures x != 0 && Abs((n as real) * (y as real) - x as real) >= 1.0
  {
    ModProduct(n, y);
    AtLeastOne(x, y, n);
  }

  lemma NotNearby(a: real, b: real, n: real, round: Rounding)
    requires b != 0.0 && 1.0 <= Abs(a) <= TWO53 - 1.0 && 1.0 <= Abs(b) <= TWO53 - 1.0
    requires Abs(n * b - a) >= 1.0 && Nearest(round)
    ensures round(a / b) != n
  {
    var q := a / b;
    assert q * b == a;
    hide *;
    QuotientRange(a, b, q);
    NearAt(q, round);
    FarApart(a, b, n, q);
  }

  lemma NearAt(q: real, round: Rounding)
    requires Nearest(round) && Quotient(q)
    ensures Close(round(q), q)
  {
  }

  lemma AtLeastOne(x: int, y: int, n: int)
    requires n * y != x
    ensures Abs((n as real) * (y as real) - x as real) >= 1.0
  {
    MulReal(n, y);
  }

  lemma QuotientRange(a: real, b: real, q: real)
    requires q * b == a && 1.0 <= Abs(a) <= TWO53 && 1.0 <= Abs(b) <= TWO53
    ensures Quotient(q)
  {
    AbsTimes(q, b);
    Between(Abs(q), Abs(b), Abs(a), TWO53);
  }

  lemma Between(p: real, s: real, a: real, top: real)
    requires p >= 0.0 && p * s == a && 1.0 <= a <= top && 1.0 <= s <= top
    ensures 1.0 <= p * top && p <= top
  {
    RealMono(1.0, s, p);
    RealMono(s, top, p);
    assert s * p == a && top * p == p * top;
  }

  lemma FarApart(a: real, b: real, n: real, q: real)
    requires q * b == a && Abs(n * b - a) >= 1.0 && Abs(a) < TWO53
    ensures !Close(n, q)
  {
    AbsTimes(q, b);
    AbsTimes(n - q, b);
    assert (n - q) * b == n * b - a;
    Apart(Abs(n - q), Abs(q), Abs(b), TWO53);
  }

  lemma Apart(d: real, p: real, s: real, top: real)
    requires d * s >= 1.0 && p * s < top && s >= 0.0 && top > 0.0
    ensures d * top > p
  {
    if d * top <= p {
      RealMono(d * top, p, s);
      assert (d * top) * s == (d * s) * top;
      RealMono(1.0, d * s, top);
    }
  }

  /** Folding a quotient names the machine's quotient exactly when the division has no remainder; with
      a remainder the constant is a fraction. */
  lemma DivGuardIff(x: int, y: int, round: Rounding)
    requires Safe(x) && Safe(y) && y != 0 && Nearest(round)
    ensures FoldBin(Div, IntText(x), IntText(y), round) == Some(IntText(TruncDiv(x, y))) <==> x % y == 0
    ensures x % y != 0 ==> FoldBin(Div, IntText(x), IntText(y), round) ==
                           Some(FracText(round((x as real) / (y as real))))
  {
    assert round(x as real) == x as real && round(y as real) == y as real;
    FoldDiv(x, y, round);
    hide FoldBin;
    hide TruncDiv;
    if x % y == 0 {
      RealQuotient(x, y);
      TruncDivShrinks(x, y);
      ExactAt(TruncDiv(x, y), round);
    } else {
      NeverWhole(x, y, round((x as real) / (y as real)).Floor, round);
    }
  }

  lemma FoldDiv(x: int, y: int, round: Rounding)
    requires y != 0 && round(x as real) == x as real && round(y as real) == y as real
    ensures var r := round((x as real) / (y as real));
            FoldBin(Div, IntText(x), IntText(y), round) ==
            Some(if r == r.Floor as real then IntText(r.Floor) else FracText(r))
  {
  }

  /** The complement of a constant is folded in 32 bits, so it is right exactly when the operand has 32 bits. */
  lemma NotGuardIff(x: int, round: Rounding)
    requires Safe(x) && Exact(round)
    ensures FoldUn(BitNot, IntText(x), round) == Some(IntText(-x - 1)) <==> InInt32(x)
    ensures RawUn(BitNot, VInt(x)) == Good(VInt(-x - 1))
  {
    assert round(x as real) == x as real;
    FoldWhole(BitNot, IntText(x), -ToInt32(x as real) - 1, round);
    hide ToInt32;
    ToInt32Range(x as real);
    if InInt32(x) { ToInt32Small(x); }
  }

  /** The upper word of a number, with its sign, and the lower word as a signed number. */
  function UpperWord(x: int): int {
    x / 0x1_0000_0000
  }

  function LowerWord(x: int): int {
    (x + 0x8000_0000) % 0x1_0000_0000 - 0x8000_0000
  }

  /** Folding `>>` looks at the lower word alone and at the count modulo 32.  Below 32 that is right exactly
      when the operand has 32 bits; from 32 on, when the words agree from bit `y - 32` on. */
  predicate ShrAgrees(x: int, y: nat) {
    if y < 32 then InInt32(x) else UpperWord(x) / Pow2(y - 32) == LowerWord(x) / Pow2(y - 32)
  }

  lemma ShrGuardIff(x: int, y: int, round: Rounding)
    requires Safe(x) && 0 <= y < 64 && Exact(round)
    ensures FoldBin(Shr, IntText(x), IntText(y), round) == Some(IntText(x / Pow2(y))) <==> ShrAgrees(x, y)
    ensures RawInt(Shr, x, y) == Good(VInt(x / Pow2(y)))
  {
    assert Safe(y);
    hide *;
    RawShr(x, y);
    ExactAt(x, round);
    ExactAt(y, round);
    FoldShr(x, y, round);
    CountIs(y);
    LowerWordIs(x);
    WordsShifted(x, y);
  }

  lemma LowerWordIs(x: int)
    ensures ToInt32(x as real) == LowerWord(x)
  {
  }

  lemma CountIs(y: int)
    requires 0 <= y < 64
    ensures ShiftCount(y as real) == if y < 32 then y else y - 32
  {
    DivUnique(y, 32, if y < 32 then 0 else 1, if y < 32 then y else y - 32);
  }

  lemma WordsShifted(x: int, y: int)
    requires 0 <= y < 64
    ensures LowerWord(x) / Pow2(if y < 32 then y else y - 32) == x / Pow2(y) <==> ShrAgrees(x, y)
  {
    ShrAgreesIs(x, y);
    hide *;
    PowAt32();
    if y >= 32 {
      PowSum(32, y - 32);
      DivTwice(x, 0x1_0000_0000, Pow2(y - 32));
    } else {
      PowSum(y, 32 - y);
      LowerShifted(x, Pow2(y), Pow2(32 - y));
    }
  }

  lemma ShrAgreesIs(x: int, y: nat)
    ensures y < 32 ==> (ShrAgrees(x, y) <==> InInt32(x))
    ensures y >= 32 ==> (ShrAgrees(x, y) <==> (x / 0x1_0000_0000) / Pow2(y - 32) == LowerWord(x) / Pow2(y - 32))
  {
    hide Pow2;
    hide LowerWord;
  }

  lemma RawShr(x: int, y: int)
    requires Safe(x) && 0 <= y < 64
    ensures RawInt(Shr, x, y) == Good(VInt(x / Pow2(y)))
  {
    if x >= 0 { DivShrinks(x, Pow2(y)); } else { DivNegative(x, Pow2(y)); }
  }

  lemma FoldShr(x: int, y: int, round: Rounding)
    requires round(x as real) == x as real && round(y as real) == y as real
    ensures FoldBin(Shr, IntText(x), IntText(y), round) ==
            Some(IntText(ToInt32(x as real) / Pow2(ShiftCount(y as real))))
  {
    hide Pow2;
    hide ToInt32;
    hide ShiftCount;
  }

  /** The lower word shifted is the number shifted exactly when there is nothing above the lower word. */
  lemma LowerShifted(x: int, p: int, rest: int)
    requires p > 0 && rest > 0 && p * rest == 0x1_0000_0000
    ensures LowerWord(x) / p == x / p <==> InInt32(x)
  {
    var m := (x + 0x8000_0000) / 0x1_0000_0000;
    DivIs(x + 0x8000_0000, 0x1_0000_0000);
    assert LowerWord(x) == x - m * 0x1_0000_0000;
    assert m * 0x1_0000_0000 == m * rest * p;
    DivMinus(x, m * rest, p);
    assert LowerWord(x) / p == x / p - m * rest;
    if m > 0 { MulMono(1, m, rest); }
    if m < 0 { MulMono(m, -1, rest); }
    assert m == 0 <==> InInt32(x);
  }

  lemma ToInt32Range(r: real)
    ensures InInt32(ToInt32(r))
  {
    DivIs(Trunc(r) + 0x8000_0000, 0x1_0000_0000);
  }

  lemma {:induction false} PowGrows(k: nat, n: nat)
    requires k <= n
    ensures Pow2(k) <= Pow2(n)
  {
    if k < n { PowGrows(k, n - 1); }
  }

  /** Shifting left folds in 32 bits, so it names the machine's 64-bit result exactly when that is
      zero or the shift stays within 32 bits. */
  lemma ShlGuardIff(x: int, y: int, round: Rounding)
    requires Safe(x) && Safe(y) && 0 <= x && 0 <= y < 64 && Exact(round)
    ensures FoldBin(Shl, IntText(x), IntText(y), round) == Some(IntText(x * Pow2(y))) <==> x == 0 || IntGuard(Shl, x, y)
  {
    hide Pow2;
    hide ToInt32;
    hide ShiftCount;
    assert round(x as real) == x as real && round(y as real) == y as real;
    FoldShl(x, y, round);
    hide FoldBin;
    ToInt32Range((ToInt32(x as real) * Pow2(ShiftCount(y as real))) as real);
    if IntGuard(Shl, x, y) {
      ToInt32Small(x);
      ShiftSmall(y);
      ToInt32Small(x * Pow2(y));
    } else if x == 0 {
      ToInt32Small(0);
    } else {
      ShiftTooWide(x, y);
    }
  }

  lemma FoldShl(x: int, y: int, round: Rounding)
    requires round(x as real) == x as real && round(y as real) == y as real
    ensures FoldBin(Shl, IntText(x), IntText(y), round) ==
            Some(IntText(ToInt32((ToInt32(x as real) * Pow2(ShiftCount(y as real))) as real)))
  {
    hide Pow2;
    hide ToInt32;
    hide ShiftCount;
  }

  lemma ShiftTooWide(x: int, y: int)
    requires x > 0 && 0 <= y < 64 && !IntGuard(Shl, x, y)
    ensures !InInt32(x * Pow2(y))
  {
    hide Pow2;
    if y >= 32 {
      PowGrows(32, y);
      PowAt32();
      MulMono(Pow2(32), Pow2(y), x);
      MulMono(1, x, Pow2(32));
    }
  }

  lemma PowAt32()
    ensures Pow2(32) == 0x1_0000_0000
  {
    assert Pow2(4) == 16 && Pow2(8) == 256 && Pow2(12) == 4096 && Pow2(16) == 65536;
    assert Pow2(20) == 0x10_0000 && Pow2(24) == 0x100_0000 && Pow2(28) == 0x1000_0000;
  }

  /** `(7 / 2) * 2` is 6, but the folded quotient keeps its fraction and the product becomes 7. */
  lemma InexactQuotientMisleads(round: Rounding)
    requires Exact(round) && round(3.5) == 3.5
    ensures FoldBin(Div, IntText(7), IntText(2), round) == Some(FracText(3.5))
    ensures FoldBin(Mul, FracText(3.5), IntText(2), round) == Some(IntText(7))
    ensures RawInt(Div, 7, 2) == Good(VInt(3)) && RawInt(Mul, 3, 2) == Good(VInt(6))
  {
    ExactAt(7, round);
    ExactAt(2, round);
  }

  /** A selection on a constant takes the right arm exactly when the constant is not a raw `true`:
      the source literal `true` is one. */
  lemma SelectGuardIff(cond: Literal)
    requires cond.BoolText? || cond.RawBool?
    ensures (cond == BoolText(true)) == LiteralValue(cond).b <==> PlainBool(cond)
  {
  }

  // ----- the constants are right in every run -----

  ghost predicate Known(cst: Constants, regs: Regs) {
    forall x :: x in cst ==> x in regs && regs[x] == LiteralValue(cst[x])
  }

  lemma KnownWithout(cst: Constants, names: set<Name>, regs: Regs, later: Regs)
    requires Known(cst, regs) && forall x :: x in regs && x !in names ==> x in later && later[x] == regs[x]
    ensures Known(Without(cst, names), later)
  {
  }

  lemma KnownWrite(cst: Constants, dst: Name, lit: Literal, regs: Regs)
    requires Known(cst, regs)
    ensures Known(cst[dst := lit], regs[dst := LiteralValue(lit)])
  {
  }

  lemma KnownCopy(cst: Constants, dst: Name, src: Name, regs: Regs)
    requires Known(cst, regs) && src in regs
    ensures Known(CopyConstant(cst, dst, src), regs[dst := regs[src]])
  {
  }

  ghost predicate Runs(x: Flow, y: Flow, cst1: Constants, regs: Regs) {
    x == Stop(Trapped(Undefined)) ||
    (y == x && (x.Next? ==> Known(cst1, x.regs)) &&
     (x.Enter? ==> Known(cst1, regs) && x.dst !in cst1))
  }

  /** One instruction and its replacement. */
  lemma PropStep(i: Instr, cst: Constants, round: Rounding, regs: Regs)
    requires Exact(round) && GuardOne(i, cst, round) && Known(cst, regs)
    ensures var (j, cst1) := PropOne(i, cst, round); Runs(Step(i, regs), Step(j, regs), cst1, regs)
  {
    match i {
      case Const(dst, lit) => KnownWrite(cst, dst, lit, regs);
      case Copy(dst, src) => if src in regs { KnownCopy(cst, dst, src, regs); }
      case Unary(_, _, _) => PropUnary(i, cst, round, regs);
      case Bin(_, _, _, _) => PropBin(i, cst, round, regs);
      case Select(_, _, _, _) => PropSelect(i, cst, round, regs);
      case _ => PropOther(i, cst, round, regs);
    }
  }

  lemma PropUnary(i: Instr, cst: Constants, round: Rounding, regs: Regs)
    requires Exact(round) && GuardOne(i, cst, round) && Known(cst, regs) && i.Unary?
    ensures var (j, cst1) := PropOne(i, cst, round); Runs(Step(i, regs), Step(j, regs), cst1, regs)
  {
    hide FoldUn;
    hide UnGuard;
    hide RawUn;
    if i.src in cst && FoldUn(i.unop, cst[i.src], round).Some? {
      UnFoldExact(i.unop, cst[i.src], round);
      KnownWrite(cst, i.dst, FoldUn(i.unop, cst[i.src], round).value, regs);
    } else if Step(i, regs).Next? {
      KnownWithout(cst, {i.dst}, regs, Step(i, regs).regs);
    }
  }

  lemma PropBin(i: Instr, cst: Constants, round: Rounding, regs: Regs)
    requires Exact(round) && GuardOne(i, cst, round) && Known(cst, regs) && i.Bin?
    ensures var (j, cst1) := PropOne(i, cst, round); Runs(Step(i, regs), Step(j, regs), cst1, regs)
  {
    hide FoldBin;
    hide BinGuard;
    hide RawBin;
    if i.left in cst && i.right in cst && FoldBin(i.op, cst[i.left], cst[i.right], round).Some? {
      BinFoldExact(i.op, cst[i.left], cst[i.right], round);
      KnownWrite(cst, i.dst, FoldBin(i.op, cst[i.left], cst[i.right], round).value, regs);
    } else if Step(i, regs).Next? {
      KnownWithout(cst, {i.dst}, regs, Step(i, regs).regs);
    }
  }

  /** Reading an arm that was never written is undefined even if the other arm is taken. */
  lemma PropSelect(i: Instr, cst: Constants, round: Rounding, regs: Regs)
    requires GuardOne(i, cst, round) && Known(cst, regs) && i.Select?
    ensures var (j, cst1) := PropOne(i, cst, round); Runs(Step(i, regs), Step(j, regs), cst1, regs)
  {
    if {i.cond, i.thenValue, i.elseValue} <= regs.Keys {
      if i.cond in cst {
        var src := if cst[i.cond] == BoolText(true) then i.thenValue else i.elseValue;
        KnownCopy(cst, i.dst, src, regs);
      } else if regs[i.cond].VBool? {
        KnownWithout(cst, {i.dst}, regs, Step(i, regs).regs);
      }
    }
  }

  lemma PropOther(i: Instr, cst: Constants, round: Rounding, regs: Regs)
    requires GuardOne(i, cst, round) && Known(cst, regs) && !(i.Const? || i.Copy? || i.Unary? || i.Bin? || i.Select?)
    ensures var (j, cst1) := PropOne(i, cst, round); Runs(Step(i, regs), Step(j, regs), cst1, regs)
  {
    var x := Step(i, regs);
    if x.Next? {
      if i.LoadVar? { KnownWithout(cst, {i.dst}, regs, x.regs); }
    } else if x.Enter? {
      KnownWithout(cst, {i.dst}, regs, regs);
    }
  }

  lemma PropUnfold(code: seq<Instr>, cst: Constants, round: Rounding)
    requires code != []
    ensures var (j, cst1) := PropOne(code[0], cst, round);
            Prop(code, cst, round) == [j] + Prop(code[1..], cst1, round) &&
            (Guards(code, cst, round) ==> GuardOne(code[0], cst, round) && Guards(code[1..], cst1, round))
  {
    hide PropOne;
    hide GuardOne;
  }

  /** A run of the rewritten block ends as the run of the original, with the same fuel, unless the
      original is undefined. */
  lemma {:induction false} PropRuns(m: Module, f: Function, code: seq<Instr>, cst: Constants, round: Rounding,
                                    regs: Regs, fuel: nat)
    requires Exact(round) && GuardedModule(m, round) && GuardedFunction(f, round) && Guards(code, cst, round) &&
             Known(cst, regs)
    ensures var o := RunCode(m, f, code, regs, fuel);
            o == Trapped(Undefined) ||
            RunCode(PropModule(m, round), PropFunction(f, round), Prop(code, cst, round), regs, fuel) == o
    decreases fuel, 0, |code|
  {
    hide *;
    if code == [] {
      PropNothing(m, f, cst, round, regs, fuel);
    } else {
      var m', f', rest := PropModule(m, round), PropFunction(f, round), code[1..];
      var (j, cst1) := PropOne(code[0], cst, round);
      var x := Step(code[0], regs);
      PropUnfold(code, cst, round);
      PropStep(code[0], cst, round, regs);
      RunsParts(x, Step(j, regs), cst1, regs);
      RunCodeStep(m, f, code, regs, fuel);
      var rest' := Prop(rest, cst1, round);
      assert ([j] + rest')[1..] == rest';
      RunCodeStep(m', f', [j] + rest', regs, fuel);
      if x.Next? {
        PropRuns(m, f, rest, cst1, round, x.regs, fuel);
      } else if x.Goto? && fuel > 0 {
        PropLabel(m, f, x.target, round, regs, fuel - 1);
      } else if x.Enter? && fuel > 0 {
        PropCall(m, x.callee, x.args, round, fuel - 1);
        var o := Call(m, x.callee, x.args, fuel - 1);
        CallFlowStep(m, f, rest, regs, x.dst, o, fuel);
        CallFlowStep(m', f', rest', regs, x.dst, o, fuel);
        if o.Returned? {
          KnownCall(cst1, regs, x.dst, o.value);
          PropRuns(m, f, rest, cst1, round, regs[x.dst := o.value], fuel);
        } else if o.ReturnedVoid? {
          PropRuns(m, f, rest, cst1, round, regs, fuel);
        }
      }
    }
  }

  lemma RunsParts(x: Flow, y: Flow, cst1: Constants, regs: Regs)
    requires Runs(x, y, cst1, regs)
    ensures x != Stop(Trapped(Undefined)) ==> y == x
    ensures x.Next? ==> Known(cst1, x.regs)
    ensures x.Enter? ==> Known(cst1, regs) && x.dst !in cst1
  {
    hide Known;
  }

  lemma KnownCall(cst: Constants, regs: Regs, dst: Name, v: Value)
    requires Known(cst, regs) && dst !in cst
    ensures Known(cst, regs[dst := v])
  {
  }

  lemma PropNothing(m: Module, f: Function, cst: Constants, round: Rounding, regs: Regs, fuel: nat)
    ensures RunCode(PropModule(m, round), PropFunction(f, round), Prop([], cst, round), regs, fuel) ==
            RunCode(m, f, [], regs, fuel)
  {
  }

  lemma PropLabel(m: Module, f: Function, l: Label, round: Rounding, regs: Regs, fuel: nat)
    requires Exact(round) && GuardedModule(m, round) && GuardedFunction(f, round)
    ensures var o := RunLabel(m, f, l, regs, fuel);
            o == Trapped(Undefined) || RunLabel(PropModule(m, round), PropFunction(f, round), l, regs, fuel) == o
    decreases fuel, 2
  {
    SameFind(f.blocks, PropFunction(f, round).blocks, l);
    PropBlock(m, f, FindLabel(f.blocks, l), round, regs, fuel);
  }

  lemma PropBlock(m: Module, f: Function, b: nat, round: Rounding, regs: Regs, fuel: nat)
    requires Exact(round) && GuardedModule(m, round) && GuardedFunction(f, round)
    ensures var o := RunBlock(m, f, b, regs, fuel);
            o == Trapped(Undefined) || RunBlock(PropModule(m, round), PropFunction(f, round), b, regs, fuel) == o
    decreases fuel, 1
  {
    if b < |f.blocks| { PropRuns(m, f, f.blocks[b].instrs, map[], round, regs, fuel); }
  }

  /** Calls that are defined end as before. */
  lemma PropCall(m: Module, callee: string, args: seq<Value>, round: Rounding, fuel: nat)
    requires Exact(round) && GuardedModule(m, round)
    ensures var o := Call(m, callee, args, fuel);
            o == Trapped(Undefined) || Call(PropModule(m, round), callee, args, fuel) == o
    decreases fuel, 2
  {
    if callee in m && |args| == |m[callee].params| {
      CallIsRunBlock(m, callee, args, fuel);
      CallIsRunBlock(PropModule(m, round), callee, args, fuel);
      PropBlock(m, m[callee], 0, round, Bind(m[callee].params, args), fuel);
    }
  }

  // ----- the invariant by itself -----

  /** The constants known after `code`. */
  function After(code: seq<Instr>, cst: Constants, round: Rounding): Constants
    decreases |code|
  {
    if code == [] then cst else After(code[1..], PropOne(code[0], cst, round).1, round)
  }

  /** At every point of a block, every name in the constant map holds that constant in every run. */
  lemma {:induction false} ConstantsHold(m: Module, code: seq<Instr>, cst: Constants, round: Rounding, regs: Regs,
                                         fuel: nat)
    requires Exact(round) && Guards(code, cst, round) && Known(cst, regs) && Through(m, code, regs, fuel).Some?
    ensures Known(After(code, cst, round), Through(m, code, regs, fuel).value)
    decreases |code|
  {
    hide Step;
    hide PropOne;
    hide GuardOne;
    hide Known;
    hide Runs;
    hide Call;
    if code != [] {
      var (j, cst1) := PropOne(code[0], cst, round);
      PropStep(code[0], cst, round, regs);
      RunsParts(Step(code[0], regs), Step(j, regs), cst1, regs);
      match Step(code[0], regs) {
        case Next(regs1) => ConstantsHold(m, code[1..], cst1, round, regs1, fuel);
        case Enter(dst, callee, args) =>
          match Call(m, callee, args, fuel - 1) {
            case Returned(v) =>
              KnownCall(cst1, regs, dst, v);
              ConstantsHold(m, code[1..], cst1, round, regs[dst := v], fuel);
            case ReturnedVoid => ConstantsHold(m, code[1..], cst1, round, regs, fuel);
            case _ =>
          }
        case _ =>
      }
    }
  }

  // ----- the pass keeps what the next one needs -----

  lemma PropOneShape(i: Instr, cst: Constants, round: Rounding)
    ensures var j := PropOne(i, cst, round).0; Written(j) == Written(i) && Guarded(j) == Guarded(i)
  {
  }

  lemma {:induction false} PropStable(code: seq<Instr>, cst: Constants, round: Rounding, guarded: set<Name>)
    requires Stable(code, guarded)
    ensures Stable(Prop(code, cst, round), guarded)
    decreases |code|
  {
    hide PropOne;
    hide Written;
    hide Guarded;
    if code != [] {
      var (j, cst1) := PropOne(code[0], cst, round);
      PropOneShape(code[0], cst, round);
      PropStable(code[1..], cst1, round, guarded + Guarded(code[0]));
      assert ([j] + Prop(code[1..], cst1, round))[1..] == Prop(code[1..], cst1, round);
    }
  }

  // ----- the loop over the instructions -----

  method PropInstrs(instrs: seq<Instr>, round: Rounding) returns (out: seq<Instr>)
    ensures out == Prop(instrs, map[], round)
  {
    out := [];
    var cst: Constants := map[];
    var k := 0;
    assert instrs[0..] == instrs;
    while k < |instrs|
      invariant k <= |instrs|
      invariant out + Prop(instrs[k..], cst, round) == Prop(instrs, map[], round)
    {
      hide *;
      var (j, cst1) := PropOne(instrs[k], cst, round);
      assert instrs[k..][1..] == instrs[k + 1..];
      PropUnfold(instrs[k..], cst, round);
      out, cst, k := out + [j], cst1, k + 1;
    }
  }
}
