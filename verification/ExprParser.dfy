/** The layered expression parser, and the grammar that it accepts. */
module ExprParser {

  // ----- tokens and trees -----

  datatype Sym =
    | LParen | RParen | LBracket | RBracket | LBrace | RBrace | Comma | Dot | Question | Colon
    | Inc | Dec | Bang | Tilde | Plus | Minus | Pipe | Caret | Star | Slash | Percent | Amp
    | ShiftLeft | ShiftRight | EqEq | NotEq | Less | LessEq | Greater | GreaterEq | AndAnd | OrOr

  datatype Keyword = KInt | KFloat | KByte | KTrue | KFalse | KSelf | KSuper | KOther(text: string)

  datatype Token = TNum(text: string) | TStr(text: string) | TId(text: string) | TKw(kw: Keyword) | TSym(sym: Sym)

  type Tokens = seq<Token>

  datatype Ast =
    | Atom(token: Token)
    | ListLit(items: seq<Ast>)
    | MapLit(pairs: seq<Pair>)
    | Call(callee: Ast, args: seq<Ast>)
    | Index(target: Ast, index: Ast)
    | MemberOf(target: Ast, name: Token)
    | Postfix(op: Sym, arg: Ast)
    | Unary(op: Sym, arg: Ast)
    | Cast(ty: Keyword, arg: Ast)
    | Binary(op: Sym, left: Ast, right: Ast)
    | Conditional(cond: Ast, yes: Ast, no: Ast)

  datatype Pair = Pair(key: Ast, value: Ast)

  // ----- levels: 0 conditional, 1 to 7 the operator chains, 8 unary, 9 postfix, 10 primary -----

  /** The level of a binary operator, or 0. */
  function OpLevel(s: Sym): (n: nat)
    ensures n <= 7
  {
    match s
    case OrOr => 1
    case AndAnd => 2
    case Less => 3
    case LessEq => 3
    case Greater => 3
    case GreaterEq => 3
    case EqEq => 4
    case NotEq => 4
    case ShiftLeft => 5
    case ShiftRight => 5
    case Plus => 6
    case Minus => 6
    case Pipe => 6
    case Caret => 6
    case Star => 7
    case Slash => 7
    case Percent => 7
    case Amp => 7
    case _ => 0
  }

  predicate IsPrefix(s: Sym) {
    s == Bang || s == Tilde || s == Minus || s == Inc || s == Dec
  }

  predicate IsCastType(k: Keyword) {
    k == KInt || k == KFloat || k == KByte
  }

  predicate IsAtom(t: Token) {
    t.TNum? || t.TStr? || t.TId? || t == TKw(KTrue) || t == TKw(KFalse) || t == TKw(KSelf) || t == TKw(KSuper)
  }

  predicate At(ts: Tokens, s: Sym) {
    ts != [] && ts[0] == TSym(s)
  }

  // ----- the parser -----

  datatype Parsed<+T> = Done(value: T, rest: Tokens) | Fail

  function Parse(level: nat, ts: Tokens): (r: Parsed<Ast>)
    requires level <= 10
    ensures r.Done? ==> |r.rest| < |ts|
    decreases |ts|, 12 - level, 0
  {
    if level == 0 then
      match Parse(1, ts)
      case Fail => Fail
      case Done(c, r) => ParseArms(c, r)
    else if level <= 7 then
      match Parse(level + 1, ts)
      case Fail => Fail
      case Done(left, r) => ParseChain(level, left, r)
    else if level == 8 then
      if |ts| >= 2 && At(ts, LParen) && ts[1].TKw? && IsCastType(ts[1].kw) then
        if !At(ts[2..], RParen) then Fail
        else
          match Parse(8, ts[3..])
          case Fail => Fail
          case Done(arg, r) => Done(Cast(ts[1].kw, arg), r)
      else if ts != [] && ts[0].TSym? && IsPrefix(ts[0].sym) then
        match Parse(9, ts[1..])
        case Fail => Fail
        case Done(arg, r) => Done(Unary(ts[0].sym, arg), r)
      else Parse(9, ts)
    else if level == 9 then
      match Parse(10, ts)
      case Fail => Fail
      case Done(e, r) => ParsePostfix(e, r)
    else if ts == [] then Fail
    else if IsAtom(ts[0]) then Done(Atom(ts[0]), ts[1..])
    else if At(ts, LParen) then
      match Parse(0, ts[1..])
      case Fail => Fail
      case Done(e, r) => if At(r, RParen) then Done(e, r[1..]) else Fail
    else if At(ts, LBracket) then
      match ParseList(ts[1..], RBracket)
      case Fail => Fail
      case Done(items, r) => Done(ListLit(items), r)
    else if At(ts, LBrace) then
      match ParseMap(ts[1..])
      case Fail => Fail
      case Done(pairs, r) => Done(MapLit(pairs), r)
    else Fail
  }

  /** What follows a condition. */
  function ParseArms(c: Ast, ts: Tokens): (r: Parsed<Ast>)
    ensures r.Done? ==> |r.rest| <= |ts|
    decreases |ts|, 13, 0
  {
    if !At(ts, Question) then Done(c, ts)
    else
      match Parse(0, ts[1..])
      case Fail => Fail
      case Done(a, r) =>
        if !At(r, Colon) then Fail
        else
          match Parse(0, r[1..])
          case Fail => Fail
          case Done(b, r2) => Done(Conditional(c, a, b), r2)
  }

  /** `parse_bin_chain` after its first operand: operators of one level nest to the left. */
  function ParseChain(level: nat, left: Ast, ts: Tokens): (r: Parsed<Ast>)
    requires 1 <= level <= 7
    ensures r.Done? ==> |r.rest| <= |ts|
    decreases |ts|, 13, 1
  {
    if ts == [] || !ts[0].TSym? || OpLevel(ts[0].sym) != level then Done(left, ts)
    else
      match Parse(level + 1, ts[1..])
      case Fail => Fail
      case Done(right, r) => ParseChain(level, Binary(ts[0].sym, left, right), r)
  }

  function ParsePostfix(e: Ast, ts: Tokens): (r: Parsed<Ast>)
    ensures r.Done? ==> |r.rest| <= |ts|
    decreases |ts|, 13, 1
  {
    if At(ts, LParen) then
      match ParseList(ts[1..], RParen)
      case Fail => Fail
      case Done(args, r) => ParsePostfix(Call(e, args), r)
    else if At(ts, LBracket) then
      match Parse(0, ts[1..])
      case Fail => Fail
      case Done(index, r) => if At(r, RBracket) then ParsePostfix(Index(e, index), r[1..]) else Fail
    else if At(ts, Dot) then
      if |ts| >= 2 && (ts[1].TId? || ts[1].TKw?) then ParsePostfix(MemberOf(e, ts[1]), ts[2..]) else Fail
    else if At(ts, Inc) || At(ts, Dec) then ParsePostfix(Postfix(ts[0].sym, e), ts[1..])
    else Done(e, ts)
  }

  /** Expressions separated by commas, up to the closing symbol. */
  function ParseList(ts: Tokens, close: Sym): (r: Parsed<seq<Ast>>)
    ensures r.Done? ==> |r.rest| < |ts|
    decreases |ts|, 13, 1
  {
    if At(ts, close) then Done([], ts[1..]) else ParseItems(ts, close)
  }

  function ParseItems(ts: Tokens, close: Sym): (r: Parsed<seq<Ast>>)
    ensures r.Done? ==> |r.rest| < |ts|
    decreases |ts|, 13, 0
  {
    match Parse(0, ts)
    case Fail => Fail
    case Done(e, r) =>
      if At(r, Comma) then
        match ParseItems(r[1..], close)
        case Fail => Fail
        case Done(more, r2) => Done([e] + more, r2)
      else if At(r, close) then Done([e], r[1..])
      else Fail
  }

  /** Keys and values up to the closing brace. */
  function ParseMap(ts: Tokens): (r: Parsed<seq<Pair>>)
    ensures r.Done? ==> |r.rest| < |ts|
    decreases |ts|, 13, 2
  {
    if At(ts, RBrace) then Done([], ts[1..]) else ParsePairs(ts)
  }

  function ParsePairs(ts: Tokens): (r: Parsed<seq<Pair>>)
    ensures r.Done? ==> |r.rest| < |ts|
    decreases |ts|, 13, 1
  {
    match ParsePair(ts)
    case Fail => Fail
    case Done(p, r) =>
      if At(r, Comma) then
        match ParsePairs(r[1..])
        case Fail => Fail
        case Done(more, r2) => Done([p] + more, r2)
      else if At(r, RBrace) then Done([p], r[1..])
      else Fail
  }

  function ParsePair(ts: Tokens): (r: Parsed<Pair>)
    ensures r.Done? ==> |r.rest| < |ts|
    decreases |ts|, 13, 0
  {
    match Parse(0, ts)
    case Fail => Fail
    case Done(k, r) =>
      if !At(r, Colon) then Fail
      else
        match Parse(0, r[1..])
        case Fail => Fail
        case Done(v, r2) => Done(Pair(k, v), r2)
  }

  // ----- the grammar -----

  /** The binary operators, the loosest row first. */
  const ROWS: seq<set<Sym>> := [
    {OrOr}, {AndAnd}, {Less, LessEq, Greater, GreaterEq}, {EqEq, NotEq}, {ShiftLeft, ShiftRight},
    {Plus, Minus, Pipe, Caret}, {Star, Slash, Percent, Amp}]
  const PREFIXES: set<Sym> := {Bang, Tilde, Minus, Inc, Dec}
  const POSTFIXES: set<Sym> := {Inc, Dec}
  const CASTS: set<Keyword> := {KInt, KFloat, KByte}
  const WORDS: set<Keyword> := {KTrue, KFalse, KSelf, KSuper}

  /** The row of an operator, counted from 1; 0 for other symbols. */
  function Row(s: Sym): (n: nat)
    ensures n <= 7
    ensures n > 0 ==> s in ROWS[n - 1]
  {
    RowFrom(s, 0)
  }

  function RowFrom(s: Sym, i: nat): (n: nat)
    requires i <= 7
    ensures n <= 7
    ensures n > 0 ==> s in ROWS[n - 1]
    decreases 7 - i
  {
    if i == 7 then 0 else if s in ROWS[i] then i + 1 else RowFrom(s, i + 1)
  }

  /** An expression as it is written, redundant parentheses included. */
  datatype Cst =
    | CAtom(token: Token)
    | CParen(inner: Cst)
    | CList(items: seq<Cst>)
    | CMap(pairs: seq<CPair>)
    | CCall(callee: Cst, args: seq<Cst>)
    | CIndex(target: Cst, index: Cst)
    | CMember(target: Cst, name: Token)
    | CPostfix(op: Sym, arg: Cst)
    | CUnary(op: Sym, arg: Cst)
    | CCast(ty: Keyword, arg: Cst)
    | CBinary(op: Sym, left: Cst, right: Cst)
    | CCond(cond: Cst, yes: Cst, no: Cst)

  datatype CPair = CPair(key: Cst, value: Cst)

  /** Which nonterminal of the grammar writes it, the loosest first: 0 is an expression, 10 a primary. */
  function LevelOf(d: Cst): (n: nat)
    ensures n <= 10
  {
    match d
    case CCond(_, _, _) => 0
    case CBinary(op, _, _) => Row(op)
    case CUnary(_, _) => 8
    case CCast(_, _) => 8
    case CCall(_, _) => 9
    case CIndex(_, _) => 9
    case CMember(_, _) => 9
    case CPostfix(_, _) => 9
    case _ => 10
  }

  /** Every operand is of a nonterminal that its production allows: an operator's left operand may be a chain of
      the same row, its right operand is tighter; prefix operators apply to postfix expressions, casts to unary ones. */
  predicate Grammatical(d: Cst)
    decreases d, 0
  {
    match d
    case CAtom(t) => t.TNum? || t.TStr? || t.TId? || (t.TKw? && t.kw in WORDS)
    case CParen(inner) => Grammatical(inner)
    case CList(items) => AllGrammatical(items)
    case CMap(pairs) => PairsGrammatical(pairs)
    case CCall(f, args) => Grammatical(f) && LevelOf(f) >= 9 && AllGrammatical(args)
    case CIndex(a, i) => Grammatical(a) && LevelOf(a) >= 9 && Grammatical(i)
    case CMember(a, name) => Grammatical(a) && LevelOf(a) >= 9 && (name.TId? || name.TKw?)
    case CPostfix(op, a) => op in POSTFIXES && Grammatical(a) && LevelOf(a) >= 9
    case CUnary(op, a) => op in PREFIXES && Grammatical(a) && LevelOf(a) >= 9
    case CCast(ty, a) => ty in CASTS && Grammatical(a) && LevelOf(a) >= 8
    case CBinary(op, l, r) =>
      Row(op) > 0 && Grammatical(l) && LevelOf(l) >= Row(op) && Grammatical(r) && LevelOf(r) > Row(op)
    case CCond(c, a, b) => Grammatical(c) && LevelOf(c) >= 1 && Grammatical(a) && Grammatical(b)
  }

  predicate AllGrammatical(items: seq<Cst>)
    decreases items, 0
  {
    items == [] || (Grammatical(items[0]) && AllGrammatical(items[1..]))
  }

  predicate PairsGrammatical(pairs: seq<CPair>)
    decreases pairs, 0
  {
    pairs == [] || (PairGrammatical(pairs[0]) && PairsGrammatical(pairs[1..]))
  }

  predicate PairGrammatical(p: CPair)
    decreases p, 1
  {
    Grammatical(p.key) && Grammatical(p.value)
  }

  function Text(d: Cst): Tokens
    decreases d, 0
  {
    match d
    case CAtom(t) => [t]
    case CParen(inner) => [TSym(LParen)] + (Text(inner) + [TSym(RParen)])
    case CList(items) => [TSym(LBracket)] + TextList(items, RBracket)
    case CMap(pairs) => [TSym(LBrace)] + TextPairs(pairs)
    case CCall(f, args) => Text(f) + ([TSym(LParen)] + TextList(args, RParen))
    case CIndex(a, i) => Text(a) + ([TSym(LBracket)] + (Text(i) + [TSym(RBracket)]))
    case CMember(a, name) => Text(a) + [TSym(Dot), name]
    case CPostfix(op, a) => Text(a) + [TSym(op)]
    case CUnary(op, a) => [TSym(op)] + Text(a)
    case CCast(ty, a) => [TSym(LParen), TKw(ty), TSym(RParen)] + Text(a)
    case CBinary(op, l, r) => Text(l) + ([TSym(op)] + Text(r))
    case CCond(c, a, b) => Text(c) + ([TSym(Question)] + (Text(a) + ([TSym(Colon)] + Text(b))))
  }

  /** With commas between, and the closing symbol. */
  function TextList(items: seq<Cst>, close: Sym): Tokens
    decreases items, 0
  {
    if items == [] then [TSym(close)]
    else if |items| == 1 then Text(items[0]) + [TSym(close)]
    else Text(items[0]) + ([TSym(Comma)] + TextList(items[1..], close))
  }

  function TextPairs(pairs: seq<CPair>): Tokens
    decreases pairs, 0
  {
    if pairs == [] then [TSym(RBrace)]
    else if |pairs| == 1 then TextPair(pairs[0]) + [TSym(RBrace)]
    else TextPair(pairs[0]) + ([TSym(Comma)] + TextPairs(pairs[1..]))
  }

  function TextPair(p: CPair): Tokens
    decreases p, 1
  {
    Text(p.key) + ([TSym(Colon)] + Text(p.value))
  }

  /** The tree that is meant: without the parentheses. */
  function TreeOf(d: Cst): Ast
    decreases d, 0
  {
    match d
    case CAtom(t) => Atom(t)
    case CParen(inner) => TreeOf(inner)
    case CList(items) => ListLit(TreesOf(items))
    case CMap(pairs) => MapLit(PairTrees(pairs))
    case CCall(f, args) => Call(TreeOf(f), TreesOf(args))
    case CIndex(a, i) => Index(TreeOf(a), TreeOf(i))
    case CMember(a, name) => MemberOf(TreeOf(a), name)
    case CPostfix(op, a) => Postfix(op, TreeOf(a))
    case CUnary(op, a) => Unary(op, TreeOf(a))
    case CCast(ty, a) => Cast(ty, TreeOf(a))
    case CBinary(op, l, r) => Binary(op, TreeOf(l), TreeOf(r))
    case CCond(c, a, b) => Conditional(TreeOf(c), TreeOf(a), TreeOf(b))
  }

  function TreesOf(items: seq<Cst>): seq<Ast>
    decreases items, 0
  {
    if items == [] then [] else [TreeOf(items[0])] + TreesOf(items[1..])
  }

  function PairTrees(pairs: seq<CPair>): seq<Pair>
    decreases pairs, 0
  {
    if pairs == [] then [] else [PairTree(pairs[0])] + PairTrees(pairs[1..])
  }

  function PairTree(p: CPair): Pair
    decreases p, 1
  {
    Pair(TreeOf(p.key), TreeOf(p.value))
  }

  // ----- the tables of the parser are those of the grammar -----

  lemma InRow(s: Sym, k: nat)
    requires k < 7
    ensures s in ROWS[k] <==> OpLevel(s) == k + 1
  {
    if k == 0 { assert ROWS[k] == {OrOr}; }
    else if k == 1 { assert ROWS[k] == {AndAnd}; }
    else if k == 2 { assert ROWS[k] == {Less, LessEq, Greater, GreaterEq}; }
    else if k == 3 { assert ROWS[k] == {EqEq, NotEq}; }
    else if k == 4 { assert ROWS[k] == {ShiftLeft, ShiftRight}; }
    else if k == 5 { assert ROWS[k] == {Plus, Minus, Pipe, Caret}; }
    else { assert ROWS[k] == {Star, Slash, Percent, Amp}; }
  }

  lemma LevelIsRow(s: Sym)
    ensures OpLevel(s) == Row(s)
  {
    hide OpLevel;
    forall k | 0 <= k < 7
      ensures s in ROWS[k] <==> OpLevel(s) == k + 1
    {
      InRow(s, k);
    }
    RowFound(s, 0, OpLevel(s));
  }

  lemma {:induction false} RowFound(s: Sym, i: nat, n: nat)
    requires i <= 7 && n <= 7 && forall k :: 0 <= k < 7 ==> (s in ROWS[k] <==> n == k + 1)
    ensures RowFrom(s, i) == if n > i then n else 0
    decreases 7 - i
  {
    if i < 7 { RowFound(s, i + 1, n); }
  }

  lemma TablesAgree()
    ensures forall s: Sym :: IsPrefix(s) <==> s in PREFIXES
    ensures forall k: Keyword :: IsCastType(k) <==> k in CASTS
    ensures forall t: Token :: IsAtom(t) <==> t.TNum? || t.TStr? || t.TId? || (t.TKw? && t.kw in WORDS)
  {
  }

  // ----- what may follow -----

  /** A token that would extend an expression parsed at `level`. */
  predicate Continues(level: nat, t: Token) {
    t.TSym? &&
    ((level <= 7 && OpLevel(t.sym) > 0 && OpLevel(t.sym) >= level) || (level == 0 && t.sym == Question) ||
     (level <= 9 && (t.sym == LParen || t.sym == LBracket || t.sym == Dot || t.sym == Inc || t.sym == Dec)))
  }

  predicate Stops(level: nat, ts: Tokens) {
    ts == [] || !Continues(level, ts[0])
  }

  // ----- how printed expressions start -----

  predicate CastAhead(ts: Tokens) {
    |ts| >= 2 && At(ts, LParen) && ts[1].TKw? && IsCastType(ts[1].kw)
  }

  predicate PrefixAhead(ts: Tokens) {
    ts != [] && ts[0].TSym? && IsPrefix(ts[0].sym)
  }

  /** Not a closing symbol, not a comma, not a cast type. */
  predicate Begins(ts: Tokens) {
    ts != [] && ts[0] != TSym(RParen) && ts[0] != TSym(RBracket) && ts[0] != TSym(RBrace) &&
    !(ts[0].TKw? && IsCastType(ts[0].kw))
  }

  lemma {:induction false} TextBegins(d: Cst, rest: Tokens)
    requires Grammatical(d)
    ensures var ts := Text(d) + rest;
            Begins(ts) &&
            (LevelOf(d) >= 9 ==>
               !PrefixAhead(ts) && (ts[0] == TSym(LParen) ==> |Text(d)| >= 2) && !CastAhead(ts))
    decreases d
  {
    if d.CAtom? || d.CList? || d.CMap? || d.CUnary? || d.CCast? {
      OwnBegins(d, rest);
    } else if d.CParen? {
      TextBegins(d.inner, [TSym(RParen)] + rest);
      hide Text;
      hide Grammatical;
      ParenText(d.inner, rest);
    } else {
      var a := Leftmost(d);
      LeftmostIs(d);
      LeftFirst(a, Text(d), rest);
      hide Text;
      hide Grammatical;
      hide LevelOf;
      hide Leftmost;
      TextBegins(a, Text(d)[|Text(a)|..] + rest);
    }
  }

  lemma OwnBegins(d: Cst, rest: Tokens)
    requires Grammatical(d) && (d.CAtom? || d.CList? || d.CMap? || d.CUnary? || d.CCast?)
    ensures var ts := Text(d) + rest;
            Begins(ts) && (LevelOf(d) >= 9 ==> !PrefixAhead(ts) && ts[0] != TSym(LParen))
  {
    TablesAgree();
    hide TextList;
    hide TextPairs;
    var ts := Text(d) + rest;
    match d {
      case CAtom(t) => assert ts[0] == t;
      case CList(items) => HeadIs(TSym(LBracket), TextList(items, RBracket), rest);
      case CMap(pairs) => HeadIs(TSym(LBrace), TextPairs(pairs), rest);
      case CUnary(op, a) => HeadIs(TSym(op), Text(a), rest);
      case CCast(ty, a) => assert ts[0] == TSym(LParen);
    }
  }

  /** The leftmost operand. */
  ghost function Leftmost(d: Cst): Cst {
    match d
    case CCall(f, _) => f
    case CIndex(a, _) => a
    case CMember(a, _) => a
    case CPostfix(_, a) => a
    case CBinary(_, l, _) => l
    case CCond(c, _, _) => c
    case _ => d
  }

  lemma LeftmostIs(d: Cst)
    requires Grammatical(d) && !(d.CAtom? || d.CList? || d.CMap? || d.CUnary? || d.CCast? || d.CParen?)
    ensures var a := Leftmost(d);
            a < d && Grammatical(a) && Text(a) <= Text(d) && (LevelOf(d) >= 9 ==> LevelOf(a) >= 9) &&
            |Text(a)| < |Text(d)|
  {
    hide TextList;
    hide Row;
  }

  lemma HeadIs(t: Token, after: Tokens, rest: Tokens)
    ensures ([t] + after + rest)[0] == t
  {
  }

  lemma ParenText(inner: Cst, rest: Tokens)
    ensures Text(CParen(inner)) + rest == [TSym(LParen)] + (Text(inner) + ([TSym(RParen)] + rest))
    ensures |Text(CParen(inner))| >= 2
  {
  }

  /** A text that starts with the text of its leftmost operand. */
  lemma LeftFirst(a: Cst, all: Tokens, rest: Tokens)
    requires Text(a) <= all
    ensures all + rest == Text(a) + (all[|Text(a)|..] + rest) && |Text(a)| <= |all|
  {
    hide Text;
  }

  // ----- one level of the parser -----

  /** An expression read at a higher level is read at this one, if nothing continues it. */
  lemma Lift(level: nat, ts: Tokens, e: Ast, rest: Tokens)
    requires level <= 9 && Parse(level + 1, ts) == Done(e, rest) && Stops(level, rest)
    requires level == 8 ==> !CastAhead(ts) && !PrefixAhead(ts)
    ensures Parse(level, ts) == Done(e, rest)
  {
    hide ParseList;
    hide ParseItems;
  }

  lemma ChainHead(level: nat, ts: Tokens, e: Ast, rest: Tokens)
    requires 1 <= level <= 7 && Parse(level + 1, ts) == Done(e, rest)
    ensures Parse(level, ts) == ParseChain(level, e, rest)
  {
    hide ParseChain;
  }

  lemma ChainStep(level: nat, op: Sym, left: Ast, right: Ast, ts: Tokens, rest: Tokens)
    requires 1 <= level <= 7 && OpLevel(op) == level && Parse(level + 1, ts) == Done(right, rest)
    ensures ParseChain(level, left, [TSym(op)] + ts) == ParseChain(level, Binary(op, left, right), rest)
  {
    hide Parse;
    assert ([TSym(op)] + ts)[1..] == ts;
  }

  lemma ChainEnds(level: nat, e: Ast, rest: Tokens)
    requires 1 <= level <= 7 && Stops(level, rest)
    ensures ParseChain(level, e, rest) == Done(e, rest)
  {
    hide Parse;
  }

  lemma PostfixHead(ts: Tokens, e: Ast, rest: Tokens)
    requires Parse(10, ts) == Done(e, rest)
    ensures Parse(9, ts) == ParsePostfix(e, rest)
  {
    hide ParsePostfix;
  }

  lemma PostfixEnds(e: Ast, rest: Tokens)
    requires Stops(9, rest)
    ensures ParsePostfix(e, rest) == Done(e, rest)
  {
    hide Parse;
    hide ParseList;
  }

  // ----- what the grammar writes is read -----

  lemma StopsHigher(level: nat, rest: Tokens)
    requires Stops(level, rest)
    ensures Stops(level + 1, rest)
  {
  }

  lemma AlwaysStops(rest: Tokens)
    ensures Stops(10, rest)
  {
  }

  /** Any way to write an expression of a level, in front of any token that does not continue it, is read as the
      tree that is meant, and the parser stops where the expression ends. */
  lemma {:induction false} ParseInvertsText(d: Cst, level: nat, rest: Tokens)
    requires Grammatical(d) && level <= LevelOf(d) && Stops(level, rest)
    ensures Parse(level, Text(d) + rest) == Done(TreeOf(d), rest)
    decreases d, 12 - level, 1
  {
    hide *;
    var ts := Text(d) + rest;
    if 1 <= level <= 7 {
      StopsHigher(level, rest);
      Spine(d, level, rest);
      ChainEnds(level, TreeOf(d), rest);
    } else if level == 9 {
      PostfixSpine(d, rest);
      PostfixEnds(TreeOf(d), rest);
    } else if LevelOf(d) != level {
      LevelBound(d);
      StopsHigher(level, rest);
      ParseInvertsText(d, level + 1, rest);
      if level == 8 { TextBegins(d, rest); }
      Lift(level, ts, TreeOf(d), rest);
    } else if level == 0 {
      LevelForms(d);
      ConditionalInverts(d, rest);
    } else if level == 8 {
      UnaryInverts(d, rest);
    } else {
      LevelBound(d);
      PrimaryInverts(d, rest);
    }
  }

  lemma LevelBound(d: Cst)
    ensures LevelOf(d) <= 10
  {
  }

  lemma LevelForms(d: Cst)
    requires Grammatical(d)
    ensures LevelOf(d) == 0 ==> d.CCond?
    ensures 1 <= LevelOf(d) <= 7 ==> d.CBinary? && Row(d.op) == LevelOf(d)
    ensures LevelOf(d) == 8 ==> d.CUnary? || d.CCast?
    ensures LevelOf(d) == 9 ==> d.CCall? || d.CIndex? || d.CMember? || d.CPostfix?
    ensures LevelOf(d) == 10 ==> d.CAtom? || d.CParen? || d.CList? || d.CMap?
  {
    hide Row;
  }

  lemma {:induction false} ConditionalInverts(d: Cst, rest: Tokens)
    requires Grammatical(d) && d.CCond? && Stops(0, rest)
    ensures Parse(0, Text(d) + rest) == Done(TreeOf(d), rest)
    decreases d, 12, 0
  {
    var third := Text(d.no) + rest;
    var second := Text(d.yes) + ([TSym(Colon)] + third);
    var ts := Text(d.cond) + ([TSym(Question)] + second);
    assert Text(d) + rest == ts;
    assert ([TSym(Question)] + second)[1..] == second && ([TSym(Colon)] + third)[1..] == third;
    ParseInvertsText(d.cond, 1, [TSym(Question)] + second);
    ParseInvertsText(d.yes, 0, [TSym(Colon)] + third);
    ParseInvertsText(d.no, 0, rest);
    hide Text;
    hide Grammatical;
    hide ParseChain;
    hide ParsePostfix;
    hide ParseList;
  }

  lemma {:induction false} UnaryInverts(d: Cst, rest: Tokens)
    requires Grammatical(d) && LevelOf(d) == 8 && Stops(8, rest)
    ensures Parse(8, Text(d) + rest) == Done(TreeOf(d), rest)
    decreases d, 4, 0
  {
    LevelForms(d);
    hide *;
    var inner := Text(d.arg) + rest;
    if d.CUnary? {
      UnaryParts(d, rest);
      StopsHigher(8, rest);
      ParseInvertsText(d.arg, 9, rest);
      PrefixRead(d.op, inner);
    } else {
      CastParts(d, rest);
      ParseInvertsText(d.arg, 8, rest);
      CastRead(d.ty, inner);
    }
  }

  lemma UnaryParts(d: Cst, rest: Tokens)
    requires Grammatical(d) && d.CUnary?
    ensures Grammatical(d.arg) && LevelOf(d.arg) >= 9 && IsPrefix(d.op)
    ensures Text(d) + rest == [TSym(d.op)] + (Text(d.arg) + rest) && TreeOf(d) == Unary(d.op, TreeOf(d.arg))
  {
    TablesAgree();
    var x := Text(d.arg);
    assert Text(d) == [TSym(d.op)] + x;
    hide Text;
    assert ([TSym(d.op)] + x) + rest == [TSym(d.op)] + (x + rest);
  }

  lemma CastParts(d: Cst, rest: Tokens)
    requires Grammatical(d) && d.CCast?
    ensures Grammatical(d.arg) && LevelOf(d.arg) >= 8 && IsCastType(d.ty)
    ensures Text(d) + rest == [TSym(LParen), TKw(d.ty), TSym(RParen)] + (Text(d.arg) + rest)
    ensures TreeOf(d) == Cast(d.ty, TreeOf(d.arg))
  {
    TablesAgree();
    var x, front := Text(d.arg), [TSym(LParen), TKw(d.ty), TSym(RParen)];
    assert Text(d) == front + x;
    hide Text;
    assert (front + x) + rest == front + (x + rest);
  }

  lemma PrefixRead(op: Sym, inner: Tokens)
    requires IsPrefix(op)
    ensures var p := Parse(9, inner);
            Parse(8, [TSym(op)] + inner) == if p.Done? then Done(Unary(op, p.value), p.rest) else Fail
  {
    hide ParsePostfix;
    var ts := [TSym(op)] + inner;
    assert ts[1..] == inner && ts[0] == TSym(op);
  }

  lemma CastRead(ty: Keyword, inner: Tokens)
    requires IsCastType(ty)
    ensures var p := Parse(8, inner);
            Parse(8, [TSym(LParen), TKw(ty), TSym(RParen)] + inner) ==
            if p.Done? then Done(Cast(ty, p.value), p.rest) else Fail
  {
    hide ParsePostfix;
    var ts := [TSym(LParen), TKw(ty), TSym(RParen)] + inner;
    assert ts[3..] == inner && ts[0] == TSym(LParen) && ts[1] == TKw(ty) && ts[2..][0] == TSym(RParen);
  }

  lemma {:induction false} PrimaryInverts(d: Cst, rest: Tokens)
    requires Grammatical(d) && LevelOf(d) == 10
    ensures Parse(10, Text(d) + rest) == Done(TreeOf(d), rest)
    decreases d, 2, 0
  {
    LevelForms(d);
    if d.CAtom? {
      AtomInverts(d, rest);
    } else if d.CParen? {
      ParenText(d.inner, rest);
      ClosesStop(RParen, rest);
      ParseInvertsText(d.inner, 0, [TSym(RParen)] + rest);
      hide *;
      ParenParsed(d, Text(d.inner) + ([TSym(RParen)] + rest), rest);
    } else if d.CMap? {
      MapInverts(d.pairs, rest);
      hide *;
      MapParsed(d, TextPairs(d.pairs) + rest, rest);
    } else {
      ListInverts(d.items, RBracket, rest);
      hide *;
      LiteralParsed(d, TextList(d.items, RBracket) + rest, rest);
    }
  }

  lemma AtomInverts(d: Cst, rest: Tokens)
    requires Grammatical(d) && d.CAtom?
    ensures Parse(10, Text(d) + rest) == Done(TreeOf(d), rest)
  {
    TablesAgree();
    var ts := Text(d) + rest;
    assert ts[0] == d.token && ts[1..] == rest;
  }

  lemma ParenParsed(d: Cst, inner: Tokens, rest: Tokens)
    requires d.CParen? && Parse(0, inner) == Done(TreeOf(d.inner), [TSym(RParen)] + rest)
    requires Text(d) + rest == [TSym(LParen)] + inner
    ensures Parse(10, Text(d) + rest) == Done(TreeOf(d), rest)
  {
    hide Text;
    var ts := [TSym(LParen)] + inner;
    assert ts[1..] == inner && ts[0] == TSym(LParen) && ([TSym(RParen)] + rest)[1..] == rest;
    hide ParseArms;
  }

  lemma LiteralParsed(d: Cst, inner: Tokens, rest: Tokens)
    requires d.CList? && inner == TextList(d.items, RBracket) + rest
    requires ParseList(inner, RBracket) == Done(TreesOf(d.items), rest)
    ensures Parse(10, Text(d) + rest) == Done(TreeOf(d), rest)
  {
    hide ParseList;
    hide TextList;
    var ts := Text(d) + rest;
    assert ts == [TSym(LBracket)] + inner;
    assert ts[1..] == inner && ts[0] == TSym(LBracket);
  }

  lemma MapParsed(d: Cst, inner: Tokens, rest: Tokens)
    requires d.CMap? && inner == TextPairs(d.pairs) + rest
    requires ParseMap(inner) == Done(PairTrees(d.pairs), rest)
    ensures Parse(10, Text(d) + rest) == Done(TreeOf(d), rest)
  {
    hide ParseMap;
    hide TextPairs;
    var ts := Text(d) + rest;
    assert ts == [TSym(LBrace)] + inner;
    assert ts[1..] == inner && ts[0] == TSym(LBrace);
  }

  /** A chain of operators of one row: the tree so far is the left operand of what follows. */
  lemma {:induction false} Spine(d: Cst, level: nat, rest: Tokens)
    requires Grammatical(d) && 1 <= level <= 7 && level <= LevelOf(d) && Stops(level + 1, rest)
    ensures Parse(level, Text(d) + rest) == ParseChain(level, TreeOf(d), rest)
    decreases d, 12 - level, 0
  {
    hide *;
    if LevelOf(d) == level {
      LevelForms(d);
      BinaryParts(d, rest);
      LevelIsRow(d.op);
      var after := [TSym(d.op)] + (Text(d.right) + rest);
      OperatorStops(d.op, level, Text(d.right) + rest);
      Spine(d.left, level, after);
      ParseInvertsText(d.right, level + 1, rest);
      ChainStep(level, d.op, TreeOf(d.left), TreeOf(d.right), Text(d.right) + rest, rest);
    } else {
      ParseInvertsText(d, level + 1, rest);
      ChainHead(level, Text(d) + rest, TreeOf(d), rest);
    }
  }

  lemma BinaryParts(d: Cst, rest: Tokens)
    requires Grammatical(d) && d.CBinary?
    ensures Grammatical(d.left) && LevelOf(d.left) >= Row(d.op) && Grammatical(d.right) && LevelOf(d.right) > Row(d.op)
    ensures Text(d) + rest == Text(d.left) + ([TSym(d.op)] + (Text(d.right) + rest))
    ensures TreeOf(d) == Binary(d.op, TreeOf(d.left), TreeOf(d.right))
  {
    hide Row;
    var l, r := Text(d.left), Text(d.right);
    assert (l + ([TSym(d.op)] + r)) + rest == l + ([TSym(d.op)] + (r + rest));
  }

  lemma OperatorStops(op: Sym, level: nat, ts: Tokens)
    requires 1 <= level <= 7 && OpLevel(op) == level
    ensures Stops(level + 1, [TSym(op)] + ts)
  {
  }

  /** Calls, indexes, members and postfix operators after a primary. */
  lemma {:induction false} PostfixSpine(d: Cst, rest: Tokens)
    requires Grammatical(d) && LevelOf(d) >= 9
    ensures Parse(9, Text(d) + rest) == ParsePostfix(TreeOf(d), rest)
    decreases d, 3, 0
  {
    hide *;
    if LevelOf(d) == 9 {
      PostfixIs(d, rest);
      PostfixSpine(PostfixArg(d), PostfixTail(d, rest));
      PostfixOne(d, rest);
    } else {
      LevelBound(d);
      AlwaysStops(rest);
      ParseInvertsText(d, 10, rest);
      PostfixHead(Text(d) + rest, TreeOf(d), rest);
    }
  }

  /** What a postfix form applies to, and the tokens after it. */
  ghost function PostfixArg(d: Cst): Cst
    requires LevelOf(d) == 9
  {
    if d.CCall? then d.callee else if d.CIndex? || d.CMember? then d.target else if d.CPostfix? then d.arg else d
  }

  ghost function PostfixTail(d: Cst, rest: Tokens): Tokens {
    if d.CCall? then [TSym(LParen)] + (TextList(d.args, RParen) + rest)
    else if d.CIndex? then [TSym(LBracket)] + (Text(d.index) + ([TSym(RBracket)] + rest))
    else if d.CMember? then [TSym(Dot), d.name] + rest
    else if d.CPostfix? then [TSym(d.op)] + rest
    else []
  }

  lemma PostfixIs(d: Cst, rest: Tokens)
    requires Grammatical(d) && LevelOf(d) == 9
    ensures var a := PostfixArg(d); a < d && Grammatical(a) && LevelOf(a) >= 9
    ensures Text(d) + rest == Text(PostfixArg(d)) + PostfixTail(d, rest)
  {
    LevelForms(d);
    hide TextList;
    hide LevelOf;
    if d.CCall? {
      TwoDeep(Text(d.callee), TSym(LParen), TextList(d.args, RParen), rest);
    } else if d.CIndex? {
      TwoDeep(Text(d.target), TSym(LBracket), Text(d.index) + [TSym(RBracket)], rest);
      assert (Text(d.index) + [TSym(RBracket)]) + rest == Text(d.index) + ([TSym(RBracket)] + rest);
    }
  }

  lemma TwoDeep(a: Tokens, t: Token, b: Tokens, rest: Tokens)
    ensures (a + ([t] + b)) + rest == a + ([t] + (b + rest))
  {
  }

  lemma Appends(a: Tokens, t: Token, rest: Tokens)
    ensures (a + [t]) + rest == a + ([t] + rest)
  {
  }

  /** One postfix step. */
  lemma {:induction false} PostfixOne(d: Cst, rest: Tokens)
    requires Grammatical(d) && LevelOf(d) == 9
    ensures ParsePostfix(TreeOf(PostfixArg(d)), PostfixTail(d, rest)) == ParsePostfix(TreeOf(d), rest)
    decreases d, 1, 0
  {
    LevelForms(d);
    var ts := PostfixTail(d, rest);
    if d.CCall? {
      assert ts[1..] == TextList(d.args, RParen) + rest;
      ListInverts(d.args, RParen, rest);
    } else if d.CIndex? {
      assert ts[1..] == Text(d.index) + ([TSym(RBracket)] + rest) && ([TSym(RBracket)] + rest)[1..] == rest;
      ClosesStop(RBracket, rest);
      ParseInvertsText(d.index, 0, [TSym(RBracket)] + rest);
    } else if d.CMember? {
      assert ts[2..] == rest;
    } else {
      assert ts[1..] == rest;
    }
    hide ParseList;
    hide Parse;
    hide Text;
    hide TextList;
    hide Grammatical;
    hide LevelOf;
  }

  lemma ClosesStop(s: Sym, rest: Tokens)
    requires s == RParen || s == RBracket || s == RBrace || s == Comma || s == Colon
    ensures Stops(0, [TSym(s)] + rest) && At([TSym(s)] + rest, s) && ([TSym(s)] + rest)[1..] == rest
  {
  }

  lemma ItemsStep(ts: Tokens, e: Ast, after: Tokens, close: Sym)
    requires Parse(0, ts) == Done(e, after) && close != Comma
    ensures At(after, Comma) ==>
              var more := ParseItems(after[1..], close);
              ParseItems(ts, close) == if more.Done? then Done([e] + more.value, more.rest) else Fail
    ensures At(after, close) ==> ParseItems(ts, close) == Done([e], after[1..])
  {
    hide Parse;
  }

  lemma {:induction false} ListInverts(items: seq<Cst>, close: Sym, rest: Tokens)
    requires AllGrammatical(items) && (close == RParen || close == RBracket)
    ensures ParseList(TextList(items, close) + rest, close) == Done(TreesOf(items), rest)
    decreases items, 0, 1
  {
    hide Grammatical;
    var ts := TextList(items, close) + rest;
    if items == [] {
      assert ts[0] == TSym(close) && ts[1..] == rest;
    } else {
      ItemsInvert(items, close, rest);
      var after := ListText(items, close, rest);
      TextBegins(items[0], after);
      hide ParseItems;
      hide TextList;
    }
  }

  lemma ListText(items: seq<Cst>, close: Sym, rest: Tokens) returns (after: Tokens)
    requires items != []
    ensures TextList(items, close) + rest == Text(items[0]) + after
    ensures after == if |items| == 1 then [TSym(close)] + rest
                     else [TSym(Comma)] + (TextList(items[1..], close) + rest)
  {
    var x, y := Text(items[0]), TextList(items[1..], close);
    assert TextList(items, close) == if |items| == 1 then x + [TSym(close)] else x + ([TSym(Comma)] + y);
    hide *;
    after := if |items| == 1 then [TSym(close)] + rest else [TSym(Comma)] + (y + rest);
    Appends(x, TSym(close), rest);
    TwoDeep(x, TSym(Comma), y, rest);
  }

  lemma {:induction false} ItemsInvert(items: seq<Cst>, close: Sym, rest: Tokens)
    requires items != [] && AllGrammatical(items) && (close == RParen || close == RBracket)
    ensures ParseItems(TextList(items, close) + rest, close) == Done(TreesOf(items), rest)
    decreases items, 0, 0
  {
    AllSplit(items);
    hide *;
    var d, more := items[0], items[1..];
    var after := ListText(items, close, rest);
    if |items| == 1 {
      ClosesStop(close, rest);
    } else {
      ClosesStop(Comma, TextList(more, close) + rest);
      ItemsInvert(more, close, rest);
    }
    ParseInvertsText(d, 0, after);
    ItemsStep(Text(d) + after, TreeOf(d), after, close);
  }

  lemma AllSplit(items: seq<Cst>)
    requires items != [] && AllGrammatical(items)
    ensures Grammatical(items[0]) && AllGrammatical(items[1..])
    ensures TreesOf(items) == [TreeOf(items[0])] + TreesOf(items[1..])
    ensures |items| == 1 ==> TreesOf(items) == [TreeOf(items[0])] && items[1..] == []
    ensures |items| > 1 ==> items[1..] != []
  {
    if |items| == 1 { assert TreesOf(items[1..]) == []; }
  }

  lemma {:induction false} MapInverts(pairs: seq<CPair>, rest: Tokens)
    requires PairsGrammatical(pairs)
    ensures ParseMap(TextPairs(pairs) + rest) == Done(PairTrees(pairs), rest)
    decreases pairs, 0, 1
  {
    hide Grammatical;
    hide TextPair;
    var ts := TextPairs(pairs) + rest;
    if pairs == [] {
      assert ts[0] == TSym(RBrace) && ts[1..] == rest;
    } else {
      PairsInvert(pairs, rest);
      var after := PairsText(pairs, rest);
      PairBegins(pairs[0], after);
      hide ParsePairs;
      hide TextPairs;
    }
  }

  lemma PairBegins(p: CPair, rest: Tokens)
    requires PairGrammatical(p)
    ensures Begins(TextPair(p) + rest)
  {
    TextBegins(p.key, [TSym(Colon)] + Text(p.value) + rest);
    hide Text;
    assert TextPair(p) + rest == Text(p.key) + ([TSym(Colon)] + Text(p.value) + rest);
  }

  lemma PairsStep(ts: Tokens, p: Pair, after: Tokens)
    requires ParsePair(ts) == Done(p, after)
    ensures At(after, Comma) ==>
              var more := ParsePairs(after[1..]);
              ParsePairs(ts) == if more.Done? then Done([p] + more.value, more.rest) else Fail
    ensures At(after, RBrace) ==> ParsePairs(ts) == Done([p], after[1..])
  {
    hide ParsePair;
  }

  lemma PairsText(pairs: seq<CPair>, rest: Tokens) returns (after: Tokens)
    requires pairs != []
    ensures TextPairs(pairs) + rest == TextPair(pairs[0]) + after
    ensures after == if |pairs| == 1 then [TSym(RBrace)] + rest
                     else [TSym(Comma)] + (TextPairs(pairs[1..]) + rest)
  {
    var x, y := TextPair(pairs[0]), TextPairs(pairs[1..]);
    assert TextPairs(pairs) == if |pairs| == 1 then x + [TSym(RBrace)] else x + ([TSym(Comma)] + y);
    hide *;
    after := if |pairs| == 1 then [TSym(RBrace)] + rest else [TSym(Comma)] + (y + rest);
    Appends(x, TSym(RBrace), rest);
    TwoDeep(x, TSym(Comma), y, rest);
  }

  lemma {:induction false} PairInverts(p: CPair, after: Tokens)
    requires PairGrammatical(p) && Stops(0, after)
    ensures ParsePair(TextPair(p) + after) == Done(PairTree(p), after)
    decreases p, 0, 0
  {
    var second := Text(p.value) + after;
    assert TextPair(p) + after == Text(p.key) + ([TSym(Colon)] + second);
    ClosesStop(Colon, second);
    ParseInvertsText(p.key, 0, [TSym(Colon)] + second);
    ParseInvertsText(p.value, 0, after);
    hide Text;
    hide Parse;
    hide Grammatical;
  }

  lemma {:induction false} PairsInvert(pairs: seq<CPair>, rest: Tokens)
    requires pairs != [] && PairsGrammatical(pairs)
    ensures ParsePairs(TextPairs(pairs) + rest) == Done(PairTrees(pairs), rest)
    decreases pairs, 0, 0
  {
    PairsSplit(pairs);
    hide *;
    var p, more := pairs[0], pairs[1..];
    var after := PairsText(pairs, rest);
    if |pairs| == 1 {
      ClosesStop(RBrace, rest);
    } else {
      ClosesStop(Comma, TextPairs(more) + rest);
      PairsInvert(more, rest);
    }
    PairInverts(p, after);
    PairsStep(TextPair(p) + after, PairTree(p), after);
  }

  lemma PairsSplit(pairs: seq<CPair>)
    requires pairs != [] && PairsGrammatical(pairs)
    ensures PairGrammatical(pairs[0]) && PairsGrammatical(pairs[1..])
    ensures PairTrees(pairs) == [PairTree(pairs[0])] + PairTrees(pairs[1..])
    ensures |pairs| == 1 ==> PairTrees(pairs) == [PairTree(pairs[0])] && pairs[1..] == []
    ensures |pairs| > 1 ==> pairs[1..] != []
  {
    if |pairs| == 1 { assert PairTrees(pairs[1..]) == []; }
  }

  // ----- and nothing else is read -----

  /** Whatever is read at a level was written by the grammar at that level, and the tree is the one meant. */
  lemma {:induction false} ParseWritten(level: nat, ts: Tokens) returns (d: Cst)
    requires level <= 10 && Parse(level, ts).Done?
    ensures Grammatical(d) && LevelOf(d) >= level
    ensures var p := Parse(level, ts); TreeOf(d) == p.value && ts == Text(d) + p.rest
    decreases |ts|, 12 - level, 0
  {
    hide *;
    if level == 0 {
      LevelZero(ts);
      var p := Parse(1, ts);
      var c := ParseWritten(1, ts);
      d := ArmsWritten(c, p.rest);
      Onto(ts, Text(c), p.rest, Text(d), Parse(0, ts).rest);
    } else if level <= 7 {
      LevelChain(level, ts);
      var p := Parse(level + 1, ts);
      var l := ParseWritten(level + 1, ts);
      d := ChainWritten(level, l, p.rest);
      Onto(ts, Text(l), p.rest, Text(d), Parse(level, ts).rest);
    } else if level == 8 {
      d := UnaryWritten(ts);
    } else if level == 9 {
      LevelPostfix(ts);
      var p := Parse(10, ts);
      var l := ParseWritten(10, ts);
      d := PostfixWritten(l, p.rest);
      Onto(ts, Text(l), p.rest, Text(d), Parse(9, ts).rest);
    } else {
      d := PrimaryWritten(ts);
    }
  }

  lemma Onto(ts: Tokens, a: Tokens, mid: Tokens, b: Tokens, rest: Tokens)
    requires ts == a + mid && a + mid == b + rest
    ensures ts == b + rest
  {
  }

  lemma LevelZero(ts: Tokens)
    requires Parse(0, ts).Done?
    ensures Parse(1, ts).Done? && ParseArms(Parse(1, ts).value, Parse(1, ts).rest) == Parse(0, ts)
    ensures |Parse(1, ts).rest| < |ts|
  {
    hide ParseArms;
    hide ParseChain;
  }

  lemma LevelChain(level: nat, ts: Tokens)
    requires 1 <= level <= 7 && Parse(level, ts).Done?
    ensures var p := Parse(level + 1, ts);
            p.Done? && ParseChain(level, p.value, p.rest) == Parse(level, ts) && |p.rest| < |ts|
  {
    hide ParseChain;
    hide ParsePostfix;
  }

  lemma LevelPostfix(ts: Tokens)
    requires Parse(9, ts).Done?
    ensures var p := Parse(10, ts); p.Done? && ParsePostfix(p.value, p.rest) == Parse(9, ts) && |p.rest| < |ts|
  {
    hide ParsePostfix;
    hide ParseList;
  }

  lemma {:induction false} ArmsWritten(c: Cst, ts: Tokens) returns (d: Cst)
    requires Grammatical(c) && LevelOf(c) >= 1 && ParseArms(TreeOf(c), ts).Done?
    ensures Grammatical(d)
    ensures var p := ParseArms(TreeOf(c), ts); TreeOf(d) == p.value && Text(c) + ts == Text(d) + p.rest
    decreases |ts|, 13, 0
  {
    if !At(ts, Question) {
      d := c;
    } else {
      var y := Parse(0, ts[1..]);
      var a := ParseWritten(0, ts[1..]);
      var b := ParseWritten(0, y.rest[1..]);
      d := CCond(c, a, b);
      hide Parse;
      hide Grammatical;
      hide LevelOf;
      ArmsText(c, a, b, ts, y.rest, Parse(0, y.rest[1..]).rest);
    }
  }

  lemma ArmsText(c: Cst, a: Cst, b: Cst, ts: Tokens, u: Tokens, rest: Tokens)
    requires At(ts, Question) && ts[1..] == Text(a) + u && At(u, Colon) && u[1..] == Text(b) + rest
    ensures Text(c) + ts == Text(CCond(c, a, b)) + rest
  {
    var x, y, z := Text(c), Text(a), Text(b);
    assert Text(CCond(c, a, b)) == x + ([TSym(Question)] + (y + ([TSym(Colon)] + z)));
    hide *;
    HeadSplit(ts, Question);
    HeadSplit(u, Colon);
    TwoDeep(y, TSym(Colon), z, rest);
    TwoDeep(x, TSym(Question), y + ([TSym(Colon)] + z), rest);
  }

  lemma HeadSplit(ts: Tokens, s: Sym)
    requires At(ts, s)
    ensures ts != [] && ts == [TSym(s)] + ts[1..]
  {
  }

  lemma {:induction false} ChainWritten(level: nat, l: Cst, ts: Tokens) returns (d: Cst)
    requires 1 <= level <= 7 && Grammatical(l) && LevelOf(l) >= level && ParseChain(level, TreeOf(l), ts).Done?
    ensures Grammatical(d) && LevelOf(d) >= level
    ensures var p := ParseChain(level, TreeOf(l), ts); TreeOf(d) == p.value && Text(l) + ts == Text(d) + p.rest
    decreases |ts|, 13, 1
  {
    hide *;
    ChainCases(level, TreeOf(l), ts);
    if !Chained(level, ts) {
      d := l;
    } else {
      var op, p := ts[0].sym, Parse(level + 1, ts[1..]);
      LevelIsRow(op);
      var r := ParseWritten(level + 1, ts[1..]);
      var b := Two(op, l, r);
      d := ChainWritten(level, b, p.rest);
      assert ts == [TSym(op)] + ts[1..];
      TwoDeep(Text(l), TSym(op), Text(r), p.rest);
    }
  }

  ghost predicate Chained(level: nat, ts: Tokens) {
    ts != [] && ts[0].TSym? && OpLevel(ts[0].sym) == level
  }

  lemma ChainCases(level: nat, e: Ast, ts: Tokens)
    requires 1 <= level <= 7 && ParseChain(level, e, ts).Done?
    ensures !Chained(level, ts) ==> ParseChain(level, e, ts) == Done(e, ts)
    ensures Chained(level, ts) ==>
              ts != [] && ts[0].TSym? && OpLevel(ts[0].sym) == level &&
              var p := Parse(level + 1, ts[1..]);
              p.Done? && |p.rest| < |ts| &&
              ParseChain(level, e, ts) == ParseChain(level, Binary(ts[0].sym, e, p.value), p.rest)
  {
    hide Parse;
  }

  lemma {:induction false} UnaryWritten(ts: Tokens) returns (d: Cst)
    requires Parse(8, ts).Done?
    ensures Grammatical(d) && LevelOf(d) >= 8
    ensures var p := Parse(8, ts); TreeOf(d) == p.value && ts == Text(d) + p.rest
    decreases |ts|, 3, 1
  {
    hide *;
    LevelUnary(ts);
    if CastAhead(ts) {
      var a := ParseWritten(8, ts[3..]);
      d := CCast(ts[1].kw, a);
      CastMade(ts, a, Parse(8, ts).rest);
    } else if PrefixAhead(ts) {
      var a := ParseWritten(9, ts[1..]);
      d := CUnary(ts[0].sym, a);
      UnaryMade(ts, a, Parse(8, ts).rest);
    } else {
      d := ParseWritten(9, ts);
    }
  }

  lemma LevelUnary(ts: Tokens)
    requires Parse(8, ts).Done?
    ensures CastAhead(ts) ==>
              |ts| >= 3 && ts[1].TKw? && ts[2] == TSym(RParen) && Parse(8, ts[3..]).Done? &&
              Parse(8, ts) == Done(Cast(ts[1].kw, Parse(8, ts[3..]).value), Parse(8, ts[3..]).rest)
    ensures !CastAhead(ts) && PrefixAhead(ts) ==>
              ts != [] && ts[0].TSym? && Parse(9, ts[1..]).Done? &&
              Parse(8, ts) == Done(Unary(ts[0].sym, Parse(9, ts[1..]).value), Parse(9, ts[1..]).rest)
    ensures !CastAhead(ts) && !PrefixAhead(ts) ==> Parse(8, ts) == Parse(9, ts)
    ensures ts != []
  {
    hide ParsePostfix;
    hide ParseList;
  }

  lemma CastMade(ts: Tokens, a: Cst, rest: Tokens)
    requires CastAhead(ts) && |ts| >= 3 && ts[2] == TSym(RParen) && Grammatical(a) && LevelOf(a) >= 8
    requires ts[3..] == Text(a) + rest
    ensures var d := CCast(ts[1].kw, a);
            Grammatical(d) && LevelOf(d) == 8 && ts == Text(d) + rest && TreeOf(d) == Cast(ts[1].kw, TreeOf(a))
  {
    TablesAgree();
    var d := CCast(ts[1].kw, a);
    assert Text(d) == [TSym(LParen), TKw(ts[1].kw), TSym(RParen)] + Text(a);
    hide Text;
    assert ts[..3] == [TSym(LParen), TKw(ts[1].kw), TSym(RParen)] && ts == ts[..3] + ts[3..];
  }

  lemma UnaryMade(ts: Tokens, a: Cst, rest: Tokens)
    requires PrefixAhead(ts) && Grammatical(a) && LevelOf(a) >= 9 && ts[1..] == Text(a) + rest
    ensures var d := CUnary(ts[0].sym, a);
            Grammatical(d) && LevelOf(d) == 8 && ts == Text(d) + rest && TreeOf(d) == Unary(ts[0].sym, TreeOf(a))
  {
    TablesAgree();
    var d := CUnary(ts[0].sym, a);
    assert Text(d) == [TSym(ts[0].sym)] + Text(a);
    hide Text;
    assert ts == [ts[0]] + ts[1..];
  }

  lemma {:induction false} PostfixWritten(l: Cst, ts: Tokens) returns (d: Cst)
    requires Grammatical(l) && LevelOf(l) >= 9 && ParsePostfix(TreeOf(l), ts).Done?
    ensures Grammatical(d) && LevelOf(d) >= 9
    ensures var p := ParsePostfix(TreeOf(l), ts); TreeOf(d) == p.value && Text(l) + ts == Text(d) + p.rest
    decreases |ts|, 13, 1
  {
    if !(At(ts, LParen) || At(ts, LBracket) || At(ts, Dot) || At(ts, Inc) || At(ts, Dec)) {
      d := l;
    } else {
      var e, more := PostfixNext(l, ts);
      d := PostfixWritten(e, more);
    }
  }

  /** One postfix step: what has been read then, and what is left. */
  lemma {:induction false} PostfixNext(l: Cst, ts: Tokens) returns (e: Cst, more: Tokens)
    requires Grammatical(l) && LevelOf(l) >= 9 && ParsePostfix(TreeOf(l), ts).Done?
    requires At(ts, LParen) || At(ts, LBracket) || At(ts, Dot) || At(ts, Inc) || At(ts, Dec)
    ensures Grammatical(e) && LevelOf(e) == 9 && |more| < |ts|
    ensures ParsePostfix(TreeOf(e), more) == ParsePostfix(TreeOf(l), ts) && Text(l) + ts == Text(e) + more
    decreases |ts|, 13, 0
  {
    hide *;
    PostfixCases(TreeOf(l), ts);
    if At(ts, LParen) {
      var args := ListWritten(ts[1..], RParen);
      e, more := CCall(l, args), ParseList(ts[1..], RParen).rest;
      CallText(l, args, ts, more);
      CallMade(l, args);
    } else if At(ts, LBracket) {
      var i := ParseWritten(0, ts[1..]);
      e, more := CIndex(l, i), Parse(0, ts[1..]).rest[1..];
      IndexText(l, i, ts, Parse(0, ts[1..]).rest);
      IndexMade(l, i);
    } else if At(ts, Dot) {
      e, more := CMember(l, ts[1]), ts[2..];
      MemberMade(l, ts);
    } else {
      e, more := CPostfix(ts[0].sym, l), ts[1..];
      PostfixMade(l, ts);
    }
  }

  lemma CallMade(l: Cst, args: seq<Cst>)
    requires Grammatical(l) && LevelOf(l) >= 9 && AllGrammatical(args)
    ensures var e := CCall(l, args); Grammatical(e) && LevelOf(e) == 9 && TreeOf(e) == Call(TreeOf(l), TreesOf(args))
  {
  }

  lemma IndexMade(l: Cst, i: Cst)
    requires Grammatical(l) && LevelOf(l) >= 9 && Grammatical(i)
    ensures var e := CIndex(l, i); Grammatical(e) && LevelOf(e) == 9 && TreeOf(e) == Index(TreeOf(l), TreeOf(i))
  {
  }

  lemma MemberMade(l: Cst, ts: Tokens)
    requires Grammatical(l) && LevelOf(l) >= 9 && |ts| >= 2 && At(ts, Dot) && (ts[1].TId? || ts[1].TKw?)
    ensures var e := CMember(l, ts[1]);
            Grammatical(e) && LevelOf(e) == 9 && TreeOf(e) == MemberOf(TreeOf(l), ts[1]) &&
            Text(l) + ts == Text(e) + ts[2..]
  {
    assert Text(CMember(l, ts[1])) == Text(l) + [TSym(Dot), ts[1]];
    hide Text;
    Cut(Text(l), ts, 2);
    assert ts[..2] == [TSym(Dot), ts[1]];
  }

  lemma Cut(x: Tokens, ts: Tokens, n: nat)
    requires n <= |ts|
    ensures x + ts == (x + ts[..n]) + ts[n..]
  {
  }

  lemma PostfixMade(l: Cst, ts: Tokens)
    requires Grammatical(l) && LevelOf(l) >= 9 && (At(ts, Inc) || At(ts, Dec))
    ensures var e := CPostfix(ts[0].sym, l);
            Grammatical(e) && LevelOf(e) == 9 && TreeOf(e) == Postfix(ts[0].sym, TreeOf(l)) &&
            Text(l) + ts == Text(e) + ts[1..]
  {
    assert Text(CPostfix(ts[0].sym, l)) == Text(l) + [TSym(ts[0].sym)];
    hide Text;
    Cut(Text(l), ts, 1);
    assert ts[..1] == [TSym(ts[0].sym)];
  }

  lemma PostfixCases(e: Ast, ts: Tokens)
    requires ParsePostfix(e, ts).Done?
    ensures At(ts, LParen) ==>
              ts != [] &&
              var a := ParseList(ts[1..], RParen);
              a.Done? && |a.rest| < |ts| && ParsePostfix(e, ts) == ParsePostfix(Call(e, a.value), a.rest)
    ensures At(ts, LBracket) ==>
              ts != [] &&
              var i := Parse(0, ts[1..]);
              i.Done? && At(i.rest, RBracket) && 0 < |i.rest| < |ts| &&
              ParsePostfix(e, ts) == ParsePostfix(Index(e, i.value), i.rest[1..])
    ensures At(ts, Dot) ==>
              |ts| >= 2 && (ts[1].TId? || ts[1].TKw?) &&
              ParsePostfix(e, ts) == ParsePostfix(MemberOf(e, ts[1]), ts[2..])
    ensures At(ts, Inc) || At(ts, Dec) ==>
              ts != [] && ts[0].TSym? && ParsePostfix(e, ts) == ParsePostfix(Postfix(ts[0].sym, e), ts[1..])
  {
    hide Parse;
    hide ParseList;
  }

  lemma CallText(l: Cst, args: seq<Cst>, ts: Tokens, more: Tokens)
    requires At(ts, LParen) && ts[1..] == TextList(args, RParen) + more
    ensures Text(l) + ts == Text(CCall(l, args)) + more
  {
    var x, y := Text(l), TextList(args, RParen);
    assert Text(CCall(l, args)) == x + ([TSym(LParen)] + y);
    hide Text;
    hide TextList;
    assert ts == [TSym(LParen)] + (y + more);
  }

  lemma IndexText(l: Cst, i: Cst, ts: Tokens, u: Tokens)
    requires At(ts, LBracket) && ts[1..] == Text(i) + u && At(u, RBracket)
    ensures Text(l) + ts == Text(CIndex(l, i)) + u[1..]
  {
    var x, y, more := Text(l), Text(i), u[1..];
    assert Text(CIndex(l, i)) == x + ([TSym(LBracket)] + (y + [TSym(RBracket)]));
    hide Text;
    assert u == [TSym(RBracket)] + more;
    assert ts == [TSym(LBracket)] + ((y + [TSym(RBracket)]) + more);
  }

  lemma {:induction false} PrimaryWritten(ts: Tokens) returns (d: Cst)
    requires Parse(10, ts).Done?
    ensures Grammatical(d) && LevelOf(d) >= 10
    ensures var p := Parse(10, ts); TreeOf(d) == p.value && ts == Text(d) + p.rest
    decreases |ts|, 1, 0
  {
    hide *;
    LevelPrimary(ts);
    var rest := Parse(10, ts).rest;
    if IsAtom(ts[0]) {
      d := AtomMade(ts[0]);
      assert ts == [ts[0]] + ts[1..];
    } else if At(ts, LParen) {
      var inner := ParseWritten(0, ts[1..]);
      d := CParen(inner);
      ParenMade(inner, ts, Parse(0, ts[1..]).rest);
    } else if At(ts, LBracket) {
      var items := ListWritten(ts[1..], RBracket);
      d := CList(items);
      ListMade(items, ts, rest);
    } else {
      var pairs := MapWritten(ts[1..]);
      d := CMap(pairs);
      MapMade(pairs, ts, rest);
    }
  }

  lemma LevelPrimary(ts: Tokens)
    requires Parse(10, ts).Done?
    ensures ts != [] && (IsAtom(ts[0]) ==> Parse(10, ts) == Done(Atom(ts[0]), ts[1..]))
    ensures !IsAtom(ts[0]) ==> At(ts, LParen) || At(ts, LBracket) || At(ts, LBrace)
    ensures !IsAtom(ts[0]) && At(ts, LParen) ==>
              var p := Parse(0, ts[1..]); p.Done? && At(p.rest, RParen) && p.rest != [] &&
                                          Parse(10, ts) == Done(p.value, p.rest[1..])
    ensures !IsAtom(ts[0]) && !At(ts, LParen) && At(ts, LBracket) ==>
              var p := ParseList(ts[1..], RBracket); p.Done? && Parse(10, ts) == Done(ListLit(p.value), p.rest)
    ensures !IsAtom(ts[0]) && !At(ts, LParen) && !At(ts, LBracket) ==>
              var p := ParseMap(ts[1..]); p.Done? && Parse(10, ts) == Done(MapLit(p.value), p.rest)
  {
    hide ParseList;
    hide ParseMap;
    hide ParseArms;
    hide IsAtom;
  }

  lemma ParenMade(inner: Cst, ts: Tokens, u: Tokens)
    requires Grammatical(inner) && At(ts, LParen) && ts[1..] == Text(inner) + u && At(u, RParen)
    ensures var d := CParen(inner);
            Grammatical(d) && LevelOf(d) == 10 && TreeOf(d) == TreeOf(inner) && ts == Text(d) + u[1..]
  {
    var x := Text(inner);
    assert Text(CParen(inner)) == [TSym(LParen)] + (x + [TSym(RParen)]);
    hide Text;
    assert u == [TSym(RParen)] + u[1..] && ts == [TSym(LParen)] + (x + u);
  }

  lemma ListMade(items: seq<Cst>, ts: Tokens, rest: Tokens)
    requires AllGrammatical(items) && At(ts, LBracket) && ts[1..] == TextList(items, RBracket) + rest
    ensures var d := CList(items);
            Grammatical(d) && LevelOf(d) == 10 && TreeOf(d) == ListLit(TreesOf(items)) && ts == Text(d) + rest
  {
    hide TextList;
    hide AllGrammatical;
    assert ts == [TSym(LBracket)] + ts[1..];
  }

  lemma MapMade(pairs: seq<CPair>, ts: Tokens, rest: Tokens)
    requires PairsGrammatical(pairs) && At(ts, LBrace) && ts[1..] == TextPairs(pairs) + rest
    ensures var d := CMap(pairs);
            Grammatical(d) && LevelOf(d) == 10 && TreeOf(d) == MapLit(PairTrees(pairs)) && ts == Text(d) + rest
  {
    hide TextPairs;
    hide PairsGrammatical;
    assert ts == [TSym(LBrace)] + ts[1..];
  }

  lemma {:induction false} ListWritten(ts: Tokens, close: Sym) returns (items: seq<Cst>)
    requires ParseList(ts, close).Done? && close != Comma
    ensures AllGrammatical(items)
    ensures var p := ParseList(ts, close); TreesOf(items) == p.value && ts == TextList(items, close) + p.rest
    decreases |ts|, 13, 1
  {
    if At(ts, close) {
      items := [];
      assert ts == [TSym(close)] + ts[1..];
    } else {
      items := ItemsWritten(ts, close);
    }
  }

  lemma {:induction false} ItemsWritten(ts: Tokens, close: Sym) returns (items: seq<Cst>)
    requires ParseItems(ts, close).Done? && close != Comma
    ensures AllGrammatical(items) && items != []
    ensures var p := ParseItems(ts, close); TreesOf(items) == p.value && ts == TextList(items, close) + p.rest
    decreases |ts|, 13, 0
  {
    hide *;
    ItemsCases(ts, close);
    var e := ParseWritten(0, ts);
    var u := Parse(0, ts).rest;
    if At(u, Comma) {
      var more := ItemsWritten(u[1..], close);
      items := [e] + more;
      MoreItems(e, more, close, u, ParseItems(ts, close).rest);
    } else {
      items := [e];
      LastItem(e, close, u);
    }
  }

  lemma ItemsCases(ts: Tokens, close: Sym)
    requires ParseItems(ts, close).Done? && close != Comma
    ensures var p := Parse(0, ts);
            p.Done? && |p.rest| < |ts| &&
            if At(p.rest, Comma) then
              p.rest != [] &&
              var q := ParseItems(p.rest[1..], close);
              q.Done? && |p.rest[1..]| < |ts| && ParseItems(ts, close) == Done([p.value] + q.value, q.rest)
            else At(p.rest, close) && ParseItems(ts, close) == Done([p.value], p.rest[1..])
  {
    hide Parse;
  }

  lemma MoreItems(e: Cst, more: seq<Cst>, close: Sym, u: Tokens, rest: Tokens)
    requires Grammatical(e) && AllGrammatical(more) && more != []
    requires At(u, Comma) && u[1..] == TextList(more, close) + rest
    ensures AllGrammatical([e] + more) && TreesOf([e] + more) == [TreeOf(e)] + TreesOf(more)
    ensures Text(e) + u == TextList([e] + more, close) + rest
  {
    MoreAre(e, more, close);
    hide *;
    var x, y := Text(e), TextList(more, close);
    assert u == [TSym(Comma)] + (y + rest);
    TwoDeep(x, TSym(Comma), y, rest);
  }

  lemma MoreAre(e: Cst, more: seq<Cst>, close: Sym)
    requires Grammatical(e) && AllGrammatical(more) && more != []
    ensures AllGrammatical([e] + more) && TreesOf([e] + more) == [TreeOf(e)] + TreesOf(more)
    ensures TextList([e] + more, close) == Text(e) + ([TSym(Comma)] + TextList(more, close))
  {
    var all := [e] + more;
    assert all[1..] == more && |all| > 1 && all[0] == e;
    hide Text;
    hide Grammatical;
    hide TreeOf;
  }

  lemma LastItem(e: Cst, close: Sym, u: Tokens)
    requires Grammatical(e) && At(u, close)
    ensures AllGrammatical([e]) && TreesOf([e]) == [TreeOf(e)] && Text(e) + u == TextList([e], close) + u[1..]
  {
    assert [e][1..] == [] && u == [TSym(close)] + u[1..];
    hide Text;
    hide Grammatical;
  }

  lemma {:induction false} MapWritten(ts: Tokens) returns (pairs: seq<CPair>)
    requires ParseMap(ts).Done?
    ensures PairsGrammatical(pairs)
    ensures var p := ParseMap(ts); PairTrees(pairs) == p.value && ts == TextPairs(pairs) + p.rest
    decreases |ts|, 13, 2
  {
    if At(ts, RBrace) {
      pairs := [];
      assert ts == [TSym(RBrace)] + ts[1..];
    } else {
      pairs := PairsWritten(ts);
    }
  }

  lemma {:induction false} PairsWritten(ts: Tokens) returns (pairs: seq<CPair>)
    requires ParsePairs(ts).Done?
    ensures PairsGrammatical(pairs) && pairs != []
    ensures var p := ParsePairs(ts); PairTrees(pairs) == p.value && ts == TextPairs(pairs) + p.rest
    decreases |ts|, 13, 1
  {
    var e := PairWritten(ts);
    var u := ParsePair(ts).rest;
    if At(u, Comma) {
      var more := PairsWritten(u[1..]);
      pairs := [e] + more;
      assert pairs[1..] == more && u == [TSym(Comma)] + u[1..];
    } else {
      pairs := [e];
      assert pairs[1..] == [] && u == [TSym(RBrace)] + u[1..];
    }
    hide ParsePair;
    hide PairGrammatical;
    hide TextPair;
  }

  lemma {:induction false} PairWritten(ts: Tokens) returns (p: CPair)
    requires ParsePair(ts).Done?
    ensures PairGrammatical(p)
    ensures var r := ParsePair(ts); PairTree(p) == r.value && ts == TextPair(p) + r.rest
    decreases |ts|, 13, 0
  {
    var k := ParseWritten(0, ts);
    var u := Parse(0, ts).rest;
    var v := ParseWritten(0, u[1..]);
    p := CPair(k, v);
    var rest := Parse(0, u[1..]).rest;
    assert u == [TSym(Colon)] + (Text(v) + rest);
    assert TextPair(p) == Text(k) + ([TSym(Colon)] + Text(v));
    hide Parse;
    hide Grammatical;
    hide Text;
  }

  ghost predicate Writes(ts: Tokens, e: Ast) {
    exists d :: Grammatical(d) && Text(d) == ts && TreeOf(d) == e
  }

  /** The parser accepts exactly what the grammar writes, and builds the tree that is meant. */
  lemma ParsesTheGrammar(ts: Tokens, e: Ast)
    ensures Parse(0, ts) == Done(e, []) <==> Writes(ts, e)
  {
    hide *;
    if Parse(0, ts) == Done(e, []) {
      var d := ParseWritten(0, ts);
      assert Text(d) + [] == Text(d);
      WritesIs(d, ts, e);
    }
    if Writes(ts, e) {
      var d := WriterOf(ts, e);
      assert Text(d) + [] == Text(d);
      StopsAtEnd();
      ParseInvertsText(d, 0, []);
    }
  }

  lemma WritesIs(d: Cst, ts: Tokens, e: Ast)
    requires Grammatical(d) && Text(d) == ts && TreeOf(d) == e
    ensures Writes(ts, e)
  {
  }

  lemma WriterOf(ts: Tokens, e: Ast) returns (d: Cst)
    requires Writes(ts, e)
    ensures Grammatical(d) && Text(d) == ts && TreeOf(d) == e
  {
    hide Grammatical;
    hide Text;
    hide TreeOf;
    d :| Grammatical(d) && Text(d) == ts && TreeOf(d) == e;
  }

  lemma StopsAtEnd()
    ensures Stops(0, [])
  {
  }

  /** Three operands: the second operator groups first exactly if it stands in a tighter row. */
  lemma Precedence(a: Token, op1: Sym, b: Token, op2: Sym, c: Token)
    requires IsAtom(a) && IsAtom(b) && IsAtom(c) && Row(op1) > 0 && Row(op2) > 0
    ensures Parse(0, [a, TSym(op1), b, TSym(op2), c]) ==
            Done(if Row(op2) > Row(op1) then Binary(op1, Atom(a), Binary(op2, Atom(b), Atom(c)))
                 else Binary(op2, Binary(op1, Atom(a), Atom(b)), Atom(c)), [])
  {
    hide *;
    var ts := [a, TSym(op1), b, TSym(op2), c];
    var x := AtomMade(a);
    var y := AtomMade(b);
    var z := AtomMade(c);
    if Row(op2) > Row(op1) {
      var r := Two(op2, y, z);
      var d := Two(op1, x, r);
      assert [a] + ([TSym(op1)] + ([b] + ([TSym(op2)] + [c]))) == ts;
      WritesIs(d, ts, TreeOf(d));
      ParsesTheGrammar(ts, TreeOf(d));
    } else {
      var l := Two(op1, x, y);
      var d := Two(op2, l, z);
      assert ([a] + ([TSym(op1)] + [b])) + ([TSym(op2)] + [c]) == ts;
      WritesIs(d, ts, TreeOf(d));
      ParsesTheGrammar(ts, TreeOf(d));
    }
  }

  lemma AtomMade(t: Token) returns (d: Cst)
    requires IsAtom(t)
    ensures Grammatical(d) && LevelOf(d) == 10 && Text(d) == [t] && TreeOf(d) == Atom(t)
  {
    TablesAgree();
    d := CAtom(t);
  }

  lemma Two(op: Sym, l: Cst, r: Cst) returns (d: Cst)
    requires Row(op) > 0 && Grammatical(l) && Grammatical(r) && LevelOf(l) >= Row(op) && LevelOf(r) > Row(op)
    ensures Grammatical(d) && LevelOf(d) == Row(op) <= 7
    ensures TreeOf(d) == Binary(op, TreeOf(l), TreeOf(r)) && Text(d) == Text(l) + ([TSym(op)] + Text(r))
  {
    hide Row;
    d := CBinary(op, l, r);
  }

  // ----- every tree can be written -----

  /** The trees that have only the tokens and operators of the grammar. */
  predicate Writable(e: Ast)
    decreases e, 0
  {
    match e
    case Atom(t) => t.TNum? || t.TStr? || t.TId? || (t.TKw? && t.kw in WORDS)
    case ListLit(items) => AllWritable(items)
    case MapLit(pairs) => PairsWritable(pairs)
    case Call(f, args) => Writable(f) && AllWritable(args)
    case Index(a, i) => Writable(a) && Writable(i)
    case MemberOf(a, name) => Writable(a) && (name.TId? || name.TKw?)
    case Postfix(op, a) => op in POSTFIXES && Writable(a)
    case Unary(op, a) => op in PREFIXES && Writable(a)
    case Cast(ty, a) => ty in CASTS && Writable(a)
    case Binary(op, l, r) => Row(op) > 0 && Writable(l) && Writable(r)
    case Conditional(c, a, b) => Writable(c) && Writable(a) && Writable(b)
  }

  predicate AllWritable(items: seq<Ast>)
    decreases items, 0
  {
    items == [] || (Writable(items[0]) && AllWritable(items[1..]))
  }

  predicate PairsWritable(pairs: seq<Pair>)
    decreases pairs, 0
  {
    pairs == [] || (PairWritable(pairs[0]) && PairsWritable(pairs[1..]))
  }

  predicate PairWritable(p: Pair)
    decreases p, 1
  {
    Writable(p.key) && Writable(p.value)
  }

  /** Parentheses only where the grammar needs them (`FewestTokens`). */
  function Write(e: Ast): Cst
    decreases e, 0
  {
    match e
    case Atom(t) => CAtom(t)
    case ListLit(items) => CList(WriteAll(items))
    case MapLit(pairs) => CMap(WritePairs(pairs))
    case Call(f, args) => CCall(Wrapped(f, 9), WriteAll(args))
    case Index(a, i) => CIndex(Wrapped(a, 9), Write(i))
    case MemberOf(a, name) => CMember(Wrapped(a, 9), name)
    case Postfix(op, a) => CPostfix(op, Wrapped(a, 9))
    case Unary(op, a) => CUnary(op, Wrapped(a, 9))
    case Cast(ty, a) => CCast(ty, Wrapped(a, 8))
    case Binary(op, l, r) => CBinary(op, Wrapped(l, Row(op)), Wrapped(r, Row(op) + 1))
    case Conditional(c, a, b) => CCond(Wrapped(c, 1), Write(a), Write(b))
  }

  function Wrapped(e: Ast, level: nat): Cst
    decreases e, 1
  {
    var d := Write(e);
    if LevelOf(d) >= level then d else CParen(d)
  }

  function WriteAll(items: seq<Ast>): seq<Cst>
    decreases items, 0
  {
    if items == [] then [] else [Write(items[0])] + WriteAll(items[1..])
  }

  function WritePairs(pairs: seq<Pair>): seq<CPair>
    decreases pairs, 0
  {
    if pairs == [] then [] else [WritePair(pairs[0])] + WritePairs(pairs[1..])
  }

  function WritePair(p: Pair): CPair
    decreases p, 1
  {
    CPair(Write(p.key), Write(p.value))
  }

  lemma {:induction false} WrittenRight(e: Ast)
    requires Writable(e)
    ensures Grammatical(Write(e)) && TreeOf(Write(e)) == e
    decreases e, 0, 1
  {
    hide AllWritable;
    hide PairsWritable;
    hide AllGrammatical;
    hide PairsGrammatical;
    hide Wrapped;
    hide Row;
    if e.Call? || e.Index? || e.MemberOf? || e.Postfix? {
      PostfixRight(e);
    } else if e.Binary? || e.Conditional? {
      OperatorRight(e);
    } else {
      match e
      case Atom(t) =>
      case ListLit(items) => AllWrittenRight(items);
      case MapLit(pairs) => PairsWrittenRight(pairs);
      case Unary(op, a) => WrappedRight(a, 9);
      case Cast(ty, a) => WrappedRight(a, 8);
    }
  }

  lemma {:induction false} OperatorRight(e: Ast)
    requires Writable(e) && (e.Binary? || e.Conditional?)
    ensures Grammatical(Write(e)) && TreeOf(Write(e)) == e
    decreases e, 0, 0
  {
    hide Row;
    hide Wrapped;
    if e.Binary? {
      WrappedRight(e.left, Row(e.op));
      WrappedRight(e.right, Row(e.op) + 1);
    } else {
      WrappedRight(e.cond, 1);
      WrittenRight(e.yes);
      WrittenRight(e.no);
    }
  }

  lemma {:induction false} PostfixRight(e: Ast)
    requires Writable(e) && (e.Call? || e.Index? || e.MemberOf? || e.Postfix?)
    ensures Grammatical(Write(e)) && TreeOf(Write(e)) == e
    decreases e, 0, 0
  {
    hide AllWritable;
    hide AllGrammatical;
    hide Wrapped;
    match e
    case Call(f, args) => WrappedRight(f, 9); AllWrittenRight(args);
    case Index(a, i) => WrappedRight(a, 9); WrittenRight(i);
    case MemberOf(a, name) => WrappedRight(a, 9);
    case Postfix(op, a) => WrappedRight(a, 9);
  }

  lemma {:induction false} WrappedRight(e: Ast, level: nat)
    requires Writable(e) && level <= 10
    ensures Grammatical(Wrapped(e, level)) && TreeOf(Wrapped(e, level)) == e && LevelOf(Wrapped(e, level)) >= level
    decreases e, 1
  {
    WrittenRight(e);
    hide Write;
    hide Writable;
  }

  lemma {:induction false} AllWrittenRight(items: seq<Ast>)
    requires AllWritable(items)
    ensures AllGrammatical(WriteAll(items)) && TreesOf(WriteAll(items)) == items
    decreases items, 0
  {
    if items != [] {
      WrittenRight(items[0]);
      AllWrittenRight(items[1..]);
      hide Write;
      hide Writable;
      hide Grammatical;
      hide TreeOf;
    }
  }

  lemma {:induction false} PairsWrittenRight(pairs: seq<Pair>)
    requires PairsWritable(pairs)
    ensures PairsGrammatical(WritePairs(pairs)) && PairTrees(WritePairs(pairs)) == pairs
    decreases pairs, 0
  {
    if pairs != [] {
      PairWrittenRight(pairs[0]);
      PairsWrittenRight(pairs[1..]);
      hide WritePair;
      hide PairWritable;
      hide PairGrammatical;
      hide PairTree;
    }
  }

  lemma {:induction false} PairWrittenRight(p: Pair)
    requires PairWritable(p)
    ensures PairGrammatical(WritePair(p)) && PairTree(WritePair(p)) == p
    decreases p, 1
  {
    WrittenRight(p.key);
    WrittenRight(p.value);
    hide Write;
    hide Writable;
    hide Grammatical;
    hide TreeOf;
  }

  /** Every tree, written with parentheses where the grammar needs them, parses back to itself. */
  lemma ExpressionRoundTrip(e: Ast)
    requires Writable(e)
    ensures Parse(0, Text(Write(e))) == Done(e, [])
  {
    WrittenRight(e);
    hide *;
    WritesIs(Write(e), Text(Write(e)), e);
    ParsesTheGrammar(Text(Write(e)), e);
  }

  // ----- no text of a tree is shorter -----

  lemma {:induction false} Shortest(d: Cst)
    requires Grammatical(d)
    ensures |Text(Write(TreeOf(d)))| <= |Text(d)|
    ensures !d.CParen? ==> LevelOf(Write(TreeOf(d))) == LevelOf(d)
    decreases d, 1
  {
    hide Row;
    hide Wrapped;
    hide TextList;
    hide TextPairs;
    hide AllGrammatical;
    hide PairsGrammatical;
    if d.CCall? || d.CIndex? || d.CMember? || d.CPostfix? {
      PostfixShortest(d);
    } else if d.CBinary? || d.CCond? {
      OperatorShortest(d);
    } else {
      match d
      case CAtom(_) =>
      case CParen(inner) => Shortest(inner);
      case CList(items) => AllShortest(items, RBracket);
      case CMap(pairs) => PairsShortest(pairs);
      case CUnary(_, a) => ShortestAt(a, 9);
      case CCast(_, a) => ShortestAt(a, 8);
    }
  }

  lemma {:induction false} PostfixShortest(d: Cst)
    requires Grammatical(d) && (d.CCall? || d.CIndex? || d.CMember? || d.CPostfix?)
    ensures |Text(Write(TreeOf(d)))| <= |Text(d)| && LevelOf(Write(TreeOf(d))) == LevelOf(d)
    decreases d, 0
  {
    hide Wrapped;
    hide TextList;
    hide AllGrammatical;
    match d
    case CCall(f, args) => ShortestAt(f, 9); AllShortest(args, RParen);
    case CIndex(a, i) => ShortestAt(a, 9); Shortest(i);
    case CMember(a, _) => ShortestAt(a, 9);
    case CPostfix(_, a) => ShortestAt(a, 9);
  }

  lemma {:induction false} OperatorShortest(d: Cst)
    requires Grammatical(d) && (d.CBinary? || d.CCond?)
    ensures |Text(Write(TreeOf(d)))| <= |Text(d)| && LevelOf(Write(TreeOf(d))) == LevelOf(d)
    decreases d, 0
  {
    hide Row;
    hide Wrapped;
    if d.CBinary? {
      ShortestAt(d.left, Row(d.op));
      ShortestAt(d.right, Row(d.op) + 1);
    } else {
      ShortestAt(d.cond, 1);
      Shortest(d.yes);
      Shortest(d.no);
    }
  }

  lemma {:induction false} ShortestAt(d: Cst, level: nat)
    requires Grammatical(d) && level <= LevelOf(d)
    ensures |Text(Wrapped(TreeOf(d), level))| <= |Text(d)|
    decreases d, 2
  {
    var w := Write(TreeOf(d));
    if d.CParen? { Shortest(d.inner); } else { Shortest(d); }
    assert |Text(CParen(w))| == |Text(w)| + 2;
    hide Write;
    hide Grammatical;
    hide LevelOf;
  }

  lemma {:induction false} AllShortest(items: seq<Cst>, close: Sym)
    requires AllGrammatical(items)
    ensures var ws := WriteAll(TreesOf(items));
            |ws| == |items| && |TextList(ws, close)| <= |TextList(items, close)|
    decreases items, 0
  {
    if items != [] {
      Shortest(items[0]);
      AllShortest(items[1..], close);
      hide Write;
      hide TreeOf;
      hide Text;
      hide Grammatical;
      var ws := WriteAll(TreesOf(items));
      assert ws[0] == Write(TreeOf(items[0])) && ws[1..] == WriteAll(TreesOf(items[1..]));
    }
  }

  lemma {:induction false} PairsShortest(pairs: seq<CPair>)
    requires PairsGrammatical(pairs)
    ensures var ws := WritePairs(PairTrees(pairs));
            |ws| == |pairs| && |TextPairs(ws)| <= |TextPairs(pairs)|
    decreases pairs, 0
  {
    if pairs != [] {
      PairShortest(pairs[0]);
      PairsShortest(pairs[1..]);
      hide WritePair;
      hide PairTree;
      hide TextPair;
      hide PairGrammatical;
      var ws := WritePairs(PairTrees(pairs));
      assert ws[0] == WritePair(PairTree(pairs[0])) && ws[1..] == WritePairs(PairTrees(pairs[1..]));
    }
  }

  lemma {:induction false} PairShortest(p: CPair)
    requires PairGrammatical(p)
    ensures |TextPair(WritePair(PairTree(p)))| <= |TextPair(p)|
    decreases p, 3
  {
    Shortest(p.key);
    Shortest(p.value);
    hide Write;
    hide TreeOf;
    hide Text;
    hide Grammatical;
  }

  /** Of all tokens that are read as a tree, no sequence is shorter than the one written here. */
  lemma FewestTokens(e: Ast, ts: Tokens)
    requires Parse(0, ts) == Done(e, [])
    ensures |Text(Write(e))| <= |ts|
  {
    hide *;
    ParsesTheGrammar(ts, e);
    var d := WriterOf(ts, e);
    Shortest(d);
  }
}
