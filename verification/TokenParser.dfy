/** The expression parser as the frontend runs it: a cursor that moves over the tokens, and loops for
    operator chains, postfix forms and lists.  Each method is tied to a function of `ExprParser.dfy`. */
module TokenParser {
  import opened ExprParser

  class Cursor {
    const toks: Tokens
    var i: nat

    constructor (tokens: Tokens)
      ensures toks == tokens && i == 0
    {
      toks, i := tokens, 0;
    }

    /** `p_at(p, TK_SYM, ...)`. */
    function Sees(s: Sym): bool
      reads this
    {
      i < |toks| && toks[i] == TSym(s)
    }

    /** What a method read against what the function says of the tokens from the old position. */
    ghost predicate Reads<T(!new)>(ok: bool, value: T, p: Parsed<T>)
      reads this
    {
      i <= |toks| && (ok <==> p.Done?) && (ok ==> value == p.value && toks[i..] == p.rest)
    }

    /** `parse_conditional_expr` down to `parse_primary_expr`, by level. */
    method Level(level: nat) returns (ok: bool, e: Ast)
      requires level <= 10 && i <= |toks|
      modifies this
      ensures Reads(ok, e, Parse(level, toks[old(i)..])) && (ok ==> i > old(i))
      decreases |toks| - i, 12 - level, 1
    {
      ok, e := false, ListLit([]);
      if level == 0 {
        ok, e := TernaryLevel();
      } else if level <= 7 {
        ok, e := Chain(level);
      } else if level == 8 {
        ok, e := UnaryLevel();
      } else if level == 9 {
        ok, e := PostfixLevel();
      } else {
        ok, e := Primary();
      }
    }

    method TernaryLevel() returns (ok: bool, e: Ast)
      requires i <= |toks|
      modifies this
      ensures Reads(ok, e, Parse(0, toks[old(i)..])) && (ok ==> i > old(i))
      decreases |toks| - i, 12, 0
    {
      hide ParseChain;
      hide ParsePostfix;
      hide ParseList;
      var start := i;
      ok, e := Level(1);
      if !ok { return; }
      ghost var t := toks[i..];
      if !Sees(Question) { return; }
      i := i + 1;
      assert toks[i..] == t[1..];
      var ok1, a := Level(0);
      if !ok1 || !Sees(Colon) { return false, e; }
      ghost var u := toks[i..];
      i := i + 1;
      assert toks[i..] == u[1..];
      var ok2, b := Level(0);
      if !ok2 { return false, e; }
      return true, Conditional(e, a, b);
    }

    /** `parse_bin_chain`. */
    method Chain(level: nat) returns (ok: bool, left: Ast)
      requires 1 <= level <= 7 && i <= |toks|
      modifies this
      ensures Reads(ok, left, Parse(level, toks[old(i)..])) && (ok ==> i > old(i))
      decreases |toks| - i, 12 - level, 0
    {
      hide *;
      ghost var all := Parse(level, toks[i..]);
      var start := i;
      ok, left := Level(level + 1);
      ReadsParts(ok, left, Parse(level + 1, toks[start..]));
      if !ok {
        ChainFails(level, toks[start..]);
        ReadsFail(left, all);
        return;
      }
      ChainHead(level, toks[start..], left, toks[i..]);
      while i < |toks| && toks[i].TSym? && OpLevel(toks[i].sym) == level
        invariant start < i <= |toks| && ok && ParseChain(level, left, toks[i..]) == all
        decreases |toks| - i
      {
        var op := toks[i].sym;
        ghost var rest := toks[i + 1..];
        assert toks[i..] == [TSym(op)] + rest;
        i := i + 1;
        var ok1, right := Level(level + 1);
        ReadsParts(ok1, right, Parse(level + 1, rest));
        ChainOne(level, op, left, rest);
        if !ok1 {
          ok := false;
          ReadsFail(left, all);
          return;
        }
        left := Binary(op, left, right);
      }
      ChainDone(level, left, toks[i..]);
      ReadsDone(left, all);
    }

    lemma ReadsParts<T(!new)>(ok: bool, value: T, p: Parsed<T>)
      requires Reads(ok, value, p)
      ensures i <= |toks| && (ok <==> p.Done?) && (ok ==> value == p.value && toks[i..] == p.rest)
    {
    }

    lemma ReadsFail<T(!new)>(value: T, p: Parsed<T>)
      requires i <= |toks| && !p.Done?
      ensures Reads(false, value, p)
    {
    }

    method UnaryLevel() returns (ok: bool, e: Ast)
      requires i <= |toks|
      modifies this
      ensures Reads(ok, e, Parse(8, toks[old(i)..])) && (ok ==> i > old(i))
      decreases |toks| - i, 4, 0
    {
      hide ParsePostfix;
      hide ParseList;
      ghost var t := toks[i..];
      if i + 1 < |toks| && Sees(LParen) && toks[i + 1].TKw? && IsCastType(toks[i + 1].kw) {
        var ty := toks[i + 1].kw;
        i := i + 2;
        assert At(t[2..], RParen) <==> Sees(RParen);
        if !Sees(RParen) { return false, ListLit([]); }
        i := i + 1;
        assert toks[i..] == t[3..];
        var ok1, arg := Level(8);
        return ok1, Cast(ty, arg);
      }
      if i < |toks| && toks[i].TSym? && IsPrefix(toks[i].sym) {
        var op := toks[i].sym;
        i := i + 1;
        assert toks[i..] == t[1..];
        var ok1, arg := Level(9);
        return ok1, Unary(op, arg);
      }
      ok, e := Level(9);
    }

    method PostfixLevel() returns (ok: bool, e: Ast)
      requires i <= |toks|
      modifies this
      ensures Reads(ok, e, Parse(9, toks[old(i)..])) && (ok ==> i > old(i))
      decreases |toks| - i, 3, 0
    {
      ghost var all := Parse(9, toks[i..]);
      var start := i;
      ok, e := Level(10);
      if !ok {
        PostfixFails(toks[start..]);
        return;
      }
      PostfixHead(toks[start..], e, toks[i..]);
      hide *;
      while i < |toks| && PostfixStarts(toks[i])
        invariant start < i <= |toks| && ok && ParsePostfix(e, toks[i..]) == all
        decreases |toks| - i
      {
        ok, e := PostfixForm(e);
        if !ok {
          ReadsFail(e, all);
          return;
        }
      }
      PostfixStops(e, toks[i..]);
      ReadsDone(e, all);
    }

    /** One call, index, member or postfix operator. */
    method PostfixForm(e: Ast) returns (ok: bool, e1: Ast)
      requires i < |toks| && PostfixStarts(toks[i])
      modifies this
      ensures i <= |toks|
      ensures ok ==> i > old(i) && ParsePostfix(e, toks[old(i)..]) == ParsePostfix(e1, toks[i..])
      ensures !ok ==> ParsePostfix(e, toks[old(i)..]) == Fail
      decreases |toks| - i, 2, 0
    {
      ghost var t := toks[i..];
      var head := toks[i];
      assert t[0] == head && t[1..] == toks[i + 1..];
      PostfixForms(e, t);
      hide *;
      i := i + 1;
      if head == TSym(LParen) {
        var ok1, args := List(RParen);
        ReadsParts(ok1, args, ParseList(t[1..], RParen));
        ok, e1 := ok1, Call(e, args);
      } else if head == TSym(LBracket) {
        var ok1, index := Level(0);
        ReadsParts(ok1, index, Parse(0, t[1..]));
        if !ok1 || i >= |toks| || toks[i] != TSym(RBracket) { return false, e; }
        ghost var u := toks[i..];
        i := i + 1;
        assert toks[i..] == u[1..];
        ok, e1 := true, Index(e, index);
      } else if head == TSym(Dot) {
        if i >= |toks| || !(toks[i].TId? || toks[i].TKw?) { return false, e; }
        assert t[1] == toks[i] && t[2..] == toks[i + 1..];
        ok, e1 := true, MemberOf(e, toks[i]);
        i := i + 1;
      } else {
        StartsHead(head);
        ok, e1 := true, Postfix(head.sym, e);
      }
    }

    lemma ReadsDone<T(!new)>(value: T, p: Parsed<T>)
      requires i <= |toks| && p == Done(value, toks[i..])
      ensures Reads(true, value, p)
    {
    }

    method Primary() returns (ok: bool, e: Ast)
      requires i <= |toks|
      modifies this
      ensures Reads(ok, e, Parse(10, toks[old(i)..])) && (ok ==> i > old(i))
      decreases |toks| - i, 2, 0
    {
      hide ParseList;
      hide ParseMap;
      ghost var t := toks[i..];
      if i >= |toks| { return false, ListLit([]); }
      if IsAtom(toks[i]) {
        i := i + 1;
        assert toks[i..] == t[1..];
        return true, Atom(toks[i - 1]);
      }
      if Sees(LParen) {
        i := i + 1;
        assert toks[i..] == t[1..];
        ok, e := Level(0);
        if !ok || !Sees(RParen) { return false, e; }
        ghost var u := toks[i..];
        i := i + 1;
        assert toks[i..] == u[1..];
        return true, e;
      }
      if Sees(LBracket) {
        i := i + 1;
        assert toks[i..] == t[1..];
        var ok1, items := List(RBracket);
        return ok1, ListLit(items);
      }
      if Sees(LBrace) {
        i := i + 1;
        assert toks[i..] == t[1..];
        var ok1, pairs := Pairs();
        return ok1, MapLit(pairs);
      }
      return false, ListLit([]);
    }

    /** Expressions between the opening symbol, already read, and the closing one. */
    method List(close: Sym) returns (ok: bool, items: seq<Ast>)
      requires i <= |toks| && close != Comma
      modifies this
      ensures Reads(ok, items, ParseList(toks[old(i)..], close)) && (ok ==> i > old(i))
      decreases |toks| - i, 13, 0
    {
      hide *;
      ghost var all := ParseList(toks[i..], close);
      ListForms(toks[i..], close);
      items := [];
      var start := i;
      if i < |toks| && toks[i] == TSym(close) {
        ghost var t := toks[i..];
        i := i + 1;
        assert toks[i..] == t[1..];
        ReadsDone(items, all);
        return true, items;
      }
      assert toks[i..] != [] ==> toks[i..][0] == toks[i];
      ConcatNothing(ParseItems(toks[i..], close));
      while true
        invariant start <= i <= |toks| && all == Concat(items, ParseItems(toks[i..], close))
        decreases |toks| - i
      {
        ghost var t := toks[i..];
        var ok1, e := Level(0);
        ReadsParts(ok1, e, Parse(0, t));
        ghost var u := toks[i..];
        assert u != [] ==> u[0] == toks[i];
        ItemRead(all, items, ok1, e, t, u, close);
        if ok1 && i < |toks| && toks[i] == TSym(Comma) {
          i := i + 1;
          assert toks[i..] == u[1..];
          items := items + [e];
          continue;
        }
        if ok1 && i < |toks| && toks[i] == TSym(close) {
          i := i + 1;
          assert toks[i..] == u[1..];
          items := items + [e];
          ReadsDone(items, all);
          return true, items;
        }
        ReadsFail(items, all);
        return false, items;
      }
    }

    /** A key, a colon and a value. */
    method OnePair() returns (ok: bool, p: Pair)
      requires i <= |toks|
      modifies this
      ensures Reads(ok, p, ParsePair(toks[old(i)..])) && (ok ==> i > old(i))
      decreases |toks| - i, 13, 0
    {
      hide *;
      ghost var t := toks[i..];
      ghost var all := ParsePair(t);
      PairForms(t);
      var ok1, k := Level(0);
      p := Pair(k, k);
      ReadsParts(ok1, k, Parse(0, t));
      ghost var u := toks[i..];
      if !ok1 || i >= |toks| || toks[i] != TSym(Colon) {
        assert u != [] ==> u[0] == toks[i];
        ReadsFail(p, all);
        return false, p;
      }
      i := i + 1;
      assert u[0] == TSym(Colon) && toks[i..] == u[1..];
      var ok2, v := Level(0);
      ReadsParts(ok2, v, Parse(0, u[1..]));
      p := Pair(k, v);
      ok := ok2;
      if ok { ReadsDone(p, all); } else { ReadsFail(p, all); }
    }

    /** Keys and values between the opening brace, already read, and the closing one. */
    method Pairs() returns (ok: bool, pairs: seq<Pair>)
      requires i <= |toks|
      modifies this
      ensures Reads(ok, pairs, ParseMap(toks[old(i)..])) && (ok ==> i > old(i))
      decreases |toks| - i, 14, 0
    {
      hide *;
      ghost var all := ParseMap(toks[i..]);
      MapForms(toks[i..]);
      pairs := [];
      var start := i;
      if i < |toks| && toks[i] == TSym(RBrace) {
        ghost var t := toks[i..];
        i := i + 1;
        assert toks[i..] == t[1..];
        ReadsDone(pairs, all);
        return true, pairs;
      }
      assert toks[i..] != [] ==> toks[i..][0] == toks[i];
      ConcatNothing(ParsePairs(toks[i..]));
      while true
        invariant start <= i <= |toks| && all == Concat(pairs, ParsePairs(toks[i..]))
        decreases |toks| - i
      {
        ghost var t := toks[i..];
        PairsForms(t);
        var ok1, p := OnePair();
        ReadsParts(ok1, p, ParsePair(t));
        ConcatMore(pairs, p, ParsePairs(if ok1 && toks[i..] != [] then toks[i..][1..] else []));
        ghost var u := toks[i..];
        if ok1 && i < |toks| && toks[i] == TSym(Comma) {
          i := i + 1;
          assert u[0] == TSym(Comma) && toks[i..] == u[1..];
          pairs := pairs + [p];
          continue;
        }
        if ok1 && i < |toks| && toks[i] == TSym(RBrace) {
          i := i + 1;
          assert u[0] == TSym(RBrace) && toks[i..] == u[1..];
          ConcatLast(pairs, p, u[1..]);
          pairs := pairs + [p];
          ReadsDone(pairs, all);
          return true, pairs;
        }
        assert u != [] ==> u[0] == toks[i];
        ConcatFail(pairs);
        ReadsFail(pairs, all);
        return false, pairs;
      }
    }
  }

  // ----- unfolding the functions once -----

  lemma MapForms(t: Tokens)
    ensures ParseMap(t) == if t != [] && t[0] == TSym(RBrace) then Done([], t[1..]) else ParsePairs(t)
  {
    hide ParsePairs;
  }

  lemma PairForms(t: Tokens)
    ensures var k := Parse(0, t);
            ParsePair(t) ==
            if !k.Done? || k.rest == [] || k.rest[0] != TSym(Colon) then Fail
            else
              var v := Parse(0, k.rest[1..]);
              if v.Done? then Done(Pair(k.value, v.value), v.rest) else Fail
  {
    hide Parse;
  }

  lemma PairsForms(t: Tokens)
    ensures var p := ParsePair(t);
            ParsePairs(t) ==
            if !p.Done? || p.rest == [] then Fail
            else if p.rest[0] == TSym(Comma) then Concat([p.value], ParsePairs(p.rest[1..]))
            else if p.rest[0] == TSym(RBrace) then Done([p.value], p.rest[1..])
            else Fail
  {
    hide ParsePair;
  }

  lemma ChainFails(level: nat, ts: Tokens)
    requires 1 <= level <= 7 && Parse(level + 1, ts) == Fail
    ensures Parse(level, ts) == Fail
  {
  }

  lemma ChainOne(level: nat, op: Sym, left: Ast, ts: Tokens)
    requires 1 <= level <= 7 && OpLevel(op) == level
    ensures var right := Parse(level + 1, ts);
            ParseChain(level, left, [TSym(op)] + ts) ==
            if right.Done? then ParseChain(level, Binary(op, left, right.value), right.rest) else Fail
  {
    hide Parse;
    assert ([TSym(op)] + ts)[1..] == ts;
  }

  lemma ChainDone(level: nat, left: Ast, ts: Tokens)
    requires 1 <= level <= 7 && (ts == [] || !ts[0].TSym? || OpLevel(ts[0].sym) != level)
    ensures ParseChain(level, left, ts) == Done(left, ts)
  {
  }

  lemma PostfixFails(ts: Tokens)
    requires Parse(10, ts) == Fail
    ensures Parse(9, ts) == Fail
  {
  }

  lemma PostfixForms(e: Ast, t: Tokens)
    requires t != []
    ensures t[0] == TSym(LParen) ==>
              var args := ParseList(t[1..], RParen);
              ParsePostfix(e, t) == if args.Done? then ParsePostfix(Call(e, args.value), args.rest) else Fail
    ensures t[0] == TSym(LBracket) ==>
              var index := Parse(0, t[1..]);
              ParsePostfix(e, t) ==
              if index.Done? && index.rest != [] && index.rest[0] == TSym(RBracket) then
                ParsePostfix(Index(e, index.value), index.rest[1..]) else Fail
    ensures t[0] == TSym(Dot) ==>
              ParsePostfix(e, t) == if |t| >= 2 && (t[1].TId? || t[1].TKw?) then ParsePostfix(MemberOf(e, t[1]), t[2..])
              else Fail
    ensures t[0] == TSym(Inc) || t[0] == TSym(Dec) ==> ParsePostfix(e, t) == ParsePostfix(Postfix(t[0].sym, e), t[1..])
  {
    hide ParseList;
    hide Parse;
  }

  predicate PostfixStarts(t: Token) {
    t == TSym(LParen) || t == TSym(LBracket) || t == TSym(Dot) || t == TSym(Inc) || t == TSym(Dec)
  }

  lemma StartsHead(t: Token)
    requires PostfixStarts(t) && t != TSym(LParen) && t != TSym(LBracket) && t != TSym(Dot)
    ensures t == TSym(Inc) || t == TSym(Dec)
  {
  }

  lemma PostfixStops(e: Ast, t: Tokens)
    requires t == [] || !PostfixStarts(t[0])
    ensures ParsePostfix(e, t) == Done(e, t)
  {
    hide ParseList;
    hide Parse;
  }

  ghost function Concat<T>(items: seq<T>, p: Parsed<seq<T>>): Parsed<seq<T>> {
    match p case Done(more, rest) => Done(items + more, rest) case Fail => Fail
  }

  lemma ConcatNothing<T>(p: Parsed<seq<T>>)
    ensures Concat([], p) == p
  {
    if p.Done? { assert [] + p.value == p.value; }
  }

  lemma ConcatMore<T>(items: seq<T>, e: T, p: Parsed<seq<T>>)
    ensures Concat(items, Concat([e], p)) == Concat(items + [e], p)
  {
    if p.Done? { assert items + ([e] + p.value) == (items + [e]) + p.value; }
  }

  lemma ConcatLast<T>(items: seq<T>, e: T, rest: Tokens)
    ensures Concat(items, Done([e], rest)) == Done(items + [e], rest)
  {
  }

  lemma ConcatFail<T>(items: seq<T>)
    ensures Concat(items, Fail) == Fail
  {
  }

  /** One expression of a list has been read, or could not be. */
  lemma ItemRead(all: Parsed<seq<Ast>>, items: seq<Ast>, ok: bool, e: Ast, t: Tokens, u: Tokens, close: Sym)
    requires close != Comma && all == Concat(items, ParseItems(t, close))
    requires if ok then Parse(0, t) == Done(e, u) else Parse(0, t) == Fail
    ensures ok && u != [] && u[0] == TSym(Comma) ==> all == Concat(items + [e], ParseItems(u[1..], close))
    ensures ok && u != [] && u[0] == TSym(close) ==> all == Done(items + [e], u[1..])
    ensures !ok || u == [] || (u[0] != TSym(Comma) && u[0] != TSym(close)) ==> all == Fail
  {
    ItemsForms(t, close);
    hide Parse;
    hide ParseItems;
    if ok && u != [] { ConcatMore(items, e, ParseItems(u[1..], close)); }
  }

  lemma ListForms(t: Tokens, close: Sym)
    ensures ParseList(t, close) == if t != [] && t[0] == TSym(close) then Done([], t[1..]) else ParseItems(t, close)
  {
    hide ParseItems;
  }

  lemma ItemsForms(t: Tokens, close: Sym)
    requires close != Comma
    ensures var p := Parse(0, t);
            ParseItems(t, close) ==
            if !p.Done? || p.rest == [] then Fail
            else if p.rest[0] == TSym(Comma) then Concat([p.value], ParseItems(p.rest[1..], close))
            else if p.rest[0] == TSym(close) then Done([p.value], p.rest[1..])
            else Fail
  {
    hide Parse;
  }
}
