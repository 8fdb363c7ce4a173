/** Exactly which values come back from encoding and decoding.  The decoder needs at least as many bytes
    as the value that it reads has when encoded, so a value that comes back has been read without an escape. */
module JsonExact {
  import opened Options
  import opened Basics
  import opened Utf8
  import opened Json
  import opened JsonParser

  // ----- the size of a value -----

  /** How long a value is when encoded; numbers that are not whole do not count. */
  function Size(v: Json): nat
    decreases v, 0
  {
    match v
    case Null => 4
    case Bool(b) => if b then 4 else 5
    case Number(n) => if WholeNumber(n) then |IntText(n.Floor)| else 0
    case Str(s) => |s| + 2
    case Arr(items) => if items == [] then 2 else 1 + ItemsSize(items)
    case Obj(members) => if members == [] then 2 else 1 + MembersSize(members)
  }

  /** Every element with the comma or bracket after it. */
  function ItemsSize(items: seq<Json>): nat
    decreases items, 0
  {
    if items == [] then 0 else Size(items[0]) + 1 + ItemsSize(items[1..])
  }

  function MemberSize(m: Member): nat
    decreases m, 1
  {
    |m.key| + 3 + Size(m.value) + 1
  }

  function MembersSize(members: seq<Member>): nat
    decreases members, 0
  {
    if members == [] then 0 else MemberSize(members[0]) + MembersSize(members[1..])
  }

  predicate Whole(v: Json)
    decreases v, 0
  {
    match v
    case Number(n) => WholeNumber(n)
    case Arr(items) => forall k :: 0 <= k < |items| ==> Whole(items[k])
    case Obj(members) => forall k :: 0 <= k < |members| ==> WholeMember(members[k])
    case _ => true
  }

  predicate WholeMember(m: Member)
    decreases m, 1
  {
    Whole(m.value)
  }

  lemma {:induction false} SizeIs(v: Json, num: Numbers)
    requires Whole(v) && Faithful(num)
    ensures |EncodeJson(v, num)| == Size(v)
    decreases v, 0
  {
    match v {
      case Number(n) => NumberIs(n, num);
      case Arr(items) => ItemsSizeIs(items, num);
      case Obj(members) => MembersSizeIs(members, num);
      case _ =>
    }
  }

  lemma NumberIs(n: real, num: Numbers)
    requires WholeNumber(n) && Faithful(num)
    ensures num.show(n) == IntText(n.Floor)
  {
    assert HeldExactly(n.Floor);
  }

  lemma {:induction false} ItemsSizeIs(items: seq<Json>, num: Numbers)
    requires (forall k :: 0 <= k < |items| ==> Whole(items[k])) && Faithful(num)
    ensures |EncodeItems(items, num)| + (if items == [] then 0 else 1) == ItemsSize(items)
    decreases items, 0
  {
    hide Whole;
    if items != [] {
      SizeIs(items[0], num);
      ItemsSizeIs(items[1..], num);
    }
  }

  lemma {:induction false} MembersSizeIs(members: seq<Member>, num: Numbers)
    requires (forall k :: 0 <= k < |members| ==> WholeMember(members[k])) && Faithful(num)
    ensures |EncodeMembers(members, num)| + (if members == [] then 0 else 1) == MembersSize(members)
    decreases members, 0
  {
    hide Whole;
    if members != [] {
      var m := members[0];
      assert WholeMember(m);
      SizeIs(m.value, num);
      MembersSizeIs(members[1..], num);
    }
  }

  lemma {:induction false} ItemsSizeMore(items: seq<Json>, v: Json)
    ensures ItemsSize(items + [v]) == ItemsSize(items) + Size(v) + 1
    decreases items
  {
    hide Size;
    if items == [] {
      assert [] + [v] == [v] && [v][1..] == [];
    } else {
      assert (items + [v])[1..] == items[1..] + [v];
      ItemsSizeMore(items[1..], v);
    }
  }

  // ----- values without anything to escape -----

  predicate AllClean(v: Json)
    decreases v, 0
  {
    match v
    case Str(s) => Clean(s)
    case Arr(items) => forall k :: 0 <= k < |items| ==> AllClean(items[k])
    case Obj(members) => forall k :: 0 <= k < |members| ==> CleanMember(members[k])
    case _ => true
  }

  predicate CleanMember(m: Member)
    decreases m, 1
  {
    Clean(m.key) && AllClean(m.value)
  }

  /** Strings are valid and fit their blocks, keys are unique: true of everything that is decoded. */
  predicate Decodable(v: Json)
    decreases v, 0
  {
    match v
    case Str(s) => Valid(s) && !FullBlock(|s|)
    case Arr(items) => forall k :: 0 <= k < |items| ==> Decodable(items[k])
    case Obj(members) => UniqueKeys(members) && forall k :: 0 <= k < |members| ==> DecodableMember(members[k])
    case _ => true
  }

  predicate DecodableMember(m: Member)
    decreases m, 1
  {
    Valid(m.key) && !FullBlock(|m.key|) && Decodable(m.value)
  }

  lemma {:induction false} ReadyAndFits(v: Json)
    ensures Ready(v) && Fits(v) <==> Whole(v) && AllClean(v) && Decodable(v)
    decreases v, 0
  {
    hide FullBlock;
    hide Valid;
    match v {
      case Arr(items) =>
        forall k | 0 <= k < |items|
          ensures Ready(items[k]) && Fits(items[k]) <==> Whole(items[k]) && AllClean(items[k]) && Decodable(items[k])
        {
          ReadyAndFits(items[k]);
        }
      case Obj(members) =>
        forall k | 0 <= k < |members|
          ensures ReadyMember(members[k]) && FitsMember(members[k]) <==>
                  WholeMember(members[k]) && CleanMember(members[k]) && DecodableMember(members[k])
        {
          MemberReady(members[k]);
        }
      case _ =>
    }
  }

  lemma {:induction false} MemberReady(m: Member)
    ensures ReadyMember(m) && FitsMember(m) <==> WholeMember(m) && CleanMember(m) && DecodableMember(m)
    decreases m, 1
  {
    hide FullBlock;
    hide Valid;
    hide Ready;
    hide Fits;
    hide Whole;
    hide AllClean;
    hide Decodable;
    ReadyAndFits(m.value);
  }

  // ----- texts that end where a value can end -----

  /** A text that is read as a whole number is not shorter than that number is written. */
  ghost predicate NotShorter(num: Numbers) {
    forall t: Bytes, n: int ::
      t != [] && NumberLength(t) > 0 && HeldExactly(n) && num.read(t[..NumberLength(t)]) == Some(n as real) ==>
        |IntText(n)| <= NumberLength(t)
  }

  /** The decoder takes an array or object that breaks off after a comma or a bracket; this text does not. */
  predicate Closed(t: Bytes) {
    t != [] ==> var c := t[|t| - 1]; c != COMMA && c != OPEN && c != OPENOBJ && !IsWs(c)
  }

  lemma {:induction false} SkipClosed(t: Bytes)
    requires Closed(t)
    ensures Closed(SkipWs(t)) && (t != [] ==> SkipWs(t) != []) && |SkipWs(t)| <= |t|
    decreases |t|
  {
    if t != [] && IsWs(t[0]) { SkipClosed(t[1..]); }
  }

  lemma ClosedRest(t: Bytes, k: nat)
    requires Closed(t) && k <= |t|
    ensures Closed(t[k..]) && (t != [] && (t[0] == COMMA || t[0] == OPEN || t[0] == OPENOBJ) ==> t[1..] != [])
  {
  }

  lemma UnicodeClosed(t: Bytes)
    requires Closed(t) && UnicodeEscape(t).Parsed?
    ensures Closed(UnicodeEscape(t).rest)
  {
    hide Hex4;
    hide Closed;
    if |t| >= 4 { ClosedRest(t, 4); }
    if |t| >= 10 { ClosedRest(t, 10); }
  }

  lemma {:induction false} CharsClosed(t: Bytes, buf: Bytes)
    requires Closed(t) && ParseChars(t, buf).Parsed?
    ensures Closed(ParseChars(t, buf).rest)
    decreases |t|
  {
    hide FullBlock;
    hide Valid;
    hide SimpleEscape;
    hide UnicodeEscape;
    hide Utf8Of;
    hide Closed;
    ClosedRest(t, 1);
    if t[0] == QUOTE {
    } else if t[0] == BACKSLASH {
      ClosedRest(t, 2);
      if t[1] == 0x75 {
        UnicodeClosed(t[2..]);
        var x := UnicodeEscape(t[2..]);
        CharsClosed(x.rest, buf + Utf8Of(x.value));
      } else {
        CharsClosed(t[2..], buf + [SimpleEscape(t[1]).value]);
      }
    } else {
      CharsClosed(t[1..], buf + [t[0]]);
    }
  }

  // ----- a value is not larger than the text it is read from -----

  /** `w` has been read from `size` bytes, and `rest` is left. */
  ghost predicate Fair(w: Json, rest: Bytes, size: nat) {
    Size(w) + |rest| <= size && Closed(rest) && Decodable(w) && (Size(w) + |rest| == size ==> AllClean(w))
  }

  lemma StringFair(t: Bytes)
    requires t != [] && Closed(t) && ParseChars(t[1..], []).Parsed?
    ensures var p := ParseChars(t[1..], []);
            |p.value| + 2 + |p.rest| <= |t| && Closed(p.rest) && Valid(p.value) && !FullBlock(|p.value|) &&
            (|p.value| + 2 + |p.rest| == |t| ==> Clean(p.value))
  {
    ClosedRest(t, 1);
    CharsClosed(t[1..], []);
    CharsLength(t[1..], []);
    hide *;
    var p := ParseChars(t[1..], []);
    if |p.value| + 2 + |p.rest| == |t| {
      var u :| Clean(u) && t[1..] == u + [QUOTE] + p.rest && p.value == [] + u;
      assert p.value == u;
    }
  }

  lemma NumberFair(t: Bytes, num: Numbers)
    requires t != [] && Closed(t) && NotShorter(num) && ParseNumber(t, num).Parsed?
    ensures var p := ParseNumber(t, num); Fair(p.value, p.rest, |t|)
  {
    hide NumberLength;
    ClosedRest(t, NumberLength(t));
    var x := num.read(t[..NumberLength(t)]).value;
    if WholeNumber(x) { assert HeldExactly(x.Floor) && num.read(t[..NumberLength(t)]) == Some(x.Floor as real); }
  }

  lemma WordFair(v: Json, n: nat, t: Bytes)
    requires (v.Null? || v.Bool?) && n == Size(v) && n <= |t| && Closed(t)
    ensures Fair(v, t[n..], |t|)
  {
    ClosedRest(t, n);
  }

  lemma FairMore(w: Json, rest: Bytes, size: nat, more: nat)
    requires Fair(w, rest, size) && size <= more
    ensures Fair(w, rest, more)
  {
    hide Closed;
    hide Decodable;
    hide AllClean;
  }

  lemma {:induction false} ValueFair(text: Bytes, num: Numbers)
    requires Closed(text) && NotShorter(num) && ParseValue(text, num).Parsed?
    ensures var p := ParseValue(text, num); Fair(p.value, p.rest, |text|)
    decreases |text|, 2
  {
    var t, p := SkipWs(text), ParseValue(text, num);
    SkipClosed(text);
    ValueStep(text, num);
    FirstBytes();
    hide *;
    if t[0] == 0x74 {
      BoolSizes();
      WordFair(Bool(true), 4, t);
    } else if t[0] == 0x66 {
      BoolSizes();
      WordFair(Bool(false), 5, t);
    } else if t[0] == 0x6E {
      BoolSizes();
      WordFair(Null, 4, t);
    } else if t[0] == OPEN {
      ArrayFair(t, num);
    } else if t[0] == OPENOBJ {
      ObjectFair(t, num);
    } else if t[0] == QUOTE {
      StringIsFair(t);
    } else {
      NumberFair(t, num);
    }
    FairMore(p.value, p.rest, |t|, |text|);
  }

  lemma BoolSizes()
    ensures Size(Bool(true)) == 4 && Size(Bool(false)) == 5 && Size(Null) == 4
  {
  }

  lemma StringIsFair(t: Bytes)
    requires t != [] && Closed(t) && StringText(t).Parsed?
    ensures var p := StringText(t); Fair(p.value, p.rest, |t|)
  {
    hide ParseChars;
    hide FullBlock;
    hide Valid;
    StringFair(t);
  }

  lemma {:induction false} ArrayFair(t: Bytes, num: Numbers)
    requires t != [] && t[0] == OPEN && Closed(t) && NotShorter(num) && ArrayText(t, num).Parsed?
    ensures var p := ArrayText(t, num); Fair(p.value, p.rest, |t|)
    decreases |t|, 1
  {
    ArrayStep(t, num);
    ClosedRest(t, 1);
    SkipClosed(t[1..]);
    var u := SkipWs(t[1..]);
    if u[0] == CLOSE {
      ClosedRest(u, 1);
      EmptyFair(Arr([]), u, |t|);
    } else {
      assert DecodableItems([]);
      hide *;
      ItemsFair(u, [], num);
      var p := ParseItems(u, [], num);
      FairItemsNone(p.value, p.rest, |u|);
      FairMore(p.value, p.rest, 1 + |u|, |t|);
    }
  }

  lemma {:induction false} ObjectFair(t: Bytes, num: Numbers)
    requires t != [] && t[0] == OPENOBJ && Closed(t) && NotShorter(num) && ObjectText(t, num).Parsed?
    ensures var p := ObjectText(t, num); Fair(p.value, p.rest, |t|)
    decreases |t|, 1
  {
    ObjectStep(t, num);
    ClosedRest(t, 1);
    SkipClosed(t[1..]);
    var u := SkipWs(t[1..]);
    if u[0] == CLOSEOBJ {
      ClosedRest(u, 1);
      EmptyFair(Obj([]), u, |t|);
    } else {
      assert DecodableMembers([]);
      hide *;
      MembersFair(u, [], num);
      var p := ParseMembers(u, [], num);
      FairMembersNone(p.value, p.rest, |u|);
      FairMore(p.value, p.rest, 1 + |u|, |t|);
    }
  }

  lemma EmptyFair(v: Json, u: Bytes, size: nat)
    requires (v == Arr([]) || v == Obj([])) && u != [] && Closed(u[1..]) && |u| + 1 <= size
    ensures Fair(v, u[1..], size)
  {
  }

  predicate DecodableItems(items: seq<Json>) {
    forall k :: 0 <= k < |items| ==> Decodable(items[k])
  }

  predicate CleanItems(items: seq<Json>) {
    forall k :: 0 <= k < |items| ==> AllClean(items[k])
  }

  /** An array under way: `items` have been read. */
  ghost predicate FairItems(w: Json, rest: Bytes, items: seq<Json>, size: nat) {
    Size(w) + |rest| <= 1 + ItemsSize(items) + size && Closed(rest) && Decodable(w) &&
    (Size(w) + |rest| == 1 + ItemsSize(items) + size && CleanItems(items) ==> AllClean(w))
  }

  lemma FairItemsNone(w: Json, rest: Bytes, size: nat)
    requires FairItems(w, rest, [], size)
    ensures Fair(w, rest, 1 + size)
  {
    hide Closed;
    hide Decodable;
    hide AllClean;
  }

  lemma {:induction false} ItemsFair(t: Bytes, items: seq<Json>, num: Numbers)
    requires t != [] && Closed(t) && NotShorter(num) && DecodableItems(items) && ParseItems(t, items, num).Parsed?
    ensures var p := ParseItems(t, items, num); FairItems(p.value, p.rest, items, |t|)
    decreases |t|, 3
  {
    var p, q := ParseItems(t, items, num), ParseValue(t, num);
    ItemsOne(t, items, num);
    ValueFair(t, num);
    SkipClosed(q.rest);
    var u := SkipWs(q.rest);
    ClosedRest(u, 1);
    if u[0] == COMMA {
      SkipClosed(u[1..]);
      var next := SkipWs(u[1..]);
      assert DecodableItems(items + [q.value]);
      hide *;
      ItemsFair(next, items + [q.value], num);
      ItemsOn(p.value, p.rest, items, q.value, q.rest, |t|, |next|);
    } else {
      hide *;
      ItemsLast(items, q.value, q.rest, u, |t|);
    }
  }

  lemma ItemsOn(w: Json, rest: Bytes, items: seq<Json>, v: Json, r: Bytes, size: nat, next: nat)
    requires FairItems(w, rest, items + [v], next) && Fair(v, r, size) && next + 1 <= |r|
    ensures FairItems(w, rest, items, size)
  {
    ItemsSizeMore(items, v);
    hide Closed;
    hide Decodable;
    hide AllClean;
    hide Size;
    hide ItemsSize;
  }

  lemma ItemsLast(items: seq<Json>, v: Json, r: Bytes, u: Bytes, size: nat)
    requires Fair(v, r, size) && DecodableItems(items) && u != [] && |u| <= |r| && Closed(u[1..])
    ensures FairItems(Arr(items + [v]), u[1..], items, size)
  {
    ItemsSizeMore(items, v);
    hide Closed;
    assert Size(Arr(items + [v])) == 1 + ItemsSize(items + [v]);
    hide Size;
    hide ItemsSize;
  }

  predicate DecodableMembers(members: seq<Member>) {
    UniqueKeys(members) && forall k :: 0 <= k < |members| ==> DecodableMember(members[k])
  }

  predicate CleanMembers(members: seq<Member>) {
    forall k :: 0 <= k < |members| ==> CleanMember(members[k])
  }

  /** An object under way. */
  ghost predicate FairMembers(w: Json, rest: Bytes, members: seq<Member>, size: nat) {
    Size(w) + |rest| <= 1 + MembersSize(members) + size && Closed(rest) && Decodable(w) &&
    (Size(w) + |rest| == 1 + MembersSize(members) + size && CleanMembers(members) ==> AllClean(w))
  }

  lemma FairMembersNone(w: Json, rest: Bytes, size: nat)
    requires FairMembers(w, rest, [], size)
    ensures Fair(w, rest, 1 + size)
  {
    hide Closed;
    hide Decodable;
    hide AllClean;
  }

  /** A repeated key gets the later value and counts once. */
  lemma {:induction false} SetSize(members: seq<Member>, key: Bytes, v: Json)
    ensures MembersSize(SetMember(members, key, v)) <= MembersSize(members) + MemberSize(Member(key, v))
    ensures |SetMember(members, key, v)| > 0
    decreases members
  {
    hide MemberSize;
    hide Size;
    if members == [] {
      assert [Member(key, v)][1..] == [];
    } else if members[0].key == key {
      assert ([Member(key, v)] + members[1..])[1..] == members[1..];
    } else {
      SetSize(members[1..], key, v);
      var rest := SetMember(members[1..], key, v);
      assert ([members[0]] + rest)[1..] == rest;
    }
  }

  lemma {:induction false} SetKeys(members: seq<Member>, key: Bytes, v: Json)
    requires UniqueKeys(members)
    ensures var r := SetMember(members, key, v);
            UniqueKeys(r) && forall m :: m in r ==> m == Member(key, v) || m in members
    ensures forall m :: m in SetMember(members, key, v) ==> m.key == key || exists n :: n in members && n.key == m.key
    decreases members
  {
    if members != [] && members[0].key != key {
      var rest := SetMember(members[1..], key, v);
      SetKeys(members[1..], key, v);
      forall m | m in rest
        ensures m.key != members[0].key
      {
        if m.key != key {
          var n :| n in members[1..] && n.key == m.key;
          var k :| 0 <= k < |members| - 1 && members[1..][k] == n;
          assert members[k + 1] == n;
        }
      }
      assert forall k :: 0 <= k < |rest| ==> rest[k] in rest;
      assert forall m :: m in members[1..] ==> m in members;
    }
  }

  lemma SetDecodable(members: seq<Member>, key: Bytes, v: Json)
    requires DecodableMembers(members) && DecodableMember(Member(key, v))
    ensures DecodableMembers(SetMember(members, key, v))
    ensures CleanMembers(members) && CleanMember(Member(key, v)) ==> CleanMembers(SetMember(members, key, v))
  {
    hide DecodableMember;
    hide CleanMember;
    SetKeys(members, key, v);
    var r := SetMember(members, key, v);
    forall k | 0 <= k < |r|
      ensures r[k] == Member(key, v) || r[k] in members
    {
      assert r[k] in r;
    }
  }

  /** A key, a colon and a value. */
  ghost predicate FairMember(m: Member, rest: Bytes, size: nat) {
    MemberSize(m) + |rest| <= size + 1 && Closed(rest) && DecodableMember(m) &&
    (MemberSize(m) + |rest| == size + 1 ==> CleanMember(m))
  }

  lemma {:induction false} MemberFair(t: Bytes, num: Numbers)
    requires t != [] && Closed(t) && NotShorter(num) && MemberText(t, num).Parsed?
    ensures var p := MemberText(t, num); FairMember(p.value, p.rest, |t|)
    decreases |t|, 2
  {
    MemberStep(t, num);
    StringFair(t);
    var key := ParseChars(t[1..], []);
    SkipClosed(key.rest);
    var u := SkipWs(key.rest);
    ClosedRest(u, 1);
    ValueFair(u[1..], num);
    hide *;
    var q := ParseValue(u[1..], num);
    MemberMade(key.value, q.value, q.rest, |t|, |key.rest|, |u[1..]|);
  }

  lemma MemberMade(key: Bytes, v: Json, rest: Bytes, size: nat, after: nat, inner: nat)
    requires |key| + 2 + after <= size && inner + 1 <= after && Valid(key) && !FullBlock(|key|)
    requires |key| + 2 + after == size ==> Clean(key)
    requires Fair(v, rest, inner)
    ensures FairMember(Member(key, v), rest, size)
  {
    hide Closed;
    hide Valid;
    hide FullBlock;
    hide Clean;
    hide Size;
    hide Decodable;
    hide AllClean;
  }

  lemma {:induction false} MembersFair(t: Bytes, members: seq<Member>, num: Numbers)
    requires t != [] && Closed(t) && NotShorter(num) && DecodableMembers(members) &&
             ParseMembers(t, members, num).Parsed?
    ensures var p := ParseMembers(t, members, num); FairMembers(p.value, p.rest, members, |t|)
    decreases |t|, 3
  {
    var p, q := ParseMembers(t, members, num), MemberText(t, num);
    MembersOne(t, members, num);
    MemberFair(t, num);
    SkipClosed(q.rest);
    var u := SkipWs(q.rest);
    ClosedRest(u, 1);
    var more := SetMember(members, q.value.key, q.value.value);
    hide MemberSize;
    hide CleanMember;
    SetDecodable(members, q.value.key, q.value.value);
    if u[0] == COMMA {
      SkipClosed(u[1..]);
      var next := SkipWs(u[1..]);
      hide *;
      MembersFair(next, more, num);
      MembersOn(p.value, p.rest, members, q.value, q.rest, |t|, |next|);
    } else {
      hide *;
      MembersLast(members, q.value, q.rest, u, |t|);
    }
  }

  lemma MembersOn(w: Json, rest: Bytes, members: seq<Member>, m: Member, r: Bytes, size: nat, next: nat)
    requires FairMembers(w, rest, SetMember(members, m.key, m.value), next) && FairMember(m, r, size) && next + 1 <= |r|
    requires DecodableMembers(members)
    ensures FairMembers(w, rest, members, size)
  {
    assert m == Member(m.key, m.value);
    SetSize(members, m.key, m.value);
    SetDecodable(members, m.key, m.value);
    hide *;
    hide Closed;
    MembersOnSum(w, rest, members, SetMember(members, m.key, m.value), m, r, size, next);
  }

  lemma MembersOnSum(w: Json, rest: Bytes, members: seq<Member>, more: seq<Member>, m: Member, r: Bytes, size: nat,
                     next: nat)
    requires FairMembers(w, rest, more, next) && FairMember(m, r, size) && next + 1 <= |r|
    requires MembersSize(more) <= MembersSize(members) + MemberSize(m)
    requires CleanMembers(members) && CleanMember(m) ==> CleanMembers(more)
    ensures FairMembers(w, rest, members, size)
  {
    hide Closed;
    hide Decodable;
    hide DecodableMember;
    hide AllClean;
    hide CleanMember;
    hide CleanMembers;
    hide Size;
    hide MemberSize;
    hide MembersSize;
  }

  lemma MembersLast(members: seq<Member>, m: Member, r: Bytes, u: Bytes, size: nat)
    requires FairMember(m, r, size) && DecodableMembers(members) && u != [] && |u| <= |r| && Closed(u[1..])
    ensures FairMembers(Obj(SetMember(members, m.key, m.value)), u[1..], members, size)
  {
    var more := SetMember(members, m.key, m.value);
    assert m == Member(m.key, m.value);
    SetSize(members, m.key, m.value);
    SetDecodable(members, m.key, m.value);
    assert Size(Obj(more)) == 1 + MembersSize(more);
    assert Decodable(Obj(more)) && (AllClean(Obj(more)) <==> CleanMembers(more));
    hide *;
    hide Closed;
    MembersLastSum(Obj(more), members, more, m, r, u, size);
  }

  lemma MembersLastSum(w: Json, members: seq<Member>, more: seq<Member>, m: Member, r: Bytes, u: Bytes, size: nat)
    requires FairMember(m, r, size) && u != [] && |u| <= |r| && Closed(u[1..])
    requires Size(w) == 1 + MembersSize(more) && MembersSize(more) <= MembersSize(members) + MemberSize(m)
    requires Decodable(w) && (CleanMembers(members) && CleanMember(m) ==> AllClean(w))
    ensures FairMembers(w, u[1..], members, size)
  {
    hide Closed;
    hide Decodable;
    hide DecodableMember;
    hide AllClean;
    hide CleanMember;
    hide CleanMembers;
    hide Size;
    hide MemberSize;
    hide MembersSize;
  }

  // ----- the theorem -----

  lemma EncodedCloses(v: Json, num: Numbers)
    requires Whole(v) && Faithful(num)
    ensures EncodeJson(v, num) != [] && Closed(EncodeJson(v, num))
  {
    match v {
      case Number(n) =>
        NumberIs(n, num);
        var d := IntText(n.Floor);
        assert IsDigitByte(d[|d| - 1]);
      case _ =>
    }
  }

  /** For every value whose numbers are whole and at most 2^53: it comes back from encoding and decoding if
      and only if its strings and keys are valid UTF-8 with nothing to escape, none of them fills its block,
      and no object in it has a key twice. */
  lemma JsonRoundTripIff(v: Json, num: Numbers)
    requires Whole(v) && Faithful(num) && NotShorter(num)
    ensures DecodeJson(EncodeJson(v, num), num) == Decoded(v) <==> Ready(v) && Fits(v)
  {
    if Ready(v) && Fits(v) { JsonRoundTrip(v, num); }
    if DecodeJson(EncodeJson(v, num), num) == Decoded(v) {
      var t := EncodeJson(v, num);
      var p := ParseValue(t, num);
      EncodedCloses(v, num);
      ValueFair(t, num);
      SizeIs(v, num);
      ReadyAndFits(v);
    }
  }
}
