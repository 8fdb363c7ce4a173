/** The decoder and the encoder as the runtime runs them: a cursor over the text, and a buffer that
    the encoder appends to.  Every method is tied to its function in `Json.dfy`. */
module JsonParser {
  import opened Options
  import opened Basics
  import opened Utf8
  import opened Json

  datatype Read<+T> = Got(value: T) | NotOk | Panicked | Overran

  /** What a method read against what the function says of the text at the old position. */
  ghost predicate Reads<T(!new)>(r: Read<T>, p: Parsed<T>, rest: Bytes) {
    match p
    case Parsed(v, u) => r == Got(v) && rest == u
    case Failed => r == NotOk
    case Crashed => r == Panicked
    case Overrun => r == Overran
  }

  /** One step through a string literal. */
  lemma CharsStep(s: Bytes, i: nat, buf: Bytes)
    requires i < |s|
    ensures var c := s[i];
            var p := ParseChars(s[i..], buf);
            if c == QUOTE then p == if FullBlock(|buf|) then Overrun
                                    else if Utf8.Valid(buf) then Parsed(buf, s[i + 1..]) else Crashed
            else if c < 0x20 then p == Failed
            else if c != BACKSLASH then p == ParseChars(s[i + 1..], buf + [c])
            else if i + 1 == |s| then p == Failed
            else if s[i + 1] != 0x75 then
              var e := SimpleEscape(s[i + 1]);
              p == if e.Some? then ParseChars(s[i + 2..], buf + [e.value]) else Failed
            else
              var x := EscapedScalar(s[i + 2..]);
              p == if x.Some? then ParseChars(AfterScalar(s[i + 2..]), buf + x.value) else Failed
  {
    hide SimpleEscape;
    hide Utf8.Valid;
    hide FullBlock;
    var t := s[i..];
    assert t[0] == s[i] && t[1..] == s[i + 1..] && |t| == |s| - i;
    if |t| > 1 { assert t[1] == s[i + 1] && t[2..] == s[i + 2..]; }
  }

  function EscapedScalar(t: Bytes): Option<Bytes> {
    var x := UnicodeEscape(t);
    if x.Parsed? then Some(Utf8Of(x.value)) else None
  }

  function AfterScalar(t: Bytes): Bytes {
    var x := UnicodeEscape(t);
    if x.Parsed? then x.rest else []
  }

  /** The scanning of a number from byte `i`. */
  lemma NumberWalk(s: Bytes, i: nat)
    requires i < |s|
    ensures var sign := if s[i] == 0x2D then 1 else 0;
            var whole := i + sign + DigitCount(s[i + sign..]);
            i + NumberLength(s[i..]) == if whole < |s| && s[whole] == 0x2E then whole + 1 + DigitCount(s[whole + 1..])
            else whole
  {
    hide DigitCount;
    var t := s[i..];
    var sign := if s[i] == 0x2D then 1 else 0;
    assert t[0] == s[i] && t[sign..] == s[i + sign..];
    var whole := sign + DigitCount(t[sign..]);
    if whole < |t| { assert t[whole] == s[i + whole] && t[whole + 1..] == s[i + whole + 1..]; }
  }

  function ArrayText(t: Bytes, num: Numbers): Parsed<Json>
    requires t != []
  {
    var u := SkipWs(t[1..]);
    if u != [] && u[0] == CLOSE then Parsed(Arr([]), u[1..]) else ParseItems(u, [], num)
  }

  function ObjectText(t: Bytes, num: Numbers): Parsed<Json>
    requires t != []
  {
    var u := SkipWs(t[1..]);
    if u == [] then Failed
    else if u[0] == CLOSEOBJ then Parsed(Obj([]), u[1..])
    else ParseMembers(u, [], num)
  }

  function StringText(t: Bytes): Parsed<Json>
    requires t != []
  {
    match ParseChars(t[1..], [])
    case Parsed(s, rest) => Parsed(Str(s), rest)
    case Failed => Failed
    case Crashed => Crashed
    case Overrun => Overrun
  }

  /** The decoder looks at the first byte. */
  lemma ValueStep(text: Bytes, num: Numbers)
    ensures var t, p := SkipWs(text), ParseValue(text, num);
            if t == [] then p == Failed
            else if t[0] == 0x74 then p == if TRUE <= t then Parsed(Bool(true), t[4..]) else Failed
            else if t[0] == 0x66 then p == if FALSE <= t then Parsed(Bool(false), t[5..]) else Failed
            else if t[0] == 0x6E then p == if NULL <= t then Parsed(Null, t[4..]) else Failed
            else if t[0] == OPEN then p == ArrayText(t, num)
            else if t[0] == OPENOBJ then p == ObjectText(t, num)
            else if t[0] == QUOTE then p == StringText(t)
            else if IsDigitByte(t[0]) || t[0] == 0x2D then p == ParseNumber(t, num)
            else p == Failed
  {
    hide ParseNumber;
    hide ParseItems;
    hide ParseMembers;
    hide ParseChars;
  }

  lemma ArrayStep(t: Bytes, num: Numbers)
    requires t != []
    ensures var u := SkipWs(t[1..]);
            ArrayText(t, num) == if u != [] && u[0] == CLOSE then Parsed(Arr([]), u[1..]) else ParseItems(u, [], num)
  {
    hide ParseItems;
  }

  lemma ObjectStep(t: Bytes, num: Numbers)
    requires t != []
    ensures var u := SkipWs(t[1..]);
            ObjectText(t, num) ==
            if u == [] then Failed else if u[0] == CLOSEOBJ then Parsed(Obj([]), u[1..]) else ParseMembers(u, [], num)
  {
    hide ParseMembers;
  }

  lemma ItemsEnd(t: Bytes, items: seq<Json>, num: Numbers)
    requires t == []
    ensures ParseItems(t, items, num) == Parsed(Arr(items), [])
  {
  }

  lemma MembersEnd(t: Bytes, members: seq<Member>, num: Numbers)
    requires t == []
    ensures ParseMembers(t, members, num) == Parsed(Obj(members), [])
  {
  }

  lemma CharsEnd(t: Bytes, buf: Bytes)
    requires t == []
    ensures ParseChars(t, buf) == Failed
  {
  }

  lemma NumberText(s: Bytes, i: nat, n: nat, num: Numbers)
    requires i < |s| && n == NumberLength(s[i..])
    ensures i + n <= |s| && var v := num.read(s[i..i + n]);
                         ParseNumber(s[i..], num) == if n == 0 then Failed
                         else if v.Some? then Parsed(Json.Number(v.value), s[i + n..]) else Crashed
  {
    hide NumberLength;
    var t := s[i..];
    assert n <= |t| && t[..n] == s[i..i + n] && t[n..] == s[i + n..];
  }

  lemma ItemsOne(t: Bytes, acc: seq<Json>, num: Numbers)
    requires t != []
    ensures var p, q := ParseItems(t, acc, num), ParseValue(t, num);
            if q.Failed? then p == Failed
            else if q.Crashed? then p == Crashed
            else if q.Overrun? then p == Overrun
            else
              var u := SkipWs(q.rest);
              p == if u != [] && u[0] == COMMA then ParseItems(SkipWs(u[1..]), acc + [q.value], num)
              else if u != [] && u[0] == CLOSE then Parsed(Arr(acc + [q.value]), u[1..])
              else Failed
  {
    hide ParseValue;
  }

  /** A key, a colon and a value. */
  function MemberText(t: Bytes, num: Numbers): Parsed<Member>
    requires t != []
  {
    if t[0] != QUOTE then Failed
    else
      match ParseChars(t[1..], [])
      case Failed => Failed
      case Crashed => Crashed
      case Overrun => Overrun
      case Parsed(key, rest) =>
        var u := SkipWs(rest);
        if u == [] || u[0] != COLON then Failed
        else
          match ParseValue(u[1..], num)
          case Failed => Failed
          case Crashed => Crashed
          case Overrun => Overrun
          case Parsed(v, rest1) => Parsed(Member(key, v), rest1)
  }

  lemma MemberStep(t: Bytes, num: Numbers)
    requires t != []
    ensures var p := MemberText(t, num);
            var key := ParseChars(t[1..], []);
            if t[0] != QUOTE then p == Failed
            else if key.Failed? then p == Failed
            else if key.Crashed? then p == Crashed
            else if key.Overrun? then p == Overrun
            else
              var u := SkipWs(key.rest);
              if u == [] || u[0] != COLON then p == Failed
              else
                var q := ParseValue(u[1..], num);
                p == if q.Failed? then Failed else if q.Crashed? then Crashed else if q.Overrun? then Overrun
                else Parsed(Member(key.value, q.value), q.rest)
  {
    hide ParseValue;
    hide ParseChars;
  }

  lemma MembersOne(t: Bytes, acc: seq<Member>, num: Numbers)
    requires t != []
    ensures var p, q := ParseMembers(t, acc, num), MemberText(t, num);
            if q.Failed? then p == Failed
            else if q.Crashed? then p == Crashed
            else if q.Overrun? then p == Overrun
            else
              var w := SkipWs(q.rest);
              p == if w != [] && w[0] == COMMA then
                ParseMembers(SkipWs(w[1..]), SetMember(acc, q.value.key, q.value.value), num)
              else if w != [] && w[0] == CLOSEOBJ then Parsed(Obj(SetMember(acc, q.value.key, q.value.value)), w[1..])
              else Failed
  {
    hide ParseValue;
    hide ParseChars;
  }

  lemma ReadsParts<T(!new)>(r: Read<T>, p: Parsed<T>, rest: Bytes)
    requires Reads(r, p, rest)
    ensures p.Parsed? ==> r == Got(p.value) && rest == p.rest
    ensures p.Failed? ==> r == NotOk
    ensures p.Crashed? ==> r == Panicked
    ensures p.Overrun? ==> r == Overran
  {
  }

  lemma ReadsIs<T(!new)>(r: Read<T>, p: Parsed<T>, rest: Bytes)
    requires p.Parsed? ==> r == Got(p.value) && rest == p.rest
    requires p.Failed? ==> r == NotOk
    requires p.Crashed? ==> r == Panicked
    requires p.Overrun? ==> r == Overran
    ensures Reads(r, p, rest)
  {
  }

  lemma ReadsUnicode(r: Read<nat>, t: Bytes, rest: Bytes)
    requires Reads(r, UnicodeEscape(t), rest)
    ensures UnicodeEscape(t).Parsed? ==>
              r == Got(UnicodeEscape(t).value) && rest == UnicodeEscape(t).rest && Scalar(r.value)
    ensures !UnicodeEscape(t).Parsed? ==> r == NotOk
  {
  }

  /** `ps_json_buf`: the bytes of a string, in a block that is doubled when it is full. */
  class Chars {
    var mem: array<Byte>
    var len: nat

    ghost predicate Valid()
      reads this
    {
      mem.Length == Capacity(len)
    }

    ghost function Contents(): (t: Bytes)
      reads this, mem
      requires Valid()
      ensures |t| == len
    {
      mem[..len]
    }

    constructor ()
      ensures Valid() && Contents() == [] && fresh(mem)
    {
      mem := new Byte[0];
      len := 0;
    }

    /** Every push is inside the block. */
    method Push(c: Byte)
      requires Valid()
      modifies this, mem
      ensures Valid() && Contents() == old(Contents()) + [c] && (mem == old(mem) || fresh(mem))
    {
      CapacityNext(len);
      assert len <= mem.Length;
      hide Capacity;
      if len + 1 > mem.Length {
        var block := new Byte[if mem.Length == 0 then 64 else 2 * mem.Length];
        ghost var before := mem[..len];
        var k := 0;
        while k < len
          invariant k <= len <= mem.Length && block[..k] == mem[..k] && mem[..len] == before && len + 1 <= block.Length
          modifies block
        {
          block[k] := mem[k];
          k := k + 1;
        }
        mem := block;
      }
      mem[len] := c;
      len := len + 1;
    }

    method PushAll(b: Bytes)
      requires Valid()
      modifies this, mem
      ensures Valid() && Contents() == old(Contents()) + b && (mem == old(mem) || fresh(mem))
    {
      var k := 0;
      while k < |b|
        invariant k <= |b| && Valid() && Contents() == old(Contents()) + b[..k] && (mem == old(mem) || fresh(mem))
      {
        Push(b[k]);
        assert b[..k + 1] == b[..k] + [b[k]];
        k := k + 1;
      }
      assert b[..k] == b;
    }

    /** Writes the terminating zero, in a block of one byte if there is none yet; no room is made for it.
        The write is inside the block exactly if the bytes do not fill it. */
    method Terminate() returns (inside: bool)
      requires Valid()
      modifies this, mem
      ensures inside <==> !FullBlock(len)
      ensures len == old(len) && len <= mem.Length && mem[..len] == old(Contents()) && (mem == old(mem) || fresh(mem))
      ensures inside ==> len < mem.Length && mem[len] == 0
    {
      if mem.Length == 0 { mem := new Byte[1]; }
      inside := len < mem.Length;
      if inside { mem[len] := 0; }
    }

    method Text() returns (t: Bytes)
      requires len <= mem.Length
      ensures t == mem[..len]
    {
      t := mem[..len];
    }
  }

  /** Any end but a value is passed on. */
  function Otherwise<T, U>(r: Read<T>): Read<U>
    requires !r.Got?
  {
    match r
    case NotOk => NotOk
    case Panicked => Panicked
    case Overran => Overran
  }

  lemma OtherwiseReads<T(!new), U(!new)>(r: Read<T>, p: Parsed<T>, q: Parsed<U>, rest: Bytes)
    requires Reads(r, p, rest) && !r.Got? && (p.Failed? ==> q.Failed?) && (p.Crashed? ==> q.Crashed?) &&
             (p.Overrun? ==> q.Overrun?)
    ensures Reads(Otherwise(r), q, rest)
  {
  }

  /** The string as a JSON value. */
  method StringRead(r: Read<Bytes>, ghost t: Bytes, ghost rest: Bytes) returns (v: Read<Json>)
    requires t != [] && Reads(r, ParseChars(t[1..], []), rest)
    ensures Reads(v, StringText(t), rest)
  {
    v := match r case Got(x) => Got(Str(x)) case _ => Otherwise(r);
  }

  lemma FirstBytes()
    ensures OPEN == 0x5B && OPENOBJ == 0x7B && QUOTE == 0x22 && |TRUE| == 4 && |FALSE| == 5 && |NULL| == 4
    ensures !IsDigitByte(0x74) && !IsDigitByte(0x66) && !IsDigitByte(0x6E)
  {
  }

  /** What comes after an element or a member. */
  datatype Separation = Comma | Closed | Neither

  class Cursor {
    const s: Bytes
    var i: nat

    constructor (text: Bytes)
      ensures s == text && i == 0
    {
      s, i := text, 0;
    }

    method SkipSpace()
      requires i <= |s|
      modifies this
      ensures i <= |s| && i >= old(i) && s[i..] == SkipWs(s[old(i)..])
    {
      while i < |s| && IsWs(s[i])
        invariant old(i) <= i <= |s| && SkipWs(s[i..]) == SkipWs(s[old(i)..])
      {
        assert s[i..][1..] == s[i + 1..];
        i := i + 1;
      }
    }

    /** `ps_json_match`. */
    method MatchWord(lit: Bytes) returns (ok: bool)
      requires i <= |s|
      modifies this
      ensures ok <==> lit <= s[old(i)..]
      ensures i <= |s| && i == old(i) + if ok then |lit| else 0
    {
      if i + |lit| > |s| { return false; }
      assert s[i..][..|lit|] == s[i..i + |lit|];
      if s[i..i + |lit|] != lit { return false; }
      i := i + |lit|;
      return true;
    }

    method HexFour() returns (v: Option<nat>)
      requires i <= |s|
      modifies this
      ensures i <= |s| && v == Hex4(s[old(i)..]) && i == old(i) + if v.Some? then 4 else 0
    {
      if i + 4 > |s| { return None; }
      v := Hex4(s[i..]);
      if v.Some? { i := i + 4; }
    }

    /** After `\\u`. */
    method Unicode() returns (r: Read<nat>)
      requires i <= |s|
      modifies this
      ensures i <= |s| && i >= old(i) && Reads(r, UnicodeEscape(s[old(i)..]), s[i..])
    {
      ghost var t := s[i..];
      var cp := HexFour();
      if cp.None? { return NotOk; }
      if 0xD800 <= cp.value <= 0xDBFF {
        if i + 2 > |s| || s[i] != BACKSLASH || s[i + 1] != 0x75 { return NotOk; }
        i := i + 2;
        assert s[i..] == t[6..];
        var low := HexFour();
        if low.None? || low.value < 0xDC00 || low.value > 0xDFFF { return NotOk; }
        return Got(0x10000 + (cp.value - 0xD800) * 0x400 + (low.value - 0xDC00));
      }
      if 0xDC00 <= cp.value <= 0xDFFF { return NotOk; }
      return Got(cp.value);
    }

    /** After the backslash: the byte or bytes that the escape stands for. */
    method Escape() returns (r: Option<Bytes>)
      requires i <= |s| && i < |s|
      modifies this
      ensures i <= |s| && i > old(i)
      ensures r == if s[old(i)] != 0x75 then
                     (match SimpleEscape(s[old(i)]) case Some(e) => Some([e]) case None => None)
                   else EscapedScalar(s[old(i) + 1..])
      ensures r.Some? ==> s[i..] == if s[old(i)] != 0x75 then s[old(i) + 1..] else AfterScalar(s[old(i) + 1..])
    {
      var esc := s[i];
      i := i + 1;
      if esc != 0x75 {
        var e := SimpleEscape(esc);
        return match e case Some(c) => Some([c]) case None => None;
      }
      ghost var t := s[i..];
      var cp := Unicode();
      ReadsUnicode(cp, t, s[i..]);
      if !cp.Got? { return None; }
      return Some(Utf8Of(cp.value));
    }

    method String() returns (r: Read<Bytes>)
      requires i <= |s| && i < |s| && s[i] == QUOTE
      modifies this
      ensures i <= |s| && i > old(i) && Reads(r, ParseChars(s[old(i)..][1..], []), s[i..])
    {
      hide *;
      ghost var all := ParseChars(s[i..][1..], []);
      i := i + 1;
      var buf := new Chars();
      while i < |s|
        invariant old(i) < i <= |s| && fresh(buf) && fresh(buf.mem) && buf.Valid() &&
                  ParseChars(s[i..], buf.Contents()) == all
        decreases |s| - i
      {
        var c := s[i];
        CharsStep(s, i, buf.Contents());
        i := i + 1;
        if c == QUOTE {
          var inside := buf.Terminate();
          if !inside {
            ReadsIs(Overran, all, s[i..]);
            return Overran;
          }
          var text := buf.Text();
          var ok := Validate(text);
          r := if ok then Got(text) else Panicked;
          ReadsIs(r, all, s[i..]);
          return;
        }
        if c < 0x20 {
          ReadsIs(NotOk, all, s[i..]);
          return NotOk;
        }
        if c == BACKSLASH {
          if i >= |s| {
            ReadsIs(NotOk, all, s[i..]);
            return NotOk;
          }
          var e := Escape();
          if e.None? {
            ReadsIs(NotOk, all, s[i..]);
            return NotOk;
          }
          buf.PushAll(e.value);
          continue;
        }
        buf.Push(c);
      }
      CharsEnd(s[i..], buf.Contents());
      r := NotOk;
      ReadsIs(r, all, s[i..]);
    }

    method Number(num: Numbers) returns (r: Read<Json>)
      requires i <= |s| && i < |s|
      modifies this
      ensures i <= |s| && i >= old(i) && Reads(r, ParseNumber(s[old(i)..], num), s[i..])
      ensures r.Got? ==> i > old(i)
    {
      hide *;
      var start := i;
      ghost var t := s[i..];
      if s[i] == 0x2D { i := i + 1; }
      SkipDigits();
      if i < |s| && s[i] == 0x2E {
        i := i + 1;
        SkipDigits();
      }
      NumberWalk(s, start);
      assert i - start == NumberLength(t);
      NumberText(s, start, i - start, num);
      var v := num.read(s[start..i]);
      r := if i == start then NotOk else match v case Some(x) => Got(Json.Number(x)) case None => Panicked;
      ReadsIs(r, ParseNumber(t, num), s[i..]);
    }

    method SkipDigits()
      requires i <= |s|
      modifies this
      ensures i <= |s| && i == old(i) + DigitCount(s[old(i)..])
    {
      while i < |s| && IsDigitByte(s[i])
        invariant old(i) <= i <= |s| && i + DigitCount(s[i..]) == old(i) + DigitCount(s[old(i)..])
      {
        assert s[i..][1..] == s[i + 1..];
        i := i + 1;
      }
    }

    method Value(num: Numbers) returns (r: Read<Json>)
      requires i <= |s|
      modifies this
      ensures i <= |s| && i >= old(i) && Reads(r, ParseValue(s[old(i)..], num), s[i..])
      ensures r.Got? ==> i > old(i)
      decreases |s| - i, 2
    {
      FirstBytes();
      hide *;
      ghost var text := s[i..];
      SkipSpace();
      ghost var t := s[i..];
      ValueStep(text, num);
      ghost var p := ParseValue(text, num);
      if i >= |s| {
        ReadsIs(NotOk, p, s[i..]);
        return NotOk;
      }
      var c := s[i];
      if c == 0x74 {
        var ok := MatchWord(TRUE);
        if ok {
          ReadsIs(Got(Bool(true)), p, s[i..]);
          return Got(Bool(true));
        }
      }
      if c == 0x66 {
        var ok := MatchWord(FALSE);
        if ok {
          ReadsIs(Got(Bool(false)), p, s[i..]);
          return Got(Bool(false));
        }
      }
      if c == 0x6E {
        var ok := MatchWord(NULL);
        if ok {
          ReadsIs(Got(Null), p, s[i..]);
          return Got(Null);
        }
      }
      if c == OPEN { r := Array(num); return; }
      if c == OPENOBJ { r := Object(num); return; }
      if c == QUOTE {
        var str := String();
        r := StringRead(str, t, s[i..]);
        return;
      }
      if IsDigitByte(c) || c == 0x2D { r := Number(num); return; }
      r := NotOk;
      ReadsIs(r, p, s[i..]);
    }

    /** White space, then a comma and more white space, or the closing bracket. */
    method Separator(close: Byte) returns (sep: Separation)
      requires i <= |s| && close != COMMA
      modifies this
      ensures i <= |s| && i >= old(i) && (!sep.Neither? ==> i > old(i))
      ensures var u := SkipWs(s[old(i)..]);
              if u != [] && u[0] == COMMA then sep == Comma && s[i..] == SkipWs(u[1..])
              else if u != [] && u[0] == close then sep == Closed && s[i..] == u[1..]
              else sep == Neither
    {
      hide *;
      SkipSpace();
      ghost var u := s[i..];
      if i < |s| && s[i] == COMMA {
        i := i + 1;
        assert s[i..] == u[1..] by { TailOn(s, i - 1); }
        SkipSpace();
        return Comma;
      }
      if i < |s| && s[i] == close {
        i := i + 1;
        assert s[i..] == u[1..] by { TailOn(s, i - 1); }
        return Closed;
      }
      return Neither;
    }

    method Array(num: Numbers) returns (r: Read<Json>)
      requires i <= |s| && i < |s| && s[i] == OPEN
      modifies this
      ensures i <= |s| && i > old(i) && Reads(r, ArrayText(s[old(i)..], num), s[i..])
      decreases |s| - i, 1
    {
      hide *;
      ghost var all := ArrayText(s[i..], num);
      var start := i;
      i := i + 1;
      assert s[i..] == s[start..][1..] by { TailOn(s, i - 1); }
      ArrayStep(s[start..], num);
      SkipSpace();
      ghost var first := s[i..];
      if i < |s| && s[i] == CLOSE {
        i := i + 1;
        assert s[i..] == first[1..] by { TailOn(s, i - 1); }
        r := Got(Arr([]));
        ReadsIs(r, all, s[i..]);
        return;
      }
      var items: seq<Json> := [];
      while i < |s|
        invariant start < i <= |s| && ParseItems(s[i..], items, num) == all
        decreases |s| - i
      {
        ghost var t := s[i..];
        ItemsOne(t, items, num);
        var v := Value(num);
        ReadsParts(v, ParseValue(t, num), s[i..]);
        if !v.Got? {
          r := Otherwise(v);
          OtherwiseReads(v, ParseValue(t, num), all, s[i..]);
          return;
        }
        items := items + [v.value];
        CloseIsNoWs();
        var sep := Separator(CLOSE);
        if sep.Comma? { continue; }
        r := if sep.Closed? then Got(Arr(items)) else NotOk;
        ReadsIs(r, all, s[i..]);
        return;
      }
      ItemsEnd(s[i..], items, num);
      r := Got(Arr(items));
      ReadsIs(r, all, s[i..]);
    }

    method OneMember(num: Numbers) returns (r: Read<Member>)
      requires i < |s|
      modifies this
      ensures i <= |s| && i >= old(i) && Reads(r, MemberText(s[old(i)..], num), s[i..])
      ensures r.Got? ==> i > old(i)
      decreases |s| - i, 3
    {
      hide *;
      ghost var t := s[i..];
      ghost var all := MemberText(t, num);
      MemberStep(t, num);
      if s[i] != QUOTE {
        ReadsIs(NotOk, all, s[i..]);
        return NotOk;
      }
      var key := String();
      ReadsParts(key, ParseChars(t[1..], []), s[i..]);
      if !key.Got? {
        r := Otherwise(key);
        OtherwiseReads(key, ParseChars(t[1..], []), all, s[i..]);
        return;
      }
      SkipSpace();
      ghost var u := s[i..];
      if i >= |s| || s[i] != COLON {
        ReadsIs(NotOk, all, s[i..]);
        return NotOk;
      }
      i := i + 1;
      assert s[i..] == u[1..] by { TailOn(s, i - 1); }
      var v := Value(num);
      ReadsParts(v, ParseValue(u[1..], num), s[i..]);
      if !v.Got? {
        r := Otherwise(v);
        OtherwiseReads(v, ParseValue(u[1..], num), all, s[i..]);
        return;
      }
      r := Got(Member(key.value, v.value));
      ReadsIs(r, all, s[i..]);
    }

    method Object(num: Numbers) returns (r: Read<Json>)
      requires i <= |s| && i < |s| && s[i] == OPENOBJ
      modifies this
      ensures i <= |s| && i > old(i) && Reads(r, ObjectText(s[old(i)..], num), s[i..])
      decreases |s| - i, 1
    {
      hide *;
      ghost var all := ObjectText(s[i..], num);
      var start := i;
      i := i + 1;
      assert s[i..] == s[start..][1..] by { TailOn(s, i - 1); }
      ObjectStep(s[start..], num);
      SkipSpace();
      ghost var first := s[i..];
      if i >= |s| {
        ReadsIs(NotOk, all, s[i..]);
        return NotOk;
      }
      if s[i] == CLOSEOBJ {
        i := i + 1;
        assert s[i..] == first[1..] by { TailOn(s, i - 1); }
        r := Got(Obj([]));
        ReadsIs(r, all, s[i..]);
        return;
      }
      var members: seq<Member> := [];
      while i < |s|
        invariant start < i <= |s| && ParseMembers(s[i..], members, num) == all
        decreases |s| - i
      {
        ghost var t := s[i..];
        MembersOne(t, members, num);
        var m := OneMember(num);
        ReadsParts(m, MemberText(t, num), s[i..]);
        if !m.Got? {
          r := Otherwise(m);
          OtherwiseReads(m, MemberText(t, num), all, s[i..]);
          return;
        }
        members := SetMember(members, m.value.key, m.value.value);
        CloseIsNoWs();
        var sep := Separator(CLOSEOBJ);
        if sep.Comma? { continue; }
        r := if sep.Closed? then Got(Obj(members)) else NotOk;
        ReadsIs(r, all, s[i..]);
        return;
      }
      MembersEnd(s[i..], members, num);
      r := Got(Obj(members));
      ReadsIs(r, all, s[i..]);
    }
  }

  /** `JSON_decode`. */
  method DecodeText(text: Bytes, num: Numbers) returns (v: Decoding)
    ensures v == DecodeJson(text, num)
  {
    var p := new Cursor(text);
    var r := p.Value(num);
    if r.Overran? { return Undefined; }
    if !r.Got? { return Panics; }
    p.SkipSpace();
    if p.i != |p.s| {
      assert p.s[p.i..] != [];
      return Panics;
    }
    assert p.s[p.i..] == [];
    return Decoded(r.value);
  }

  /** `JSON_encode`: one value after another goes to the end of the buffer. */
  class Buffer {
    var data: Bytes

    constructor ()
      ensures data == []
    {
      data := [];
    }

    method Append(b: Bytes)
      modifies this
      ensures data == old(data) + b
    {
      data := data + b;
    }

    method EncodeValue(v: Json, num: Numbers)
      modifies this
      ensures data == old(data) + EncodeJson(v, num)
      decreases v, 1
    {
      EncodingParts(data, v, num);
      hide *;
      match v {
        case Null => Append(NULL);
        case Bool(b) => Append(if b then TRUE else FALSE);
        case Number(n) => Append(num.show(n));
        case Str(s) =>
          Append([QUOTE]);
          Append(s);
          Append([QUOTE]);
        case Arr(items) =>
          Append([OPEN]);
          EncodeElements(items, num);
          Append([CLOSE]);
        case Obj(members) =>
          Append([OPENOBJ]);
          EncodeFields(members, num);
          Append([CLOSEOBJ]);
      }
    }

    method EncodeElements(items: seq<Json>, num: Numbers)
      modifies this
      ensures data == old(data) + EncodeItems(items, num)
      decreases items, 0
    {
      hide *;
      ghost var before := data;
      var k := 0;
      ItemsFromEnds(items, num);
      while k < |items|
        invariant k <= |items| && data + ItemsFrom(items, k, num) == before + EncodeItems(items, num)
      {
        ItemsFromStep(items, k, num);
        if k > 0 { Append([COMMA]); }
        EncodeValue(items[k], num);
        k := k + 1;
      }
    }

    method EncodeFields(members: seq<Member>, num: Numbers)
      modifies this
      ensures data == old(data) + EncodeMembers(members, num)
      decreases members, 0
    {
      hide *;
      ghost var before := data;
      var k := 0;
      MembersFromEnds(members, num);
      while k < |members|
        invariant k <= |members| && data + MembersFrom(members, k, num) == before + EncodeMembers(members, num)
      {
        MembersFromStep(members, k, num);
        if k > 0 { Append([COMMA]); }
        Append([QUOTE] + members[k].key + [QUOTE] + [COLON]);
        EncodeValue(members[k].value, num);
        k := k + 1;
      }
    }
  }

  /** What each kind of value adds to the bytes `b`. */
  lemma EncodingParts(b: Bytes, v: Json, num: Numbers)
    ensures b + EncodeJson(v, num) ==
            match v
            case Null => b + NULL
            case Bool(x) => b + if x then TRUE else FALSE
            case Number(n) => b + num.show(n)
            case Str(s) => b + [QUOTE] + s + [QUOTE]
            case Arr(items) => b + [OPEN] + EncodeItems(items, num) + [CLOSE]
            case Obj(members) => b + [OPENOBJ] + EncodeMembers(members, num) + [CLOSEOBJ]
  {
    hide EncodeItems;
    hide EncodeMembers;
  }

  lemma ItemsFromEnds(items: seq<Json>, num: Numbers)
    ensures ItemsFrom(items, 0, num) == EncodeItems(items, num) && ItemsFrom(items, |items|, num) == []
  {
    assert items[0..] == items && items[|items|..] == [];
  }

  lemma MembersFromEnds(members: seq<Member>, num: Numbers)
    ensures MembersFrom(members, 0, num) == EncodeMembers(members, num) && MembersFrom(members, |members|, num) == []
  {
    assert members[0..] == members && members[|members|..] == [];
  }

  /** What is still to be written before element `k`: a comma comes before every element but the first. */
  ghost function ItemsFrom(items: seq<Json>, k: nat, num: Numbers): Bytes
    requires k <= |items|
  {
    (if 0 < k < |items| then [COMMA] else []) + EncodeItems(items[k..], num)
  }

  lemma ItemsFromStep(items: seq<Json>, k: nat, num: Numbers)
    requires k < |items|
    ensures ItemsFrom(items, k, num) ==
            (if k > 0 then [COMMA] else []) + EncodeJson(items[k], num) + ItemsFrom(items, k + 1, num)
  {
    assert items[k..][1..] == items[k + 1..];
  }

  ghost function MembersFrom(members: seq<Member>, k: nat, num: Numbers): Bytes
    requires k <= |members|
  {
    (if 0 < k < |members| then [COMMA] else []) + EncodeMembers(members[k..], num)
  }

  lemma MembersFromStep(members: seq<Member>, k: nat, num: Numbers)
    requires k < |members|
    ensures MembersFrom(members, k, num) ==
            (if k > 0 then [COMMA] else []) + ([QUOTE] + members[k].key + [QUOTE] + [COLON]) +
            EncodeJson(members[k].value, num) + MembersFrom(members, k + 1, num)
  {
    hide EncodeJson;
    assert members[k..][1..] == members[k + 1..];
    assert EncodeMember(members[k], num) ==
           ([QUOTE] + members[k].key + [QUOTE] + [COLON]) + EncodeJson(members[k].value, num);
  }
}
