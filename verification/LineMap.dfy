/** Removing the preprocessor's line markers, and the map back to the original lines. */
module LineMap {
  import opened Options
  import opened Basics

  const NL: char := '\n'

  datatype Entry = Entry(file: string, line: int)

  predicate IsBlank(c: char) {
    c == ' ' || c == '\t'
  }

  // ----- scanning -----

  function SkipBlanks(t: string): (r: string)
    ensures |r| <= |t| && (r != [] ==> !IsBlank(r[0]))
  {
    if t != [] && IsBlank(t[0]) then SkipBlanks(t[1..]) else t
  }

  function SkipDigits(t: string): (r: string)
    ensures |r| <= |t| && (r != [] ==> !IsDigit(r[0]))
  {
    if t != [] && IsDigit(t[0]) then SkipDigits(t[1..]) else t
  }

  function DigitsValue(t: string, v: nat): nat {
    if t != [] && IsDigit(t[0]) then DigitsValue(t[1..], v * 10 + DigitValue(t[0])) else v
  }

  /** The length of the first line, its newline included. */
  function LineLength(t: string): (n: nat)
    ensures n <= |t| && (t != [] ==> n > 0)
    ensures forall k :: 0 <= k < n - 1 ==> t[k] != NL
    ensures n < |t| ==> n > 0 && t[n - 1] == NL
  {
    if t == [] then 0 else if t[0] == NL then 1 else 1 + LineLength(t[1..])
  }

  /** The text after the number sign of a marker, at its number if it has one. */
  function AtNumber(t: string): string {
    var hash := SkipBlanks(t);
    if hash == [] then []
    else
      var word := SkipBlanks(hash[1..]);
      if "line" <= word then SkipBlanks(word[4..]) else word
  }

  predicate IsMarker(t: string) {
    var s := SkipBlanks(t);
    s != [] && s[0] == '#'
  }

  function MarkerNumber(t: string): nat {
    DigitsValue(AtNumber(t), 0)
  }

  predicate IsNumbered(t: string) {
    IsMarker(t) && MarkerNumber(t) > 0
  }

  /** The name up to the closing quote, wherever in the text that is. */
  function QuotedName(t: string): (r: string)
    ensures |r| <= |t|
  {
    if t != [] && t[0] != '"' then [t[0]] + QuotedName(t[1..]) else []
  }

  function MarkerName(t: string): string {
    var at := AtNumber(t);
    if at == [] || !IsDigit(at[0]) then []
    else
      var quote := SkipBlanks(SkipDigits(at));
      if quote != [] && quote[0] == '"' then QuotedName(quote[1..]) else []
  }

  // ----- how a marker is spelled -----

  /** The parts of a marker: blanks, `#`, blanks, perhaps `line` and blanks, digits, blanks, perhaps a name
      in quotes, and whatever follows. */
  datatype Marker = Marker(lead: string, gap: string, word: Option<string>, digits: string, pad: string,
                           name: Option<string>, more: string)

  function Spelling(m: Marker): string {
    m.lead + ("#" + (m.gap + (if m.word.Some? then "line" + (m.word.value + NumberPart(m)) else NumberPart(m))))
  }

  /** The text of a marker from its number on. */
  function NumberPart(m: Marker): string {
    m.digits + (m.pad + ((if m.name.Some? then "\"" + m.name.value else "") + m.more))
  }

  predicate Only(s: string, chars: string) {
    forall k :: 0 <= k < |s| ==> s[k] in chars
  }

  predicate Begins(s: string, chars: string) {
    s != [] && s[0] in chars
  }

  const BLANKS := " \t"
  const DIGITS := "0123456789"

  /** The parts are what they are called, and none of them could be longer. */
  predicate WellSpelled(m: Marker) {
    Only(m.lead, BLANKS) && Only(m.gap, BLANKS) && (m.word.Some? ==> Only(m.word.value, BLANKS)) &&
    Only(m.digits, DIGITS) && Only(m.pad, BLANKS) &&
    (m.digits == [] ==>
       m.pad == [] && m.name.None? && !Begins(m.more, BLANKS + DIGITS) && !(m.word.None? && "line" <= m.more)) &&
    (m.digits != [] && m.name.None? ==>
       !Begins(m.more, BLANKS + "\"") && !(m.pad == [] && Begins(m.more, DIGITS))) &&
    (m.name.Some? ==> '"' !in m.name.value && (m.more == [] || m.more[0] == '"'))
  }

  /** The value of decimal digits, by position. */
  function Decimal(digits: string): nat
    requires Only(digits, DIGITS)
  {
    if digits == [] then 0
    else
      var n := |digits| - 1;
      Decimal(digits[..n]) * 10 + Position(digits[n], DIGITS)
  }

  function Position(c: char, s: string): (k: nat)
    requires c in s
    ensures k < |s| && s[k] == c && c !in s[..k]
  {
    if s[0] == c then 0 else Position(c, s[1..]) + 1
  }

  lemma {:induction false} BlanksSkipped(s: string, t: string)
    requires Only(s, BLANKS) && !Begins(t, BLANKS)
    ensures SkipBlanks(s + t) == t
  {
    if s == [] {
      assert s + t == t;
    } else {
      assert (s + t)[1..] == s[1..] + t;
      BlanksSkipped(s[1..], t);
    }
  }

  lemma {:induction false} DigitsSkipped(s: string, t: string)
    requires Only(s, DIGITS) && !Begins(t, DIGITS)
    ensures SkipDigits(s + t) == t
  {
    DigitIs();
    if s == [] {
      assert s + t == t;
    } else {
      assert (s + t)[1..] == s[1..] + t;
      DigitsSkipped(s[1..], t);
    }
  }

  lemma DigitIs()
    ensures forall c: char :: IsDigit(c) <==> c in DIGITS
  {
    forall c: char
      ensures IsDigit(c) <==> c in DIGITS
    {
      if IsDigit(c) { assert DIGITS[c as int - '0' as int] == c; }
    }
  }

  lemma PositionIs(c: char)
    requires c in DIGITS
    ensures Position(c, DIGITS) == DigitValue(c)
  {
    var k := Position(c, DIGITS);
    assert forall i :: 0 <= i < 10 ==> DIGITS[i] as int == '0' as int + i;
    assert DIGITS[k] == c;
  }

  lemma DigitReads(c: char, t: string, v: nat)
    requires c in DIGITS
    ensures DigitsValue([c] + t, v) == DigitsValue(t, v * 10 + Position(c, DIGITS))
  {
    hide *;
    DigitIs();
    PositionIs(c);
    DigitsStep(c, t, v);
  }

  lemma DigitsStep(c: char, t: string, v: nat)
    requires IsDigit(c)
    ensures DigitsValue([c] + t, v) == DigitsValue(t, v * 10 + DigitValue(c))
  {
    assert ([c] + t)[1..] == t;
  }

  lemma DecimalOfNone()
    ensures Decimal("") == 0
  {
  }

  lemma InitOnly(digits: string)
    requires Only(digits, DIGITS) && digits != []
    ensures var n := |digits| - 1;
            Only(digits[..n], DIGITS) && digits[n] in DIGITS &&
            Decimal(digits) == Decimal(digits[..n]) * 10 + Position(digits[n], DIGITS)
  {
  }

  lemma {:induction false} DecimalReads(digits: string, t: string)
    requires Only(digits, DIGITS)
    ensures DigitsValue(digits + t, 0) == DigitsValue(t, Decimal(digits))
    decreases |digits|
  {
    hide *;
    if digits == [] {
      assert digits + t == t;
      DecimalOfNone();
    } else {
      var n := |digits| - 1;
      InitOnly(digits);
      DecimalReads(digits[..n], [digits[n]] + t);
      assert digits[..n] + ([digits[n]] + t) == digits + t;
      DigitReads(digits[n], t, Decimal(digits[..n]));
    }
  }

  lemma NoDigit(t: string, v: nat)
    requires !Begins(t, DIGITS)
    ensures DigitsValue(t, v) == v
  {
    DigitIs();
  }

  lemma {:induction false} NameReads(name: string, more: string)
    requires '"' !in name && (more == [] || more[0] == '"')
    ensures QuotedName(name + more) == name
  {
    if name == [] {
      assert name + more == more;
    } else {
      assert (name + more)[1..] == name[1..] + more;
      NameReads(name[1..], more);
    }
  }

  /** The text after the word starts the way the number does. */
  lemma AtNumberIs(m: Marker)
    requires WellSpelled(m)
    ensures IsMarker(Spelling(m)) && AtNumber(Spelling(m)) == NumberPart(m)
  {
    var part := NumberPart(m);
    PartStarts(m);
    var tail := if m.word.Some? then "line" + (m.word.value + part) else part;
    assert Spelling(m) == m.lead + ("#" + (m.gap + tail));
    hide *;
    HashReads(m.lead, m.gap, tail);
    if m.word.Some? {
      assert tail[4..] == m.word.value + part;
      BlanksSkipped(m.word.value, part);
    }
  }

  lemma PartStarts(m: Marker)
    requires WellSpelled(m)
    ensures !Begins(NumberPart(m), BLANKS) && Begins(NumberPart(m), DIGITS) == (m.digits != [])
    ensures m.word.None? ==> !("line" <= NumberPart(m))
    ensures var rest := (if m.name.Some? then "\"" + m.name.value else "") + m.more;
            !Begins(rest, BLANKS) && !Begins(m.pad + rest, DIGITS) &&
            (m.name.None? && m.digits != [] ==> !Begins(rest, "\""))
  {
    var part := NumberPart(m);
    var rest := (if m.name.Some? then "\"" + m.name.value else "") + m.more;
    assert m.name.None? ==> rest == m.more;
    if m.digits == [] {
      assert part == m.more;
    } else {
      assert part[0] == m.digits[0];
      if m.pad != [] { assert (m.pad + rest)[0] == m.pad[0]; } else { assert m.pad + rest == rest; }
    }
  }

  lemma HashReads(lead: string, gap: string, tail: string)
    requires Only(lead, BLANKS) && Only(gap, BLANKS) && !Begins(tail, BLANKS)
    ensures var t := lead + ("#" + (gap + tail));
            IsMarker(t) && AtNumber(t) == if "line" <= tail then SkipBlanks(tail[4..]) else tail
  {
    var hash := "#" + (gap + tail);
    BlanksSkipped(lead, hash);
    assert hash[1..] == gap + tail;
    BlanksSkipped(gap, tail);
    assert tail == [] ==> !("line" <= tail);
  }

  /** What the scan makes of a marker that is spelled like that. */
  lemma MarkerReads(m: Marker)
    requires WellSpelled(m)
    ensures var t := Spelling(m);
            IsMarker(t) && MarkerNumber(t) == Decimal(m.digits) &&
            MarkerName(t) == if m.name.Some? then m.name.value else ""
  {
    AtNumberIs(m);
    NumberReads(m);
    ReadsAt(Spelling(m));
    hide *;
  }

  /** The number and the name are read where the number stands. */
  lemma ReadsAt(t: string)
    ensures MarkerNumber(t) == DigitsValue(AtNumber(t), 0)
    ensures var at := AtNumber(t);
            var quote := SkipBlanks(SkipDigits(at));
            MarkerName(t) == if Begins(at, DIGITS) && Begins(quote, "\"") then QuotedName(quote[1..]) else []
  {
    DigitIs();
    hide AtNumber;
    hide DigitsValue;
    hide SkipBlanks;
    hide SkipDigits;
    hide QuotedName;
  }

  lemma NumberReads(m: Marker)
    requires WellSpelled(m)
    ensures var at := NumberPart(m);
            var quote := SkipBlanks(SkipDigits(at));
            DigitsValue(at, 0) == Decimal(m.digits) &&
            (if Begins(at, DIGITS) && Begins(quote, "\"") then QuotedName(quote[1..]) else []) ==
            (if m.name.Some? then m.name.value else "")
  {
    var name := if m.name.Some? then "\"" + m.name.value else "";
    var rest := name + m.more;
    PartStarts(m);
    hide *;
    SpelledParts(m);
    NumberPartIs(m);
    NumberScanned(m.digits, m.pad, rest);
    if m.name.Some? { NameScanned(m.name.value, m.more); }
  }

  lemma NumberScanned(digits: string, pad: string, rest: string)
    requires Only(digits, DIGITS) && Only(pad, BLANKS) && !Begins(rest, BLANKS) && !Begins(pad + rest, DIGITS)
    ensures DigitsValue(digits + (pad + rest), 0) == Decimal(digits)
    ensures SkipBlanks(SkipDigits(digits + (pad + rest))) == rest
  {
    hide *;
    DecimalReads(digits, pad + rest);
    NoDigit(pad + rest, Decimal(digits));
    DigitsSkipped(digits, pad + rest);
    BlanksSkipped(pad, rest);
  }

  lemma NameScanned(name: string, more: string)
    requires '"' !in name && (more == [] || more[0] == '"')
    ensures var quote := ("\"" + name) + more; Begins(quote, "\"") && QuotedName(quote[1..]) == name
  {
    assert (("\"" + name) + more)[1..] == name + more;
    NameReads(name, more);
    hide QuotedName;
  }

  lemma NumberPartIs(m: Marker)
    ensures NumberPart(m) == m.digits + (m.pad + ((if m.name.Some? then "\"" + m.name.value else "") + m.more))
  {
  }

  lemma SpelledParts(m: Marker)
    requires WellSpelled(m)
    ensures Only(m.digits, DIGITS) && Only(m.pad, BLANKS) && (m.name.Some? ==> m.digits != [])
    ensures m.name.Some? ==> '"' !in m.name.value && (m.more == [] || m.more[0] == '"')
  {
  }

  // ----- and every marker is spelled like that -----

  lemma {:induction false} BlanksBefore(t: string) returns (s: string)
    ensures t == s + SkipBlanks(t) && Only(s, BLANKS) && !Begins(SkipBlanks(t), BLANKS)
  {
    s := [];
    if t != [] && IsBlank(t[0]) {
      var s1 := BlanksBefore(t[1..]);
      s := [t[0]] + s1;
    }
  }

  lemma {:induction false} DigitsBefore(t: string) returns (s: string)
    ensures t == s + SkipDigits(t) && Only(s, DIGITS) && !Begins(SkipDigits(t), DIGITS)
  {
    DigitIs();
    s := [];
    if t != [] && IsDigit(t[0]) {
      var s1 := DigitsBefore(t[1..]);
      s := [t[0]] + s1;
    }
  }

  lemma {:induction false} NameBefore(t: string) returns (more: string)
    ensures t == QuotedName(t) + more && '"' !in QuotedName(t) && (more == [] || more[0] == '"')
  {
    more := t;
    if t != [] && t[0] != '"' { more := NameBefore(t[1..]); }
  }

  lemma EveryMarker(t: string) returns (m: Marker)
    requires IsMarker(t)
    ensures WellSpelled(m) && Spelling(m) == t
  {
    var lead := BlanksBefore(t);
    var hash := SkipBlanks(t);
    assert hash != [] && hash[0] == '#';
    hide *;
    var gap := BlanksBefore(hash[1..]);
    var tail := SkipBlanks(hash[1..]);
    assert hash == "#" + hash[1..];
    if "line" <= tail {
      var space := BlanksBefore(tail[4..]);
      m := PartSpelled(lead, gap, Some(space), SkipBlanks(tail[4..]));
      WordStarts(tail);
    } else {
      m := PartSpelled(lead, gap, None, tail);
    }
    SpellingIs(m);
  }

  lemma SpellingIs(m: Marker)
    ensures Spelling(m) == m.lead + ("#" + (m.gap + (if m.word.Some? then "line" + (m.word.value + NumberPart(m))
                                                     else NumberPart(m))))
  {
  }

  lemma WordStarts(tail: string)
    requires "line" <= tail
    ensures tail == "line" + tail[4..]
  {
  }

  lemma SpelledNone(m: Marker)
    requires m.digits == [] && m.pad == [] && m.name.None?
    ensures NumberPart(m) == m.more
  {
  }

  lemma NoNameSpelled(m: Marker)
    requires m.name.None?
    ensures NumberPart(m) == m.digits + (m.pad + m.more)
  {
    assert "" + m.more == m.more;
  }

  lemma SpelledName(quote: string, m: Marker)
    requires quote != [] && quote[0] == '"' && m.name.Some? && quote[1..] == m.name.value + m.more
    ensures NumberPart(m) == m.digits + (m.pad + quote)
  {
    assert quote == ("\"" + m.name.value) + m.more;
  }

  lemma PartSpelled(lead: string, gap: string, word: Option<string>, part: string) returns (m: Marker)
    requires Only(lead, BLANKS) && Only(gap, BLANKS) && (word.Some? ==> Only(word.value, BLANKS))
    requires !Begins(part, BLANKS) && (word.None? ==> !("line" <= part))
    ensures WellSpelled(m) && m.lead == lead && m.gap == gap && m.word == word && NumberPart(m) == part
  {
    hide SkipBlanks;
    hide SkipDigits;
    hide QuotedName;
    var digits := DigitsBefore(part);
    var rest := SkipDigits(part);
    if digits == [] {
      m := Marker(lead, gap, word, [], [], None, part);
      assert part == rest;
      SpelledNone(m);
    } else {
      var pad := BlanksBefore(rest);
      var quote := SkipBlanks(rest);
      if quote != [] && quote[0] == '"' {
        var more := NameBefore(quote[1..]);
        m := Marker(lead, gap, word, digits, pad, Some(QuotedName(quote[1..])), more);
        SpelledName(quote, m);
      } else {
        m := Marker(lead, gap, word, digits, pad, None, quote);
        assert pad == [] ==> quote == rest;
        NoNameSpelled(m);
      }
    }
  }

  /** Every text: a line is a marker with that number and name if and only if it is spelled as blanks, `#`,
      perhaps `line`, the decimal digits of the number and perhaps the name in quotes. */
  lemma MarkerIff(t: string, n: nat, name: string)
    ensures IsMarker(t) && MarkerNumber(t) == n && MarkerName(t) == name <==>
            exists m: Marker :: WellSpelled(m) && Spelling(m) == t && Decimal(m.digits) == n &&
                                name == if m.name.Some? then m.name.value else ""
  {
    if IsMarker(t) && MarkerNumber(t) == n && MarkerName(t) == name {
      var m := EveryMarker(t);
      MarkerReads(m);
    }
    if m: Marker :| WellSpelled(m) && Spelling(m) == t && Decimal(m.digits) == n &&
                    name == if m.name.Some? then m.name.value else "" {
      MarkerReads(m);
    }
  }

  /** What a marker at the start of `t` does to the current file and line. */
  function Mark(t: string, cur: Entry, input: string): Entry {
    var name := MarkerName(t);
    Entry(if name == [] then cur.file else if (name == "<stdin>" || name == "stdin") && input != [] then input
          else name,
          if MarkerNumber(t) > 0 then MarkerNumber(t) else cur.line)
  }

  function Initial(input: string): Entry {
    Entry(if input == [] then "<input>" else input, 1)
  }

  // ----- the pass over the text -----

  datatype Stripped = Stripped(text: string, entries: seq<Entry>)

  function Strip(t: string, cur: Entry, input: string): Stripped
    decreases |t|
  {
    if t == [] then Stripped([], [])
    else
      var n := LineLength(t);
      if IsMarker(t) then Strip(t[n..], Mark(t, cur, input), input)
      else
        var rest := Strip(t[n..], Entry(cur.file, cur.line + 1), input);
        Stripped(t[..n] + rest.text, [cur] + rest.entries)
  }

  // ----- what it means, line by line -----

  function Lines(t: string): (r: seq<string>)
    decreases |t|
  {
    if t == [] then [] else [t[..LineLength(t)]] + Lines(t[LineLength(t)..])
  }

  function Concat(ls: seq<string>): string {
    if ls == [] then [] else ls[0] + Concat(ls[1..])
  }

  /** The lines that are not markers. */
  function Kept(ls: seq<string>): seq<string> {
    if ls == [] then [] else (if IsMarker(ls[0]) then [] else [ls[0]]) + Kept(ls[1..])
  }

  lemma {:induction false} BlanksStayInLine(t: string, n: nat)
    requires n == LineLength(t)
    ensures SkipBlanks(t[..n]) <= SkipBlanks(t) && (SkipBlanks(t[..n]) == [] ==> SkipBlanks(t) == [] || n == 0)
    decreases |t|
  {
    if t != [] && IsBlank(t[0]) {
      assert t[..n][1..] == t[1..][..n - 1];
      BlanksStayInLine(t[1..], n - 1);
    }
  }

  /** Whether a line is a marker shows in the line itself. */
  lemma MarkerInLine(t: string)
    ensures IsMarker(t) == IsMarker(t[..LineLength(t)])
  {
    BlanksStayInLine(t, LineLength(t));
  }

  lemma StripStep(t: string, cur: Entry, input: string)
    requires t != []
    ensures var n := LineLength(t);
            var r := Strip(t, cur, input);
            if IsMarker(t) then r == Strip(t[n..], Mark(t, cur, input), input)
            else
              var rest := Strip(t[n..], Entry(cur.file, cur.line + 1), input);
              r == Stripped(t[..n] + rest.text, [cur] + rest.entries)
  {
    hide IsMarker;
    hide Mark;
  }

  lemma LinesStep(t: string)
    requires t != []
    ensures var n := LineLength(t); Lines(t) == [t[..n]] + Lines(t[n..]) && Lines(t) != [] && Lines(t)[0] == t[..n] &&
                                    Lines(t)[1..] == Lines(t[n..])
  {
  }

  lemma KeptStep(ls: seq<string>)
    requires ls != []
    ensures Kept(ls) == if IsMarker(ls[0]) then Kept(ls[1..]) else [ls[0]] + Kept(ls[1..])
  {
    assert [] + Kept(ls[1..]) == Kept(ls[1..]);
  }

  lemma ConcatStep(line: string, ls: seq<string>)
    ensures Concat([line] + ls) == line + Concat(ls)
  {
    assert ([line] + ls)[1..] == ls;
  }

  /** The output is exactly the lines that are not markers, with one entry for each. */
  lemma {:induction false} StripKeeps(t: string, cur: Entry, input: string)
    ensures var r := Strip(t, cur, input); r.text == Concat(Kept(Lines(t))) && |r.entries| == |Kept(Lines(t))|
    decreases |t|
  {
    if t != [] {
      hide *;
      var n := LineLength(t);
      var next := if IsMarker(t) then Mark(t, cur, input) else Entry(cur.file, cur.line + 1);
      LinesStep(t);
      KeptStep(Lines(t));
      StripStep(t, cur, input);
      MarkerInLine(t);
      StripKeeps(t[n..], next, input);
      ConcatStep(t[..n], Kept(Lines(t[n..])));
    }
  }

  /** Every line but the last ends in a newline, and no line has one inside. */
  ghost predicate ProperLines(ls: seq<string>) {
    forall i :: 0 <= i < |ls| ==>
                  ls[i] != [] && (forall k :: 0 <= k < |ls[i]| - 1 ==> ls[i][k] != NL) &&
                  (i < |ls| - 1 ==> ls[i][|ls[i]| - 1] == NL)
  }

  lemma {:induction false} LinesProper(t: string)
    ensures ProperLines(Lines(t)) && Concat(Lines(t)) == t && (t != [] ==> Lines(t) != [])
    decreases |t|
  {
    if t != [] {
      var n := LineLength(t);
      var line, rest := t[..n], Lines(t[n..]);
      LinesProper(t[n..]);
      LinesStep(t);
      ConcatStep(line, rest);
      assert rest != [] ==> n < |t|;
      hide *;
      FirstLine(t);
      ProperCons(line, rest);
    }
  }

  lemma FirstLine(t: string)
    requires t != []
    ensures var n := LineLength(t); t == t[..n] + t[n..] && t[..n] != [] &&
                                    forall k :: 0 <= k < n - 1 ==> t[..n][k] != NL
    ensures var n := LineLength(t); n < |t| ==> t[..n][n - 1] == NL
  {
  }

  lemma ProperCons(line: string, rest: seq<string>)
    requires line != [] && (forall k :: 0 <= k < |line| - 1 ==> line[k] != NL) &&
             (rest != [] ==> line[|line| - 1] == NL) && ProperLines(rest)
    ensures ProperLines([line] + rest)
  {
  }

  lemma {:induction false} LineOfConcat(line: string, rest: string)
    requires line != [] && (forall k :: 0 <= k < |line| - 1 ==> line[k] != NL) &&
             (rest != [] ==> line[|line| - 1] == NL)
    ensures LineLength(line + rest) == |line|
  {
    if |line| > 1 {
      assert (line + rest)[1..] == line[1..] + rest;
      LineOfConcat(line[1..], rest);
    } else if line[0] != NL {
      assert (line + rest)[1..] == [];
    }
  }

  lemma {:induction false} LinesOfConcat(ls: seq<string>)
    requires ProperLines(ls)
    ensures Lines(Concat(ls)) == ls
    decreases |ls|
  {
    if ls != [] {
      var rest := Concat(ls[1..]);
      forall i | 0 <= i < |ls[1..]|
        ensures ls[1..][i] == ls[i + 1]
      {
      }
      assert ProperLines(ls[1..]);
      LinesOfConcat(ls[1..]);
      if rest != [] { assert ls[1..] != []; }
      LineOfConcat(ls[0], rest);
      assert (ls[0] + rest)[..|ls[0]|] == ls[0] && (ls[0] + rest)[|ls[0]|..] == rest;
    }
  }

  lemma {:induction false} KeptProper(ls: seq<string>)
    requires ProperLines(ls)
    ensures ProperLines(Kept(ls)) && (Kept(ls) != [] ==> ls != [])
    decreases |ls|
  {
    if ls != [] {
      forall i | 0 <= i < |ls[1..]|
        ensures ls[1..][i] == ls[i + 1]
      {
      }
      assert ProperLines(ls[1..]);
      KeptProper(ls[1..]);
      var k := Kept(ls);
      if !IsMarker(ls[0]) {
        forall i | 0 <= i < |k|
          ensures k[i] != [] && (forall j :: 0 <= j < |k[i]| - 1 ==> k[i][j] != NL) &&
                  (i < |k| - 1 ==> k[i][|k[i]| - 1] == NL)
        {
          if i > 0 { assert k[i] == Kept(ls[1..])[i - 1]; }
        }
      }
    }
  }

  /** The lines of the output are the kept lines, so line `k` of the output has entry `k`. */
  lemma OutputLines(t: string, cur: Entry, input: string)
    ensures var r := Strip(t, cur, input); Lines(r.text) == Kept(Lines(t)) && |r.entries| == |Lines(r.text)|
  {
    StripKeeps(t, cur, input);
    LinesProper(t);
    KeptProper(Lines(t));
    LinesOfConcat(Kept(Lines(t)));
  }

  // ----- which entry a line gets -----

  /** The text from line `i` on. */
  function From(t: string, i: nat): string
    requires i <= |Lines(t)|
    decreases i
  {
    if i == 0 then t else From(t[LineLength(t)..], i - 1)
  }

  function CountKept(ls: seq<string>, from: nat, to: nat): nat
    requires from <= to <= |ls|
  {
    if from == to then 0 else CountKept(ls, from, to - 1) + if IsMarker(ls[to - 1]) then 0 else 1
  }

  /** The last marker with a number before line `i`, or none. */
  function LastNumbered(t: string, i: nat): (r: Option<nat>)
    requires i <= |Lines(t)|
    ensures r.Some? ==> r.value < i && IsNumbered(From(t, r.value))
    ensures forall k :: (if r.Some? then r.value else -1) < k < i ==> !IsNumbered(From(t, k))
  {
    if i == 0 then None else if IsNumbered(From(t, i - 1)) then Some(i - 1) else LastNumbered(t, i - 1)
  }

  function LastNamed(t: string, i: nat): (r: Option<nat>)
    requires i <= |Lines(t)|
    ensures r.Some? ==> r.value < i && IsMarker(From(t, r.value)) && MarkerName(From(t, r.value)) != []
    ensures forall k :: (if r.Some? then r.value else -1) < k < i ==>
                          !(IsMarker(From(t, k)) && MarkerName(From(t, k)) != [])
  {
    if i == 0 then None
    else if IsMarker(From(t, i - 1)) && MarkerName(From(t, i - 1)) != [] then Some(i - 1)
    else LastNamed(t, i - 1)
  }

  /** The number that the last numbered marker set, plus the lines kept since. */
  function ExpectedLine(t: string, i: nat, first: int): int
    requires i <= |Lines(t)|
  {
    match LastNumbered(t, i)
    case Some(m) => MarkerNumber(From(t, m)) + CountKept(Lines(t), m + 1, i)
    case None => first + CountKept(Lines(t), 0, i)
  }

  /** The file that the last named marker set. */
  function ExpectedFile(t: string, i: nat, first: string, input: string): string
    requires i <= |Lines(t)|
  {
    match LastNamed(t, i)
    case Some(m) => FileNamed(MarkerName(From(t, m)), input)
    case None => first
  }

  /** Standard input goes by the name of the file that was piped in, if that has one. */
  function FileNamed(name: string, input: string): string {
    if name in {"stdin", "<stdin>"} && input != "" then input else name
  }

  /** The state before line `i`, step by step. */
  function Before(t: string, i: nat, cur: Entry, input: string): Entry
    requires i <= |Lines(t)|
  {
    if i == 0 then cur
    else
      var e, line := Before(t, i - 1, cur, input), From(t, i - 1);
      if IsMarker(line) then Mark(line, e, input) else Entry(e.file, e.line + 1)
  }

  lemma {:induction false} FromStarts(t: string, i: nat)
    requires i < |Lines(t)|
    ensures From(t, i) != [] && Lines(t)[i] == From(t, i)[..LineLength(From(t, i))] &&
            From(t, i + 1) == From(t, i)[LineLength(From(t, i))..]
    decreases i
  {
    if i > 0 {
      var u := t[LineLength(t)..];
      FromStarts(u, i - 1);
    } else {
      var u := t[LineLength(t)..];
      assert From(t, 1) == From(u, 0);
    }
  }

  lemma CountStep(ls: seq<string>, from: nat, to: nat)
    requires from < to <= |ls|
    ensures CountKept(ls, from, to) == CountKept(ls, from, to - 1) + if IsMarker(ls[to - 1]) then 0 else 1
    ensures CountKept(ls, to, to) == 0
  {
    hide IsMarker;
  }

  lemma {:induction false} LineIsExpected(t: string, i: nat, cur: Entry, input: string)
    requires i <= |Lines(t)|
    ensures Before(t, i, cur, input).line == ExpectedLine(t, i, cur.line)
    decreases i
  {
    hide MarkerNumber;
    hide MarkerName;
    hide LineLength;
    hide Lines;
    hide From;
    hide CountKept;
    hide IsMarker;
    if i > 0 {
      LineIsExpected(t, i - 1, cur, input);
      FromStarts(t, i - 1);
      MarkerInLine(From(t, i - 1));
      var m := LastNumbered(t, i - 1);
      CountStep(Lines(t), if m.Some? then m.value + 1 else 0, i);
    } else {
      CountNone(Lines(t));
    }
  }

  lemma CountNone(ls: seq<string>)
    ensures CountKept(ls, 0, 0) == 0
  {
  }

  lemma {:induction false} FileIsExpected(t: string, i: nat, cur: Entry, input: string)
    requires i <= |Lines(t)|
    ensures Before(t, i, cur, input).file == ExpectedFile(t, i, cur.file, input)
    decreases i
  {
    hide MarkerNumber;
    hide MarkerName;
    hide Lines;
    hide From;
    hide IsMarker;
    if i > 0 { FileIsExpected(t, i - 1, cur, input); }
  }

  // ----- the entry of the k-th line of the output -----

  /** The source line that becomes line `k` of the output. */
  function KeptIndex(ls: seq<string>, k: nat): (i: nat)
    requires k < |Kept(ls)|
    ensures i < |ls| && !IsMarker(ls[i]) && ls[i] == Kept(ls)[k] && CountKept(ls, 0, i) == k
  {
    KeptStep(ls);
    if !IsMarker(ls[0]) && k == 0 then 0
    else
      var j := KeptIndex(ls[1..], if IsMarker(ls[0]) then k else k - 1);
      CountShift(ls, j);
      j + 1
  }

  lemma {:induction false} CountShift(ls: seq<string>, j: nat)
    requires ls != [] && j <= |ls| - 1
    ensures CountKept(ls, 0, j + 1) == CountKept(ls[1..], 0, j) + if IsMarker(ls[0]) then 0 else 1
    decreases j
  {
    hide IsMarker;
    if j > 0 { CountShift(ls, j - 1); }
  }

  lemma {:induction false} BeforeShift(t: string, i: nat, cur: Entry, input: string)
    requires t != [] && i < |Lines(t)|
    ensures var next := if IsMarker(t) then Mark(t, cur, input) else Entry(cur.file, cur.line + 1);
            i <= |Lines(t[LineLength(t)..])| &&
            Before(t, i + 1, cur, input) == Before(t[LineLength(t)..], i, next, input)
    decreases i
  {
    hide IsMarker;
    hide Mark;
    hide Lines;
    LinesStep(t);
    if i > 0 { BeforeShift(t, i - 1, cur, input); } else { assert From(t, 0) == t; }
  }

  /** Entry `k` is the state before the source line that line `k` of the output comes from. */
  lemma {:induction false} EntryIsBefore(t: string, k: nat, cur: Entry, input: string)
    requires k < |Kept(Lines(t))|
    ensures var r := Strip(t, cur, input);
            k < |r.entries| && r.entries[k] == Before(t, KeptIndex(Lines(t), k), cur, input)
    decreases |t|
  {
    hide *;
    StripKeeps(t, cur, input);
    SomeLine(t, k);
    LinesStep(t);
    KeptStep(Lines(t));
    StripStep(t, cur, input);
    MarkerInLine(t);
    KeptIndexStep(Lines(t), k);
    var n := LineLength(t);
    var next := if IsMarker(t) then Mark(t, cur, input) else Entry(cur.file, cur.line + 1);
    if k > 0 || IsMarker(t) {
      var k1: nat := if IsMarker(t) then k else k - 1;
      EntryIsBefore(t[n..], k1, next, input);
      BeforeShift(t, KeptIndex(Lines(t[n..]), k1), cur, input);
    } else {
      BeforeFirst(t, cur, input);
    }
  }

  lemma SomeLine(t: string, k: nat)
    requires k < |Kept(Lines(t))|
    ensures t != []
  {
  }

  lemma BeforeFirst(t: string, cur: Entry, input: string)
    ensures Before(t, 0, cur, input) == cur
  {
  }

  lemma KeptIndexStep(ls: seq<string>, k: nat)
    requires k < |Kept(ls)|
    ensures ls != []
    ensures !IsMarker(ls[0]) && k == 0 ==> KeptIndex(ls, k) == 0
    ensures IsMarker(ls[0]) || k > 0 ==>
              var k1: nat := if IsMarker(ls[0]) then k else k - 1;
              k1 < |Kept(ls[1..])| && KeptIndex(ls, k) == KeptIndex(ls[1..], k1) + 1
  {
    hide IsMarker;
    KeptStep(ls);
  }

  /** The lookup of `set_diag`: line `k` of the output, counted from 1. */
  function Lookup(entries: seq<Entry>, file: string, line: int): Entry {
    if line > 0 && line <= |entries| then
      var e := entries[line - 1];
      Entry(if e.file != [] then e.file else file, if e.line > 0 then e.line else line)
    else Entry(file, line)
  }

  /** A diagnostic on line `k` of the preprocessed text is reported at the file that the last named
      marker before it gives, and at the number that the last numbered marker gives plus the lines
      kept since. */
  lemma DiagnosticLine(t: string, k: nat, file: string, input: string)
    requires 1 <= k <= |Lines(Strip(t, Initial(input), input).text)|
    ensures var r := Strip(t, Initial(input), input);
            var first := if input == "" then "<input>" else input;
            k <= |Kept(Lines(t))| && |r.entries| == |Lines(r.text)| &&
            var i := KeptIndex(Lines(t), k - 1);
            Lines(r.text)[k - 1] == Lines(t)[i] &&
            Lookup(r.entries, file, k) == Entry(ExpectedFile(t, i, first, input), ExpectedLine(t, i, 1))
  {
    hide Strip;
    hide Lines;
    hide Kept;
    hide IsMarker;
    hide KeptIndex;
    var cur := Initial(input);
    OutputLines(t, cur, input);
    EntryIsBefore(t, k - 1, cur, input);
    var i := KeptIndex(Lines(t), k - 1);
    LineIsExpected(t, i, cur, input);
    FileIsExpected(t, i, cur, input);
    hide ExpectedFile;
    hide ExpectedLine;
    hide Before;
    ExpectedGood(t, i, cur.file, input);
  }

  lemma ExpectedGood(t: string, i: nat, first: string, input: string)
    requires i <= |Lines(t)| && first != []
    ensures ExpectedFile(t, i, first, input) != [] && ExpectedLine(t, i, 1) > 0
  {
    hide Lines;
    hide From;
    hide MarkerName;
    hide MarkerNumber;
    hide CountKept;
  }

  // ----- the loop over the buffer -----

  /** `strip_line_markers`; `out` is as long as the text, and `entries` is the map. */
  method StripLineMarkers(src: string, input: string) returns (text: string, entries: seq<Entry>)
    ensures Stripped(text, entries) == Strip(src, Initial(input), input)
  {
    hide *;
    var n := |src|;
    var out := new char[n];
    var oi: nat, i: nat := 0, 0;
    var cur := Initial(input);
    entries := [];
    ghost var all, done: string := Strip(src, cur, input), [];
    assert src[0..] == src;
    ThenFirst(all);
    while i < n
      invariant oi <= i <= n == out.Length && out[..oi] == done
      invariant Then(done, entries, Strip(src[i..], cur, input)) == all
    {
      ghost var t := src[i..];
      StripStep(t, cur, input);
      ScanIs(src, i);
      var j := i + (|src[i..]| - |SkipBlanks(src[i..])|);
      var to := EndOfLine(src, i);
      if j < n && src[j] == '#' {
        cur := Mark(src[i..], cur, input);
        i := to;
        continue;
      }
      assert t[..to - i] == src[i..to];
      Shift(done, entries, src[i..to], cur, Strip(src[to..], Entry(cur.file, cur.line + 1), input));
      entries := entries + [cur];
      CopyLine(src, out, i, to, oi);
      done, oi, i := done + src[i..to], oi + (to - i), to;
      cur := Entry(cur.file, cur.line + 1);
    }
    text := out[..oi];
    StripNothing(src[i..], cur, input, text, entries);
  }

  lemma ThenFirst(all: Stripped)
    ensures Then([], [], all) == all
  {
    assert [] + all.text == all.text && [] + all.entries == all.entries;
  }

  ghost function Then(text: string, entries: seq<Entry>, rest: Stripped): Stripped {
    Stripped(text + rest.text, entries + rest.entries)
  }

  lemma Shift(text: string, entries: seq<Entry>, line: string, e: Entry, rest: Stripped)
    ensures Then(text, entries, Stripped(line + rest.text, [e] + rest.entries)) ==
            Then(text + line, entries + [e], rest)
  {
    assert text + (line + rest.text) == (text + line) + rest.text;
    assert entries + ([e] + rest.entries) == (entries + [e]) + rest.entries;
  }

  lemma StripNothing(t: string, cur: Entry, input: string, text: string, entries: seq<Entry>)
    requires t == []
    ensures Then(text, entries, Strip(t, cur, input)) == Stripped(text, entries)
  {
    assert text + [] == text && entries + [] == entries;
  }

  lemma {:induction false} BlanksAreSuffix(t: string)
    ensures var r := SkipBlanks(t); r == t[|t| - |r|..]
  {
    if t != [] && IsBlank(t[0]) { BlanksAreSuffix(t[1..]); }
  }

  /** Byte `j` is the first that is not blank. */
  lemma ScanIs(src: string, i: nat)
    requires i < |src|
    ensures var j := i + (|src[i..]| - |SkipBlanks(src[i..])|);
            i <= j <= |src| && (j < |src| && src[j] == '#' <==> IsMarker(src[i..]))
    ensures i + LineLength(src[i..]) <= |src| && src[i..][LineLength(src[i..])..] == src[i + LineLength(src[i..])..]
  {
    var t := src[i..];
    BlanksAreSuffix(t);
    hide SkipBlanks;
    hide LineLength;
    var r := SkipBlanks(t);
    if r != [] { assert r[0] == t[|t| - |r|] == src[i + (|t| - |r|)]; }
  }

  method EndOfLine(src: string, i: nat) returns (to: nat)
    requires i < |src|
    ensures i < to <= |src| && to == i + LineLength(src[i..])
  {
    to := i;
    while to < |src| && src[to] != NL
      invariant i <= to <= |src| && to + LineLength(src[to..]) == i + LineLength(src[i..])
    {
      assert src[to..][1..] == src[to + 1..];
      to := to + 1;
    }
    if to < |src| {
      assert src[to..][0] == NL;
      to := to + 1;
    } else {
      assert src[to..] == [];
    }
  }

  method CopyLine(src: string, out: array<char>, i: nat, to: nat, oi: nat)
    requires i <= to <= |src| && oi + (to - i) <= out.Length
    modifies out
    ensures out[..oi + (to - i)] == old(out[..oi]) + src[i..to]
  {
    var k := 0;
    while k < to - i
      invariant 0 <= k <= to - i && out[..oi + k] == old(out[..oi]) + src[i..i + k]
    {
      out[oi + k] := src[i + k];
      k := k + 1;
    }
  }
}
