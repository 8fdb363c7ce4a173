/** Where a walk from glyph to glyph stands, on any bytes, valid or not. */
module Boundaries {
  import opened Options
  import opened Utf8

  /** What `memcmp` answers at byte `i`. */
  predicate Matches(s: Bytes, p: Bytes, i: nat) {
    i + |p| <= |s| && s[i..i + |p|] == p
  }

  /** The bytes from `from` to `i` are whole glyphs. */
  predicate Edge(s: Bytes, from: nat, i: nat) {
    from <= i <= |s| && Valid(s[from..i])
  }

  function GlyphsBefore(s: Bytes, i: nat): nat
    requires Edge(s, 0, i)
  {
    |Decode(s[0..i]).value|
  }

  lemma {:induction false} ValidSuffix(p: Bytes, rest: Bytes)
    requires Valid(p) && Valid(p + rest)
    ensures Valid(rest)
    decreases |p|
  {
    if p == [] {
      assert p + rest == rest;
    } else {
      var n := Next(p).value.adv;
      NextPrefix(p, rest);
      assert (p + rest)[n..] == p[n..] + rest;
      ValidSuffix(p[n..], rest);
    }
  }

  lemma NextPrefix(p: Bytes, rest: Bytes)
    requires Next(p).Some?
    ensures Next(p + rest) == Next(p)
  {
    var g := Next(p).value;
    EncodeDecode(p);
    DecodeEncode(g.cp, p[g.adv..] + rest);
    assert p + rest == p[..g.adv] + (p[g.adv..] + rest);
  }

  lemma DecodeConcat(a: Bytes, b: Bytes)
    requires Valid(a) && Valid(b)
    ensures Decode(a + b) == Some(Decode(a).value + Decode(b).value)
  {
    hide Decode;
    hide EncodeAll;
    var x, y := Decode(a).value, Decode(b).value;
    Utf8Bijective(a, x);
    Utf8Bijective(b, y);
    EncodeAllConcat(x, y);
    Utf8Bijective(a + b, x + y);
  }

  /** The first glyph by itself. */
  lemma OneGlyph(t: Bytes)
    requires Next(t).Some?
    ensures var g := Next(t).value; Decode(t[..g.adv]) == Some([g.cp])
  {
    var g := Next(t).value;
    EncodeDecode(t);
    hide Next;
    hide Decode;
    hide Encode;
    EncodeCons(g.cp, []);
    NoneEncoded();
    assert [g.cp] + [] == [g.cp];
    Utf8Bijective(t[..g.adv], [g.cp]);
  }

  lemma NoneEncoded()
    ensures EncodeAll([]) == []
  {
  }

  lemma StartsAt(s: Bytes, from: nat)
    requires from <= |s|
    ensures Edge(s, from, from)
    ensures from == 0 ==> GlyphsBefore(s, 0) == 0
  {
    assert s[from..from] == [];
  }

  /** From one boundary to a later one there is a glyph. */
  lemma EdgeAfter(s: Bytes, from: nat, i: nat, k: nat)
    requires Edge(s, from, i) && Edge(s, from, k) && i < k
    ensures NextAt(s, i).Some? && i + NextAt(s, i).value.adv <= k
  {
    hide Next;
    hide Encode;
    var t := s[i..k];
    assert s[from..k] == s[from..i] + t;
    ValidSuffix(s[from..i], t);
    assert Next(t).Some?;
    NextPrefix(t, s[k..]);
    assert s[i..] == t + s[k..];
  }

  /** One step of the walk. */
  lemma EdgeStep(s: Bytes, from: nat, i: nat)
    requires Edge(s, from, i) && i < |s|
    ensures NextAt(s, i).Some? ==>
              var j := i + NextAt(s, i).value.adv;
              Edge(s, from, j) && (from == 0 ==> GlyphsBefore(s, j) == GlyphsBefore(s, i) + 1)
    ensures NextAt(s, i).Some? ==> forall k: nat :: i < k < i + NextAt(s, i).value.adv ==> !Edge(s, from, k)
    ensures NextAt(s, i).None? ==> forall k: nat :: i < k ==> !Edge(s, from, k)
  {
    forall k: nat | i < k && Edge(s, from, k)
      ensures NextAt(s, i).Some? && i + NextAt(s, i).value.adv <= k
    {
      EdgeAfter(s, from, i, k);
    }
    if NextAt(s, i).Some? {
      var n := NextAt(s, i).value.adv;
      OneGlyph(s[i..]);
      assert s[i..][..n] == s[i..i + n] && s[from..i + n] == s[from..i] + s[i..i + n];
      hide Next;
      hide Decode;
      DecodeConcat(s[from..i], s[i..i + n]);
    }
  }

  // ----- the first and the last match -----

  /** `i` is the first boundary at which `p` stands. */
  ghost predicate FirstMatch(s: Bytes, p: Bytes, from: nat, i: nat) {
    Edge(s, from, i) && Matches(s, p, i) && Passed(s, p, from, i)
  }

  /** No boundary before `i` has `p`. */
  ghost predicate Passed(s: Bytes, p: Bytes, from: nat, i: nat) {
    forall k: nat :: k < i && Edge(s, from, k) ==> !Matches(s, p, k)
  }

  ghost predicate NoMatch(s: Bytes, p: Bytes, from: nat) {
    forall k: nat :: Edge(s, from, k) ==> !Matches(s, p, k)
  }

  ghost predicate LastMatch(s: Bytes, p: Bytes, i: nat) {
    Edge(s, 0, i) && Matches(s, p, i) && forall k: nat :: i < k && Edge(s, 0, k) ==> !Matches(s, p, k)
  }

  /** The walk for `p` meets bytes that are no glyph while there is still room for `p`. */
  ghost predicate Stuck(s: Bytes, p: Bytes, from: nat) {
    exists i: nat :: Edge(s, from, i) && i < |s| && i + |p| <= |s| && NextAt(s, i).None?
  }

  lemma FirstOnly(s: Bytes, p: Bytes, from: nat, i: nat)
    requires FirstMatch(s, p, from, i)
    ensures !NoMatch(s, p, from) && forall k: nat :: FirstMatch(s, p, from, k) ==> k == i
  {
    hide Edge;
    hide Matches;
    forall k: nat | FirstMatch(s, p, from, k)
      ensures k == i
    {
    }
  }

  lemma LastOnly(s: Bytes, p: Bytes, i: nat)
    requires LastMatch(s, p, i)
    ensures !NoMatch(s, p, 0) && forall k: nat :: LastMatch(s, p, k) ==> k == i
  {
    hide Edge;
    hide Matches;
    forall k: nat | LastMatch(s, p, k)
      ensures k == i
    {
    }
  }

  lemma PassedOn(s: Bytes, p: Bytes, from: nat, i: nat)
    requires Edge(s, from, i) && i < |s| && Passed(s, p, from, i) && !Matches(s, p, i)
    ensures NextAt(s, i).Some? ==> Passed(s, p, from, i + NextAt(s, i).value.adv)
    ensures NextAt(s, i).None? ==> forall k: nat :: !FirstMatch(s, p, from, k)
    ensures NextAt(s, i).None? ==> NoMatch(s, p, from) && !Valid(s[from..]) && (i + |p| <= |s| ==> Stuck(s, p, from))
  {
    EdgeStep(s, from, i);
    if NextAt(s, i).None? {
      assert s[from..|s|] == s[from..];
      assert !Edge(s, from, |s|);
    }
    hide Edge;
    hide Matches;
    hide NextAt;
    if NextAt(s, i).None? {
      forall k: nat | Edge(s, from, k)
        ensures !Matches(s, p, k)
      {
        if k < i {
          assert !Matches(s, p, k);
        } else {
          assert k == i;
        }
      }
    }
  }

  /** The walk has passed every place where `p` would fit. */
  lemma PassedAll(s: Bytes, p: Bytes, from: nat, i: nat)
    requires Edge(s, from, i) && Passed(s, p, from, i) && i + |p| > |s|
    ensures NoMatch(s, p, from) && !Stuck(s, p, from) && forall k: nat :: !FirstMatch(s, p, from, k)
  {
    forall k: nat | Edge(s, from, k)
      ensures !Matches(s, p, k)
    {
      if k < i { assert !Matches(s, p, k); }
    }
    forall k: nat | Edge(s, from, k) && k < |s| && k + |p| <= |s|
      ensures NextAt(s, k).Some?
    {
      EdgeAfter(s, from, k, i);
    }
  }
}
