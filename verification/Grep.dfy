/** The regular-expression matcher of grep.c (after The Practice of Programming, chapter 9),
  * proved against a declarative meaning: a pattern matches when the text can be cut into pieces,
  * one for each item of the pattern.
  */
module Grep {
  datatype Atom = Lit(c: char) | Any

  datatype Item = One(a: Atom) | Star(a: Atom)

  /** The items of a pattern, and whether it ends in an anchoring $. */
  datatype Pattern = Pattern(items: seq<Item>, atEnd: bool)

  function AtomOf(c: char): Atom {
    if c == '.' then Any else Lit(c)
  }

  predicate Hits(a: Atom, c: char) {
    a == Any || a.c == c
  }

  /** The items a pattern denotes; * binds the character before it, and $ anchors only at the end. */
  function Parse(re: string): Pattern {
    if re == "" then Pattern([], false)
    else if |re| >= 2 && re[1] == '*' then
      var p := Parse(re[2..]);
      Pattern([Star(AtomOf(re[0]))] + p.items, p.atEnd)
    else if re == "$" then Pattern([], true)
    else
      var p := Parse(re[1..]);
      Pattern([One(AtomOf(re[0]))] + p.items, p.atEnd)
  }

  function ItemText(x: Item): string {
    var c := if x.a.Any? then '.' else x.a.c;
    if x.Star? then [c, '*'] else [c]
  }

  /** How a pattern is written. */
  function Text(p: Pattern): string
    decreases |p.items|
  {
    if p.items == [] then (if p.atEnd then "$" else "")
    else ItemText(p.items[0]) + Text(Pattern(p.items[1..], p.atEnd))
  }

  /** The patterns that can be written, without an escape: a dot is never literal, a literal * comes first or after a
    * starred item, and a final literal $ needs the anchor after it.
    */
  predicate Writable(p: Pattern) {
    && (forall i :: 0 <= i < |p.items| ==> p.items[i].a != Lit('.'))
    && (forall i :: 0 < i < |p.items| && p.items[i].a == Lit('*') ==> p.items[i - 1].Star?)
    && (p.items != [] && !p.atEnd ==> p.items[|p.items| - 1] != One(Lit('$')))
  }

  lemma WritableMore(x: Item, q: Pattern)
    requires Writable(q) && x.a != Lit('.')
    requires q.items != [] && q.items[0].a == Lit('*') ==> x.Star?
    requires q.items == [] && !q.atEnd ==> x != One(Lit('$'))
    ensures Writable(Pattern([x] + q.items, q.atEnd))
  {
    var p := Pattern([x] + q.items, q.atEnd);
    assert forall i :: 0 < i < |p.items| ==> p.items[i] == q.items[i - 1];
  }

  lemma TextMore(x: Item, q: Pattern)
    ensures Text(Pattern([x] + q.items, q.atEnd)) == ItemText(x) + Text(q)
  {
    var p := Pattern([x] + q.items, q.atEnd);
    assert p.items[1..] == q.items && Pattern(p.items[1..], p.atEnd) == q;
  }

  /** Every string is the text of what it is read as. */
  lemma {:induction false} TextOfParse(re: string)
    ensures Writable(Parse(re)) && Text(Parse(re)) == re
    decreases |re|
  {
    hide Writable, Text;
    if re == "" || re == "$" {
      EndText(re == "$");
    } else {
      var star := |re| >= 2 && re[1] == '*';
      var n := if star then 2 else 1;
      var x, q := if star then Star(AtomOf(re[0])) else One(AtomOf(re[0])), Parse(re[n..]);
      TextOfParse(re[n..]);
      FirstChar(q);
      WritableMore(x, q);
      TextMore(x, q);
      assert ItemText(x) == re[..n];
    }
  }

  lemma EndText(atEnd: bool)
    ensures Writable(Pattern([], atEnd)) && Text(Pattern([], atEnd)) == if atEnd then "$" else ""
  {
  }

  lemma FirstChar(p: Pattern)
    ensures p.items != [] && p.items[0].a == Lit('*') ==> Text(p) != "" && Text(p)[0] == '*'
    ensures Writable(p) && Text(p) != "" && Text(p)[0] == '*' ==> p.items != [] && p.items[0].a == Lit('*')
    ensures p.items == [] && !p.atEnd <==> Text(p) == ""
    ensures p.items != [] && Text(p) == "$" ==> p.items == [One(Lit('$'))] && !p.atEnd
  {
    if p.items != [] {
      var q := Pattern(p.items[1..], p.atEnd);
      assert Text(p) == ItemText(p.items[0]) + Text(q);
      if Text(p) == "$" {
        assert Text(p)[0] == ItemText(p.items[0])[0] == '$';
        assert |Text(q)| == 0;
      }
    }
  }

  lemma {:induction false} ParseOfText(p: Pattern)
    requires Writable(p)
    ensures Parse(Text(p)) == p
    decreases |p.items|
  {
    if p.items != [] {
      var x, q := p.items[0], Pattern(p.items[1..], p.atEnd);
      assert Writable(q) by {
        assert forall i :: 0 <= i < |q.items| ==> q.items[i] == p.items[i + 1];
      }
      ParseOfText(q);
      FirstChar(p);
      FirstChar(q);
      assert [x] + q.items == p.items;
      assert q.items != [] ==> q.items[0] == p.items[1];
      var re := Text(p);
      if x.Star? {
        assert re[2..] == Text(q);
      } else {
        assert re[1..] == Text(q);
      }
    }
  }

  /** Reading the text of a pattern gives the pattern back exactly when it can be written. */
  lemma PatternText(p: Pattern)
    ensures Parse(Text(p)) == p <==> Writable(p)
  {
    if Writable(p) {
      ParseOfText(p);
    }
    TextOfParse(Text(p));
  }

  predicate ItemMatches(x: Item, w: string) {
    match x
    case One(a) => |w| == 1 && Hits(a, w[0])
    case Star(a) => forall i :: 0 <= i < |w| ==> Hits(a, w[i])
  }

  function Concat(pieces: seq<string>): string {
    if pieces == [] then "" else pieces[0] + Concat(pieces[1..])
  }

  /** The pieces make up w and each is matched by its own item. */
  predicate Cuts(items: seq<Item>, w: string, pieces: seq<string>) {
    && |pieces| == |items| && Concat(pieces) == w
    && forall i :: 0 <= i < |items| ==> ItemMatches(items[i], pieces[i])
  }

  ghost predicate Matches(items: seq<Item>, w: string) {
    exists pieces :: Cuts(items, w, pieces)
  }

  /** Some prefix of text, all of it after a final $, is matched by the items. */
  ghost predicate MatchesAt(p: Pattern, text: string) {
    exists e :: PrefixMatches(p, text, e)
  }

  ghost predicate PrefixMatches(p: Pattern, text: string, e: int) {
    0 <= e <= |text| && Matches(p.items, text[..e]) && (p.atEnd ==> e == |text|)
  }

  /** The meaning of a whole pattern: a leading ^ pins the match to the start of the text. */
  ghost predicate Meaning(re: string, text: string) {
    if re != "" && re[0] == '^' then MatchesAt(Parse(re[1..]), text)
    else exists i :: 0 <= i <= |text| && MatchesAt(Parse(re), text[i..])
  }

  // ----- taking the first item off

  lemma MatchesEmpty(w: string)
    ensures Matches([], w) <==> w == ""
  {
    if w == "" {
      assert Cuts([], w, []);
    }
  }

  lemma MatchesCons(x: Item, rest: seq<Item>, w: string, k: nat)
    requires k <= |w| && ItemMatches(x, w[..k]) && Matches(rest, w[k..])
    ensures Matches([x] + rest, w)
  {
    var pieces :| Cuts(rest, w[k..], pieces);
    var all := [w[..k]] + pieces;
    assert all[1..] == pieces;
    assert Cuts([x] + rest, w, all);
  }

  lemma MatchesUncons(x: Item, rest: seq<Item>, w: string) returns (k: nat)
    requires Matches([x] + rest, w)
    ensures k <= |w| && ItemMatches(x, w[..k]) && Matches(rest, w[k..])
  {
    var items := [x] + rest;
    var pieces :| Cuts(items, w, pieces);
    k := |pieces[0]|;
    assert w[..k] == pieces[0] && w[k..] == Concat(pieces[1..]);
    assert ItemMatches(items[0], pieces[0]);
    forall i | 0 <= i < |rest|
      ensures ItemMatches(rest[i], pieces[1..][i])
    {
      assert items[i + 1] == rest[i] && ItemMatches(items[i + 1], pieces[i + 1]);
    }
    assert Cuts(rest, w[k..], pieces[1..]);
  }

  // ----- what each step of the matcher needs

  lemma AtEmpty(atEnd: bool, text: string)
    ensures MatchesAt(Pattern([], atEnd), text) <==> (atEnd ==> text == "")
  {
    MatchesEmpty(text[..0]);
    if atEnd ==> text == "" {
      assert PrefixMatches(Pattern([], atEnd), text, 0);
    }
    if MatchesAt(Pattern([], atEnd), text) {
      var e :| PrefixMatches(Pattern([], atEnd), text, e);
      MatchesEmpty(text[..e]);
    }
  }

  lemma AtOne(a: Atom, p: Pattern, text: string)
    ensures MatchesAt(Pattern([One(a)] + p.items, p.atEnd), text)
      <==> text != "" && Hits(a, text[0]) && MatchesAt(p, text[1..])
  {
    var q := Pattern([One(a)] + p.items, p.atEnd);
    if MatchesAt(q, text) {
      var e :| PrefixMatches(q, text, e);
      var k := MatchesUncons(One(a), p.items, text[..e]);
      assert text[..e][1..] == text[1..][..e - 1];
      assert PrefixMatches(p, text[1..], e - 1);
    }
    if text != "" && Hits(a, text[0]) && MatchesAt(p, text[1..]) {
      var e :| PrefixMatches(p, text[1..], e);
      assert text[..e + 1][1..] == text[1..][..e];
      MatchesCons(One(a), p.items, text[..e + 1], 1);
      assert PrefixMatches(q, text, e + 1);
    }
  }

  /** The text's first k characters are a run for a starred atom, and the rest matches. */
  ghost predicate StarAt(a: Atom, p: Pattern, text: string, k: int) {
    0 <= k <= |text| && (forall i :: 0 <= i < k ==> Hits(a, text[i])) && MatchesAt(p, text[k..])
  }

  ghost predicate StarThen(a: Atom, p: Pattern, text: string) {
    exists k :: StarAt(a, p, text, k)
  }

  lemma AtStar(a: Atom, p: Pattern, text: string)
    ensures MatchesAt(Pattern([Star(a)] + p.items, p.atEnd), text) <==> StarThen(a, p, text)
  {
    var q := Pattern([Star(a)] + p.items, p.atEnd);
    if MatchesAt(q, text) {
      var e :| PrefixMatches(q, text, e);
      var k := MatchesUncons(Star(a), p.items, text[..e]);
      assert text[..e][k..] == text[k..][..e - k];
      assert PrefixMatches(p, text[k..], e - k);
      forall i | 0 <= i < k
        ensures Hits(a, text[i])
      {
        assert text[..e][..k][i] == text[i];
      }
      assert StarAt(a, p, text, k);
    }
    if k :| StarAt(a, p, text, k) {
      var e :| PrefixMatches(p, text[k..], e);
      assert text[..k + e][k..] == text[k..][..e];
      MatchesCons(Star(a), p.items, text[..k + e], k);
      assert PrefixMatches(q, text, k + e);
    }
  }

  // ----- the matcher

  /** match returns 1 exactly when the pattern's meaning holds of the text. */
  method Match(re: string, text: string) returns (b: bool)
    ensures b <==> Meaning(re, text)
  {
    if re != "" && re[0] == '^' {
      b := MatchHere(re[1..], text);
      return;
    }
    var t := 0;
    while true
      invariant 0 <= t <= |text|
      invariant forall i :: 0 <= i < t ==> !MatchesAt(Parse(re), text[i..])
      decreases |text| - t
    {
      b := MatchHere(re, text[t..]);
      if b {
        return true;
      }
      if t == |text| {
        return false;
      }
      t := t + 1;
    }
  }

  /** matchhere: the pattern matches at the beginning of the text. */
  method MatchHere(re: string, text: string) returns (b: bool)
    ensures b <==> MatchesAt(Parse(re), text)
    decreases |re|, 0
  {
    if re == "" {
      AtEmpty(false, text);
      return true;
    }
    if |re| >= 2 && re[1] == '*' {
      AtStar(AtomOf(re[0]), Parse(re[2..]), text);
      assert Parse(re) == Pattern([Star(AtomOf(re[0]))] + Parse(re[2..]).items, Parse(re[2..]).atEnd);
      b := MatchStar(re[0], re[2..], text);
      return;
    }
    if re[0] == '$' && |re| == 1 {
      AtEmpty(true, text);
      return text == "";
    }
    assert re != "$";
    AtOne(AtomOf(re[0]), Parse(re[1..]), text);
    if text != "" && (re[0] == '.' || re[0] == text[0]) {
      b := MatchHere(re[1..], text[1..]);
      return;
    }
    return false;
  }

  /** matchstar: c* followed by the pattern matches at the beginning of the text. */
  method MatchStar(c: char, re: string, text: string) returns (b: bool)
    ensures b <==> StarThen(AtomOf(c), Parse(re), text)
    decreases |re|, 1
  {
    var t := 0;
    while true
      invariant 0 <= t <= |text|
      invariant forall i :: 0 <= i < t ==> Hits(AtomOf(c), text[i])
      invariant forall k :: 0 <= k < t ==> !MatchesAt(Parse(re), text[k..])
      decreases |text| - t
    {
      b := MatchHere(re, text[t..]);
      if b {
        assert StarAt(AtomOf(c), Parse(re), text, t);
        return true;
      }
      if t == |text| {
        return false;
      }
      t := t + 1;
      if !(text[t - 1] == c || c == '.') {
        assert !Hits(AtomOf(c), text[t - 1]);
        return false;
      }
    }
  }
}
