/** The Kernighan-Pike matcher of grep.c, and the language a pattern stands for. */
module Regex {

  // ---- What a pattern means -------------------------------------------------------------------

  // One character, or any number of one; '.' is any character.
  datatype Item = One(c: char) | Star(c: char)

  datatype Pattern = Pattern(items: seq<Item>, anchored: bool)

  predicate Accepts(c: char, x: char) {
    c == '.' || c == x
  }

  // The pattern without its leading '^'.
  function Parse(re: string): Pattern {
    if re == "" then Pattern([], false)
    else if |re| >= 2 && re[1] == '*' then
      var rest := Parse(re[2..]);
      Pattern([Star(re[0])] + rest.items, rest.anchored)
    else if re == "$" then Pattern([], true)
    else
      var rest := Parse(re[1..]);
      Pattern([One(re[0])] + rest.items, rest.anchored)
  }

  predicate PieceOf(i: Item, s: string) {
    match i
    case One(c) => |s| == 1 && Accepts(c, s[0])
    case Star(c) => forall k :: 0 <= k < |s| ==> Accepts(c, s[k])
  }

  function Concat(pieces: seq<string>): string {
    if pieces == [] then "" else pieces[0] + Concat(pieces[1..])
  }

  ghost predicate Splits(items: seq<Item>, pieces: seq<string>, s: string) {
    |pieces| == |items| && Concat(pieces) == s && forall i :: 0 <= i < |items| ==> PieceOf(items[i], pieces[i])
  }

  /** s is in the language of the items: it is a concatenation of one piece for each. */
  ghost predicate InLanguage(items: seq<Item>, s: string) {
    exists pieces :: Splits(items, pieces, s)
  }

  // Some prefix of text is in the language; all of it when the pattern ends in '$'.
  ghost predicate MatchesPrefix(pat: Pattern, text: string) {
    exists j :: 0 <= j <= |text| && (pat.anchored ==> j == |text|) && InLanguage(pat.items, text[..j])
  }

  /** What match is to decide: with '^' a prefix of the text is in the language, without it
      some substring. */
  ghost predicate Matches(re: string, text: string) {
    if re != "" && re[0] == '^' then MatchesPrefix(Parse(re[1..]), text)
    else exists i :: 0 <= i <= |text| && MatchesPrefix(Parse(re), text[i..])
  }

  // ---- The language, from the left ---------------------------------------------------------------

  lemma LanguageEmpty(s: string)
    ensures InLanguage([], s) <==> s == ""
  {
    if s == "" {
      assert Splits([], [], s);
    }
  }

  lemma LanguageFirst(items: seq<Item>, s: string)
    requires items != []
    ensures InLanguage(items, s) <==> exists k :: 0 <= k <= |s| && PieceOf(items[0], s[..k]) && InLanguage(items[1..], s[k..])
  {
    if InLanguage(items, s) {
      var pieces :| Splits(items, pieces, s);
      var k := |pieces[0]|;
      assert s[..k] == pieces[0] && s[k..] == Concat(pieces[1..]);
      assert Splits(items[1..], pieces[1..], s[k..]);
    }
    if k :| 0 <= k <= |s| && PieceOf(items[0], s[..k]) && InLanguage(items[1..], s[k..]) {
      var rest :| Splits(items[1..], rest, s[k..]);
      var pieces := [s[..k]] + rest;
      assert pieces[1..] == rest && s == s[..k] + s[k..];
      assert Splits(items, pieces, s);
    }
  }

  // ---- MatchesPrefix, by the shape of the pattern -------------------------------------------------

  lemma PrefixEmpty(text: string)
    ensures MatchesPrefix(Pattern([], false), text) && (MatchesPrefix(Pattern([], true), text) <==> text == "")
  {
    LanguageEmpty(text[..0]);
    assert MatchesPrefix(Pattern([], false), text);
    forall j | 0 <= j <= |text| ensures InLanguage([], text[..j]) <==> j == 0 {
      LanguageEmpty(text[..j]);
    }
  }

  lemma PrefixOne(c: char, rest: Pattern, text: string)
    ensures MatchesPrefix(Pattern([One(c)] + rest.items, rest.anchored), text)
            <==> text != "" && Accepts(c, text[0]) && MatchesPrefix(rest, text[1..])
  {
    var pat := Pattern([One(c)] + rest.items, rest.anchored);
    assert pat.items[1..] == rest.items;
    if MatchesPrefix(pat, text) {
      var j :| 0 <= j <= |text| && (pat.anchored ==> j == |text|) && InLanguage(pat.items, text[..j]);
      LanguageFirst(pat.items, text[..j]);
      var k :| 0 <= k <= j && PieceOf(One(c), text[..j][..k]) && InLanguage(rest.items, text[..j][k..]);
      assert text[..j][1..] == text[1..][..j - 1];
    }
    if text != "" && Accepts(c, text[0]) && MatchesPrefix(rest, text[1..]) {
      var j :| 0 <= j <= |text[1..]| && (rest.anchored ==> j == |text[1..]|) && InLanguage(rest.items, text[1..][..j]);
      assert text[..j + 1][1..] == text[1..][..j] && PieceOf(One(c), text[..j + 1][..1]);
      LanguageFirst(pat.items, text[..j + 1]);
    }
  }

  // Where a starred item may stop.
  ghost predicate StarStops(c: char, rest: Pattern, text: string, k: nat) {
    k <= |text| && (forall i :: 0 <= i < k ==> Accepts(c, text[i])) && MatchesPrefix(rest, text[k..])
  }

  lemma PrefixStar(c: char, rest: Pattern, text: string)
    ensures MatchesPrefix(Pattern([Star(c)] + rest.items, rest.anchored), text) <==> exists k: nat :: StarStops(c, rest, text, k)
  {
    if MatchesPrefix(Pattern([Star(c)] + rest.items, rest.anchored), text) {
      StarHasStop(c, rest, text);
    }
    if k: nat :| StarStops(c, rest, text, k) {
      StopMatches(c, rest, text, k);
    }
  }

  lemma StarHasStop(c: char, rest: Pattern, text: string)
    requires MatchesPrefix(Pattern([Star(c)] + rest.items, rest.anchored), text)
    ensures exists k: nat :: StarStops(c, rest, text, k)
  {
    var pat := Pattern([Star(c)] + rest.items, rest.anchored);
    assert pat.items[1..] == rest.items;
    var j :| 0 <= j <= |text| && (pat.anchored ==> j == |text|) && InLanguage(pat.items, text[..j]);
    LanguageFirst(pat.items, text[..j]);
    var k :| 0 <= k <= j && PieceOf(Star(c), text[..j][..k]) && InLanguage(rest.items, text[..j][k..]);
    assert text[..j][k..] == text[k..][..j - k];
    forall i | 0 <= i < k ensures Accepts(c, text[i]) {
      assert Accepts(c, text[..j][..k][i]);
    }
    assert StarStops(c, rest, text, k);
  }

  lemma StopMatches(c: char, rest: Pattern, text: string, k: nat)
    requires StarStops(c, rest, text, k)
    ensures MatchesPrefix(Pattern([Star(c)] + rest.items, rest.anchored), text)
  {
    var pat := Pattern([Star(c)] + rest.items, rest.anchored);
    assert pat.items[1..] == rest.items;
    var j :| 0 <= j <= |text[k..]| && (rest.anchored ==> j == |text[k..]|) && InLanguage(rest.items, text[k..][..j]);
    assert text[..j + k][k..] == text[k..][..j] && PieceOf(Star(c), text[..j + k][..k]);
    LanguageFirst(pat.items, text[..j + k]);
  }

  // ---- The matcher ----------------------------------------------------------------------------------

  /** matchhere: whether re matches at the beginning of text. */
  method MatchHere(re: string, text: string) returns (b: bool)
    ensures b <==> MatchesPrefix(Parse(re), text)
    decreases |re|, 0
  {
    PrefixEmpty(text);
    if re == "" {
      return true;
    }
    if |re| >= 2 && re[1] == '*' {
      b := MatchStar(re[0], re[2..], text);
      PrefixStar(re[0], Parse(re[2..]), text);
      assert Parse(re) == Pattern([Star(re[0])] + Parse(re[2..]).items, Parse(re[2..]).anchored);
      return;
    }
    if re == "$" {
      return text == "";
    }
    PrefixOne(re[0], Parse(re[1..]), text);
    if text != "" && (re[0] == '.' || re[0] == text[0]) {
      b := MatchHere(re[1..], text[1..]);
    } else {
      b := false;
    }
  }

  // matchstar: whether c*re matches at the beginning of text.
  method MatchStar(c: char, re: string, text: string) returns (b: bool)
    ensures b <==> exists k: nat :: StarStops(c, Parse(re), text, k)
    decreases |re|, 1
  {
    var t := 0;
    while true
      invariant t <= |text| && forall i :: 0 <= i < t ==> Accepts(c, text[i])
      invariant forall k :: 0 <= k < t ==> !StarStops(c, Parse(re), text, k)
      decreases |text| - t
    {
      b := MatchHere(re, text[t..]);
      if b {
        assert StarStops(c, Parse(re), text, t);
        return;
      }
      if t == |text| || !(text[t] == c || c == '.') {
        return false;
      }
      t := t + 1;
    }
  }

  /** match: whether the text has what the pattern describes. */
  method Match(re: string, text: string) returns (b: bool)
    ensures b <==> Matches(re, text)
  {
    if re != "" && re[0] == '^' {
      b := MatchHere(re[1..], text);
      return;
    }
    var t := 0;
    while true
      invariant t <= |text| && forall i :: 0 <= i < t ==> !MatchesPrefix(Parse(re), text[i..])
      decreases |text| - t
    {
      b := MatchHere(re, text[t..]);
      if b {
        return;
      }
      if t == |text| {
        return false;
      }
      t := t + 1;
    }
  }
}
