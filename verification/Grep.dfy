/**
 The regular-expression matcher of grep.c: match, matchhere and matchstar.

 A C string is a sequence of characters without NUL; reading at its length gives the terminating NUL. The
 pattern language has literals, `.`, `c*`, a leading `^` and a trailing `$`, and is given a meaning that does
 not mention the matcher: a compiled pattern is a sequence of items, and `Denotes` says which strings the
 items describe. The matcher is proved to find a substring the pattern describes exactly when there is one.
 */
module Grep {

  type CString = s: string | '\0' !in s

  // ------------------------------------------------------------------ the meaning of a pattern

  datatype Item = One(c: char) | Star(c: char)

  /** Whether the pattern character c stands for the text character t. */
  predicate Stands(c: char, t: char) {
    c == '.' || c == t
  }

  ghost predicate AllStand(c: char, s: string) {
    forall i | 0 <= i < |s| :: Stands(c, s[i])
  }

  /** The strings that a sequence of items describes. */
  ghost predicate Denotes(items: seq<Item>, s: string)
    decreases |items|
  {
    if items == [] then s == []
    else match items[0]
      case One(c) => s != [] && Stands(c, s[0]) && Denotes(items[1..], s[1..])
      case Star(c) => exists k :: 0 <= k <= |s| && AllStand(c, s[..k]) && Denotes(items[1..], s[k..])
  }

  /** The items of a pattern without its leading `^`. A `$` is special only as the last character. */
  ghost function Items(re: string): (items: seq<Item>) {
    if re == [] || re == "$" then []
    else if |re| >= 2 && re[1] == '*' then [Star(re[0])] + Items(re[2..])
    else [One(re[0])] + Items(re[1..])
  }

  /** Whether the pattern ends in a `$` that is special. */
  ghost predicate AnchoredAtEnd(re: string) {
    if re == [] then false
    else if re == "$" then true
    else if |re| >= 2 && re[1] == '*' then AnchoredAtEnd(re[2..])
    else AnchoredAtEnd(re[1..])
  }

  /** The text has a prefix that the pattern describes, the whole text if the pattern is anchored at the end. */
  ghost predicate Here(re: string, text: string) {
    exists j :: HereAt(re, text, j)
  }

  ghost predicate HereAt(re: string, text: string, j: int) {
    0 <= j <= |text| && (AnchoredAtEnd(re) ==> j == |text|) && Denotes(Items(re), text[..j])
  }

  /** The text has a substring that the pattern describes, in the place its anchors ask for. */
  ghost predicate Matches(re: string, text: string) {
    if re != [] && re[0] == '^' then Here(re[1..], text)
    else exists i :: 0 <= i <= |text| && Here(re, text[i..])
  }

  // ------------------------------------------------------------------ how the meaning unfolds

  lemma HereEnd(text: string)
    ensures Here("$", text) <==> text == []
  {
    if text == [] {
      assert HereAt("$", text, 0);
    }
  }

  lemma HereOne(re: string, text: string)
    requires re != [] && re != "$" && !(|re| >= 2 && re[1] == '*')
    ensures Here(re, text) <==> text != [] && Stands(re[0], text[0]) && Here(re[1..], text[1..])
  {
    assert Items(re)[1..] == Items(re[1..]);
    if Here(re, text) {
      var j :| HereAt(re, text, j);
      assert text[..j][1..] == text[1..][..j - 1];
      assert HereAt(re[1..], text[1..], j - 1);
    }
    if text != [] && Stands(re[0], text[0]) && Here(re[1..], text[1..]) {
      var j :| HereAt(re[1..], text[1..], j);
      assert text[..j + 1][1..] == text[1..][..j];
      assert HereAt(re, text, j + 1);
    }
  }

  /** k characters of the text may be taken by `c*`, and the rest of the pattern follows them. */
  ghost predicate StarAt(c: char, re: string, text: string, k: int) {
    0 <= k <= |text| && AllStand(c, text[..k]) && Here(re, text[k..])
  }

  lemma HereStar(re: string, text: string)
    requires |re| >= 2 && re[1] == '*'
    ensures Here(re, text) <==> exists k :: StarAt(re[0], re[2..], text, k)
  {
    assert Items(re)[1..] == Items(re[2..]);
    if Here(re, text) {
      var j :| HereAt(re, text, j);
      var s := text[..j];
      var k :| 0 <= k <= |s| && AllStand(re[0], s[..k]) && Denotes(Items(re)[1..], s[k..]);
      assert s[..k] == text[..k] && s[k..] == text[k..][..j - k];
      assert HereAt(re[2..], text[k..], j - k);
      assert StarAt(re[0], re[2..], text, k);
    }
    if k :| StarAt(re[0], re[2..], text, k) {
      var j :| HereAt(re[2..], text[k..], j);
      var s := text[..k + j];
      assert s[..k] == text[..k] && s[k..] == text[k..][..j];
      assert Denotes(Items(re), s);
      assert HereAt(re, text, k + j);
    }
  }

  // ------------------------------------------------------------------ the code

  /** The character at position i, or the terminating NUL. */
  function At(s: string, i: nat): (c: char) {
    if i < |s| then s[i] else '\0'
  }

  method Match(re: CString, text: CString) returns (found: bool)
    ensures found <==> Matches(re, text)
  {
    if At(re, 0) == '^' {
      found := MatchHere(re[1..], text);
      return;
    }
    var i := 0;
    while true
      invariant 0 <= i <= |text|
      invariant forall j | 0 <= j < i :: !Here(re, text[j..])
      decreases |text| - i
    {
      var here := MatchHere(re, text[i..]);
      if here {
        return true;
      }
      if At(text, i) == '\0' {
        break;
      }
      i := i + 1;
    }
    return false;
  }

  method MatchHere(re: CString, text: CString) returns (found: bool)
    ensures found <==> Here(re, text)
    decreases |re|, 0
  {
    if At(re, 0) == '\0' {
      assert HereAt(re, text, 0);
      return true;
    }
    if At(re, 1) == '*' {
      HereStar(re, text);
      found := MatchStar(re[0], re[2..], text);
      return;
    }
    if At(re, 0) == '$' && At(re, 1) == '\0' {
      assert re == "$";
      HereEnd(text);
      return At(text, 0) == '\0';
    }
    assert re != "$";
    HereOne(re, text);
    if At(text, 0) != '\0' && (re[0] == '.' || re[0] == text[0]) {
      found := MatchHere(re[1..], text[1..]);
      return;
    }
    return false;
  }

  method MatchStar(c: char, re: CString, text: CString) returns (found: bool)
    ensures found <==> exists k :: StarAt(c, re, text, k)
    decreases |re|, 1
  {
    var i := 0;
    while true
      invariant 0 <= i <= |text|
      invariant AllStand(c, text[..i])
      invariant forall k | 0 <= k < i :: !Here(re, text[k..])
      decreases |text| - i
    {
      var here := MatchHere(re, text[i..]);
      if here {
        assert StarAt(c, re, text, i);
        return true;
      }
      if At(text, i) == '\0' || !(text[i] == c || c == '.') {
        break;
      }
      i := i + 1;
    }
    forall k
      ensures !StarAt(c, re, text, k)
    {
      if i < k <= |text| {
        assert text[..k][i] == text[i];
      }
    }
    return false;
  }
}
