/** The pattern matcher of grep.c against the language its patterns denote.  Strings exclude their NUL. */
module Grep {

  /** One character of the text, or any number of them; '.' stands for every character. */
  datatype Item = One(c: char) | Star(c: char)

  predicate Fits(c: char, x: char) {
    c == '.' || c == x
  }

  /** A pattern after '^' has been taken off: its items, and whether it ends in the anchor '$'. */
  function Items(re: string): seq<Item> {
    if re == "" || re == "$" then []
    else if |re| >= 2 && re[1] == '*' then [Star(re[0])] + Items(re[2..])
    else [One(re[0])] + Items(re[1..])
  }

  predicate Anchored(re: string) {
    if re == "" then false
    else if |re| >= 2 && re[1] == '*' then Anchored(re[2..])
    else re == "$" || Anchored(re[1..])
  }

  predicate AllFit(c: char, w: string) {
    forall i :: 0 <= i < |w| ==> Fits(c, w[i])
  }

  /** The language of a sequence of items. */
  ghost predicate In(items: seq<Item>, w: string) {
    if items == [] then w == ""
    else match items[0]
      case One(c) => w != "" && Fits(c, w[0]) && In(items[1..], w[1..])
      case Star(c) => exists k :: 0 <= k <= |w| && AllFit(c, w[..k]) && In(items[1..], w[k..])
  }

  /** text[..j] is in the language, and is all of text if the pattern is anchored. */
  ghost predicate Accepts(re: string, text: string, j: int) {
    0 <= j <= |text| && In(Items(re), text[..j]) && (Anchored(re) ==> j == |text|)
  }

  /** Some prefix of text is accepted. */
  ghost predicate Here(re: string, text: string) {
    exists j :: Accepts(re, text, j)
  }

  lemma HereEmpty(text: string)
    ensures Here("", text)
  {
    assert Accepts("", text, 0);
  }

  lemma HereEnd(text: string)
    ensures Here("$", text) <==> text == ""
  {
    if text == "" {
      assert Accepts("$", text, 0);
    }
  }

  lemma HereOne(re: string, text: string)
    requires re != "" && re != "$" && !(|re| >= 2 && re[1] == '*')
    ensures Here(re, text) <==> text != "" && Fits(re[0], text[0]) && Here(re[1..], text[1..])
  {
    assert Items(re)[1..] == Items(re[1..]);
    if Here(re, text) {
      var j :| Accepts(re, text, j);
      assert text[..j][1..] == text[1..][..j - 1];
      assert Accepts(re[1..], text[1..], j - 1);
    }
    if text != "" && Fits(re[0], text[0]) && Here(re[1..], text[1..]) {
      var j :| Accepts(re[1..], text[1..], j);
      assert text[..j + 1][1..] == text[1..][..j];
      assert Accepts(re, text, j + 1);
    }
  }

  /** c* eats the first k characters. */
  ghost predicate Eats(c: char, re: string, text: string, k: int) {
    0 <= k <= |text| && AllFit(c, text[..k]) && Here(re, text[k..])
  }

  lemma HereStar(re: string, text: string)
    requires |re| >= 2 && re[1] == '*'
    ensures Here(re, text) <==> exists k :: Eats(re[0], re[2..], text, k)
  {
    var c, rest := re[0], re[2..];
    assert Items(re)[1..] == Items(rest);
    if Here(re, text) {
      var j :| Accepts(re, text, j);
      var w := text[..j];
      var k :| 0 <= k <= |w| && AllFit(c, w[..k]) && In(Items(rest), w[k..]);
      assert w[..k] == text[..k] && w[k..] == text[k..][..j - k];
      assert Accepts(rest, text[k..], j - k);
      assert Eats(c, rest, text, k);
    }
    if exists k :: Eats(c, rest, text, k) {
      var k :| Eats(c, rest, text, k);
      var j :| Accepts(rest, text[k..], j);
      var w := text[..k + j];
      assert w[..k] == text[..k] && w[k..] == text[k..][..j];
      assert Accepts(re, text, k + j);
    }
  }

  /** Search for re at the beginning of text. */
  method Matchhere(re: string, text: string) returns (r: bool)
    ensures r <==> Here(re, text)
    decreases |re|, 0
  {
    if re == "" {
      HereEmpty(text);
      return true;
    }
    if |re| >= 2 && re[1] == '*' {
      HereStar(re, text);
      r := Matchstar(re[0], re[2..], text);
      return;
    }
    if re == "$" {
      HereEnd(text);
      return text == "";
    }
    HereOne(re, text);
    if text != "" && (re[0] == '.' || re[0] == text[0]) {
      r := Matchhere(re[1..], text[1..]);
      return;
    }
    return false;
  }

  /** Search for c* followed by re at the beginning of text. */
  method Matchstar(c: char, re: string, text: string) returns (r: bool)
    ensures r <==> exists k :: Eats(c, re, text, k)
    decreases |re|, 1
  {
    var i := 0;
    while true
      invariant 0 <= i <= |text| && AllFit(c, text[..i]) && forall k :: 0 <= k < i ==> !Here(re, text[k..])
      decreases |text| - i
    {
      r := Matchhere(re, text[i..]);
      if r {
        assert Eats(c, re, text, i);
        return;
      }
      if i == |text| || !(text[i] == c || c == '.') {
        forall k ensures !Eats(c, re, text, k) {
          if i < k <= |text| {
            assert text[..k][i] == text[i];
          }
        }
        return;
      }
      i := i + 1;
    }
  }

  /** Some substring of text is in the language of re, '^' and '$' tying it to the ends. */
  ghost predicate Found(re: string, text: string, i: int, j: int) {
    var body := if re != "" && re[0] == '^' then re[1..] else re;
    && 0 <= i <= j <= |text| && In(Items(body), text[i..j])
    && (body != re ==> i == 0) && (Anchored(body) ==> j == |text|)
  }

  /** match holds exactly when some substring of text is in the language of the pattern. */
  method Match(re: string, text: string) returns (r: bool)
    ensures r <==> exists i, j :: Found(re, text, i, j)
  {
    if re != "" && re[0] == '^' {
      r := Matchhere(re[1..], text);
      FoundFrom(re, re[1..], text, 0);
      return;
    }
    var i := 0;
    while true
      invariant 0 <= i <= |text| && forall k :: 0 <= k < i ==> !Here(re, text[k..])
      decreases |text| - i
    {
      r := Matchhere(re, text[i..]);
      FoundFrom(re, re, text, i);
      if r {
        return;
      }
      if i == |text| {
        forall k, j ensures !Found(re, text, k, j) {
          if 0 <= k <= |text| {
            FoundFrom(re, re, text, k);
          }
        }
        return;
      }
      i := i + 1;
    }
  }

  /** A substring starting at i is found exactly when a prefix of text[i..] is accepted. */
  lemma FoundFrom(re: string, body: string, text: string, i: nat)
    requires body == (if re != "" && re[0] == '^' then re[1..] else re) && i <= |text| && (body != re ==> i == 0)
    ensures Here(body, text[i..]) <==> exists j :: Found(re, text, i, j)
  {
    if Here(body, text[i..]) {
      var j :| Accepts(body, text[i..], j);
      assert text[i..][..j] == text[i..i + j];
      assert Found(re, text, i, i + j);
    }
    if exists j :: Found(re, text, i, j) {
      var j :| Found(re, text, i, j);
      assert text[i..][..j - i] == text[i..j];
      assert Accepts(body, text[i..], j - i);
    }
  }
}
