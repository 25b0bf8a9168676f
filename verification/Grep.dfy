/**
 The matcher of grep.c against a declarative meaning of its patterns.

 A pattern is read as a sequence of tokens: c or . for one character, c* or .* for any number
 of them, and a final $ for the end of the text. It matches at the start of a text when some
 prefix can be cut into one part per token. Strings carry their length instead of a closing
 NUL.
 */
module Grep {

  datatype Token = One(c: char) | Star(c: char) | End

  /** c matches itself, and . every character. */
  predicate Fits(c: char, x: char) {
    c == '.' || c == x
  }

  /** How a pattern reads: a * binds the character before it, whatever that is, and $ is
      special only as the very last character. */
  function Tokens(re: string): seq<Token>
    decreases |re|
  {
    if re == [] then []
    else if |re| >= 2 && re[1] == '*' then [Star(re[0])] + Tokens(re[2..])
    else if re == "$" then [End]
    else [One(re[0])] + Tokens(re[1..])
  }

  /** The words a token stands for. */
  ghost predicate TokenWord(t: Token, w: string) {
    match t
    case One(c) => |w| == 1 && Fits(c, w[0])
    case Star(c) => forall i :: 0 <= i < |w| ==> Fits(c, w[i])
    case End => w == []
  }

  function Concat(parts: seq<string>): string {
    if parts == [] then [] else parts[0] + Concat(parts[1..])
  }

  /** parts cuts w into one word for each token. */
  ghost predicate Cuts(ts: seq<Token>, parts: seq<string>, w: string) {
    && |parts| == |ts| && Concat(parts) == w
    && forall i :: 0 <= i < |ts| ==> TokenWord(ts[i], parts[i])
  }

  ghost predicate Word(ts: seq<Token>, w: string) {
    exists parts: seq<string> :: Cuts(ts, parts, w)
  }

  /** The meaning of a pattern at the start of a text; with a final $ the whole text is used. */
  ghost predicate Here(re: string, text: string) {
    exists k :: 0 <= k <= |text| && Word(Tokens(re), text[..k]) && (End in Tokens(re) ==> k == |text|)
  }

  /** ... and anywhere in it, unless the pattern starts with ^. */
  ghost predicate Anywhere(re: string, text: string) {
    if re != [] && re[0] == '^' then Here(re[1..], text)
    else exists i :: 0 <= i <= |text| && Here(re, text[i..])
  }

  // ---- cutting off the first token ------------------------------------------------------

  lemma WordNil(w: string)
    ensures Word([], w) <==> w == []
  {
    assert w == [] ==> Cuts([], [], w);
  }

  lemma WordCons(t: Token, ts: seq<Token>, w: string)
    ensures Word([t] + ts, w) <==> exists i :: 0 <= i <= |w| && TokenWord(t, w[..i]) && Word(ts, w[i..])
  {
    if Word([t] + ts, w) {
      var parts :| Cuts([t] + ts, parts, w);
      var i := |parts[0]|;
      assert w[..i] == parts[0] && w[i..] == Concat(parts[1..]);
      assert ([t] + ts)[0] == t && forall j :: 0 <= j < |ts| ==> ts[j] == ([t] + ts)[j + 1];
      assert Cuts(ts, parts[1..], w[i..]);
    }
    if i :| 0 <= i <= |w| && TokenWord(t, w[..i]) && Word(ts, w[i..]) {
      var parts :| Cuts(ts, parts, w[i..]);
      var all := [w[..i]] + parts;
      assert all[1..] == parts && w[..i] + w[i..] == w;
      assert Cuts([t] + ts, all, w);
    }
  }

  lemma HereNil(text: string)
    ensures Here([], text)
  {
    WordNil(text[..0]);
  }

  lemma HereEnd(text: string)
    ensures Here("$", text) <==> text == []
  {
    forall w: string
      ensures Word([End], w) <==> w == []
    {
      WordCons(End, [], w);
      assert [End] + [] == [End];
      forall i | 0 <= i <= |w|
        ensures Word([], w[i..]) <==> i == |w|
      {
        WordNil(w[i..]);
      }
      assert w[..|w|] == w;
    }
    assert Tokens("$") == [End];
    assert text[..|text|] == text;
  }

  /** The first token takes i characters of text and the rest of the pattern matches behind. */
  ghost predicate Taking(t: Token, rest: string, text: string, i: nat)
    requires i <= |text|
  {
    TokenWord(t, text[..i]) && Here(rest, text[i..])
  }

  lemma HereSplits(re: string, rest: string, t: Token, text: string) returns (i: nat)
    requires Tokens(re) == [t] + Tokens(rest) && t != End && Here(re, text)
    ensures i <= |text| && Taking(t, rest, text, i)
  {
    hide Word, Tokens;
    var k :| 0 <= k <= |text| && Word(Tokens(re), text[..k]) && (End in Tokens(re) ==> k == |text|);
    WordCons(t, Tokens(rest), text[..k]);
    i :| 0 <= i <= k && TokenWord(t, text[..k][..i]) && Word(Tokens(rest), text[..k][i..]);
    assert text[..k][..i] == text[..i] && text[..k][i..] == text[i..][..k - i];
    assert Word(Tokens(rest), text[i..][..k - i]);
  }

  lemma HereJoins(re: string, rest: string, t: Token, text: string, i: nat)
    requires Tokens(re) == [t] + Tokens(rest) && t != End && i <= |text| && Taking(t, rest, text, i)
    ensures Here(re, text)
  {
    hide Word, Tokens;
    var j :| 0 <= j <= |text[i..]| && Word(Tokens(rest), text[i..][..j]) && (End in Tokens(rest) ==> j == |text[i..]|);
    var w := text[..i + j];
    assert w[..i] == text[..i] && w[i..] == text[i..][..j];
    WordCons(t, Tokens(rest), w);
  }

  lemma HereStep(re: string, rest: string, t: Token, text: string)
    requires Tokens(re) == [t] + Tokens(rest) && t != End
    ensures Here(re, text) <==> exists i :: 0 <= i <= |text| && Taking(t, rest, text, i)
  {
    if Here(re, text) {
      var i := HereSplits(re, rest, t, text);
    }
    if i :| 0 <= i <= |text| && Taking(t, rest, text, i) {
      HereJoins(re, rest, t, text, i);
    }
  }

  // ---- the matcher --------------------------------------------------------------------------

  /** matchhere: search for re at the beginning of text. */
  method MatchHere(re: string, text: string) returns (found: bool)
    ensures found <==> Here(re, text)
    decreases |re|, 0
  {
    if re == [] {
      HereNil(text);
      return true;
    }
    if |re| >= 2 && re[1] == '*' {
      HereStep(re, re[2..], Star(re[0]), text);
      found := MatchStar(re[0], re[2..], text);
      return;
    }
    if re[0] == '$' && |re| == 1 {
      HereEnd(text);
      return text == [];
    }
    assert re != "$";
    HereStep(re, re[1..], One(re[0]), text);
    if text != [] && (re[0] == '.' || re[0] == text[0]) {
      OneTakesOne(re[0], re[1..], text);
      found := MatchHere(re[1..], text[1..]);
      return;
    }
    found := false;
  }

  lemma OneTakesOne(c: char, rest: string, text: string)
    requires text != [] && Fits(c, text[0])
    ensures (exists i :: 0 <= i <= |text| && Taking(One(c), rest, text, i)) <==> Here(rest, text[1..])
  {
    assert Here(rest, text[1..]) ==> Taking(One(c), rest, text, 1);
  }

  /** A character that no * follows takes one of the text. */
  lemma PlainStep(re: string, text: string)
    requires re != "" && re != "$" && (|re| >= 2 ==> re[1] != '*')
    ensures Here(re, text) <==> text != "" && (re[0] == '.' || re[0] == text[0]) && Here(re[1..], text[1..])
  {
    HereStep(re, re[1..], One(re[0]), text);
    hide Here, Tokens;
    if i :| 0 <= i <= |text| && Taking(One(re[0]), re[1..], text, i) {
      assert i == 1 && text[..1][0] == text[0];
    }
    if text != "" && (re[0] == '.' || re[0] == text[0]) {
      OneTakesOne(re[0], re[1..], text);
    }
  }

  lemma StarMore(c: char, rest: string, text: string, i: nat)
    requires text != "" && i < |text|
    ensures Taking(Star(c), rest, text, i + 1) <==> Fits(c, text[0]) && Taking(Star(c), rest, text[1..], i)
  {
    hide Here;
    assert text[i + 1..] == text[1..][i..];
    var v, w := text[..i + 1], text[1..][..i];
    assert v == [text[0]] + w;
    assert forall j :: 0 <= j < |w| ==> w[j] == v[j + 1];
    assert forall j :: 0 < j < |v| ==> v[j] == w[j - 1];
  }

  /** A starred one takes none, or one and then perhaps more. */
  lemma StarStep(re: string, text: string)
    requires |re| >= 2 && re[1] == '*'
    ensures Here(re, text) <==>
            Here(re[2..], text) || (text != "" && (re[0] == '.' || re[0] == text[0]) && Here(re, text[1..]))
  {
    var c, rest := re[0], re[2..];
    HereStep(re, rest, Star(c), text);
    assert text[0..] == text;
    assert Taking(Star(c), rest, text, 0) <==> Here(rest, text);
    if text != "" {
      HereStep(re, rest, Star(c), text[1..]);
      hide Here, Tokens, Taking;
      if i :| 0 < i <= |text| && Taking(Star(c), rest, text, i) {
        StarMore(c, rest, text, i - 1);
      }
      if i: nat :| i <= |text[1..]| && Taking(Star(c), rest, text[1..], i) {
        StarMore(c, rest, text, i);
      }
    }
  }

  /** matchstar: search for c*re at the beginning of text. */
  method MatchStar(c: char, re: string, text: string) returns (found: bool)
    ensures found <==> exists i :: 0 <= i <= |text| && Taking(Star(c), re, text, i)
    decreases |re|, 1
  {
    var i := 0;
    while true
      invariant 0 <= i <= |text| && TokenWord(Star(c), text[..i])
      invariant forall j :: 0 <= j < i ==> !Here(re, text[j..])
      decreases |text| - i
    {
      found := MatchHere(re, text[i..]);
      if found {
        assert Taking(Star(c), re, text, i);
        return true;
      }
      if !(i < |text| && (text[i] == c || c == '.')) {
        break;
      }
      i := i + 1;
    }
    forall j | i < j <= |text|
      ensures !TokenWord(Star(c), text[..j])
    {
      assert text[..j][i] == text[i];
    }
    found := false;
  }

  /** match: search for re anywhere in text. */
  method Match(re: string, text: string) returns (found: bool)
    ensures found <==> Anywhere(re, text)
  {
    if re != [] && re[0] == '^' {
      found := MatchHere(re[1..], text);
      return;
    }
    var i := 0;
    while true
      invariant 0 <= i <= |text| && forall j :: 0 <= j < i ==> !Here(re, text[j..])
      decreases |text| - i
    {
      found := MatchHere(re, text[i..]);
      if found {
        return true;
      }
      if i == |text| {
        break;
      }
      i := i + 1;
    }
    found := false;
  }

  /** A pattern without $ that matches a text keeps matching when the text goes on. */
  lemma LongerText(re: string, text: string, more: string)
    requires End !in Tokens(re) && Here(re, text)
    ensures Here(re, text + more)
  {
    var k :| 0 <= k <= |text| && Word(Tokens(re), text[..k]);
    assert (text + more)[..k] == text[..k];
  }
}
