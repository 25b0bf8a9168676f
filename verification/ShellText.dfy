/**
 Command lines as they are typed: words and redirections in any mix, pipes, lists and background
 commands, parentheses where one likes, and blanks anywhere between the tokens. The grammar is that
 of the text; parsecmd accepts exactly its lines and builds what they mean.
 */
module ShellText {
  import opened ShellGrammar
  import opened ShellRoundTrip
  import Shell

  // ---- tokens and how a line spells them ----------------------------------------------------------

  /** A word, or a symbol; the symbol '+' is written >>. */
  datatype Tok = W(w: string) | S(c: char)

  predicate GoodTok(t: Tok) {
    match t
    case W(w) => GoodWord(w)
    case S(c) => c in "<|>&;()+"
  }

  function Spelling(t: Tok): string {
    match t
    case W(w) => w
    case S(c) => if c == '+' then ">>" else [c]
  }

  /** What may follow: a word is written whole, and > is not the first half of >>. */
  predicate Stops(s: Line, j: nat, t: Tok) {
    j >= |s| || match t
                case W(_) => !WordChar(s[j])
                case S(c) => c == '>' ==> s[j] != '>'
  }

  predicate Blanks(s: Line, i: nat, j: nat) {
    i <= j <= |s| && forall k :: i <= k < j ==> Blank(s[k])
  }

  /** Token t stands at j. */
  predicate TokAt(s: Line, j: nat, t: Tok) {
    At(s, j, Spelling(t)) && Stops(s, j + |Spelling(t)|, t)
  }

  /** From i on the line consists of these tokens, with any blanks before, between and behind them. */
  ghost predicate Spelled(s: Line, i: nat, toks: seq<Tok>)
    decreases |toks|
  {
    if toks == [] then Blanks(s, i, |s|)
    else exists j: nat {:trigger TokAt(s, j, toks[0])} ::
           Blanks(s, i, j) && TokAt(s, j, toks[0]) && Spelled(s, j + |Spelling(toks[0])|, toks[1..])
  }

  function Kind(t: Tok): char {
    match t case W(_) => 'a' case S(c) => c
  }

  lemma FirstOf(t: Tok)
    requires GoodTok(t)
    ensures Spelling(t) != ""
    ensures var c := Spelling(t)[0];
            && !Blank(c) && (t.W? ==> WordChar(c) && c != NUL)
            && (t.S? ==> Symbol(c) && c == if t.c == '+' then '>' else t.c)
  {
    if t.W? { assert t.w[0] in t.w; }
  }

  lemma SkipTo(s: Line, i: nat, j: nat)
    requires Blanks(s, i, j) && (j == |s| || !Blank(s[j]))
    ensures Skip(s, i) == j
  {
  }

  lemma TokenHere(s: Line, i: nat, j: nat, t: Tok)
    requires i <= j <= |s| && Blanks(s, i, j) && GoodTok(t) && TokAt(s, j, t)
    ensures j < |s| && s[j] == Spelling(t)[0] && Skip(s, i) == j
    ensures var e := j + |Spelling(t)|;
            && e <= |s| && GetToken(s, i) == Token(Kind(t), j, e, Skip(s, e)) && Slice(s, Word(j, e)) == Spelling(t)
  {
    FirstOf(t);
    AtChar(s, j, Spelling(t), 0);
    SkipTo(s, i, j);
    match t
    case W(w) => WordEndAt(s, j, w);
    case S(c) => if c == '+' { AtChar(s, j, ">>", 1); }
  }

  predicate GoodToks(toks: seq<Tok>) {
    forall t <- toks :: GoodTok(t)
  }

  lemma SpelledSkips(s: Line, i: nat, toks: seq<Tok>)
    requires i <= |s| && Spelled(s, i, toks) && GoodToks(toks)
    ensures Spelled(s, Skip(s, i), toks)
  {
    if toks == [] {
      SkipTo(s, i, |s|);
    } else {
      hide At, Stops, GoodTok;
      assert toks[0] in toks;
      var j: nat :| Blanks(s, i, j) && TokAt(s, j, toks[0]) && Spelled(s, j + |Spelling(toks[0])|, toks[1..]);
      TokenHere(s, i, j, toks[0]);
      assert Blanks(s, j, j);
    }
  }

  /** gettoken reads the first token, wherever in the blanks before it it starts. */
  lemma TokenRead(s: Line, i: nat, toks: seq<Tok>)
    requires i <= |s| && toks != [] && GoodToks(toks) && Spelled(s, i, toks)
    ensures GoodTok(toks[0]) && GoodToks(toks[1..]) && Spelling(toks[0]) != ""
    ensures var t := GetToken(s, i);
            && t.kind == Kind(toks[0]) && Slice(s, Word(t.q, t.eq)) == Spelling(toks[0])
            && t.next <= |s| && Spelled(s, t.next, toks[1..])
    ensures Skip(s, i) < |s| && s[Skip(s, i)] == Spelling(toks[0])[0]
  {
    hide At, Stops, Blanks, GoodTok, GetToken, Skip, Slice;
    assert toks[0] in toks && forall t :: t in toks[1..] ==> t in toks;
    var j: nat :| Blanks(s, i, j) && TokAt(s, j, toks[0]) && Spelled(s, j + |Spelling(toks[0])|, toks[1..]);
    BlanksRange(s, i, j);
    FirstOf(toks[0]);
    TokenHere(s, i, j, toks[0]);
    SpelledSkips(s, j + |Spelling(toks[0])|, toks[1..]);
  }

  lemma BlanksRange(s: Line, i: nat, j: nat)
    requires Blanks(s, i, j)
    ensures i <= j <= |s|
  {
  }

  /** At the end there is nothing but blanks. */
  lemma EndRead(s: Line, i: nat)
    requires i <= |s| && Spelled(s, i, [])
    ensures Skip(s, i) == |s| && GetToken(s, i) == Token(NUL, |s|, |s|, |s|)
  {
    SkipTo(s, i, |s|);
  }

  /** peek looks at the first character of the next token. */
  lemma PeekRead(s: Line, i: nat, toks: seq<Tok>, set': string)
    requires i <= |s| && GoodToks(toks) && Spelled(s, i, toks)
    ensures Peek(s, i, set') <==> toks != [] && Spelling(toks[0]) != "" && Spelling(toks[0])[0] in set'
  {
    hide Spelled;
    if toks == [] { EndRead(s, i); } else { TokenRead(s, i, toks); }
  }

  // ---- the grammar of the text ----------------------------------------------------------------------

  datatype Red = Red(way: Way, file: string)

  /** An argument and the redirections behind it. */
  datatype Argument = Argument(w: string, reds: seq<Red>)

  /** A simple command begins with any redirections; or a line in parentheses, with redirections. */
  datatype Stage = Simple(reds: seq<Red>, args: seq<Argument>) | Paren(line: Typed, reds: seq<Red>)

  datatype Pipes = One(stage: Stage) | Bar(stage: Stage, rest: Pipes)

  /** Pipes with so many & behind them, and what follows a ; . */
  datatype Typed = Last(pipes: Pipes, backs: nat) | Semi(pipes: Pipes, backs: nat, rest: Typed)

  function Sign(w: Way): Tok {
    match w case In => S('<') case Out => S('>') case Append => S('+')
  }

  function RedToks(reds: seq<Red>): seq<Tok> {
    if reds == [] then [] else [Sign(reds[0].way), W(reds[0].file)] + RedToks(reds[1..])
  }

  function ArgToks(args: seq<Argument>): seq<Tok> {
    if args == [] then [] else [W(args[0].w)] + RedToks(args[0].reds) + ArgToks(args[1..])
  }

  function StageToks(g: Stage): seq<Tok>
    decreases g, 0
  {
    match g
    case Simple(reds, args) => RedToks(reds) + ArgToks(args)
    case Paren(l, reds) => [S('(')] + LineToks(l) + [S(')')] + RedToks(reds)
  }

  function PipeToks(p: Pipes): seq<Tok>
    decreases p, 1
  {
    match p
    case One(g) => StageToks(g)
    case Bar(g, q) => StageToks(g) + [S('|')] + PipeToks(q)
  }

  function BackToks(n: nat): seq<Tok> {
    if n == 0 then [] else [S('&')] + BackToks(n - 1)
  }

  function LineToks(l: Typed): seq<Tok>
    decreases l, 2
  {
    match l
    case Last(p, n) => PipeToks(p) + BackToks(n)
    case Semi(p, n, m) => PipeToks(p) + BackToks(n) + [S(';')] + LineToks(m)
  }

  predicate GoodReds(reds: seq<Red>) {
    forall r <- reds :: GoodWord(r.file)
  }

  predicate GoodArgs(args: seq<Argument>) {
    forall a <- args :: GoodWord(a.w) && GoodReds(a.reds)
  }

  /** Words are words, and there are at most nine of them in a command. */
  predicate GoodStage(g: Stage)
    decreases g, 0
  {
    match g
    case Simple(reds, args) => GoodReds(reds) && |args| < MAXARGS && GoodArgs(args)
    case Paren(l, reds) => GoodLine(l) && GoodReds(reds)
  }

  predicate GoodPipes(p: Pipes)
    decreases p, 1
  {
    match p case One(g) => GoodStage(g) case Bar(g, q) => GoodStage(g) && GoodPipes(q)
  }

  predicate GoodLine(l: Typed)
    decreases l, 2
  {
    match l case Last(p, _) => GoodPipes(p) case Semi(p, _, m) => GoodPipes(p) && GoodLine(m)
  }

  // ---- what it means --------------------------------------------------------------------------------

  /** A command with redirections: the last one is outermost. */
  function Redirected(t: Tree, reds: seq<Red>): Tree {
    if reds == [] then t else
    TRedir(Redirected(t, reds[..|reds| - 1]), reds[|reds| - 1].way, reds[|reds| - 1].file)
  }

  function ArgWords(args: seq<Argument>): (ws: seq<string>)
    ensures |ws| == |args| && forall k :: 0 <= k < |ws| ==> ws[k] == args[k].w
  {
    seq(|args|, k requires 0 <= k < |args| => args[k].w)
  }

  /** All redirections of a simple command, in the order in which they stand. */
  function AllReds(reds: seq<Red>, args: seq<Argument>): seq<Red>
    decreases |args|
  {
    if args == [] then reds else AllReds(reds + args[0].reds, args[1..])
  }

  function StageTree(g: Stage): Tree
    decreases g, 0
  {
    match g
    case Simple(reds, args) => Redirected(TExec(ArgWords(args)), AllReds(reds, args))
    case Paren(l, reds) => Redirected(LineTree(l), reds)
  }

  function PipeTree(p: Pipes): Tree
    decreases p, 1
  {
    match p case One(g) => StageTree(g) case Bar(g, q) => TPipe(StageTree(g), PipeTree(q))
  }

  function InBack(t: Tree, n: nat): Tree
    decreases n
  {
    if n == 0 then t else InBack(TBack(t), n - 1)
  }

  function LineTree(l: Typed): Tree
    decreases l, 2
  {
    match l
    case Last(p, n) => InBack(PipeTree(p), n)
    case Semi(p, n, m) => TList(InBack(PipeTree(p), n), LineTree(m))
  }

  // ---- the tokens of good text are good ---------------------------------------------------------------

  lemma {:induction false} RedToksGood(reds: seq<Red>)
    requires GoodReds(reds)
    ensures GoodToks(RedToks(reds))
  {
    if reds != [] {
      assert reds[0] in reds && forall r :: r in reds[1..] ==> r in reds;
      RedToksGood(reds[1..]);
    }
  }

  lemma {:induction false} ArgToksGood(args: seq<Argument>)
    requires GoodArgs(args)
    ensures GoodToks(ArgToks(args))
  {
    if args != [] {
      assert args[0] in args && forall a :: a in args[1..] ==> a in args;
      RedToksGood(args[0].reds);
      ArgToksGood(args[1..]);
    }
  }

  lemma {:induction false} StageToksGood(g: Stage)
    requires GoodStage(g)
    ensures GoodToks(StageToks(g))
    decreases g, 0
  {
    RedToksGood(g.reds);
    match g
    case Simple(_, args) => ArgToksGood(args);
    case Paren(l, _) => LineToksGood(l);
  }

  lemma {:induction false} PipeToksGood(p: Pipes)
    requires GoodPipes(p)
    ensures GoodToks(PipeToks(p))
    decreases p, 1
  {
    StageToksGood(p.stage);
    if p.Bar? { PipeToksGood(p.rest); }
  }

  lemma {:induction false} BackToksGood(n: nat)
    ensures GoodToks(BackToks(n))
  {
    if n > 0 { BackToksGood(n - 1); }
  }

  lemma {:induction false} LineToksGood(l: Typed)
    requires GoodLine(l)
    ensures GoodToks(LineToks(l))
    decreases l, 2
  {
    PipeToksGood(l.pipes);
    BackToksGood(l.backs);
    if l.Semi? { LineToksGood(l.rest); }
  }

  // ---- what is typed is parsed ------------------------------------------------------------------------

  function View(s: string, rs: seq<Redirection>): (r: seq<Red>)
    ensures |r| == |rs|
  {
    seq(|rs|, k requires 0 <= k < |rs| => Red(rs[k].way, Slice(s, rs[k].file)))
  }

  lemma {:induction false} ReadWrap(s: Line, c: Cmd, rs: seq<Redirection>)
    ensures Read(s, Wrap(c, rs)) == Redirected(Read(s, c), View(s, rs))
    decreases |rs|
  {
    if rs != [] {
      assert View(s, rs)[..|rs| - 1] == View(s, rs[..|rs| - 1]);
      ReadWrap(s, c, rs[..|rs| - 1]);
    }
  }

  /** What follows begins with none of these characters, or is nothing. */
  predicate Not(toks: seq<Tok>, set': string) {
    toks != [] && Spelling(toks[0]) != "" ==> Spelling(toks[0])[0] !in set'
  }

  /** What follows is nothing, or one of these symbols. */
  predicate Only(toks: seq<Tok>, set': string) {
    toks == [] || (toks[0].S? && toks[0].c in set')
  }

  lemma GoodParts(a: seq<Tok>, b: seq<Tok>)
    ensures GoodToks(a + b) <==> GoodToks(a) && GoodToks(b)
  {
    hide GoodTok;
    assert forall t :: t in a + b <==> t in a || t in b;
  }

  lemma SignFirst(w: Way)
    ensures GoodTok(Sign(w)) && Spelling(Sign(w)) != "" && Spelling(Sign(w))[0] in "<>" && WayOf(Kind(Sign(w))) == w
    ensures Kind(Sign(w)) != 'a'
  {
  }

  /** One redirection and more. */
  lemma RedStep(s: Line, i: nat, rs0: seq<Redirection>, r: Red, toks: seq<Tok>) returns (w: Redirection, j: nat)
    requires i <= |s| && GoodWord(r.file) && GoodToks(toks) && Spelled(s, i, [Sign(r.way), W(r.file)] + toks)
    ensures i < j <= |s| && Spelled(s, j, toks) && w.way == r.way && Slice(s, w.file) == r.file
    ensures Redirs(s, i, rs0) == Redirs(s, j, rs0 + [w])
  {
    hide Spelled, GoodTok, GoodWord, Peek, Skip, Slice, WayOf;
    var all := [Sign(r.way), W(r.file)] + toks;
    SignFirst(r.way);
    assert GoodTok(W(r.file)) by { WordGood(r.file); }
    assert forall t :: t in all ==> t == Sign(r.way) || t == W(r.file) || t in toks;
    PeekRead(s, i, all, "<>");
    TokenRead(s, i, all);
    var tok := GetToken(s, i);
    assert all[1..] == [W(r.file)] + toks;
    TokenRead(s, tok.next, all[1..]);
    assert all[1..][1..] == toks;
    var f := GetToken(s, tok.next);
    w, j := To(WayOf(tok.kind), Word(f.q, f.eq)), f.next;
  }

  lemma WordGood(w: string)
    requires GoodWord(w)
    ensures GoodTok(W(w)) && Spelling(W(w)) == w && w != "" && w[0] !in "<|>&;()"
  {
    assert w[0] in w;
  }

  lemma NoMoreRedirs(s: Line, i: nat, rs: seq<Redirection>, rest: seq<Tok>)
    requires i <= |s| && GoodToks(rest) && Spelled(s, i, rest) && Not(rest, "<>")
    ensures Redirs(s, i, rs) == Ok(rs, Skip(s, i)) && i <= Skip(s, i) <= |s| && Spelled(s, Skip(s, i), rest)
  {
    PeekRead(s, i, rest, "<>");
    SpelledSkips(s, i, rest);
    hide Spelled, GoodTok, Peek, Skip;
  }

  lemma {:induction false} RedirsRead(s: Line, i: nat, rs0: seq<Redirection>, reds: seq<Red>, rest: seq<Tok>)
    requires i <= |s| && GoodReds(reds) && GoodToks(rest) && Spelled(s, i, RedToks(reds) + rest) && Not(rest, "<>")
    ensures var r := Redirs(s, i, rs0);
            r.Ok? && i <= r.at <= |s| && Spelled(s, r.at, rest) && View(s, r.value) == View(s, rs0) + reds
    decreases |reds|
  {
    hide Spelled, GoodToks, Slice, View, GoodReds, Redirs, Not, GoodWord;
    if reds == [] {
      assert RedToks(reds) + rest == rest;
      NoMoreRedirs(s, i, rs0, rest);
      assert View(s, rs0) + reds == View(s, rs0);
    } else {
      GoodRedsParts(reds);
      var toks := RedToks(reds[1..]) + rest;
      RedToksGood(reds[1..]);
      GoodParts(RedToks(reds[1..]), rest);
      assert RedToks(reds) + rest == [Sign(reds[0].way), W(reds[0].file)] + toks;
      var w, j := RedStep(s, i, rs0, reds[0], toks);
      RedirsRead(s, j, rs0 + [w], reds[1..], rest);
      ViewMore(s, rs0, w);
      assert reds[0] == Red(w.way, Slice(s, w.file));
      assert View(s, rs0) + [reds[0]] + reds[1..] == View(s, rs0) + reds;
    }
  }

  lemma GoodRedsParts(reds: seq<Red>)
    requires reds != [] && GoodReds(reds)
    ensures GoodWord(reds[0].file) && GoodReds(reds[1..])
  {
    assert reds[0] in reds && forall r :: r in reds[1..] ==> r in reds;
  }

  lemma ViewMore(s: string, rs: seq<Redirection>, w: Redirection)
    ensures View(s, rs + [w]) == View(s, rs) + [Red(w.way, Slice(s, w.file))]
  {
  }

  /** One argument of a command, with the redirections behind it. */
  lemma ArgStep(s: Line, i: nat, argv: seq<Word>, rs: seq<Redirection>, a: Argument, toks: seq<Tok>)
    returns (w: Word, rs': seq<Redirection>, j: nat)
    requires i <= |s| && GoodWord(a.w) && GoodReds(a.reds) && GoodToks(toks) && Not(toks, "<>") && |argv| + 1 < MAXARGS
    requires Spelled(s, i, [W(a.w)] + RedToks(a.reds) + toks)
    ensures i < j <= |s| && Spelled(s, j, toks) && Slice(s, w) == a.w && View(s, rs') == View(s, rs) + a.reds
    ensures Args(s, i, argv, rs) == Args(s, j, argv + [w], rs')
  {
    hide Spelled, GoodTok, GoodWord, Peek, Skip, Slice, Redirs;
    WordGood(a.w);
    RedToksGood(a.reds);
    GoodParts(RedToks(a.reds), toks);
    var all := [W(a.w)] + (RedToks(a.reds) + toks);
    assert [W(a.w)] + RedToks(a.reds) + toks == all;
    GoodParts([W(a.w)], RedToks(a.reds) + toks);
    PeekRead(s, i, all, "|)&;");
    TokenRead(s, i, all);
    assert all[1..] == RedToks(a.reds) + toks;
    var tok := GetToken(s, i);
    RedirsRead(s, tok.next, rs, a.reds, toks);
    var r := Redirs(s, tok.next, rs);
    w, rs', j := Word(tok.q, tok.eq), r.value, r.at;
  }

  lemma GoodArgsParts(args: seq<Argument>)
    requires args != [] && GoodArgs(args)
    ensures GoodWord(args[0].w) && GoodReds(args[0].reds) && GoodArgs(args[1..])
  {
    assert args[0] in args && forall a :: a in args[1..] ==> a in args;
  }

  lemma ArgWordsMore(a: Argument, args: seq<Argument>)
    ensures ArgWords([a] + args) == [a.w] + ArgWords(args)
  {
  }

  lemma NoArgs(s: Line, argv: seq<Word>, rs: seq<Redirection>, rest: seq<Tok>)
    ensures ArgToks([]) + rest == rest && Slices(s, argv) + ArgWords([]) == Slices(s, argv)
    ensures AllReds(View(s, rs), []) == View(s, rs)
  {
    assert ArgWords([]) == [];
  }

  lemma NoMoreArgs(s: Line, i: nat, argv: seq<Word>, rs: seq<Redirection>, rest: seq<Tok>)
    requires i <= |s| && GoodToks(rest) && Only(rest, "|)&;") && Spelled(s, i, rest)
    ensures Args(s, i, argv, rs) == Ok(Wrap(Exec(argv), rs), Skip(s, i)) && i <= Skip(s, i) <= |s| && Spelled(s, Skip(s, i), rest)
  {
    hide Spelled, GoodToks, Redirs, Wrap, Peek, Skip;
    PeekRead(s, i, rest, "|)&;");
    SpelledSkips(s, i, rest);
    if rest == [] { EndRead(s, i); }
  }

  /** The tokens of the arguments from the second on. */
  lemma MoreArgToks(args: seq<Argument>, rest: seq<Tok>)
    requires args != [] && GoodArgs(args) && GoodToks(rest) && Only(rest, "|)&;")
    ensures var toks := ArgToks(args[1..]) + rest;
            && GoodToks(toks) && Not(toks, "<>")
            && ArgToks(args) + rest == [W(args[0].w)] + RedToks(args[0].reds) + toks
  {
    GoodArgsParts(args);
    hide GoodToks, GoodReds, GoodWord, Only, Not, RedToks;
    ArgToksGood(args[1..]);
    GoodParts(ArgToks(args[1..]), rest);
    ArgToksFirst(args[1..], rest);
  }

  lemma {:induction false} ArgsRead(s: Line, i: nat, argv: seq<Word>, rs: seq<Redirection>, args: seq<Argument>, rest: seq<Tok>)
    returns (argv': seq<Word>, rs': seq<Redirection>, j: nat)
    requires i <= |s| && GoodArgs(args) && |argv| + |args| < MAXARGS
    requires GoodToks(rest) && Only(rest, "|)&;") && Spelled(s, i, ArgToks(args) + rest)
    ensures Args(s, i, argv, rs) == Ok(Wrap(Exec(argv'), rs'), j) && i <= j <= |s| && Spelled(s, j, rest)
    ensures Slices(s, argv') == Slices(s, argv) + ArgWords(args) && View(s, rs') == AllReds(View(s, rs), args)
    decreases |args|
  {
    hide Spelled, GoodWord, GoodToks, Slice, Redirs, Args, View, Slices, GoodArgs, GoodReds, Only, Not, Wrap, Skip, ArgWords, ArgToks;
    if args == [] {
      NoArgs(s, argv, rs, rest);
      NoMoreArgs(s, i, argv, rs, rest);
      argv', rs', j := argv, rs, Skip(s, i);
    } else {
      var toks := ArgToks(args[1..]) + rest;
      GoodArgsParts(args);
      MoreArgToks(args, rest);
      var w, rs1, k := ArgStep(s, i, argv, rs, args[0], toks);
      argv', rs', j := ArgsRead(s, k, argv + [w], rs1, args[1..], rest);
      SlicesMore(s, argv, w);
      ArgWordsMore(args[0], args[1..]);
      assert args == [args[0]] + args[1..];
      Regroup(Slices(s, argv), [args[0].w], ArgWords(args[1..]));
    }
  }

  lemma ArgToksFirst(args: seq<Argument>, rest: seq<Tok>)
    requires GoodArgs(args) && Only(rest, "|)&;")
    ensures Not(ArgToks(args) + rest, "<>") && Not(ArgToks(args) + rest, "(")
  {
    if args != [] {
      assert args[0] in args;
      WordGood(args[0].w);
      assert (ArgToks(args) + rest)[0] == W(args[0].w);
    } else {
      assert ArgToks(args) + rest == rest;
    }
  }

  lemma {:induction false} RedToksFirst(reds: seq<Red>, rest: seq<Tok>, set': string)
    requires GoodReds(reds) && Not(rest, set') && '<' !in set' && '>' !in set'
    ensures Not(RedToks(reds) + rest, set')
  {
    if reds != [] {
      SignFirst(reds[0].way);
      assert (RedToks(reds) + rest)[0] == Sign(reds[0].way);
      assert Spelling(Sign(reds[0].way))[0] == '<' || Spelling(Sign(reds[0].way))[0] == '>';
    } else {
      assert RedToks(reds) + rest == rest;
    }
  }

  /** parse gives a command that means t, and what is left are these tokens. */
  ghost predicate Means(s: Line, i: nat, r: Parsed<Cmd>, t: Tree, rest: seq<Tok>) {
    r.Ok? && i <= r.at <= |s| && Read(s, r.value) == t && Spelled(s, r.at, rest)
  }

  /** The tokens of a simple command. */
  lemma SimpleToks(reds: seq<Red>, args: seq<Argument>, rest: seq<Tok>)
    requires GoodReds(reds) && GoodArgs(args) && GoodToks(rest) && Only(rest, "|)&;")
    ensures var toks := ArgToks(args) + rest;
            && RedToks(reds) + ArgToks(args) + rest == RedToks(reds) + toks
            && GoodToks(toks) && GoodToks(RedToks(reds) + toks)
            && Not(toks, "<>") && Not(RedToks(reds) + toks, "(")
  {
    var toks := ArgToks(args) + rest;
    hide GoodToks, GoodReds, GoodArgs, Only, Not, RedToks, ArgToks;
    RedToksGood(reds);
    ArgToksGood(args);
    GoodParts(ArgToks(args), rest);
    GoodParts(RedToks(reds), toks);
    ArgToksFirst(args, rest);
    RedToksFirst(reds, toks, "(");
  }

  lemma SimpleRead(s: Line, i: nat, reds: seq<Red>, args: seq<Argument>, rest: seq<Tok>)
    requires i <= |s| && GoodStage(Simple(reds, args)) && GoodToks(rest) && Only(rest, "|)&;")
    requires Spelled(s, i, RedToks(reds) + ArgToks(args) + rest)
    ensures Means(s, i, ParseExec(s, i), StageTree(Simple(reds, args)), rest)
  {
    hide Spelled, GoodWord, GoodToks, Redirs, Args, Peek, Skip, GoodReds, GoodArgs, RedToks, ArgToks, Only, View, ArgWords, Slices, AllReds, Redirected, Wrap, Not;
    var toks := ArgToks(args) + rest;
    SimpleToks(reds, args, rest);
    NotPeeked(s, i, RedToks(reds) + toks, "(");
    SpelledSkips(s, i, RedToks(reds) + toks);
    var k := Skip(s, i);
    RedirsRead(s, k, [], reds, toks);
    var r := Redirs(s, k, []);
    ViewNone(s);
    assert [] + reds == reds;
    var argv, rs, j := ArgsRead(s, r.at, [], r.value, args, rest);
    SlicesNone(s, args);
    ReadWrap(s, Exec(argv), rs);
  }

  lemma NotPeeked(s: Line, i: nat, toks: seq<Tok>, set': string)
    requires i <= |s| && GoodToks(toks) && Spelled(s, i, toks) && Not(toks, set')
    ensures !Peek(s, i, set')
  {
    hide Spelled, GoodToks, Peek;
    PeekRead(s, i, toks, set');
  }

  lemma SlicesNone(s: string, args: seq<Argument>)
    ensures Slices(s, []) + ArgWords(args) == ArgWords(args)
  {
    assert Slices(s, []) == [];
  }

  lemma {:induction false} StageRead(s: Line, i: nat, g: Stage, rest: seq<Tok>)
    requires i <= |s| && GoodStage(g) && GoodToks(rest) && Only(rest, "|)&;") && Spelled(s, i, StageToks(g) + rest)
    ensures Means(s, i, ParseExec(s, i), StageTree(g), rest)
    decreases g, 0
  {
    match g
    case Simple(reds, args) => SimpleRead(s, i, reds, args, rest);
    case Paren(l, reds) => ParenRead(s, i, l, reds, rest);
  }

  /** The tokens behind a parenthesis are good. */
  lemma ParenToks(l: Typed, reds: seq<Red>, rest: seq<Tok>)
    requires GoodLine(l) && GoodReds(reds) && GoodToks(rest)
    ensures var after := RedToks(reds) + rest;
            var inner := LineToks(l) + ([S(')')] + after);
            && StageToks(Paren(l, reds)) + rest == [S('(')] + inner
            && GoodToks([S(')')] + after) && GoodToks([S('(')] + inner)
  {
    var after := RedToks(reds) + rest;
    var inner := LineToks(l) + ([S(')')] + after);
    SymbolGood('(');
    SymbolGood(')');
    RedToksGood(reds);
    LineToksGood(l);
    hide GoodToks, GoodReds, GoodTok, LineToks, RedToks;
    GoodParts(RedToks(reds), rest);
    GoodParts([S(')')], after);
    GoodParts(LineToks(l), [S(')')] + after);
    GoodParts([S('(')], inner);
  }

  lemma {:induction false} ParenRead(s: Line, i: nat, l: Typed, reds: seq<Red>, rest: seq<Tok>)
    requires i <= |s| && GoodLine(l) && GoodReds(reds) && GoodToks(rest) && Only(rest, "|)&;")
    requires Spelled(s, i, StageToks(Paren(l, reds)) + rest)
    ensures Means(s, i, ParseExec(s, i), StageTree(Paren(l, reds)), rest)
    decreases l, 3
  {
    OnlyNot(rest, "|)&;", "<>");
    hide Spelled, GoodReds, Redirs, ParseLine, ParseExec, GoodToks, LineToks, RedToks, StageToks, GetToken, Peek, Read, View, GoodLine, Not;
    var after := RedToks(reds) + rest;
    var inner := LineToks(l) + ([S(')')] + after);
    ParenToks(l, reds, rest);
    SymbolRead(s, i, '(', inner);
    var k := GetToken(s, i).next;
    LineRead(s, k, l, [S(')')] + after);
    var r := ParseLine(s, k);
    SymbolRead(s, r.at, ')', after);
    RedirsRead(s, GetToken(s, r.at).next, [], reds, rest);
    BlockReads(s, i, r.value, r.at, reds, rest);
  }

  lemma OnlyNot(rest: seq<Tok>, a: string, b: string)
    requires Only(rest, a) && '+' !in a && forall c :: c in a ==> c !in b
    ensures Not(rest, b)
  {
  }

  lemma SymbolGood(c: char)
    requires c in "<|>&;()+"
    ensures GoodToks([S(c)])
  {
  }

  /** A symbol of the structure: peek sees it, gettoken passes it. */
  lemma SymbolRead(s: Line, i: nat, c: char, toks: seq<Tok>)
    requires i <= |s| && c in "|&;()" && GoodToks([S(c)] + toks) && Spelled(s, i, [S(c)] + toks)
    ensures Peek(s, i, [c]) && i < GetToken(s, i).next <= |s| && Spelled(s, GetToken(s, i).next, toks)
  {
    hide Spelled, GoodTok, GetToken, Slice;
    assert ([S(c)] + toks)[1..] == toks;
    PeekRead(s, i, [S(c)] + toks, [c]);
    TokenRead(s, i, [S(c)] + toks);
    TokenMoves(s, i);
  }

  lemma TokenMoves(s: Line, i: nat)
    requires i <= |s| && GetToken(s, i).kind != NUL
    ensures i < GetToken(s, i).next
  {
  }

  lemma BlockReads(s: Line, i: nat, c: Cmd, e: nat, reds: seq<Red>, rest: seq<Tok>)
    requires i <= |s| && e <= |s| && Peek(s, i, "(") && ParseLine(s, GetToken(s, i).next) == Ok(c, e) && Peek(s, e, ")")
    requires var r := Redirs(s, GetToken(s, e).next, []);
             r.Ok? && i <= r.at <= |s| && Spelled(s, r.at, rest) && View(s, r.value) == View(s, []) + reds
    ensures Means(s, i, ParseExec(s, i), Redirected(Read(s, c), reds), rest)
  {
    hide Spelled, ParseLine, Redirs, GetToken, Peek, View;
    var r := Redirs(s, GetToken(s, e).next, []);
    ReadWrap(s, c, r.value);
    assert View(s, []) == [];
    assert [] + reds == reds;
  }

  lemma {:induction false} PipesRead(s: Line, i: nat, p: Pipes, rest: seq<Tok>)
    requires i <= |s| && GoodPipes(p) && GoodToks(rest) && Only(rest, ")&;") && Spelled(s, i, PipeToks(p) + rest)
    ensures Means(s, i, ParsePipe(s, i), PipeTree(p), rest)
    decreases p, 1
  {
    hide Spelled, GoodWord, GoodTok, ParseExec, GoodToks, Read, Peek, GetToken;
    match p
    case One(g) =>
      StageRead(s, i, g, rest);
      var r := ParseExec(s, i);
      PeekRead(s, r.at, rest, "|");
      OnlyNot(rest, ")&;", "|");
      SpelledSkips(s, r.at, rest);
      OneRead(s, i, r.value, r.at);
    case Bar(g, q) =>
      var more := PipeToks(q) + rest;
      assert PipeToks(p) + rest == StageToks(g) + ([S('|')] + more);
      SymbolGood('|');
      PipeToksGood(q);
      GoodParts(PipeToks(q), rest);
      GoodParts([S('|')], more);
      StageRead(s, i, g, [S('|')] + more);
      var r := ParseExec(s, i);
      SymbolRead(s, r.at, '|', more);
      PipesRead(s, GetToken(s, r.at).next, q, rest);
      BarRead(s, i, r.value, r.at);
      ReadTwo(s, r.value, ParsePipe(s, GetToken(s, r.at).next).value);
  }

  lemma ReadTwo(s: Line, c: Cmd, d: Cmd)
    ensures Read(s, Pipe(c, d)) == TPipe(Read(s, c), Read(s, d)) && Read(s, List(c, d)) == TList(Read(s, c), Read(s, d))
  {
  }

  lemma OneRead(s: Line, i: nat, c: Cmd, j: nat)
    requires i <= j <= |s| && ParseExec(s, i) == Ok(c, j) && !Peek(s, j, "|")
    ensures ParsePipe(s, i) == Ok(c, Skip(s, j)) && j <= Skip(s, j) <= |s|
  {
    hide ParseExec, Peek;
  }

  lemma BarRead(s: Line, i: nat, c: Cmd, j: nat)
    requires i <= j <= |s| && ParseExec(s, i) == Ok(c, j) && Peek(s, j, "|") && ParsePipe(s, GetToken(s, j).next).Ok?
    ensures var r := ParsePipe(s, GetToken(s, j).next); ParsePipe(s, i) == Ok(Pipe(c, r.value), r.at)
  {
    hide ParseExec, Peek, GetToken;
  }

  lemma {:induction false} BacksRead(s: Line, i: nat, c: Cmd, n: nat, rest: seq<Tok>)
    requires i <= |s| && GoodToks(rest) && Only(rest, ");") && Spelled(s, i, BackToks(n) + rest)
    ensures var (d, k) := Backs(s, c, i);
            i <= k <= |s| && Spelled(s, k, rest) && Read(s, d) == InBack(Read(s, c), n)
    decreases n
  {
    hide Spelled, GoodTok, GoodToks, Peek, GetToken;
    if n == 0 {
      assert BackToks(n) + rest == rest;
      PeekRead(s, i, rest, "&");
      SpelledSkips(s, i, rest);
    } else {
      var more := BackToks(n - 1) + rest;
      assert BackToks(n) + rest == [S('&')] + more;
      BackToksGood(n - 1);
      SymbolGood('&');
      GoodParts(BackToks(n - 1), rest);
      GoodParts([S('&')], more);
      SymbolRead(s, i, '&', more);
      BacksRead(s, GetToken(s, i).next, Back(c), n - 1, rest);
    }
  }

  /** Pipes with their &, and then these tokens. */
  lemma BackedRead(s: Line, i: nat, p: Pipes, n: nat, more: seq<Tok>)
    requires i <= |s| && GoodPipes(p) && GoodToks(more) && Only(more, ");") && Spelled(s, i, PipeToks(p) + (BackToks(n) + more))
    ensures var r := ParsePipe(s, i);
            && r.Ok? && i <= r.at <= |s|
            && var (d, k) := Backs(s, r.value, r.at);
               r.at <= k <= |s| && Spelled(s, k, more) && Read(s, d) == InBack(PipeTree(p), n)
    decreases p, 2
  {
    hide Spelled, GoodPipes, ParsePipe, GoodToks, Read, Backs, PipeToks, BackToks, InBack, PipeTree, Only;
    BackToksGood(n);
    GoodParts(BackToks(n), more);
    BacksFirst(n, more);
    PipesRead(s, i, p, BackToks(n) + more);
    var r := ParsePipe(s, i);
    BacksRead(s, r.at, r.value, n, more);
  }

  lemma {:induction false} LineRead(s: Line, i: nat, l: Typed, rest: seq<Tok>)
    requires i <= |s| && GoodLine(l) && GoodToks(rest) && Only(rest, ")") && Spelled(s, i, LineToks(l) + rest)
    ensures Means(s, i, ParseLine(s, i), LineTree(l), rest)
    decreases l, 2
  {
    match l
    case Last(p, n) => LastLineRead(s, i, p, n, rest);
    case Semi(p, n, m) => SemiLineRead(s, i, p, n, m, rest);
  }

  lemma LastLineRead(s: Line, i: nat, p: Pipes, n: nat, rest: seq<Tok>)
    requires i <= |s| && GoodPipes(p) && GoodToks(rest) && Only(rest, ")") && Spelled(s, i, PipeToks(p) + BackToks(n) + rest)
    ensures Means(s, i, ParseLine(s, i), InBack(PipeTree(p), n), rest)
    decreases p, 3
  {
    OnlyNot(rest, ")", ";");
    hide Spelled, GoodPipes, ParsePipe, ParseLine, GoodToks, Read, Peek, GetToken, Backs, PipeToks, BackToks, InBack, PipeTree, Skip, Only, Not;
    Regroup(PipeToks(p), BackToks(n), rest);
    BackedRead(s, i, p, n, rest);
    var r := ParsePipe(s, i);
    var (d, k) := Backs(s, r.value, r.at);
    NotPeeked(s, k, rest, ";");
    SpelledSkips(s, k, rest);
    LastRead(s, i, r.value, r.at, d, k);
  }

  /** The tokens behind a ; . */
  lemma SemiToks(m: Typed, rest: seq<Tok>)
    requires GoodLine(m) && GoodToks(rest)
    ensures GoodToks([S(';')] + (LineToks(m) + rest)) && Only([S(';')] + (LineToks(m) + rest), ");")
  {
    SymbolGood(';');
    LineToksGood(m);
    GoodParts(LineToks(m), rest);
    GoodParts([S(';')], LineToks(m) + rest);
  }

  lemma SemiLineRead(s: Line, i: nat, p: Pipes, n: nat, m: Typed, rest: seq<Tok>)
    requires i <= |s| && GoodPipes(p) && GoodLine(m) && GoodToks(rest) && Only(rest, ")")
    requires Spelled(s, i, PipeToks(p) + BackToks(n) + [S(';')] + LineToks(m) + rest)
    ensures Means(s, i, ParseLine(s, i), TList(InBack(PipeTree(p), n), LineTree(m)), rest)
    decreases Semi(p, n, m), 1
  {
    hide Spelled, GoodPipes, GoodLine, ParsePipe, ParseLine, GoodToks, Read, Peek, GetToken, Backs, PipeToks, BackToks, LineToks;
    hide InBack, PipeTree, LineTree, Skip, Only;
    var more := [S(';')] + (LineToks(m) + rest);
    assert PipeToks(p) + BackToks(n) + [S(';')] + LineToks(m) + rest == PipeToks(p) + (BackToks(n) + more);
    SemiToks(m, rest);
    BackedRead(s, i, p, n, more);
    var r := ParsePipe(s, i);
    var (d, k) := Backs(s, r.value, r.at);
    SymbolRead(s, k, ';', LineToks(m) + rest);
    LineRead(s, GetToken(s, k).next, m, rest);
    SemiRead(s, i, r.value, r.at, d, k);
    ReadTwo(s, d, ParseLine(s, GetToken(s, k).next).value);
  }

  lemma BacksFirst(n: nat, more: seq<Tok>)
    requires Only(more, ");")
    ensures Only(BackToks(n) + more, ")&;")
  {
    if n == 0 { assert BackToks(n) + more == more; } else { assert (BackToks(n) + more)[0] == S('&'); }
  }

  lemma LastRead(s: Line, i: nat, c: Cmd, j: nat, d: Cmd, k: nat)
    requires i <= j <= |s| && ParsePipe(s, i) == Ok(c, j) && Backs(s, c, j) == (d, k) && k <= |s| && !Peek(s, k, ";")
    ensures ParseLine(s, i) == Ok(d, Skip(s, k)) && k <= Skip(s, k) <= |s|
  {
    hide ParsePipe, Peek, Backs;
  }

  lemma SemiRead(s: Line, i: nat, c: Cmd, j: nat, d: Cmd, k: nat)
    requires i <= j <= |s| && ParsePipe(s, i) == Ok(c, j) && Backs(s, c, j) == (d, k) && k <= |s| && Peek(s, k, ";")
    requires ParseLine(s, GetToken(s, k).next).Ok?
    ensures var r := ParseLine(s, GetToken(s, k).next); ParseLine(s, i) == Ok(List(d, r.value), r.at)
  {
    hide ParsePipe, Peek, Backs, GetToken;
  }

  /** What is typed is what is parsed: every line that spells a text of the grammar, with any blanks,
      is accepted, and the command has all its words and all its redirections in their places. */
  lemma ParseTyped(s: Line, l: Typed)
    requires GoodLine(l) && Spelled(s, 0, LineToks(l))
    ensures var r := ParseCmd(s); r.Ok? && Read(s, r.value) == LineTree(l)
  {
    assert LineToks(l) + [] == LineToks(l);
    LineRead(s, 0, l, []);
    var r := ParseLine(s, 0);
    EndRead(s, r.at);
  }

  // ---- ... and nothing else -----------------------------------------------------------------------------

  /** Whatever the line spells from j on, from i on it spells these tokens and then that. */
  ghost predicate Leads(s: Line, i: nat, toks: seq<Tok>, j: nat) {
    && i <= j <= |s| && GoodToks(toks)
    && forall rest: seq<Tok> {:trigger Spelled(s, j, rest)} :: Spelled(s, j, rest) ==> Spelled(s, i, toks + rest)
  }

  lemma LeadsThen(s: Line, i: nat, a: seq<Tok>, j: nat, b: seq<Tok>, k: nat)
    requires Leads(s, i, a, j) && Leads(s, j, b, k)
    ensures Leads(s, i, a + b, k)
  {
    hide Spelled, GoodTok;
    GoodParts(a, b);
    forall rest: seq<Tok> | Spelled(s, k, rest) ensures Spelled(s, i, a + b + rest) {
      assert a + b + rest == a + (b + rest);
      assert Spelled(s, j, b + rest);
    }
  }

  lemma LeadsOn(s: Line, i: nat)
    requires i <= |s|
    ensures Leads(s, i, [], Skip(s, i))
  {
    forall rest: seq<Tok> | Spelled(s, Skip(s, i), rest) ensures Spelled(s, i, [] + rest) {
      assert [] + rest == rest;
      if rest != [] {
        var j: nat :| Blanks(s, Skip(s, i), j) && TokAt(s, j, rest[0]) && Spelled(s, j + |Spelling(rest[0])|, rest[1..]);
        assert Blanks(s, i, j);
      }
    }
  }

  /** The token that gettoken has read. */
  function TokOf(s: Line, t: Token): Tok {
    if t.kind == 'a' then W(Slice(s, Word(t.q, t.eq))) else S(t.kind)
  }

  lemma TokenSpelled(s: Line, i: nat)
    requires i <= |s| && GetToken(s, i).kind != NUL
    ensures var t := GetToken(s, i);
            && GoodTok(TokOf(s, t)) && Blanks(s, i, t.q) && TokAt(s, t.q, TokOf(s, t))
            && t.eq == t.q + |Spelling(TokOf(s, t))| && t.next == Skip(s, t.eq) && t.eq <= |s|
  {
    var t := GetToken(s, i);
    var q := Skip(s, i);
    if t.kind == 'a' {
      assert forall k :: q <= k < t.eq ==> s[k] in s;
    } else if t.kind == '+' {
      assert s[q..q + 2] == ">>";
    } else {
      assert s[q..q + 1] == [s[q]];
    }
  }

  lemma TokenLeads(s: Line, i: nat)
    requires i <= |s| && GetToken(s, i).kind != NUL
    ensures Leads(s, i, [TokOf(s, GetToken(s, i))], GetToken(s, i).next)
  {
    var t := GetToken(s, i);
    var tok := TokOf(s, t);
    TokenSpelled(s, i);
    LeadsOn(s, t.eq);
    hide GetToken, TokOf, GoodTok, At, Stops, Skip;
    BlanksRange(s, i, t.q);
    forall rest: seq<Tok> | Spelled(s, t.next, rest) ensures Spelled(s, i, [tok] + rest) {
      assert [] + rest == rest;
      assert Spelled(s, t.eq, rest);
      assert ([tok] + rest)[0] == tok && ([tok] + rest)[1..] == rest;
    }
  }

  /** One turn of parseredirs that goes well, or its end. */
  lemma RedirsTurn(s: Line, i: nat, rs0: seq<Redirection>)
    requires i <= |s| && Redirs(s, i, rs0).Ok?
    ensures if Peek(s, i, "<>") then
              var tok := GetToken(s, i);
              var f := GetToken(s, tok.next);
              f.kind == 'a' && Redirs(s, i, rs0) == Redirs(s, f.next, rs0 + [To(WayOf(tok.kind), Word(f.q, f.eq))])
            else Redirs(s, i, rs0) == Ok(rs0, Skip(s, i))
  {
    hide GetToken, Peek, Skip, WayOf;
  }

  lemma {:induction false} RedirsSound(s: Line, i: nat, rs0: seq<Redirection>) returns (reds: seq<Red>)
    requires i <= |s| && Redirs(s, i, rs0).Ok?
    ensures var r := Redirs(s, i, rs0);
            GoodReds(reds) && Leads(s, i, RedToks(reds), r.at) && View(s, r.value) == View(s, rs0) + reds
    decreases |s| - i
  {
    hide Leads, View, Slice, Skip, GoodWord, WayOf, GetToken, Peek, Redirs;
    RedirsTurn(s, i, rs0);
    if Peek(s, i, "<>") {
      var tok := GetToken(s, i);
      var f := GetToken(s, tok.next);
      var w := To(WayOf(tok.kind), Word(f.q, f.eq));
      RedLeads(s, i);
      FileMoves(s, i);
      var rest := RedirsSound(s, f.next, rs0 + [w]);
      var red := Red(w.way, Slice(s, w.file));
      reds := [red] + rest;
      ViewMore(s, rs0, w);
      assert View(s, rs0) + [red] + rest == View(s, rs0) + reds;
      LeadsThen(s, i, [Sign(red.way), W(red.file)], f.next, RedToks(rest), Redirs(s, i, rs0).at);
      assert RedToks(reds) == [Sign(red.way), W(red.file)] + RedToks(rest);
    } else {
      reds := [];
      LeadsOn(s, i);
      assert View(s, rs0) + reds == View(s, rs0);
    }
  }

  lemma FileMoves(s: Line, i: nat)
    requires i <= |s| && Peek(s, i, "<>")
    ensures i < GetToken(s, i).next <= GetToken(s, GetToken(s, i).next).next <= |s|
  {
  }

  lemma RedLeads(s: Line, i: nat)
    requires i <= |s| && Peek(s, i, "<>") && GetToken(s, GetToken(s, i).next).kind == 'a'
    ensures var tok := GetToken(s, i);
            var f := GetToken(s, tok.next);
            && GoodWord(Slice(s, Word(f.q, f.eq)))
            && Leads(s, i, [Sign(WayOf(tok.kind)), W(Slice(s, Word(f.q, f.eq)))], f.next)
  {
    var tok := GetToken(s, i);
    var f := GetToken(s, tok.next);
    assert TokOf(s, tok) == Sign(WayOf(tok.kind));
    TokenLeads(s, i);
    TokenLeads(s, tok.next);
    TokenSpelled(s, tok.next);
    hide Leads, GetToken, Slice, WayOf, Peek;
    LeadsThen(s, i, [TokOf(s, tok)], tok.next, [TokOf(s, f)], f.next);
    assert [TokOf(s, tok)] + [TokOf(s, f)] == [TokOf(s, tok), TokOf(s, f)];
  }

  /** One turn of the loop of parseexec that goes well, or its end. */
  lemma ArgsTurn(s: Line, i: nat, argv: seq<Word>, rs: seq<Redirection>)
    requires i <= |s| && Args(s, i, argv, rs).Ok?
    ensures var tok := GetToken(s, i);
            if Peek(s, i, "|)&;") || tok.kind == NUL then Args(s, i, argv, rs) == Ok(Wrap(Exec(argv), rs), Skip(s, i))
            else
              var r := Redirs(s, tok.next, rs);
              && tok.kind == 'a' && |argv| + 1 < MAXARGS && r.Ok? && i < tok.next <= r.at <= |s|
              && Args(s, i, argv, rs) == Args(s, r.at, argv + [Word(tok.q, tok.eq)], r.value)
  {
    hide GetToken, Peek, Redirs, Skip, Wrap;
    if GetToken(s, i).kind != NUL { TokenMoves(s, i); } else { NulAtEnd(s, i); }
  }

  lemma NulAtEnd(s: Line, i: nat)
    requires i <= |s| && GetToken(s, i).kind == NUL
    ensures GetToken(s, i).next == Skip(s, i)
  {
  }

  /** A word, and the redirections that parseredirs takes behind it. */
  lemma WordLeads(s: Line, i: nat, rs: seq<Redirection>) returns (a: Argument)
    requires i <= |s| && GetToken(s, i).kind == 'a' && Redirs(s, GetToken(s, i).next, rs).Ok?
    ensures var tok := GetToken(s, i);
            var r := Redirs(s, tok.next, rs);
            && a.w == Slice(s, Word(tok.q, tok.eq)) && GoodWord(a.w) && GoodReds(a.reds)
            && Leads(s, i, [W(a.w)] + RedToks(a.reds), r.at) && View(s, r.value) == View(s, rs) + a.reds
  {
    var tok := GetToken(s, i);
    TokenLeads(s, i);
    TokenSpelled(s, i);
    hide Leads, View, Slice, GoodWord, GoodReds, Redirs, GetToken, TokAt, Blanks, RedToks;
    var reds := RedirsSound(s, tok.next, rs);
    a := Argument(Slice(s, Word(tok.q, tok.eq)), reds);
    LeadsThen(s, i, [W(a.w)], tok.next, RedToks(reds), Redirs(s, tok.next, rs).at);
  }

  lemma {:induction false} ArgsSound(s: Line, i: nat, argv: seq<Word>, rs: seq<Redirection>) returns (args: seq<Argument>)
    requires i <= |s| && Args(s, i, argv, rs).Ok? && |argv| < MAXARGS
    ensures var r := Args(s, i, argv, rs);
            && GoodArgs(args) && |argv| + |args| < MAXARGS
            && Leads(s, i, ArgToks(args), r.at)
            && Read(s, r.value) == Redirected(TExec(Slices(s, argv) + ArgWords(args)), AllReds(View(s, rs), args))
    decreases |s| - i
  {
    hide Leads, View, Slice, GoodWord, GoodReds, Redirs, Args, Peek, Skip, GetToken, Wrap, Slices, Redirected;
    ArgsTurn(s, i, argv, rs);
    var tok := GetToken(s, i);
    if Peek(s, i, "|)&;") || tok.kind == NUL {
      args := [];
      LeadsOn(s, i);
      ReadWrap(s, Exec(argv), rs);
      NoArgs(s, argv, rs, []);
    } else {
      var a := WordLeads(s, i, rs);
      var r := Redirs(s, tok.next, rs);
      var w := Word(tok.q, tok.eq);
      var rest := ArgsSound(s, r.at, argv + [w], r.value);
      args := [a] + rest;
      LeadsThen(s, i, [W(a.w)] + RedToks(a.reds), r.at, ArgToks(rest), Args(s, i, argv, rs).at);
      ArgsJoin(s, argv, w, a, rest);
      assert args[1..] == rest;
    }
  }

  lemma ArgsJoin(s: Line, argv: seq<Word>, w: Word, a: Argument, rest: seq<Argument>)
    requires Slice(s, w) == a.w && GoodWord(a.w) && GoodReds(a.reds) && GoodArgs(rest)
    ensures GoodArgs([a] + rest) && ArgToks([a] + rest) == [W(a.w)] + RedToks(a.reds) + ArgToks(rest)
    ensures Slices(s, argv + [w]) + ArgWords(rest) == Slices(s, argv) + ArgWords([a] + rest)
  {
    ArgsFirst(a, rest);
    SlicesMore(s, argv, w);
    ArgWordsMore(a, rest);
    hide Slice, Slices, ArgWords, ArgToks, RedToks, GoodArgs, GoodReds, GoodWord;
    Regroup(Slices(s, argv), [a.w], ArgWords(rest));
  }

  lemma Regroup<T>(a: seq<T>, b: seq<T>, c: seq<T>)
    ensures a + b + c == a + (b + c)
  {
  }

  lemma ArgsFirst(a: Argument, rest: seq<Argument>)
    requires GoodWord(a.w) && GoodReds(a.reds) && GoodArgs(rest)
    ensures GoodArgs([a] + rest) && ArgToks([a] + rest) == [W(a.w)] + RedToks(a.reds) + ArgToks(rest)
  {
    hide GoodReds, GoodWord, RedToks;
    assert ([a] + rest)[1..] == rest;
  }

  lemma {:induction false} StageSound(s: Line, i: nat) returns (g: Stage)
    requires i <= |s| && ParseExec(s, i).Ok?
    ensures GoodStage(g) && Leads(s, i, StageToks(g), ParseExec(s, i).at) && Read(s, ParseExec(s, i).value) == StageTree(g)
    decreases |s| - i, 1
  {
    hide Leads, GetToken, Skip, Redirs, Args, ParseLine, Peek, Slice, GoodWord;
    if Peek(s, i, "(") {
      g := BlockSound(s, i);
    } else {
      var k := Skip(s, i);
      LeadsOn(s, i);
      var reds := RedirsSound(s, k, []);
      var r := Redirs(s, k, []);
      var args := ArgsSound(s, r.at, [], r.value);
      LeadsThen(s, i, [], k, RedToks(reds), r.at);
      LeadsThen(s, i, [] + RedToks(reds), r.at, ArgToks(args), ParseExec(s, i).at);
      assert [] + RedToks(reds) == RedToks(reds);
      assert View(s, []) + reds == reds;
      assert Slices(s, []) + ArgWords(args) == ArgWords(args);
      g := Simple(reds, args);
    }
  }

  /** A symbol that peek has seen. */
  lemma SymbolLeads(s: Line, i: nat, c: char)
    requires i <= |s| && Peek(s, i, [c]) && c in "|&;()"
    ensures Leads(s, i, [S(c)], GetToken(s, i).next) && i < GetToken(s, i).next
  {
    TokenLeads(s, i);
    TokenMoves(s, i);
  }

  lemma {:induction false} BlockSound(s: Line, i: nat) returns (g: Stage)
    requires i <= |s| && ParseBlock(s, i).Ok?
    ensures GoodStage(g) && Leads(s, i, StageToks(g), ParseBlock(s, i).at) && Read(s, ParseBlock(s, i).value) == StageTree(g)
    decreases |s| - i, 0
  {
    hide Leads, GetToken, Skip, Redirs, ParseLine, Peek, Slice, GoodWord, View;
    SymbolLeads(s, i, '(');
    var k := GetToken(s, i).next;
    var l := LineSound(s, k);
    var e := ParseLine(s, k).at;
    SymbolLeads(s, e, ')');
    var m := GetToken(s, e).next;
    var reds := RedirsSound(s, m, []);
    var r := Redirs(s, m, []);
    ReadWrap(s, ParseLine(s, k).value, r.value);
    assert View(s, []) == [] by { ViewNone(s); }
    assert [] + reds == reds;
    LeadsThen(s, i, [S('(')], k, LineToks(l), e);
    LeadsThen(s, i, [S('(')] + LineToks(l), e, [S(')')], m);
    LeadsThen(s, i, [S('(')] + LineToks(l) + [S(')')], m, RedToks(reds), r.at);
    g := Paren(l, reds);
  }

  lemma ViewNone(s: string)
    ensures View(s, []) == []
  {
  }

  lemma {:induction false} PipesSound(s: Line, i: nat) returns (p: Pipes)
    requires i <= |s| && ParsePipe(s, i).Ok?
    ensures GoodPipes(p) && Leads(s, i, PipeToks(p), ParsePipe(s, i).at) && Read(s, ParsePipe(s, i).value) == PipeTree(p)
    decreases |s| - i, 2
  {
    hide Leads, GetToken, Skip, ParseExec, Peek, Slice, GoodWord, StageToks;
    var g := StageSound(s, i);
    var j := ParseExec(s, i).at;
    if Peek(s, j, "|") {
      SymbolLeads(s, j, '|');
      var k := GetToken(s, j).next;
      var q := PipesSound(s, k);
      LeadsThen(s, i, StageToks(g), j, [S('|')], k);
      LeadsThen(s, i, StageToks(g) + [S('|')], k, PipeToks(q), ParsePipe(s, k).at);
      p := Bar(g, q);
    } else {
      LeadsOn(s, j);
      LeadsThen(s, i, StageToks(g), j, [], Skip(s, j));
      assert StageToks(g) + [] == StageToks(g);
      p := One(g);
    }
  }

  lemma {:induction false} BacksSound(s: Line, c: Cmd, i: nat) returns (n: nat)
    requires i <= |s|
    ensures var (d, k) := Backs(s, c, i); Leads(s, i, BackToks(n), k) && Read(s, d) == InBack(Read(s, c), n)
    decreases |s| - i
  {
    hide Leads, GetToken, Skip, Peek;
    if Peek(s, i, "&") {
      SymbolLeads(s, i, '&');
      var j := GetToken(s, i).next;
      var m := BacksSound(s, Back(c), j);
      LeadsThen(s, i, [S('&')], j, BackToks(m), Backs(s, c, i).1);
      n := m + 1;
    } else {
      LeadsOn(s, i);
      n := 0;
    }
  }

  lemma {:induction false} LineSound(s: Line, i: nat) returns (l: Typed)
    requires i <= |s| && ParseLine(s, i).Ok?
    ensures GoodLine(l) && Leads(s, i, LineToks(l), ParseLine(s, i).at) && Read(s, ParseLine(s, i).value) == LineTree(l)
    decreases |s| - i, 3
  {
    hide Leads, GetToken, Skip, ParsePipe, Peek, Slice, GoodWord, PipeToks, GoodPipes, PipeTree, Backs, BackToks, InBack;
    var p := PipesSound(s, i);
    var c, j := ParsePipe(s, i).value, ParsePipe(s, i).at;
    var n := BacksSound(s, c, j);
    var (d, k) := Backs(s, c, j);
    LeadsThen(s, i, PipeToks(p), j, BackToks(n), k);
    if Peek(s, k, ";") {
      SymbolLeads(s, k, ';');
      var o := GetToken(s, k).next;
      var m := LineSound(s, o);
      LeadsThen(s, i, PipeToks(p) + BackToks(n), k, [S(';')], o);
      LeadsThen(s, i, PipeToks(p) + BackToks(n) + [S(';')], o, LineToks(m), ParseLine(s, o).at);
      l := Semi(p, n, m);
    } else {
      LeadsOn(s, k);
      LeadsThen(s, i, PipeToks(p) + BackToks(n), k, [], Skip(s, k));
      assert PipeToks(p) + BackToks(n) + [] == PipeToks(p) + BackToks(n);
      l := Last(p, n);
    }
  }

  /** parsecmd accepts a line if and only if it spells a text of the grammar, and what it builds is the
      meaning of any such text. */
  lemma TypedIff(s: Line)
    ensures ParseCmd(s).Ok? <==> exists l :: GoodLine(l) && Spelled(s, 0, LineToks(l))
    ensures forall l :: GoodLine(l) && Spelled(s, 0, LineToks(l)) ==> Read(s, ParseCmd(s).value) == LineTree(l)
  {
    forall l | GoodLine(l) && Spelled(s, 0, LineToks(l))
      ensures ParseCmd(s).Ok? && Read(s, ParseCmd(s).value) == LineTree(l)
    {
      ParseTyped(s, l);
    }
    if ParseCmd(s).Ok? {
      var l := LineSound(s, 0);
      var j := ParseLine(s, 0).at;
      LeadsOn(s, j);
      assert Spelled(s, |s|, []);
      var none: seq<Tok> := [];
      assert none + none == none && LineToks(l) + none == LineToks(l);
      assert Spelled(s, j, []);
    }
  }

  // ---- what runcmd finds --------------------------------------------------------------------------------

  /** The string that starts at q, if q is in the buffer. */
  function Str(b: seq<char>, q: nat): string {
    if q <= |b| then Shell.CString(b, q) else ""
  }

  /** The command as runcmd sees it: pointers into the buffer, to strings that end with a NUL. */
  function Seen(b: seq<char>, c: Cmd): Tree {
    match c
    case Exec(argv) => TExec(seq(|argv|, k requires 0 <= k < |argv| => Str(b, argv[k].q)))
    case Redir(d, to) => TRedir(Seen(b, d), to.way, Str(b, to.file.q))
    case Pipe(l, r) => TPipe(Seen(b, l), Seen(b, r))
    case List(l, r) => TList(Seen(b, l), Seen(b, r))
    case Back(d) => TBack(Seen(b, d))
  }

  ghost predicate Ended(s: string, b: seq<char>, ws: seq<Word>) {
    forall w <- ws :: Str(b, w.q) == Slice(s, w)
  }

  lemma EndedParts(s: string, b: seq<char>, u: seq<Word>, v: seq<Word>)
    requires Ended(s, b, u + v)
    ensures Ended(s, b, u) && Ended(s, b, v)
  {
    hide Str, Slice;
    assert forall w :: w in u || w in v ==> w in u + v;
  }

  lemma {:induction false} SeenIs(s: string, b: seq<char>, c: Cmd)
    requires Ended(s, b, Shell.Words(c))
    ensures Seen(b, c) == Read(s, c)
  {
    hide Str, Slice;
    match c
    case Exec(argv) => assert forall k :: 0 <= k < |argv| ==> argv[k] in argv;
    case Redir(d, to) =>
      EndedParts(s, b, Shell.Words(d), [to.file]);
      assert to.file in [to.file];
      SeenIs(s, b, d);
    case Pipe(l, r) => EndedParts(s, b, Shell.Words(l), Shell.Words(r)); SeenIs(s, b, l); SeenIs(s, b, r);
    case List(l, r) => EndedParts(s, b, Shell.Words(l), Shell.Words(r)); SeenIs(s, b, l); SeenIs(s, b, r);
    case Back(d) => SeenIs(s, b, d);
  }

  /** From the text to what is run: when parsecmd is done, the strings that the command points to are
      those that were typed, every word and every file in its place. */
  lemma TypedIsSeen(s: Line, l: Typed)
    requires GoodLine(l) && Spelled(s, 0, LineToks(l))
    ensures var r := ParseCmd(s);
            r.Ok? && Seen(Shell.Nulled(s + [NUL], Shell.Words(r.value)), r.value) == LineTree(l)
  {
    ParseTyped(s, l);
    hide ParseLine, Spelled, LineTree, GoodLine;
    var c := ParseCmd(s).value;
    var b := Shell.Nulled(s + [NUL], Shell.Words(c));
    forall w | w in Shell.Words(c) ensures Str(b, w.q) == Slice(s, w) {
      Shell.EachWordIsItsString(s, w);
    }
    SeenIs(s, b, c);
  }

  // ---- a line, letter by letter -----------------------------------------------------------------------------

  const LINE: Line := ['a', ' ', '>', ' ', 'f', ' ', 'b']

  lemma LineTokens()
    ensures Skip(LINE, 0) == 0 && Skip(LINE, 2) == 2 && Skip(LINE, 6) == 6 && Skip(LINE, 7) == 7
    ensures GetToken(LINE, 0) == Token('a', 0, 1, 2) && GetToken(LINE, 2) == Token('>', 2, 3, 4)
    ensures GetToken(LINE, 4) == Token('a', 4, 5, 6) && GetToken(LINE, 6) == Token('a', 6, 7, 7)
    ensures GetToken(LINE, 7) == Token(NUL, 7, 7, 7)
  {
    SkipOne(LINE, 3);
    TokenIs(LINE, 0, 0, 1, 2);
    TokenIs(LINE, 4, 4, 5, 6);
    TokenIs(LINE, 6, 6, 7, 7);
  }

  lemma LineRedirs()
    ensures Redirs(LINE, 0, []) == Ok([], 0) && Redirs(LINE, 2, []) == Ok([To(Out, Word(4, 5))], 6)
    ensures forall rs :: Redirs(LINE, 7, rs) == Ok(rs, 7)
  {
    LineTokens();
    hide GetToken, Skip;
    var to := To(Out, Word(4, 5));
    assert [] + [to] == [to];
    assert Redirs(LINE, 6, [to]) == Ok([to], 6);
  }

  lemma LineArgs()
    ensures Args(LINE, 0, [], []) == Ok(Wrap(Exec([Word(0, 1), Word(6, 7)]), [To(Out, Word(4, 5))]), 7)
  {
    LineTokens();
    LineRedirs();
    hide GetToken, Skip, Redirs, Wrap;
    var w, v, to := Word(0, 1), Word(6, 7), To(Out, Word(4, 5));
    assert [] + [w] == [w] && [w] + [v] == [w, v];
    assert Args(LINE, 7, [w, v], [to]) == Ok(Wrap(Exec([w, v]), [to]), 7);
    assert Args(LINE, 6, [w], [to]) == Args(LINE, 7, [w, v], [to]);
  }

  /** "a > f b" is one command with two words, its output going to f. */
  lemma OutputToFile()
    ensures ParseCmd(['a', ' ', '>', ' ', 'f', ' ', 'b']) == Ok(Redir(Exec([Word(0, 1), Word(6, 7)]), To(Out, Word(4, 5))), 7)
  {
    LineTokens();
    LineRedirs();
    LineArgs();
    hide GetToken, Skip, Redirs, Args;
    var to := To(Out, Word(4, 5));
    assert [to][..0] == [];
    assert ParseExec(LINE, 0) == Args(LINE, 0, [], []);
    assert ParsePipe(LINE, 0) == ParseExec(LINE, 0);
    assert ParseLine(LINE, 0) == ParseExec(LINE, 0);
  }

  /** Blanks, symbols, and how many words there is room for. */
  lemma Characters(c: char)
    ensures Blank(c) <==> c in [' ', '\t', '\r', '\n', '\U{000B}']
    ensures Symbol(c) <==> c in "<|>&;()"
    ensures WordChar(c) <==> !Blank(c) && !Symbol(c)
    ensures MAXARGS == 10
  {
  }

  lemma SkipOne(s: Line, i: nat)
    requires i + 1 < |s| && Blank(s[i]) && !Blank(s[i + 1])
    ensures Skip(s, i) == i + 1
  {
    assert Skip(s, i + 1) == i + 1;
  }

  /** A word from q to e with the next token at n. */
  lemma TokenIs(s: Line, i: nat, q: nat, e: nat, n: nat)
    requires i <= q < e <= n <= |s| && Blanks(s, i, q) && Blanks(s, e, n) && (n < |s| ==> !Blank(s[n]))
    requires (forall k :: q <= k < e ==> WordChar(s[k])) && (e < |s| ==> !WordChar(s[e]))
    ensures GetToken(s, i) == Token('a', q, e, n)
  {
    SkipTo(s, i, q);
    SkipTo(s, e, n);
    assert WordEnd(s, q) == e;
  }
}
