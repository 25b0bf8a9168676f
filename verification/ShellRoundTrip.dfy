/**
 Writing a command with parentheses around every part, and parsing it back.
 */
module ShellRoundTrip {
  import opened ShellGrammar

  /** A command with its words spelled out. */
  datatype Tree =
    | TExec(words: seq<string>)
    | TRedir(cmd: Tree, way: Way, file: string)
    | TPipe(left: Tree, right: Tree)
    | TList(left: Tree, right: Tree)
    | TBack(cmd: Tree)

  predicate GoodWord(w: string) {
    w != "" && forall c <- w :: WordChar(c) && c != NUL
  }

  /** Words free of blanks and symbols, and at most nine of them in a command. */
  predicate GoodTree(t: Tree) {
    match t
    case TExec(ws) => |ws| < MAXARGS && forall w <- ws :: GoodWord(w)
    case TRedir(c, _, f) => GoodTree(c) && GoodWord(f)
    case TPipe(l, r) => GoodTree(l) && GoodTree(r)
    case TList(l, r) => GoodTree(l) && GoodTree(r)
    case TBack(c) => GoodTree(c)
  }

  function ArgsText(ws: seq<string>): string {
    if ws == [] then "" else ws[0] + " " + ArgsText(ws[1..])
  }

  function Arrow(w: Way): string {
    match w case In => "<" case Out => ">" case Append => ">>"
  }

  function Text(t: Tree): string
    decreases t, 0
  {
    match t
    case TExec(ws) => ArgsText(ws)
    case TRedir(c, w, f) => Block(c) + (Arrow(w) + (f + " "))
    case TPipe(l, r) => Block(l) + ("|" + Block(r))
    case TList(l, r) => Block(l) + (";" + Block(r))
    case TBack(c) => Block(c) + "&"
  }

  function Block(t: Tree): string
    decreases t, 1
  {
    "(" + (Text(t) + ")")
  }

  function Slice(s: string, w: Word): string {
    if w.q <= w.eq <= |s| then s[w.q..w.eq] else ""
  }

  function Slices(s: string, ws: seq<Word>): (r: seq<string>)
    ensures |r| == |ws|
  {
    seq(|ws|, k requires 0 <= k < |ws| => Slice(s, ws[k]))
  }

  /** The tree of a parsed command. */
  function Read(s: string, c: Cmd): Tree {
    match c
    case Exec(argv) => TExec(Slices(s, argv))
    case Redir(d, to) => TRedir(Read(s, d), to.way, Slice(s, to.file))
    case Pipe(l, r) => TPipe(Read(s, l), Read(s, r))
    case List(l, r) => TList(Read(s, l), Read(s, r))
    case Back(d) => TBack(Read(s, d))
  }

  /** Text x stands at position i of the line. */
  predicate At(s: string, i: nat, x: string) {
    i + |x| <= |s| && s[i..i + |x|] == x
  }

  lemma AtSplit(s: string, i: nat, a: string, b: string)
    requires At(s, i, a + b)
    ensures At(s, i, a) && At(s, i + |a|, b)
  {
    assert s[i..i + |a|] == (a + b)[..|a|];
    assert s[i + |a|..i + |a| + |b|] == (a + b)[|a|..];
  }

  lemma AtChar(s: string, i: nat, x: string, k: nat)
    requires At(s, i, x) && k < |x|
    ensures i + k < |s| && s[i + k] == x[k]
  {
    assert s[i..i + |x|][k] == x[k];
  }

  /** Where a command in parentheses ends. */
  predicate Ends(s: string, j: nat) {
    j == |s| || (j < |s| && s[j] == ')')
  }

  // ---- words ------------------------------------------------------------------------------------

  lemma {:induction false} WordEndAt(s: Line, i: nat, w: string)
    requires At(s, i, w) && (forall c <- w :: WordChar(c)) && (i + |w| == |s| || !WordChar(s[i + |w|]))
    ensures WordEnd(s, i) == i + |w|
    decreases |w|
  {
    if w != "" {
      AtChar(s, i, w, 0);
      assert w == w[..1] + w[1..];
      AtSplit(s, i, w[..1], w[1..]);
      WordEndAt(s, i + 1, w[1..]);
    }
  }

  /** A word and a space, with something that is not blank behind. */
  lemma WordTokenAt(s: Line, i: nat, w: string)
    requires At(s, i, w + " ") && GoodWord(w) && (i + |w| + 1 == |s| || !Blank(s[i + |w| + 1]))
    ensures GetToken(s, i) == Token('a', i, i + |w|, i + |w| + 1) && Slice(s, Word(i, i + |w|)) == w
  {
    AtSplit(s, i, w, " ");
    AtChar(s, i, w, 0);
    AtChar(s, i + |w|, " ", 0);
    WordEndAt(s, i, w);
    assert Skip(s, i + |w|) == Skip(s, i + |w| + 1) == i + |w| + 1;
  }

  lemma ArgsStart(s: Line, i: nat, ws: seq<string>)
    requires At(s, i, ArgsText(ws)) && (forall w <- ws :: GoodWord(w)) && Ends(s, i + |ArgsText(ws)|)
    ensures i == |s| || !Blank(s[i])
    ensures ws != [] ==> i < |s| && WordChar(s[i])
  {
    if ws != [] {
      assert ws[0] in ws && ArgsText(ws)[0] == ws[0][0] && ws[0][0] in ws[0];
      AtChar(s, i, ArgsText(ws), 0);
    }
  }

  /** One turn of the loop of parseexec, on a word with no redirection behind it. */
  lemma ArgsStep(s: Line, i: nat, w: string, argv: seq<Word>)
    requires At(s, i, w + " ") && GoodWord(w) && |argv| + 1 < MAXARGS
    requires var j := i + |w| + 1; j == |s| || (!Blank(s[j]) && s[j] != '<' && s[j] != '>')
    ensures Args(s, i, argv, []) == Args(s, i + |w| + 1, argv + [Word(i, i + |w|)], [])
    ensures Slice(s, Word(i, i + |w|)) == w
  {
    var j := i + |w| + 1;
    WordTokenAt(s, i, w);
    AtChar(s, i, w + " ", 0);
    assert w[0] in w;
    assert Skip(s, i) == i && !Peek(s, i, "|)&;");
    assert Skip(s, j) == j && !Peek(s, j, "<>");
    assert Redirs(s, j, []) == Ok([], j);
    hide GetToken, Peek, Redirs, Skip;
  }

  /** A command with these words, ending at j. */
  ghost predicate GivesWords(s: Line, r: Parsed<Cmd>, ws: seq<string>, j: nat) {
    r.Ok? && r.at == j && r.value.Exec? && Slices(s, r.value.argv) == ws
  }

  /** The loop of parseexec reads the words one by one. */
  lemma {:induction false} ArgsAt(s: Line, i: nat, ws: seq<string>, argv: seq<Word>)
    requires At(s, i, ArgsText(ws)) && (forall w <- ws :: GoodWord(w)) && Ends(s, i + |ArgsText(ws)|)
    requires |argv| + |ws| < MAXARGS
    ensures GivesWords(s, Args(s, i, argv, []), Slices(s, argv) + ws, i + |ArgsText(ws)|)
    decreases |ws|
  {
    hide Args, ArgsText, GoodWord, GivesWords, Slices, At;
    ArgsTextIs(ws);
    ArgsStart(s, i, ws);
    if ws == [] {
      ArgsEnd(s, i, argv);
      assert Slices(s, argv) + ws == Slices(s, argv);
    } else {
      var w, rest := ws[0], ws[1..];
      assert w in ws && forall x :: x in rest ==> x in ws;
      var j := i + |w| + 1;
      AtSplit(s, i, w + " ", ArgsText(rest));
      ArgsTextIs(rest);
      ArgsRange(s, j, rest);
      ArgsStart(s, j, rest);
      ArgsStep(s, i, w, argv);
      var argv' := argv + [Word(i, i + |w|)];
      SlicesMore(s, argv, Word(i, i + |w|));
      assert Slices(s, argv) + [w] + rest == Slices(s, argv) + ws;
      ArgsAt(s, j, rest, argv');
    }
  }

  lemma SlicesMore(s: Line, argv: seq<Word>, w: Word)
    ensures Slices(s, argv + [w]) == Slices(s, argv) + [Slice(s, w)]
  {
  }

  lemma ArgsTextIs(ws: seq<string>)
    ensures ws == [] ==> ArgsText(ws) == ""
    ensures ws != [] ==> ArgsText(ws) == (ws[0] + " ") + ArgsText(ws[1..])
  {
  }

  lemma ArgsEnd(s: Line, i: nat, argv: seq<Word>)
    requires Ends(s, i) && i <= |s|
    ensures Args(s, i, argv, []) == Ok(Exec(argv), i)
    ensures GivesWords(s, Args(s, i, argv, []), Slices(s, argv), i)
  {
    assert Skip(s, i) == i;
    assert Wrap(Exec(argv), []) == Exec(argv);
  }

  // ---- commands ---------------------------------------------------------------------------------

  /** parse gives a command that reads t, ending at j. */
  ghost predicate Gives(s: Line, r: Parsed<Cmd>, t: Tree, j: nat) {
    r.Ok? && r.at == j && Read(s, r.value) == t
  }

  lemma TextStart(s: Line, i: nat, t: Tree)
    requires GoodTree(t) && At(s, i, Text(t)) && Ends(s, i + |Text(t)|)
    ensures i == |s| || !Blank(s[i])
    ensures !t.TExec? ==> At(s, i, "(")
    ensures t.TExec? ==> i == |s| || s[i] != '('
  {
    if t.TExec? {
      ArgsStart(s, i, t.words);
    } else {
      BlockStart(t);
      assert Text(t) != "" && Text(t)[0] == '(' by { OperatorFirst(t); }
      AtChar(s, i, Text(t), 0);
    }
  }

  lemma LineExec(s: Line, i: nat, ws: seq<string>)
    requires |ws| < MAXARGS && (forall w <- ws :: GoodWord(w)) && At(s, i, ArgsText(ws)) && Ends(s, i + |ArgsText(ws)|)
    ensures Gives(s, ParseLine(s, i), TExec(ws), i + |ArgsText(ws)|)
  {
    hide Args, ParseExec, ParseLine, ArgsText, GoodWord, At, Ends, GivesWords, Gives;
    ArgsStart(s, i, ws);
    ArgsAt(s, i, ws, []);
    assert Slices(s, []) + ws == ws;
    ArgsRange(s, i, ws);
    ExecStart(s, i);
    ExecGives(s, ParseExec(s, i), ws, i + |ArgsText(ws)|);
    Nothing(s, i, i + |ArgsText(ws)|);
  }

  lemma ExecGives(s: Line, r: Parsed<Cmd>, ws: seq<string>, j: nat)
    requires GivesWords(s, r, ws, j)
    ensures Gives(s, r, TExec(ws), j) && r.Ok? && r.at == j
  {
  }

  lemma ArgsRange(s: Line, i: nat, ws: seq<string>)
    requires At(s, i, ArgsText(ws)) && (forall w <- ws :: GoodWord(w)) && Ends(s, i + |ArgsText(ws)|)
    ensures i + |ArgsText(ws)| <= |s|
    ensures i < |s| ==> s[i] != '(' && s[i] != '<' && s[i] != '>'
  {
    ArgsStart(s, i, ws);
  }

  /** A command that does not begin with a redirection or a parenthesis. */
  lemma ExecStart(s: Line, i: nat)
    requires i <= |s| && (i == |s| || (!Blank(s[i]) && s[i] != '(' && s[i] != '<' && s[i] != '>'))
    ensures ParseExec(s, i) == Args(s, i, [], [])
  {
    hide Args;
    assert Skip(s, i) == i;
    assert Redirs(s, i, []) == Ok([], i);
  }

  /** At the end of a command the loops of parsepipe and parseline stop. */
  lemma Nothing(s: Line, i: nat, j: nat)
    requires i <= j <= |s| && Ends(s, j) && ParseExec(s, i).Ok? && ParseExec(s, i).at == j
    ensures ParsePipe(s, i) == ParseExec(s, i) && ParseLine(s, i) == ParseExec(s, i)
  {
    hide ParseExec;
    assert Skip(s, j) == j;
    assert ParsePipe(s, i) == ParseExec(s, i);
    assert Backs(s, ParseExec(s, i).value, j) == (ParseExec(s, i).value, j);
  }

  /** A block, up to the redirections behind it. */
  lemma {:induction false} BlockAt(s: Line, i: nat, t: Tree) returns (c: Cmd)
    requires GoodTree(t) && At(s, i, Block(t))
    requires var j := i + |Block(t)|; j == |s| || !Blank(s[j])
    ensures Read(s, c) == t && i + |Block(t)| <= |s|
    ensures ParseExec(s, i) == Wrapped(c, Redirs(s, i + |Block(t)|, []))
    decreases t, 2
  {
    hide ParseLine, ParseExec, Redirs, Text, Block, GoodTree, At, Read;
    BlockIs(t);
    AtSplit(s, i, "(", Text(t) + ")");
    AtSplit(s, i + 1, Text(t), ")");
    AtChar(s, i, "(", 0);
    var e := i + 1 + |Text(t)|;
    AtChar(s, e, ")", 0);
    TextStart(s, i + 1, t);
    LineAt(s, i + 1, t);
    c := ParseLine(s, i + 1).value;
    BlockParses(s, i, e, c);
  }

  lemma BlockIs(t: Tree)
    ensures Block(t) == "(" + (Text(t) + ")") && |Block(t)| == |Text(t)| + 2
  {
  }

  /** parseblock on a line between parentheses. */
  lemma BlockParses(s: Line, i: nat, e: nat, c: Cmd)
    requires i < e < |s| && s[i] == '(' && s[e] == ')' && !Blank(s[i + 1]) && (e + 1 == |s| || !Blank(s[e + 1]))
    requires ParseLine(s, i + 1) == Ok(c, e)
    ensures ParseExec(s, i) == Wrapped(c, Redirs(s, e + 1, []))
  {
    hide ParseLine, Redirs, GetToken, Peek, Skip;
    SymbolAt(s, i, "(");
    SymbolAt(s, e, ")");
    assert ParseExec(s, i) == ParseBlock(s, i);
  }

  /** A symbol of one character, with something that is not blank behind. */
  lemma SymbolAt(s: Line, i: nat, x: string)
    requires i < |s| && (x == "(" || x == ")") && s[i] == x[0] && (i + 1 == |s| || !Blank(s[i + 1]))
    ensures Peek(s, i, x) && GetToken(s, i).next == i + 1
  {
    assert Skip(s, i) == i && Skip(s, i + 1) == i + 1;
  }

  /** A block with no redirection behind it. */
  lemma {:induction false} BareBlock(s: Line, i: nat, t: Tree)
    requires GoodTree(t) && At(s, i, Block(t))
    requires var j := i + |Block(t)|; j == |s| || s[j] in "|;&)"
    ensures Gives(s, ParseExec(s, i), t, i + |Block(t)|)
    decreases t, 3
  {
    hide ParseExec, Redirs, Block, At, GoodTree, Read;
    BlockStart(t);
    var c := BlockAt(s, i, t);
    NoRedirs(s, i + |Block(t)|);
    assert Wrap(c, []) == c;
  }

  lemma NoRedirs(s: Line, i: nat)
    requires i <= |s| && (i == |s| || s[i] in "|;&)")
    ensures Redirs(s, i, []) == Ok([], i)
  {
    assert Skip(s, i) == i;
  }

  /** The sign of a redirection, with a word behind it. */
  lemma ArrowAt(s: Line, p: nat, way: Way)
    requires At(s, p, Arrow(way)) && p + |Arrow(way)| < |s| && WordChar(s[p + |Arrow(way)|])
    ensures Peek(s, p, "<>") && GetToken(s, p).next == p + |Arrow(way)| && WayOf(GetToken(s, p).kind) == way
  {
    AtChar(s, p, Arrow(way), 0);
    if way == Append { AtChar(s, p, ">>", 1); }
    assert Skip(s, p) == p;
  }

  /** One redirection and the end. */
  lemma FileAt(s: Line, p: nat, way: Way, f: string)
    requires GoodWord(f) && At(s, p, Arrow(way)) && At(s, p + |Arrow(way)|, f + " ") && Ends(s, p + |Arrow(way)| + |f| + 1)
    ensures var o := p + |Arrow(way)|;
            Redirs(s, p, []) == Ok([To(way, Word(o, o + |f|))], o + |f| + 1) && Slice(s, Word(o, o + |f|)) == f
  {
    hide GetToken, Peek, Skip, Slice, Arrow, At, GoodWord, WayOf, Redirs;
    var o := p + |Arrow(way)|;
    FirstChar(s, o, f);
    ArrowAt(s, p, way);
    WordTokenAt(s, o, f);
    var w := To(way, Word(o, o + |f|));
    RedirsEnd(s, o + |f| + 1, [w]);
    RedirsOne(s, p, way, Word(o, o + |f|), o, o + |f| + 1);
  }

  lemma FirstChar(s: Line, o: nat, f: string)
    requires At(s, o, f + " ") && GoodWord(f)
    ensures o + |f| + 1 <= |s| && WordChar(s[o])
  {
    AtChar(s, o, f + " ", 0);
    assert f[0] in f;
  }

  /** One turn of parseredirs. */
  lemma RedirsOne(s: Line, p: nat, way: Way, f: Word, o: nat, j: nat)
    requires p <= |s| && o <= |s| && j <= |s| && Peek(s, p, "<>") && GetToken(s, p).next == o
    requires WayOf(GetToken(s, p).kind) == way && GetToken(s, o) == Token('a', f.q, f.eq, j)
    ensures Redirs(s, p, []) == Redirs(s, j, [To(way, f)])
  {
    hide Peek, GetToken, WayOf, Skip;
    assert [] + [To(way, f)] == [To(way, f)];
  }

  lemma RedirsEnd(s: Line, i: nat, rs: seq<Redirection>)
    requires Ends(s, i) && i <= |s|
    ensures Redirs(s, i, rs) == Ok(rs, i)
  {
    assert Skip(s, i) == i;
  }

  lemma LineRedir(s: Line, i: nat, b: string, c: Cmd, way: Way, f: string)
    requires GoodWord(f) && At(s, i, b + (Arrow(way) + (f + " "))) && Ends(s, i + |b| + |Arrow(way)| + |f| + 1)
    requires i + |b| <= |s| && ParseExec(s, i) == Wrapped(c, Redirs(s, i + |b|, []))
    ensures Gives(s, ParseLine(s, i), TRedir(Read(s, c), way, f), i + |b| + |Arrow(way)| + |f| + 1)
  {
    hide ParseExec, ParseLine, Redirs, GoodWord, Arrow, At;
    var a := Arrow(way);
    var p := i + |b|;
    var o := p + |a|;
    AtSplit(s, i, b, a + (f + " "));
    AtSplit(s, p, a, f + " ");
    FileAt(s, p, way, f);
    var w := To(way, Word(o, o + |f|));
    assert Wrap(c, [w]) == Redir(Wrap(c, []), w) by { assert [w][..0] == []; }
    Nothing(s, i, o + |f| + 1);
  }

  /** Two blocks with an operator between them. */
  lemma OperatorAt(s: Line, i: nat, l: string, op: string, r: string)
    requires |op| == 1 && (op == "|" || op == ";") && At(s, i, l + (op + r)) && r != "" && r[0] == '('
    ensures var p := i + |l|;
            && At(s, i, l) && At(s, p + 1, r) && p + 1 < |s| && s[p] == op[0] && GetToken(s, p).next == p + 1
  {
    AtSplit(s, i, l, op + r);
    var p := i + |l|;
    AtSplit(s, p, op, r);
    AtChar(s, p, op, 0);
    AtChar(s, p + 1, r, 0);
  }

  lemma {:induction false} RedirAt(s: Line, i: nat, t: Tree)
    requires GoodTree(t) && t.TRedir? && At(s, i, Text(t)) && Ends(s, i + |Text(t)|)
    ensures Gives(s, ParseLine(s, i), t, i + |Text(t)|)
    decreases t, 0
  {
    hide ParseLine, ParseExec, Block, Redirs, GetToken, Text, GoodTree, At, Gives;
    TextIs(t);
    var rest := Arrow(t.way) + (t.file + " ");
    AtSplit(s, i, Block(t.cmd), rest);
    AtChar(s, i + |Block(t.cmd)|, rest, 0);
    var d := BlockAt(s, i, t.cmd);
    LineRedir(s, i, Block(t.cmd), d, t.way, t.file);
  }

  lemma {:induction false} OperatorLine(s: Line, i: nat, t: Tree)
    requires GoodTree(t) && (t.TPipe? || t.TList?) && At(s, i, Text(t)) && Ends(s, i + |Text(t)|)
    ensures Gives(s, ParseLine(s, i), t, i + |Text(t)|)
    decreases t, 0
  {
    hide ParseLine, ParseExec, Block, Redirs, GetToken, Text, GoodTree, At, Gives;
    TextIs(t);
    BlockStart(t.right);
    OperatorAt(s, i, Block(t.left), if t.TPipe? then "|" else ";", Block(t.right));
    BareBlock(s, i, t.left);
    BareBlock(s, i + |Block(t.left)| + 1, t.right);
    if t.TPipe? { PipeLine(s, i, t.left, t.right); } else { ListLine(s, i, t.left, t.right); }
  }

  lemma {:induction false} BackAt(s: Line, i: nat, t: Tree)
    requires GoodTree(t) && t.TBack? && At(s, i, Text(t)) && Ends(s, i + |Text(t)|)
    ensures Gives(s, ParseLine(s, i), t, i + |Text(t)|)
    decreases t, 0
  {
    hide ParseLine, ParseExec, Block, Redirs, GetToken, Text, GoodTree, At, Gives;
    TextIs(t);
    AtSplit(s, i, Block(t.cmd), "&");
    AtChar(s, i + |Block(t.cmd)|, "&", 0);
    BareBlock(s, i, t.cmd);
    BackLine(s, i, t.cmd);
  }

  lemma {:induction false} LineAt(s: Line, i: nat, t: Tree)
    requires GoodTree(t) && At(s, i, Text(t)) && Ends(s, i + |Text(t)|)
    ensures Gives(s, ParseLine(s, i), t, i + |Text(t)|)
    decreases t, 1
  {
    hide ParseLine, Block, Text, GoodTree, At, Gives;
    TextIs(t);
    match t
    case TExec(ws) => LineExec(s, i, ws);
    case TRedir(_, _, _) => RedirAt(s, i, t);
    case TPipe(_, _) => OperatorLine(s, i, t);
    case TList(_, _) => OperatorLine(s, i, t);
    case TBack(_) => BackAt(s, i, t);
  }

  lemma TextIs(t: Tree)
    requires GoodTree(t)
    ensures match t
            case TExec(ws) => Text(t) == ArgsText(ws) && |ws| < MAXARGS && forall w <- ws :: GoodWord(w)
            case TRedir(c, w, f) => Text(t) == Block(c) + (Arrow(w) + (f + " ")) && GoodTree(c) && GoodWord(f)
            case TPipe(l, r) => Text(t) == Block(l) + ("|" + Block(r)) && GoodTree(l) && GoodTree(r)
            case TList(l, r) => Text(t) == Block(l) + (";" + Block(r)) && GoodTree(l) && GoodTree(r)
            case TBack(c) => Text(t) == Block(c) + "&" && GoodTree(c)
  {
  }

  lemma OperatorFirst(t: Tree)
    requires !t.TExec?
    ensures Text(t) != "" && Text(t)[0] == '('
  {
    BlockStart(if t.TRedir? || t.TBack? then t.cmd else t.left);
    hide Block;
  }

  lemma BlockStart(t: Tree)
    ensures Block(t) != "" && Block(t)[0] == '('
  {
  }

  lemma PipeLine(s: Line, i: nat, l: Tree, r: Tree)
    requires i <= |s|
    requires var p := i + |Block(l)|;
             && Gives(s, ParseExec(s, i), l, p) && p + 1 < |s| && s[p] == '|'
             && GetToken(s, p).next == p + 1 && Gives(s, ParseExec(s, p + 1), r, p + 1 + |Block(r)|)
    requires Ends(s, i + |Block(l)| + 1 + |Block(r)|)
    ensures Gives(s, ParseLine(s, i), TPipe(l, r), i + |Block(l)| + 1 + |Block(r)|)
  {
    var p, j := i + |Block(l)|, i + |Block(l)| + 1 + |Block(r)|;
    hide ParseExec, Block;
    Nothing(s, p + 1, j);
    assert Skip(s, p) == p && Skip(s, j) == j;
    var c := Pipe(ParseExec(s, i).value, ParseExec(s, p + 1).value);
    assert ParsePipe(s, i) == Ok(c, j);
    assert Backs(s, c, j) == (c, j);
  }

  lemma ListLine(s: Line, i: nat, l: Tree, r: Tree)
    requires i <= |s|
    requires var p := i + |Block(l)|;
             && Gives(s, ParseExec(s, i), l, p) && p + 1 < |s| && s[p] == ';'
             && GetToken(s, p).next == p + 1 && Gives(s, ParseExec(s, p + 1), r, p + 1 + |Block(r)|)
    requires Ends(s, i + |Block(l)| + 1 + |Block(r)|)
    ensures Gives(s, ParseLine(s, i), TList(l, r), i + |Block(l)| + 1 + |Block(r)|)
  {
    var p, j := i + |Block(l)|, i + |Block(l)| + 1 + |Block(r)|;
    hide ParseExec, Block;
    Nothing(s, p + 1, j);
    assert Skip(s, p) == p;
    var c := ParseExec(s, i).value;
    assert ParsePipe(s, i) == Ok(c, p);
    assert Backs(s, c, p) == (c, p);
  }

  lemma BackLine(s: Line, i: nat, t: Tree)
    requires i <= |s|
    requires var p := i + |Block(t)|;
             Gives(s, ParseExec(s, i), t, p) && p < |s| && s[p] == '&' && Ends(s, p + 1)
    ensures Gives(s, ParseLine(s, i), TBack(t), i + |Block(t)| + 1)
  {
    var p := i + |Block(t)|;
    hide ParseExec, Block;
    assert Skip(s, p) == p && Skip(s, p + 1) == p + 1;
    var c := ParseExec(s, i).value;
    assert ParsePipe(s, i) == Ok(c, p);
    assert GetToken(s, p).next == p + 1;
    assert Backs(s, Back(c), p + 1) == (Back(c), p + 1);
  }

  lemma {:induction false} ArgsNoNul(ws: seq<string>)
    requires forall w <- ws :: GoodWord(w)
    ensures NUL !in ArgsText(ws)
  {
    if ws != [] {
      assert ws[0] in ws && forall x :: x in ws[1..] ==> x in ws;
      ArgsNoNul(ws[1..]);
    }
  }

  lemma {:induction false} TextNoNul(t: Tree)
    requires GoodTree(t)
    ensures NUL !in Text(t)
    decreases t
  {
    match t
    case TExec(ws) => ArgsNoNul(ws);
    case TRedir(c, _, _) => TextNoNul(c);
    case TPipe(l, r) => TextNoNul(l); TextNoNul(r);
    case TList(l, r) => TextNoNul(l); TextNoNul(r);
    case TBack(c) => TextNoNul(c);
  }

  /** parsecmd on the fully parenthesised text of a command rebuilds exactly that command. */
  lemma ParseRebuilds(t: Tree)
    requires GoodTree(t)
    ensures NUL !in Text(t)
    ensures var r := ParseCmd(Text(t)); r.Ok? && Read(Text(t), r.value) == t
  {
    TextNoNul(t);
    var s := Text(t);
    assert s[0..0 + |s|] == s;
    hide ParseLine, Text, GoodTree, Read;
    LineAt(s, 0, t);
    assert Skip(s, |s|) == |s|;
  }
}
