/**
 The parser of sh.c as functions on positions of the command line. A word is the pair of its
 start and end; a panic is a result.
 */
module ShellGrammar {

  const MAXARGS: nat := 10
  const NUL: char := '\0'

  datatype Word = Word(q: nat, eq: nat)

  /** The three kinds of redirection; the mode and the descriptor follow from the kind. */
  datatype Way = In | Out | Append

  datatype Redirection = To(way: Way, file: Word)

  datatype Cmd =
    | Exec(argv: seq<Word>)
    | Redir(cmd: Cmd, to: Redirection)
    | Pipe(left: Cmd, right: Cmd)
    | List(left: Cmd, right: Cmd)
    | Back(cmd: Cmd)

  datatype Parsed<T> = Ok(value: T, at: nat) | Panic(message: string)

  predicate Blank(c: char) {
    c == ' ' || c == '\t' || c == '\r' || c == '\n' || c == '\U{000B}'
  }

  predicate Symbol(c: char) {
    c == '<' || c == '|' || c == '>' || c == '&' || c == ';' || c == '(' || c == ')'
  }

  predicate WordChar(c: char) {
    !Blank(c) && !Symbol(c)
  }

  /** The line up to its terminating NUL. */
  type Line = s: string | NUL !in s

  // ---- tokens -----------------------------------------------------------------------------------

  function Skip(s: Line, i: nat): (j: nat)
    requires i <= |s|
    ensures i <= j <= |s| && (j < |s| ==> !Blank(s[j])) && forall k :: i <= k < j ==> Blank(s[k])
    decreases |s| - i
  {
    if i < |s| && Blank(s[i]) then Skip(s, i + 1) else i
  }

  function WordEnd(s: Line, i: nat): (j: nat)
    requires i <= |s|
    ensures i <= j <= |s| && (j < |s| ==> !WordChar(s[j])) && forall k :: i <= k < j ==> WordChar(s[k])
    decreases |s| - i
  {
    if i < |s| && WordChar(s[i]) then WordEnd(s, i + 1) else i
  }

  /** kind is NUL at the end, 'a' for a word, '+' for >>, else the symbol. */
  datatype Token = Token(kind: char, q: nat, eq: nat, next: nat)

  /** gettoken. */
  function GetToken(s: Line, i: nat): (t: Token)
    requires i <= |s|
    ensures i <= t.q <= t.eq <= t.next <= |s|
    ensures t.kind != NUL ==> t.q < t.eq
    ensures t.kind == 'a' && t.q < |s| && WordChar(s[t.q]) ==> WordAt(s, Word(t.q, t.eq))
  {
    var q := Skip(s, i);
    if q == |s| then Token(NUL, q, q, q)
    else if s[q] == '>' && q + 1 < |s| && s[q + 1] == '>' then Token('+', q, q + 2, Skip(s, q + 2))
    else if Symbol(s[q]) then Token(s[q], q, q + 1, Skip(s, q + 1))
    else Token('a', q, WordEnd(s, q), Skip(s, WordEnd(s, q)))
  }

  /** A maximal run of word characters. */
  predicate WordAt(s: Line, w: Word) {
    w.q < w.eq <= |s| && (forall k :: w.q <= k < w.eq ==> WordChar(s[k])) && (w.eq < |s| ==> !WordChar(s[w.eq]))
  }

  /** peek: the next character that is not blank is one of toks. */
  predicate Peek(s: Line, i: nat, toks: string)
    requires i <= |s|
  {
    Skip(s, i) < |s| && s[Skip(s, i)] in toks
  }

  // ---- the grammar ------------------------------------------------------------------------------

  function Wrap(c: Cmd, rs: seq<Redirection>): Cmd {
    if rs == [] then c else Redir(Wrap(c, rs[..|rs| - 1]), rs[|rs| - 1])
  }

  function Wrapped(c: Cmd, r: Parsed<seq<Redirection>>): Parsed<Cmd> {
    match r
    case Panic(m) => Panic(m)
    case Ok(rs, k) => Ok(Wrap(c, rs), k)
  }

  function WayOf(kind: char): Way {
    if kind == '<' then In else if kind == '>' then Out else Append
  }

  /** parseredirs, from position i on, after the redirections rs. */
  function Redirs(s: Line, i: nat, rs: seq<Redirection>): (r: Parsed<seq<Redirection>>)
    requires i <= |s|
    ensures r.Ok? ==> i <= r.at <= |s|
    decreases |s| - i
  {
    if !Peek(s, i, "<>") then Ok(rs, Skip(s, i))
    else
      var tok := GetToken(s, i);
      var f := GetToken(s, tok.next);
      if f.kind != 'a' then Panic("missing file for redirection")
      else Redirs(s, f.next, rs + [To(WayOf(tok.kind), Word(f.q, f.eq))])
  }

  /** The loop of parseexec. */
  function Args(s: Line, i: nat, argv: seq<Word>, rs: seq<Redirection>): (r: Parsed<Cmd>)
    requires i <= |s|
    ensures r.Ok? ==> i <= r.at <= |s|
    decreases |s| - i
  {
    if Peek(s, i, "|)&;") then Ok(Wrap(Exec(argv), rs), Skip(s, i))
    else
      var tok := GetToken(s, i);
      if tok.kind == NUL then Ok(Wrap(Exec(argv), rs), tok.next)
      else if tok.kind != 'a' then Panic("syntax")
      else if |argv| + 1 >= MAXARGS then Panic("too many args")
      else match Redirs(s, tok.next, rs)
        case Panic(m) => Panic(m)
        case Ok(rs', j) => Args(s, j, argv + [Word(tok.q, tok.eq)], rs')
  }

  function ParseExec(s: Line, i: nat): (r: Parsed<Cmd>)
    requires i <= |s|
    ensures r.Ok? ==> i <= r.at <= |s|
    decreases |s| - i, 1
  {
    if Peek(s, i, "(") then ParseBlock(s, i)
    else match Redirs(s, Skip(s, i), [])
      case Panic(m) => Panic(m)
      case Ok(rs, j) => Args(s, j, [], rs)
  }

  function ParseBlock(s: Line, i: nat): (r: Parsed<Cmd>)
    requires i <= |s|
    ensures r.Ok? ==> i <= r.at <= |s|
    decreases |s| - i, 0
  {
    if !Peek(s, i, "(") then Panic("parseblock")
    else match ParseLine(s, GetToken(s, i).next)
      case Panic(m) => Panic(m)
      case Ok(c, j) =>
        if !Peek(s, j, ")") then Panic("syntax - missing )")
        else Wrapped(c, Redirs(s, GetToken(s, j).next, []))
  }

  function ParsePipe(s: Line, i: nat): (r: Parsed<Cmd>)
    requires i <= |s|
    ensures r.Ok? ==> i <= r.at <= |s|
    decreases |s| - i, 2
  {
    match ParseExec(s, i)
    case Panic(m) => Panic(m)
    case Ok(c, j) =>
      if !Peek(s, j, "|") then Ok(c, Skip(s, j))
      else match ParsePipe(s, GetToken(s, j).next)
        case Panic(m) => Panic(m)
        case Ok(d, k) => Ok(Pipe(c, d), k)
  }

  /** The loop of parseline over &. */
  function Backs(s: Line, c: Cmd, i: nat): (r: (Cmd, nat))
    requires i <= |s|
    ensures i <= r.1 <= |s|
    decreases |s| - i
  {
    if Peek(s, i, "&") then Backs(s, Back(c), GetToken(s, i).next) else (c, Skip(s, i))
  }

  function ParseLine(s: Line, i: nat): (r: Parsed<Cmd>)
    requires i <= |s|
    ensures r.Ok? ==> i <= r.at <= |s|
    decreases |s| - i, 3
  {
    match ParsePipe(s, i)
    case Panic(m) => Panic(m)
    case Ok(c, j) =>
      var (d, k) := Backs(s, c, j);
      if !Peek(s, k, ";") then Ok(d, Skip(s, k))
      else match ParseLine(s, GetToken(s, k).next)
        case Panic(m) => Panic(m)
        case Ok(e, l) => Ok(List(d, e), l)
  }

  /** parsecmd, up to nulterminate. */
  function ParseCmd(s: Line): (r: Parsed<Cmd>) {
    match ParseLine(s, 0)
    case Panic(m) => Panic(m)
    case Ok(c, j) => if Skip(s, j) == |s| then Ok(c, |s|) else Panic("syntax")
  }

  // ---- every word of a parsed command is a word of the line -------------------------------------

  ghost predicate GoodWords(s: Line, c: Cmd) {
    match c
    case Exec(argv) => |argv| < MAXARGS && forall w <- argv :: WordAt(s, w)
    case Redir(d, to) => GoodWords(s, d) && WordAt(s, to.file)
    case Pipe(l, r) => GoodWords(s, l) && GoodWords(s, r)
    case List(l, r) => GoodWords(s, l) && GoodWords(s, r)
    case Back(d) => GoodWords(s, d)
  }

  ghost predicate GoodFiles(s: Line, rs: seq<Redirection>) {
    forall r <- rs :: WordAt(s, r.file)
  }

  lemma WordToken(s: Line, i: nat)
    requires i <= |s| && GetToken(s, i).kind == 'a'
    ensures WordAt(s, Word(GetToken(s, i).q, GetToken(s, i).eq))
  {
  }

  lemma {:induction false} WrapGood(s: Line, c: Cmd, rs: seq<Redirection>)
    requires GoodWords(s, c) && GoodFiles(s, rs)
    ensures GoodWords(s, Wrap(c, rs))
  {
    if rs != [] {
      assert rs[|rs| - 1] in rs;
      assert forall r :: r in rs[..|rs| - 1] ==> r in rs;
      WrapGood(s, c, rs[..|rs| - 1]);
    }
  }

  lemma {:induction false} RedirsGood(s: Line, i: nat, rs: seq<Redirection>)
    requires i <= |s| && GoodFiles(s, rs)
    ensures Redirs(s, i, rs).Ok? ==> GoodFiles(s, Redirs(s, i, rs).value)
    decreases |s| - i
  {
    if Peek(s, i, "<>") {
      var tok := GetToken(s, i);
      var f := GetToken(s, tok.next);
      if f.kind == 'a' {
        WordToken(s, tok.next);
        RedirsGood(s, f.next, rs + [To(WayOf(tok.kind), Word(f.q, f.eq))]);
      }
    }
  }

  lemma {:induction false} ArgsGood(s: Line, i: nat, argv: seq<Word>, rs: seq<Redirection>)
    requires i <= |s| && |argv| < MAXARGS && (forall w <- argv :: WordAt(s, w)) && GoodFiles(s, rs)
    ensures Args(s, i, argv, rs).Ok? ==> GoodWords(s, Args(s, i, argv, rs).value)
    decreases |s| - i
  {
    WrapGood(s, Exec(argv), rs);
    var tok := GetToken(s, i);
    if !Peek(s, i, "|)&;") && tok.kind == 'a' && |argv| + 1 < MAXARGS {
      WordToken(s, i);
      RedirsGood(s, tok.next, rs);
      var r := Redirs(s, tok.next, rs);
      if r.Ok? { ArgsGood(s, r.at, argv + [Word(tok.q, tok.eq)], r.value); }
    }
  }

  lemma {:induction false} ExecGood(s: Line, i: nat)
    requires i <= |s|
    ensures ParseExec(s, i).Ok? ==> GoodWords(s, ParseExec(s, i).value)
    decreases |s| - i, 1
  {
    if Peek(s, i, "(") {
      BlockGood(s, i);
    } else {
      RedirsGood(s, Skip(s, i), []);
      var r := Redirs(s, Skip(s, i), []);
      if r.Ok? { ArgsGood(s, r.at, [], r.value); }
    }
  }

  lemma {:induction false} BlockGood(s: Line, i: nat)
    requires i <= |s|
    ensures ParseBlock(s, i).Ok? ==> GoodWords(s, ParseBlock(s, i).value)
    decreases |s| - i, 0
  {
    if Peek(s, i, "(") {
      LineGood(s, GetToken(s, i).next);
      var l := ParseLine(s, GetToken(s, i).next);
      if l.Ok? && Peek(s, l.at, ")") {
        RedirsGood(s, GetToken(s, l.at).next, []);
        var r := Redirs(s, GetToken(s, l.at).next, []);
        if r.Ok? { WrapGood(s, l.value, r.value); }
      }
    }
  }

  lemma {:induction false} PipeGood(s: Line, i: nat)
    requires i <= |s|
    ensures ParsePipe(s, i).Ok? ==> GoodWords(s, ParsePipe(s, i).value)
    decreases |s| - i, 2
  {
    ExecGood(s, i);
    var e := ParseExec(s, i);
    if e.Ok? && Peek(s, e.at, "|") { PipeGood(s, GetToken(s, e.at).next); }
  }

  lemma {:induction false} BacksGood(s: Line, c: Cmd, i: nat)
    requires i <= |s| && GoodWords(s, c)
    ensures GoodWords(s, Backs(s, c, i).0)
    decreases |s| - i
  {
    if Peek(s, i, "&") { BacksGood(s, Back(c), GetToken(s, i).next); }
  }

  lemma {:induction false} LineGood(s: Line, i: nat)
    requires i <= |s|
    ensures ParseLine(s, i).Ok? ==> GoodWords(s, ParseLine(s, i).value)
    decreases |s| - i, 3
  {
    PipeGood(s, i);
    var p := ParsePipe(s, i);
    if p.Ok? {
      BacksGood(s, p.value, p.at);
      var b := Backs(s, p.value, p.at);
      if Peek(s, b.1, ";") { LineGood(s, GetToken(s, b.1).next); }
    }
  }
}
