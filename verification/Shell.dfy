/**
 The parser of sh.c in its own form: it moves ps over the buffer, and nulterminate overwrites the
 buffer where words end.
 */
module Shell {
  import opened ShellGrammar

  // ---- the words of a command -------------------------------------------------------------------

  function Words(c: Cmd): seq<Word> {
    match c
    case Exec(argv) => argv
    case Redir(d, to) => Words(d) + [to.file]
    case Pipe(l, r) => Words(l) + Words(r)
    case List(l, r) => Words(l) + Words(r)
    case Back(d) => Words(d)
  }

  lemma {:induction false} GoodWordsAre(s: Line, c: Cmd)
    requires GoodWords(s, c)
    ensures forall w <- Words(c) :: WordAt(s, w)
  {
    match c
    case Exec(_) =>
    case Redir(d, _) => GoodWordsAre(s, d);
    case Pipe(l, r) => GoodWordsAre(s, l); GoodWordsAre(s, r);
    case List(l, r) => GoodWordsAre(s, l); GoodWordsAre(s, r);
    case Back(d) => GoodWordsAre(s, d);
  }

  /** The buffer with NUL at the end of each of these words. */
  function Nulled(b: seq<char>, ws: seq<Word>): (r: seq<char>)
    ensures |r| == |b|
  {
    seq(|b|, k requires 0 <= k < |b| => if exists i :: 0 <= i < |ws| && ws[i].eq == k then NUL else b[k])
  }

  lemma NulledTwice(b: seq<char>, u: seq<Word>, v: seq<Word>)
    ensures Nulled(Nulled(b, u), v) == Nulled(b, u + v)
  {
    var l, r := Nulled(Nulled(b, u), v), Nulled(b, u + v);
    forall k: nat | k < |b| ensures l[k] == r[k] {
      if i :| 0 <= i < |u| && u[i].eq == k { assert (u + v)[i].eq == k; }
      else if i :| 0 <= i < |v| && v[i].eq == k { assert (u + v)[|u| + i].eq == k; }
      else if i :| 0 <= i < |u + v| && (u + v)[i].eq == k { assert i < |u| || v[i - |u|].eq == k; }
    }
  }

  lemma NulledOne(b: seq<char>, w: Word)
    requires w.eq < |b|
    ensures Nulled(b, [w]) == b[w.eq := NUL]
  {
    assert [w][0].eq == w.eq;
  }

  /** The C string that starts at q. */
  function CString(b: seq<char>, q: nat): string
    requires q <= |b|
    decreases |b| - q
  {
    if q == |b| || b[q] == NUL then "" else [b[q]] + CString(b, q + 1)
  }

  lemma {:induction false} CStringIs(b: seq<char>, q: nat, e: nat)
    requires q <= e < |b| && b[e] == NUL && NUL !in b[q..e]
    ensures CString(b, q) == b[q..e]
    decreases e - q
  {
    if q < e {
      assert b[q] == b[q..e][0];
      assert b[q..e] == [b[q]] + b[q + 1..e];
      CStringIs(b, q + 1, e);
    }
  }

  /** A word does not end inside another. */
  lemma EndsOutside(s: Line, w: Word, v: Word)
    requires WordAt(s, w) && WordAt(s, v)
    ensures v.eq < w.q || w.eq <= v.eq
  {
  }

  /** nulterminate makes each word of the command a string of its own, equal to its token, and
      damages none: for every line that parses. */
  lemma EachWordIsItsString(s: Line, w: Word)
    requires ParseCmd(s).Ok? && w in Words(ParseCmd(s).value)
    ensures w.q < w.eq <= |s|
    ensures CString(Nulled(s + [NUL], Words(ParseCmd(s).value)), w.q) == s[w.q..w.eq]
  {
    LineGood(s, 0);
    hide ParseLine;
    var ws := Words(ParseCmd(s).value);
    GoodWordsAre(s, ParseCmd(s).value);
    var b := Nulled(s + [NUL], ws);
    assert WordAt(s, w);
    var i :| 0 <= i < |ws| && ws[i] == w;
    assert ws[i].eq == w.eq && b[w.eq] == NUL;
    forall k: nat | w.q <= k < w.eq ensures b[k] == s[k] && s[k] in s {
      forall j | 0 <= j < |ws| ensures ws[j].eq != k {
        assert ws[j] in ws;
        EndsOutside(s, w, ws[j]);
      }
    }
    assert b[w.q..w.eq] == s[w.q..w.eq];
    CStringIs(b, w.q, w.eq);
  }

  // ---- where the parser looks again from the place peek has moved to ------------------------------

  lemma SkipTwice(s: Line, i: nat)
    requires i <= |s|
    ensures Skip(s, Skip(s, i)) == Skip(s, i)
    ensures GetToken(s, Skip(s, i)) == GetToken(s, i)
    ensures forall toks: string :: Peek(s, Skip(s, i), toks) == Peek(s, i, toks)
  {
  }

  class Parser {
    const buf: array<char>
    ghost const s: Line
    var ps: nat

    ghost predicate Valid()
      reads this, buf
    {
      buf.Length == |s| + 1 && buf[..] == s + [NUL] && ps <= |s|
    }

    /** The line in a buffer of its own, with its terminating NUL. */
    constructor (line: Line)
      ensures Valid() && s == line && ps == 0 && fresh(buf)
    {
      buf := new char[|line| + 1](k requires 0 <= k < |line| + 1 => if k < |line| then line[k] else NUL);
      s, ps := line, 0;
    }

    method Blanks()
      requires Valid()
      modifies this`ps
      ensures Valid() && ps == Skip(s, old(ps))
    {
      while ps < buf.Length - 1 && Blank(buf[ps])
        invariant Valid() && Skip(s, ps) == Skip(s, old(ps))
        decreases |s| - ps
      {
        assert buf[..][ps] == buf[ps];
        ps := ps + 1;
      }
      assert ps < |s| ==> buf[..][ps] == buf[ps];
    }

    /** gettoken. */
    method GetTok() returns (tok: char, q: nat, eq: nat)
      requires Valid()
      modifies this`ps
      ensures Valid() && GetToken(s, old(ps)) == Token(tok, q, eq, ps)
    {
      Blanks();
      q := ps;
      assert buf[..][q] == buf[q];
      tok := buf[q];
      if tok == NUL {
        NulAtEnd(s, q);
        eq := ps;
        return;
      }
      if Symbol(tok) {
        ps := ps + 1;
        if tok == '>' {
          assert buf[..][ps] == buf[ps];
          if buf[ps] == '>' {
            tok := '+';
            ps := ps + 1;
          }
        }
      } else {
        tok := 'a';
        while ps < buf.Length - 1 && WordChar(buf[ps])
          invariant Valid() && q <= ps && WordEnd(s, ps) == WordEnd(s, q)
          decreases |s| - ps
        {
          assert buf[..][ps] == buf[ps];
          ps := ps + 1;
        }
        assert ps < |s| ==> buf[..][ps] == buf[ps];
      }
      eq := ps;
      Blanks();
    }

    method PeekFor(toks: string) returns (b: bool)
      requires Valid() && NUL !in toks
      modifies this`ps
      ensures Valid() && ps == Skip(s, old(ps)) && b == Peek(s, old(ps), toks) == Peek(s, ps, toks)
    {
      Blanks();
      SkipTwice(s, old(ps));
      assert buf[..][ps] == buf[ps];
      b := buf[ps] != NUL && buf[ps] in toks;
      if ps < |s| { assert s[ps] in s; }
    }

    /** parseredirs: the redirections to be wrapped around the command. */
    method ParseRedirs(rs0: seq<Redirection>) returns (ok: bool, rs: seq<Redirection>)
      requires Valid()
      modifies this`ps
      ensures Valid() && old(ps) <= ps
      ensures ok == Redirs(s, old(ps), rs0).Ok?
      ensures ok ==> Redirs(s, old(ps), rs0) == Ok(rs, ps)
    {
      rs := rs0;
      ghost var i := ps;
      var more := PeekFor("<>");
      while more
        invariant Valid() && i <= |s| && old(ps) <= i && ps == Skip(s, i) && more == Peek(s, i, "<>")
        invariant Redirs(s, i, rs) == Redirs(s, old(ps), rs0)
        decreases |s| - i
      {
        SkipTwice(s, i);
        var tok, q, eq;
        tok, q, eq := GetTok();
        var t;
        t, q, eq := GetTok();
        if t != 'a' { return false, rs; }
        rs := rs + [To(WayOf(tok), Word(q, eq))];
        i := ps;
        more := PeekFor("<>");
      }
      return true, rs;
    }

    method ParseExecs() returns (ok: bool, c: Cmd)
      requires Valid()
      modifies this`ps
      ensures Valid() && old(ps) <= ps && ok == ParseExec(s, old(ps)).Ok?
      ensures ok ==> ParseExec(s, old(ps)) == Ok(c, ps)
      decreases |s| - ps, 1
    {
      c := Exec([]);
      ghost var i0 := ps;
      hide ParseBlock, Redirs, Args;
      SkipTwice(s, i0);
      var block := PeekFor("(");
      if block {
        BlockSkips(s, i0);
        ok, c := ParseBlocks();
        return;
      }
      var rs;
      ok, rs := ParseRedirs([]);
      if !ok { return; }
      ok, c := ParseArgs(rs);
    }

    /** The loop of parseexec. */
    method ParseArgs(rs0: seq<Redirection>) returns (ok: bool, c: Cmd)
      requires Valid()
      modifies this`ps
      ensures Valid() && old(ps) <= ps && ok == Args(s, old(ps), [], rs0).Ok?
      ensures ok ==> Args(s, old(ps), [], rs0) == Ok(c, ps)
    {
      var argv, rs := [], rs0;
      c := Exec([]);
      ghost var i := ps;
      var stop := PeekFor("|)&;");
      while !stop
        invariant Valid() && i <= |s| && old(ps) <= i && ps == Skip(s, i) && stop == Peek(s, i, "|)&;")
        invariant Args(s, i, argv, rs) == Args(s, old(ps), [], rs0)
        decreases |s| - i
      {
        hide Redirs;
        SkipTwice(s, i);
        var tok, q, eq;
        tok, q, eq := GetTok();
        if tok == NUL {
          return true, Wrap(Exec(argv), rs);
        }
        if tok != 'a' || |argv| + 1 >= MAXARGS { return false, c; }
        argv := argv + [Word(q, eq)];
        ok, rs := ParseRedirs(rs);
        if !ok { return; }
        i := ps;
        stop := PeekFor("|)&;");
      }
      return true, Wrap(Exec(argv), rs);
    }

    method ParseBlocks() returns (ok: bool, c: Cmd)
      requires Valid()
      modifies this`ps
      ensures Valid() && old(ps) <= ps && ok == ParseBlock(s, old(ps)).Ok?
      ensures ok ==> ParseBlock(s, old(ps)) == Ok(c, ps)
      decreases |s| - ps, 0
    {
      c := Exec([]);
      ghost var i := ps;
      hide ParseLine, Redirs;
      SkipTwice(s, i);
      var open := PeekFor("(");
      if !open { return false, c; }
      var t, q, eq;
      t, q, eq := GetTok();
      ok, c := ParseLines();
      if !ok { return; }
      ghost var j := ps;
      SkipTwice(s, j);
      var close := PeekFor(")");
      if !close { return false, c; }
      t, q, eq := GetTok();
      var rs;
      ok, rs := ParseRedirs([]);
      if ok { c := Wrap(c, rs); }
    }

    method ParsePipes() returns (ok: bool, c: Cmd)
      requires Valid()
      modifies this`ps
      ensures Valid() && old(ps) <= ps && ok == ParsePipe(s, old(ps)).Ok?
      ensures ok ==> ParsePipe(s, old(ps)) == Ok(c, ps)
      decreases |s| - ps, 2
    {
      hide ParseExec;
      ok, c := ParseExecs();
      if !ok { return; }
      ghost var j := ps;
      SkipTwice(s, j);
      var bar := PeekFor("|");
      if bar {
        var t, q, eq;
        t, q, eq := GetTok();
        var d;
        ok, d := ParsePipes();
        c := Pipe(c, d);
      }
    }

    method ParseLines() returns (ok: bool, c: Cmd)
      requires Valid()
      modifies this`ps
      ensures Valid() && old(ps) <= ps && ok == ParseLine(s, old(ps)).Ok?
      ensures ok ==> ParseLine(s, old(ps)) == Ok(c, ps)
      decreases |s| - ps, 3
    {
      hide ParsePipe;
      ok, c := ParsePipes();
      if !ok { return; }
      ghost var c0, j, i := c, ps, ps;
      var t, q, eq;
      var and := PeekFor("&");
      while and
        invariant Valid() && j <= i <= |s| && ps == Skip(s, i) && and == Peek(s, i, "&")
        invariant Backs(s, c, i) == Backs(s, c0, j)
        decreases |s| - i
      {
        SkipTwice(s, i);
        t, q, eq := GetTok();
        c := Back(c);
        i := ps;
        and := PeekFor("&");
      }
      assert Backs(s, c0, j) == (c, ps);
      SkipTwice(s, ps);
      var semi := PeekFor(";");
      if semi {
        t, q, eq := GetTok();
        var d;
        ok, d := ParseLines();
        c := List(c, d);
      }
    }

    /** nulterminate. */
    method Nulterminate(c: Cmd)
      requires forall w <- Words(c) :: w.eq < buf.Length
      modifies buf
      ensures buf[..] == Nulled(old(buf[..]), Words(c))
      decreases c
    {
      match c
      case Exec(argv) =>
        var i := 0;
        assert Nulled(buf[..], argv[..0]) == buf[..];
        while i < |argv|
          invariant i <= |argv| && buf[..] == Nulled(old(buf[..]), argv[..i])
        {
          assert argv[i] in argv;
          NulledTwice(old(buf[..]), argv[..i], [argv[i]]);
          NulledOne(buf[..], argv[i]);
          buf[argv[i].eq] := NUL;
          assert argv[..i + 1] == argv[..i] + [argv[i]];
          i := i + 1;
        }
        assert argv[..i] == argv;
      case Redir(d, to) =>
        assert to.file in Words(c);
        NulledTwice(buf[..], Words(d), [to.file]);
        Nulterminate(d);
        NulledOne(buf[..], to.file);
        buf[to.file.eq] := NUL;
      case Pipe(l, r) =>
        NulledTwice(buf[..], Words(l), Words(r));
        Nulterminate(l);
        Nulterminate(r);
      case List(l, r) =>
        NulledTwice(buf[..], Words(l), Words(r));
        Nulterminate(l);
        Nulterminate(r);
      case Back(d) => Nulterminate(d);
    }

    /** parsecmd: on success each word of the command is a string in the buffer. */
    method ParseCmds() returns (ok: bool, c: Cmd)
      requires Valid() && ps == 0
      modifies this`ps, buf
      ensures ok == ParseCmd(s).Ok?
      ensures ok ==> c == ParseCmd(s).value && buf[..] == Nulled(s + [NUL], Words(c))
      ensures !ok ==> buf[..] == old(buf[..])
    {
      hide ParseLine;
      ok, c := ParseLines();
      if !ok { return; }
      SkipTwice(s, ps);
      var rest := PeekFor("");
      if ps != buf.Length - 1 { return false, c; }
      LineGood(s, 0);
      GoodWordsAre(s, c);
      assert forall w <- Words(c) :: WordAt(s, w);
      Nulterminate(c);
    }
  }

  lemma NulAtEnd(s: Line, q: nat)
    requires q <= |s| && (s + [NUL])[q] == NUL
    ensures q == |s|
  {
    assert forall k :: 0 <= k < |s| ==> s[k] != NUL;
  }

  lemma BlockSkips(s: Line, i: nat)
    requires i <= |s|
    ensures ParseBlock(s, Skip(s, i)) == ParseBlock(s, i)
  {
    SkipTwice(s, i);
  }
}
