/** The parser of sh.c: an advancing cursor, loops, and nulterminate's writes into the line. */
module Shell {
  import opened ShellSyntax
  import G = ShellGrammar

  /** Move the cursor past white space. */
  method Blanks(s: string, i: nat) returns (j: nat)
    requires i <= |s|
    ensures j == SkipWhite(s, i)
  {
    j := i;
    while j < |s| && White(s[j])
      invariant i <= j <= |s| && SkipWhite(s, j) == SkipWhite(s, i)
    {
      j := j + 1;
    }
  }

  /** The next token; ShellSyntax.TokenMeans says what that is in characters. */
  method Gettoken(s: string, i: nat) returns (g: Token)
    requires i <= |s|
    ensures g == GetToken(s, i)
  {
    var q := Blanks(s, i);
    if q == |s| {
      return Token(END, Tok(q, q), q);
    }
    var kind, e := s[q], q + 1;
    if kind == '>' {
      if e < |s| && s[e] == '>' {
        kind, e := '+', e + 1;
      }
    } else if !Symbol(kind) {
      kind, e := 'a', q;
      while e < |s| && !White(s[e]) && !Symbol(s[e])
        invariant q <= e <= |s| && WordEnd(s, e) == WordEnd(s, q)
      {
        e := e + 1;
      }
    }
    var next := Blanks(s, e);
    g := Token(kind, Tok(q, e), next);
  }

  method Peek(s: string, i: nat, toks: string) returns (b: bool, j: nat)
    requires i <= |s|
    ensures b == Sees(s, i, toks) && j == SkipWhite(s, i)
  {
    j := Blanks(s, i);
    b := j < |s| && s[j] in toks;
  }

  /** The redirections at i, after those in list. */
  method Parseredirs(s: string, i: nat, list: seq<(Tok, Direction)>) returns (r: Redirs)
    requires i <= |s| && forall k :: 0 <= k < |list| ==> IsWord(s, list[k].0)
    ensures r == ParseRedirs(s, i, list)
  {
    var more := list;
    var b, j := Peek(s, i, "<>");
    ghost var p := i;
    while b
      invariant i <= p <= |s| && b == Sees(s, p, "<>") && j == SkipWhite(s, p)
      invariant (forall k :: 0 <= k < |more| ==> IsWord(s, more[k].0)) && ParseRedirs(s, p, more) == ParseRedirs(s, i, list)
      decreases |s| - p
    {
      var op := Gettoken(s, j);
      var w := Gettoken(s, op.next);
      RedirsTurn(s, p, j, more, op, w);
      if w.kind != 'a' {
        return BadRedir;
      }
      more := more + [(w.tok, if op.kind == '<' then Input else Output)];
      p := w.next;
      b, j := Peek(s, w.next, "<>");
    }
    r := Redirs(more, j);
  }

  method Parseexec(s: string, i: nat) returns (r: Result)
    requires i <= |s|
    ensures r == ParseExec(s, i) && G.ExecJudged(s, i, r)
    decreases |s| - i, 1
  {
    G.ExecJudges(s, i);
    var paren, j := Peek(s, i, "(");
    if paren {
      r := Parseblock(s, j);
      return;
    }
    var rd := Parseredirs(s, j, []);
    if rd.BadRedir? {
      return Panic;
    }
    var args: seq<Tok> := [];
    var stop, k := Peek(s, rd.pos, "|)&;");
    while !stop
      invariant rd.Redirs? && i <= rd.pos <= |s| && stop == Sees(s, rd.pos, "|)&;") && k == SkipWhite(s, rd.pos)
      invariant (forall k :: 0 <= k < |args| ==> IsWord(s, args[k])) && forall k :: 0 <= k < |rd.list| ==> IsWord(s, rd.list[k].0)
      invariant ParseArgs(s, rd.pos, args, rd.list) == ParseExec(s, i)
      decreases |s| - rd.pos
    {
      var g := Gettoken(s, k);
      ArgsTurn(s, rd.pos, k, args, rd.list, g);
      if g.kind == END {
        return Ok(Wrap(Exec(args), rd.list), g.next);
      }
      if g.kind != 'a' {
        return Panic;
      }
      args := args + [g.tok];
      if |args| >= MAXARGS {
        return Panic;
      }
      rd := Parseredirs(s, g.next, rd.list);
      if rd.BadRedir? {
        return Panic;
      }
      stop, k := Peek(s, rd.pos, "|)&;");
    }
    r := Ok(Wrap(Exec(args), rd.list), k);
  }

  method Parseblock(s: string, i: nat) returns (r: Result)
    requires i <= |s| && Sees(s, i, "(")
    ensures r == ParseBlock(s, i)
    decreases |s| - i, 0
  {
    var g := Gettoken(s, i);
    var inner := Parseline(s, g.next);
    if inner.Panic? {
      return Panic;
    }
    var closed, j := Peek(s, inner.pos, ")");
    if !closed {
      return Panic;
    }
    g := Gettoken(s, j);
    var rd := Parseredirs(s, g.next, []);
    if rd.BadRedir? {
      return Panic;
    }
    r := Ok(Wrap(inner.cmd, rd.list), rd.pos);
  }

  method Parsepipe(s: string, i: nat) returns (r: Result)
    requires i <= |s|
    ensures r == ParsePipe(s, i)
    decreases |s| - i, 2
  {
    var l := Parseexec(s, i);
    if l.Panic? {
      return Panic;
    }
    var bar, j := Peek(s, l.pos, "|");
    if !bar {
      return Ok(l.cmd, j);
    }
    var g := Gettoken(s, j);
    r := Parsepipe(s, g.next);
    if r.Ok? {
      r := Ok(Pipe(l.cmd, r.cmd), r.pos);
    }
  }

  method Parseline(s: string, i: nat) returns (r: Result)
    requires i <= |s|
    ensures r == ParseLine(s, i) && G.LineJudged(s, i, r)
    decreases |s| - i, 3
  {
    G.LineJudges(s, i);
    var p := Parsepipe(s, i);
    if p.Panic? {
      return Panic;
    }
    var c, pos := p.cmd, p.pos;
    var amp, j := Peek(s, pos, "&");
    while amp
      invariant p.pos <= pos <= |s| && Good(s, c) && amp == Sees(s, pos, "&") && j == SkipWhite(s, pos)
      invariant ParseBacks(s, c, pos) == ParseBacks(s, p.cmd, p.pos)
      decreases |s| - pos
    {
      var g := Gettoken(s, j);
      c, pos := Back(c), g.next;
      amp, j := Peek(s, pos, "&");
    }
    var semi;
    semi, j := Peek(s, j, ";");
    if !semi {
      return Ok(c, j);
    }
    var g := Gettoken(s, j);
    r := Parseline(s, g.next);
    if r.Ok? {
      r := Ok(List(c, r.cmd), r.pos);
    }
  }

  // ---------------------------------------------------------------- nulterminate

  ghost function Toks(c: Cmd<Tok>): set<Tok> {
    match c
    case Exec(args) => set k | 0 <= k < |args| :: args[k]
    case Redir(d, file, _) => Toks(d) + {file}
    case Pipe(l, r) => Toks(l) + Toks(r)
    case List(l, r) => Toks(l) + Toks(r)
    case Back(d) => Toks(d)
  }

  ghost predicate Ends(ts: set<Tok>, k: nat) {
    exists t :: t in ts && t.eq == k
  }

  /** buf with a NUL at the end of every token of ts, all else as it was. */
  ghost predicate NulledAt(buf: string, buf': string, ts: set<Tok>) {
    |buf'| == |buf| && forall k :: 0 <= k < |buf| ==> buf'[k] == if Ends(ts, k) then '\0' else buf[k]
  }

  lemma NulledTrans(b0: string, b1: string, b2: string, ts: set<Tok>, us: set<Tok>)
    requires NulledAt(b0, b1, ts) && NulledAt(b1, b2, us)
    ensures NulledAt(b0, b2, ts + us)
  {
    forall k | 0 <= k < |b0| ensures Ends(ts + us, k) <==> Ends(ts, k) || Ends(us, k) {
      if Ends(ts, k) {
        var t :| t in ts && t.eq == k;
        assert t in ts + us;
      }
      if Ends(us, k) {
        var t :| t in us && t.eq == k;
        assert t in ts + us;
      }
    }
  }

  ghost function FirstToks(args: seq<Tok>, n: nat): set<Tok>
    requires n <= |args|
  {
    set k | 0 <= k < n :: args[k]
  }

  /** All tokens end inside the buffer. */
  ghost predicate Inside(c: Cmd<Tok>, n: nat) {
    forall t :: t in Toks(c) ==> t.eq < n
  }

  /** Put a NUL at the end of every word of the tree. */
  method Nulterminate(c: Cmd<Tok>, buf: array<char>)
    requires Inside(c, buf.Length)
    modifies buf
    ensures NulledAt(old(buf[..]), buf[..], Toks(c))
    decreases c
  {
    ghost var b0 := buf[..];
    match c
    case Exec(args) =>
      var i := 0;
      while i < |args|
        invariant 0 <= i <= |args| && NulledAt(b0, buf[..], FirstToks(args, i))
      {
        ghost var b1 := buf[..];
        assert args[i] in Toks(c);
        buf[args[i].eq] := '\0';
        NulledOne(b1, buf[..], args[i]);
        NulledTrans(b0, b1, buf[..], FirstToks(args, i), {args[i]});
        assert FirstToks(args, i + 1) == FirstToks(args, i) + {args[i]};
        i := i + 1;
      }
      assert FirstToks(args, |args|) == Toks(c);
    case Redir(d, file, _) =>
      Nulterminate(d, buf);
      ghost var b1 := buf[..];
      buf[file.eq] := '\0';
      NulledOne(b1, buf[..], file);
      NulledTrans(b0, b1, buf[..], Toks(d), {file});
    case Pipe(l, r) =>
      Nulterminate(l, buf);
      ghost var b1 := buf[..];
      Nulterminate(r, buf);
      NulledTrans(b0, b1, buf[..], Toks(l), Toks(r));
    case List(l, r) =>
      Nulterminate(l, buf);
      ghost var b1 := buf[..];
      Nulterminate(r, buf);
      NulledTrans(b0, b1, buf[..], Toks(l), Toks(r));
    case Back(d) =>
      Nulterminate(d, buf);
  }

  lemma NulledOne(b0: string, b1: string, t: Tok)
    requires t.eq < |b0| && b1 == b0[t.eq := '\0']
    ensures NulledAt(b0, b1, {t})
  {
    assert Ends({t}, t.eq);
  }

  lemma {:induction false} GoodToks(s: string, c: Cmd<Tok>, t: Tok)
    requires Good(s, c) && t in Toks(c)
    ensures IsWord(s, t)
  {
    match c
    case Exec(args) =>
    case Redir(d, file, _) => if t != file { GoodToks(s, d, t); }
    case Pipe(l, r) => if t in Toks(l) { GoodToks(s, l, t); } else { GoodToks(s, r, t); }
    case List(l, r) => if t in Toks(l) { GoodToks(s, l, t); } else { GoodToks(s, r, t); }
    case Back(d) => GoodToks(s, d, t);
  }

  /** The string at position q of a buffer: everything before the next NUL. */
  ghost predicate CString(buf: string, q: nat, w: string) {
    q + |w| < |buf| && buf[q..q + |w|] == w && buf[q + |w|] == '\0' && '\0' !in w
  }

  /** No NUL that nulterminate writes falls inside a word: the string at each word is that word. */
  lemma WordsExact(s: string, c: Cmd<Tok>, buf: string, t: Tok)
    requires Good(s, c) && '\0' !in s && NulledAt(s + "\0", buf, Toks(c)) && t in Toks(c)
    ensures IsWord(s, t) && CString(buf, t.q, s[t.q..t.eq])
  {
    GoodToks(s, c, t);
    forall k | t.q <= k < t.eq ensures !Ends(Toks(c), k) {
      if Ends(Toks(c), k) {
        var u :| u in Toks(c) && u.eq == k;
        GoodToks(s, c, u);
      }
    }
    assert Ends(Toks(c), t.eq);
    var w := s[t.q..t.eq];
    assert buf[t.q..t.eq] == w;
  }

  /**
   Parse the line in buf.  The tree is the one the grammar gives the line, and every word of it is
   afterwards a string of its own; a line that the grammar does not derive is refused.
   */
  method Parsecmd(buf: array<char>, s: string) returns (r: Result)
    requires '\0' !in s && buf[..] == s + "\0"
    modifies buf
    ensures r == ParseCmd(s) && G.Judged(s, r)
    ensures r.Ok? ==> forall t :: t in Toks(r.cmd) ==> IsWord(s, t) && CString(buf[..], t.q, s[t.q..t.eq])
    ensures r.Panic? ==> buf[..] == old(buf[..])
  {
    G.ParseJudges(s);
    r := Parseline(s, 0);
    if r.Panic? {
      return;
    }
    var _, j := Peek(s, r.pos, "");
    if j != |s| {
      return Panic;
    }
    r := Ok(r.cmd, |s|);
    forall t | t in Toks(r.cmd) ensures t.eq < buf.Length {
      GoodToks(s, r.cmd, t);
    }
    Nulterminate(r.cmd, buf);
    forall t | t in Toks(r.cmd) ensures IsWord(s, t) && CString(buf[..], t.q, s[t.q..t.eq]) {
      WordsExact(s, r.cmd, buf[..], t);
    }
  }
}
