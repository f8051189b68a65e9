/** Printing a command tree with no more parentheses than it needs, and parsing it, gives the tree back (sh.c). */
module ShellRoundTrip {
  import opened ShellSyntax
  import opened ShellGrammar

  predicate PlainWord(w: string) {
    w != "" && forall k :: 0 <= k < |w| ==> Plain(w[k])
  }

  /** Trees the shell can hold: plain words, at most nine arguments. */
  predicate Printable(t: Tree) {
    match t
    case Exec(args) => |args| < MAXARGS && forall k :: 0 <= k < |args| ==> PlainWord(args[k])
    case Redir(c, file, _) => PlainWord(file) && Printable(c)
    case Pipe(l, r) => Printable(l) && Printable(r)
    case List(l, r) => Printable(l) && Printable(r)
    case Back(c) => Printable(c)
  }

  // ---------------------------------------------------------------- a tree as words and symbols

  function LineOf(t: Tree): seq<Lexeme>
    decreases t, 4
  {
    if t.List? then JobOf(t.left) + [Sym(';')] + LineOf(t.right) else JobOf(t)
  }

  function JobOf(t: Tree): seq<Lexeme>
    decreases t, 3
  {
    if t.Back? then JobOf(t.cmd) + [Sym('&')] else PipeOf(t)
  }

  function PipeOf(t: Tree): seq<Lexeme>
    decreases t, 2
  {
    if t.Pipe? then ExecOf(t.left) + [Sym('|')] + PipeOf(t.right) else ExecOf(t)
  }

  function ExecOf(t: Tree): seq<Lexeme>
    decreases t, 1
  {
    match t
    case Exec(args) => seq(|args|, k requires 0 <= k < |args| => Word(args[k]))
    case Redir(c, file, dir) => ExecOf(c) + [Sym(if dir.Input? then '<' else '>'), Word(file)]
    case _ => [Sym('(')] + BodyOf(t) + [Sym(')')]
  }

  /** What stands between the parentheses. */
  function BodyOf(t: Tree): seq<Lexeme>
    decreases t, 0
  {
    match t
    case List(l, r) => JobOf(l) + [Sym(';')] + LineOf(r)
    case Back(c) => JobOf(c) + [Sym('&')]
    case Pipe(l, r) => ExecOf(l) + [Sym('|')] + PipeOf(r)
    case _ => []
  }

  lemma {:induction false} ArgsDerived(args: seq<string>)
    ensures Simple(ExecOf(Exec(args)), args, [])
    decreases |args|
  {
    if args != [] {
      ArgsDerived(args[1..]);
      assert ExecOf(Exec(args))[1..] == ExecOf(Exec(args[1..]));
    }
  }

  lemma WrapMore(t: Tree, rs: seq<(string, Direction)>, x: (string, Direction))
    ensures Wrap(t, rs + [x]) == Redir(Wrap(t, rs), x.0, x.1)
  {
    assert (rs + [x])[..|rs|] == rs;
  }

  /** One more redirection behind a command. */
  lemma RedirDerived(ts: seq<Lexeme>, t: Tree, op: char, file: string, dir: Direction)
    requires IsExec(ts, t) && op in "<>" && dir == DirOf(Sym(op))
    ensures IsExec(ts + [Sym(op), Word(file)], Redir(t, file, dir))
  {
    if args, rs :| Simple(ts, args, rs) && |args| < MAXARGS && t == Wrap(Exec(args), rs) {
      SimpleEnd(ts, args, rs, Sym(op), file);
      WrapMore(Exec(args), rs, (file, dir));
      SimpleIsExec(ts + [Sym(op), Word(file)], args, rs + [(file, dir)]);
    } else {
      var m: nat, inner, rs :| IsBlock(ts, m, inner, rs) && t == Wrap(inner, rs);
      BlockRedirDerived(ts, m, inner, rs, op, file, dir);
    }
  }

  lemma BlockRedirDerived(ts: seq<Lexeme>, m: nat, inner: Tree, rs: seq<(string, Direction)>, op: char, file: string, dir: Direction)
    requires IsBlock(ts, m, inner, rs) && op in "<>" && dir == DirOf(Sym(op))
    ensures IsExec(ts + [Sym(op), Word(file)], Redir(Wrap(inner, rs), file, dir))
  {
    var more := [Sym(op), Word(file)];
    SimpleEnd(ts[m + 1..], [], rs, Sym(op), file);
    assert (ts + more)[1..m] == ts[1..m] && (ts + more)[m + 1..] == ts[m + 1..] + more;
    WrapMore(inner, rs, (file, dir));
    assert IsBlock(ts + more, m, inner, rs + [(file, dir)]);
  }

  lemma EndWord(ts: seq<Lexeme>, args: seq<string>, more: seq<Lexeme>, rs: seq<(string, Direction)>)
    requires ts != [] && ts[0].Word? && args != [] && args[0] == ts[0].text && Simple(ts[1..] + more, args[1..], rs)
    ensures Simple(ts + more, args, rs)
  {
    SimpleWord(ts[0].text, ts[1..] + more, args[1..], rs);
    Regroup([ts[0]], ts[1..], more, ts);
    assert [args[0]] + args[1..] == args;
  }

  lemma EndRedir(ts: seq<Lexeme>, args: seq<string>, rs: seq<(string, Direction)>, more: seq<Lexeme>, x: (string, Direction))
    requires |ts| >= 2 && IsOp(ts[0]) && ts[1].Word? && rs != [] && rs[0] == (ts[1].text, DirOf(ts[0]))
    requires Simple(ts[2..] + more, args, rs[1..] + [x])
    ensures Simple(ts + more, args, rs + [x])
  {
    SimpleRedir(ts[0], ts[1].text, ts[2..] + more, args, rs[1..] + [x]);
    Regroup([ts[0], ts[1]], ts[2..], more, ts);
    Regroup([rs[0]], rs[1..], [x], rs);
  }

  lemma {:induction false} SimpleEnd(ts: seq<Lexeme>, args: seq<string>, rs: seq<(string, Direction)>, op: Lexeme, file: string)
    requires Simple(ts, args, rs) && IsOp(op)
    ensures Simple(ts + [op, Word(file)], args, rs + [(file, DirOf(op))])
    decreases |ts|
  {
    var more, x := [op, Word(file)], (file, DirOf(op));
    if ts == [] {
      SimpleRedir(op, file, [], [], []);
      assert more + [] == [] + more && [x] + [] == [] + [x];
    } else if ts[0].Word? {
      SimpleEnd(ts[1..], args[1..], rs, op, file);
      EndWord(ts, args, more, rs + [x]);
    } else {
      SimpleEnd(ts[2..], args, rs[1..], op, file);
      EndRedir(ts, args, rs, more, x);
    }
  }

  lemma Regroup<T>(a: seq<T>, b: seq<T>, c: seq<T>, ab: seq<T>)
    requires a + b == ab
    ensures a + (b + c) == ab + c
  {
  }

  /** A line in parentheses is a command. */
  lemma ParenDerived(ts: seq<Lexeme>, t: Tree)
    requires IsLine(ts, t)
    ensures IsExec([Sym('(')] + ts + [Sym(')')], t)
  {
    var all, m := [Sym('(')] + ts + [Sym(')')], |ts| + 1;
    assert all[1..m] == ts && all[m + 1..] == [] && all[m] == Sym(')');
    assert IsBlock(all, m, t, []);
    assert t == Wrap(t, []);
  }

  /** Two parts joined by a symbol. */
  lemma Joined(a: seq<Lexeme>, l: Lexeme, b: seq<Lexeme>)
    ensures var ts := a + [l] + b; ts[..|a|] == a && ts[|a|] == l && ts[|a| + 1..] == b
  {
  }

  lemma {:induction false} BodyDerived(t: Tree)
    requires Printable(t) && (t.List? || t.Back? || t.Pipe?)
    ensures IsLine(BodyOf(t), t) && (t.Back? ==> IsJob(BodyOf(t), t)) && (t.Pipe? ==> IsPipe(BodyOf(t), t))
    decreases t, 0
  {
    match t
    case List(l, r) =>
      JobDerived(l);
      LineDerived(r);
      Joined(JobOf(l), Sym(';'), LineOf(r));
      assert ListAt(BodyOf(t), t, |JobOf(l)|);
    case Back(c) =>
      JobDerived(c);
      assert BodyOf(t)[..|BodyOf(t)| - 1] == JobOf(c);
    case Pipe(l, r) =>
      ExecDerived(l);
      PipeDerived(r);
      Joined(ExecOf(l), Sym('|'), PipeOf(r));
      assert PipeAt(BodyOf(t), t, |ExecOf(l)|);
  }

  lemma {:induction false} ExecDerived(t: Tree)
    requires Printable(t)
    ensures IsExec(ExecOf(t), t)
    decreases t, 1
  {
    match t
    case Exec(args) =>
      ArgsDerived(args);
      SimpleIsExec(ExecOf(t), args, []);
    case Redir(c, file, dir) =>
      ExecDerived(c);
      RedirDerived(ExecOf(c), c, if dir.Input? then '<' else '>', file, dir);
    case _ =>
      BodyDerived(t);
      ParenDerived(BodyOf(t), t);
  }

  lemma {:induction false} PipeDerived(t: Tree)
    requires Printable(t)
    ensures IsPipe(PipeOf(t), t)
    decreases t, 2
  {
    if t.Pipe? {
      BodyDerived(t);
    } else {
      ExecDerived(t);
    }
  }

  lemma {:induction false} JobDerived(t: Tree)
    requires Printable(t)
    ensures IsJob(JobOf(t), t)
    decreases t, 3
  {
    if t.Back? {
      BodyDerived(t);
    } else {
      PipeDerived(t);
    }
  }

  /** The printed form of a tree is a line of the grammar with that tree. */
  lemma {:induction false} LineDerived(t: Tree)
    requires Printable(t)
    ensures IsLine(LineOf(t), t)
    decreases t, 4
  {
    if t.List? {
      BodyDerived(t);
    } else {
      JobDerived(t);
    }
  }

  // ---------------------------------------------------------------- words and symbols as text

  predicate Writable(l: Lexeme) {
    match l
    case Word(w) => PlainWord(w)
    case Sym(c) => c == '+' || Symbol(c)
  }

  function Show(l: Lexeme): string {
    match l
    case Word(w) => w
    case Sym(c) => if c == '+' then ">>" else [c]
  }

  /** The lexemes with a blank behind each. */
  function Render(ts: seq<Lexeme>): string {
    if ts == [] then "" else Show(ts[0]) + " " + Render(ts[1..])
  }

  lemma {:induction false} WordEnds(s: string, i: nat, e: nat)
    requires i <= e < |s| && (forall k :: i <= k < e ==> Plain(s[k])) && s[e] == ' '
    ensures WordEnd(s, i) == e
    decreases e - i
  {
    if i < e {
      WordEnds(s, i + 1, e);
    }
  }

  /** A lexeme with a blank behind it is read as itself. */
  lemma ShownIsRead(s: string, i: nat, l: Lexeme, e: nat)
    requires Writable(l) && i < e == i + |Show(l)| < |s| && s[i..e] == Show(l) && s[e] == ' '
    ensures GetToken(s, i).kind != END && Lexed(s, GetToken(s, i)) == l && GetToken(s, i).next == SkipWhite(s, e)
  {
    assert s[i..e][0] == s[i];
    if l.Word? {
      ShownWord(s, i, e);
    } else {
      assert l.c == '+' ==> s[i..e][1] == s[i + 1];
    }
  }

  lemma ShownWord(s: string, i: nat, e: nat)
    requires i < e < |s| && PlainWord(s[i..e]) && s[e] == ' '
    ensures GetToken(s, i) == Token('a', Tok(i, e), SkipWhite(s, e))
  {
    forall k | i <= k < e ensures Plain(s[k]) {
      assert s[i..e][k - i] == s[k];
    }
    WordEnds(s, i, e);
  }

  lemma Blank(s: string, e: nat, next: nat)
    requires e < |s| && s[e] == ' ' && next == e + 1
    ensures Lex(s, SkipWhite(s, e)) == Lex(s, next)
  {
    LexSkip(s, next, SkipWhite(s, next));
  }

  lemma RenderSlices(s: string, i: nat, w: string, tail: string, e: nat, next: nat)
    requires i <= |s| && s[i..] == w + " " + tail && e == i + |w| && next == e + 1
    ensures next <= |s| && s[i..e] == w && s[e] == ' ' && s[next..] == tail
  {
    assert s[i..][..|w|] == s[i..e] && s[i..][|w|] == s[e] && s[i..][|w| + 1..] == s[next..];
  }

  lemma RenderStep(s: string, i: nat, ts: seq<Lexeme>, next: nat)
    requires i <= |s| && ts != [] && s[i..] == Render(ts) && Writable(ts[0]) && next == i + |Show(ts[0])| + 1
    ensures next <= |s| && s[next..] == Render(ts[1..]) && Lex(s, i) == [ts[0]] + Lex(s, next)
  {
    var w := Show(ts[0]);
    var e := i + |w|;
    RenderSlices(s, i, w, Render(ts[1..]), e, next);
    ShownIsRead(s, i, ts[0], e);
    Blank(s, e, next);
    LexUnfold(s, i);
  }

  lemma {:induction false} RenderedLexes(s: string, i: nat, ts: seq<Lexeme>)
    requires i <= |s| && s[i..] == Render(ts) && AllWritable(ts)
    ensures Lex(s, i) == ts
    decreases |ts|
  {
    if ts != [] {
      var next := i + |Show(ts[0])| + 1;
      RenderStep(s, i, ts, next);
      RenderedLexes(s, next, ts[1..]);
    }
  }

  ghost predicate AllWritable(ts: seq<Lexeme>) {
    forall k :: 0 <= k < |ts| ==> Writable(ts[k])
  }

  lemma WritableJoin(a: seq<Lexeme>, c: char, b: seq<Lexeme>)
    requires AllWritable(a) && AllWritable(b) && Symbol(c)
    ensures AllWritable(a + [Sym(c)] + b)
  {
  }

  lemma WritableParen(a: seq<Lexeme>)
    requires AllWritable(a)
    ensures AllWritable([Sym('(')] + a + [Sym(')')])
  {
  }

  lemma WritableRedir(a: seq<Lexeme>, c: char, file: string)
    requires AllWritable(a) && Symbol(c) && PlainWord(file)
    ensures AllWritable(a + [Sym(c), Word(file)])
  {
  }

  lemma {:induction false} ExecWritable(t: Tree)
    requires Printable(t)
    ensures AllWritable(ExecOf(t))
    decreases t, 1
  {
    match t
    case Exec(args) =>
    case Redir(c, file, dir) =>
      ExecWritable(c);
      WritableRedir(ExecOf(c), if dir.Input? then '<' else '>', file);
    case _ =>
      BodyWritable(t);
      WritableParen(BodyOf(t));
  }

  lemma {:induction false} BodyWritable(t: Tree)
    requires Printable(t)
    ensures AllWritable(BodyOf(t))
    decreases t, 0
  {
    match t
    case List(l, r) =>
      JobWritable(l);
      LineWritable(r);
      WritableJoin(JobOf(l), ';', LineOf(r));
    case Back(c) =>
      JobWritable(c);
      WritableJoin(JobOf(c), '&', []);
      assert JobOf(c) + [Sym('&')] + [] == JobOf(c) + [Sym('&')];
    case Pipe(l, r) =>
      ExecWritable(l);
      PipeWritable(r);
      WritableJoin(ExecOf(l), '|', PipeOf(r));
    case _ =>
  }

  lemma {:induction false} PipeWritable(t: Tree)
    requires Printable(t)
    ensures AllWritable(PipeOf(t))
    decreases t, 2
  {
    BodyWritable(t);
    ExecWritable(t);
  }

  lemma {:induction false} JobWritable(t: Tree)
    requires Printable(t)
    ensures AllWritable(JobOf(t))
    decreases t, 3
  {
    BodyWritable(t);
    PipeWritable(t);
  }

  lemma {:induction false} LineWritable(t: Tree)
    requires Printable(t)
    ensures AllWritable(LineOf(t))
    decreases t, 4
  {
    BodyWritable(t);
    JobWritable(t);
  }

  /** Parsing the printed form of a tree gives that tree. */
  lemma RoundTrip(t: Tree)
    requires Printable(t)
    ensures var s := Render(LineOf(t)); ParseCmd(s).Ok? && Text(s, ParseCmd(s).cmd) == t
  {
    var s := Render(LineOf(t));
    LineDerived(t);
    LineWritable(t);
    assert s[0..] == s;
    RenderedLexes(s, 0, LineOf(t));
    ParsesGrammar(s, t);
  }

  /** ">>" redirects just as ">" does: it opens the file for output, and does not append. */
  lemma AppendIsOutput(file: string, rest: seq<Lexeme>, rs: seq<(string, Direction)>)
    ensures TakeRedirs([Sym('+'), Word(file)] + rest, rs) == TakeRedirs([Sym('>'), Word(file)] + rest, rs)
    ensures TakeRedirs([Sym('+'), Word(file)] + rest, rs) == TakeRedirs(rest, rs + [(file, Output)])
  {
    assert ([Sym('+'), Word(file)] + rest)[2..] == rest && ([Sym('>'), Word(file)] + rest)[2..] == rest;
  }
}
