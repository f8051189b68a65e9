/**
 The grammar of sh.c's command lines, over words and symbols, and the proof that the parser
 accepts exactly the lines of the grammar and gives them the tree the grammar gives them.
 */
module ShellGrammar {
  import opened ShellSyntax

  /** A line's words and symbols; the symbol '+' is ">>". */
  datatype Lexeme = Word(text: string) | Sym(c: char)

  type Tree = Cmd<string>

  // ---------------------------------------------------------------- the grammar

  predicate IsOp(l: Lexeme) {
    l == Sym('<') || l == Sym('>') || l == Sym('+')
  }

  function DirOf(l: Lexeme): Direction {
    if l == Sym('<') then Input else Output
  }

  /** Words and redirections in any order: args are the words, rs the redirections. */
  ghost predicate Simple(ts: seq<Lexeme>, args: seq<string>, rs: seq<(string, Direction)>) {
    if ts == [] then args == [] && rs == []
    else if ts[0].Word? then args != [] && args[0] == ts[0].text && Simple(ts[1..], args[1..], rs)
    else
      && |ts| >= 2 && IsOp(ts[0]) && ts[1].Word? && rs != [] && rs[0] == (ts[1].text, DirOf(ts[0]))
      && Simple(ts[2..], args, rs[1..])
  }

  /** A simple command of at most nine words, or a line in parentheses with redirections behind it. */
  ghost predicate IsExec(ts: seq<Lexeme>, t: Tree)
    decreases |ts|, 1
  {
    || (exists args, rs :: Simple(ts, args, rs) && |args| < MAXARGS && t == Wrap(Exec(args), rs))
    || (exists m, inner, rs :: IsBlock(ts, m, inner, rs) && t == Wrap(inner, rs))
  }

  ghost predicate IsBlock(ts: seq<Lexeme>, m: nat, inner: Tree, rs: seq<(string, Direction)>)
    decreases |ts|, 0
  {
    0 < m < |ts| && ts[0] == Sym('(') && ts[m] == Sym(')') && IsLine(ts[1..m], inner) && Simple(ts[m + 1..], [], rs)
  }

  /** Commands joined by '|', which groups to the right. */
  ghost predicate IsPipe(ts: seq<Lexeme>, t: Tree)
    decreases |ts|, 3
  {
    IsExec(ts, t) || exists m :: PipeAt(ts, t, m)
  }

  ghost predicate PipeAt(ts: seq<Lexeme>, t: Tree, m: nat)
    decreases |ts|, 2
  {
    m < |ts| && ts[m] == Sym('|') && t.Pipe? && IsExec(ts[..m], t.left) && IsPipe(ts[m + 1..], t.right)
  }

  /** A pipeline with any number of '&' behind it. */
  ghost predicate IsJob(ts: seq<Lexeme>, t: Tree)
    decreases |ts|, 4
  {
    IsPipe(ts, t) || (ts != [] && ts[|ts| - 1] == Sym('&') && t.Back? && IsJob(ts[..|ts| - 1], t.cmd))
  }

  /** Jobs joined by ';', which groups to the right. */
  ghost predicate IsLine(ts: seq<Lexeme>, t: Tree)
    decreases |ts|, 6
  {
    IsJob(ts, t) || exists m :: ListAt(ts, t, m)
  }

  ghost predicate ListAt(ts: seq<Lexeme>, t: Tree, m: nat)
    decreases |ts|, 5
  {
    m < |ts| && ts[m] == Sym(';') && t.List? && IsJob(ts[..m], t.left) && IsLine(ts[m + 1..], t.right)
  }

  // ---------------------------------------------------------------- words and symbols of a line

  ghost function TextOf(s: string, t: Tok): string
    requires IsWord(s, t)
  {
    s[t.q..t.eq]
  }

  ghost function Lexed(s: string, g: Token): Lexeme
    requires g.kind == 'a' ==> IsWord(s, g.tok)
  {
    if g.kind == 'a' then Word(TextOf(s, g.tok)) else Sym(g.kind)
  }

  ghost function Lex(s: string, i: nat): seq<Lexeme>
    requires i <= |s|
    decreases |s| - i
  {
    var g := GetToken(s, i);
    if g.kind == END then [] else [Lexed(s, g)] + Lex(s, g.next)
  }

  lemma TokenSkip(s: string, i: nat)
    requires i <= |s|
    ensures GetToken(s, SkipWhite(s, i)) == GetToken(s, i)
  {
    assert SkipWhite(s, SkipWhite(s, i)) == SkipWhite(s, i);
  }

  lemma LexSkip(s: string, i: nat, j: nat)
    requires i <= |s| && j == SkipWhite(s, i)
    ensures GetToken(s, j) == GetToken(s, i) && Lex(s, j) == Lex(s, i)
  {
    TokenSkip(s, i);
    LexUnfold(s, i);
    LexUnfold(s, j);
  }

  lemma LexUnfold(s: string, i: nat)
    requires i <= |s|
    ensures Lex(s, i) == var g := GetToken(s, i); if g.kind == END then [] else [Lexed(s, g)] + Lex(s, g.next)
  {
  }

  lemma LexNext(s: string, i: nat)
    requires i <= |s|
    ensures GetToken(s, i).kind == END <==> Lex(s, i) == []
    ensures Lex(s, i) != [] ==> Lex(s, i)[0] == Lexed(s, GetToken(s, i)) && Lex(s, GetToken(s, i).next) == Lex(s, i)[1..]
  {
  }

  ghost predicate Starts(ts: seq<Lexeme>, c: char) {
    ts != [] && ts[0] == Sym(c)
  }

  ghost predicate StartsOp(ts: seq<Lexeme>) {
    ts != [] && IsOp(ts[0])
  }

  /** What may follow a simple command. */
  ghost predicate Stops(ts: seq<Lexeme>) {
    Starts(ts, '|') || Starts(ts, ')') || Starts(ts, '&') || Starts(ts, ';')
  }

  lemma SeesOp(s: string, i: nat)
    requires i <= |s|
    ensures Sees(s, i, "<>") <==> StartsOp(Lex(s, i))
  {
  }

  lemma SeesStop(s: string, i: nat)
    requires i <= |s|
    ensures Sees(s, i, "|)&;") <==> Stops(Lex(s, i))
  {
  }

  lemma SeesSym(s: string, i: nat, c: char)
    requires i <= |s| && c in "(|)&;"
    ensures Sees(s, i, [c]) <==> Starts(Lex(s, i), c)
  {
  }

  // ---------------------------------------------------------------- the texts of parsed trees

  ghost function Words(s: string, ts: seq<Tok>): (r: seq<string>)
    requires forall k :: 0 <= k < |ts| ==> IsWord(s, ts[k])
    ensures |r| == |ts|
  {
    seq(|ts|, k requires 0 <= k < |ts| && IsWord(s, ts[k]) => TextOf(s, ts[k]))
  }

  ghost function Files(s: string, list: seq<(Tok, Direction)>): (r: seq<(string, Direction)>)
    requires forall k :: 0 <= k < |list| ==> IsWord(s, list[k].0)
    ensures |r| == |list|
  {
    seq(|list|, k requires 0 <= k < |list| && IsWord(s, list[k].0) => (TextOf(s, list[k].0), list[k].1))
  }

  /** The tree with each word replaced by its text. */
  ghost function Text(s: string, c: Cmd<Tok>): Tree
    requires Good(s, c)
  {
    match c
    case Exec(args) => Exec(Words(s, args))
    case Redir(d, file, dir) => Redir(Text(s, d), TextOf(s, file), dir)
    case Pipe(l, r) => Pipe(Text(s, l), Text(s, r))
    case List(l, r) => List(Text(s, l), Text(s, r))
    case Back(d) => Back(Text(s, d))
  }

  lemma {:induction false} WrapText(s: string, c: Cmd<Tok>, list: seq<(Tok, Direction)>)
    requires Good(s, c) && forall k :: 0 <= k < |list| ==> IsWord(s, list[k].0)
    ensures Good(s, Wrap(c, list)) && Text(s, Wrap(c, list)) == Wrap(Text(s, c), Files(s, list))
    decreases |list|
  {
    if list != [] {
      var n := |list| - 1;
      WrapText(s, c, list[..n]);
      assert Files(s, list)[..n] == Files(s, list[..n]);
    }
  }

  lemma WordsMore(s: string, args: seq<Tok>, t: Tok)
    requires (forall k :: 0 <= k < |args| ==> IsWord(s, args[k])) && IsWord(s, t)
    ensures Words(s, args + [t]) == Words(s, args) + [TextOf(s, t)]
  {
  }

  lemma FilesMore(s: string, list: seq<(Tok, Direction)>, x: (Tok, Direction))
    requires (forall k :: 0 <= k < |list| ==> IsWord(s, list[k].0)) && IsWord(s, x.0)
    ensures Files(s, list + [x]) == Files(s, list) + [(TextOf(s, x.0), x.1)]
  {
  }

  // ---------------------------------------------------------------- the parser on words and symbols

  datatype Parsed = Done(t: Tree, rest: seq<Lexeme>) | Fail

  datatype ParsedFiles = Files(rs: seq<(string, Direction)>, rest: seq<Lexeme>) | NoFiles

  ghost function TakeRedirs(ts: seq<Lexeme>, rs: seq<(string, Direction)>): (r: ParsedFiles)
    ensures r.Files? ==> |r.rest| <= |ts|
  {
    if !StartsOp(ts) then ParsedFiles.Files(rs, ts)
    else if |ts| < 2 || !ts[1].Word? then NoFiles
    else TakeRedirs(ts[2..], rs + [(ts[1].text, DirOf(ts[0]))])
  }

  ghost function TakeArgs(ts: seq<Lexeme>, args: seq<string>, rs: seq<(string, Direction)>): (r: Parsed)
    ensures r.Done? ==> |r.rest| <= |ts|
    decreases |ts|
  {
    if ts == [] || Stops(ts) then Done(Wrap(Exec(args), rs), ts)
    else if !ts[0].Word? || |args| + 1 >= MAXARGS then Fail
    else
      var rd := TakeRedirs(ts[1..], rs);
      if rd.NoFiles? then Fail else TakeArgs(rd.rest, args + [ts[0].text], rd.rs)
  }

  ghost function TakeExec(ts: seq<Lexeme>): (r: Parsed)
    ensures r.Done? ==> |r.rest| <= |ts|
    decreases |ts|, 1
  {
    if Starts(ts, '(') then TakeBlock(ts)
    else
      var rd := TakeRedirs(ts, []);
      if rd.NoFiles? then Fail else TakeArgs(rd.rest, [], rd.rs)
  }

  ghost function TakeBlock(ts: seq<Lexeme>): (r: Parsed)
    requires Starts(ts, '(')
    ensures r.Done? ==> |r.rest| <= |ts|
    decreases |ts|, 0
  {
    var inner := TakeLine(ts[1..]);
    if inner.Fail? || !Starts(inner.rest, ')') then Fail
    else
      var rd := TakeRedirs(inner.rest[1..], []);
      if rd.NoFiles? then Fail else Done(Wrap(inner.t, rd.rs), rd.rest)
  }

  ghost function TakePipe(ts: seq<Lexeme>): (r: Parsed)
    ensures r.Done? ==> |r.rest| <= |ts|
    decreases |ts|, 2
  {
    var l := TakeExec(ts);
    if l.Fail? || !Starts(l.rest, '|') then l
    else
      var r := TakePipe(l.rest[1..]);
      if r.Fail? then Fail else Done(Pipe(l.t, r.t), r.rest)
  }

  ghost function TakeBacks(t: Tree, ts: seq<Lexeme>): (r: Parsed)
    ensures r.Done? && |r.rest| <= |ts|
    decreases |ts|
  {
    if Starts(ts, '&') then TakeBacks(Back(t), ts[1..]) else Done(t, ts)
  }

  ghost function TakeLine(ts: seq<Lexeme>): (r: Parsed)
    ensures r.Done? ==> |r.rest| <= |ts|
    decreases |ts|, 3
  {
    var p := TakePipe(ts);
    if p.Fail? then Fail
    else
      var b := TakeBacks(p.t, p.rest);
      if !Starts(b.rest, ';') then b
      else
        var r := TakeLine(b.rest[1..]);
        if r.Fail? then Fail else Done(List(b.t, r.t), r.rest)
  }

  // ---------------------------------------------------------------- the parser of the text does the same

  ghost predicate SameFiles(s: string, r: Redirs, p: ParsedFiles) {
    match r
    case BadRedir => p.NoFiles?
    case Redirs(list, pos) =>
      && pos <= |s| && (forall k :: 0 <= k < |list| ==> IsWord(s, list[k].0))
      && p == ParsedFiles.Files(Files(s, list), Lex(s, pos))
  }

  ghost predicate Same(s: string, r: Result, p: Parsed) {
    match r
    case Panic => p.Fail?
    case Ok(c, pos) => pos <= |s| && Good(s, c) && p == Done(Text(s, c), Lex(s, pos))
  }

  lemma {:induction false} SameRedirs(s: string, i: nat, list: seq<(Tok, Direction)>)
    requires i <= |s| && forall k :: 0 <= k < |list| ==> IsWord(s, list[k].0)
    ensures SameFiles(s, ParseRedirs(s, i, list), TakeRedirs(Lex(s, i), Files(s, list)))
    decreases |s| - i
  {
    var j := SkipWhite(s, i);
    SeesOp(s, i);
    LexSkip(s, i, j);
    if Sees(s, i, "<>") {
      var op := GetToken(s, j);
      LexNext(s, j);
      var w := GetToken(s, op.next);
      LexNext(s, op.next);
      if w.kind == 'a' {
        var x := (w.tok, if op.kind == '<' then Input else Output);
        FilesMore(s, list, x);
        SameRedirs(s, w.next, list + [x]);
        assert Lex(s, i)[2..] == Lex(s, i)[1..][1..];
      }
    }
  }

  lemma {:induction false} SameArgs(s: string, i: nat, args: seq<Tok>, list: seq<(Tok, Direction)>)
    requires i <= |s| && (forall k :: 0 <= k < |args| ==> IsWord(s, args[k])) && forall k :: 0 <= k < |list| ==> IsWord(s, list[k].0)
    ensures Same(s, ParseArgs(s, i, args, list), TakeArgs(Lex(s, i), Words(s, args), Files(s, list)))
    decreases |s| - i
  {
    var j := SkipWhite(s, i);
    SeesStop(s, i);
    LexSkip(s, i, j);
    WrapText(s, Exec(args), list);
    if !Sees(s, i, "|)&;") {
      var g := GetToken(s, j);
      LexNext(s, j);
      if g.kind == END {
        EndLexes(s, j);
      } else if g.kind == 'a' && |args| + 1 < MAXARGS {
        SameRedirs(s, g.next, list);
        WordsMore(s, args, g.tok);
        var rd := ParseRedirs(s, g.next, list);
        if rd.Redirs? {
          SameArgs(s, rd.pos, args + [g.tok], rd.list);
        }
      }
    }
  }

  lemma EndLexes(s: string, j: nat)
    requires j <= |s| && GetToken(s, j).kind == END
    ensures Lex(s, GetToken(s, j).next) == []
  {
  }

  lemma {:induction false} SameExec(s: string, i: nat)
    requires i <= |s|
    ensures Same(s, ParseExec(s, i), TakeExec(Lex(s, i)))
    decreases |s| - i, 1
  {
    var j := SkipWhite(s, i);
    SeesSym(s, i, '(');
    LexSkip(s, i, j);
    if Sees(s, i, "(") {
      SameBlock(s, j);
    } else {
      SameRedirs(s, j, []);
      var rd := ParseRedirs(s, j, []);
      if rd.Redirs? {
        SameArgs(s, rd.pos, [], rd.list);
      }
    }
  }

  lemma {:induction false} SameBlock(s: string, i: nat)
    requires i <= |s| && Sees(s, i, "(") && Starts(Lex(s, i), '(')
    ensures Same(s, ParseBlock(s, i), TakeBlock(Lex(s, i)))
    decreases |s| - i, 0
  {
    LexNext(s, i);
    var inner := ParseLine(s, GetToken(s, i).next);
    SameLine(s, GetToken(s, i).next);
    if inner.Ok? {
      SeesSym(s, inner.pos, ')');
      if Sees(s, inner.pos, ")") {
        var j := SkipWhite(s, inner.pos);
        LexSkip(s, inner.pos, j);
        LexNext(s, j);
        var rd := ParseRedirs(s, GetToken(s, j).next, []);
        SameRedirs(s, GetToken(s, j).next, []);
        if rd.Redirs? {
          WrapText(s, inner.cmd, rd.list);
        }
      }
    }
  }

  lemma {:induction false} SamePipe(s: string, i: nat)
    requires i <= |s|
    ensures Same(s, ParsePipe(s, i), TakePipe(Lex(s, i)))
    decreases |s| - i, 2
  {
    SameExec(s, i);
    var l := ParseExec(s, i);
    if l.Ok? {
      var j := SkipWhite(s, l.pos);
      SeesSym(s, l.pos, '|');
      LexSkip(s, l.pos, j);
      if Sees(s, l.pos, "|") {
        var k := GetToken(s, j).next;
        LexNext(s, j);
        SamePipe(s, k);
        PipeUnfold(s, i, l, j, k);
      }
    }
  }

  lemma PipeUnfold(s: string, i: nat, l: Result, j: nat, k: nat)
    requires i <= |s| && l == ParseExec(s, i) && l.Ok? && Sees(s, l.pos, "|") && j == SkipWhite(s, l.pos) && k == GetToken(s, j).next
    ensures i < k && ParsePipe(s, i) == var r := ParsePipe(s, k); if r.Panic? then Panic else Ok(Pipe(l.cmd, r.cmd), r.pos)
  {
  }

  lemma {:induction false} SameBacks(s: string, c: Cmd<Tok>, i: nat)
    requires i <= |s| && Good(s, c)
    ensures Same(s, ParseBacks(s, c, i), TakeBacks(Text(s, c), Lex(s, i)))
    decreases |s| - i
  {
    var j := SkipWhite(s, i);
    SeesSym(s, i, '&');
    LexSkip(s, i, j);
    if Sees(s, i, "&") {
      LexNext(s, j);
      SameBacks(s, Back(c), GetToken(s, j).next);
    }
  }

  lemma {:induction false} SameLine(s: string, i: nat)
    requires i <= |s|
    ensures Same(s, ParseLine(s, i), TakeLine(Lex(s, i)))
    decreases |s| - i, 3
  {
    SamePipe(s, i);
    var p := ParsePipe(s, i);
    if p.Ok? {
      SameBacks(s, p.cmd, p.pos);
      var b := ParseBacks(s, p.cmd, p.pos);
      SeesSym(s, b.pos, ';');
      if Sees(s, b.pos, ";") {
        LexNext(s, b.pos);
        SameLine(s, GetToken(s, b.pos).next);
      }
    }
  }

  // ---------------------------------------------------------------- what is accepted is in the grammar

  lemma SimpleWord(w: string, ts: seq<Lexeme>, args: seq<string>, rs: seq<(string, Direction)>)
    requires Simple(ts, args, rs)
    ensures Simple([Word(w)] + ts, [w] + args, rs)
  {
    assert ([Word(w)] + ts)[1..] == ts && ([w] + args)[1..] == args;
  }

  lemma SimpleRedir(op: Lexeme, w: string, ts: seq<Lexeme>, args: seq<string>, rs: seq<(string, Direction)>)
    requires Simple(ts, args, rs) && IsOp(op)
    ensures Simple([op, Word(w)] + ts, args, [(w, DirOf(op))] + rs)
  {
    assert ([op, Word(w)] + ts)[2..] == ts && ([(w, DirOf(op))] + rs)[1..] == rs;
  }

  lemma {:induction false} SimpleConcat(a: seq<Lexeme>, rs: seq<(string, Direction)>, b: seq<Lexeme>, args: seq<string>, rs': seq<(string, Direction)>)
    requires Simple(a, [], rs) && Simple(b, args, rs')
    ensures Simple(a + b, args, rs + rs')
    decreases |a|
  {
    if a == [] {
      assert a + b == b && rs + rs' == rs';
    } else {
      SimpleConcat(a[2..], rs[1..], b, args, rs');
      SimpleRedir(a[0], a[1].text, a[2..] + b, args, rs[1..] + rs');
      assert [a[0], Word(a[1].text)] + (a[2..] + b) == a + b && [rs[0]] + (rs[1..] + rs') == rs + rs';
    }
  }

  /** The first n lexemes, and what is behind them. */
  ghost predicate Cut(ts: seq<Lexeme>, n: nat, rest: seq<Lexeme>) {
    n <= |ts| && rest == ts[n..]
  }

  lemma {:induction false} RedirsSound(ts: seq<Lexeme>, rs: seq<(string, Direction)>) returns (n: nat, more: seq<(string, Direction)>)
    requires TakeRedirs(ts, rs).Files?
    ensures var r := TakeRedirs(ts, rs); Cut(ts, n, r.rest) && r.rs == rs + more && Simple(ts[..n], [], more)
    decreases |ts|
  {
    if !StartsOp(ts) {
      n, more := 0, [];
    } else {
      var x := (ts[1].text, DirOf(ts[0]));
      var m, tail := RedirsSound(ts[2..], rs + [x]);
      n, more := m + 2, [x] + tail;
      assert ts[..n][2..] == ts[2..][..m] && ts[2..][m..] == ts[n..];
      assert more[1..] == tail;
    }
  }

  lemma Assoc<T>(a: seq<T>, b: seq<T>, c: seq<T>)
    ensures a + b + c == a + (b + c)
  {
  }

  lemma Slices(ts: seq<Lexeme>, k: nat, m: nat, n: nat)
    requires 1 + k + m == n <= |ts|
    ensures ts[..n] == [ts[0]] + (ts[1..][..k] + ts[1..][k..][..m]) && ts[1..][k..][m..] == ts[n..]
  {
  }

  lemma {:induction false} ArgsSound(ts: seq<Lexeme>, args: seq<string>, rs: seq<(string, Direction)>)
      returns (n: nat, words: seq<string>, more: seq<(string, Direction)>)
    requires TakeArgs(ts, args, rs).Done? && |args| < MAXARGS
    ensures var r := TakeArgs(ts, args, rs);
      Cut(ts, n, r.rest) && r.t == Wrap(Exec(args + words), rs + more) && Simple(ts[..n], words, more) && |args + words| < MAXARGS
    decreases |ts|
  {
    if ts == [] || Stops(ts) {
      n, words, more := 0, [], [];
      assert args + words == args && rs + more == rs;
    } else {
      var w := ts[0].text;
      var rd := TakeRedirs(ts[1..], rs);
      var k, mid := RedirsSound(ts[1..], rs);
      var m, words1, more1 := ArgsSound(rd.rest, args + [w], rd.rs);
      n, words, more := 1 + k + m, [w] + words1, mid + more1;
      Slices(ts, k, m, n);
      SimpleConcat(ts[1..][..k], mid, rd.rest[..m], words1, more1);
      SimpleWord(w, ts[1..][..k] + rd.rest[..m], words1, more);
      Assoc(args, [w], words1);
      Assoc(rs, mid, more1);
    }
  }

  lemma Empty<T>(a: seq<T>)
    ensures [] + a == a
  {
  }

  lemma TwoSlices(ts: seq<Lexeme>, k: nat, m: nat, n: nat)
    requires k + m == n <= |ts|
    ensures ts[..k] + ts[k..][..m] == ts[..n] && ts[k..][m..] == ts[n..]
  {
  }

  lemma SimpleIsExec(ts: seq<Lexeme>, args: seq<string>, rs: seq<(string, Direction)>)
    requires Simple(ts, args, rs) && |args| < MAXARGS
    ensures IsExec(ts, Wrap(Exec(args), rs))
  {
  }

  lemma SimpleSound(ts: seq<Lexeme>) returns (n: nat)
    requires !Starts(ts, '(') && TakeExec(ts).Done?
    ensures Cut(ts, n, TakeExec(ts).rest) && IsExec(ts[..n], TakeExec(ts).t)
  {
    var rd := TakeRedirs(ts, []);
    var k, mid := RedirsSound(ts, []);
    Empty(mid);
    var m, words, more := ArgsSound(rd.rest, [], mid);
    Empty(words);
    n := k + m;
    TwoSlices(ts, k, m, n);
    SimpleConcat(ts[..k], mid, rd.rest[..m], words, more);
    SimpleIsExec(ts[..n], words, mid + more);
  }

  lemma BlockSlices(ts: seq<Lexeme>, m: nat, k: nat, n: nat)
    requires m < |ts| && m + 1 + k == n <= |ts| && 0 < m
    ensures ts[..n][1..m] == ts[1..][..m - 1] && ts[1..][m - 1..][1..] == ts[m + 1..]
    ensures ts[..n][m + 1..] == ts[m + 1..][..k] && ts[m + 1..][k..] == ts[n..]
  {
  }

  /** A line of l lexemes behind '(', then ')' at m, then redirections of k lexemes from p on. */
  lemma BlockParts(ts: seq<Lexeme>, l: nat, m: nat, p: nat, k: nat, n: nat, inner: Tree, rs: seq<(string, Direction)>)
    requires Starts(ts, '(') && m == l + 1 && p == m + 1 && n == p + k <= |ts| && ts[m] == Sym(')')
    requires IsLine(ts[1..][..l], inner) && Simple(ts[p..][..k], [], rs)
    ensures IsExec(ts[..n], Wrap(inner, rs)) && ts[p..][k..] == ts[n..]
  {
    BlockSlices(ts, m, k, n);
    assert IsBlock(ts[..n], m, inner, rs);
  }

  lemma BlockTail(ts: seq<Lexeme>, l: nat, m: nat, p: nat)
    requires m == l + 1 && p == m + 1 <= |ts|
    ensures ts[1..][l..][0] == ts[m] && ts[1..][l..][1..] == ts[p..]
  {
  }

  /** What parseblock has read when it succeeds. */
  lemma BlockUnfold(ts: seq<Lexeme>) returns (inner: Parsed, rd: ParsedFiles)
    requires Starts(ts, '(') && TakeBlock(ts).Done?
    ensures inner == TakeLine(ts[1..]) && inner.Done? && Starts(inner.rest, ')')
    ensures rd == TakeRedirs(inner.rest[1..], []) && rd.Files? && TakeBlock(ts) == Done(Wrap(inner.t, rd.rs), rd.rest)
  {
    inner := TakeLine(ts[1..]);
    rd := TakeRedirs(inner.rest[1..], []);
  }

  lemma {:induction false} BlockSound(ts: seq<Lexeme>) returns (n: nat)
    requires Starts(ts, '(') && TakeBlock(ts).Done?
    ensures Cut(ts, n, TakeBlock(ts).rest) && IsExec(ts[..n], TakeBlock(ts).t)
    decreases |ts|, 0
  {
    var inner, rd := BlockUnfold(ts);
    var l := LineSound(ts[1..]);
    n := BlockRest(ts, l, inner, rd);
  }

  lemma BlockRest(ts: seq<Lexeme>, l: nat, inner: Parsed, rd: ParsedFiles) returns (n: nat)
    requires Starts(ts, '(') && inner.Done? && Cut(ts[1..], l, inner.rest) && IsLine(ts[1..][..l], inner.t) && Starts(inner.rest, ')')
    requires rd == TakeRedirs(inner.rest[1..], []) && rd.Files?
    ensures Cut(ts, n, rd.rest) && IsExec(ts[..n], Wrap(inner.t, rd.rs))
  {
    var m, p := l + 1, l + 2;
    BlockTail(ts, l, m, p);
    var k, rs := RedirsSound(ts[p..], []);
    Empty(rs);
    n := p + k;
    BlockParts(ts, l, m, p, k, n, inner.t, rs);
  }

  lemma {:induction false} ExecSound(ts: seq<Lexeme>) returns (n: nat)
    requires TakeExec(ts).Done?
    ensures Cut(ts, n, TakeExec(ts).rest) && IsExec(ts[..n], TakeExec(ts).t)
    decreases |ts|, 1
  {
    if Starts(ts, '(') {
      n := BlockSound(ts);
    } else {
      n := SimpleSound(ts);
    }
  }

  /** Two parts joined by a symbol at m. */
  lemma JoinSlices(ts: seq<Lexeme>, m: nat, k: nat, n: nat)
    requires m + 1 + k == n <= |ts|
    ensures ts[m..][1..] == ts[m + 1..] && ts[..n][..m] == ts[..m] && ts[..n][m] == ts[m]
    ensures ts[..n][m + 1..] == ts[m + 1..][..k] && ts[m + 1..][k..] == ts[n..]
  {
  }

  lemma {:induction false} PipeSound(ts: seq<Lexeme>) returns (n: nat)
    requires TakePipe(ts).Done?
    ensures Cut(ts, n, TakePipe(ts).rest) && IsPipe(ts[..n], TakePipe(ts).t)
    decreases |ts|, 2
  {
    var l := TakeExec(ts);
    var m := ExecSound(ts);
    if Starts(l.rest, '|') {
      var k := PipeSound(l.rest[1..]);
      n := m + 1 + k;
      JoinSlices(ts, m, k, n);
      assert PipeAt(ts[..n], TakePipe(ts).t, m);
    } else {
      n := m;
    }
  }

  lemma {:induction false} BacksSound(t: Tree, all: seq<Lexeme>, m: nat) returns (n: nat)
    requires m <= |all| && IsJob(all[..m], t)
    ensures var r := TakeBacks(t, all[m..]); Cut(all, n, r.rest) && IsJob(all[..n], r.t)
    decreases |all| - m
  {
    if Starts(all[m..], '&') {
      var k := m + 1;
      assert all[m..][1..] == all[k..] && all[..k][..m] == all[..m];
      assert IsJob(all[..k], Back(t));
      n := BacksSound(Back(t), all, k);
    } else {
      n := m;
    }
  }

  lemma {:induction false} LineSound(ts: seq<Lexeme>) returns (n: nat)
    requires TakeLine(ts).Done?
    ensures Cut(ts, n, TakeLine(ts).rest) && IsLine(ts[..n], TakeLine(ts).t)
    decreases |ts|, 3
  {
    var p := TakePipe(ts);
    var m := PipeSound(ts);
    var b := TakeBacks(p.t, p.rest);
    var j := BacksSound(p.t, ts, m);
    if Starts(b.rest, ';') {
      var k := LineSound(b.rest[1..]);
      n := j + 1 + k;
      JoinSlices(ts, j, k, n);
      assert ListAt(ts[..n], TakeLine(ts).t, j);
    } else {
      n := j;
    }
  }

  // ---------------------------------------------------------------- what is in the grammar is accepted

  lemma {:induction false} RedirsComplete(ts: seq<Lexeme>, n: nat, got: seq<(string, Direction)>, rs: seq<(string, Direction)>)
    requires n <= |ts| && Simple(ts[..n], [], rs) && !StartsOp(ts[n..])
    ensures TakeRedirs(ts, got) == ParsedFiles.Files(got + rs, ts[n..])
    decreases n
  {
    if n == 0 {
      assert ts[n..] == ts && got + rs == got;
    } else {
      assert ts[..n][0] == ts[0] && ts[..n][1] == ts[1];
      assert ts[2..][..n - 2] == ts[..n][2..] && ts[2..][n - 2..] == ts[n..];
      RedirsComplete(ts[2..], n - 2, got + [rs[0]], rs[1..]);
      Assoc(got, [rs[0]], rs[1..]);
      assert [rs[0]] + rs[1..] == rs;
    }
  }

  /** The redirections before the first word. */
  lemma {:induction false} FirstWord(ts: seq<Lexeme>, args: seq<string>, rs: seq<(string, Direction)>)
      returns (k: nat, before: seq<(string, Direction)>, after: seq<(string, Direction)>)
    requires Simple(ts, args, rs)
    ensures k <= |ts| && Simple(ts[..k], [], before) && Simple(ts[k..], args, after) && rs == before + after && (k < |ts| ==> ts[k].Word?)
    decreases |ts|
  {
    if ts == [] || ts[0].Word? {
      k, before, after := 0, [], rs;
      assert ts[0..] == ts && before + after == rs;
    } else {
      var j, b, a := FirstWord(ts[2..], args, rs[1..]);
      k, before, after := j + 2, [rs[0]] + b, a;
      SimpleRedir(ts[0], ts[1].text, ts[2..][..j], [], b);
      assert [ts[0], Word(ts[1].text)] + ts[2..][..j] == ts[..k] && ts[2..][j..] == ts[k..];
      Assoc([rs[0]], b, a);
      assert [rs[0]] + rs[1..] == rs;
    }
  }

  /** One turn of parseexec's loop. */
  lemma ArgStep(ts: seq<Lexeme>, got: seq<string>, had: seq<(string, Direction)>, have: seq<(string, Direction)>, next: seq<Lexeme>)
    requires ts != [] && ts[0].Word? && |got| + 1 < MAXARGS && TakeRedirs(ts[1..], had) == ParsedFiles.Files(have, next)
    ensures TakeArgs(ts, got, had) == TakeArgs(next, got + [ts[0].text], have)
  {
  }

  lemma FirstArg(ts: seq<Lexeme>, n: nat, args: seq<string>, rs: seq<(string, Direction)>)
    requires 0 < n <= |ts| && Simple(ts[..n], args, rs) && ts[0].Word?
    ensures args != [] && args == [ts[0].text] + args[1..] && Simple(ts[1..n], args[1..], rs)
  {
    assert ts[..n][0] == ts[0] && ts[..n][1..] == ts[1..n];
  }

  lemma ArgSlices(ts: seq<Lexeme>, n: nat, k: nat, m: nat, next: seq<Lexeme>)
    requires 0 < n <= |ts| && 1 + k + m == n && next == ts[1..][k..]
    ensures ts[1..n][..k] == ts[1..][..k] && ts[1..n][k..] == next[..m] && next[m..] == ts[n..]
    ensures if m == 0 then next == ts[n..] else next[0] == ts[1..n][k]
  {
  }

  /** The first word, the redirections behind it, and the m lexemes of the command that are left. */
  lemma NextArg(ts: seq<Lexeme>, n: nat, args: seq<string>, rs: seq<(string, Direction)>)
      returns (k: nat, m: nat, before: seq<(string, Direction)>, after: seq<(string, Direction)>)
    requires 0 < n <= |ts| && Simple(ts[..n], args, rs) && ts[0].Word? && (ts[n..] == [] || Stops(ts[n..]))
    ensures args != [] && args == [ts[0].text] + args[1..] && 1 + k + m == n && rs == before + after
    ensures Simple(ts[1..][..k], [], before) && !StartsOp(ts[1..][k..])
    ensures var next := ts[1..][k..];
      Simple(next[..m], args[1..], after) && next[m..] == ts[n..] && (m > 0 ==> next[0].Word?)
  {
    FirstArg(ts, n, args, rs);
    var body := ts[1..n];
    assert |body| == n - 1;
    k, before, after := FirstWord(body, args[1..], rs);
    m := n - 1 - k;
    ArgSlices(ts, n, k, m, ts[1..][k..]);
  }

  lemma {:induction false} ArgsComplete(ts: seq<Lexeme>, n: nat, got: seq<string>, had: seq<(string, Direction)>, args: seq<string>,
      rs: seq<(string, Direction)>)
    requires n <= |ts| && Simple(ts[..n], args, rs) && (n > 0 ==> ts[0].Word?) && (ts[n..] == [] || Stops(ts[n..]))
    requires |got| + |args| < MAXARGS
    ensures TakeArgs(ts, got, had) == Done(Wrap(Exec(got + args), had + rs), ts[n..])
    decreases n
  {
    if n == 0 {
      assert ts[n..] == ts && got + args == got && had + rs == had;
    } else {
      var k, m, before, after := NextArg(ts, n, args, rs);
      var next, w := ts[1..][k..], ts[0].text;
      RedirsComplete(ts[1..], k, had, before);
      ArgStep(ts, got, had, had + before, next);
      ArgsComplete(next, m, got + [w], had + before, args[1..], after);
      Assoc(got, [w], args[1..]);
      Assoc(had, before, after);
    }
  }

  /** What may follow a pipeline. */
  ghost predicate EndsPipe(ts: seq<Lexeme>) {
    ts == [] || Starts(ts, ')') || Starts(ts, '&') || Starts(ts, ';')
  }

  /** What may follow a line. */
  ghost predicate EndsLine(ts: seq<Lexeme>) {
    ts == [] || Starts(ts, ')')
  }

  lemma SimpleComplete(ts: seq<Lexeme>, n: nat, args: seq<string>, rs: seq<(string, Direction)>)
    requires n <= |ts| && Simple(ts[..n], args, rs) && |args| < MAXARGS && (ts[n..] == [] || Stops(ts[n..]))
    ensures TakeExec(ts) == Done(Wrap(Exec(args), rs), ts[n..])
  {
    var k, before, after := FirstWord(ts[..n], args, rs);
    var next, m := ts[k..], n - k;
    TwoSlices(ts, k, m, n);
    assert ts[..n][..k] == ts[..k] && ts[..n][k..] == next[..m];
    assert if m == 0 then next == ts[n..] else next[0] == ts[..n][k];
    RedirsComplete(ts, k, [], before);
    Empty(before);
    ArgsComplete(next, m, [], before, args, after);
    Empty(args);
    assert !Starts(ts, '(') by {
      assert n > 0 ==> ts[..n][0] == ts[0];
      assert n == 0 ==> ts[n..] == ts;
    }
  }

  lemma {:induction false} BlockComplete(ts: seq<Lexeme>, n: nat, m: nat, inner: Tree, rs: seq<(string, Direction)>)
    requires n <= |ts| && IsBlock(ts[..n], m, inner, rs) && (ts[n..] == [] || Stops(ts[n..]))
    ensures TakeExec(ts) == Done(Wrap(inner, rs), ts[n..])
    decreases n, 0
  {
    var k, l := n - m - 1, m - 1;
    BlockSlices(ts, m, k, n);
    assert ts[..n][0] == ts[0] && ts[..n][m] == ts[m] && ts[1..][l..][0] == ts[m];
    LineComplete(ts[1..], l, inner);
    RedirsComplete(ts[m + 1..], k, [], rs);
    Empty(rs);
  }

  lemma {:induction false} ExecComplete(ts: seq<Lexeme>, n: nat, t: Tree)
    requires n <= |ts| && IsExec(ts[..n], t) && (ts[n..] == [] || Stops(ts[n..]))
    ensures TakeExec(ts) == Done(t, ts[n..])
    decreases n, 1
  {
    if args, rs :| Simple(ts[..n], args, rs) && |args| < MAXARGS && t == Wrap(Exec(args), rs) {
      SimpleComplete(ts, n, args, rs);
    } else {
      var m: nat, inner, rs :| IsBlock(ts[..n], m, inner, rs) && t == Wrap(inner, rs);
      BlockComplete(ts, n, m, inner, rs);
    }
  }

  lemma {:induction false} PipeComplete(ts: seq<Lexeme>, n: nat, t: Tree)
    requires n <= |ts| && IsPipe(ts[..n], t) && EndsPipe(ts[n..])
    ensures TakePipe(ts) == Done(t, ts[n..])
    decreases n, 2
  {
    if IsExec(ts[..n], t) {
      ExecComplete(ts, n, t);
    } else {
      var m: nat :| PipeAt(ts[..n], t, m);
      var k := n - m - 1;
      JoinSlices(ts, m, k, n);
      assert ts[m..][0] == ts[m];
      ExecComplete(ts, m, t.left);
      PipeComplete(ts[m + 1..], k, t.right);
    }
  }

  /** After the pipeline of a job, the loop over '&' comes to the whole job. */
  lemma {:induction false} JobComplete(ts: seq<Lexeme>, n: nat, t: Tree)
    requires n <= |ts| && IsJob(ts[..n], t) && EndsPipe(ts[n..])
    ensures TakePipe(ts).Done? && TakeBacks(TakePipe(ts).t, TakePipe(ts).rest) == TakeBacks(t, ts[n..])
    decreases n, 3
  {
    if IsPipe(ts[..n], t) {
      PipeComplete(ts, n, t);
    } else {
      var m := n - 1;
      assert ts[..n][..m] == ts[..m] && ts[..n][m] == ts[m] && ts[m..][0] == ts[m] && ts[m..][1..] == ts[n..];
      JobComplete(ts, m, t.cmd);
      assert TakeBacks(t.cmd, ts[m..]) == TakeBacks(t, ts[n..]);
    }
  }

  lemma {:induction false} LineComplete(ts: seq<Lexeme>, n: nat, t: Tree)
    requires n <= |ts| && IsLine(ts[..n], t) && EndsLine(ts[n..])
    ensures TakeLine(ts) == Done(t, ts[n..])
    decreases n, 4
  {
    if IsJob(ts[..n], t) {
      JobComplete(ts, n, t);
    } else {
      var m: nat :| ListAt(ts[..n], t, m);
      var k := n - m - 1;
      JoinSlices(ts, m, k, n);
      assert ts[m..][0] == ts[m];
      JobComplete(ts, m, t.left);
      LineComplete(ts[m + 1..], k, t.right);
    }
  }

  // ---------------------------------------------------------------- the theorem

  lemma UsedUp(s: string, i: nat)
    requires i <= |s|
    ensures SkipWhite(s, i) == |s| <==> Lex(s, i) == []
  {
    LexNext(s, i);
  }

  /** parsecmd accepts a line with tree t exactly if the grammar derives the line's words and symbols with tree t. */
  lemma ParsesGrammar(s: string, t: Tree)
    ensures IsLine(Lex(s, 0), t) <==> ParseCmd(s).Ok? && Text(s, ParseCmd(s).cmd) == t
  {
    var ts, r := Lex(s, 0), ParseLine(s, 0);
    SameLine(s, 0);
    if r.Ok? {
      UsedUp(s, r.pos);
    }
    if IsLine(ts, t) {
      assert ts[..|ts|] == ts;
      LineComplete(ts, |ts|, t);
    }
    if ParseCmd(s).Ok? {
      var n := LineSound(ts);
      assert ts[..n] == ts;
    }
  }

  /** What the result of parsecmd says about the line. */
  ghost predicate Judged(s: string, r: Result) {
    match r
    case Ok(c, _) => Good(s, c) && IsLine(Lex(s, 0), Text(s, c))
    case Panic => forall t :: !IsLine(Lex(s, 0), t)
  }

  lemma ParseJudges(s: string)
    ensures Judged(s, ParseCmd(s))
  {
    if ParseCmd(s).Ok? {
      ParsesGrammar(s, Text(s, ParseCmd(s).cmd));
    } else {
      forall t ensures !IsLine(Lex(s, 0), t) {
        ParsesGrammar(s, t);
      }
    }
  }

  /** A parsed tree is what the grammar derives from the lexemes between i and where parsing stopped. */
  ghost predicate Took(s: string, i: nat, r: Result, derives: (seq<Lexeme>, Tree) -> bool)
    requires i <= |s|
  {
    r.Ok? ==> r.pos <= |s| && Good(s, r.cmd) && exists n: nat :: Cut(Lex(s, i), n, Lex(s, r.pos)) && derives(Lex(s, i)[..n], Text(s, r.cmd))
  }

  /** parseexec's result: what it takes is a command, and a command that is properly ended is what it takes. */
  ghost predicate ExecJudged(s: string, i: nat, r: Result)
    requires i <= |s|
  {
    && Took(s, i, r, (ts, t) => IsExec(ts, t))
    && forall n: nat, t :: n <= |Lex(s, i)| && IsExec(Lex(s, i)[..n], t) && (Lex(s, i)[n..] == [] || Stops(Lex(s, i)[n..])) ==>
         r.Ok? && r.pos <= |s| && Good(s, r.cmd) && Text(s, r.cmd) == t && Lex(s, r.pos) == Lex(s, i)[n..]
  }

  lemma ExecJudges(s: string, i: nat)
    requires i <= |s|
    ensures ExecJudged(s, i, ParseExec(s, i))
  {
    var ts, r := Lex(s, i), ParseExec(s, i);
    SameExec(s, i);
    if r.Ok? {
      var n := ExecSound(ts);
      assert Cut(ts, n, Lex(s, r.pos)) && IsExec(ts[..n], Text(s, r.cmd));
    }
    forall n: nat, t | n <= |ts| && IsExec(ts[..n], t) && (ts[n..] == [] || Stops(ts[n..]))
      ensures r.Ok? && Text(s, r.cmd) == t && Lex(s, r.pos) == ts[n..]
    {
      ExecComplete(ts, n, t);
    }
  }

  /** parseline's result, likewise. */
  ghost predicate LineJudged(s: string, i: nat, r: Result)
    requires i <= |s|
  {
    && Took(s, i, r, (ts, t) => IsLine(ts, t))
    && forall n: nat, t :: n <= |Lex(s, i)| && IsLine(Lex(s, i)[..n], t) && EndsLine(Lex(s, i)[n..]) ==>
         r.Ok? && r.pos <= |s| && Good(s, r.cmd) && Text(s, r.cmd) == t && Lex(s, r.pos) == Lex(s, i)[n..]
  }

  lemma LineJudges(s: string, i: nat)
    requires i <= |s|
    ensures LineJudged(s, i, ParseLine(s, i))
  {
    var ts, r := Lex(s, i), ParseLine(s, i);
    SameLine(s, i);
    if r.Ok? {
      var n := LineSound(ts);
      assert Cut(ts, n, Lex(s, r.pos)) && IsLine(ts[..n], Text(s, r.cmd));
    }
    forall n: nat, t | n <= |ts| && IsLine(ts[..n], t) && EndsLine(ts[n..])
      ensures r.Ok? && Text(s, r.cmd) == t && Lex(s, r.pos) == ts[n..]
    {
      LineComplete(ts, n, t);
    }
  }
}
