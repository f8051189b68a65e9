/**
 What the parser of sh.c computes: command trees whose words are ranges of the input line.
 `s` is the line without its NUL, positions in it stand for pointers, and |s| is where the NUL is.
 A syntax error stops the shell and is Panic here.
 */
module ShellSyntax {
  const MAXARGS := 10

  /** A word: the characters from q up to eq. */
  datatype Tok = Tok(q: nat, eq: nat)

  datatype Direction = Input | Output

  datatype Cmd<T> =
    | Exec(args: seq<T>)
    | Redir(cmd: Cmd<T>, file: T, dir: Direction)
    | Pipe(left: Cmd<T>, right: Cmd<T>)
    | List(left: Cmd<T>, right: Cmd<T>)
    | Back(cmd: Cmd<T>)

  datatype Result = Ok(cmd: Cmd<Tok>, pos: nat) | Panic

  predicate White(c: char) {
    c in " \t\r\n\U{0b}"
  }

  predicate Symbol(c: char) {
    c in "<|>&;()"
  }

  predicate Plain(c: char) {
    !White(c) && !Symbol(c)
  }

  function SkipWhite(s: string, i: nat): (r: nat)
    requires i <= |s|
    ensures i <= r <= |s| && (r < |s| ==> !White(s[r])) && (i < |s| && !White(s[i]) ==> r == i)
    decreases |s| - i
  {
    if i < |s| && White(s[i]) then SkipWhite(s, i + 1) else i
  }

  function WordEnd(s: string, i: nat): (r: nat)
    requires i <= |s|
    ensures i <= r <= |s| && (r < |s| ==> !Plain(s[r])) && (forall k :: i <= k < r ==> Plain(s[k])) && (i < |s| && Plain(s[i]) ==> i < r)
    decreases |s| - i
  {
    if i < |s| && Plain(s[i]) then WordEnd(s, i + 1) else i
  }

  /** Token kinds: the end, a word 'a', '+' for >>, or a symbol standing for itself. */
  datatype Token = Token(kind: char, tok: Tok, next: nat)

  const END := '\0'

  /** A word of the line: plain characters, with none to follow it. */
  ghost predicate IsWord(s: string, t: Tok) {
    t.q < t.eq <= |s| && (forall k :: t.q <= k < t.eq ==> Plain(s[k])) && (t.eq < |s| ==> !Plain(s[t.eq]))
  }

  function GetToken(s: string, i: nat): (g: Token)
    requires i <= |s|
    ensures i <= g.next <= |s| && (g.kind == 'a' ==> IsWord(s, g.tok)) && (g.kind != END ==> i < g.next)
  {
    var q := SkipWhite(s, i);
    if q == |s| then Token(END, Tok(q, q), q)
    else if s[q] == '>' then
      if q + 1 < |s| && s[q + 1] == '>' then Token('+', Tok(q, q + 2), SkipWhite(s, q + 2))
      else Token('>', Tok(q, q + 1), SkipWhite(s, q + 1))
    else if Symbol(s[q]) then Token(s[q], Tok(q, q + 1), SkipWhite(s, q + 1))
    else Token('a', Tok(q, WordEnd(s, q)), SkipWhite(s, WordEnd(s, q)))
  }

  lemma {:induction false} Skipped(s: string, i: nat, k: nat)
    requires i <= |s| && i <= k < SkipWhite(s, i)
    ensures s[k] in " \t\r\n\U{0b}"
    decreases k - i
  {
    if i < k {
      Skipped(s, i + 1, k);
    }
  }

  /** What a token is: behind white space, the end, a symbol, ">>", or as many other characters as follow; then white space again. */
  lemma TokenMeans(s: string, i: nat, q: nat, e: nat)
    requires i <= |s| && q == GetToken(s, i).tok.q && e == GetToken(s, i).tok.eq
    ensures var g := GetToken(s, i);
      && i <= q <= e <= g.next <= |s| && (forall k :: i <= k < q || e <= k < g.next ==> s[k] in " \t\r\n\U{0b}")
      && (g.next < |s| ==> s[g.next] !in " \t\r\n\U{0b}")
      && (q == |s| ==> g.kind == '\0')
      && (q < |s| && s[q] == '>' && q + 1 < |s| && s[q + 1] == '>' ==> g.kind == '+' && e == q + 2)
      && (q < |s| && s[q] in "<|&;()" ==> g.kind == s[q] && e == q + 1)
      && (q < |s| && s[q] == '>' && !(q + 1 < |s| && s[q + 1] == '>') ==> g.kind == '>' && e == q + 1)
      && (q < |s| && s[q] !in "<|>&;()" ==> g.kind == 'a' && q < e && (forall k :: q <= k < e ==> s[k] !in "<|>&;() \t\r\n\U{0b}"))
      && (q < |s| && s[q] !in "<|>&;()" && e < |s| ==> s[e] in "<|>&;() \t\r\n\U{0b}")
  {
    var g := GetToken(s, i);
    forall k | i <= k < q ensures s[k] in " \t\r\n\U{0b}" {
      Skipped(s, i, k);
    }
    forall k | e <= k < g.next ensures s[k] in " \t\r\n\U{0b}" {
      Skipped(s, e, k);
    }
  }

  /** Is the next character one of toks? */
  predicate Sees(s: string, i: nat, toks: string)
    requires i <= |s|
  {
    var j := SkipWhite(s, i);
    j < |s| && s[j] in toks
  }

  // ---------------------------------------------------------------- parsing

  datatype Redirs = Redirs(list: seq<(Tok, Direction)>, pos: nat) | BadRedir

  function ParseRedirs(s: string, i: nat, list: seq<(Tok, Direction)>): (r: Redirs)
    requires i <= |s| && forall k :: 0 <= k < |list| ==> IsWord(s, list[k].0)
    ensures r.Redirs? ==> i <= r.pos <= |s| && forall k :: 0 <= k < |r.list| ==> IsWord(s, r.list[k].0)
    decreases |s| - i
  {
    var j := SkipWhite(s, i);
    if !Sees(s, i, "<>") then Redirs(list, j)
    else
      var op := GetToken(s, j);
      var w := GetToken(s, op.next);
      if w.kind != 'a' then BadRedir
      else ParseRedirs(s, w.next, list + [(w.tok, if op.kind == '<' then Input else Output)])
  }

  /** One turn of parseredirs's loop. */
  lemma RedirsTurn(s: string, i: nat, j: nat, list: seq<(Tok, Direction)>, op: Token, w: Token)
    requires i <= |s| && (forall k :: 0 <= k < |list| ==> IsWord(s, list[k].0)) && Sees(s, i, "<>") && j == SkipWhite(s, i)
    requires op == GetToken(s, j) && w == GetToken(s, op.next)
    ensures i < w.next || w.kind != 'a'
    ensures ParseRedirs(s, i, list) == if w.kind != 'a' then BadRedir
      else ParseRedirs(s, w.next, list + [(w.tok, if op.kind == '<' then Input else Output)])
  {
  }

  /** Redirections wrapped around a command, the first innermost. */
  function Wrap<T>(cmd: Cmd<T>, list: seq<(T, Direction)>): Cmd<T>
    decreases |list|
  {
    if list == [] then cmd else Redir(Wrap(cmd, list[..|list| - 1]), list[|list| - 1].0, list[|list| - 1].1)
  }

  /** All words of the tree are words of the line. */
  ghost predicate Good(s: string, c: Cmd<Tok>) {
    match c
    case Exec(args) => forall k :: 0 <= k < |args| ==> IsWord(s, args[k])
    case Redir(d, file, _) => IsWord(s, file) && Good(s, d)
    case Pipe(l, r) => Good(s, l) && Good(s, r)
    case List(l, r) => Good(s, l) && Good(s, r)
    case Back(d) => Good(s, d)
  }

  lemma {:induction false} WrapGood(s: string, c: Cmd<Tok>, list: seq<(Tok, Direction)>)
    requires Good(s, c) && forall k :: 0 <= k < |list| ==> IsWord(s, list[k].0)
    ensures Good(s, Wrap(c, list))
    decreases |list|
  {
    if list != [] {
      WrapGood(s, c, list[..|list| - 1]);
    }
  }

  /** The loop of parseexec over words and redirections. */
  function ParseArgs(s: string, i: nat, args: seq<Tok>, list: seq<(Tok, Direction)>): (r: Result)
    requires i <= |s| && (forall k :: 0 <= k < |args| ==> IsWord(s, args[k])) && forall k :: 0 <= k < |list| ==> IsWord(s, list[k].0)
    ensures r.Ok? ==> i <= r.pos <= |s| && Good(s, r.cmd)
    decreases |s| - i
  {
    WrapGood(s, Exec(args), list);
    var j := SkipWhite(s, i);
    if Sees(s, i, "|)&;") then Ok(Wrap(Exec(args), list), j)
    else
      var g := GetToken(s, j);
      if g.kind == END then Ok(Wrap(Exec(args), list), g.next)
      else if g.kind != 'a' || |args| + 1 >= MAXARGS then Panic
      else
        var rd := ParseRedirs(s, g.next, list);
        if rd.BadRedir? then Panic else ParseArgs(s, rd.pos, args + [g.tok], rd.list)
  }

  /** One turn of parseexec's loop. */
  lemma ArgsTurn(s: string, i: nat, j: nat, args: seq<Tok>, list: seq<(Tok, Direction)>, g: Token)
    requires i <= |s| && (forall k :: 0 <= k < |args| ==> IsWord(s, args[k])) && forall k :: 0 <= k < |list| ==> IsWord(s, list[k].0)
    requires !Sees(s, i, "|)&;") && j == SkipWhite(s, i) && g == GetToken(s, j)
    ensures i < g.next || g.kind == END
    ensures ParseArgs(s, i, args, list) ==
      if g.kind == END then Ok(Wrap(Exec(args), list), g.next)
      else if g.kind != 'a' || |args| + 1 >= MAXARGS then Panic
      else
        var rd := ParseRedirs(s, g.next, list);
        if rd.BadRedir? then Panic else ParseArgs(s, rd.pos, args + [g.tok], rd.list)
  {
  }

  function ParseExec(s: string, i: nat): (r: Result)
    requires i <= |s|
    ensures r.Ok? ==> i <= r.pos <= |s| && Good(s, r.cmd)
    decreases |s| - i, 1
  {
    var j := SkipWhite(s, i);
    if Sees(s, i, "(") then ParseBlock(s, j)
    else
      var rd := ParseRedirs(s, j, []);
      if rd.BadRedir? then Panic else ParseArgs(s, rd.pos, [], rd.list)
  }

  function ParseBlock(s: string, i: nat): (r: Result)
    requires i <= |s| && Sees(s, i, "(")
    ensures r.Ok? ==> i <= r.pos <= |s| && Good(s, r.cmd)
    decreases |s| - i, 0
  {
    var inner := ParseLine(s, GetToken(s, i).next);
    if inner.Panic? || !Sees(s, inner.pos, ")") then Panic
    else
      var rd := ParseRedirs(s, GetToken(s, SkipWhite(s, inner.pos)).next, []);
      if rd.BadRedir? then Panic
      else
        WrapGood(s, inner.cmd, rd.list);
        Ok(Wrap(inner.cmd, rd.list), rd.pos)
  }

  function ParsePipe(s: string, i: nat): (r: Result)
    requires i <= |s|
    ensures r.Ok? ==> i <= r.pos <= |s| && Good(s, r.cmd)
    decreases |s| - i, 2
  {
    var l := ParseExec(s, i);
    if l.Panic? then Panic
    else
      var j := SkipWhite(s, l.pos);
      if !Sees(s, l.pos, "|") then Ok(l.cmd, j)
      else
        var r := ParsePipe(s, GetToken(s, j).next);
        if r.Panic? then Panic else Ok(Pipe(l.cmd, r.cmd), r.pos)
  }

  /** The loop of parseline over '&'. */
  function ParseBacks(s: string, c: Cmd<Tok>, i: nat): (r: Result)
    requires i <= |s| && Good(s, c)
    ensures r.Ok? && i <= r.pos <= |s| && Good(s, r.cmd) && !Sees(s, r.pos, "&") && SkipWhite(s, r.pos) == r.pos
    decreases |s| - i
  {
    var j := SkipWhite(s, i);
    if Sees(s, i, "&") then ParseBacks(s, Back(c), GetToken(s, j).next) else Ok(c, j)
  }

  function ParseLine(s: string, i: nat): (r: Result)
    requires i <= |s|
    ensures r.Ok? ==> i <= r.pos <= |s| && Good(s, r.cmd)
    decreases |s| - i, 3
  {
    var p := ParsePipe(s, i);
    if p.Panic? then Panic
    else
      var b := ParseBacks(s, p.cmd, p.pos);
      if !Sees(s, b.pos, ";") then b
      else
        var r := ParseLine(s, GetToken(s, b.pos).next);
        if r.Panic? then Panic else Ok(List(b.cmd, r.cmd), r.pos)
  }

  /** parsecmd: the whole line must be used up. */
  function ParseCmd(s: string): (r: Result)
    ensures r.Ok? ==> r.pos == |s| && Good(s, r.cmd)
  {
    var r := ParseLine(s, 0);
    if r.Ok? && SkipWhite(s, r.pos) == |s| then Ok(r.cmd, |s|) else Panic
  }
}
