/** The shell's grammar (sh.c): tokens and the recursive-descent parser as functions of
    the line and a position in it. */
module ShellSyntax {

  const MAXARGS := 10

  predicate IsSpace(c: char) {
    c == ' ' || c == '\t' || c == '\r' || c == '\n' || c == '\U{0b}'
  }

  predicate IsSymbol(c: char) {
    c == '<' || c == '|' || c == '>' || c == '&' || c == ';' || c == '(' || c == ')'
  }

  predicate IsWord(c: char) {
    !IsSpace(c) && !IsSymbol(c)
  }

  // ---- Tokens ------------------------------------------------------------------------------------

  function SkipSpace(s: string, i: nat): (r: nat)
    requires i <= |s|
    ensures i <= r <= |s| && (forall k :: i <= k < r ==> IsSpace(s[k])) && (r < |s| ==> !IsSpace(s[r]))
    decreases |s| - i
  {
    if i < |s| && IsSpace(s[i]) then SkipSpace(s, i + 1) else i
  }

  function WordEnd(s: string, i: nat): (r: nat)
    requires i <= |s|
    ensures i <= r <= |s| && (forall k :: i <= k < r ==> IsWord(s[k])) && (r < |s| ==> !IsWord(s[r]))
    decreases |s| - i
  {
    if i < |s| && IsWord(s[i]) then WordEnd(s, i + 1) else i
  }

  // gettoken's result: what, from where to where, and where the next one starts.
  datatype Kind = End | Symbol(c: char) | Append | Word

  datatype Token = Token(kind: Kind, q: nat, eq: nat, next: nat)

  function TokenAt(s: string, i: nat): (t: Token)
    requires i <= |s|
    ensures i <= t.q <= t.eq <= t.next <= |s| && (!t.kind.End? ==> t.q < t.eq)
    ensures t.kind.Word? ==> SpanOk(s, Span(t.q, t.eq))
  {
    var q := SkipSpace(s, i);
    if q == |s| then Token(End, q, q, q)
    else if s[q] == '>' then
      if q + 1 < |s| && s[q + 1] == '>' then Token(Append, q, q + 2, SkipSpace(s, q + 2))
      else Token(Symbol('>'), q, q + 1, SkipSpace(s, q + 1))
    else if IsSymbol(s[q]) then Token(Symbol(s[q]), q, q + 1, SkipSpace(s, q + 1))
    else Token(Word, q, WordEnd(s, q), SkipSpace(s, WordEnd(s, q)))
  }

  // peek: the next character, spaces skipped, is c.
  predicate SeesAt(s: string, q: nat, c: char) {
    q < |s| && s[q] == c
  }

  // ---- Trees ------------------------------------------------------------------------------------

  // A token's place in the line.
  datatype Span = Span(q: nat, eq: nat)

  // A whole word: what follows it is not part of a word.
  predicate SpanOk(s: string, w: Span) {
    w.q < w.eq <= |s| && (forall k :: w.q <= k < w.eq ==> IsWord(s[k])) && (w.eq < |s| ==> !IsWord(s[w.eq]))
  }

  // <, > and >>
  datatype Mode = In | Out | Add

  datatype Redirect = Redirect(file: Span, mode: Mode)

  datatype Tree =
    | Exec(args: seq<Span>)
    | Redir(cmd: Tree, to: Redirect)
    | Pipe(left: Tree, right: Tree)
    | List(left: Tree, right: Tree)
    | Back(cmd: Tree)

  predicate TreeOk(s: string, t: Tree) {
    match t
    case Exec(args) => |args| < MAXARGS && forall i :: 0 <= i < |args| ==> SpanOk(s, args[i])
    case Redir(cmd, to) => TreeOk(s, cmd) && SpanOk(s, to.file)
    case Pipe(l, r) => TreeOk(s, l) && TreeOk(s, r)
    case List(l, r) => TreeOk(s, l) && TreeOk(s, r)
    case Back(cmd) => TreeOk(s, cmd)
  }

  // redircmd around a command for each redirection, the first innermost.
  function Wrap(t: Tree, rs: seq<Redirect>): (r: Tree)
    decreases |rs|
  {
    if rs == [] then t else Redir(Wrap(t, rs[..|rs| - 1]), rs[|rs| - 1])
  }

  // ---- The parser ---------------------------------------------------------------------------------

  datatype Parsed<T> = Got(v: T, at: nat) | Panic

  predicate RedirectsOk(s: string, rs: seq<Redirect>) {
    forall i :: 0 <= i < |rs| ==> SpanOk(s, rs[i].file)
  }

  predicate SpansOk(s: string, ws: seq<Span>) {
    forall i :: 0 <= i < |ws| ==> SpanOk(s, ws[i])
  }

  function ModeOf(k: Kind): Mode {
    if k == Symbol('<') then In else if k == Append then Add else Out
  }

  // parseredirs, with those already read.
  function Redirects(s: string, i: nat, rs: seq<Redirect>): (p: Parsed<seq<Redirect>>)
    requires i <= |s| && RedirectsOk(s, rs)
    ensures p.Got? ==> i <= p.at <= |s| && RedirectsOk(s, p.v)
    decreases |s| - i
  {
    var q := SkipSpace(s, i);
    if SeesAt(s, q, '<') || SeesAt(s, q, '>') then
      var op := TokenAt(s, q);
      var f := TokenAt(s, op.next);
      if !f.kind.Word? then Panic else Redirects(s, f.next, rs + [Redirect(Span(f.q, f.eq), ModeOf(op.kind))])
    else Got(rs, q)
  }

  // The loop of parseexec.
  function Arguments(s: string, i: nat, args: seq<Span>, rs: seq<Redirect>): (p: Parsed<Tree>)
    requires i <= |s| && SpansOk(s, args) && |args| < MAXARGS && RedirectsOk(s, rs)
    ensures p.Got? ==> i <= p.at <= |s| && TreeOk(s, p.v)
    decreases |s| - i
  {
    var q := SkipSpace(s, i);
    if SeesAt(s, q, '|') || SeesAt(s, q, ')') || SeesAt(s, q, '&') || SeesAt(s, q, ';') then
      WrapOk(s, Exec(args), rs);
      Got(Wrap(Exec(args), rs), q)
    else
      var w := TokenAt(s, q);
      if w.kind.End? then
        WrapOk(s, Exec(args), rs);
        Got(Wrap(Exec(args), rs), w.next)
      else if !w.kind.Word? || |args| + 1 >= MAXARGS then Panic
      else
        var more := Redirects(s, w.next, rs);
        if more.Panic? then Panic else Arguments(s, more.at, args + [Span(w.q, w.eq)], more.v)
  }

  lemma {:induction false} WrapOk(s: string, t: Tree, rs: seq<Redirect>)
    requires TreeOk(s, t) && RedirectsOk(s, rs)
    ensures TreeOk(s, Wrap(t, rs))
    decreases |rs|
  {
    if rs != [] {
      WrapOk(s, t, rs[..|rs| - 1]);
    }
  }

  function ExecAt(s: string, i: nat): (p: Parsed<Tree>)
    requires i <= |s|
    ensures p.Got? ==> i <= p.at <= |s| && TreeOk(s, p.v)
    decreases |s| - i, 2
  {
    var q := SkipSpace(s, i);
    if SeesAt(s, q, '(') then BlockAt(s, q)
    else
      var first := Redirects(s, q, []);
      if first.Panic? then Panic else Arguments(s, first.at, [], first.v)
  }

  // parseblock at its "(".
  function BlockAt(s: string, i: nat): (p: Parsed<Tree>)
    requires SeesAt(s, i, '(')
    ensures p.Got? ==> i <= p.at <= |s| && TreeOk(s, p.v)
    decreases |s| - i, 1
  {
    var inner := LineAt(s, TokenAt(s, i).next);
    if inner.Panic? then Panic
    else
      var q := SkipSpace(s, inner.at);
      if !SeesAt(s, q, ')') then Panic
      else
        var rs := Redirects(s, TokenAt(s, q).next, []);
        if rs.Panic? then Panic
        else
          WrapOk(s, inner.v, rs.v);
          Got(Wrap(inner.v, rs.v), rs.at)
  }

  function PipeAt(s: string, i: nat): (p: Parsed<Tree>)
    requires i <= |s|
    ensures p.Got? ==> i <= p.at <= |s| && TreeOk(s, p.v)
    decreases |s| - i, 3
  {
    var left := ExecAt(s, i);
    if left.Panic? then Panic
    else
      var q := SkipSpace(s, left.at);
      if !SeesAt(s, q, '|') then Got(left.v, q)
      else
        var right := PipeAt(s, TokenAt(s, q).next);
        if right.Panic? then Panic else Got(Pipe(left.v, right.v), right.at)
  }

  // The loop of parseline over "&".
  function Backs(s: string, i: nat, t: Tree): (p: Parsed<Tree>)
    requires i <= |s| && TreeOk(s, t)
    ensures p.Got? && i <= p.at <= |s| && TreeOk(s, p.v)
    decreases |s| - i
  {
    var q := SkipSpace(s, i);
    if SeesAt(s, q, '&') then Backs(s, TokenAt(s, q).next, Back(t)) else Got(t, q)
  }

  function LineAt(s: string, i: nat): (p: Parsed<Tree>)
    requires i <= |s|
    ensures p.Got? ==> i <= p.at <= |s| && TreeOk(s, p.v)
    decreases |s| - i, 4
  {
    var first := PipeAt(s, i);
    if first.Panic? then Panic
    else
      var left := Backs(s, first.at, first.v);
      if !SeesAt(s, left.at, ';') then left
      else
        var right := LineAt(s, TokenAt(s, left.at).next);
        if right.Panic? then Panic else Got(List(left.v, right.v), right.at)
  }

  // parsecmd, up to nulterminate.
  function Command(s: string): (p: Parsed<Tree>)
    ensures p.Got? ==> p.at == |s| && TreeOk(s, p.v)
  {
    var line := LineAt(s, 0);
    if line.Panic? || SkipSpace(s, line.at) != |s| then Panic else Got(line.v, |s|)
  }
}
