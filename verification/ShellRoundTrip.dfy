/** Printing a command tree and parsing it back (sh.c). */
module ShellRoundTrip {
  import opened ShellSyntax

  // ---- Commands with their words ----------------------------------------------------------------

  datatype Cmd =
    | CExec(args: seq<string>)
    | CRedir(cmd: Cmd, file: string, mode: Mode)
    | CPipe(left: Cmd, right: Cmd)
    | CList(left: Cmd, right: Cmd)
    | CBack(cmd: Cmd)

  function Str(s: string, w: Span): string {
    if w.q <= w.eq <= |s| then s[w.q..w.eq] else ""
  }

  function Strs(s: string, ws: seq<Span>): (r: seq<string>)
    ensures |r| == |ws| && forall i :: 0 <= i < |ws| ==> r[i] == Str(s, ws[i])
  {
    seq(|ws|, i requires 0 <= i < |ws| => Str(s, ws[i]))
  }

  // What the parsed tree says.
  function Text(s: string, t: Tree): Cmd {
    match t
    case Exec(args) => CExec(Strs(s, args))
    case Redir(cmd, to) => CRedir(Text(s, cmd), Str(s, to.file), to.mode)
    case Pipe(l, r) => CPipe(Text(s, l), Text(s, r))
    case List(l, r) => CList(Text(s, l), Text(s, r))
    case Back(cmd) => CBack(Text(s, cmd))
  }

  predicate GoodWord(w: string) {
    w != "" && forall i :: 0 <= i < |w| ==> IsWord(w[i])
  }

  // At most nine arguments, and words that need no quoting.
  predicate WellFormed(c: Cmd) {
    match c
    case CExec(args) => |args| < MAXARGS && forall i :: 0 <= i < |args| ==> GoodWord(args[i])
    case CRedir(cmd, file, _) => WellFormed(cmd) && GoodWord(file)
    case CPipe(l, r) => WellFormed(l) && WellFormed(r)
    case CList(l, r) => WellFormed(l) && WellFormed(r)
    case CBack(cmd) => WellFormed(cmd)
  }

  // ---- Printing -----------------------------------------------------------------------------------

  datatype Tok = TSym(c: char) | TAdd | TWord(w: string)

  predicate TokOk(t: Tok) {
    match t
    case TSym(c) => IsSymbol(c)
    case TAdd => true
    case TWord(w) => GoodWord(w)
  }

  function TokText(t: Tok): string {
    match t
    case TSym(c) => [c]
    case TAdd => ">>"
    case TWord(w) => w
  }

  function ModeTok(m: Mode): Tok {
    match m
    case In => TSym('<')
    case Out => TSym('>')
    case Add => TAdd
  }

  function Words(args: seq<string>): (r: seq<Tok>)
    ensures |r| == |args| && forall i :: 0 <= i < |args| ==> r[i] == TWord(args[i])
  {
    seq(|args|, i requires 0 <= i < |args| => TWord(args[i]))
  }

  // The operators bind, from weakest: ";", "&", "|"; parentheses where they are needed.
  function Inner(c: Cmd): seq<Tok>
    requires c.CPipe? || c.CList? || c.CBack?
    decreases c, 0
  {
    match c
    case CPipe(l, r) => ExecToks(l) + [TSym('|')] + PipeToks(r)
    case CList(l, r) => BackToks(l) + [TSym(';')] + LineToks(r)
    case CBack(x) => BackToks(x) + [TSym('&')]
  }

  function ExecToks(c: Cmd): seq<Tok>
    decreases c, 1
  {
    match c
    case CExec(args) => Words(args)
    case CRedir(x, f, m) => ExecToks(x) + [ModeTok(m), TWord(f)]
    case _ => [TSym('(')] + Inner(c) + [TSym(')')]
  }

  function PipeToks(c: Cmd): seq<Tok>
    decreases c, 2
  {
    if c.CPipe? then Inner(c) else ExecToks(c)
  }

  function BackToks(c: Cmd): seq<Tok>
    decreases c, 3
  {
    if c.CBack? then Inner(c) else PipeToks(c)
  }

  function LineToks(c: Cmd): seq<Tok>
    decreases c, 4
  {
    if c.CList? then Inner(c) else BackToks(c)
  }

  // The first k tokens, each followed by a blank.
  function Upto(ts: seq<Tok>, k: nat): string
    requires k <= |ts|
  {
    if k == 0 then "" else Upto(ts, k - 1) + TokText(ts[k - 1]) + " "
  }

  function Render(ts: seq<Tok>): string {
    Upto(ts, |ts|)
  }

  function Print(c: Cmd): string {
    Render(LineToks(c))
  }

  // ---- Reading the tokens back ------------------------------------------------------------------------

  // Where token k begins.
  function Pos(ts: seq<Tok>, k: nat): nat
    requires k <= |ts|
  {
    |Upto(ts, k)|
  }

  lemma {:induction false} UptoPrefix(ts: seq<Tok>, j: nat, k: nat)
    requires j <= k <= |ts|
    ensures Upto(ts, j) <= Upto(ts, k)
    decreases k
  {
    if j < k {
      UptoPrefix(ts, j, k - 1);
    }
  }

  // Token k stands at its place, followed by a blank.
  lemma RenderAt(ts: seq<Tok>, k: nat)
    requires k < |ts|
    ensures Pos(ts, k + 1) == Pos(ts, k) + |TokText(ts[k])| + 1 <= |Render(ts)|
    ensures Render(ts)[Pos(ts, k)..Pos(ts, k) + |TokText(ts[k])|] == TokText(ts[k])
    ensures Render(ts)[Pos(ts, k) + |TokText(ts[k])|] == ' '
  {
    UptoPrefix(ts, k + 1, |ts|);
    Middle(Render(ts), Upto(ts, k), TokText(ts[k]));
  }

  lemma Middle(s: string, a: string, w: string)
    requires a + w + " " <= s
    ensures |a| + |w| < |s| && s[|a|..|a| + |w|] == w && s[|a| + |w|] == ' '
  {
    var b := a + w + " ";
    assert s[..|b|] == b;
    assert s[|a|..|a| + |w|] == b[|a|..|a| + |w|];
    assert s[|a| + |w|] == b[|a| + |w|];
  }

  // The first character of a token is not a blank.
  lemma FirstChar(t: Tok)
    requires TokOk(t)
    ensures TokText(t) != "" && !IsSpace(TokText(t)[0])
  {
  }

  // Blanks before token k are skipped to it.
  lemma SkipTo(ts: seq<Tok>, k: nat)
    requires k <= |ts| && forall i :: 0 <= i < |ts| ==> TokOk(ts[i])
    ensures Pos(ts, k) <= |Render(ts)| && SkipSpace(Render(ts), Pos(ts, k)) == Pos(ts, k) && (k == |ts| <==> Pos(ts, k) == |Render(ts)|)
  {
    UptoPrefix(ts, k, |ts|);
    if k < |ts| {
      RenderAt(ts, k);
      FirstChar(ts[k]);
      assert Render(ts)[Pos(ts, k)] == Render(ts)[Pos(ts, k)..Pos(ts, k) + |TokText(ts[k])|][0];
    }
  }

  function KindOf(t: Tok): Kind {
    match t
    case TSym(c) => Symbol(c)
    case TAdd => Append
    case TWord(_) => Word
  }

  // A token's text at p, with a blank after it.
  ghost predicate StandsAt(s: string, p: nat, t: Tok, e: nat, next: nat) {
    && TokOk(t) && p <= e < |s| && s[e] == ' ' && s[p..e] == TokText(t) && next == e + 1 <= |s|
    && SkipSpace(s, p) == p && SkipSpace(s, next) == next
  }

  lemma TokenIs(s: string, p: nat, t: Tok, e: nat, next: nat)
    requires StandsAt(s, p, t, e, next)
    ensures TokenAt(s, p) == Token(KindOf(t), p, e, next)
  {
    SkipOne(s, e, next);
    forall i | 0 <= i < |TokText(t)| ensures s[p + i] == TokText(t)[i] {
      assert s[p..e][i] == s[p + i];
    }
    FirstChar(t);
    match t
    case TSym(c) => assert s[p] == TokText(t)[0];
    case TAdd => assert s[p] == TokText(t)[0] && s[p + 1] == TokText(t)[1];
    case TWord(w) =>
      assert s[p] == TokText(t)[0];
      forall k | p <= k < e ensures IsWord(s[k]) {
        assert s[p + (k - p)] == w[k - p];
      }
      WordEndIs(s, p, e);
  }

  lemma SkipOne(s: string, e: nat, next: nat)
    requires e < |s| && s[e] == ' ' && next == e + 1
    ensures SkipSpace(s, e) == SkipSpace(s, next)
  {
  }

  lemma Stands(ts: seq<Tok>, k: nat, k1: nat)
    requires k < |ts| && k1 == k + 1 && forall i :: 0 <= i < |ts| ==> TokOk(ts[i])
    ensures StandsAt(Render(ts), Pos(ts, k), ts[k], Pos(ts, k) + |TokText(ts[k])|, Pos(ts, k1))
  {
    SkipTo(ts, k);
    SkipTo(ts, k1);
    RenderAt(ts, k);
  }

  /** gettoken at the place of token k returns token k and goes on to token k + 1. */
  lemma LexAt(ts: seq<Tok>, k: nat, k1: nat)
    requires k < |ts| && k1 == k + 1 && forall i :: 0 <= i < |ts| ==> TokOk(ts[i])
    ensures Pos(ts, k) <= |Render(ts)| && Pos(ts, k1) <= |Render(ts)|
    ensures TokenAt(Render(ts), Pos(ts, k)) == Token(KindOf(ts[k]), Pos(ts, k), Pos(ts, k) + |TokText(ts[k])|, Pos(ts, k1))
  {
    Stands(ts, k, k1);
    TokenIs(Render(ts), Pos(ts, k), ts[k], Pos(ts, k) + |TokText(ts[k])|, Pos(ts, k1));
  }

  lemma {:induction false} WordEndIs(s: string, i: nat, e: nat)
    requires i <= e < |s| && !IsWord(s[e]) && forall k :: i <= k < e ==> IsWord(s[k])
    ensures WordEnd(s, i) == e
    decreases e - i
  {
    if i < e {
      WordEndIs(s, i + 1, e);
    }
  }

  /** peek at the place of token k sees its first character. */
  lemma SeesTok(ts: seq<Tok>, k: nat, c: char)
    requires k <= |ts| && (forall i :: 0 <= i < |ts| ==> TokOk(ts[i])) && IsSymbol(c)
    ensures SeesAt(Render(ts), Pos(ts, k), c) <==> k < |ts| && (ts[k] == TSym(c) || (ts[k] == TAdd && c == '>'))
  {
    SkipTo(ts, k);
    if k < |ts| {
      RenderAt(ts, k);
      FirstChar(ts[k]);
      var s, p, w := Render(ts), Pos(ts, k), TokText(ts[k]);
      assert s[p] == s[p..p + |w|][0] == w[0];
    }
  }

  // ---- Where the printed tokens stand -----------------------------------------------------------------

  ghost predicate AllOk(ts: seq<Tok>) {
    forall i :: 0 <= i < |ts| ==> TokOk(ts[i])
  }

  // Tokens k up to e are these.
  ghost predicate Has(ts: seq<Tok>, k: nat, e: nat, sub: seq<Tok>) {
    k <= e <= |ts| && ts[k..e] == sub
  }

  lemma HasSplit(ts: seq<Tok>, k: nat, e: nat, a: seq<Tok>, b: seq<Tok>) returns (m: nat)
    requires Has(ts, k, e, a + b)
    ensures m == k + |a| && Has(ts, k, m, a) && Has(ts, m, e, b)
  {
    m := k + |a|;
    assert ts[k..m] == ts[k..e][..|a|] == a;
    assert ts[m..e] == ts[k..e][|a|..] == b;
  }

  lemma HasOne(ts: seq<Tok>, k: nat, e: nat, t: Tok)
    requires Has(ts, k, e, [t])
    ensures k < |ts| && e == k + 1 && ts[k] == t
  {
    assert ts[k] == ts[k..e][0];
  }

  // Two parts with a token between them.
  lemma HasTwo(ts: seq<Tok>, k: nat, e: nat, a: seq<Tok>, t: Tok, b: seq<Tok>) returns (m: nat, m1: nat)
    requires Has(ts, k, e, a + ([t] + b))
    ensures Has(ts, k, m, a) && m < |ts| && ts[m] == t && m1 == m + 1 && Has(ts, m1, e, b)
  {
    m := HasSplit(ts, k, e, a, [t] + b);
    m1 := HasSplit(ts, m, e, [t], b);
    HasOne(ts, m, m1, t);
  }

  // What may follow a line (0), a pipeline or "&" (1), and a simple command (2).
  predicate Closes(c: char, level: nat) {
    c == ')' || (level >= 1 && (c == '&' || c == ';')) || (level >= 2 && c == '|')
  }

  ghost predicate Next(ts: seq<Tok>, e: nat, level: nat) {
    e <= |ts| && (e < |ts| ==> ts[e].TSym? && Closes(ts[e].c, level))
  }

  // ---- Redirections ---------------------------------------------------------------------------------------

  datatype Rd = Rd(file: string, mode: Mode)

  function CWrap(c: Cmd, rs: seq<Rd>): Cmd
    decreases |rs|
  {
    if rs == [] then c else CRedir(CWrap(c, rs[..|rs| - 1]), rs[|rs| - 1].file, rs[|rs| - 1].mode)
  }

  function RdToks(rs: seq<Rd>): (r: seq<Tok>)
    ensures |r| == 2 * |rs|
    decreases |rs|
  {
    if rs == [] then [] else RdToks(rs[..|rs| - 1]) + [ModeTok(rs[|rs| - 1].mode), TWord(rs[|rs| - 1].file)]
  }

  // A command is its base with redirections around it.
  function Base(c: Cmd): Cmd {
    if c.CRedir? then Base(c.cmd) else c
  }

  function Rds(c: Cmd): seq<Rd> {
    if c.CRedir? then Rds(c.cmd) + [Rd(c.file, c.mode)] else []
  }

  lemma {:induction false} Flat(c: Cmd)
    ensures c == CWrap(Base(c), Rds(c)) && ExecToks(c) == ExecToks(Base(c)) + RdToks(Rds(c)) && !Base(c).CRedir?
    ensures WellFormed(c) ==> WellFormed(Base(c))
    decreases c
  {
    if c.CRedir? {
      Flat(c.cmd);
      var rs := Rds(c.cmd) + [Rd(c.file, c.mode)];
      assert rs[..|rs| - 1] == Rds(c.cmd);
    }
  }

  // Redirections read back are the ones printed.
  ghost predicate SameRds(s: string, got: seq<Redirect>, rs: seq<Rd>) {
    |got| == |rs| && forall i :: 0 <= i < |rs| ==> Str(s, got[i].file) == rs[i].file && got[i].mode == rs[i].mode
  }

  lemma {:induction false} WrapText(s: string, t: Tree, got: seq<Redirect>, c: Cmd, rs: seq<Rd>)
    requires Text(s, t) == c && SameRds(s, got, rs)
    ensures Text(s, Wrap(t, got)) == CWrap(c, rs)
    decreases |rs|
  {
    if rs != [] {
      WrapText(s, t, got[..|got| - 1], c, rs[..|rs| - 1]);
    }
  }

  // parseredirs at token k, with `pre` read, ends at token e with `all`.
  ghost predicate RedirectsRead(ts: seq<Tok>, k: nat, pre: seq<Redirect>, all: seq<Redirect>, e: nat) {
    && k <= |ts| && e <= |ts| && Pos(ts, k) <= |Render(ts)| && Pos(ts, e) <= |Render(ts)|
    && RedirectsOk(Render(ts), pre) && RedirectsOk(Render(ts), all)
    && Redirects(Render(ts), Pos(ts, k), pre) == Got(all, Pos(ts, e))
  }

  // The file of a redirection whose name is token k.
  function FileSpan(ts: seq<Tok>, k: nat): Span
    requires k < |ts|
  {
    Span(Pos(ts, k), Pos(ts, k) + |TokText(ts[k])|)
  }

  lemma WordSpan(ts: seq<Tok>, k: nat)
    requires AllOk(ts) && k < |ts| && ts[k].TWord?
    ensures SpanOk(Render(ts), FileSpan(ts, k)) && Str(Render(ts), FileSpan(ts, k)) == ts[k].w
  {
    LexAt(ts, k, k + 1);
    RenderAt(ts, k);
  }

  // One redirection, given what follows it.
  lemma ReadRedirect(ts: seq<Tok>, k: nat, k1: nat, k2: nat, mode: Mode, pre: seq<Redirect>, all: seq<Redirect>, e: nat)
    requires AllOk(ts) && k1 == k + 1 && k2 == k + 2 && k2 <= |ts| && ts[k] == ModeTok(mode) && ts[k1].TWord?
    requires RedirectsOk(Render(ts), pre) && RedirectsRead(ts, k2, pre + [Redirect(FileSpan(ts, k1), mode)], all, e)
    ensures RedirectsRead(ts, k, pre, all, e)
  {
    SkipTo(ts, k);
    SeesTok(ts, k, '<');
    SeesTok(ts, k, '>');
    LexAt(ts, k, k1);
    LexAt(ts, k1, k2);
    RedirectIs(Render(ts), Pos(ts, k), Pos(ts, k1), Pos(ts, k2), FileSpan(ts, k1), mode, pre);
  }

  lemma RedirectIs(s: string, p: nat, p1: nat, p2: nat, file: Span, mode: Mode, pre: seq<Redirect>)
    requires p <= |s| && SkipSpace(s, p) == p && (SeesAt(s, p, '<') || SeesAt(s, p, '>')) && RedirectsOk(s, pre)
    requires TokenAt(s, p).next == p1 <= |s| && ModeOf(TokenAt(s, p).kind) == mode
    requires p1 <= p2 <= |s| && TokenAt(s, p1).kind.Word? && Span(TokenAt(s, p1).q, TokenAt(s, p1).eq) == file && TokenAt(s, p1).next == p2
    ensures RedirectsOk(s, pre + [Redirect(file, mode)]) && Redirects(s, p, pre) == Redirects(s, p2, pre + [Redirect(file, mode)])
  {
  }

  lemma {:induction false} RdToksAt(rs: seq<Rd>, j: nat)
    requires j < |rs|
    ensures RdToks(rs)[2 * j] == ModeTok(rs[j].mode) && RdToks(rs)[2 * j + 1] == TWord(rs[j].file)
    decreases |rs|
  {
    if j < |rs| - 1 {
      RdToksAt(rs[..|rs| - 1], j);
    }
  }

  // The next token begins no redirection.
  ghost predicate NoRedirect(ts: seq<Tok>, e: nat) {
    e <= |ts| && (e < |ts| ==> ts[e] != TSym('<') && ts[e] != TSym('>') && ts[e] != TAdd)
  }

  lemma RedirectsEnd(ts: seq<Tok>, e: nat, pre: seq<Redirect>)
    requires AllOk(ts) && NoRedirect(ts, e) && RedirectsOk(Render(ts), pre)
    ensures RedirectsRead(ts, e, pre, pre, e)
  {
    SkipTo(ts, e);
    SeesTok(ts, e, '<');
    SeesTok(ts, e, '>');
  }

  // Redirection r is printed at token k.
  predicate RdAt(ts: seq<Tok>, k: nat, r: Rd) {
    k + 1 < |ts| && ts[k] == ModeTok(r.mode) && ts[k + 1] == TWord(r.file)
  }

  ghost predicate RdsAt(ts: seq<Tok>, k: nat, e: nat, rs: seq<Rd>) {
    e == k + 2 * |rs| <= |ts| && forall j :: 0 <= j < |rs| ==> RdAt(ts, k + 2 * j, rs[j])
  }

  lemma RdsHere(ts: seq<Tok>, k: nat, e: nat, rs: seq<Rd>)
    requires Has(ts, k, e, RdToks(rs))
    ensures RdsAt(ts, k, e, rs)
  {
    forall j | 0 <= j < |rs| ensures RdAt(ts, k + 2 * j, rs[j]) {
      RdToksAt(rs, j);
      assert ts[k + 2 * j] == ts[k..e][2 * j] && ts[k + 2 * j + 1] == ts[k..e][2 * j + 1];
    }
  }

  // The redirections printed from token k on, the first i of them.
  function Spans(ts: seq<Tok>, k: nat, rs: seq<Rd>, i: nat): (r: seq<Redirect>)
    requires i <= |rs| && k + 2 * i <= |ts|
    ensures |r| == i && forall j :: 0 <= j < i ==> r[j] == Redirect(FileSpan(ts, k + 2 * j + 1), rs[j].mode)
  {
    seq(i, j requires 0 <= j < i => Redirect(FileSpan(ts, k + 2 * j + 1), rs[j].mode))
  }

  lemma SpansSame(ts: seq<Tok>, k: nat, e: nat, rs: seq<Rd>, i: nat)
    requires AllOk(ts) && RdsAt(ts, k, e, rs) && i <= |rs|
    ensures RedirectsOk(Render(ts), Spans(ts, k, rs, i)) && SameRds(Render(ts), Spans(ts, k, rs, i), rs[..i])
  {
    var s, r := Render(ts), Spans(ts, k, rs, i);
    forall j | 0 <= j < i ensures SpanOk(s, r[j].file) && Str(s, r[j].file) == rs[j].file && r[j].mode == rs[j].mode {
      assert RdAt(ts, k + 2 * j, rs[j]);
      WordSpan(ts, k + 2 * j + 1);
    }
  }

  lemma SpansMore(ts: seq<Tok>, k: nat, rs: seq<Rd>, i: nat, i1: nat, m1: nat)
    requires i1 == i + 1 <= |rs| && k + 2 * i1 <= |ts| && m1 == k + 2 * i + 1
    ensures Spans(ts, k, rs, i1) == Spans(ts, k, rs, i) + [Redirect(FileSpan(ts, m1), rs[i].mode)]
  {
  }

  lemma RdHere(ts: seq<Tok>, k: nat, e: nat, rs: seq<Rd>, i: nat, m: nat, m1: nat)
    requires RdsAt(ts, k, e, rs) && i < |rs| && m == k + 2 * i && m1 == m + 1
    ensures m1 < e && ts[m] == ModeTok(rs[i].mode) && ts[m1] == TWord(rs[i].file)
  {
    assert RdAt(ts, k + 2 * i, rs[i]);
  }

  /** parseredirs over printed redirections, from the i-th on, reads them all. */
  lemma {:induction false} ReadFrom(ts: seq<Tok>, k: nat, e: nat, rs: seq<Rd>, i: nat, m: nat)
    requires AllOk(ts) && RdsAt(ts, k, e, rs) && NoRedirect(ts, e) && i <= |rs| && m == k + 2 * i
    ensures RedirectsRead(ts, m, Spans(ts, k, rs, i), Spans(ts, k, rs, |rs|), e)
    decreases |rs| - i
  {
    SpansSame(ts, k, e, rs, i);
    if i == |rs| {
      assert m == e;
      RedirectsEnd(ts, e, Spans(ts, k, rs, i));
    } else {
      var i1, m1, m2 := i + 1, m + 1, m + 2;
      ReadFrom(ts, k, e, rs, i1, m2);
      RdHere(ts, k, e, rs, i, m, m1);
      SpansMore(ts, k, rs, i, i1, m1);
      ReadRedirect(ts, m, m1, m2, rs[i].mode, Spans(ts, k, rs, i), Spans(ts, k, rs, |rs|), e);
    }
  }

  lemma ReadRedirects(ts: seq<Tok>, k: nat, e: nat, rs: seq<Rd>) returns (all: seq<Redirect>)
    requires AllOk(ts) && Has(ts, k, e, RdToks(rs)) && NoRedirect(ts, e)
    ensures RedirectsRead(ts, k, [], all, e) && SameRds(Render(ts), all, rs)
  {
    RdsHere(ts, k, e, rs);
    ReadFrom(ts, k, e, rs, 0, k);
    SpansSame(ts, k, e, rs, |rs|);
    assert rs[..|rs|] == rs;
    all := Spans(ts, k, rs, |rs|);
  }

  // ---- Arguments ---------------------------------------------------------------------------------------

  // parseexec's loop at token k, with these arguments and redirections, ends at token e.
  ghost predicate ArgumentsRead(ts: seq<Tok>, k: nat, args: seq<Span>, rs: seq<Redirect>, t: Tree, e: nat) {
    && k <= |ts| && e <= |ts| && Pos(ts, k) <= |Render(ts)| && Pos(ts, e) <= |Render(ts)|
    && SpansOk(Render(ts), args) && |args| < MAXARGS && RedirectsOk(Render(ts), rs)
    && Arguments(Render(ts), Pos(ts, k), args, rs) == Got(t, Pos(ts, e))
  }

  // Where the arguments end, what comes next stops the loop.
  lemma ArgumentsEnd(ts: seq<Tok>, e: nat, args: seq<Span>, rs: seq<Redirect>)
    requires AllOk(ts) && Next(ts, e, 2) && SpansOk(Render(ts), args) && |args| < MAXARGS && RedirectsOk(Render(ts), rs)
    ensures ArgumentsRead(ts, e, args, rs, Wrap(Exec(args), rs), e)
  {
    SkipTo(ts, e);
    SeesTok(ts, e, '|');
    SeesTok(ts, e, ')');
    SeesTok(ts, e, '&');
    SeesTok(ts, e, ';');
  }

  // One word and the redirections after it, given what follows them.
  lemma ReadWord(ts: seq<Tok>, k: nat, k1: nat, args: seq<Span>, rs: seq<Redirect>, all: seq<Redirect>, m: nat, t: Tree, e: nat)
    requires AllOk(ts) && k < |ts| && k1 == k + 1 && ts[k].TWord? && SpansOk(Render(ts), args) && |args| + 1 < MAXARGS
    requires RedirectsRead(ts, k1, rs, all, m) && ArgumentsRead(ts, m, args + [FileSpan(ts, k)], all, t, e)
    ensures ArgumentsRead(ts, k, args, rs, t, e)
  {
    SkipTo(ts, k);
    SeesTok(ts, k, '|');
    SeesTok(ts, k, ')');
    SeesTok(ts, k, '&');
    SeesTok(ts, k, ';');
    LexAt(ts, k, k1);
    WordIs(Render(ts), Pos(ts, k), Pos(ts, k1), Pos(ts, m), FileSpan(ts, k), args, rs, all);
  }

  lemma WordIs(s: string, p: nat, p1: nat, p2: nat, w: Span, args: seq<Span>, rs: seq<Redirect>, all: seq<Redirect>)
    requires p <= |s| && SkipSpace(s, p) == p && SpansOk(s, args) && |args| + 1 < MAXARGS && RedirectsOk(s, rs) && RedirectsOk(s, all)
    requires !SeesAt(s, p, '|') && !SeesAt(s, p, ')') && !SeesAt(s, p, '&') && !SeesAt(s, p, ';')
    requires TokenAt(s, p).kind.Word? && Span(TokenAt(s, p).q, TokenAt(s, p).eq) == w && TokenAt(s, p).next == p1 <= |s|
    requires p2 <= |s| && Redirects(s, p1, rs) == Got(all, p2)
    ensures SpansOk(s, args + [w]) && Arguments(s, p, args, rs) == Arguments(s, p2, args + [w], all)
  {
  }

  // The words printed from token k on, the first i of them.
  function WordSpans(ts: seq<Tok>, k: nat, i: nat): (r: seq<Span>)
    requires k + i <= |ts|
    ensures |r| == i && forall j :: 0 <= j < i ==> r[j] == FileSpan(ts, k + j)
  {
    seq(i, j requires 0 <= j < i => FileSpan(ts, k + j))
  }

  lemma WordsSame(ts: seq<Tok>, k: nat, m: nat, args: seq<string>, i: nat)
    requires AllOk(ts) && Has(ts, k, m, Words(args)) && i <= |args|
    ensures k + i <= |ts| && SpansOk(Render(ts), WordSpans(ts, k, i)) && Strs(Render(ts), WordSpans(ts, k, i)) == args[..i]
  {
    assert k + i <= |ts|;
    var s, spans := Render(ts), WordSpans(ts, k, i);
    forall j | 0 <= j < i ensures SpanOk(s, spans[j]) && Str(s, spans[j]) == args[j] {
      WordHere(ts, k, m, args, j, k + j);
      WordSpan(ts, k + j);
    }
    StrsAre(s, spans, args[..i]);
  }

  lemma StrsAre(s: string, spans: seq<Span>, args: seq<string>)
    requires |spans| == |args| && forall j :: 0 <= j < |spans| ==> SpanOk(s, spans[j]) && Str(s, spans[j]) == args[j]
    ensures SpansOk(s, spans) && Strs(s, spans) == args
  {
  }

  lemma WordHere(ts: seq<Tok>, k: nat, m: nat, args: seq<string>, i: nat, at: nat)
    requires Has(ts, k, m, Words(args)) && i < |args| && at == k + i
    ensures at < |ts| && ts[at] == TWord(args[i]) && m == k + |args|
  {
    assert ts[at] == ts[k..m][i];
  }

  lemma WordSpansMore(ts: seq<Tok>, k: nat, i: nat, i1: nat, at: nat)
    requires i1 == i + 1 && at == k + i < |ts|
    ensures WordSpans(ts, k, i1) == WordSpans(ts, k, i) + [FileSpan(ts, at)]
  {
  }

  /** parseexec's loop over printed words, from the i-th on, then the redirections. */
  lemma {:induction false} ReadWords(ts: seq<Tok>, k: nat, m: nat, e: nat, args: seq<string>, all: seq<Redirect>, i: nat, at: nat, t: Tree)
    requires AllOk(ts) && Has(ts, k, m, Words(args)) && RedirectsRead(ts, m, [], all, e) && Next(ts, e, 2)
    requires |args| < MAXARGS && i < |args| && at == k + i && t == Wrap(Exec(WordSpans(ts, k, |args|)), all)
    ensures ArgumentsRead(ts, at, WordSpans(ts, k, i), [], t, e)
    decreases |args| - i
  {
    var i1, at1 := i + 1, at + 1;
    WordsSame(ts, k, m, args, i);
    WordsSame(ts, k, m, args, i1);
    WordHere(ts, k, m, args, i, at);
    WordSpansMore(ts, k, i, i1, at);
    if i1 < |args| {
      WordHere(ts, k, m, args, i1, at1);
      RedirectsEnd(ts, at1, []);
      ReadWords(ts, k, m, e, args, all, i1, at1, t);
      ReadWord(ts, at, at1, WordSpans(ts, k, i), [], [], at1, t, e);
    } else {
      assert at1 == m;
      ArgumentsEnd(ts, e, WordSpans(ts, k, i1), all);
      ReadWord(ts, at, at1, WordSpans(ts, k, i), [], all, e, t, e);
    }
  }

  // parseexec on a simple command.
  lemma ReadSimple(ts: seq<Tok>, k: nat, m: nat, e: nat, args: seq<string>, rs: seq<Rd>) returns (t: Tree)
    requires AllOk(ts) && Has(ts, k, m, Words(args)) && Has(ts, m, e, RdToks(rs)) && Next(ts, e, 2) && |args| < MAXARGS
    ensures ExecRead(ts, k, t, e) && Text(Render(ts), t) == CWrap(CExec(args), rs)
  {
    var all := ReadRedirects(ts, m, e, rs);
    WordsSame(ts, k, m, args, |args|);
    t := Wrap(Exec(WordSpans(ts, k, |args|)), all);
    WrapText(Render(ts), Exec(WordSpans(ts, k, |args|)), all, CExec(args), rs);
    if args == [] {
      NoWords(ts, k, e, all, rs, t);
    } else {
      SomeWords(ts, k, m, e, args, all, t);
    }
  }

  lemma NoWords(ts: seq<Tok>, k: nat, e: nat, all: seq<Redirect>, rs: seq<Rd>, t: Tree)
    requires AllOk(ts) && Has(ts, k, e, RdToks(rs)) && Next(ts, e, 2) && RedirectsRead(ts, k, [], all, e)
    requires t == Wrap(Exec([]), all)
    ensures ExecRead(ts, k, t, e)
  {
    NotParen(ts, k, e, rs);
    ArgumentsEnd(ts, e, [], all);
    ExecIs(ts, k, all, e, t, e);
  }

  lemma SomeWords(ts: seq<Tok>, k: nat, m: nat, e: nat, args: seq<string>, all: seq<Redirect>, t: Tree)
    requires AllOk(ts) && Has(ts, k, m, Words(args)) && RedirectsRead(ts, m, [], all, e) && Next(ts, e, 2) && 0 < |args| < MAXARGS
    requires k + |args| <= |ts| && t == Wrap(Exec(WordSpans(ts, k, |args|)), all)
    ensures ExecRead(ts, k, t, e)
  {
    WordHere(ts, k, m, args, 0, k);
    RedirectsEnd(ts, k, []);
    ReadWords(ts, k, m, e, args, all, 0, k, t);
    assert WordSpans(ts, k, 0) == [];
    ExecIs(ts, k, [], k, t, e);
  }

  // parseexec at token k returns t and ends at token e.
  ghost predicate ExecRead(ts: seq<Tok>, k: nat, t: Tree, e: nat) {
    k <= |ts| && e <= |ts| && Pos(ts, k) <= |Render(ts)| && ExecAt(Render(ts), Pos(ts, k)) == Got(t, Pos(ts, e))
  }

  lemma ExecIs(ts: seq<Tok>, k: nat, rs: seq<Redirect>, m: nat, t: Tree, e: nat)
    requires AllOk(ts) && k <= |ts| && (k < |ts| ==> ts[k] != TSym('(')) && RedirectsRead(ts, k, [], rs, m) && ArgumentsRead(ts, m, [], rs, t, e)
    ensures ExecRead(ts, k, t, e)
  {
    SkipTo(ts, k);
    SeesTok(ts, k, '(');
  }

  lemma NotParen(ts: seq<Tok>, k: nat, e: nat, rs: seq<Rd>)
    requires Has(ts, k, e, RdToks(rs)) && Next(ts, e, 2)
    ensures k < |ts| ==> ts[k] != TSym('(')
  {
    if rs != [] {
      RdToksAt(rs, 0);
      assert ts[k] == ts[k..e][0];
    }
  }

  // ---- Commands ------------------------------------------------------------------------------------------

  // parseexec: a simple command or a parenthesised one, with its redirections.
  lemma {:induction false} ReadExec(ts: seq<Tok>, k: nat, e: nat, c: Cmd) returns (t: Tree)
    requires AllOk(ts) && WellFormed(c) && Has(ts, k, e, ExecToks(c)) && Next(ts, e, 2)
    ensures ExecRead(ts, k, t, e) && Text(Render(ts), t) == c
    decreases c, 2
  {
    Flat(c);
    BaseSmaller(c);
    var base, rs := Base(c), Rds(c);
    var m := HasSplit(ts, k, e, ExecToks(base), RdToks(rs));
    if base.CExec? {
      t := ReadSimple(ts, k, m, e, base.args, rs);
    } else {
      var m1 := HasSplit(ts, k, m, [TSym('(')], Inner(base) + [TSym(')')]);
      assert [TSym('(')] + (Inner(base) + [TSym(')')]) == ExecToks(base);
      HasOne(ts, k, m1, TSym('('));
      var m2 := HasSplit(ts, m1, m, Inner(base), [TSym(')')]);
      HasOne(ts, m2, m, TSym(')'));
      var inner := ReadInner(ts, m1, m2, base);
      t := ReadBlock(ts, k, m1, m2, m, e, base, rs, inner);
    }
  }

  lemma {:induction false} BaseSmaller(c: Cmd)
    ensures Base(c) == c || Base(c) < c
    decreases c
  {
    if c.CRedir? {
      BaseSmaller(c.cmd);
    }
  }

  // parsepipe and parseline likewise.
  ghost predicate PipeRead(ts: seq<Tok>, k: nat, t: Tree, e: nat) {
    k <= |ts| && e <= |ts| && Pos(ts, k) <= |Render(ts)| && PipeAt(Render(ts), Pos(ts, k)) == Got(t, Pos(ts, e))
  }

  ghost predicate LineRead(ts: seq<Tok>, k: nat, t: Tree, e: nat) {
    k <= |ts| && e <= |ts| && Pos(ts, k) <= |Render(ts)| && LineAt(Render(ts), Pos(ts, k)) == Got(t, Pos(ts, e))
  }

  lemma ReadBlock(ts: seq<Tok>, k: nat, m1: nat, m2: nat, m: nat, e: nat, base: Cmd, rs: seq<Rd>, inner: Tree) returns (t: Tree)
    requires AllOk(ts) && k < |ts| && ts[k] == TSym('(') && m1 == k + 1 && m2 < |ts| && ts[m2] == TSym(')') && m == m2 + 1 && m1 <= m2
    requires Has(ts, m, e, RdToks(rs)) && Next(ts, e, 2)
    requires LineRead(ts, m1, inner, m2) && Text(Render(ts), inner) == base
    ensures ExecRead(ts, k, t, e) && Text(Render(ts), t) == CWrap(base, rs)
  {
    var s := Render(ts);
    SkipTo(ts, k);
    SkipTo(ts, m2);
    SeesTok(ts, k, '(');
    SeesTok(ts, m2, ')');
    LexAt(ts, k, m1);
    LexAt(ts, m2, m);
    var all := ReadRedirects(ts, m, e, rs);
    BlockIs(s, Pos(ts, k), Pos(ts, m1), Pos(ts, m2), Pos(ts, m), Pos(ts, e), inner, all);
    t := Wrap(inner, all);
    WrapText(s, inner, all, base, rs);
  }

  lemma BlockIs(s: string, p: nat, p1: nat, p2: nat, p3: nat, p4: nat, inner: Tree, all: seq<Redirect>)
    requires SeesAt(s, p, '(') && SkipSpace(s, p) == p && TokenAt(s, p).next == p1 <= |s| && LineAt(s, p1) == Got(inner, p2)
    requires SeesAt(s, p2, ')') && SkipSpace(s, p2) == p2 && TokenAt(s, p2).next == p3 <= |s| && Redirects(s, p3, []) == Got(all, p4)
    ensures ExecAt(s, p) == Got(Wrap(inner, all), p4)
  {
  }

  // parsepipe where there is a "|".
  lemma {:induction false} ReadPipeNode(ts: seq<Tok>, k: nat, e: nat, c: Cmd) returns (t: Tree)
    requires AllOk(ts) && WellFormed(c) && c.CPipe? && Has(ts, k, e, Inner(c)) && Next(ts, e, 1)
    ensures PipeRead(ts, k, t, e) && Text(Render(ts), t) == c
    decreases c, 0
  {
    assert ExecToks(c.left) + ([TSym('|')] + PipeToks(c.right)) == Inner(c);
    var m, m1 := HasTwo(ts, k, e, ExecToks(c.left), TSym('|'), PipeToks(c.right));
    var l := ReadExec(ts, k, m, c.left);
    var r := ReadPipe(ts, m1, e, c.right);
    PipeGoesOn(ts, k, m, m1, e, l, r);
    t := Pipe(l, r);
  }

  lemma PipeGoesOn(ts: seq<Tok>, k: nat, m: nat, m1: nat, e: nat, l: Tree, r: Tree)
    requires AllOk(ts) && ExecRead(ts, k, l, m) && m < |ts| && ts[m] == TSym('|') && m1 == m + 1 && PipeRead(ts, m1, r, e)
    ensures PipeRead(ts, k, Pipe(l, r), e)
  {
    SkipTo(ts, m);
    SeesTok(ts, m, '|');
    LexAt(ts, m, m1);
  }

  lemma {:induction false} ReadPipe(ts: seq<Tok>, k: nat, e: nat, c: Cmd) returns (t: Tree)
    requires AllOk(ts) && WellFormed(c) && Has(ts, k, e, PipeToks(c)) && Next(ts, e, 1)
    ensures PipeRead(ts, k, t, e) && Text(Render(ts), t) == c
    decreases c, 3
  {
    if c.CPipe? {
      t := ReadPipeNode(ts, k, e, c);
    } else {
      t := ReadExec(ts, k, e, c);
      PipeIsExec(ts, k, e, t);
    }
  }

  // parsepipe and the "&" loop up to here: p is what parsepipe returned at token j.
  ghost predicate BackRead(ts: seq<Tok>, k: nat, e: nat, j: nat, p: Tree, t: Tree) {
    && PipeRead(ts, k, p, j) && e <= |ts| && Pos(ts, j) <= |Render(ts)| && Pos(ts, e) <= |Render(ts)|
    && TreeOk(Render(ts), p) && TreeOk(Render(ts), t) && Backs(Render(ts), Pos(ts, j), p) == Backs(Render(ts), Pos(ts, e), t)
  }

  lemma {:induction false} ReadBack(ts: seq<Tok>, k: nat, e: nat, c: Cmd) returns (j: nat, p: Tree, t: Tree)
    requires AllOk(ts) && WellFormed(c) && Has(ts, k, e, BackToks(c)) && Next(ts, e, 1)
    ensures BackRead(ts, k, e, j, p, t) && Text(Render(ts), t) == c
    decreases c, 4
  {
    if c.CBack? {
      j, p, t := ReadBackNode(ts, k, e, c);
    } else {
      t := ReadPipe(ts, k, e, c);
      PipeIsBack(ts, k, e, t);
      j, p := e, t;
    }
  }

  lemma {:induction false} ReadBackNode(ts: seq<Tok>, k: nat, e: nat, c: Cmd) returns (j: nat, p: Tree, t: Tree)
    requires AllOk(ts) && WellFormed(c) && c.CBack? && Has(ts, k, e, Inner(c))
    ensures BackRead(ts, k, e, j, p, t) && Text(Render(ts), t) == c
    decreases c, 0
  {
    var m := BackSplit(ts, k, e, c);
    var x;
    j, p, x := ReadBack(ts, k, m, c.cmd);
    t := Back(x);
    OneBack(ts, k, m, e, j, p, x, t);
    BackText(Render(ts), x, c);
  }

  lemma BackSplit(ts: seq<Tok>, k: nat, e: nat, c: Cmd) returns (m: nat)
    requires AllOk(ts) && WellFormed(c) && c.CBack? && Has(ts, k, e, Inner(c))
    ensures m < |ts| && e == m + 1 && ts[m] == TSym('&') && WellFormed(c.cmd) && Has(ts, k, m, BackToks(c.cmd)) && Next(ts, m, 1)
  {
    m := HasSplit(ts, k, e, BackToks(c.cmd), [TSym('&')]);
    HasOne(ts, m, e, TSym('&'));
  }

  lemma BackText(s: string, x: Tree, c: Cmd)
    requires TreeOk(s, x) && c.CBack? && Text(s, x) == c.cmd
    ensures TreeOk(s, Back(x)) && Text(s, Back(x)) == c
  {
  }

  lemma PipeIsBack(ts: seq<Tok>, k: nat, e: nat, t: Tree)
    requires AllOk(ts) && PipeRead(ts, k, t, e)
    ensures BackRead(ts, k, e, e, t, t)
  {
    SkipTo(ts, e);
  }

  lemma OneBack(ts: seq<Tok>, k: nat, m: nat, e: nat, j: nat, p: Tree, x: Tree, t: Tree)
    requires AllOk(ts) && BackRead(ts, k, m, j, p, x) && m < |ts| && ts[m] == TSym('&') && e == m + 1 && t == Back(x)
    ensures BackRead(ts, k, e, j, p, t)
  {
    SkipTo(ts, m);
    SkipTo(ts, e);
    SeesTok(ts, m, '&');
    LexAt(ts, m, e);
  }

  // parseline at a place where a line ends.
  lemma LineEnds(ts: seq<Tok>, k: nat, e: nat, j: nat, p: Tree, t: Tree)
    requires AllOk(ts) && BackRead(ts, k, e, j, p, t) && Next(ts, e, 0)
    ensures LineRead(ts, k, t, e)
  {
    SkipTo(ts, e);
    SeesTok(ts, e, '&');
    SeesTok(ts, e, ';');
  }

  lemma LineGoesOn(ts: seq<Tok>, k: nat, e: nat, e1: nat, j: nat, p: Tree, t: Tree, r: Tree, last: nat)
    requires AllOk(ts) && BackRead(ts, k, e, j, p, t) && e < |ts| && e1 == e + 1 && ts[e] == TSym(';') && last <= |ts|
    requires LineRead(ts, e1, r, last)
    ensures LineRead(ts, k, List(t, r), last)
  {
    SkipTo(ts, e);
    SeesTok(ts, e, '&');
    SeesTok(ts, e, ';');
    LexAt(ts, e, e1);
  }

  lemma {:induction false} ReadInner(ts: seq<Tok>, k: nat, e: nat, c: Cmd) returns (t: Tree)
    requires AllOk(ts) && WellFormed(c) && (c.CPipe? || c.CList? || c.CBack?) && Has(ts, k, e, Inner(c)) && Next(ts, e, 0)
    ensures LineRead(ts, k, t, e) && Text(Render(ts), t) == c
    decreases c, 1
  {
    match c
    case CPipe(_, _) =>
      t := ReadPipeNode(ts, k, e, c);
      LineIsPipe(ts, k, e, t);
    case CBack(_) =>
      var j, p;
      j, p, t := ReadBackNode(ts, k, e, c);
      LineEnds(ts, k, e, j, p, t);
    case CList(_, _) =>
      t := ReadListNode(ts, k, e, c);
  }

  lemma LineIsPipe(ts: seq<Tok>, k: nat, e: nat, t: Tree)
    requires AllOk(ts) && Next(ts, e, 0) && PipeRead(ts, k, t, e)
    ensures LineRead(ts, k, t, e)
  {
    PipeIsBack(ts, k, e, t);
    LineEnds(ts, k, e, e, t, t);
  }

  lemma {:induction false} ReadListNode(ts: seq<Tok>, k: nat, e: nat, c: Cmd) returns (t: Tree)
    requires AllOk(ts) && WellFormed(c) && c.CList? && Has(ts, k, e, Inner(c)) && Next(ts, e, 0)
    ensures LineRead(ts, k, t, e) && Text(Render(ts), t) == c
    decreases c, 0
  {
    assert BackToks(c.left) + ([TSym(';')] + LineToks(c.right)) == Inner(c);
    var m, m1 := HasTwo(ts, k, e, BackToks(c.left), TSym(';'), LineToks(c.right));
    var j, p, left := ReadBack(ts, k, m, c.left);
    var right := ReadLine(ts, m1, e, c.right);
    LineGoesOn(ts, k, m, m1, j, p, left, right, e);
    t := List(left, right);
    TextOfList(Render(ts), left, right, c);
  }

  lemma TextOfList(s: string, left: Tree, right: Tree, c: Cmd)
    requires c.CList? && Text(s, left) == c.left && Text(s, right) == c.right
    ensures Text(s, List(left, right)) == c
  {
  }

  lemma {:induction false} ReadLine(ts: seq<Tok>, k: nat, e: nat, c: Cmd) returns (t: Tree)
    requires AllOk(ts) && WellFormed(c) && Has(ts, k, e, LineToks(c)) && Next(ts, e, 0)
    ensures LineRead(ts, k, t, e) && Text(Render(ts), t) == c
    decreases c, 5
  {
    LineShape(c);
    if c.CPipe? || c.CList? || c.CBack? {
      t := ReadInner(ts, k, e, c);
    } else {
      t := ReadExec(ts, k, e, c);
      PipeIsExec(ts, k, e, t);
      LineIsPipe(ts, k, e, t);
    }
  }

  lemma PipeIsExec(ts: seq<Tok>, k: nat, e: nat, t: Tree)
    requires AllOk(ts) && Next(ts, e, 1) && ExecRead(ts, k, t, e)
    ensures PipeRead(ts, k, t, e)
  {
    SkipTo(ts, e);
    SeesTok(ts, e, '|');
  }

  lemma LineShape(c: Cmd)
    ensures LineToks(c) == if c.CPipe? || c.CList? || c.CBack? then Inner(c) else ExecToks(c)
  {
    assert PipeToks(c) == if c.CPipe? then Inner(c) else ExecToks(c);
    assert BackToks(c) == if c.CBack? then Inner(c) else PipeToks(c);
  }

  // ---- The round trip -----------------------------------------------------------------------------------

  lemma {:induction false} TokensOk(c: Cmd)
    requires WellFormed(c)
    ensures AllOk(ExecToks(c)) && AllOk(PipeToks(c)) && AllOk(BackToks(c)) && AllOk(LineToks(c))
    decreases c
  {
    match c
    case CExec(args) =>
    case CRedir(x, _, _) => TokensOk(x);
    case CPipe(l, r) =>
      TokensOk(l);
      TokensOk(r);
    case CList(l, r) =>
      TokensOk(l);
      TokensOk(r);
    case CBack(x) => TokensOk(x);
  }

  /** Printing any well-formed command and parsing the text gives the same command. */
  lemma RoundTrip(c: Cmd)
    requires WellFormed(c)
    ensures Command(Print(c)).Got? && Text(Print(c), Command(Print(c)).v) == c
  {
    TokensOk(c);
    var ts := LineToks(c);
    assert ts[0..|ts|] == ts;
    var t := ReadLine(ts, 0, |ts|, c);
    SkipTo(ts, |ts|);
  }
}
