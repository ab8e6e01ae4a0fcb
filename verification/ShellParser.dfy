/** The parser of sh.c as it runs: a cursor moves over the line, loops collect arguments
    and redirections, and nulterminate cuts the line into strings in place. */
module ShellParser {
  import opened ShellSyntax

  class Cursor {
    const s: string
    var ps: nat

    constructor (s: string)
      ensures this.s == s && ps == 0
    {
      this.s := s;
      ps := 0;
    }

    ghost predicate Valid()
      reads this
    {
      ps <= |s|
    }

    method SkipBlanks(from: nat) returns (i: nat)
      requires from <= |s|
      ensures i == SkipSpace(s, from)
    {
      i := from;
      while i < |s| && IsSpace(s[i])
        invariant from <= i <= |s| && SkipSpace(s, i) == SkipSpace(s, from)
      {
        i := i + 1;
      }
    }

    /** gettoken. */
    method GetToken() returns (t: Token)
      requires Valid()
      modifies this
      ensures Valid() && t == TokenAt(s, old(ps)) && ps == t.next
    {
      var q := SkipBlanks(ps);
      var kind, i := End, q;
      if q < |s| {
        if s[q] == '>' {
          kind, i := Symbol('>'), q + 1;
          if i < |s| && s[i] == '>' {
            kind, i := Append, i + 1;
          }
        } else if IsSymbol(s[q]) {
          kind, i := Symbol(s[q]), q + 1;
        } else {
          kind := Word;
          while i < |s| && !IsSpace(s[i]) && !IsSymbol(s[i])
            invariant q <= i <= |s| && WordEnd(s, i) == WordEnd(s, q)
          {
            i := i + 1;
          }
        }
      }
      var eq := i;
      i := SkipBlanks(i);
      ps := i;
      t := Token(kind, q, eq, i);
    }

    /** peek. */
    method Peek(toks: string) returns (b: bool)
      requires Valid()
      modifies this
      ensures Valid() && ps == SkipSpace(s, old(ps)) && (b <==> exists k :: 0 <= k < |toks| && SeesAt(s, ps, toks[k]))
    {
      ps := SkipBlanks(ps);
      b := false;
      if ps < |s| {
        var k := 0;
        while k < |toks| && !b
          invariant k <= |toks| && (b <==> exists j :: 0 <= j < k && SeesAt(s, ps, toks[j]))
        {
          b := s[ps] == toks[k];
          assert b ==> SeesAt(s, ps, toks[k]);
          k := k + 1;
        }
      }
    }

    // peek for one character.
    method PeekOne(c: char) returns (b: bool)
      requires Valid()
      modifies this
      ensures Valid() && ps == SkipSpace(s, old(ps)) && (b <==> SeesAt(s, ps, c))
    {
      b := Peek([c]);
      assert b ==> SeesAt(s, ps, [c][0]);
      assert SeesAt(s, ps, c) ==> SeesAt(s, ps, [c][0]);
    }

    /** parseredirs, gathering the redirections around a command. */
    method ParseRedirs(rs0: seq<Redirect>) returns (ok: bool, rs: seq<Redirect>)
      requires Valid() && RedirectsOk(s, rs0)
      modifies this
      ensures Valid() && (if ok then Redirects(s, old(ps), rs0) == Got(rs, ps) else Redirects(s, old(ps), rs0) == Panic)
    {
      rs := rs0;
      AgainRedirects(s, ps, rs);
      var less := PeekOne('<');
      var more := PeekOne('>');
      while less || more
        invariant Valid() && RedirectsOk(s, rs) && SkipSpace(s, ps) == ps && Redirects(s, ps, rs) == Redirects(s, old(ps), rs0)
        invariant (less <==> SeesAt(s, ps, '<')) && (more <==> SeesAt(s, ps, '>'))
        decreases |s| - ps
      {
        ok, rs := ParseRedir(rs);
        if !ok {
          return;
        }
        AgainRedirects(s, ps, rs);
        less := PeekOne('<');
        more := PeekOne('>');
      }
      ok := true;
    }

    // One turn of that loop: the operator and the file.
    method ParseRedir(rs0: seq<Redirect>) returns (ok: bool, rs: seq<Redirect>)
      requires Valid() && RedirectsOk(s, rs0) && SkipSpace(s, ps) == ps && (SeesAt(s, ps, '<') || SeesAt(s, ps, '>'))
      modifies this
      ensures Valid() && ps > old(ps)
      ensures if ok then RedirectsOk(s, rs) && Redirects(s, ps, rs) == Redirects(s, old(ps), rs0) else Redirects(s, old(ps), rs0) == Panic
    {
      var op := GetToken();
      var f := GetToken();
      if !f.kind.Word? {
        return false, rs0;
      }
      ok, rs := true, rs0 + [Redirect(Span(f.q, f.eq), ModeOf(op.kind))];
    }

    /** parseexec. */
    method ParseExec() returns (r: Parsed<Tree>)
      requires Valid()
      modifies this
      ensures r == ExecAt(s, old(ps)) && (r.Got? ==> Valid() && r.at == ps)
      decreases |s| - ps, 2
    {
      var block := PeekOne('(');
      if block {
        r := ParseBlock();
        return;
      }
      var ok, rs := ParseRedirs([]);
      if !ok {
        return Panic;
      }
      r := ParseArguments(rs);
    }

    method ParseArguments(rs0: seq<Redirect>) returns (r: Parsed<Tree>)
      requires Valid() && RedirectsOk(s, rs0)
      modifies this
      ensures r == Arguments(s, old(ps), [], rs0) && (r.Got? ==> Valid() && r.at == ps)
    {
      var args: seq<Span>, rs := [], rs0;
      AgainArguments(s, ps, args, rs);
      var stop := StopsHere();
      var more;
      while !stop
        invariant Valid() && SpansOk(s, args) && |args| < MAXARGS && RedirectsOk(s, rs) && SkipSpace(s, ps) == ps
        invariant Arguments(s, ps, args, rs) == Arguments(s, old(ps), [], rs0)
        invariant stop <==> Stops(s, ps)
        decreases |s| - ps
      {
        more, args, rs, r := NextArgument(args, rs);
        if !more {
          return;
        }
        AgainArguments(s, ps, args, rs);
        stop := StopsHere();
      }
      r := Got(Wrap(Exec(args), rs), ps);
    }

    // One round: another argument and the redirections after it, or the result.
    method NextArgument(args: seq<Span>, rs: seq<Redirect>) returns (more: bool, args': seq<Span>, rs': seq<Redirect>, r: Parsed<Tree>)
      requires Valid() && SpansOk(s, args) && |args| < MAXARGS && RedirectsOk(s, rs) && SkipSpace(s, ps) == ps && !Stops(s, ps)
      modifies this
      ensures more ==> Valid() && old(ps) < ps && SpansOk(s, args') && |args'| < MAXARGS && RedirectsOk(s, rs')
      ensures more ==> Arguments(s, ps, args', rs') == Arguments(s, old(ps), args, rs)
      ensures !more ==> r == Arguments(s, old(ps), args, rs) && (r.Got? ==> Valid() && r.at == ps)
    {
      more, args', rs', r := false, args, rs, Panic;
      var w := GetToken();
      if w.kind.End? {
        return false, args, rs, Got(Wrap(Exec(args), rs), ps);
      }
      if !w.kind.Word? {
        return;
      }
      args' := args + [Span(w.q, w.eq)];
      if |args'| >= MAXARGS {
        return;
      }
      more, rs' := ParseRedirs(rs);
    }

    // peek(ps, es, "|)&;")
    method StopsHere() returns (b: bool)
      requires Valid()
      modifies this
      ensures Valid() && ps == SkipSpace(s, old(ps)) && (b <==> Stops(s, ps))
    {
      b := Peek("|)&;");
      assert "|)&;"[0] == '|' && "|)&;"[1] == ')' && "|)&;"[2] == '&' && "|)&;"[3] == ';';
      if Stops(s, ps) {
        assert exists k :: 0 <= k < 4 && SeesAt(s, ps, "|)&;"[k]);
      }
    }

    /** parseblock. */
    method ParseBlock() returns (r: Parsed<Tree>)
      requires Valid() && SeesAt(s, ps, '(')
      modifies this
      ensures r == BlockAt(s, old(ps)) && (r.Got? ==> Valid() && r.at == ps)
      decreases |s| - ps, 1
    {
      var open := GetToken();
      var inner := ParseLine();
      if inner.Panic? {
        return Panic;
      }
      var closed := PeekOne(')');
      if !closed {
        return Panic;
      }
      var close := GetToken();
      var ok, rs := ParseRedirs([]);
      r := if ok then Got(Wrap(inner.v, rs), ps) else Panic;
    }

    /** parsepipe. */
    method ParsePipe() returns (r: Parsed<Tree>)
      requires Valid()
      modifies this
      ensures r == PipeAt(s, old(ps)) && (r.Got? ==> Valid() && r.at == ps)
      decreases |s| - ps, 3
    {
      var left := ParseExec();
      if left.Panic? {
        return Panic;
      }
      var more := PeekOne('|');
      if !more {
        return Got(left.v, ps);
      }
      var bar := GetToken();
      var right := ParsePipe();
      r := if right.Got? then Got(Pipe(left.v, right.v), right.at) else Panic;
    }

    /** parseline. */
    method ParseLine() returns (r: Parsed<Tree>)
      requires Valid()
      modifies this
      ensures r == LineAt(s, old(ps)) && (r.Got? ==> Valid() && r.at == ps)
      decreases |s| - ps, 4
    {
      var first := ParsePipe();
      if first.Panic? {
        return Panic;
      }
      var t := first.v;
      ghost var from := ps;
      Again(s, ps);
      var amp := PeekOne('&');
      while amp
        invariant Valid() && from <= ps && TreeOk(s, t) && SkipSpace(s, ps) == ps && Backs(s, ps, t) == Backs(s, from, first.v)
        invariant amp <==> SeesAt(s, ps, '&')
        decreases |s| - ps
      {
        var a := GetToken();
        t := Back(t);
        Again(s, ps);
        amp := PeekOne('&');
      }
      var semi := PeekOne(';');
      if !semi {
        return Got(t, ps);
      }
      var sc := GetToken();
      var right := ParseLine();
      r := if right.Got? then Got(List(t, right.v), right.at) else Panic;
    }

    /** parsecmd up to nulterminate: every line is parsed or refused, whatever it holds. */
    method ParseCmd() returns (r: Parsed<Tree>)
      requires ps == 0
      modifies this
      ensures r == Command(s)
    {
      r := ParseLine();
      if r.Got? {
        var x := Peek("");
        if ps != |s| {
          return Panic;
        }
        r := Got(r.v, ps);
      }
    }
  }

  predicate Stops(s: string, q: nat) {
    SeesAt(s, q, '|') || SeesAt(s, q, ')') || SeesAt(s, q, '&') || SeesAt(s, q, ';')
  }

  // Skipping blanks twice is skipping them once.
  lemma Again(s: string, i: nat)
    requires i <= |s|
    ensures SkipSpace(s, SkipSpace(s, i)) == SkipSpace(s, i)
  {
  }

  lemma AgainArguments(s: string, i: nat, args: seq<Span>, rs: seq<Redirect>)
    requires i <= |s| && SpansOk(s, args) && |args| < MAXARGS && RedirectsOk(s, rs)
    ensures SkipSpace(s, SkipSpace(s, i)) == SkipSpace(s, i) && Arguments(s, SkipSpace(s, i), args, rs) == Arguments(s, i, args, rs)
  {
    Again(s, i);
  }

  lemma AgainRedirects(s: string, i: nat, rs: seq<Redirect>)
    requires i <= |s| && RedirectsOk(s, rs)
    ensures SkipSpace(s, SkipSpace(s, i)) == SkipSpace(s, i) && Redirects(s, SkipSpace(s, i), rs) == Redirects(s, i, rs)
  {
    Again(s, i);
  }

  // ---- nulterminate ------------------------------------------------------------------------------

  // The C string at q: up to the first NUL.
  function CString(buf: seq<char>, q: nat): string
    requires q <= |buf|
    decreases |buf| - q
  {
    if q == |buf| || buf[q] == '\0' then "" else [buf[q]] + CString(buf, q + 1)
  }

  lemma {:induction false} CStringIs(buf: seq<char>, q: nat, eq: nat)
    requires q <= eq < |buf| && buf[eq] == '\0' && forall k :: q <= k < eq ==> buf[k] != '\0'
    ensures CString(buf, q) == buf[q..eq]
    decreases eq - q
  {
    if q < eq {
      CStringIs(buf, q + 1, eq);
    }
  }

  // Where nulterminate writes.
  ghost function Ends(t: Tree): set<nat> {
    match t
    case Exec(args) => set i | 0 <= i < |args| :: args[i].eq
    case Redir(cmd, to) => Ends(cmd) + {to.file.eq}
    case Pipe(l, r) => Ends(l) + Ends(r)
    case List(l, r) => Ends(l) + Ends(r)
    case Back(cmd) => Ends(cmd)
  }

  /** nulterminate: exactly the ends of the tree's words become NULs. */
  method NulTerminate(buf: array<char>, t: Tree, ghost s: string)
    requires TreeOk(s, t) && buf.Length == |s| + 1
    modifies buf
    ensures forall i :: 0 <= i < buf.Length ==> buf[i] == if i in Ends(t) then '\0' else old(buf[i])
    decreases t
  {
    match t
    case Exec(args) =>
      var i := 0;
      while i < |args|
        invariant i <= |args|
        invariant forall k :: 0 <= k < buf.Length ==> buf[k] == if k in (set j | 0 <= j < i :: args[j].eq) then '\0' else old(buf[k])
      {
        assert SpanOk(s, args[i]);
        assert (set j | 0 <= j < i + 1 :: args[j].eq) == (set j | 0 <= j < i :: args[j].eq) + {args[i].eq};
        buf[args[i].eq] := '\0';
        i := i + 1;
      }
    case Redir(cmd, to) =>
      NulTerminate(buf, cmd, s);
      buf[to.file.eq] := '\0';
    case Pipe(l, r) =>
      NulTerminate(buf, l, s);
      NulTerminate(buf, r, s);
    case List(l, r) =>
      NulTerminate(buf, l, s);
      NulTerminate(buf, r, s);
    case Back(cmd) =>
      NulTerminate(buf, cmd, s);
  }

  lemma {:induction false} EndsOutsideWords(s: string, t: Tree, e: nat)
    requires TreeOk(s, t) && e in Ends(t)
    ensures e <= |s| && (e < |s| ==> !IsWord(s[e]))
    decreases t
  {
    match t
    case Exec(args) =>
      var i :| 0 <= i < |args| && e == args[i].eq;
      assert SpanOk(s, args[i]);
    case Redir(cmd, to) =>
      if e in Ends(cmd) {
        EndsOutsideWords(s, cmd, e);
      }
    case Pipe(l, r) =>
      if e in Ends(l) {
        EndsOutsideWords(s, l, e);
      } else {
        EndsOutsideWords(s, r, e);
      }
    case List(l, r) =>
      if e in Ends(l) {
        EndsOutsideWords(s, l, e);
      } else {
        EndsOutsideWords(s, r, e);
      }
    case Back(cmd) => EndsOutsideWords(s, cmd, e);
  }

  /** After nulterminate the C string at any word that was cut out is that word: no write
      falls inside another. */
  lemma WordsCutOut(s: string, t: Tree, before: seq<char>, after: seq<char>, w: Span)
    requires TreeOk(s, t) && SpanOk(s, w) && w.eq in Ends(t) && forall i :: 0 <= i < |s| ==> s[i] != '\0'
    requires before == s + ['\0'] && |after| == |before|
    requires forall i :: 0 <= i < |before| ==> after[i] == if i in Ends(t) then '\0' else before[i]
    ensures CString(after, w.q) == s[w.q..w.eq]
  {
    forall k | w.q <= k < w.eq ensures after[k] == s[k] && after[k] != '\0' {
      if k in Ends(t) {
        EndsOutsideWords(s, t, k);
      }
    }
    CStringIs(after, w.q, w.eq);
  }
}
