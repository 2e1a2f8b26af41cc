/**
 nulterminate: after a line is parsed, the NULs put into it turn every span of the command into the
 string it stands for.
 */
module ShTerminate {
  import opened Common
  import opened ShLex
  import opened ShGrammar
  import opened ShCode

  /** The spans of a command: arguments and file names. */
  function Words(c: Cmd): (ws: seq<Tok>) {
    match c
    case ExecCmd(args) => args
    case RedirCmd(d, file, _, _) => Words(d) + [file]
    case PipeCmd(l, r) => Words(l) + Words(r)
    case ListCmd(l, r) => Words(l) + Words(r)
    case BackCmd(d) => Words(d)
  }

  // ----- every word of the line is in the command, once -----

  function WordToks(ts: seq<Tok>): (ws: seq<Tok>) {
    if ts == [] then [] else if ts[0].kind == 'a' then [ts[0]] + WordToks(ts[1..]) else WordToks(ts[1..])
  }

  lemma {:induction false} WordToksAppend(a: seq<Tok>, b: seq<Tok>)
    ensures WordToks(a + b) == WordToks(a) + WordToks(b)
  {
    if a == [] {
      assert [] + b == b;
    } else {
      WordToksAppend(a[1..], b);
      assert (a + b)[1..] == a[1..] + b;
    }
  }

  lemma {:induction false} WordToksOne(t: Tok)
    ensures WordToks([t]) == if t.kind == 'a' then [t] else []
  {
    assert [t][1..] == [];
  }

  function Files(rs: seq<Redirect>): (ws: seq<Tok>) { if rs == [] then [] else [rs[0].file] + Files(rs[1..]) }

  lemma {:induction false} FilesAppend(a: seq<Redirect>, b: seq<Redirect>)
    ensures Files(a + b) == Files(a) + Files(b)
  {
    if a == [] {
      assert [] + b == b;
    } else {
      FilesAppend(a[1..], b);
      assert (a + b)[1..] == a[1..] + b;
    }
  }

  lemma {:induction false} WrapWords(c: Cmd, rs: seq<Redirect>)
    ensures Words(Wrap(c, rs)) == Words(c) + Files(rs)
  {
    if rs == [] {
      assert Words(c) + [] == Words(c);
    } else {
      var n := |rs| - 1;
      WrapWords(c, rs[..n]);
      FilesAppend(rs[..n], [rs[n]]);
      assert rs == rs[..n] + [rs[n]];
      assert [rs[n]][1..] == [];
    }
  }

  lemma {:induction false} RedirectWords(rs: seq<Redirect>)
    requires RedirectsOk(rs)
    ensures WordToks(ShowRedirects(rs)) == Files(rs)
  {
    if rs != [] {
      RedirectWords(rs[1..]);
      WordToksAppend([rs[0].op, rs[0].file], ShowRedirects(rs[1..]));
      WordToksAppend([rs[0].op], [rs[0].file]);
      assert [rs[0].op] + [rs[0].file] == [rs[0].op, rs[0].file];
      WordToksOne(rs[0].op);
      WordToksOne(rs[0].file);
    }
  }

  lemma {:induction false} ArgsWords(args: seq<Arg>)
    requires ArgsOk(args)
    ensures multiset(WordToks(ShowArgs(args))) == multiset(ArgWords(args)) + multiset(Files(ArgRedirects(args)))
  {
    if args != [] {
      hide RedirectsOk, ShowRedirects;
      var a, rest := args[0], args[1..];
      ArgsWords(rest);
      RedirectWords(a.rs);
      FilesAppend(a.rs, ArgRedirects(rest));
      WordToksAppend([a.word] + ShowRedirects(a.rs), ShowArgs(rest));
      WordToksAppend([a.word], ShowRedirects(a.rs));
      WordToksOne(a.word);
    }
  }

  lemma {:induction false} ExecWords(x: Exec)
    requires ExecOk(x)
    ensures multiset(Words(MeanExec(x))) == multiset(WordToks(ShowExec(x)))
    decreases x
  {
    match x
    case Simple(rs, args) =>
      hide RedirectsOk, ArgsOk, ShowRedirects, ShowArgs, Wrap, Files, WordToks, ArgWords, ArgRedirects;
      WrapWords(ExecCmd(ArgWords(args)), rs + ArgRedirects(args));
      FilesAppend(rs, ArgRedirects(args));
      RedirectWords(rs);
      ArgsWords(args);
      WordToksAppend(ShowRedirects(rs), ShowArgs(args));
    case Block(open, line, close, rs) =>
      hide RedirectsOk, ShowRedirects, Wrap, Files, WordToks, ShowLine, LineOk, MeanLine;
      LineWords(line);
      WrapWords(MeanLine(line), rs);
      RedirectWords(rs);
      WordToksAppend([open] + ShowLine(line) + [close], ShowRedirects(rs));
      WordToksAppend([open] + ShowLine(line), [close]);
      WordToksAppend([open], ShowLine(line));
      WordToksOne(open);
      WordToksOne(close);
  }

  lemma {:induction false} PipelineWords(p: Pipeline)
    requires PipelineOk(p)
    ensures multiset(Words(MeanPipeline(p))) == multiset(WordToks(ShowPipeline(p)))
    decreases p
  {
    hide ExecOk, ShowExec, MeanExec, WordToks;
    ExecWords(p.x);
    if p.Piped? {
      PipelineWords(p.rest);
      WordToksAppend(ShowExec(p.x) + [p.bar], ShowPipeline(p.rest));
      WordToksAppend(ShowExec(p.x), [p.bar]);
      WordToksOne(p.bar);
    }
  }

  lemma {:induction false} AmpsWords(amps: seq<Tok>, c: Cmd)
    requires AmpsOk(amps)
    ensures WordToks(amps) == [] && Words(Backs(c, |amps|)) == Words(c)
  {
    if amps != [] { AmpsWords(amps[1..], c); }
  }

  /** The spans of a command are the words of its line, each as often as there. */
  lemma {:induction false} LineWords(l: Line)
    requires LineOk(l)
    ensures multiset(Words(MeanLine(l))) == multiset(WordToks(ShowLine(l)))
    decreases l
  {
    hide PipelineOk, ShowPipeline, MeanPipeline, WordToks, AmpsOk, Backs;
    PipelineWords(l.p);
    AmpsWords(l.amps, MeanPipeline(l.p));
    WordToksAppend(ShowPipeline(l.p), l.amps);
    if l.Semi? {
      LineWords(l.rest);
      WordToksAppend(ShowPipeline(l.p) + l.amps + [l.semi], ShowLine(l.rest));
      WordToksAppend(ShowPipeline(l.p) + l.amps, [l.semi]);
      WordToksOne(l.semi);
    }
  }

  lemma {:induction false} WordToksIn(ts: seq<Tok>, w: Tok)
    ensures w in multiset(WordToks(ts)) ==> w in ts && w.kind == 'a'
  {
    if ts != [] { WordToksIn(ts[1..], w); }
  }

  // ----- the strings -----

  /** The string at position b: up to the first NUL. */
  function CString(s: string, b: nat): (r: string)
    requires b <= |s|
    decreases |s| - b
  { if b == |s| || s[b] == '\0' then "" else [s[b]] + CString(s, b + 1) }

  lemma {:induction false} CStringIs(s: string, b: nat, e: nat)
    requires b <= e < |s| && s[e] == '\0' && forall k :: b <= k < e ==> s[k] != '\0'
    ensures CString(s, b) == s[b..e]
    decreases e - b
  {
    if b < e { CStringIs(s, b + 1, e); }
  }

  /** The buffer with NULs at the ends of the words. */
  ghost predicate Ended(line: string, s: string, ws: seq<Tok>) {
    && |s| == |line| + 1 && (forall w :: w in ws ==> w.e <= |line|)
    && (forall k :: 0 <= k <= |line| && (k == |line| || exists w :: w in ws && w.e == k) ==> s[k] == '\0')
    && (forall k :: 0 <= k < |line| && !(exists w :: w in ws && w.e == k) ==> s[k] == line[k])
  }

  /** A NUL at the end of one word of a line is never inside another. */
  lemma {:induction false} NotInside(line: string, v: Tok, w: Tok)
    requires v in Lex(line, 0) && w in Lex(line, 0) && v.kind == 'a' && w.kind == 'a'
    ensures !(w.b <= v.e < w.e)
  {
    var ts := Lex(line, 0);
    var i :| 0 <= i < |ts| && ts[i] == v;
    var j :| 0 <= j < |ts| && ts[j] == w;
    LexOrder(line, 0, i);
    LexOrder(line, 0, j);
    if i < j { LexApart(line, 0, i, j); } else if j < i { LexApart(line, 0, j, i); }
  }

  /** So every span of the command is, in the buffer, the string the line had there. */
  lemma {:induction false} SpanIsString(line: string, s: string, ws: seq<Tok>, w: Tok)
    requires Ended(line, s, ws) && w in ws && '\0' !in line
    requires forall v :: v in ws ==> v in Lex(line, 0) && v.kind == 'a'
    ensures w.b < w.e <= |line| && w.b <= |s| && CString(s, w.b) == line[w.b..w.e]
  {
    var i :| 0 <= i < |Lex(line, 0)| && Lex(line, 0)[i] == w;
    LexOrder(line, 0, i);
    forall k | w.b <= k < w.e ensures s[k] == line[k] && s[k] != '\0' {
      if v :| v in ws && v.e == k { NotInside(line, v, w); }
      assert line[k] in line;
    }
    CStringIs(s, w.b, w.e);
    assert s[w.b..w.e] == line[w.b..w.e];
  }

  /** nulterminate: a NUL at the end of every span, and nothing else changes. */
  method NulTerminate(buf: array<char>, c: Cmd)
    requires forall w :: w in Words(c) ==> w.e < buf.Length
    modifies buf
    ensures forall k :: 0 <= k < buf.Length ==>
              buf[k] == if exists w :: w in Words(c) && w.e == k then '\0' else old(buf[k])
    decreases c
  {
    match c
    case ExecCmd(args) =>
      var i := 0;
      while i < |args|
        invariant 0 <= i <= |args|
        invariant forall k :: 0 <= k < buf.Length ==>
                  buf[k] == if exists j :: 0 <= j < i && args[j].e == k then '\0' else old(buf[k])
      {
        assert args[i] in args;
        buf[args[i].e] := '\0';
        i := i + 1;
      }
    case RedirCmd(d, file, _, _) =>
      assert file in Words(c);
      NulTerminate(buf, d);
      buf[file.e] := '\0';
    case PipeCmd(l, r) =>
      NulTerminate(buf, l);
      NulTerminate(buf, r);
    case ListCmd(l, r) =>
      NulTerminate(buf, l);
      NulTerminate(buf, r);
    case BackCmd(d) =>
      NulTerminate(buf, d);
  }

  /** parsecmd: fails exactly on lines that are not in the grammar, leaving the buffer alone. Otherwise
      all of the line was consumed, the command is what its tree means, its spans are exactly the words of
      the line, and each is now the string it was. */
  method ParseCmd(buf: array<char>) returns (r: Option<Cmd>)
    requires buf.Length > 0 && buf[buf.Length - 1] == '\0' && '\0' !in buf[..buf.Length - 1]
    modifies buf
    ensures var ts := Lex(old(buf[..buf.Length - 1]), 0); r.Some? <==> ParseLine(ts).Ok? && ParseLine(ts).rest == []
    ensures r.None? ==> buf[..] == old(buf[..])
    ensures r.Some? ==> r.value == MeanLine(ParseLine(Lex(old(buf[..buf.Length - 1]), 0)).value)
    ensures r.Some? ==> multiset(Words(r.value)) == multiset(WordToks(Lex(old(buf[..buf.Length - 1]), 0)))
    ensures r.Some? ==> forall w :: w in Words(r.value) ==>
      w.b < w.e < buf.Length && CString(buf[..], w.b) == old(buf[w.b..w.e])
  {
    hide ParseLine, MeanLine, Words, WordToks, Lex, ShowLine, LineOk, CString;
    var line := buf[..buf.Length - 1];
    var ok, c, s := ParseLineCmd(line, 0);
    if !ok { return None; }
    var b;
    b, s := Peek(line, s, "");
    if s != |line| { return None; }
    ghost var ts := Lex(line, 0);
    ghost var l := ParseLine(ts).value;
    Accepts(ts, l);
    LineWords(l);
    WordsAreToks(ts, Words(c));
    EndsInside(line, Words(c));
    NulTerminate(buf, c);
    assert Ended(line, buf[..], Words(c));
    forall w | w in Words(c) ensures w.b < w.e < buf.Length && CString(buf[..], w.b) == line[w.b..w.e] {
      SpanIsString(line, buf[..], Words(c), w);
    }
    r := Some(c);
  }

  lemma {:induction false} WordsAreToks(ts: seq<Tok>, ws: seq<Tok>)
    requires multiset(ws) == multiset(WordToks(ts))
    ensures forall w :: w in ws ==> w in ts && w.kind == 'a'
  {
    forall w | w in ws ensures w in ts && w.kind == 'a' {
      assert w in multiset(ws);
      WordToksIn(ts, w);
    }
  }

  lemma {:induction false} EndsInside(line: string, ws: seq<Tok>)
    requires forall w :: w in ws ==> w in Lex(line, 0)
    ensures forall w :: w in ws ==> w.e <= |line|
  {
    forall w | w in ws ensures w.e <= |line| {
      var i :| 0 <= i < |Lex(line, 0)| && Lex(line, 0)[i] == w;
      LexOrder(line, 0, i);
    }
  }
}
