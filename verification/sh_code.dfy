/**
 The shell's parser, over the characters of the line.
 */
module ShCode {
  import opened ShLex
  import opened ShGrammar

  const O_RDONLY: nat := 0
  const O_WRONLY: nat := 1
  const O_CREATE: nat := 0x200
  const O_TRUNC: nat := 0x400

  /** Commands, with strings as spans of the line. */
  datatype Cmd =
    | ExecCmd(args: seq<Tok>)
    | RedirCmd(cmd: Cmd, file: Tok, mode: nat, fd: nat)
    | PipeCmd(left: Cmd, right: Cmd)
    | ListCmd(left: Cmd, right: Cmd)
    | BackCmd(cmd: Cmd)

  // ----- what a tree means -----

  function Redirected(c: Cmd, r: Redirect): (c': Cmd) {
    if r.op.kind == '<' then RedirCmd(c, r.file, O_RDONLY, 0)
    else if r.op.kind == '>' then RedirCmd(c, r.file, O_WRONLY + O_CREATE + O_TRUNC, 1)
    else RedirCmd(c, r.file, O_WRONLY + O_CREATE, 1)
  }

  function Wrap(c: Cmd, rs: seq<Redirect>): (c': Cmd)
  { if rs == [] then c else Redirected(Wrap(c, rs[..|rs| - 1]), rs[|rs| - 1]) }

  function ArgWords(args: seq<Arg>): (ws: seq<Tok>)
    ensures |ws| == |args|
  { if args == [] then [] else [args[0].word] + ArgWords(args[1..]) }

  function ArgRedirects(args: seq<Arg>): (rs: seq<Redirect>)
  { if args == [] then [] else args[0].rs + ArgRedirects(args[1..]) }

  function MeanExec(x: Exec): (c: Cmd) {
    match x
    case Simple(rs, args) => Wrap(ExecCmd(ArgWords(args)), rs + ArgRedirects(args))
    case Block(_, line, _, rs) => Wrap(MeanLine(line), rs)
  }

  function MeanPipeline(p: Pipeline): (c: Cmd) {
    match p
    case Single(x) => MeanExec(x)
    case Piped(x, _, rest) => PipeCmd(MeanExec(x), MeanPipeline(rest))
  }

  function Backs(c: Cmd, n: nat): (c': Cmd) { if n == 0 then c else BackCmd(Backs(c, n - 1)) }

  function MeanLine(l: Line): (c: Cmd) {
    match l
    case Last(p, amps) => Backs(MeanPipeline(p), |amps|)
    case Semi(p, amps, _, rest) => ListCmd(Backs(MeanPipeline(p), |amps|), MeanLine(rest))
  }

  // ----- the parser -----

  // What peek sees is the kind of the next token.
  lemma {:induction false} HeadKind(line: string, s: nat)
    requires s < |line| && !White(line[s])
    ensures var t := TokenAt(line, s);
      && (t.kind == (if line[s] == '>' && t.kind == '+' then '+' else if Symbol(line[s]) then line[s] else 'a'))
      && (IsOp(t.kind) <==> line[s] == '<' || line[s] == '>')
      && (forall c :: c in "|()&;" ==> (t.kind == c <==> line[s] == c))
  {
  }

  /** parseredirs: the redirections there are, in order. */
  method ParseRedirs(line: string, s: nat) returns (ok: bool, rs: seq<Redirect>, s': nat)
    requires s <= |line| && '\0' !in line
    ensures s' <= |line| && (ok <==> Redirects(Lex(line, s)).Ok?)
    ensures ok ==> Ok(rs, Lex(line, s')) == Redirects(Lex(line, s))
  {
    hide Lex;
    rs := [];
    var more;
    more, s' := Peek(line, s, "<>");
    if s' < |line| { HeadKind(line, s'); }
    ok := true;
    assert Redirects(Lex(line, s)).Ok? ==> [] + Redirects(Lex(line, s)).value == Redirects(Lex(line, s)).value;
    while more
      invariant s' <= |line| && (Redirects(Lex(line, s)).Ok? <==> Redirects(Lex(line, s')).Ok?)
      invariant Redirects(Lex(line, s')).Ok? ==>
        Redirects(Lex(line, s)) == Ok(rs + Redirects(Lex(line, s')).value, Redirects(Lex(line, s')).rest)
      invariant more <==> Lex(line, s') != [] && IsOp(Lex(line, s')[0].kind)
      decreases |Lex(line, s')|
    {
      var ts := Lex(line, s');
      var tok, b, e, q, eq, file;
      tok, b, e, s' := GetToken(line, s');
      file, q, eq, s' := GetToken(line, s');
      if file != 'a' { return false, rs, s'; }
      assert ts[1..][1..] == ts[2..];
      RedirectsStep(ts, rs);
      rs := rs + [Redirect(Tok(tok, b, e), Tok(file, q, eq))];
      more, s' := Peek(line, s', "<>");
      if s' < |line| { HeadKind(line, s'); }
    }
    assert rs + [] == rs;
  }

  lemma {:induction false} RedirectsStep(ts: seq<Tok>, rs: seq<Redirect>)
    requires |ts| >= 2 && IsOp(ts[0].kind) && ts[1].kind == 'a'
    ensures Redirects(ts).Ok? <==> Redirects(ts[2..]).Ok?
    ensures Redirects(ts).Ok? ==>
      Redirects(ts).rest == Redirects(ts[2..]).rest
      && rs + Redirects(ts).value == (rs + [Redirect(ts[0], ts[1])]) + Redirects(ts[2..]).value
  {
  }

  // parseexec's loop over the arguments
  method ParseArgs(line: string, s: nat, rs0: seq<Redirect>)
    returns (ok: bool, argv: seq<Tok>, rs: seq<Redirect>, s': nat)
    requires s <= |line| && '\0' !in line
    ensures s' <= |line| && (ok <==> Args(Lex(line, s), 0).Ok?)
    ensures ok ==> var a := Args(Lex(line, s), 0);
      argv == ArgWords(a.value) && rs == rs0 + ArgRedirects(a.value) && Lex(line, s') == a.rest
  {
    hide Lex, Args, Redirects, ArgWords, ArgRedirects;
    argv, rs, s', ok := [], rs0, s, true;
    ghost var all := Args(Lex(line, s), 0);
    ArgsNone(all, rs0);
    var stop;
    stop, s' := Peek(line, s, "|)&;");
    if s' < |line| { HeadKind(line, s'); }
    while !stop
      invariant s' <= |line| && |argv| < MAXARGS && Rest(all, Args(Lex(line, s'), |argv|), argv, rs0, rs)
      invariant stop <==> Lex(line, s') != [] && Stops(Lex(line, s'))
      decreases |Lex(line, s')|, !stop
    {
      var ts := Lex(line, s');
      var tok, q, eq;
      ArgsStep(ts, |argv|);
      tok, q, eq, s' := GetToken(line, s');
      if tok == '\0' { break; }
      if tok != 'a' { return false, argv, rs, s'; }
      if |argv| + 1 >= MAXARGS { return false, argv, rs, s'; }
      argv := argv + [Tok(tok, q, eq)];
      var more;
      ok, more, s' := ParseRedirs(line, s');
      if !ok { return; }
      RestStep(all, ts, argv[..|argv| - 1], rs0, rs, more);
      assert argv[..|argv| - 1] + [ts[0]] == argv;
      rs := rs + more;
      stop, s' := Peek(line, s', "|)&;");
      if s' < |line| { HeadKind(line, s'); }
    }
    ArgsStep(Lex(line, s'), |argv|);
    RestDone(all, Args(Lex(line, s'), |argv|), argv, rs0, rs);
  }

  /** The arguments parsed so far, argv, with redirections rs, and those to come, r, are all of them. */
  ghost predicate Rest(all: Result<seq<Arg>>, r: Result<seq<Arg>>, argv: seq<Tok>, rs0: seq<Redirect>,
                       rs: seq<Redirect>) {
    && (all.Ok? <==> r.Ok?)
    && (all.Ok? ==> all.rest == r.rest && ArgWords(all.value) == argv + ArgWords(r.value)
                    && rs0 + ArgRedirects(all.value) == rs + ArgRedirects(r.value))
  }

  lemma {:induction false} ArgsNone(all: Result<seq<Arg>>, rs0: seq<Redirect>)
    ensures Rest(all, all, [], rs0, rs0)
  {
  }

  lemma {:induction false} ArgsStep(ts: seq<Tok>, n: nat)
    ensures Stops(ts) ==> Args(ts, n) == Ok([], ts)
    ensures !Stops(ts) && (ts[0].kind != 'a' || n + 1 >= MAXARGS) ==> Args(ts, n).Fail?
    ensures !Stops(ts) && Redirects(ts[1..]).Fail? ==> Args(ts, n).Fail?
  {
  }

  lemma {:induction false} RestStep(all: Result<seq<Arg>>, ts: seq<Tok>, argv: seq<Tok>, rs0: seq<Redirect>,
                                    rs: seq<Redirect>, more: seq<Redirect>)
    requires !Stops(ts) && ts[0].kind == 'a' && |argv| + 1 < MAXARGS && Redirects(ts[1..]).Ok?
    requires Redirects(ts[1..]).value == more
    requires Rest(all, Args(ts, |argv|), argv, rs0, rs)
    ensures Rest(all, Args(Redirects(ts[1..]).rest, |argv| + 1), argv + [ts[0]], rs0, rs + more)
  {
    hide Redirects;
    var a := Args(Redirects(ts[1..]).rest, |argv| + 1);
    if a.Ok? {
      var v := [Arg(ts[0], more)] + a.value;
      assert v[1..] == a.value;
      assert Args(ts, |argv|).value == v;
    }
  }

  lemma {:induction false} RestDone(all: Result<seq<Arg>>, r: Result<seq<Arg>>, argv: seq<Tok>, rs0: seq<Redirect>,
                                    rs: seq<Redirect>)
    requires Rest(all, r, argv, rs0, rs) && r.Ok? && r.value == []
    ensures all.Ok? && all.rest == r.rest && ArgWords(all.value) == argv && rs0 + ArgRedirects(all.value) == rs
  {
    assert argv + [] == argv && rs + [] == rs;
  }

  /** parseexec, parseblock */
  method ParseExecCmd(line: string, s: nat) returns (ok: bool, c: Cmd, s': nat)
    requires s <= |line| && '\0' !in line
    ensures s' <= |line| && (ok <==> ParseExec(Lex(line, s)).Ok?)
    ensures ok ==> c == MeanExec(ParseExec(Lex(line, s)).value) && Lex(line, s') == ParseExec(Lex(line, s)).rest
    decreases |Lex(line, s)|, 0
  {
    hide Lex, Args, Redirects, ParseLine, MeanLine, Wrap, ArgWords, ArgRedirects;
    c := ExecCmd([]);
    var block;
    block, s' := Peek(line, s, "(");
    if s' < |line| { HeadKind(line, s'); }
    var rs;
    if block {
      ghost var ts := Lex(line, s);
      var k, b, e;
      k, b, e, s' := GetToken(line, s');
      ok, c, s' := ParseLineCmd(line, s');
      if !ok { return; }
      var close;
      close, s' := Peek(line, s', ")");
      if s' < |line| { HeadKind(line, s'); }
      if !close { return false, c, s'; }
      k, b, e, s' := GetToken(line, s');
      ok, rs, s' := ParseRedirs(line, s');
      c := Wrap(c, rs);
      return;
    }
    ok, rs, s' := ParseRedirs(line, s');
    if !ok { return; }
    var argv;
    ok, argv, rs, s' := ParseArgs(line, s', rs);
    c := Wrap(ExecCmd(argv), rs);
  }

  method ParsePipeCmd(line: string, s: nat) returns (ok: bool, c: Cmd, s': nat)
    requires s <= |line| && '\0' !in line
    ensures s' <= |line| && (ok <==> ParsePipeline(Lex(line, s)).Ok?)
    ensures ok ==>
              c == MeanPipeline(ParsePipeline(Lex(line, s)).value) && Lex(line, s') == ParsePipeline(Lex(line, s)).rest
    decreases |Lex(line, s)|, 1
  {
    hide Lex, ParseExec, MeanExec;
    ok, c, s' := ParseExecCmd(line, s);
    if !ok { return; }
    var bar;
    bar, s' := Peek(line, s', "|");
    if s' < |line| { HeadKind(line, s'); }
    if bar {
      var k, b, e, right;
      k, b, e, s' := GetToken(line, s');
      ok, right, s' := ParsePipeCmd(line, s');
      c := PipeCmd(c, right);
    }
  }

  /** parseline: what the tree of the line's tokens means. */
  method ParseLineCmd(line: string, s: nat) returns (ok: bool, c: Cmd, s': nat)
    requires s <= |line| && '\0' !in line
    ensures s' <= |line| && (ok <==> ParseLine(Lex(line, s)).Ok?)
    ensures ok ==> c == MeanLine(ParseLine(Lex(line, s)).value) && Lex(line, s') == ParseLine(Lex(line, s)).rest
    decreases |Lex(line, s)|, 2
  {
    hide Lex, ParsePipeline, MeanPipeline;
    ok, c, s' := ParsePipeCmd(line, s);
    if !ok { return; }
    ghost var rest, c0, n := Lex(line, s'), c, 0;
    var more, k, b, e;
    more, s' := Peek(line, s', "&");
    if s' < |line| { HeadKind(line, s'); }
    while more
      invariant s' <= |line| && 0 <= n <= |rest| && Lex(line, s') == rest[n..] && Amps(rest) == n + Amps(rest[n..])
      invariant c == Backs(c0, n)
      invariant more <==> Head(rest[n..], '&')
      decreases |rest| - n
    {
      k, b, e, s' := GetToken(line, s');
      assert rest[n..][1..] == rest[n + 1..];
      c, n := BackCmd(c), n + 1;
      more, s' := Peek(line, s', "&");
      if s' < |line| { HeadKind(line, s'); }
    }
    assert n == Amps(rest) && |rest[..n]| == n;
    var semi;
    semi, s' := Peek(line, s', ";");
    if s' < |line| { HeadKind(line, s'); }
    if semi {
      var right;
      k, b, e, s' := GetToken(line, s');
      assert rest[n..][1..] == rest[n + 1..];
      ok, right, s' := ParseLineCmd(line, s');
      c := ListCmd(c, right);
    }
  }
}
