/**
 runcmd: which programs a parsed line executes, with which arguments, and what their standard input and
 output are.
 */
module ShRun {
  import opened ShLex
  import opened ShGrammar
  import opened ShCode

  // ----- runcmd -----

  /** What open's flags ask for. */
  datatype How = How(writes: bool, creates: bool, truncates: bool)

  function HowOf(mode: nat): (h: How) { How(mode % 4 != 0, mode / O_CREATE % 2 == 1, mode / O_TRUNC % 2 == 1) }

  /** What a descriptor refers to: what the shell had, an opened file, or an end of the pipe of a PipeCmd,
      which its place in the command names. */
  datatype Stream = Inherited | Opened(file: Tok, how: How) | Pipe(at: seq<nat>, writeEnd: bool)

  /** A process: its descriptors 0 and 1, the files it has opened, in order, and whether its parent waits. */
  datatype Proc = Proc(fd0: Stream, fd1: Stream, opens: seq<Stream>, waited: bool)

  datatype Launch = Launch(args: seq<Tok>, proc: Proc)

  // close(fd) and open, which returns the lowest free descriptor
  function Reopen(p: Proc, fd: nat, s: Stream): (p': Proc) {
    if fd == 0 then p.(fd0 := s, opens := p.opens + [s]) else p.(fd1 := s, opens := p.opens + [s])
  }

  /** What running a command executes. */
  function Runs(c: Cmd, p: Proc, at: seq<nat>): (r: seq<Launch>) {
    match c
    case ExecCmd(args) => if args == [] then [] else [Launch(args, p)]
    case RedirCmd(c, file, mode, fd) => Runs(c, Reopen(p, fd, Opened(file, HowOf(mode))), at)
    case PipeCmd(left, right) =>
      Runs(left, p.(fd1 := Pipe(at, true)), at + [0]) + Runs(right, p.(fd0 := Pipe(at, false)), at + [1])
    case ListCmd(left, right) => Runs(left, p, at + [0]) + Runs(right, p, at + [1])
    case BackCmd(c) => Runs(c, p.(waited := false), at)
  }

  // ----- what a line asks for -----

  function Target(r: Redirect): (s: Stream) {
    Opened(r.file, if r.op.kind == '<' then How(false, false, false) else How(true, true, r.op.kind == '>'))
  }

  // The first redirection of input, and the first of output, count.
  function Input(rs: seq<Redirect>, s: Stream): (r: Stream)
  { if rs == [] then s else if rs[0].op.kind == '<' then Target(rs[0]) else Input(rs[1..], s) }
  function Output(rs: seq<Redirect>, s: Stream): (r: Stream)
  { if rs == [] then s else if rs[0].op.kind != '<' then Target(rs[0]) else Output(rs[1..], s) }

  // All the files are opened, the last one first.
  function Targets(rs: seq<Redirect>): (ss: seq<Stream>)
  { if rs == [] then [] else Targets(rs[1..]) + [Target(rs[0])] }

  function Redirects(rs: seq<Redirect>, p: Proc): (p': Proc)
  { Proc(Input(rs, p.fd0), Output(rs, p.fd1), p.opens + Targets(rs), p.waited) }

  function ExecRuns(x: Exec, p: Proc, at: seq<nat>): (r: seq<Launch>) {
    match x
    case Simple(rs, args) =>
      if args == [] then [] else [Launch(ArgWords(args), Redirects(rs + ArgRedirects(args), p))]
    case Block(_, line, _, rs) => LineRuns(line, Redirects(rs, p), at)
  }

  /** Each command's output is the next one's input. */
  function PipelineRuns(l: Pipeline, p: Proc, at: seq<nat>): (r: seq<Launch>) {
    match l
    case Single(x) => ExecRuns(x, p, at)
    case Piped(x, _, rest) =>
      ExecRuns(x, p.(fd1 := Pipe(at, true)), at + [0]) + PipelineRuns(rest, p.(fd0 := Pipe(at, false)), at + [1])
  }

  /** Pipelines one after the other; & says not to wait. */
  function LineRuns(l: Line, p: Proc, at: seq<nat>): (r: seq<Launch>) {
    var here := if l.Semi? then at + [0] else at;
    var first := PipelineRuns(l.p, p.(waited := p.waited && l.amps == []), here);
    match l
    case Last(_, _) => first
    case Semi(_, _, _, rest) => first + LineRuns(rest, p, at + [1])
  }

  // ----- they are the same -----

  // The mode that the parser chose asks for what the operator means.
  lemma {:induction false} RedirectedRuns(c: Cmd, r: Redirect, p: Proc, at: seq<nat>)
    requires IsOp(r.op.kind)
    ensures Runs(Redirected(c, r), p, at) == Runs(c, Reopen(p, if r.op.kind == '<' then 0 else 1, Target(r)), at)
  {
  }

  lemma {:induction false} LastTarget(rs: seq<Redirect>, r: Redirect, s: Stream)
    ensures Input(rs + [r], s) == Input(rs, if r.op.kind == '<' then Target(r) else s)
    ensures Output(rs + [r], s) == Output(rs, if r.op.kind == '<' then s else Target(r))
    ensures Targets(rs + [r]) == [Target(r)] + Targets(rs)
  {
    if rs == [] {
      assert rs + [r] == [r] && [r][1..] == [];
      assert Targets([r]) == Targets([]) + [Target(r)];
    } else {
      LastTarget(rs[1..], r, s);
      assert (rs + [r])[1..] == rs[1..] + [r];
    }
  }

  lemma {:induction false} LastRedirect(rs: seq<Redirect>, r: Redirect, p: Proc)
    ensures Redirects(rs + [r], p) == Redirects(rs, Reopen(p, if r.op.kind == '<' then 0 else 1, Target(r)))
  {
    hide Target, Input, Output, Targets;
    LastTarget(rs, r, p.fd0);
    LastTarget(rs, r, p.fd1);
    assert p.opens + ([Target(r)] + Targets(rs)) == p.opens + [Target(r)] + Targets(rs);
  }

  lemma {:induction false} WrapRuns(c: Cmd, rs: seq<Redirect>, p: Proc, at: seq<nat>)
    requires RedirectsOk(rs)
    ensures Runs(Wrap(c, rs), p, at) == Runs(c, Redirects(rs, p), at)
    decreases |rs|
  {
    hide Runs, Redirected, Reopen, Target;
    if rs == [] {
      assert Redirects(rs, p) == p;
    } else {
      var front, r := rs[..|rs| - 1], rs[|rs| - 1];
      assert rs == front + [r];
      RedirectedRuns(Wrap(c, front), r, p, at);
      LastRedirect(front, r, p);
      WrapRuns(c, front, Reopen(p, if r.op.kind == '<' then 0 else 1, Target(r)), at);
    }
  }

  lemma {:induction false} ArgRedirectsOk(args: seq<Arg>)
    requires ArgsOk(args)
    ensures RedirectsOk(ArgRedirects(args))
  {
    if args != [] { ArgRedirectsOk(args[1..]); }
  }

  lemma {:induction false} BacksRuns(c: Cmd, n: nat, p: Proc, at: seq<nat>)
    ensures Runs(Backs(c, n), p, at) == Runs(c, p.(waited := p.waited && n == 0), at)
  {
    if n > 0 { BacksRuns(c, n - 1, p.(waited := false), at); }
  }

  lemma {:induction false} ExecMeans(x: Exec, p: Proc, at: seq<nat>)
    requires ExecOk(x)
    ensures Runs(MeanExec(x), p, at) == ExecRuns(x, p, at)
    decreases x
  {
    match x
    case Simple(rs, args) =>
      hide Wrap, Redirects, RedirectsOk;
      assert RedirectsOk(rs + ArgRedirects(args)) by { ArgRedirectsOk(args); BothOk(rs, ArgRedirects(args)); }
      WrapRuns(ExecCmd(ArgWords(args)), rs + ArgRedirects(args), p, at);
    case Block(_, line, _, rs) =>
      hide Wrap, Redirects, RedirectsOk, Runs;
      WrapRuns(MeanLine(line), rs, p, at);
      LineMeans(line, Redirects(rs, p), at);
  }

  lemma {:induction false} BothOk(rs: seq<Redirect>, rs': seq<Redirect>)
    requires RedirectsOk(rs) && RedirectsOk(rs')
    ensures RedirectsOk(rs + rs')
  {
  }

  lemma {:induction false} PipelineMeans(l: Pipeline, p: Proc, at: seq<nat>)
    requires PipelineOk(l)
    ensures Runs(MeanPipeline(l), p, at) == PipelineRuns(l, p, at)
    decreases l
  {
    hide MeanExec, ExecRuns;
    match l
    case Single(x) => ExecMeans(x, p, at);
    case Piped(x, _, rest) =>
      ExecMeans(x, p.(fd1 := Pipe(at, true)), at + [0]);
      PipelineMeans(rest, p.(fd0 := Pipe(at, false)), at + [1]);
  }

  /** Running the command that the parser builds for a line executes what the line asks for: each command
      with its words in order, reading and writing the neighbours in its pipeline unless a redirection, the
      first of its kind, says otherwise. */
  lemma {:induction false} LineMeans(l: Line, p: Proc, at: seq<nat>)
    requires LineOk(l)
    ensures Runs(MeanLine(l), p, at) == LineRuns(l, p, at)
    decreases l
  {
    hide MeanPipeline, PipelineRuns, Backs;
    var here := if l.Semi? then at + [0] else at;
    BacksRuns(MeanPipeline(l.p), |l.amps|, p, here);
    PipelineMeans(l.p, p.(waited := p.waited && l.amps == []), here);
    if l.Semi? { LineMeans(l.rest, p, at + [1]); }
  }
}
