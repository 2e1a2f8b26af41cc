/**
 The shell's grammar: syntax trees and the tokens they are written with, and the recursive descent
 that gets the tree back.
 */
module ShGrammar {
  import opened ShLex

  const MAXARGS: nat := 10

  // ----- syntax -----

  /** A redirection: < or > or >>, and a file. */
  datatype Redirect = Redirect(op: Tok, file: Tok)
  /** An argument and the redirections after it. */
  datatype Arg = Arg(word: Tok, rs: seq<Redirect>)
  /** A command: arguments among redirections; or a line in parentheses, then redirections. */
  datatype Exec = Simple(rs: seq<Redirect>, args: seq<Arg>) | Block(open: Tok, line: Line, close: Tok,
                         rs: seq<Redirect>)
  datatype Pipeline = Single(x: Exec) | Piped(x: Exec, bar: Tok, rest: Pipeline)
  /** A pipeline, any number of &, and maybe ; and another line. */
  datatype Line = Last(p: Pipeline, amps: seq<Tok>) | Semi(p: Pipeline, amps: seq<Tok>, semi: Tok, rest: Line)

  predicate IsOp(c: char) { c == '<' || c == '>' || c == '+' }

  predicate RedirectsOk(rs: seq<Redirect>)
  { forall k :: 0 <= k < |rs| ==> IsOp(rs[k].op.kind) && rs[k].file.kind == 'a' }
  predicate ArgsOk(args: seq<Arg>)
  { forall k :: 0 <= k < |args| ==> args[k].word.kind == 'a' && RedirectsOk(args[k].rs) }
  predicate ExecOk(x: Exec) {
    match x
    case Simple(rs, args) => RedirectsOk(rs) && ArgsOk(args) && |args| < MAXARGS
    case Block(open, line, close, rs) => open.kind == '(' && LineOk(line) && close.kind == ')' && RedirectsOk(rs)
  }
  predicate PipelineOk(p: Pipeline) {
    match p
    case Single(x) => ExecOk(x)
    case Piped(x, bar, rest) => ExecOk(x) && bar.kind == '|' && PipelineOk(rest)
  }
  predicate AmpsOk(amps: seq<Tok>) { forall k :: 0 <= k < |amps| ==> amps[k].kind == '&' }
  predicate LineOk(l: Line) {
    match l
    case Last(p, amps) => PipelineOk(p) && AmpsOk(amps)
    case Semi(p, amps, semi, rest) => PipelineOk(p) && AmpsOk(amps) && semi.kind == ';' && LineOk(rest)
  }

  // ----- the tokens a tree is written with -----

  function ShowRedirects(rs: seq<Redirect>): (ts: seq<Tok>)
  { if rs == [] then [] else [rs[0].op, rs[0].file] + ShowRedirects(rs[1..]) }
  function ShowArgs(args: seq<Arg>): (ts: seq<Tok>) {
    if args == [] then [] else [args[0].word] + ShowRedirects(args[0].rs) + ShowArgs(args[1..])
  }
  function ShowExec(x: Exec): (ts: seq<Tok>) {
    match x
    case Simple(rs, args) => ShowRedirects(rs) + ShowArgs(args)
    case Block(open, line, close, rs) => [open] + ShowLine(line) + [close] + ShowRedirects(rs)
  }
  function ShowPipeline(p: Pipeline): (ts: seq<Tok>) {
    match p
    case Single(x) => ShowExec(x)
    case Piped(x, bar, rest) => ShowExec(x) + [bar] + ShowPipeline(rest)
  }
  function ShowLine(l: Line): (ts: seq<Tok>) {
    match l
    case Last(p, amps) => ShowPipeline(p) + amps
    case Semi(p, amps, semi, rest) => ShowPipeline(p) + amps + [semi] + ShowLine(rest)
  }

  // ----- recursive descent -----

  datatype Result<T> = Ok(value: T, rest: seq<Tok>) | Fail

  predicate Head(ts: seq<Tok>, c: char) { ts != [] && ts[0].kind == c }
  predicate Stops(ts: seq<Tok>)
  { ts == [] || ts[0].kind == '|' || ts[0].kind == ')' || ts[0].kind == '&' || ts[0].kind == ';' }

  function Redirects(ts: seq<Tok>): (r: Result<seq<Redirect>>)
    ensures r.Ok? ==> |r.rest| <= |ts|
  {
    if ts == [] || !IsOp(ts[0].kind) then Ok([], ts)
    else if |ts| < 2 || ts[1].kind != 'a' then Fail
    else
      match Redirects(ts[2..])
      case Fail => Fail
      case Ok(rs, rest) => Ok([Redirect(ts[0], ts[1])] + rs, rest)
  }

  // The arguments, when there are n already.
  function Args(ts: seq<Tok>, n: nat): (r: Result<seq<Arg>>)
    ensures r.Ok? ==> |r.rest| <= |ts|
    decreases |ts|
  {
    if Stops(ts) then Ok([], ts)
    else if ts[0].kind != 'a' || n + 1 >= MAXARGS then Fail
    else
      match Redirects(ts[1..])
      case Fail => Fail
      case Ok(rs, rest) =>
        match Args(rest, n + 1)
        case Fail => Fail
        case Ok(args, rest') => Ok([Arg(ts[0], rs)] + args, rest')
  }

  function ParseExec(ts: seq<Tok>): (r: Result<Exec>)
    ensures r.Ok? ==> |r.rest| <= |ts|
    decreases |ts|, 0
  {
    if Head(ts, '(') then
      match ParseLine(ts[1..])
      case Fail => Fail
      case Ok(line, rest) =>
        if !Head(rest, ')') then Fail
        else
          match Redirects(rest[1..])
          case Fail => Fail
          case Ok(rs, rest') => Ok(Block(ts[0], line, rest[0], rs), rest')
    else
      match Redirects(ts)
      case Fail => Fail
      case Ok(rs, rest) =>
        match Args(rest, 0)
        case Fail => Fail
        case Ok(args, rest') => Ok(Simple(rs, args), rest')
  }

  function ParsePipeline(ts: seq<Tok>): (r: Result<Pipeline>)
    ensures r.Ok? ==> |r.rest| <= |ts|
    decreases |ts|, 1
  {
    match ParseExec(ts)
    case Fail => Fail
    case Ok(x, rest) =>
      if !Head(rest, '|') then Ok(Single(x), rest)
      else
        match ParsePipeline(rest[1..])
        case Fail => Fail
        case Ok(p, rest') => Ok(Piped(x, rest[0], p), rest')
  }

  function Amps(ts: seq<Tok>): (n: nat)
    ensures n <= |ts|
  { if Head(ts, '&') then 1 + Amps(ts[1..]) else 0 }

  function ParseLine(ts: seq<Tok>): (r: Result<Line>)
    ensures r.Ok? ==> |r.rest| <= |ts|
    decreases |ts|, 2
  {
    match ParsePipeline(ts)
    case Fail => Fail
    case Ok(p, rest) =>
      var n := Amps(rest);
      if !Head(rest[n..], ';') then Ok(Last(p, rest[..n]), rest[n..])
      else
        match ParseLine(rest[n + 1..])
        case Fail => Fail
        case Ok(l, rest') => Ok(Semi(p, rest[..n], rest[n], l), rest')
  }

  // ----- what is parsed is what was written -----

  lemma {:induction false} Append3(a: seq<Tok>, b: seq<Tok>, c: seq<Tok>)
    ensures a + b + c == a + (b + c)
  {
  }

  lemma {:induction false} Append4(a: seq<Tok>, b: seq<Tok>, c: seq<Tok>, d: seq<Tok>)
    ensures a + b + c + d == a + (b + (c + d))
  {
  }

  lemma {:induction false} Append5(a: seq<Tok>, b: seq<Tok>, c: seq<Tok>, d: seq<Tok>, e: seq<Tok>)
    ensures a + b + c + d + e == a + (b + (c + (d + e)))
  {
  }

  lemma {:induction false} Front(ts: seq<Tok>)
    requires ts != []
    ensures ts == [ts[0]] + ts[1..]
  {
  }

  lemma {:induction false} NoRedirects(ts: seq<Tok>)
    ensures RedirectsOk([]) && ShowRedirects([]) + ts == ts
  {
  }

  lemma {:induction false} ShowMore(x: Redirect, rs: seq<Redirect>, rest: seq<Tok>)
    requires RedirectsOk(rs) && IsOp(x.op.kind) && x.file.kind == 'a'
    ensures RedirectsOk([x] + rs)
    ensures ShowRedirects([x] + rs) + rest == [x.op, x.file] + (ShowRedirects(rs) + rest)
  {
    assert ([x] + rs)[1..] == rs;
  }

  lemma {:induction false} RedirectsSound(ts: seq<Tok>)
    ensures var r := Redirects(ts);
      r.Ok? ==> RedirectsOk(r.value) && ShowRedirects(r.value) + r.rest == ts && (r.rest == [] || !IsOp(r.rest[0].kind))
  {
    hide RedirectsOk, ShowRedirects;
    if ts == [] || !IsOp(ts[0].kind) {
      NoRedirects(ts);
    } else if Redirects(ts).Ok? {
      RedirectsSound(ts[2..]);
      var r := Redirects(ts[2..]);
      assert ts == [ts[0], ts[1]] + ts[2..];
      ShowMore(Redirect(ts[0], ts[1]), r.value, r.rest);
    }
  }

  lemma {:induction false} ArgsSound(ts: seq<Tok>, n: nat)
    requires n < MAXARGS
    ensures var r := Args(ts, n);
      r.Ok? ==> ArgsOk(r.value) && ShowArgs(r.value) + r.rest == ts && n + |r.value| < MAXARGS && Stops(r.rest)
    decreases |ts|
  {
    hide Redirects, ShowRedirects, RedirectsOk;
    if Args(ts, n).Ok? && !Stops(ts) {
      RedirectsSound(ts[1..]);
      var r := Redirects(ts[1..]);
      ArgsSound(r.rest, n + 1);
      var a := Args(r.rest, n + 1);
      assert ([Arg(ts[0], r.value)] + a.value)[1..] == a.value;
      Append4([ts[0]], ShowRedirects(r.value), ShowArgs(a.value), a.rest);
      Front(ts);
    } else if Stops(ts) {
      assert [] + ts == ts;
    }
  }

  lemma {:induction false} ExecSound(ts: seq<Tok>)
    ensures var r := ParseExec(ts); r.Ok? ==> ExecOk(r.value) && ShowExec(r.value) + r.rest == ts
    decreases |ts|, 0
  {
    hide Redirects, Args, ShowRedirects, ShowArgs, RedirectsOk, ArgsOk, ParseLine, ShowLine, LineOk, Stops;
    if ParseExec(ts).Ok? {
      if Head(ts, '(') {
        LineSound(ts[1..]);
        var l := ParseLine(ts[1..]);
        RedirectsSound(l.rest[1..]);
        var r := Redirects(l.rest[1..]);
        Append5([ts[0]], ShowLine(l.value), [l.rest[0]], ShowRedirects(r.value), r.rest);
        Front(ts);
        Front(l.rest);
      } else {
        RedirectsSound(ts);
        var r := Redirects(ts);
        ArgsSound(r.rest, 0);
        Append3(ShowRedirects(r.value), ShowArgs(Args(r.rest, 0).value), Args(r.rest, 0).rest);
      }
    }
  }

  lemma {:induction false} PipelineSound(ts: seq<Tok>)
    ensures var r := ParsePipeline(ts); r.Ok? ==> PipelineOk(r.value) && ShowPipeline(r.value) + r.rest == ts
    decreases |ts|, 1
  {
    hide ParseExec, ShowExec, ExecOk;
    ExecSound(ts);
    var x := ParseExec(ts);
    if x.Ok? && Head(x.rest, '|') {
      PipelineSound(x.rest[1..]);
      var p := ParsePipeline(x.rest[1..]);
      if p.Ok? { Append4(ShowExec(x.value), [x.rest[0]], ShowPipeline(p.value), p.rest); }
      Front(x.rest);
    }
  }

  lemma {:induction false} AmpsAre(ts: seq<Tok>)
    ensures AmpsOk(ts[..Amps(ts)]) && !Head(ts[Amps(ts)..], '&')
  {
    if Head(ts, '&') {
      AmpsAre(ts[1..]);
      assert ts[..Amps(ts)] == [ts[0]] + ts[1..][..Amps(ts[1..])];
      assert ts[Amps(ts)..] == ts[1..][Amps(ts[1..])..];
    }
  }

  /** A tree the parser returns is a good one, and is written with exactly the tokens it consumed. */
  lemma {:induction false} LineSound(ts: seq<Tok>)
    ensures var r := ParseLine(ts); r.Ok? ==> LineOk(r.value) && ShowLine(r.value) + r.rest == ts
    decreases |ts|, 2
  {
    hide ParsePipeline, ShowPipeline, PipelineOk, Amps, AmpsOk;
    PipelineSound(ts);
    var p := ParsePipeline(ts);
    if p.Ok? {
      AmpsAre(p.rest);
      var n := Amps(p.rest);
      assert p.rest == p.rest[..n] + p.rest[n..];
      if Head(p.rest[n..], ';') {
        LineSound(p.rest[n + 1..]);
        var l := ParseLine(p.rest[n + 1..]);
        if l.Ok? { Append5(ShowPipeline(p.value), p.rest[..n], [p.rest[n]], ShowLine(l.value), l.rest); }
        assert p.rest[n..] == [p.rest[n]] + p.rest[n + 1..];
      } else {
        Append3(ShowPipeline(p.value), p.rest[..n], p.rest[n..]);
      }
    }
  }

  // ----- what was written is parsed -----

  lemma {:induction false} RedirectsComplete(rs: seq<Redirect>, rest: seq<Tok>)
    requires RedirectsOk(rs) && (rest == [] || !IsOp(rest[0].kind))
    ensures Redirects(ShowRedirects(rs) + rest) == Ok(rs, rest)
  {
    if rs == [] {
      assert [] + rest == rest;
    } else {
      RedirectsComplete(rs[1..], rest);
      assert [rs[0]] + rs[1..] == rs;
      ShowMore(rs[0], rs[1..], rest);
      hide RedirectsOk, ShowRedirects;
      var ts, more := ShowRedirects(rs) + rest, ShowRedirects(rs[1..]) + rest;
      assert ts == [rs[0].op, rs[0].file] + more;
      assert ts[2..] == more;
    }
  }

  // What arguments begin with.
  lemma {:induction false} ArgsHead(args: seq<Arg>, rest: seq<Tok>)
    requires ArgsOk(args) && Stops(rest)
    ensures var ts := ShowArgs(args) + rest; ts == [] || (!IsOp(ts[0].kind) && ts[0].kind != '(')
    ensures args != [] ==> !Stops(ShowArgs(args) + rest)
  {
  }

  lemma {:induction false} ArgsComplete(args: seq<Arg>, rest: seq<Tok>, n: nat)
    requires ArgsOk(args) && Stops(rest) && n + |args| < MAXARGS
    ensures Args(ShowArgs(args) + rest, n) == Ok(args, rest)
  {
    if args == [] {
      assert [] + rest == rest;
    } else {
      hide Redirects, ShowRedirects, RedirectsOk;
      ArgsComplete(args[1..], rest, n + 1);
      ArgsHead(args[1..], rest);
      ArgsHead(args, rest);
      var ts, more := ShowArgs(args) + rest, ShowArgs(args[1..]) + rest;
      Append4([args[0].word], ShowRedirects(args[0].rs), ShowArgs(args[1..]), rest);
      assert ts[0] == args[0].word && ts[1..] == ShowRedirects(args[0].rs) + more;
      RedirectsComplete(args[0].rs, more);
      assert [args[0]] + args[1..] == args;
    }
  }

  lemma {:induction false} ExecComplete(x: Exec, rest: seq<Tok>)
    requires ExecOk(x) && Stops(rest)
    ensures ParseExec(ShowExec(x) + rest) == Ok(x, rest)
    decreases x
  {
    match x
    case Simple(rs, args) =>
      SimpleComplete(rs, args, rest);
    case Block(open, line, close, rs) =>
      hide Redirects, ShowRedirects, RedirectsOk, ParseLine, ShowLine, LineOk, Args, ShowArgs, ArgsOk;
      var after := ShowRedirects(rs) + rest;
      RedirectsComplete(rs, rest);
      LineComplete(line, [close] + after);
      var ts := ShowExec(x) + rest;
      Append5([open], ShowLine(line), [close], ShowRedirects(rs), rest);
      assert ts[0] == open && ts[1..] == ShowLine(line) + ([close] + after);
      assert ([close] + after)[0] == close && ([close] + after)[1..] == after;
  }

  lemma {:induction false} SimpleComplete(rs: seq<Redirect>, args: seq<Arg>, rest: seq<Tok>)
    requires ExecOk(Simple(rs, args)) && Stops(rest)
    ensures ParseExec(ShowExec(Simple(rs, args)) + rest) == Ok(Simple(rs, args), rest)
  {
    hide Redirects, ShowRedirects, RedirectsOk, ParseLine, Args, ShowArgs, ArgsOk;
    ArgsHead(args, rest);
    RedirectsComplete(rs, ShowArgs(args) + rest);
    ArgsComplete(args, rest, 0);
    RedirectsHead(rs, ShowArgs(args) + rest);
    Append3(ShowRedirects(rs), ShowArgs(args), rest);
  }

  lemma {:induction false} RedirectsHead(rs: seq<Redirect>, rest: seq<Tok>)
    requires RedirectsOk(rs) && !Head(rest, '(')
    ensures !Head(ShowRedirects(rs) + rest, '(')
  {
    if rs == [] { assert [] + rest == rest; }
  }

  lemma {:induction false} PipelineComplete(p: Pipeline, rest: seq<Tok>)
    requires PipelineOk(p) && Stops(rest) && !Head(rest, '|')
    ensures ParsePipeline(ShowPipeline(p) + rest) == Ok(p, rest)
    decreases p
  {
    hide ParseExec, ShowExec, ExecOk;
    match p
    case Single(x) => ExecComplete(x, rest);
    case Piped(x, bar, q) =>
      var after := [bar] + (ShowPipeline(q) + rest);
      ExecComplete(x, after);
      PipelineComplete(q, rest);
      Append4(ShowExec(x), [bar], ShowPipeline(q), rest);
      assert after[1..] == ShowPipeline(q) + rest;
  }

  lemma {:induction false} AmpsCount(amps: seq<Tok>, rest: seq<Tok>)
    requires AmpsOk(amps) && !Head(rest, '&')
    ensures Amps(amps + rest) == |amps|
  {
    if amps == [] {
      assert [] + rest == rest;
    } else {
      AmpsCount(amps[1..], rest);
      assert (amps + rest)[1..] == amps[1..] + rest;
    }
  }

  lemma {:induction false} AmpsStop(amps: seq<Tok>, rest: seq<Tok>)
    requires AmpsOk(amps) && Stops(rest) && !Head(rest, '|')
    ensures Stops(amps + rest) && !Head(amps + rest, '|')
  {
    if amps == [] { assert [] + rest == rest; }
  }

  /** Every good tree comes back from the tokens it is written with, up to the end or a closing
      parenthesis. */
  lemma {:induction false} LineComplete(l: Line, rest: seq<Tok>)
    requires LineOk(l) && (rest == [] || Head(rest, ')'))
    ensures ParseLine(ShowLine(l) + rest) == Ok(l, rest)
    decreases l
  {
    hide ParsePipeline, ShowPipeline, PipelineOk, Amps;
    var after := if l.Last? then rest else [l.semi] + (ShowLine(l.rest) + rest);
    AmpsCount(l.amps, after);
    AmpsStop(l.amps, after);
    PipelineComplete(l.p, l.amps + after);
    if l.Last? {
      Append3(ShowPipeline(l.p), l.amps, rest);
    } else {
      Append5(ShowPipeline(l.p), l.amps, [l.semi], ShowLine(l.rest), rest);
    }
    var n := |l.amps|;
    assert (l.amps + after)[..n] == l.amps && (l.amps + after)[n..] == after;
    if l.Semi? {
      LineComplete(l.rest, rest);
      assert (l.amps + after)[n + 1..] == ShowLine(l.rest) + rest;
    }
  }

  /** The parser accepts a line's tokens exactly when some good tree is written with them, and then
      returns that tree: there is only one. */
  lemma {:induction false} Accepts(ts: seq<Tok>, l: Line)
    ensures ParseLine(ts) == Ok(l, []) <==> LineOk(l) && ShowLine(l) == ts
  {
    LineSound(ts);
    if LineOk(l) && ShowLine(l) == ts {
      LineComplete(l, []);
      assert ts + [] == ts;
    }
    if ParseLine(ts) == Ok(l, []) { assert ShowLine(l) + [] == ShowLine(l); }
  }
}
