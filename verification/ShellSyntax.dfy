/** The language of user/sh.c written as text is: simple commands with
    redirections anywhere, blocks in parentheses, pipelines, and lines with &
    and ;. The parser accepts exactly this language and gives every text its
    meaning. */
module ShellSyntax {
  import opened Shell

  datatype Redirection = Redirection(kind: Kind, file: string)
  datatype Part = Arg(text: string) | To(redir: Redirection)
  datatype Atom = Simple(parts: seq<Part>) | Block(line: Line, redirs: seq<Redirection>)
  datatype Pipeline = One(atom: Atom) | Piped(atom: Atom, more: Pipeline)
  // amps is the number of & after the pipeline.
  datatype Line = Last(pipeline: Pipeline, amps: nat) | Then(pipeline: Pipeline, amps: nat, next: Line)

  // ---------- the text ----------

  function RedirText(r: Redirection): seq<Tok> {
    [Sym(match r.kind case Input => '<' case Output => '>' case Append => '+'), Word(r.file)]
  }

  function RedirsText(rs: seq<Redirection>): seq<Tok> {
    if rs == [] then [] else RedirText(rs[0]) + RedirsText(rs[1..])
  }

  function PartText(p: Part): seq<Tok> {
    match p case Arg(text) => [Word(text)] case To(r) => RedirText(r)
  }

  function PartsText(ps: seq<Part>): seq<Tok> {
    if ps == [] then [] else PartText(ps[0]) + PartsText(ps[1..])
  }

  function Amps(n: nat): seq<Tok> {
    if n == 0 then [] else [Sym('&')] + Amps(n - 1)
  }

  function AtomText(a: Atom): seq<Tok> {
    match a
    case Simple(parts) => PartsText(parts)
    case Block(line, redirs) => [Sym('(')] + LineText(line) + [Sym(')')] + RedirsText(redirs)
  }

  function PipelineText(p: Pipeline): seq<Tok> {
    match p
    case One(atom) => AtomText(atom)
    case Piped(atom, more) => AtomText(atom) + [Sym('|')] + PipelineText(more)
  }

  function LineText(l: Line): seq<Tok> {
    match l
    case Last(pipeline, amps) => PipelineText(pipeline) + Amps(amps)
    case Then(pipeline, amps, next) => PipelineText(pipeline) + Amps(amps) + [Sym(';')] + LineText(next)
  }

  // ---------- the meaning ----------

  function Args(ps: seq<Part>): seq<string> {
    if ps == [] then []
    else (match ps[0] case Arg(text) => [text] case To(_) => []) + Args(ps[1..])
  }

  function Redirs(ps: seq<Part>): seq<Redirection> {
    if ps == [] then []
    else (match ps[0] case Arg(_) => [] case To(r) => [r]) + Redirs(ps[1..])
  }

  // The last redirection is the outermost node.
  function Redirecting(c: Cmd<string>, rs: seq<Redirection>): Cmd<string>
    decreases |rs|
  {
    if rs == [] then c else Redirecting(Redir(c, rs[0].file, rs[0].kind), rs[1..])
  }

  function InBack(c: Cmd<string>, n: nat): Cmd<string> {
    if n == 0 then c else Back(InBack(c, n - 1))
  }

  function AtomCmd(a: Atom): Cmd<string> {
    match a
    case Simple(parts) => Redirecting(Exec(Args(parts)), Redirs(parts))
    case Block(line, redirs) => Redirecting(LineCmd(line), redirs)
  }

  function PipelineCmd(p: Pipeline): Cmd<string> {
    match p
    case One(atom) => AtomCmd(atom)
    case Piped(atom, more) => Pipe(AtomCmd(atom), PipelineCmd(more))
  }

  function LineCmd(l: Line): Cmd<string> {
    match l
    case Last(pipeline, amps) => InBack(PipelineCmd(pipeline), amps)
    case Then(pipeline, amps, next) => List(InBack(PipelineCmd(pipeline), amps), LineCmd(next))
  }

  // ---------- every text of the language has its meaning ----------

  // What may follow an atom, and what may follow a line.
  predicate Stops(ts: seq<Tok>) {
    ts == [] || Next(ts, "|)&;")
  }

  predicate Ends(ts: seq<Tok>) {
    ts == [] || Next(ts, ")")
  }

  // Commands with too many arguments are refused.
  function Outcome(c: Cmd<string>, rest: seq<Tok>): Parse {
    if Fits(c) then Ok(c, rest) else Panic
  }

  function Pairs(rs: seq<Redirection>): seq<(string, Kind)> {
    if rs == [] then [] else [(rs[0].file, rs[0].kind)] + Pairs(rs[1..])
  }

  lemma {:induction false} WrapIs(c: Cmd<string>, files: seq<(string, Kind)>, rs: seq<Redirection>)
    ensures Wrap(c, files + Pairs(rs)) == Redirecting(Wrap(c, files), rs)
    decreases |rs|
  {
    if rs == [] {
      assert files + Pairs(rs) == files;
    } else {
      var f := (rs[0].file, rs[0].kind);
      assert files + Pairs(rs) == (files + [f]) + Pairs(rs[1..]);
      WrapIs(c, files + [f], rs[1..]);
      assert (files + [f])[..|files|] == files;
    }
  }

  lemma {:induction false} RedirsParsed(rs: seq<Redirection>, rest: seq<Tok>, files: seq<(string, Kind)>)
    requires !Next(rest, "<>+")
    ensures RedirsOf(RedirsText(rs) + rest, files) == Redirected(files + Pairs(rs), rest)
    decreases |rs|
  {
    var ts := RedirsText(rs) + rest;
    if rs == [] {
      assert ts == rest && files + Pairs(rs) == files;
    } else {
      var f := (rs[0].file, rs[0].kind);
      assert ts == RedirText(rs[0]) + (RedirsText(rs[1..]) + rest);
      assert ts[2..] == RedirsText(rs[1..]) + rest;
      RedirsParsed(rs[1..], rest, files + [f]);
      assert (files + [f]) + Pairs(rs[1..]) == files + Pairs(rs);
    }
  }

  // Redirections, then arguments with redirections after each.
  function Remaining(ts: seq<Tok>, argv: seq<string>, files: seq<(string, Kind)>): Parse {
    match RedirsOf(ts, files)
    case NoFile => Panic
    case Redirected(files', rest) => ArgsOf(rest, argv, files')
  }

  lemma RedirFirst(r: Redirection, ts: seq<Tok>, argv: seq<string>, files: seq<(string, Kind)>)
    ensures Remaining(RedirText(r) + ts, argv, files) == Remaining(ts, argv, files + [(r.file, r.kind)])
  {
    hide ArgsOf;
    var all := RedirText(r) + ts;
    assert all[2..] == ts;
  }

  lemma ArgFirst(w: string, ts: seq<Tok>, argv: seq<string>, files: seq<(string, Kind)>)
    ensures Remaining([Word(w)] + ts, argv, files) ==
      if |argv| + 1 >= MAXARGS then Panic else Remaining(ts, argv + [w], files)
  {
    var all := [Word(w)] + ts;
    assert all[1..] == ts && RedirsOf(all, files) == Redirected(files, all);
  }

  lemma NoPart(rest: seq<Tok>, argv: seq<string>, files: seq<(string, Kind)>)
    requires Stops(rest)
    ensures Remaining(rest, argv, files) == Ok(Wrap(Exec(argv), files), rest)
  {
    hide Wrap;
  }

  // The result of parts after the arguments and files that are already there.
  function WithParts(ps: seq<Part>, rest: seq<Tok>, argv: seq<string>, files: seq<(string, Kind)>): Parse {
    if |argv| + |Args(ps)| < MAXARGS then Ok(Wrap(Exec(argv + Args(ps)), files + Pairs(Redirs(ps))), rest) else Panic
  }

  lemma WithArg(w: string, more: seq<Part>, rest: seq<Tok>, argv: seq<string>, files: seq<(string, Kind)>)
    ensures WithParts([Arg(w)] + more, rest, argv, files) == WithParts(more, rest, argv + [w], files)
  {
    hide Wrap;
    MoreArgs(w, more, rest, argv);
  }

  lemma WithRedir(r: Redirection, more: seq<Part>, rest: seq<Tok>, argv: seq<string>, files: seq<(string, Kind)>)
    ensures WithParts([To(r)] + more, rest, argv, files) == WithParts(more, rest, argv, files + [(r.file, r.kind)])
  {
    hide Wrap;
    MoreRedirs(r, more, rest, files);
  }

  lemma {:induction false} PartsParsed(ps: seq<Part>, rest: seq<Tok>, argv: seq<string>, files: seq<(string, Kind)>)
    requires Stops(rest) && |argv| < MAXARGS
    ensures Remaining(PartsText(ps) + rest, argv, files) == WithParts(ps, rest, argv, files)
    decreases |ps|
  {
    hide Remaining, Wrap, WithParts, PartsText;
    if ps == [] {
      NoPart(rest, argv, files);
      NoParts(rest, argv, files);
      NoPartsLeft(rest, argv, files);
    } else {
      var more := ps[1..];
      assert ps == [ps[0]] + more;
      match ps[0]
      case Arg(w) =>
        MoreArgs(w, more, rest, argv);
        ArgFirst(w, PartsText(more) + rest, argv, files);
        WithArg(w, more, rest, argv, files);
        if |argv| + 1 < MAXARGS {
          PartsParsed(more, rest, argv + [w], files);
        } else {
          TooMany(more, rest, argv + [w], files);
        }
      case To(r) =>
        MoreRedirs(r, more, rest, files);
        RedirFirst(r, PartsText(more) + rest, argv, files);
        WithRedir(r, more, rest, argv, files);
        PartsParsed(more, rest, argv, files + [(r.file, r.kind)]);
    }
  }

  lemma NoPartsLeft(rest: seq<Tok>, argv: seq<string>, files: seq<(string, Kind)>)
    requires |argv| < MAXARGS
    ensures WithParts([], rest, argv, files) == Ok(Wrap(Exec(argv), files), rest)
  {
    hide Wrap;
    NoParts(rest, argv, files);
  }

  lemma TooMany(ps: seq<Part>, rest: seq<Tok>, argv: seq<string>, files: seq<(string, Kind)>)
    requires |argv| >= MAXARGS
    ensures WithParts(ps, rest, argv, files) == Panic
  {
  }

  lemma NoParts(ts: seq<Tok>, argv: seq<string>, files: seq<(string, Kind)>)
    ensures PartsText([]) + ts == ts && argv + Args([]) == argv && files + Pairs(Redirs([])) == files
  {
  }

  lemma MoreRedirs(r: Redirection, more: seq<Part>, rest: seq<Tok>, files: seq<(string, Kind)>)
    ensures PartsText([To(r)] + more) + rest == RedirText(r) + (PartsText(more) + rest)
    ensures Args([To(r)] + more) == Args(more)
    ensures files + Pairs(Redirs([To(r)] + more)) == (files + [(r.file, r.kind)]) + Pairs(Redirs(more))
  {
    var ps := [To(r)] + more;
    assert ps[1..] == more && Redirs(ps)[1..] == Redirs(more);
  }

  lemma MoreArgs(w: string, more: seq<Part>, rest: seq<Tok>, argv: seq<string>)
    ensures PartsText([Arg(w)] + more) + rest == [Word(w)] + (PartsText(more) + rest)
    ensures argv + Args([Arg(w)] + more) == (argv + [w]) + Args(more) && Redirs([Arg(w)] + more) == Redirs(more)
  {
    var ps := [Arg(w)] + more;
    assert ps[1..] == more;
  }

  lemma {:induction false} RedirectingFits(c: Cmd<string>, rs: seq<Redirection>)
    ensures Fits(Redirecting(c, rs)) <==> Fits(c)
    decreases |rs|
  {
    if rs != [] { RedirectingFits(Redir(c, rs[0].file, rs[0].kind), rs[1..]); }
  }

  lemma SimpleParsed(ps: seq<Part>, rest: seq<Tok>)
    requires Stops(rest)
    ensures ExecOf(PartsText(ps) + rest) == Outcome(AtomCmd(Simple(ps)), rest)
  {
    hide RedirsOf, ArgsOf, Wrap, Redirecting, Args, Redirs, Pairs, PartsText;
    PartsParsed(ps, rest, [], []);
    assert [] + Args(ps) == Args(ps) && [] + Pairs(Redirs(ps)) == Pairs(Redirs(ps));
    PlainWrap(Exec(Args(ps)), Redirs(ps));
    RedirectingFits(Exec(Args(ps)), Redirs(ps));
    NotBlock(ps, rest);
  }

  lemma PlainWrap(c: Cmd<string>, rs: seq<Redirection>)
    ensures Wrap(c, Pairs(rs)) == Redirecting(c, rs)
  {
    hide Pairs, Redirecting;
    WrapIs(c, [], rs);
    assert [] + Pairs(rs) == Pairs(rs);
  }

  lemma NotBlock(ps: seq<Part>, rest: seq<Tok>)
    requires Stops(rest)
    ensures !Next(PartsText(ps) + rest, "(")
  {
    if ps == [] { assert PartsText(ps) + rest == rest; } else { assert (PartsText(ps) + rest)[0] == PartText(ps[0])[0]; }
  }

  // A line in parentheses.
  lemma BlockParsed(l: Line, rs: seq<Redirection>, rest: seq<Tok>)
    requires Stops(rest)
    requires var more := [Sym(')')] + (RedirsText(rs) + rest); LineOf(LineText(l) + more) == Outcome(LineCmd(l), more)
    ensures ExecOf(AtomText(Block(l, rs)) + rest) == Outcome(AtomCmd(Block(l, rs)), rest)
  {
    hide LineOf, LineText, LineCmd, RedirsOf, RedirsText, Redirecting, Wrap, Pairs, Fits;
    var ts, more := AtomText(Block(l, rs)) + rest, [Sym(')')] + (RedirsText(rs) + rest);
    assert ts == [Sym('(')] + (LineText(l) + more);
    assert ts[1..] == LineText(l) + more;
    assert more[1..] == RedirsText(rs) + rest;
    RedirsParsed(rs, rest, []);
    assert [] + Pairs(rs) == Pairs(rs);
    PlainWrap(LineCmd(l), rs);
    RedirectingFits(LineCmd(l), rs);
  }

  lemma {:induction false} BacksParsed(n: nat, rest: seq<Tok>, c: Cmd<string>, k: nat)
    requires !Next(rest, "&")
    ensures BacksOf(Amps(n) + rest, InBack(c, k)) == (InBack(c, k + n), rest)
    decreases n
  {
    var ts := Amps(n) + rest;
    if n == 0 {
      assert ts == rest;
    } else {
      assert ts[1..] == Amps(n - 1) + rest;
      BacksParsed(n - 1, rest, c, k + 1);
    }
  }

  lemma {:induction false} InBackFits(c: Cmd<string>, n: nat)
    ensures Fits(InBack(c, n)) <==> Fits(c)
  {
    if n > 0 { InBackFits(c, n - 1); }
  }

  lemma {:induction false} AtomParsed(a: Atom, rest: seq<Tok>)
    requires Stops(rest)
    ensures ExecOf(AtomText(a) + rest) == Outcome(AtomCmd(a), rest)
    decreases a
  {
    hide ExecOf, LineOf, LineText, PartsText, RedirsText, AtomCmd, Fits;
    match a
    case Simple(parts) => SimpleParsed(parts, rest);
    case Block(l, rs) =>
      LineParsed(l, [Sym(')')] + (RedirsText(rs) + rest));
      BlockParsed(l, rs, rest);
  }

  lemma {:induction false} PipelineParsed(p: Pipeline, rest: seq<Tok>)
    requires Stops(rest) && !Next(rest, "|")
    ensures PipeOf(PipelineText(p) + rest) == Outcome(PipelineCmd(p), rest)
    decreases p
  {
    hide ExecOf, AtomText, AtomCmd;
    match p
    case One(a) => AtomParsed(a, rest);
    case Piped(a, more) =>
      var others := [Sym('|')] + (PipelineText(more) + rest);
      assert PipelineText(p) + rest == AtomText(a) + others;
      AtomParsed(a, others);
      assert others[1..] == PipelineText(more) + rest;
      PipelineParsed(more, rest);
  }

  lemma {:induction false} LineParsed(l: Line, rest: seq<Tok>)
    requires Ends(rest)
    ensures LineOf(LineText(l) + rest) == Outcome(LineCmd(l), rest)
    decreases l
  {
    hide PipeOf, PipelineText, PipelineCmd, Amps, BacksOf;
    InBackFits(PipelineCmd(l.pipeline), l.amps);
    match l
    case Last(p, n) =>
      assert LineText(l) + rest == PipelineText(p) + (Amps(n) + rest);
      AmpsStop(n, rest);
      PipelineParsed(p, Amps(n) + rest);
      BacksParsed(n, rest, PipelineCmd(p), 0);
    case Then(p, n, next) =>
      var others := [Sym(';')] + (LineText(next) + rest);
      assert LineText(l) + rest == PipelineText(p) + (Amps(n) + others);
      AmpsStop(n, others);
      PipelineParsed(p, Amps(n) + others);
      BacksParsed(n, others, PipelineCmd(p), 0);
      assert others[1..] == LineText(next) + rest;
      LineParsed(next, rest);
  }

  lemma AmpsStop(n: nat, rest: seq<Tok>)
    requires rest == [] || Next(rest, ");")
    ensures Stops(Amps(n) + rest) && !Next(Amps(n) + rest, "|")
  {
    if n == 0 { assert Amps(n) + rest == rest; } else { assert (Amps(n) + rest)[0] == Sym('&'); }
  }

  // Every text of the language is parsed to its meaning, unless a simple
  // command in it has too many arguments.
  lemma Meant(l: Line)
    ensures CmdOf(LineText(l)) == Outcome(LineCmd(l), [])
  {
    hide LineOf, LineText, LineCmd, Fits;
    LineParsed(l, []);
    assert LineText(l) + [] == LineText(l);
  }

  // ---------- nothing else is accepted ----------

  lemma {:induction false} RedirsTree(ts: seq<Tok>, files: seq<(string, Kind)>) returns (rs: seq<Redirection>)
    requires RedirsOf(ts, files).Redirected?
    ensures RedirsOf(ts, files).files == files + Pairs(rs) && RedirsText(rs) + RedirsOf(ts, files).rest == ts
    decreases |ts|
  {
    if Next(ts, "<>+") {
      var r := Redirection(KindOf(ts[0].c), ts[1].text);
      var more := RedirsTree(ts[2..], files + [(r.file, r.kind)]);
      rs := [r] + more;
      assert files + Pairs(rs) == (files + [(r.file, r.kind)]) + Pairs(more);
      assert ts == RedirText(r) + ts[2..];
    } else {
      rs := [];
      assert files + Pairs(rs) == files;
    }
  }

  lemma {:induction false} PartsTree(ts: seq<Tok>, argv: seq<string>, files: seq<(string, Kind)>) returns (ps: seq<Part>)
    requires Remaining(ts, argv, files).Ok? && |argv| < MAXARGS
    ensures var r := Remaining(ts, argv, files); PartsText(ps) + r.rest == ts && r == WithParts(ps, r.rest, argv, files)
    decreases |ts|
  {
    hide Remaining, WithParts, Wrap, Args, Redirs, Pairs, PartsText;
    if Stops(ts) {
      ps := [];
      NoPart(ts, argv, files);
      NoParts(ts, argv, files);
      NoPartsLeft(ts, argv, files);
    } else if Next(ts, "<>+") {
      var r := NextRedir(ts, argv, files);
      RedirFirst(r, ts[2..], argv, files);
      var more := PartsTree(ts[2..], argv, files + [(r.file, r.kind)]);
      ps := [To(r)] + more;
      MoreRedirs(r, more, Remaining(ts, argv, files).rest, files);
      WithRedir(r, more, Remaining(ts, argv, files).rest, argv, files);
    } else {
      NextArg(ts, argv, files);
      var w := ts[0].text;
      ArgFirst(w, ts[1..], argv, files);
      var more := PartsTree(ts[1..], argv + [w], files);
      ps := [Arg(w)] + more;
      MoreArgs(w, more, Remaining(ts, argv, files).rest, argv);
      WithArg(w, more, Remaining(ts, argv, files).rest, argv, files);
    }
  }

  lemma NextRedir(ts: seq<Tok>, argv: seq<string>, files: seq<(string, Kind)>) returns (r: Redirection)
    requires Remaining(ts, argv, files).Ok? && Next(ts, "<>+")
    ensures |ts| >= 2 && ts == RedirText(r) + ts[2..]
  {
    hide ArgsOf;
    r := Redirection(KindOf(ts[0].c), ts[1].text);
  }

  lemma NextArg(ts: seq<Tok>, argv: seq<string>, files: seq<(string, Kind)>)
    requires Remaining(ts, argv, files).Ok? && !Stops(ts) && !Next(ts, "<>+")
    ensures ts[0].Word? && ts == [Word(ts[0].text)] + ts[1..]
  {
  }

  // What an accepted text comes from.
  ghost predicate AtomOf(ts: seq<Tok>, a: Atom) {
    ExecOf(ts).Ok? && AtomText(a) + ExecOf(ts).rest == ts && ExecOf(ts).cmd == AtomCmd(a) && Fits(AtomCmd(a))
  }

  ghost predicate PipelineOf(ts: seq<Tok>, p: Pipeline) {
    PipeOf(ts).Ok? && PipelineText(p) + PipeOf(ts).rest == ts && PipeOf(ts).cmd == PipelineCmd(p) && Fits(PipelineCmd(p))
  }

  ghost predicate WholeLine(ts: seq<Tok>, l: Line) {
    LineOf(ts).Ok? && LineText(l) + LineOf(ts).rest == ts && LineOf(ts).cmd == LineCmd(l) && Fits(LineCmd(l))
  }

  lemma SimpleTree(ts: seq<Tok>) returns (a: Atom)
    requires ExecOf(ts).Ok? && !Next(ts, "(")
    ensures AtomOf(ts, a)
  {
    hide RedirsOf, ArgsOf, Wrap, Redirecting, Args, Redirs, Pairs, PartsText;
    var ps := PartsTree(ts, [], []);
    a := Simple(ps);
    assert [] + Args(ps) == Args(ps) && [] + Pairs(Redirs(ps)) == Pairs(Redirs(ps));
    PlainWrap(Exec(Args(ps)), Redirs(ps));
    RedirectingFits(Exec(Args(ps)), Redirs(ps));
  }

  lemma BlockTree(ts: seq<Tok>, l: Line) returns (a: Atom)
    requires ExecOf(ts).Ok? && Next(ts, "(") && WholeLine(ts[1..], l)
    ensures AtomOf(ts, a)
  {
    hide LineOf, LineText, LineCmd, RedirsOf, RedirsText, Redirecting, Wrap, Pairs, Fits;
    var rest := LineOf(ts[1..]).rest;
    var rs := RedirsTree(rest[1..], []);
    a := Block(l, rs);
    assert [] + Pairs(rs) == Pairs(rs);
    PlainWrap(LineCmd(l), rs);
    RedirectingFits(LineCmd(l), rs);
    assert ts == [Sym('(')] + ts[1..] && rest == [Sym(')')] + rest[1..];
    Bracketed(LineText(l), rs, ExecOf(ts).rest);
  }

  lemma Bracketed(line: seq<Tok>, rs: seq<Redirection>, rest: seq<Tok>)
    ensures [Sym('(')] + line + [Sym(')')] + RedirsText(rs) + rest ==
      [Sym('(')] + (line + ([Sym(')')] + (RedirsText(rs) + rest)))
  {
  }

  lemma {:induction false} ExecTree(ts: seq<Tok>) returns (a: Atom)
    requires ExecOf(ts).Ok?
    ensures AtomOf(ts, a)
    decreases |ts|, 0
  {
    hide AtomOf, WholeLine;
    if Next(ts, "(") {
      var l := LineTree(ts[1..]);
      a := BlockTree(ts, l);
    } else {
      a := SimpleTree(ts);
    }
  }

  lemma {:induction false} PipeTree(ts: seq<Tok>) returns (p: Pipeline)
    requires PipeOf(ts).Ok?
    ensures PipelineOf(ts, p)
    decreases |ts|, 1
  {
    hide ExecOf, AtomText, AtomCmd;
    var a := ExecTree(ts);
    var rest := ExecOf(ts).rest;
    if Next(rest, "|") {
      var more := PipeTree(rest[1..]);
      p := Piped(a, more);
      assert rest == [Sym('|')] + rest[1..];
      assert ts == AtomText(a) + ([Sym('|')] + (PipelineText(more) + PipeOf(ts).rest));
    } else {
      p := One(a);
    }
  }

  lemma {:induction false} BacksTree(ts: seq<Tok>, c: Cmd<string>, k: nat) returns (n: nat)
    ensures BacksOf(ts, InBack(c, k)).0 == InBack(c, k + n) && Amps(n) + BacksOf(ts, InBack(c, k)).1 == ts
    decreases |ts|
  {
    if Next(ts, "&") {
      var m := BacksTree(ts[1..], c, k + 1);
      n := m + 1;
      assert ts == [Sym('&')] + ts[1..];
    } else {
      n := 0;
    }
  }

  lemma {:induction false} LineTree(ts: seq<Tok>) returns (l: Line)
    requires LineOf(ts).Ok?
    ensures WholeLine(ts, l)
    decreases |ts|, 2
  {
    hide PipeOf, PipelineText, PipelineCmd, BacksOf, Amps;
    var p := PipeTree(ts);
    var r := PipeOf(ts);
    var n := BacksTree(r.rest, PipelineCmd(p), 0);
    InBackFits(PipelineCmd(p), n);
    var (c, rest) := BacksOf(r.rest, r.cmd);
    if Next(rest, ";") {
      var next := LineTree(rest[1..]);
      l := Then(p, n, next);
      assert rest == [Sym(';')] + rest[1..];
      assert ts == PipelineText(p) + (Amps(n) + ([Sym(';')] + (LineText(next) + LineOf(ts).rest)));
    } else {
      l := Last(p, n);
      assert ts == PipelineText(p) + (Amps(n) + rest);
    }
  }

  // Exactly the texts of the language are accepted.
  lemma Accepted(ts: seq<Tok>, c: Cmd<string>)
    ensures CmdOf(ts) == Ok(c, []) <==> Fits(c) && exists l :: LineText(l) == ts && LineCmd(l) == c
  {
    hide LineOf, LineText, LineCmd, Fits;
    if CmdOf(ts) == Ok(c, []) {
      var l := LineTree(ts);
      assert LineText(l) + [] == LineText(l);
    }
    if l :| LineText(l) == ts && LineCmd(l) == c { Meant(l); }
  }

  // ---------- nothing is lost and nothing is added ----------

  function ArgTokens(argv: seq<string>): multiset<Tok> {
    if argv == [] then multiset{} else multiset{Word(argv[0])} + ArgTokens(argv[1..])
  }

  // The tokens that a command accounts for: its words and one symbol a node.
  function Contents(c: Cmd<string>): multiset<Tok> {
    match c
    case Exec(argv) => ArgTokens(argv)
    case Redir(d, file, Input) => Contents(d) + multiset{Sym('<'), Word(file)}
    case Redir(d, file, Output) => Contents(d) + multiset{Sym('>'), Word(file)}
    case Redir(d, file, Append) => Contents(d) + multiset{Sym('+'), Word(file)}
    case Pipe(l, r) => Contents(l) + multiset{Sym('|')} + Contents(r)
    case List(l, r) => Contents(l) + multiset{Sym(';')} + Contents(r)
    case Back(d) => Contents(d) + multiset{Sym('&')}
  }

  // The tokens of c, and parentheses in pairs.
  ghost predicate Accounted(ts: multiset<Tok>, c: Cmd<string>) {
    && ts[Sym('(')] == ts[Sym(')')]
    && forall t :: t != Sym('(') && t != Sym(')') ==> ts[t] == Contents(c)[t]
  }

  lemma RedirAccounted(ts: multiset<Tok>, c: Cmd<string>, r: Redirection)
    requires Accounted(ts, c)
    ensures Accounted(ts + multiset(RedirText(r)), Redir(c, r.file, r.kind))
  {
    assert forall t :: multiset(RedirText(r))[t] == multiset{RedirText(r)[0], Word(r.file)}[t];
  }

  lemma {:induction false} RedirsAccounted(ts: multiset<Tok>, c: Cmd<string>, rs: seq<Redirection>)
    requires Accounted(ts, c)
    ensures Accounted(ts + multiset(RedirsText(rs)), Redirecting(c, rs))
    decreases |rs|
  {
    hide Accounted, RedirText;
    if rs == [] {
      assert ts + multiset(RedirsText(rs)) == ts;
    } else {
      RedirAccounted(ts, c, rs[0]);
      RedirsAccounted(ts + multiset(RedirText(rs[0])), Redir(c, rs[0].file, rs[0].kind), rs[1..]);
      assert ts + multiset(RedirsText(rs)) == (ts + multiset(RedirText(rs[0]))) + multiset(RedirsText(rs[1..]));
    }
  }

  lemma {:induction false} PartsTokens(ps: seq<Part>)
    ensures multiset(PartsText(ps)) == ArgTokens(Args(ps)) + multiset(RedirsText(Redirs(ps)))
  {
    if ps != [] {
      PartsTokens(ps[1..]);
      if ps[0].Arg? {
        assert Args(ps)[1..] == Args(ps[1..]) && Redirs(ps) == Redirs(ps[1..]);
      } else {
        assert Redirs(ps)[1..] == Redirs(ps[1..]) && Args(ps) == Args(ps[1..]);
      }
    }
  }

  lemma NoParens(argv: seq<string>)
    ensures ArgTokens(argv)[Sym('(')] == 0 && ArgTokens(argv)[Sym(')')] == 0
  {
  }

  lemma AmpAccounted(ts: multiset<Tok>, c: Cmd<string>)
    requires Accounted(ts, c)
    ensures Accounted(ts + multiset{Sym('&')}, Back(c))
  {
  }

  lemma {:induction false} AmpsAccounted(ts: multiset<Tok>, c: Cmd<string>, n: nat)
    requires Accounted(ts, c)
    ensures Accounted(ts + multiset(Amps(n)), InBack(c, n))
  {
    hide Accounted;
    if n == 0 {
      assert ts + multiset(Amps(n)) == ts;
    } else {
      AmpsAccounted(ts, c, n - 1);
      AmpAccounted(ts + multiset(Amps(n - 1)), InBack(c, n - 1));
      assert ts + multiset(Amps(n)) == (ts + multiset(Amps(n - 1))) + multiset{Sym('&')};
    }
  }

  lemma PairAccounted(ls: multiset<Tok>, l: Cmd<string>, rs: multiset<Tok>, r: Cmd<string>)
    requires Accounted(ls, l) && Accounted(rs, r)
    ensures Accounted(ls + multiset{Sym('|')} + rs, Pipe(l, r)) && Accounted(ls + multiset{Sym(';')} + rs, List(l, r))
  {
  }

  lemma BracketsAccounted(ts: multiset<Tok>, c: Cmd<string>)
    requires Accounted(ts, c)
    ensures Accounted(ts + multiset{Sym('('), Sym(')')}, c)
  {
  }

  lemma {:induction false} AtomAccounted(a: Atom)
    ensures Accounted(multiset(AtomText(a)), AtomCmd(a))
    decreases a
  {
    hide Accounted, LineText, LineCmd, RedirsText, Redirecting, PartsText, Args, Redirs;
    match a
    case Simple(parts) =>
      ArgsAccounted(Args(parts));
      RedirsAccounted(ArgTokens(Args(parts)), Exec(Args(parts)), Redirs(parts));
      PartsTokens(parts);
    case Block(l, rs) =>
      LineAccounted(l);
      BracketsAccounted(multiset(LineText(l)), LineCmd(l));
      RedirsAccounted(multiset(LineText(l)) + multiset{Sym('('), Sym(')')}, LineCmd(l), rs);
      assert multiset(AtomText(a)) == multiset(LineText(l)) + multiset{Sym('('), Sym(')')} + multiset(RedirsText(rs));
  }

  lemma ArgsAccounted(argv: seq<string>)
    ensures Accounted(ArgTokens(argv), Exec(argv))
  {
    NoParens(argv);
  }

  lemma {:induction false} PipelineAccounted(p: Pipeline)
    ensures Accounted(multiset(PipelineText(p)), PipelineCmd(p))
    decreases p
  {
    hide Accounted, AtomText, AtomCmd;
    AtomAccounted(p.atom);
    if p.Piped? {
      PipelineAccounted(p.more);
      PairAccounted(multiset(AtomText(p.atom)), AtomCmd(p.atom), multiset(PipelineText(p.more)), PipelineCmd(p.more));
      assert multiset(PipelineText(p)) ==
        multiset(AtomText(p.atom)) + multiset{Sym('|')} + multiset(PipelineText(p.more));
    }
  }

  lemma {:induction false} LineAccounted(l: Line)
    ensures Accounted(multiset(LineText(l)), LineCmd(l))
    decreases l
  {
    hide Accounted, PipelineText, PipelineCmd, Amps, InBack;
    PipelineAccounted(l.pipeline);
    AmpsAccounted(multiset(PipelineText(l.pipeline)), PipelineCmd(l.pipeline), l.amps);
    var item := multiset(PipelineText(l.pipeline)) + multiset(Amps(l.amps));
    if l.Last? {
      assert multiset(LineText(l)) == item;
    } else {
      LineAccounted(l.next);
      PairAccounted(item, InBack(PipelineCmd(l.pipeline), l.amps), multiset(LineText(l.next)), LineCmd(l.next));
      assert multiset(LineText(l)) == item + multiset{Sym(';')} + multiset(LineText(l.next));
    }
  }

  // The words of an accepted text are those of its command, and the command has
  // one node for every other symbol; parentheses come in pairs.
  lemma Conserved(ts: seq<Tok>)
    requires CmdOf(ts).Ok?
    ensures Accounted(multiset(ts), CmdOf(ts).cmd)
  {
    hide LineOf, LineText, LineCmd, Fits, Accounted;
    var l := LineTree(ts);
    assert LineText(l) + [] == LineText(l);
    LineAccounted(l);
  }

  // ---------- printing with parentheses only where they are needed ----------

  // A list needs parentheses inside a pipeline, before & and on the left of ;,
  // a command in the background inside a pipeline, a pipeline on the left of |,
  // and each of them under a redirection.
  function ToLine(c: Cmd<string>): Line
    decreases c, 3
  {
    if c.List? then var (p, n) := ToItem(c.left); Then(p, n, ToLine(c.right))
    else var (p, n) := ToItem(c); Last(p, n)
  }

  function ToItem(c: Cmd<string>): (Pipeline, nat)
    decreases c, 2
  {
    if c.Back? then var (p, n) := ToItem(c.cmd); (p, n + 1) else (ToPipeline(c), 0)
  }

  function ToPipeline(c: Cmd<string>): Pipeline
    decreases c, 1
  {
    if c.Pipe? then Piped(ToAtom(c.left), ToPipeline(c.right)) else One(ToAtom(c))
  }

  function ToAtom(c: Cmd<string>): Atom
    decreases c, 0
  {
    match c
    case Exec(argv) => Simple(ToArgs(argv))
    case Redir(d, file, kind) => (match ToAtom(d)
      case Simple(parts) => Simple(parts + [To(Redirection(kind, file))])
      case Block(l, rs) => Block(l, rs + [Redirection(kind, file)]))
    case Pipe(l, r) => Block(Last(Piped(ToAtom(l), ToPipeline(r)), 0), [])
    case List(l, r) => var (p, n) := ToItem(l); Block(Then(p, n, ToLine(r)), [])
    case Back(d) => var (p, n) := ToItem(d); Block(Last(p, n + 1), [])
  }

  function ToArgs(argv: seq<string>): seq<Part> {
    if argv == [] then [] else [Arg(argv[0])] + ToArgs(argv[1..])
  }

  function Printed(c: Cmd<string>): seq<Tok> {
    LineText(ToLine(c))
  }

  lemma {:induction false} ArgsBack(argv: seq<string>)
    ensures Args(ToArgs(argv)) == argv && Redirs(ToArgs(argv)) == []
  {
    if argv != [] {
      ArgsBack(argv[1..]);
      assert ToArgs(argv)[1..] == ToArgs(argv[1..]);
    }
  }

  lemma {:induction false} OneMoreRedir(c: Cmd<string>, rs: seq<Redirection>, r: Redirection)
    ensures Redirecting(c, rs + [r]) == Redir(Redirecting(c, rs), r.file, r.kind)
    decreases |rs|
  {
    if rs == [] {
      assert Redirecting(Redir(c, r.file, r.kind), []) == Redir(c, r.file, r.kind);
      assert (rs + [r])[1..] == [];
    } else {
      OneMoreRedir(Redir(c, rs[0].file, rs[0].kind), rs[1..], r);
      assert (rs + [r])[1..] == rs[1..] + [r];
    }
  }

  lemma {:induction false} OneMorePart(ps: seq<Part>, r: Redirection)
    ensures Args(ps + [To(r)]) == Args(ps) && Redirs(ps + [To(r)]) == Redirs(ps) + [r]
  {
    if ps == [] {
      assert (ps + [To(r)])[1..] == [];
    } else {
      OneMorePart(ps[1..], r);
      assert (ps + [To(r)])[1..] == ps[1..] + [To(r)];
    }
  }

  lemma {:induction false} AtomBack(c: Cmd<string>)
    ensures AtomCmd(ToAtom(c)) == c
    decreases c, 0
  {
    hide Redirecting, Args, Redirs;
    match c
    case Exec(argv) =>
      ArgsBack(argv);
      NoRedir(c);
    case Redir(d, file, kind) =>
      AtomBack(d);
      var r := Redirection(kind, file);
      var a := ToAtom(d);
      if a.Simple? {
        OneMorePart(a.parts, r);
        OneMoreRedir(Exec(Args(a.parts)), Redirs(a.parts), r);
      } else {
        OneMoreRedir(LineCmd(a.line), a.redirs, r);
      }
    case Pipe(l, r) =>
      AtomBack(l);
      PipelineBack(r);
      NoAmps(Piped(ToAtom(l), ToPipeline(r)));
      NoRedir(c);
    case List(l, r) =>
      ItemBack(l);
      LineBack(r);
      NoRedir(c);
    case Back(d) =>
      ItemBack(d);
      NoRedir(c);
  }

  lemma NoAmps(p: Pipeline)
    ensures LineCmd(Last(p, 0)) == PipelineCmd(p)
  {
  }

  lemma NoRedir(c: Cmd<string>)
    ensures Redirecting(c, []) == c
  {
  }

  lemma {:induction false} PipelineBack(c: Cmd<string>)
    ensures PipelineCmd(ToPipeline(c)) == c
    decreases c, 1
  {
    if c.Pipe? {
      AtomBack(c.left);
      PipelineBack(c.right);
    } else {
      AtomBack(c);
    }
  }

  lemma {:induction false} ItemBack(c: Cmd<string>)
    ensures InBack(PipelineCmd(ToItem(c).0), ToItem(c).1) == c
    decreases c, 2
  {
    if c.Back? { ItemBack(c.cmd); } else { PipelineBack(c); }
  }

  lemma {:induction false} LineBack(c: Cmd<string>)
    ensures LineCmd(ToLine(c)) == c
    decreases c, 3
  {
    if c.List? {
      ItemBack(c.left);
      LineBack(c.right);
    } else {
      ItemBack(c);
    }
  }

  // Every command tree is what its printing parses to.
  lemma PrintedParses(c: Cmd<string>)
    requires Fits(c)
    ensures CmdOf(Printed(c)) == Ok(c, [])
  {
    LineBack(c);
    Meant(ToLine(c));
  }

  // Whatever is accepted can be printed and parsed again with the same result.
  lemma Canonical(ts: seq<Tok>)
    requires CmdOf(ts).Ok?
    ensures CmdOf(Printed(CmdOf(ts).cmd)) == CmdOf(ts)
  {
    Accepted(ts, CmdOf(ts).cmd);
    PrintedParses(CmdOf(ts).cmd);
  }

  // ---------- no text of a command has fewer parentheses ----------

  function AtomBlocks(a: Atom): nat {
    match a case Simple(_) => 0 case Block(l, _) => 1 + LineBlocks(l)
  }

  function PipelineBlocks(p: Pipeline): nat {
    AtomBlocks(p.atom) + if p.Piped? then PipelineBlocks(p.more) else 0
  }

  function LineBlocks(l: Line): nat {
    PipelineBlocks(l.pipeline) + if l.Then? then LineBlocks(l.next) else 0
  }

  lemma {:induction false} NoBracket(rs: seq<Redirection>, ps: seq<Part>, n: nat)
    ensures Sym('(') !in RedirsText(rs) && Sym('(') !in PartsText(ps) && Sym('(') !in Amps(n)
    decreases |rs| + |ps| + n
  {
    if rs != [] { NoBracket(rs[1..], [], 0); }
    if ps != [] { NoBracket([], ps[1..], 0); }
    if n > 0 { NoBracket([], [], n - 1); }
  }

  lemma {:induction false} AtomBrackets(a: Atom)
    ensures multiset(AtomText(a))[Sym('(')] == AtomBlocks(a)
    decreases a
  {
    hide RedirsText, PartsText, LineText, LineBlocks;
    match a
    case Simple(parts) => NoBracket([], parts, 0);
    case Block(l, rs) =>
      NoBracket(rs, [], 0);
      LineBrackets(l);
  }

  lemma {:induction false} PipelineBrackets(p: Pipeline)
    ensures multiset(PipelineText(p))[Sym('(')] == PipelineBlocks(p)
    decreases p
  {
    hide AtomText, AtomBlocks;
    AtomBrackets(p.atom);
    if p.Piped? { PipelineBrackets(p.more); }
  }

  lemma {:induction false} LineBrackets(l: Line)
    ensures multiset(LineText(l))[Sym('(')] == LineBlocks(l)
    decreases l
  {
    hide PipelineText, PipelineBlocks, Amps;
    PipelineBrackets(l.pipeline);
    NoBracket([], [], l.amps);
    if l.Then? { LineBrackets(l.next); }
  }

  // Where fewer forms are allowed, more parentheses are written, at most one
  // pair more.
  lemma {:induction false} Levels(c: Cmd<string>)
    ensures LineBlocks(ToLine(c)) <= PipelineBlocks(ToItem(c).0) <= PipelineBlocks(ToPipeline(c))
    ensures PipelineBlocks(ToPipeline(c)) <= AtomBlocks(ToAtom(c)) <= 1 + LineBlocks(ToLine(c))
  {
    match c
    case Exec(_) => RedirLevels(c);
    case Redir(d, _, _) => RedirLevels(c);
    case Pipe(l, r) =>
      var p := Piped(ToAtom(l), ToPipeline(r));
      assert ToPipeline(c) == p && ToItem(c) == (p, 0) && ToLine(c) == Last(p, 0) && ToAtom(c) == Block(Last(p, 0), []);
    case List(l, r) =>
      var (p, n) := ToItem(l);
      var line := Then(p, n, ToLine(r));
      assert ToLine(c) == line && ToAtom(c) == Block(line, []) && ToPipeline(c) == One(ToAtom(c)) && ToItem(c).0 == ToPipeline(c);
    case Back(d) =>
      var (p, n) := ToItem(d);
      assert ToItem(c) == (p, n + 1) && ToLine(c) == Last(p, n + 1) && ToAtom(c) == Block(Last(p, n + 1), []);
      assert ToPipeline(c) == One(ToAtom(c));
  }

  lemma RedirLevels(c: Cmd<string>)
    requires c.Redir? || c.Exec?
    ensures PipelineBlocks(ToItem(c).0) == PipelineBlocks(ToPipeline(c)) == AtomBlocks(ToAtom(c)) == LineBlocks(ToLine(c))
  {
    assert ToPipeline(c) == One(ToAtom(c)) && ToItem(c) == (ToPipeline(c), 0) && ToLine(c) == Last(ToPipeline(c), 0);
  }

  lemma {:induction false} RedirectedBlocks(c: Cmd<string>, rs: seq<Redirection>)
    ensures AtomBlocks(ToAtom(Redirecting(c, rs))) == AtomBlocks(ToAtom(c))
    decreases |rs|
  {
    if rs != [] { RedirectedBlocks(Redir(c, rs[0].file, rs[0].kind), rs[1..]); }
  }

  lemma {:induction false} BackBlocks(c: Cmd<string>, n: nat)
    ensures PipelineBlocks(ToItem(InBack(c, n)).0) == PipelineBlocks(ToItem(c).0)
  {
    if n > 0 { BackBlocks(c, n - 1); }
  }

  lemma {:induction false} AtomLeast(a: Atom)
    ensures AtomBlocks(ToAtom(AtomCmd(a))) <= AtomBlocks(a)
    decreases a
  {
    hide Redirecting;
    match a
    case Simple(parts) => RedirectedBlocks(Exec(Args(parts)), Redirs(parts));
    case Block(l, rs) =>
      RedirectedBlocks(LineCmd(l), rs);
      Levels(LineCmd(l));
      LineLeast(l);
  }

  lemma {:induction false} PipelineLeast(p: Pipeline)
    ensures PipelineBlocks(ToPipeline(PipelineCmd(p))) <= PipelineBlocks(p)
    decreases p
  {
    AtomLeast(p.atom);
    if p.Piped? { PipelineLeast(p.more); } else { Levels(AtomCmd(p.atom)); }
  }

  lemma {:induction false} LineLeast(l: Line)
    ensures LineBlocks(ToLine(LineCmd(l))) <= LineBlocks(l)
    decreases l
  {
    hide InBack;
    var c := PipelineCmd(l.pipeline);
    PipelineLeast(l.pipeline);
    Levels(c);
    BackBlocks(c, l.amps);
    Levels(InBack(c, l.amps));
    if l.Then? { LineLeast(l.next); }
  }

  lemma FewestParentheses(ts: seq<Tok>)
    requires CmdOf(ts).Ok?
    ensures multiset(Printed(CmdOf(ts).cmd))[Sym('(')] <= multiset(ts)[Sym('(')]
  {
    hide LineOf, LineText, LineCmd, Fits, LineBlocks;
    var l := LineTree(ts);
    assert LineText(l) + [] == LineText(l);
    LineLeast(l);
    LineBrackets(l);
    LineBrackets(ToLine(LineCmd(l)));
  }
}
