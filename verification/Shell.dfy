/** The parser of user/sh.c on tokens. */
module Shell {
  const MAXARGS := 10

  // O_RDONLY on 0, O_WRONLY|O_CREATE|O_TRUNC on 1, O_WRONLY|O_CREATE on 1.
  datatype Kind = Input | Output | Append
  datatype Cmd<T> =
    | Exec(argv: seq<T>)
    | Redir(cmd: Cmd<T>, file: T, kind: Kind)
    | Pipe(left: Cmd<T>, right: Cmd<T>)
    | List(left: Cmd<T>, right: Cmd<T>)
    | Back(cmd: Cmd<T>)

  // A word, or a symbol by the code that gettoken returns for it.
  datatype Tok = Word(text: string) | Sym(c: char)
  datatype Parse = Ok(cmd: Cmd<string>, rest: seq<Tok>) | Panic
  datatype Redirs = Redirected(files: seq<(string, Kind)>, rest: seq<Tok>) | NoFile

  // The next token is one of the symbols.
  predicate Next(ts: seq<Tok>, syms: string) {
    ts != [] && ts[0].Sym? && ts[0].c in syms
  }

  function KindOf(c: char): Kind {
    if c == '<' then Input else if c == '>' then Output else Append
  }

  function Wrap<T>(c: Cmd<T>, files: seq<(T, Kind)>): Cmd<T> {
    if files == [] then c
    else Redir(Wrap(c, files[..|files| - 1]), files[|files| - 1].0, files[|files| - 1].1)
  }

  // ---------- the grammar ----------

  function RedirsOf(ts: seq<Tok>, files: seq<(string, Kind)>): (r: Redirs)
    ensures r.Redirected? ==> |r.rest| <= |ts| && !Next(r.rest, "<>+")
  {
    if !Next(ts, "<>+") then Redirected(files, ts)
    else if |ts| < 2 || !ts[1].Word? then NoFile
    else RedirsOf(ts[2..], files + [(ts[1].text, KindOf(ts[0].c))])
  }

  function ArgsOf(ts: seq<Tok>, argv: seq<string>, files: seq<(string, Kind)>): (r: Parse)
    ensures r.Ok? ==> |r.rest| <= |ts|
    decreases |ts|
  {
    if ts == [] || Next(ts, "|)&;") then Ok(Wrap(Exec(argv), files), ts)
    else if !ts[0].Word? || |argv| + 1 >= MAXARGS then Panic
    else match RedirsOf(ts[1..], files)
      case NoFile => Panic
      case Redirected(files', rest) => ArgsOf(rest, argv + [ts[0].text], files')
  }

  function BacksOf(ts: seq<Tok>, c: Cmd<string>): (r: (Cmd<string>, seq<Tok>))
    ensures |r.1| <= |ts| && !Next(r.1, "&")
  {
    if Next(ts, "&") then BacksOf(ts[1..], Back(c)) else (c, ts)
  }

  function LineOf(ts: seq<Tok>): (r: Parse)
    ensures r.Ok? ==> |r.rest| <= |ts|
    decreases |ts|, 3
  {
    match PipeOf(ts)
    case Panic => Panic
    case Ok(c, rest) =>
      var (c', rest') := BacksOf(rest, c);
      if !Next(rest', ";") then Ok(c', rest')
      else match LineOf(rest'[1..])
        case Panic => Panic
        case Ok(d, rest'') => Ok(List(c', d), rest'')
  }

  function PipeOf(ts: seq<Tok>): (r: Parse)
    ensures r.Ok? ==> |r.rest| <= |ts|
    decreases |ts|, 2
  {
    match ExecOf(ts)
    case Panic => Panic
    case Ok(c, rest) =>
      if !Next(rest, "|") then Ok(c, rest)
      else match PipeOf(rest[1..])
        case Panic => Panic
        case Ok(d, rest') => Ok(Pipe(c, d), rest')
  }

  function ExecOf(ts: seq<Tok>): (r: Parse)
    ensures r.Ok? ==> |r.rest| <= |ts|
    decreases |ts|, 1
  {
    if Next(ts, "(") then BlockOf(ts)
    else match RedirsOf(ts, [])
      case NoFile => Panic
      case Redirected(files, rest) => ArgsOf(rest, [], files)
  }

  function BlockOf(ts: seq<Tok>): (r: Parse)
    requires Next(ts, "(")
    ensures r.Ok? ==> |r.rest| <= |ts|
    decreases |ts|, 0
  {
    match LineOf(ts[1..])
    case Panic => Panic
    case Ok(c, rest) =>
      if !Next(rest, ")") then Panic
      else match RedirsOf(rest[1..], [])
        case NoFile => Panic
        case Redirected(files, rest') => Ok(Wrap(c, files), rest')
  }

  // parsecmd: nothing may be left over.
  function CmdOf(ts: seq<Tok>): (r: Parse)
    ensures r.Ok? ==> r.rest == []
  {
    match LineOf(ts)
    case Panic => Panic
    case Ok(c, rest) => if rest == [] then Ok(c, []) else Panic
  }

  // At most MAXARGS - 1 arguments.
  predicate Fits<T>(c: Cmd<T>) {
    match c
    case Exec(argv) => |argv| < MAXARGS
    case Redir(d, _, _) => Fits(d)
    case Pipe(l, r) => Fits(l) && Fits(r)
    case List(l, r) => Fits(l) && Fits(r)
    case Back(d) => Fits(d)
  }

  // The words of a command.
  function WordsIn(c: Cmd<string>): seq<string> {
    match c
    case Exec(argv) => argv
    case Redir(d, file, _) => WordsIn(d) + [file]
    case Pipe(l, r) => WordsIn(l) + WordsIn(r)
    case List(l, r) => WordsIn(l) + WordsIn(r)
    case Back(d) => WordsIn(d)
  }
}
