/** The scanner and the recursive descent parser of user/sh.c on the text, with
    its cursor, and nulterminate, which ends the words in place. */
module ShellText {
  import opened Shell

  predicate IsSpace(c: char) {
    c in " \t\r\n\U{000B}"
  }

  predicate IsSymbol(c: char) {
    c in "<|>&;()"
  }

  predicate IsWord(c: char) {
    !IsSpace(c) && !IsSymbol(c) && c != '\0'
  }

  // ---------- the tokens of a text ----------

  function Skip(s: string, i: nat): (j: nat)
    requires i <= |s|
    ensures i <= j <= |s| && (j < |s| ==> !IsSpace(s[j]))
    decreases |s| - i
  {
    if i < |s| && IsSpace(s[i]) then Skip(s, i + 1) else i
  }

  function WordEnd(s: string, i: nat): (j: nat)
    requires i <= |s|
    ensures i <= j <= |s| && (j < |s| ==> !IsWord(s[j])) && forall k :: i <= k < j ==> IsWord(s[k])
    decreases |s| - i
  {
    if i < |s| && IsWord(s[i]) then WordEnd(s, i + 1) else i
  }

  predicate NoNul(s: string) {
    forall i :: 0 <= i < |s| ==> s[i] != '\0'
  }

  // The end of the token that begins at i, and the token.
  function TokEnd(s: string, i: nat): (j: nat)
    requires i < |s| && !IsSpace(s[i]) && s[i] != '\0'
    ensures i < j <= |s|
  {
    if s[i] == '>' && i + 1 < |s| && s[i + 1] == '>' then i + 2
    else if IsSymbol(s[i]) then i + 1
    else WordEnd(s, i + 1)
  }

  function TokAt(s: string, i: nat): Tok
    requires i < |s| && !IsSpace(s[i]) && s[i] != '\0'
  {
    if s[i] == '>' && i + 1 < |s| && s[i + 1] == '>' then Sym('+')
    else if IsSymbol(s[i]) then Sym(s[i])
    else Word(s[i..TokEnd(s, i)])
  }

  function Lex(s: string, i: nat): seq<Tok>
    requires i <= |s| && NoNul(s)
    decreases |s| - i
  {
    var j := Skip(s, i);
    if j == |s| then [] else [TokAt(s, j)] + Lex(s, TokEnd(s, j))
  }

  lemma SkipTwice(s: string, i: nat)
    requires i <= |s| && NoNul(s)
    ensures Skip(s, Skip(s, i)) == Skip(s, i) && Lex(s, Skip(s, i)) == Lex(s, i)
  {
  }

  lemma LexNext(s: string, i: nat)
    requires i <= |s| && NoNul(s)
    ensures Skip(s, i) == |s| ==> Lex(s, i) == []
    ensures Skip(s, i) < |s| ==>
      Lex(s, i) != [] && Lex(s, i)[0] == TokAt(s, Skip(s, i)) && Lex(s, i)[1..] == Lex(s, TokEnd(s, Skip(s, i)))
  {
  }

  // ---------- words by position ----------

  datatype Range = Range(q: nat, eq: nat)
  datatype Result = Parsed(cmd: Cmd<Range>) | Panicked

  // A maximal run of word characters.
  predicate IsToken(s: string, r: Range) {
    && r.q < r.eq <= |s| && (r.eq < |s| ==> !IsWord(s[r.eq]))
    && forall k :: r.q <= k < r.eq ==> IsWord(s[k])
  }

  function Text(s: string, r: Range): string {
    if r.q <= r.eq <= |s| then s[r.q..r.eq] else ""
  }

  function Texts(s: string, rs: seq<Range>): (ws: seq<string>)
    ensures |ws| == |rs| && forall i :: 0 <= i < |rs| ==> ws[i] == Text(s, rs[i])
  {
    if rs == [] then [] else Texts(s, rs[..|rs| - 1]) + [Text(s, rs[|rs| - 1])]
  }

  function FileTexts(s: string, fs: seq<(Range, Kind)>): (ws: seq<(string, Kind)>)
    ensures |ws| == |fs| && forall i :: 0 <= i < |fs| ==> ws[i] == (Text(s, fs[i].0), fs[i].1)
  {
    if fs == [] then [] else FileTexts(s, fs[..|fs| - 1]) + [(Text(s, fs[|fs| - 1].0), fs[|fs| - 1].1)]
  }

  function CmdText(s: string, c: Cmd<Range>): Cmd<string> {
    match c
    case Exec(argv) => Exec(Texts(s, argv))
    case Redir(d, file, kind) => Redir(CmdText(s, d), Text(s, file), kind)
    case Pipe(l, r) => Pipe(CmdText(s, l), CmdText(s, r))
    case List(l, r) => List(CmdText(s, l), CmdText(s, r))
    case Back(d) => Back(CmdText(s, d))
  }

  // The words of a command, by position.
  function Ranges(c: Cmd<Range>): seq<Range> {
    match c
    case Exec(argv) => argv
    case Redir(d, file, _) => Ranges(d) + [file]
    case Pipe(l, r) => Ranges(l) + Ranges(r)
    case List(l, r) => Ranges(l) + Ranges(r)
    case Back(d) => Ranges(d)
  }

  predicate Tokens(s: string, rs: seq<Range>) {
    forall r :: r in rs ==> IsToken(s, r)
  }

  predicate FileTokens(s: string, fs: seq<(Range, Kind)>) {
    forall f :: f in fs ==> IsToken(s, f.0)
  }

  lemma {:induction false} WrapText(s: string, c: Cmd<Range>, fs: seq<(Range, Kind)>)
    requires Tokens(s, Ranges(c)) && FileTokens(s, fs)
    ensures CmdText(s, Wrap(c, fs)) == Wrap(CmdText(s, c), FileTexts(s, fs)) && Tokens(s, Ranges(Wrap(c, fs)))
  {
    if fs != [] {
      var last := fs[|fs| - 1];
      assert last in fs;
      WrapText(s, c, fs[..|fs| - 1]);
      assert FileTexts(s, fs)[..|fs| - 1] == FileTexts(s, fs[..|fs| - 1]);
    }
  }

  // The result of a parsing function is what the grammar says.
  ghost predicate Agrees(r: Result, want: Parse, s: string, pos: nat)
    requires pos <= |s| && NoNul(s)
  {
    match want
    case Panic => r == Panicked
    case Ok(c, rest) => r.Parsed? && Tokens(s, Ranges(r.cmd)) && CmdText(s, r.cmd) == c && Lex(s, pos) == rest
  }

  lemma TextsMore(s: string, rs: seq<Range>, r: Range)
    requires Tokens(s, rs) && IsToken(s, r)
    ensures Texts(s, rs + [r]) == Texts(s, rs) + [Text(s, r)] && Tokens(s, rs + [r])
  {
    assert (rs + [r])[..|rs|] == rs;
  }

  lemma FilesMore(s: string, fs: seq<(Range, Kind)>, r: Range, k: Kind)
    requires FileTokens(s, fs) && IsToken(s, r)
    ensures FileTexts(s, fs + [(r, k)]) == FileTexts(s, fs) + [(Text(s, r), k)] && FileTokens(s, fs + [(r, k)])
  {
    assert (fs + [(r, k)])[..|fs|] == fs;
  }

  lemma BackTokens(s: string, c: Cmd<Range>)
    requires Tokens(s, Ranges(c))
    ensures Tokens(s, Ranges(Back(c)))
  {
  }

  lemma PairTokens(s: string, c: Cmd<Range>, d: Cmd<Range>)
    requires Tokens(s, Ranges(c)) && Tokens(s, Ranges(d))
    ensures Tokens(s, Ranges(List(c, d))) && Tokens(s, Ranges(Pipe(c, d)))
  {
  }

  class Parser {
    const s: string
    var pos: nat

    ghost predicate Valid()
      reads this
    {
      pos <= |s| && NoNul(s)
    }

    constructor (text: string)
      requires NoNul(text)
      ensures Valid() && s == text && pos == 0
    {
      s, pos := text, 0;
    }

    // The loops over whitespace.
    method SkipSpace(i: nat) returns (j: nat)
      requires i <= |s|
      ensures j == Skip(s, i)
    {
      j := i;
      while j < |s| && IsSpace(s[j])
        invariant i <= j <= |s| && Skip(s, i) == Skip(s, j)
      {
        j := j + 1;
      }
    }

    method ScanWord(i: nat) returns (j: nat)
      requires i <= |s| && NoNul(s)
      ensures j == WordEnd(s, i)
    {
      j := i;
      while j < |s| && !IsSpace(s[j]) && !IsSymbol(s[j])
        invariant i <= j <= |s| && WordEnd(s, i) == WordEnd(s, j)
      {
        j := j + 1;
      }
    }

    // The switch of gettoken, at the first character of a token.
    method ScanToken(i: nat) returns (ret: char, j: nat)
      requires i < |s| && NoNul(s) && !IsSpace(s[i])
      ensures j == TokEnd(s, i)
      ensures match TokAt(s, i)
        case Word(w) => ret == 'a' && IsToken(s, Range(i, j)) && Text(s, Range(i, j)) == w
        case Sym(c) => ret == c && c in "<|>&;()+"
    {
      if s[i] in "|();&<" {
        ret, j := s[i], i + 1;
      } else if s[i] == '>' {
        ret, j := '>', i + 1;
        if j < |s| && s[j] == '>' {
          ret, j := '+', j + 1;
        }
      } else {
        ret := 'a';
        j := ScanWord(i);
      }
    }

    method GetToken() returns (ret: char, r: Range)
      requires Valid()
      modifies this`pos
      ensures Valid() && (Lex(s, old(pos)) == [] ==> ret == '\0' && Lex(s, pos) == [])
      ensures Lex(s, old(pos)) != [] ==> Lex(s, pos) == Lex(s, old(pos))[1..]
      ensures Lex(s, old(pos)) != [] ==>
        match Lex(s, old(pos))[0]
        case Word(w) => ret == 'a' && IsToken(s, r) && Text(s, r) == w
        case Sym(c) => ret == c && c in "<|>&;()+"
    {
      hide TokAt, TokEnd, IsToken, Text, Lex;
      LexNext(s, pos);
      var i := SkipSpace(pos);
      SkipTwice(s, pos);
      var q := i;
      ret := '\0';
      if i < |s| {
        ret, i := ScanToken(i);
      }
      r := Range(q, i);
      SkipTwice(s, i);
      pos := SkipSpace(i);
    }

    // toks are symbols; '>' stands for ">>" too.
    method Peek(toks: string) returns (b: bool)
      requires Valid() && forall c :: c in toks ==> IsSymbol(c)
      modifies this`pos
      ensures Valid() && Lex(s, pos) == Lex(s, old(pos)) && Skip(s, pos) == pos
      ensures b <==> Next(Lex(s, pos), if '>' in toks then toks + "+" else toks)
    {
      SkipTwice(s, pos);
      LexNext(s, pos);
      pos := SkipSpace(pos);
      b := pos < |s| && s[pos] in toks;
    }

    // parseredirs, with the redirections as a list.
    method ParseRedirs(fs0: seq<(Range, Kind)>) returns (ok: bool, fs: seq<(Range, Kind)>)
      requires Valid() && FileTokens(s, fs0)
      modifies this`pos
      ensures Valid() && FileTokens(s, fs)
      ensures var want := RedirsOf(Lex(s, old(pos)), FileTexts(s, fs0));
        if ok then want == Redirected(FileTexts(s, fs), Lex(s, pos)) else want == NoFile
    {
      hide Lex, IsToken, Text;
      fs := fs0;
      ghost var want := RedirsOf(Lex(s, pos), FileTexts(s, fs));
      var more := Peek("<>");
      while more
        invariant Valid() && FileTokens(s, fs)
        invariant want == RedirsOf(Lex(s, pos), FileTexts(s, fs)) && (more <==> Next(Lex(s, pos), "<>+"))
        decreases |Lex(s, pos)|
      {
        ghost var ts := Lex(s, pos);
        var tok, _ := GetToken();
        assert Lex(s, pos) == ts[1..];
        var ret, r := GetToken();
        if ret != 'a' {
          assert want == NoFile;
          return false, fs;
        }
        assert Lex(s, pos) == ts[2..];
        FilesMore(s, fs, r, KindOf(tok));
        fs := fs + [(r, KindOf(tok))];
        more := Peek("<>");
      }
      ok := true;
    }

    method ParseLine() returns (r: Result)
      requires Valid()
      modifies this`pos
      ensures Valid() && Agrees(r, LineOf(Lex(s, old(pos))), s, pos)
      decreases |Lex(s, pos)|, 3
    {
      hide Lex, IsToken, Tokens, Ranges;
      ghost var want := LineOf(Lex(s, pos));
      r := ParsePipe();
      if r == Panicked {
        return;
      }
      var cmd := r.cmd;
      var more := Peek("&");
      ghost var start := BacksOf(Lex(s, pos), CmdText(s, cmd));
      while more
        invariant Valid() && Tokens(s, Ranges(cmd)) && |Lex(s, pos)| <= |Lex(s, old(pos))|
        invariant start == BacksOf(Lex(s, pos), CmdText(s, cmd)) && (more <==> Next(Lex(s, pos), "&"))
        decreases |Lex(s, pos)|
      {
        var _, _ := GetToken();
        BackTokens(s, cmd);
        cmd := Back(cmd);
        more := Peek("&");
      }
      r := Parsed(cmd);
      more := Peek(";");
      if more {
        ghost var ts := Lex(s, pos);
        var _, _ := GetToken();
        r := ParseLine();
        if r.Parsed? {
          PairTokens(s, cmd, r.cmd);
          r := Parsed(List(cmd, r.cmd));
        }
      }
    }

    method ParsePipe() returns (r: Result)
      requires Valid()
      modifies this`pos
      ensures Valid() && Agrees(r, PipeOf(Lex(s, old(pos))), s, pos)
      decreases |Lex(s, pos)|, 2
    {
      hide Lex, IsToken, Tokens, Ranges;
      r := ParseExec();
      if r == Panicked {
        return;
      }
      var cmd := r.cmd;
      var more := Peek("|");
      if more {
        var _, _ := GetToken();
        r := ParsePipe();
        if r.Parsed? {
          PairTokens(s, cmd, r.cmd);
          r := Parsed(Pipe(cmd, r.cmd));
        }
      }
    }

    method ParseBlock() returns (r: Result)
      requires Valid() && Next(Lex(s, pos), "(")
      modifies this`pos
      ensures Valid() && Agrees(r, BlockOf(Lex(s, old(pos))), s, pos)
      decreases |Lex(s, pos)|, 0
    {
      hide Lex, IsToken, Tokens, Ranges, RedirsOf, Wrap;
      var _, _ := GetToken();
      r := ParseLine();
      if r == Panicked {
        return;
      }
      var more := Peek(")");
      if !more {
        return Panicked;
      }
      var _, _ := GetToken();
      var ok, fs := ParseRedirs([]);
      if !ok {
        return Panicked;
      }
      WrapText(s, r.cmd, fs);
      r := Parsed(Wrap(r.cmd, fs));
    }

    method ParseExec() returns (r: Result)
      requires Valid()
      modifies this`pos
      ensures Valid() && Agrees(r, ExecOf(Lex(s, old(pos))), s, pos)
      decreases |Lex(s, pos)|, 1
    {
      hide Lex, IsToken, Tokens, Ranges, RedirsOf, Wrap;
      var more := Peek("(");
      if more {
        r := ParseBlock();
        return;
      }
      var ok, fs := ParseRedirs([]);
      if !ok {
        return Panicked;
      }
      r := ParseArgs(fs);
    }

    // The loop of parseexec.
    method ParseArgs(fs0: seq<(Range, Kind)>) returns (r: Result)
      requires Valid() && FileTokens(s, fs0)
      modifies this`pos
      ensures Valid() && Agrees(r, ArgsOf(Lex(s, old(pos)), [], FileTexts(s, fs0)), s, pos)
    {
      hide Lex, IsToken, RedirsOf, Wrap;
      var argv, fs := [], fs0;
      ghost var want := ArgsOf(Lex(s, pos), [], FileTexts(s, fs));
      var stop := Peek("|)&;");
      while !stop
        invariant Valid() && FileTokens(s, fs) && Tokens(s, argv) && |argv| < MAXARGS
        invariant want == ArgsOf(Lex(s, pos), Texts(s, argv), FileTexts(s, fs)) && (stop <==> Next(Lex(s, pos), "|)&;"))
        decreases |Lex(s, pos)|
      {
        ghost var ts := Lex(s, pos);
        var tok, w := GetToken();
        if tok == '\0' {
          break;
        }
        if tok != 'a' {
          return Panicked;
        }
        TextsMore(s, argv, w);
        argv := argv + [w];
        if |argv| >= MAXARGS {
          return Panicked;
        }
        var ok;
        ok, fs := ParseRedirs(fs);
        if !ok {
          return Panicked;
        }
        stop := Peek("|)&;");
      }
      WrapText(s, Exec(argv), fs);
      r := Parsed(Wrap(Exec(argv), fs));
    }
  }
}
