/** parsecmd of user/sh.c as a whole: the text is parsed and its words are ended
    in place. */
module ShellInPlace {
  import opened Shell
  import opened ShellText

  // ---------- nulterminate ----------

  ghost predicate EndsWord(rs: seq<Range>, i: int) {
    exists r :: r in rs && r.eq == i
  }

  // b is the buffer b0 with a NUL at the end of each word of rs.
  ghost predicate Terminated(b0: seq<char>, b: seq<char>, rs: seq<Range>) {
    |b| == |b0| && forall i :: 0 <= i < |b| ==> b[i] == if EndsWord(rs, i) then '\0' else b0[i]
  }

  lemma TerminatedTwice(b0: seq<char>, b1: seq<char>, b: seq<char>, rs: seq<Range>, rs': seq<Range>)
    requires Terminated(b0, b1, rs) && Terminated(b1, b, rs')
    ensures Terminated(b0, b, rs + rs')
  {
    forall i | 0 <= i < |b| ensures b[i] == if EndsWord(rs + rs', i) then '\0' else b0[i] {
      if EndsWord(rs, i) {
        var r :| r in rs && r.eq == i;
        assert r in rs + rs';
      }
      if EndsWord(rs', i) {
        var r :| r in rs' && r.eq == i;
        assert r in rs + rs';
      }
    }
  }

  method NulTerminate(cmd: Cmd<Range>, buf: array<char>)
    requires forall r :: r in Ranges(cmd) ==> r.eq < buf.Length
    modifies buf
    ensures Terminated(old(buf[..]), buf[..], Ranges(cmd))
    decreases cmd, 1
  {
    match cmd
    case Exec(argv) => NulWords(argv, buf);
    case Redir(d, file, _) =>
      NulTerminate(d, buf);
      ghost var b1 := buf[..];
      NulWords([file], buf);
      TerminatedTwice(old(buf[..]), b1, buf[..], Ranges(d), [file]);
    case Pipe(l, r) => NulPair(cmd, l, r, buf);
    case List(l, r) => NulPair(cmd, l, r, buf);
    case Back(d) => NulTerminate(d, buf);
  }

  method NulPair(cmd: Cmd<Range>, l: Cmd<Range>, r: Cmd<Range>, buf: array<char>)
    requires cmd == Pipe(l, r) || cmd == List(l, r)
    requires forall w :: w in Ranges(l) + Ranges(r) ==> w.eq < buf.Length
    modifies buf
    ensures Terminated(old(buf[..]), buf[..], Ranges(l) + Ranges(r))
    decreases cmd, 0
  {
    NulTerminate(l, buf);
    ghost var b1 := buf[..];
    NulTerminate(r, buf);
    TerminatedTwice(old(buf[..]), b1, buf[..], Ranges(l), Ranges(r));
  }

  method NulWords(argv: seq<Range>, buf: array<char>)
    requires forall r :: r in argv ==> r.eq < buf.Length
    modifies buf
    ensures Terminated(old(buf[..]), buf[..], argv)
  {
    var i := 0;
    while i < |argv|
      invariant 0 <= i <= |argv| && Terminated(old(buf[..]), buf[..], argv[..i])
    {
      ghost var b1 := buf[..];
      buf[argv[i].eq] := '\0';
      OneMore(b1, buf[..], argv[i]);
      TerminatedTwice(old(buf[..]), b1, buf[..], argv[..i], [argv[i]]);
      assert argv[..i] + [argv[i]] == argv[..i + 1];
      i := i + 1;
    }
    assert argv[..i] == argv;
  }

  lemma OneMore(b0: seq<char>, b: seq<char>, r: Range)
    requires r.eq < |b0| && b == b0[r.eq := '\0']
    ensures Terminated(b0, b, [r])
  {
    assert r in [r];
  }

  // ---------- words as C strings ----------

  function CString(b: seq<char>, q: nat): string
    decreases |b| - q
  {
    if q >= |b| || b[q] == '\0' then "" else [b[q]] + CString(b, q + 1)
  }

  lemma {:induction false} CStringIs(b: seq<char>, q: nat, eq: nat)
    requires q <= eq < |b| && b[eq] == '\0' && forall i :: q <= i < eq ==> b[i] != '\0'
    ensures CString(b, q) == b[q..eq]
    decreases eq - q
  {
    if q < eq {
      CStringIs(b, q + 1, eq);
      assert b[q..eq] == [b[q]] + b[q + 1..eq];
    }
  }

  // No NUL falls into a word: the end of a word is not a word character.
  lemma WordIntact(s: string, b0: seq<char>, b: seq<char>, rs: seq<Range>, r: Range)
    requires |s| < |b0| && b0[..|s|] == s && b0[|s|] == '\0' && Tokens(s, rs) && Terminated(b0, b, rs) && r in rs
    ensures forall i :: r.q <= i < r.eq ==> !EndsWord(rs, i)
    ensures CString(b, r.q) == Text(s, r)
  {
    assert IsToken(s, r);
    forall i | r.q <= i < r.eq ensures !EndsWord(rs, i) && b[i] == s[i] {
      assert b0[..|s|][i] == s[i];
    }
    assert EndsWord(rs, r.eq);
    CStringIs(b, r.q, r.eq);
    assert b[r.q..r.eq] == s[r.q..r.eq];
  }

  // The command as the program sees it: its words are C strings in the buffer.
  function Strings(b: seq<char>, rs: seq<Range>): (ws: seq<string>)
    ensures |ws| == |rs| && forall i :: 0 <= i < |rs| ==> ws[i] == CString(b, rs[i].q)
  {
    if rs == [] then [] else Strings(b, rs[..|rs| - 1]) + [CString(b, rs[|rs| - 1].q)]
  }

  function InBuffer(b: seq<char>, c: Cmd<Range>): Cmd<string> {
    match c
    case Exec(argv) => Exec(Strings(b, argv))
    case Redir(d, file, kind) => Redir(InBuffer(b, d), CString(b, file.q), kind)
    case Pipe(l, r) => Pipe(InBuffer(b, l), InBuffer(b, r))
    case List(l, r) => List(InBuffer(b, l), InBuffer(b, r))
    case Back(d) => Back(InBuffer(b, d))
  }

  lemma {:induction false} InBufferIs(s: string, b: seq<char>, c: Cmd<Range>)
    requires forall r :: r in Ranges(c) ==> CString(b, r.q) == Text(s, r)
    ensures InBuffer(b, c) == CmdText(s, c)
  {
    match c
    case Exec(argv) => assert Strings(b, argv) == Texts(s, argv);
    case Redir(d, file, kind) =>
      assert file in Ranges(c);
      InBufferIs(s, b, d);
    case Pipe(l, r) => InBufferIs(s, b, l); InBufferIs(s, b, r);
    case List(l, r) => InBufferIs(s, b, l); InBufferIs(s, b, r);
    case Back(d) => InBufferIs(s, b, d);
  }

  // ---------- parsecmd ----------

  method Strlen(buf: array<char>) returns (n: nat)
    requires '\0' in buf[..]
    ensures n < buf.Length && buf[n] == '\0' && forall i :: 0 <= i < n ==> buf[i] != '\0'
  {
    ghost var m :| 0 <= m < buf.Length && buf[..][m] == '\0';
    n := 0;
    while buf[n] != '\0'
      invariant n <= m && forall i :: 0 <= i < n ==> buf[i] != '\0'
      decreases m - n
    {
      n := n + 1;
    }
  }

  // s is the text in the buffer.
  ghost predicate Holds(b: seq<char>, s: string) {
    |s| < |b| && b[..|s|] == s && b[|s|] == '\0' && NoNul(s)
  }

  // parsecmd: the command in the buffer is the one that the grammar assigns
  // to the text; a text without one is refused.
  method ParseCmd(buf: array<char>) returns (r: Result, ghost s: string)
    requires '\0' in buf[..]
    modifies buf
    ensures Holds(old(buf[..]), s)
    ensures match CmdOf(Lex(s, 0))
      case Panic => r == Panicked && buf[..] == old(buf[..])
      case Ok(c, _) => r.Parsed? && InBuffer(buf[..], r.cmd) == c
  {
    hide Lex, LineOf;
    var n := Strlen(buf);
    var text := buf[..n];
    s := text;
    var parser := new Parser(text);
    r := parser.ParseLine();
    if r == Panicked {
      return;
    }
    var _ := parser.Peek("");
    LexEnd(text, parser.pos);
    if parser.pos != n {
      r := Panicked;
      return;
    }
    NulTerminate(r.cmd, buf);
    Ended(s, old(buf[..]), buf[..], r.cmd);
  }

  lemma LexEnd(s: string, pos: nat)
    requires pos <= |s| && NoNul(s) && Skip(s, pos) == pos
    ensures Lex(s, pos) == [] <==> pos == |s|
  {
  }

  lemma Ended(s: string, b0: seq<char>, b: seq<char>, c: Cmd<Range>)
    requires Holds(b0, s) && Tokens(s, Ranges(c)) && Terminated(b0, b, Ranges(c))
    ensures InBuffer(b, c) == CmdText(s, c)
  {
    hide Tokens, Terminated;
    forall r | r in Ranges(c) ensures CString(b, r.q) == Text(s, r) {
      WordIntact(s, b0, b, Ranges(c), r);
    }
    InBufferIs(s, b, c);
  }
}
