/** Writing the commands of user/sh.c as text, with any white space, and parsing
    them back. */
module ShellPrinting {
  import opened Shell
  import opened ShellSyntax
  import opened ShellText

  predicate Plain(t: Tok) {
    match t
    case Word(w) => w != "" && forall i :: 0 <= i < |w| ==> IsWord(w[i])
    case Sym(c) => c in "<|>&;()+"
  }

  function Image(t: Tok): string {
    match t
    case Word(w) => w
    case Sym(c) => if c == '+' then ">>" else [c]
  }

  predicate Gap(s: string) {
    forall i :: 0 <= i < |s| ==> IsSpace(s[i])
  }

  // Written without a space, the two would be read as one or as others.
  predicate Joins(a: Tok, b: Tok) {
    (a.Word? && b.Word?) || (a == Sym('>') && (b == Sym('>') || b == Sym('+')))
  }

  // Each token with the white space after it.
  datatype Spaced = Spaced(tok: Tok, gap: string)

  predicate Separated(ts: seq<Spaced>) {
    && (forall i :: 0 <= i < |ts| ==> Plain(ts[i].tok) && Gap(ts[i].gap))
    && forall i :: 0 <= i < |ts| - 1 && Joins(ts[i].tok, ts[i + 1].tok) ==> ts[i].gap != ""
  }

  function Render(ts: seq<Spaced>): string {
    if ts == [] then "" else Image(ts[0].tok) + ts[0].gap + Render(ts[1..])
  }

  function Toks(ts: seq<Spaced>): (r: seq<Tok>)
    ensures |r| == |ts| && forall i :: 0 <= i < |r| ==> r[i] == ts[i].tok
  {
    seq(|ts|, i requires 0 <= i < |ts| => ts[i].tok)
  }

  // ---------- reading one token ----------

  lemma {:induction false} WordEndIs(s: string, i: nat, j: nat)
    requires i <= j <= |s| && (j < |s| ==> !IsWord(s[j])) && forall k :: i <= k < j ==> IsWord(s[k])
    ensures WordEnd(s, i) == j
    decreases j - i
  {
    if i < j { WordEndIs(s, i + 1, j); }
  }

  // The token ends where its image ends.
  predicate Bounded(s: string, e: nat, t: Tok) {
    e < |s| ==> (t.Word? ==> !IsWord(s[e])) && (t == Sym('>') ==> s[e] != '>')
  }

  lemma TokRendered(s: string, i: nat, t: Tok)
    requires Plain(t) && i + |Image(t)| <= |s| && s[i..i + |Image(t)|] == Image(t) && Bounded(s, i + |Image(t)|, t)
    ensures Image(t) != "" && !IsSpace(s[i]) && s[i] != '\0'
    ensures TokEnd(s, i) == i + |Image(t)| && TokAt(s, i) == t
  {
    var e := i + |Image(t)|;
    assert forall k :: i <= k < e ==> s[k] == Image(t)[k - i];
    if t.Word? { WordEndIs(s, i + 1, e); }
  }

  lemma GapTail(g: string)
    requires Gap(g) && g != ""
    ensures Gap(g[1..])
  {
  }

  lemma {:induction false} GapSkipped(s: string, i: nat, e: nat)
    requires i <= e <= |s| && NoNul(s) && Gap(s[i..e])
    ensures Lex(s, i) == Lex(s, e)
    decreases e - i
  {
    if i < e {
      assert IsSpace(s[i..e][0]);
      SpaceSkipped(s, i);
      GapTail(s[i..e]);
      assert s[i..e][1..] == s[i + 1..e];
      GapSkipped(s, i + 1, e);
    }
  }

  lemma SpaceSkipped(s: string, i: nat)
    requires i < |s| && NoNul(s) && IsSpace(s[i])
    ensures Lex(s, i) == Lex(s, i + 1)
  {
  }

  lemma LexStep(s: string, i: nat, t: Tok, e: nat)
    requires i < e <= |s| && NoNul(s) && !IsSpace(s[i]) && TokEnd(s, i) == e && TokAt(s, i) == t
    ensures Lex(s, i) == [t] + Lex(s, e)
  {
    hide TokEnd, TokAt;
  }

  // ---------- reading all of them ----------

  // The first character after a token.
  lemma RenderHead(ts: seq<Spaced>)
    requires ts != [] && Separated(ts)
    ensures Image(ts[0].tok) != "" && Render(ts) != "" && Render(ts)[0] == Image(ts[0].tok)[0]
  {
    assert Plain(ts[0].tok);
  }

  lemma NextCharacter(ts: seq<Spaced>, pre: string, s: string)
    requires ts != [] && Separated(ts) && s == pre + Image(ts[0].tok) + ts[0].gap + Render(ts[1..])
    ensures Bounded(s, |pre| + |Image(ts[0].tok)|, ts[0].tok)
  {
    hide Render, Image;
    var t, e := ts[0], |pre| + |Image(ts[0].tok)|;
    assert Gap(t.gap);
    if t.gap != "" {
      assert s[e] == t.gap[0] && IsSpace(t.gap[0]);
    } else if |ts| > 1 {
      assert Separated(ts[1..]);
      assert !Joins(t.tok, ts[1].tok) && Plain(ts[1].tok);
      RenderHead(ts[1..]);
      assert s[e] == Render(ts[1..])[0];
      FirstOf(t.tok, ts[1].tok);
    } else {
      EmptyText(ts[1..]);
    }
  }

  lemma EmptyText(ts: seq<Spaced>)
    requires ts == []
    ensures Render(ts) == ""
  {
  }

  lemma FirstOf(a: Tok, b: Tok)
    requires Plain(b) && !Joins(a, b)
    ensures (a.Word? ==> !IsWord(Image(b)[0])) && (a == Sym('>') ==> Image(b)[0] != '>')
  {
  }

  lemma RenderSplit(pre: string, ts: seq<Spaced>)
    requires ts != []
    ensures pre + Render(ts) == pre + Image(ts[0].tok) + ts[0].gap + Render(ts[1..])
  {
    hide Image;
    assert pre + (Image(ts[0].tok) + ts[0].gap + Render(ts[1..])) == pre + Image(ts[0].tok) + ts[0].gap + Render(ts[1..]);
  }

  lemma ImageNoNul(pre: string, t: Spaced)
    requires NoNul(pre) && Plain(t.tok) && Gap(t.gap)
    ensures NoNul(pre + Image(t.tok) + t.gap)
  {
  }

  lemma MiddleOf(pre: string, im: string, gap: string, rest: string)
    ensures var s, e := pre + im + gap + rest, |pre| + |im|;
      e + |gap| <= |s| && s[|pre|..e] == im && s[e..e + |gap|] == gap
  {
  }

  // White space does not matter, as long as it keeps tokens apart.
  lemma {:induction false} LexRender(pre: string, ts: seq<Spaced>)
    requires NoNul(pre) && Separated(ts)
    ensures NoNul(pre + Render(ts)) && Lex(pre + Render(ts), |pre|) == Toks(ts)
    decreases |ts|
  {
    hide Lex, TokEnd, TokAt, Plain, Image, IsSpace, Render, NoNul, Gap, Bounded;
    if ts == [] {
      EmptyText(ts);
      assert pre + Render(ts) == pre;
      LexNext(pre, |pre|);
    } else {
      var t, rest := ts[0], ts[1..];
      var s, e := pre + Render(ts), |pre| + |Image(t.tok)|;
      RenderSplit(pre, ts);
      ImageNoNul(pre, t);
      LexRender(pre + Image(t.tok) + t.gap, rest);
      MiddleOf(pre, Image(t.tok), t.gap, Render(rest));
      NextCharacter(ts, pre, s);
      TokRendered(s, |pre|, t.tok);
      LexStep(s, |pre|, t.tok, e);
      GapSkipped(s, e, e + |t.gap|);
      assert Toks(ts) == [t.tok] + Toks(rest);
    }
  }

  // ---------- every text is tokens and white space ----------

  lemma {:induction false} SkippedGap(s: string, i: nat)
    requires i <= |s|
    ensures Gap(s[i..Skip(s, i)])
    decreases |s| - i
  {
    if i < |s| && IsSpace(s[i]) {
      SkippedGap(s, i + 1);
      var g := s[i..Skip(s, i)];
      assert g[1..] == s[i + 1..Skip(s, i)];
      forall k | 0 <= k < |g| ensures IsSpace(g[k]) {
        if k > 0 { assert g[k] == g[1..][k - 1]; }
      }
    }
  }

  lemma TokenText(s: string, j: nat)
    requires j < |s| && !IsSpace(s[j]) && s[j] != '\0'
    ensures Plain(TokAt(s, j)) && s[j..TokEnd(s, j)] == Image(TokAt(s, j)) && Bounded(s, TokEnd(s, j), TokAt(s, j))
  {
    if !IsSymbol(s[j]) {
      var w := s[j..TokEnd(s, j)];
      forall k | 0 <= k < |w| ensures IsWord(w[k]) { assert w[k] == s[j + k]; }
    }
  }

  lemma NotJoined(s: string, e: nat, a: Tok, ts: seq<Spaced>)
    requires e <= |s| && Bounded(s, e, a) && ts != [] && Separated(ts) && s[e..] == Render(ts)
    ensures !Joins(a, ts[0].tok)
  {
    RenderHead(ts);
    assert s[e] == s[e..][0];
    assert Plain(ts[0].tok);
  }

  lemma SeparatedMore(t: Spaced, ts: seq<Spaced>)
    requires Plain(t.tok) && Gap(t.gap) && Separated(ts) && (ts != [] && t.gap == "" ==> !Joins(t.tok, ts[0].tok))
    ensures Separated([t] + ts)
  {
    hide Plain, Gap, Joins;
    var all := [t] + ts;
    assert forall i :: 0 < i < |all| ==> all[i] == ts[i - 1];
  }

  lemma {:induction false} Scanned(s: string, i: nat) returns (g: string, ts: seq<Spaced>)
    requires i <= |s| && NoNul(s)
    ensures Gap(g) && Separated(ts) && Toks(ts) == Lex(s, i) && s[i..] == g + Render(ts)
    decreases |s| - i
  {
    hide TokEnd, TokAt, Plain, Image, IsSpace, Gap, Bounded, Render, Joins, Separated, Toks, Lex, NoNul;
    LexUnfold(s, i);
    var j := Skip(s, i);
    g := s[i..j];
    SkippedGap(s, i);
    if j == |s| {
      ts := [];
      EmptyText(ts);
      NothingSeparated();
      assert s[i..] == g;
    } else {
      var t, e := TokAt(s, j), TokEnd(s, j);
      var h, more := Scanned(s, e);
      TokenText(s, j);
      ts := [Spaced(t, h)] + more;
      if more != [] && h == "" {
        assert s[e..] == Render(more);
        NotJoined(s, e, t, more);
      }
      SeparatedMore(Spaced(t, h), more);
      assert ts[1..] == more;
      ToksMore(Spaced(t, h), more);
      RenderSplit(g, ts);
      Reassembled(s, i, j, e, h, Render(more));
    }
  }

  lemma LexUnfold(s: string, i: nat)
    requires i <= |s| && NoNul(s)
    ensures var j := Skip(s, i);
      if j == |s| then Lex(s, i) == []
      else s[j] != '\0' && !IsSpace(s[j]) && Lex(s, i) == [TokAt(s, j)] + Lex(s, TokEnd(s, j))
  {
  }

  lemma ToksMore(t: Spaced, ts: seq<Spaced>)
    ensures Toks([t] + ts) == [t.tok] + Toks(ts)
  {
  }

  lemma NothingSeparated()
    ensures Separated([]) && Toks([]) == []
  {
  }

  lemma Reassembled(s: string, i: nat, j: nat, e: nat, h: string, rest: string)
    requires i <= j <= e <= |s| && s[e..] == h + rest
    ensures s[i..] == s[i..j] + s[j..e] + h + rest
  {
    assert s[i..] == s[i..j] + s[j..e] + s[e..];
  }

  // The tokens of a text are ts exactly if the text is ts with white space
  // around, enough to keep tokens apart.
  lemma LexExactly(s: string, ts: seq<Tok>)
    requires NoNul(s)
    ensures Lex(s, 0) == ts <==> exists g, sp {:trigger g + Render(sp)} ::
      Gap(g) && Separated(sp) && Toks(sp) == ts && s == g + Render(sp)
  {
    hide Lex, Render, Gap, Separated, Toks, NoNul;
    if Lex(s, 0) == ts {
      var g, sp := Scanned(s, 0);
      assert s[0..] == s;
    }
    forall g, sp | Gap(g) && Separated(sp) && s == g + Render(sp) ensures Lex(s, 0) == Toks(sp) { Read(g, sp); }
  }

  lemma Read(g: string, sp: seq<Spaced>)
    requires Gap(g) && Separated(sp)
    ensures NoNul(g + Render(sp)) && Lex(g + Render(sp), 0) == Toks(sp)
  {
    hide Lex, Render, Separated, Toks, Skip;
    LexRender(g, sp);
    var s := g + Render(sp);
    assert s[0..|g|] == g;
    GapSkipped(s, 0, |g|);
  }

  // ---------- commands as text ----------

  // However a line of the language is laid out, it is parsed to its meaning.
  lemma LaidOut(l: Line, g: string, sp: seq<Spaced>)
    requires Fits(LineCmd(l)) && Gap(g) && Separated(sp) && Toks(sp) == LineText(l)
    ensures NoNul(g + Render(sp)) && CmdOf(Lex(g + Render(sp), 0)) == Ok(LineCmd(l), [])
  {
    Read(g, sp);
    Meant(l);
  }

  ghost predicate PlainWords(c: Cmd<string>) {
    forall w :: w in WordsIn(c) ==> Plain(Word(w))
  }

  // One space after every token.
  function OneSpace(ts: seq<Tok>): (r: seq<Spaced>)
    ensures Toks(r) == ts
  {
    seq(|ts|, i requires 0 <= i < |ts| => Spaced(ts[i], " "))
  }

  lemma {:induction false} ArgTokensPlain(argv: seq<string>, t: Tok)
    requires t in ArgTokens(argv)
    ensures t.Word? && t.text in argv
  {
    if t != Word(argv[0]) { ArgTokensPlain(argv[1..], t); }
  }

  lemma {:induction false} ContentsPlain(c: Cmd<string>, t: Tok)
    requires t in Contents(c)
    ensures if t.Word? then t.text in WordsIn(c) else t.c in "<>+|;&"
  {
    match c
    case Exec(argv) => ArgTokensPlain(argv, t);
    case Redir(d, _, _) => if t in Contents(d) { ContentsPlain(d, t); }
    case Pipe(l, r) => if t in Contents(l) { ContentsPlain(l, t); } else if t in Contents(r) { ContentsPlain(r, t); }
    case List(l, r) => if t in Contents(l) { ContentsPlain(l, t); } else if t in Contents(r) { ContentsPlain(r, t); }
    case Back(d) => if t in Contents(d) { ContentsPlain(d, t); }
  }

  lemma PrintedPlain(c: Cmd<string>, t: Tok)
    requires Fits(c) && PlainWords(c) && t in Printed(c)
    ensures Plain(t)
  {
    hide Printed, Contents, Fits;
    PrintedParses(c);
    Conserved(Printed(c));
    assert t in multiset(Printed(c));
    if t != Sym('(') && t != Sym(')') {
      assert t in Contents(c);
      ContentsPlain(c, t);
    }
  }

  // Parsing undoes printing, for every command tree.
  lemma RoundTrip(c: Cmd<string>)
    requires Fits(c) && PlainWords(c)
    ensures var s := Render(OneSpace(Printed(c))); NoNul(s) && CmdOf(Lex(s, 0)) == Ok(c, [])
  {
    hide Fits, Printed, Render, Lex, CmdOf;
    var sp := OneSpace(Printed(c));
    forall i | 0 <= i < |sp| ensures Plain(sp[i].tok) { PrintedPlain(c, sp[i].tok); }
    assert Separated(sp);
    Read("", sp);
    assert "" + Render(sp) == Render(sp);
    PrintedParses(c);
  }

  lemma {:induction false} LexPlain(s: string, i: nat, t: Tok)
    requires i <= |s| && NoNul(s) && t in Lex(s, i)
    ensures Plain(t)
    decreases |s| - i
  {
    var j := Skip(s, i);
    if t != TokAt(s, j) { LexPlain(s, TokEnd(s, j), t); }
  }

  lemma {:induction false} WordsAccounted(c: Cmd<string>, w: string)
    requires w in WordsIn(c)
    ensures Word(w) in Contents(c)
  {
    match c
    case Exec(argv) => ArgAccounted(argv, w);
    case Redir(d, _, _) => if w in WordsIn(d) { WordsAccounted(d, w); }
    case Pipe(l, r) => if w in WordsIn(l) { WordsAccounted(l, w); } else { WordsAccounted(r, w); }
    case List(l, r) => if w in WordsIn(l) { WordsAccounted(l, w); } else { WordsAccounted(r, w); }
    case Back(d) => WordsAccounted(d, w);
  }

  lemma {:induction false} ArgAccounted(argv: seq<string>, w: string)
    requires w in argv
    ensures Word(w) in ArgTokens(argv)
  {
    if w != argv[0] { ArgAccounted(argv[1..], w); }
  }

  // Every text that is accepted has a command that can be printed and parsed
  // again.
  lemma AcceptedPrints(s: string)
    requires NoNul(s) && CmdOf(Lex(s, 0)).Ok?
    ensures var c := CmdOf(Lex(s, 0)).cmd; var s' := Render(OneSpace(Printed(c)));
      Fits(c) && PlainWords(c) && NoNul(s') && CmdOf(Lex(s', 0)) == CmdOf(Lex(s, 0))
  {
    hide CmdOf, Lex, Render, Fits, Printed;
    var ts := Lex(s, 0);
    var c := CmdOf(ts).cmd;
    Accepted(ts, c);
    Conserved(ts);
    forall w | w in WordsIn(c) ensures Plain(Word(w)) {
      WordsAccounted(c, w);
      assert Word(w) in multiset(ts);
      LexPlain(s, 0, Word(w));
    }
    RoundTrip(c);
  }
}
