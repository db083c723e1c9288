/** The pattern matcher of user/grep.c against the language of the pattern. */
module Regex {
  // What a pattern consists of; '.' stands for any character.
  datatype Item = One(c: char) | Star(c: char)

  predicate FitsChar(c: char, x: char) {
    c == '.' || c == x
  }

  ghost predicate AllFit(c: char, w: string) {
    forall i :: 0 <= i < |w| ==> FitsChar(c, w[i])
  }

  function Items(re: string): seq<Item> {
    if re == "" || re == "$" then []
    else if |re| > 1 && re[1] == '*' then [Star(re[0])] + Items(re[2..])
    else [One(re[0])] + Items(re[1..])
  }

  // The pattern ends in a $ that stands for the end of the text.
  predicate Anchored(re: string) {
    if re == "" then false
    else if |re| > 1 && re[1] == '*' then Anchored(re[2..])
    else if re == "$" then true
    else Anchored(re[1..])
  }

  // ---------- how a pattern is written ----------

  function Written(items: seq<Item>): string {
    if items == [] then ""
    else (match items[0] case One(c) => [c] case Star(c) => [c, '*']) + Written(items[1..])
  }

  function Pattern(items: seq<Item>, anchored: bool): string {
    Written(items) + if anchored then "$" else ""
  }

  // No * stands after a single character, and no single $ at the end.
  predicate Readable(items: seq<Item>, anchored: bool) {
    && (forall i :: 0 <= i < |items| - 1 && items[i].One? ==> items[i + 1].c != '*')
    && (!anchored && items != [] ==> items[|items| - 1] != One('$'))
  }

  lemma ReadableTail(items: seq<Item>, anchored: bool)
    requires items != [] && Readable(items, anchored)
    ensures Readable(items[1..], anchored)
  {
  }

  lemma ReadableMore(item: Item, items: seq<Item>, anchored: bool)
    requires Readable(items, anchored) && (item.One? && items != [] ==> items[0].c != '*')
    requires !anchored && items == [] ==> item != One('$')
    ensures Readable([item] + items, anchored)
  {
    var all := [item] + items;
    assert forall i :: 0 < i < |all| ==> all[i] == items[i - 1];
  }

  lemma ReadStep(re: string)
    requires re != "" && re != "$"
    ensures var k := if |re| > 1 && re[1] == '*' then 2 else 1;
      && k <= |re| && re == (if k == 2 then [re[0], '*'] else [re[0]]) + re[k..]
      && Items(re) == [if k == 2 then Star(re[0]) else One(re[0])] + Items(re[k..])
      && (Anchored(re) <==> Anchored(re[k..]))
  {
  }

  // Every pattern is what its items and its $ write.
  lemma {:induction false} ReadBack(re: string)
    ensures Pattern(Items(re), Anchored(re)) == re && Readable(Items(re), Anchored(re))
  {
    if re == "" || re == "$" {
    } else {
      hide Items, Anchored, Pattern, Written, Readable;
      var k := if |re| > 1 && re[1] == '*' then 2 else 1;
      var item, rest := if k == 2 then Star(re[0]) else One(re[0]), Items(re[k..]);
      ReadStep(re);
      ReadBack(re[k..]);
      WrittenMore(item, rest, Anchored(re));
      if k == 1 && rest != [] { FirstWritten(rest, Anchored(re)); }
      if rest == [] && !Anchored(re) { NothingWritten(); }
      ReadableMore(item, rest, Anchored(re));
    }
  }

  lemma NothingWritten()
    ensures Pattern([], false) == ""
  {
  }

  lemma WrittenMore(item: Item, items: seq<Item>, anchored: bool)
    ensures Pattern([item] + items, anchored) == Written([item]) + Pattern(items, anchored)
    ensures Written([item]) == match item case One(c) => [c] case Star(c) => [c, '*']
  {
    assert ([item] + items)[1..] == items;
  }

  lemma FirstWritten(items: seq<Item>, anchored: bool)
    requires items != []
    ensures Pattern(items, anchored) != "" && Pattern(items, anchored)[0] == items[0].c
  {
  }

  // And reading what was written gives the items back.
  lemma {:induction false} WriteRead(items: seq<Item>, anchored: bool)
    requires Readable(items, anchored)
    ensures Items(Pattern(items, anchored)) == items && (Anchored(Pattern(items, anchored)) <==> anchored)
  {
    var re := Pattern(items, anchored);
    if items != [] {
      var rest := items[1..];
      ReadableTail(items, anchored);
      WriteRead(rest, anchored);
      var more := Pattern(rest, anchored);
      assert [items[0]] + rest == items;
      WrittenMore(items[0], rest, anchored);
      if items[0].Star? {
        assert re[2..] == more;
      } else {
        assert re[1..] == more;
        if rest != [] { FirstWritten(rest, anchored); }
      }
    }
  }

  // ---------- the language of a pattern ----------

  ghost predicate InItem(item: Item, w: string) {
    match item
    case One(c) => |w| == 1 && FitsChar(c, w[0])
    case Star(c) => AllFit(c, w)
  }

  function Joined(ws: seq<string>): string {
    if ws == [] then "" else ws[0] + Joined(ws[1..])
  }

  // ws has one string for each item.
  ghost predicate Parts(items: seq<Item>, ws: seq<string>) {
    |ws| == |items| && forall i :: 0 <= i < |items| ==> InItem(items[i], ws[i])
  }

  ghost predicate InLanguage(items: seq<Item>, w: string) {
    exists ws :: Parts(items, ws) && Joined(ws) == w
  }

  // Some prefix of the text, or all of it, is in the language.
  ghost predicate Here(items: seq<Item>, all: bool, text: string) {
    exists k :: 0 <= k <= |text| && InLanguage(items, text[..k]) && (all ==> k == |text|)
  }

  ghost predicate MatchesHere(re: string, text: string) {
    Here(Items(re), Anchored(re), text)
  }

  ghost predicate Matches(re: string, text: string) {
    if re != "" && re[0] == '^' then MatchesHere(re[1..], text)
    else exists i :: 0 <= i <= |text| && MatchesHere(re, text[i..])
  }

  // ---------- one item at a time ----------

  lemma EmptyLanguage(w: string)
    ensures InLanguage([], w) <==> w == ""
  {
    if w == "" { assert Parts([], []) && Joined([]) == w; }
  }

  lemma SplitFirst(item: Item, items: seq<Item>, w: string) returns (k: nat)
    requires InLanguage([item] + items, w)
    ensures k <= |w| && InItem(item, w[..k]) && InLanguage(items, w[k..])
  {
    var ws :| Parts([item] + items, ws) && Joined(ws) == w;
    k := |ws[0]|;
    assert w[..k] == ws[0] && w[k..] == Joined(ws[1..]);
    assert ([item] + items)[0] == item && ([item] + items)[1..] == items;
    assert Parts(items, ws[1..]);
  }

  lemma AddFirst(item: Item, items: seq<Item>, v: string, w: string)
    requires InItem(item, v) && InLanguage(items, w)
    ensures InLanguage([item] + items, v + w)
  {
    var ws :| Parts(items, ws) && Joined(ws) == w;
    var ws' := [v] + ws;
    assert ws'[1..] == ws;
    assert Parts([item] + items, ws') && Joined(ws') == v + w;
  }

  lemma HereNothing(all: bool, text: string)
    ensures Here([], all, text) <==> !all || text == ""
  {
    forall w ensures InLanguage([], w) <==> w == "" { EmptyLanguage(w); }
    assert text[..0] == "";
  }

  // A match of an item and the rest is a match of the item and one of the rest.
  lemma HereSplit(item: Item, items: seq<Item>, all: bool, text: string) returns (k: nat)
    requires Here([item] + items, all, text)
    ensures k <= |text| && InItem(item, text[..k]) && Here(items, all, text[k..])
  {
    var m :| 0 <= m <= |text| && InLanguage([item] + items, text[..m]) && (all ==> m == |text|);
    k := SplitFirst(item, items, text[..m]);
    assert text[..m][..k] == text[..k];
    assert text[..m][k..] == text[k..][..m - k];
  }

  lemma HereJoin(item: Item, items: seq<Item>, all: bool, text: string, k: nat)
    requires k <= |text| && InItem(item, text[..k]) && Here(items, all, text[k..])
    ensures Here([item] + items, all, text)
  {
    var m :| 0 <= m <= |text[k..]| && InLanguage(items, text[k..][..m]) && (all ==> m == |text[k..]|);
    AddFirst(item, items, text[..k], text[k..][..m]);
    assert text[..k] + text[k..][..m] == text[..k + m];
  }

  // ---------- the program ----------

  // match: the pattern occurs in the text.
  method Match(re: string, text: string) returns (r: bool)
    ensures r <==> Matches(re, text)
  {
    if re != "" && re[0] == '^' {
      r := MatchHere(re[1..], text);
      return;
    }
    var i := 0;
    r := MatchHere(re, text[i..]);
    while !r && i < |text|
      invariant 0 <= i <= |text| && (r <==> MatchesHere(re, text[i..]))
      invariant forall j :: 0 <= j < i ==> !MatchesHere(re, text[j..])
    {
      i := i + 1;
      r := MatchHere(re, text[i..]);
    }
  }

  // matchhere: the pattern occurs at the beginning of the text.
  method MatchHere(re: string, text: string) returns (r: bool)
    ensures r <==> MatchesHere(re, text)
    decreases |re|, 0
  {
    if re == "" {
      HereNothing(false, text);
      return true;
    }
    if |re| > 1 && re[1] == '*' {
      r := MatchStar(re[0], re[2..], text);
      StarHere(re, text);
      return;
    }
    if re == "$" {
      HereNothing(true, text);
      return text == "";
    }
    OneHere(re, text);
    if text != "" && (re[0] == '.' || re[0] == text[0]) {
      r := MatchHere(re[1..], text[1..]);
    } else {
      r := false;
    }
  }

  // matchstar: any number of characters that fit c, and then the pattern.
  method MatchStar(c: char, re: string, text: string) returns (r: bool)
    ensures r <==> exists k :: 0 <= k <= |text| && AllFit(c, text[..k]) && MatchesHere(re, text[k..])
    decreases |re|, 1
  {
    var i := 0;
    r := MatchHere(re, text);
    assert text[0..] == text;
    while !r && i < |text| && (text[i] == c || c == '.')
      invariant 0 <= i <= |text| && (r <==> MatchesHere(re, text[i..])) && AllFit(c, text[..i])
      invariant forall j :: 0 <= j < i ==> !MatchesHere(re, text[j..])
    {
      i := i + 1;
      r := MatchHere(re, text[i..]);
    }
    if !r {
      Beyond(c, text, i);
    }
  }

  // A run of characters that fit c does not go past one that does not.
  lemma Beyond(c: char, text: string, i: nat)
    requires i < |text| ==> !FitsChar(c, text[i])
    ensures forall k :: i < k <= |text| ==> !AllFit(c, text[..k])
  {
    forall k | i < k <= |text| ensures !AllFit(c, text[..k]) {
      assert text[..k][i] == text[i];
    }
  }

  lemma StarHere(re: string, text: string)
    requires |re| > 1 && re[1] == '*'
    ensures MatchesHere(re, text) <==>
      exists k :: 0 <= k <= |text| && AllFit(re[0], text[..k]) && MatchesHere(re[2..], text[k..])
  {
    var items := Items(re[2..]);
    if MatchesHere(re, text) {
      var k := HereSplit(Star(re[0]), items, Anchored(re), text);
      assert MatchesHere(re[2..], text[k..]);
    }
    if k :| 0 <= k <= |text| && AllFit(re[0], text[..k]) && MatchesHere(re[2..], text[k..]) {
      HereJoin(Star(re[0]), items, Anchored(re), text, k);
    }
  }

  lemma OneHere(re: string, text: string)
    requires re != "" && re != "$" && !(|re| > 1 && re[1] == '*')
    ensures MatchesHere(re, text) <==> text != "" && FitsChar(re[0], text[0]) && MatchesHere(re[1..], text[1..])
  {
    var items := Items(re[1..]);
    if MatchesHere(re, text) {
      var k := HereSplit(One(re[0]), items, Anchored(re), text);
    }
    if text != "" && FitsChar(re[0], text[0]) && MatchesHere(re[1..], text[1..]) {
      HereJoin(One(re[0]), items, Anchored(re), text, 1);
    }
  }
}
