/** The command tree against the line, in order: which words are arguments, which files are opened how,
    and what stands between the commands. */
module ShellOrder {
  import opened ShellSyntax

  // ---------------------------------------------------------------- tokens spell the line

  function Spelling(line: seq<char>, t: Tok): seq<char> {
    match t
    case Sym(c) => if c == '+' then ">>" else [c]
    case Word(q, eq) => if q <= eq <= |line| then line[q..eq] else []
  }

  function Spelled(line: seq<char>, toks: seq<Tok>): seq<char> {
    if toks == [] then [] else Spelling(line, toks[0]) + Spelled(line, toks[1..])
  }

  function NoSpaces(s: seq<char>): seq<char> {
    if s == [] then [] else (if IsSpace(s[0]) then [] else [s[0]]) + NoSpaces(s[1..])
  }

  lemma {:induction false} NoSpacesAdd(a: seq<char>, b: seq<char>)
    ensures NoSpaces(a + b) == NoSpaces(a) + NoSpaces(b)
    decreases |a|
  {
    hide NoSpaces;
    if a == [] {
      assert a + b == b;
      NoSpacesNone();
    } else {
      NoSpacesAdd(a[1..], b);
      assert (a + b)[1..] == a[1..] + b;
      NoSpacesStep(a);
      NoSpacesStep(a + b);
    }
  }

  lemma NoSpacesNone()
    ensures NoSpaces([]) == []
  {
  }

  lemma NoSpacesStep(s: seq<char>)
    requires s != []
    ensures NoSpaces(s) == (if IsSpace(s[0]) then [] else [s[0]]) + NoSpaces(s[1..])
  {
  }

  lemma {:induction false} OnlySpaces(a: seq<char>)
    ensures (forall c <- a :: IsSpace(c)) ==> NoSpaces(a) == []
    ensures (forall c <- a :: !IsSpace(c)) ==> NoSpaces(a) == a
    decreases |a|
  {
    if a != [] {
      OnlySpaces(a[1..]);
      assert forall c <- a[1..] :: c in a;
      assert a == [a[0]] + a[1..];
    }
  }

  /** The tokens, written one after the other, are the line without its white space. */
  lemma {:induction false} LexSpells(line: seq<char>, s: nat)
    requires s <= |line| && IsLine(line)
    ensures Spelled(line, Lex(line, s)) == NoSpaces(line[s..])
    decreases |line| - s
  {
    hide Lex, NoSpaces, Spelled, TokenAt;
    var p := Skip(line, s);
    OnlySpaces(line[s..p]);
    NoSpacesAdd(line[s..p], line[p..]);
    assert line[s..] == line[s..p] + line[p..];
    LexStep(line, s);
    if p < |line| {
      var (t, e) := TokenAt(line, p);
      LexSpells(line, e);
      TokenSpelled(line, p);
      NoSpacesAdd(line[p..e], line[e..]);
      assert line[p..] == line[p..e] + line[e..];
      SpelledFirst(line, t, Lex(line, e));
    } else {
      assert line[p..] == [];
      OnlySpaces([]);
    }
  }

  lemma LexStep(line: seq<char>, s: nat)
    requires s <= |line| && IsLine(line)
    ensures var p := Skip(line, s);
            if p == |line| then Lex(line, s) == [] && Spelled(line, []) == []
            else Lex(line, s) == [TokenAt(line, p).0] + Lex(line, TokenAt(line, p).1)
  {
  }

  lemma SpelledFirst(line: seq<char>, t: Tok, toks: seq<Tok>)
    ensures Spelled(line, [t] + toks) == Spelling(line, t) + Spelled(line, toks)
  {
    assert ([t] + toks)[1..] == toks;
  }

  lemma TokenSpelled(line: seq<char>, p: nat)
    requires p < |line| && IsLine(line) && !IsSpace(line[p])
    ensures var (t, e) := TokenAt(line, p); Spelling(line, t) == line[p..e] == NoSpaces(line[p..e])
  {
    var (t, e) := TokenAt(line, p);
    assert forall c <- line[p..e] :: !IsSpace(c);
    OnlySpaces(line[p..e]);
  }

  // ---------------------------------------------------------------- three readings of the tokens

  predicate IsRedirect(t: Tok) { t.Sym? && t.c in {'<', '>', '+'} }

  /** The words that do not follow a redirection symbol. */
  function PlainWords(toks: seq<Tok>): seq<(nat, nat)>
    decreases |toks|
  {
    if toks == [] then []
    else if IsRedirect(toks[0]) then (if |toks| > 1 then PlainWords(toks[2..]) else [])
    else (if toks[0].Word? then [(toks[0].q, toks[0].eq)] else []) + PlainWords(toks[1..])
  }

  /** The redirection symbols with their words. */
  function Redirections(toks: seq<Tok>): seq<(char, nat, nat)>
    decreases |toks|
  {
    if toks == [] then []
    else if IsRedirect(toks[0]) && |toks| > 1 then
      (if toks[1].Word? then [(toks[0].c, toks[1].q, toks[1].eq)] else []) + Redirections(toks[2..])
    else Redirections(toks[1..])
  }

  /** What stands between commands. */
  function Connectives(toks: seq<Tok>): seq<char> {
    if toks == [] then []
    else (if toks[0].Sym? && toks[0].c in {'|', ';', '&'} then [toks[0].c] else []) + Connectives(toks[1..])
  }

  /** No redirection symbol is left without its word at the end. */
  predicate Closed(toks: seq<Tok>) { toks == [] || !IsRedirect(toks[|toks| - 1]) }

  lemma {:induction false} PlainAdd(a: seq<Tok>, b: seq<Tok>)
    requires Closed(a)
    ensures PlainWords(a + b) == PlainWords(a) + PlainWords(b)
    decreases |a|
  {
    hide PlainWords;
    if a == [] {
      assert a + b == b;
      PlainNone();
    } else {
      var k := if IsRedirect(a[0]) then 2 else 1;
      PlainAdd(a[k..], b);
      assert (a + b)[k..] == a[k..] + b && (a + b)[0] == a[0];
      PlainStep(a);
      PlainStep(a + b);
    }
  }

  lemma PlainNone()
    ensures PlainWords([]) == []
  {
  }

  lemma PlainStep(toks: seq<Tok>)
    requires toks != [] && (IsRedirect(toks[0]) ==> |toks| > 1)
    ensures PlainWords(toks) ==
            (if toks[0].Word? then [(toks[0].q, toks[0].eq)] else []) + PlainWords(toks[if IsRedirect(toks[0]) then 2 else 1..])
  {
  }

  lemma {:induction false} RedirectionsAdd(a: seq<Tok>, b: seq<Tok>)
    requires Closed(a)
    ensures Redirections(a + b) == Redirections(a) + Redirections(b)
    decreases |a|
  {
    hide Redirections;
    if a == [] {
      assert a + b == b;
      RedirectionsNone();
    } else {
      var k := if IsRedirect(a[0]) then 2 else 1;
      RedirectionsAdd(a[k..], b);
      assert (a + b)[k..] == a[k..] + b && (a + b)[0] == a[0] && (k == 2 ==> (a + b)[1] == a[1]);
      RedirectionsStep(a);
      RedirectionsStep(a + b);
    }
  }

  lemma RedirectionsNone()
    ensures Redirections([]) == []
  {
  }

  lemma RedirectionsStep(toks: seq<Tok>)
    requires toks != [] && (IsRedirect(toks[0]) ==> |toks| > 1)
    ensures Redirections(toks) ==
            (if IsRedirect(toks[0]) && toks[1].Word? then [(toks[0].c, toks[1].q, toks[1].eq)] else [])
            + Redirections(toks[if IsRedirect(toks[0]) then 2 else 1..])
  {
  }

  lemma ReadAdd(a: seq<Tok>, b: seq<Tok>)
    requires Closed(a)
    ensures PlainWords(a + b) == PlainWords(a) + PlainWords(b)
    ensures Redirections(a + b) == Redirections(a) + Redirections(b)
    ensures Connectives(a + b) == Connectives(a) + Connectives(b)
  {
    hide PlainWords, Redirections, Connectives;
    PlainAdd(a, b);
    RedirectionsAdd(a, b);
    ConnectivesAdd(a, b);
  }

  lemma {:induction false} ConnectivesAdd(a: seq<Tok>, b: seq<Tok>)
    ensures Connectives(a + b) == Connectives(a) + Connectives(b)
    decreases |a|
  {
    hide Connectives;
    if a == [] {
      assert a + b == b;
      ConnectivesNone();
    } else {
      ConnectivesAdd(a[1..], b);
      assert (a + b)[1..] == a[1..] + b;
      ConnectivesStep(a);
      ConnectivesStep(a + b);
    }
  }

  lemma ConnectivesNone()
    ensures Connectives([]) == []
  {
  }

  lemma ConnectivesStep(toks: seq<Tok>)
    requires toks != []
    ensures Connectives(toks) ==
            (if toks[0].Sym? && toks[0].c in {'|', ';', '&'} then [toks[0].c] else []) + Connectives(toks[1..])
  {
  }

  // ---------------------------------------------------------------- the same of the tree

  function Argv(cmd: Cmd): seq<(nat, nat)> {
    match cmd
    case Exec(argv) => argv
    case Redir(c, _, _, _, _) => Argv(c)
    case Pipe(l, r) => Argv(l) + Argv(r)
    case List(l, r) => Argv(l) + Argv(r)
    case Back(c) => Argv(c)
  }

  datatype Opening = Opening(file: nat, efile: nat, mode: nat, fd: nat)

  /** The files to be opened, inner redirections first. */
  function Openings(cmd: Cmd): seq<Opening> {
    match cmd
    case Exec(argv) => []
    case Redir(c, file, efile, mode, fd) => Openings(c) + [Opening(file, efile, mode, fd)]
    case Pipe(l, r) => Openings(l) + Openings(r)
    case List(l, r) => Openings(l) + Openings(r)
    case Back(c) => Openings(c)
  }

  function Joints(cmd: Cmd): seq<char> {
    match cmd
    case Exec(argv) => []
    case Redir(c, _, _, _, _) => Joints(c)
    case Pipe(l, r) => Joints(l) + ['|'] + Joints(r)
    case List(l, r) => Joints(l) + [';'] + Joints(r)
    case Back(c) => Joints(c) + ['&']
  }

  /** `<` opens its word for reading on 0; `>` and `>>` open theirs for writing on 1, created if need be. */
  predicate OpensAs(r: (char, nat, nat), o: Opening) {
    && o.file == r.1 && o.efile == r.2
    && if r.0 == '<' then o.mode == 0 && o.fd == 0 else o.mode == 0x201 && o.fd == 1
  }

  ghost predicate OpenAll(rs: seq<(char, nat, nat)>, os: seq<Opening>) {
    |os| == |rs| && forall k | 0 <= k < |rs| :: OpensAs(rs[k], os[k])
  }

  // ---------------------------------------------------------------- they agree

  lemma {:induction false} ItemsRead(items: seq<Item>)
    requires forall i <- items :: i.Redirect? ==> i.op in {'<', '>', '+'}
    ensures var toks := PrintItems(items);
            && Closed(toks) && PlainWords(toks) == Args(items) && Connectives(toks) == []
            && Redirections(toks) == Redirs(items)
    decreases |items|
  {
    if items != [] {
      var init, last := items[..|items| - 1], items[|items| - 1];
      assert forall i <- init :: i in items;
      assert last in items;
      ItemsRead(init);
      hide PlainWords, Redirections, Connectives;
      ReadAdd(PrintItems(init), PrintItem(last));
      ItemRead(last);
    }
  }

  function Redirs(items: seq<Item>): seq<(char, nat, nat)> {
    if items == [] then []
    else
      var last := items[|items| - 1];
      Redirs(items[..|items| - 1]) + if last.Redirect? then [(last.op, last.q, last.eq)] else []
  }

  lemma ItemRead(i: Item)
    requires i.Redirect? ==> i.op in {'<', '>', '+'}
    ensures var toks := PrintItem(i);
            && Closed(toks) && toks != [] && Connectives(toks) == []
            && PlainWords(toks) == (if i.Arg? then [(i.q, i.eq)] else [])
            && Redirections(toks) == if i.Arg? then [] else [(i.op, i.q, i.eq)]
  {
    var toks, w := PrintItem(i), [Word(i.q, i.eq)];
    assert w[1..] == [] && Connectives(w) == [];
    if i.Redirect? {
      assert toks[1..] == w && toks[2..] == [];
    }
  }

  /** Redirections around a command leave it as it is. */
  lemma {:induction false} WrapRead(items: seq<Item>, cmd: Cmd) returns (os: seq<Opening>)
    requires forall i <- items :: i.Redirect? ==> i.op in {'<', '>', '+'}
    ensures Argv(Wrap(cmd, items)) == Argv(cmd) && Joints(Wrap(cmd, items)) == Joints(cmd)
    ensures Openings(Wrap(cmd, items)) == Openings(cmd) + os && OpenAll(Redirs(items), os)
    decreases |items|
  {
    os := [];
    if items != [] {
      var init, last := items[..|items| - 1], items[|items| - 1];
      assert forall i <- init :: i in items;
      os := WrapRead(init, cmd);
      if last.Redirect? {
        var c := Apply(Wrap(cmd, init), last);
        var o := Opening(c.file, c.efile, c.mode, c.fd);
        assert Openings(Wrap(cmd, items)) == Openings(cmd) + (os + [o]);
        os := os + [o];
      }
    }
  }

  lemma SymRead(c: char)
    requires c !in {'<', '>', '+'}
    ensures Closed([Sym(c)]) && PlainWords([Sym(c)]) == [] && Redirections([Sym(c)]) == []
    ensures Connectives([Sym(c)]) == if c in {'|', ';', '&'} then [c] else []
  {
    assert [Sym(c)][1..] == [];
  }

  ghost predicate Agrees(toks: seq<Tok>, cmd: Cmd) {
    && Argv(cmd) == PlainWords(toks) && Joints(cmd) == Connectives(toks) && OpenAll(Redirections(toks), Openings(cmd))
  }

  lemma OpenAdd(rs: seq<(char, nat, nat)>, os: seq<Opening>, rs': seq<(char, nat, nat)>, os': seq<Opening>)
    requires OpenAll(rs, os) && OpenAll(rs', os')
    ensures OpenAll(rs + rs', os + os')
  {
  }

  /** Two phrases joined by a symbol. */
  lemma Joined(a: seq<Tok>, c: char, b: seq<Tok>)
    requires Closed(a) && Closed(b) && c in {'|', ';'}
    ensures var toks := a + [Sym(c)] + b;
            && Closed(toks) && PlainWords(toks) == PlainWords(a) + PlainWords(b)
            && Redirections(toks) == Redirections(a) + Redirections(b)
            && Connectives(toks) == Connectives(a) + [c] + Connectives(b)
  {
    hide PlainWords, Redirections, Connectives;
    SymRead(c);
    ReadAdd(a, [Sym(c)]);
    ReadAdd(a + [Sym(c)], b);
  }

  lemma Followed(a: seq<Tok>, c: char)
    requires Closed(a) && c !in {'<', '>', '+'}
    ensures var toks := a + [Sym(c)];
            && Closed(toks) && PlainWords(toks) == PlainWords(a) && Redirections(toks) == Redirections(a)
            && Connectives(toks) == Connectives(a) + if c in {'|', ';', '&'} then [c] else []
  {
    hide PlainWords, Redirections, Connectives;
    SymRead(c);
    ReadAdd(a, [Sym(c)]);
  }

  /** A phrase in parentheses, with its redirections behind. */
  lemma Enclosed(a: seq<Tok>, b: seq<Tok>)
    requires Closed(a) && Closed(b)
    ensures var toks := [Sym('(')] + a + [Sym(')')] + b;
            && Closed(toks) && PlainWords(toks) == PlainWords(a) + PlainWords(b)
            && Redirections(toks) == Redirections(a) + Redirections(b)
            && Connectives(toks) == Connectives(a) + Connectives(b)
  {
    hide PlainWords, Redirections, Connectives;
    SymRead('(');
    ReadAdd([Sym('(')], a);
    Followed([Sym('(')] + a, ')');
    ReadAdd([Sym('(')] + a + [Sym(')')], b);
  }

  /** Reading the tree from left to right gives the arguments, the redirections and the connectives of the
      phrase, each in the order in which they are written, and every redirection opens its own word the
      way its symbol says. */
  lemma {:induction false} MeaningInOrder(f: Phrase, rule: nat)
    requires Form(f, rule)
    ensures Closed(Print(f)) && Agrees(Print(f), Meaning(f))
    decreases f
  {
    hide PlainWords, Redirections, Connectives, OpenAll;
    match f
    case Simple(items) =>
      ItemsRead(items);
      var os := WrapRead(items, Exec(Args(items)));
      assert [] + os == os;
    case Block(inner, redirs) =>
      MeaningInOrder(inner, LINE);
      ItemsRead(redirs);
      NoArgs(redirs);
      Enclosed(Print(inner), PrintItems(redirs));
      var os := WrapRead(redirs, Meaning(inner));
      OpenAdd(Redirections(Print(inner)), Openings(Meaning(inner)), Redirs(redirs), os);
    case PipeOf(left, right) =>
      MeaningInOrder(left, EXEC);
      MeaningInOrder(right, PIPE);
      Joined(Print(left), '|', Print(right));
      OpenAdd(Redirections(Print(left)), Openings(Meaning(left)), Redirections(Print(right)), Openings(Meaning(right)));
    case ListOf(left, right) =>
      MeaningInOrder(left, BACK);
      MeaningInOrder(right, LINE);
      Joined(Print(left), ';', Print(right));
      OpenAdd(Redirections(Print(left)), Openings(Meaning(left)), Redirections(Print(right)), Openings(Meaning(right)));
    case BackOf(inner) =>
      MeaningInOrder(inner, BACK);
      Followed(Print(inner), '&');
  }
}
