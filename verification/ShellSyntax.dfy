/** What a line of the shell means, apart from how sh.c reads it: its tokens, the grammar over them,
    and the command a phrase stands for. */
module ShellSyntax {

  const NUL := '\0'

  /** sh.c's whitespace: space, tab, carriage return, newline, vertical tab. */
  predicate IsSpace(c: char) { c in {' ', '\t', '\r', '\n', 11 as char} }

  predicate IsSymbol(c: char) { c in {'<', '|', '>', '&', ';', '(', ')'} }

  predicate IsWordChar(c: char) { c != NUL && !IsSpace(c) && !IsSymbol(c) }

  ghost predicate IsLine(line: seq<char>) { forall k | 0 <= k < |line| :: line[k] != NUL }

  // ---------------------------------------------------------------- tokens

  /** A word is given by where it starts and ends in the line; '+' stands for >>. */
  datatype Tok = Sym(c: char) | Word(q: nat, eq: nat)

  function Skip(line: seq<char>, s: nat): (r: nat)
    requires s <= |line|
    ensures s <= r <= |line| && (r < |line| ==> !IsSpace(line[r]))
    ensures forall k | s <= k < r :: IsSpace(line[k])
    decreases |line| - s
  {
    if s < |line| && IsSpace(line[s]) then Skip(line, s + 1) else s
  }

  function WordEnd(line: seq<char>, s: nat): (r: nat)
    requires s <= |line|
    ensures s <= r <= |line| && (r < |line| ==> !IsWordChar(line[r]))
    ensures forall k | s <= k < r :: IsWordChar(line[k])
    decreases |line| - s
  {
    if s < |line| && IsWordChar(line[s]) then WordEnd(line, s + 1) else s
  }

  /** The token at `p`, which is no space, and where it ends. */
  function TokenAt(line: seq<char>, p: nat): (r: (Tok, nat))
    requires p < |line| && IsLine(line) && !IsSpace(line[p])
    ensures p < r.1 <= |line|
    ensures r.0 == Sym('+') <==> ">>" <= line[p..]
    ensures r.0.Word? <==> IsWordChar(line[p])
  {
    if line[p] == '>' && p + 1 < |line| && line[p + 1] == '>' then (Sym('+'), p + 2)
    else if IsSymbol(line[p]) then (Sym(line[p]), p + 1)
    else (Word(p, WordEnd(line, p)), WordEnd(line, p))
  }

  /** The tokens of the line from position `s` on. */
  function Lex(line: seq<char>, s: nat): seq<Tok>
    requires s <= |line| && IsLine(line)
    decreases |line| - s
  {
    var p := Skip(line, s);
    if p == |line| then [] else [TokenAt(line, p).0] + Lex(line, TokenAt(line, p).1)
  }

  lemma {:induction false} SkipAt(line: seq<char>, s: nat, p: nat)
    requires s <= p <= |line| && (forall k | s <= k < p :: IsSpace(line[k])) && (p < |line| ==> !IsSpace(line[p]))
    ensures Skip(line, s) == p
    decreases p - s
  {
  }

  /** Spaces between tokens do not matter. */
  lemma LexSkip(line: seq<char>, s: nat)
    requires s <= |line| && IsLine(line)
    ensures Lex(line, Skip(line, s)) == Lex(line, s)
  {
  }

  /** A word of the line: word characters only, and nothing of the word left over behind it. */
  ghost predicate IsWord(line: seq<char>, q: nat, eq: nat) {
    && q < eq <= |line| && (forall k | q <= k < eq :: IsWordChar(line[k]))
    && (eq < |line| ==> !IsWordChar(line[eq]))
  }

  lemma {:induction false} LexWords(line: seq<char>, s: nat, k: nat)
    requires s <= |line| && IsLine(line) && k < |Lex(line, s)| && Lex(line, s)[k].Word?
    ensures IsWord(line, Lex(line, s)[k].q, Lex(line, s)[k].eq)
    decreases |line| - s
  {
    if k > 0 {
      var p := Skip(line, s);
      LexWords(line, TokenAt(line, p).1, k - 1);
    }
  }

  /** Two words are the same or apart, and the end of one is never inside another. */
  lemma EndOutside(line: seq<char>, q: nat, eq: nat, q': nat, eq': nat)
    requires IsWord(line, q, eq) && IsWord(line, q', eq')
    ensures !(q <= eq' < eq)
  {
  }

  // ---------------------------------------------------------------- grammar

  /** One word of a simple command, or one redirection. */
  datatype Item = Arg(q: nat, eq: nat) | Redirect(op: char, q: nat, eq: nat)

  /** line = back [';' line]   back = pipe '&'*   pipe = exec ['|' pipe]
      exec = item*  |  '(' line ')' redirect* */
  datatype Phrase =
    | Simple(items: seq<Item>)
    | Block(inner: Phrase, redirs: seq<Item>)
    | PipeOf(left: Phrase, right: Phrase)
    | ListOf(left: Phrase, right: Phrase)
    | BackOf(inner: Phrase)

  const MAXARGS := 10

  ghost predicate ItemsOk(items: seq<Item>) {
    && (forall i <- items :: i.Redirect? ==> i.op in {'<', '>', '+'})
    && |Args(items)| < MAXARGS
  }

  ghost predicate RedirsOk(items: seq<Item>) {
    forall i <- items :: i.Redirect? && i.op in {'<', '>', '+'}
  }

  const EXEC := 0
  const PIPE := 1
  const BACK := 2
  const LINE := 3

  /** The phrase follows the rule of the grammar named by `rule`, or one it leads to. */
  ghost predicate Form(f: Phrase, rule: nat) {
    match f
    case Simple(items) => ItemsOk(items)
    case Block(inner, redirs) => Form(inner, LINE) && RedirsOk(redirs)
    case PipeOf(left, right) => rule >= PIPE && Form(left, EXEC) && Form(right, PIPE)
    case BackOf(inner) => rule >= BACK && Form(inner, BACK)
    case ListOf(left, right) => rule >= LINE && Form(left, BACK) && Form(right, LINE)
  }

  function PrintItem(i: Item): seq<Tok> {
    match i
    case Arg(q, eq) => [Word(q, eq)]
    case Redirect(op, q, eq) => [Sym(op), Word(q, eq)]
  }

  function PrintItems(items: seq<Item>): seq<Tok> {
    if items == [] then [] else PrintItems(items[..|items| - 1]) + PrintItem(items[|items| - 1])
  }

  /** The tokens a phrase is written with. */
  function Print(f: Phrase): seq<Tok> {
    match f
    case Simple(items) => PrintItems(items)
    case Block(inner, redirs) => [Sym('(')] + Print(inner) + [Sym(')')] + PrintItems(redirs)
    case PipeOf(left, right) => Print(left) + [Sym('|')] + Print(right)
    case ListOf(left, right) => Print(left) + [Sym(';')] + Print(right)
    case BackOf(inner) => Print(inner) + [Sym('&')]
  }

  // ---------------------------------------------------------------- commands

  /** The tree sh.c builds; words are positions in the line. */
  datatype Cmd =
    | Exec(argv: seq<(nat, nat)>)
    | Redir(cmd: Cmd, file: nat, efile: nat, mode: nat, fd: nat)
    | Pipe(left: Cmd, right: Cmd)
    | List(left: Cmd, right: Cmd)
    | Back(cmd: Cmd)

  const O_RDONLY := 0
  const O_WRONLY := 1
  const O_CREATE := 0x200

  function Args(items: seq<Item>): seq<(nat, nat)> {
    if items == [] then []
    else
      var last := items[|items| - 1];
      Args(items[..|items| - 1]) + if last.Arg? then [(last.q, last.eq)] else []
  }

  function Apply(cmd: Cmd, i: Item): Cmd {
    match i
    case Arg(q, eq) => cmd
    case Redirect(op, q, eq) => if op == '<' then Redir(cmd, q, eq, O_RDONLY, 0) else Redir(cmd, q, eq, O_WRONLY + O_CREATE, 1)
  }

  /** The redirections among the items, the first one innermost. */
  function Wrap(cmd: Cmd, items: seq<Item>): Cmd {
    if items == [] then cmd else Apply(Wrap(cmd, items[..|items| - 1]), items[|items| - 1])
  }

  /** The command a phrase stands for. */
  function Meaning(f: Phrase): Cmd {
    match f
    case Simple(items) => Wrap(Exec(Args(items)), items)
    case Block(inner, redirs) => Wrap(Meaning(inner), redirs)
    case PipeOf(left, right) => Pipe(Meaning(left), Meaning(right))
    case ListOf(left, right) => List(Meaning(left), Meaning(right))
    case BackOf(inner) => Back(Meaning(inner))
  }

  /** The words a command holds. */
  ghost function Words(cmd: Cmd): set<(nat, nat)> {
    match cmd
    case Exec(argv) => set w | w in argv
    case Redir(c, file, efile, _, _) => Words(c) + {(file, efile)}
    case Pipe(l, r) => Words(l) + Words(r)
    case List(l, r) => Words(l) + Words(r)
    case Back(c) => Words(c)
  }

  ghost function TokWords(toks: seq<Tok>): set<(nat, nat)> {
    set t | t in toks && t.Word? :: (t.q, t.eq)
  }

  lemma TokWordsAdd(a: seq<Tok>, b: seq<Tok>)
    ensures TokWords(a + b) == TokWords(a) + TokWords(b)
  {
  }

  lemma SymWords()
    ensures forall c :: TokWords([Sym(c)]) == {}
  {
  }

  ghost function RedirWords(items: seq<Item>): set<(nat, nat)> {
    if items == [] then {}
    else
      var last := items[|items| - 1];
      RedirWords(items[..|items| - 1]) + if last.Redirect? then {(last.q, last.eq)} else {}
  }

  lemma {:induction false} WrapWords(items: seq<Item>, cmd: Cmd)
    ensures Words(Wrap(cmd, items)) == Words(cmd) + RedirWords(items)
  {
    if items != [] {
      WrapWords(items[..|items| - 1], cmd);
    }
  }

  lemma {:induction false} PrintWords(items: seq<Item>)
    ensures TokWords(PrintItems(items)) == Words(Exec(Args(items))) + RedirWords(items)
  {
    if items != [] {
      var init, last := items[..|items| - 1], items[|items| - 1];
      PrintWords(init);
      TokWordsAdd(PrintItems(init), PrintItem(last));
      assert Word(last.q, last.eq) in PrintItem(last);
      assert TokWords(PrintItem(last)) == {(last.q, last.eq)};
    }
  }

  lemma {:induction false} NoArgs(items: seq<Item>)
    requires RedirsOk(items)
    ensures Args(items) == []
  {
    if items != [] {
      NoArgs(items[..|items| - 1]);
      assert items[|items| - 1] in items;
    }
  }

  /** A command holds the words its phrase is written with, no more and no fewer. */
  lemma {:induction false} MeaningWords(f: Phrase, rule: nat)
    requires Form(f, rule)
    ensures Words(Meaning(f)) == TokWords(Print(f))
  {
    SymWords();
    hide TokWords;
    match f
    case Simple(items) =>
      WrapWords(items, Exec(Args(items)));
      PrintWords(items);
    case Block(inner, redirs) =>
      MeaningWords(inner, LINE);
      NoArgs(redirs);
      WrapWords(redirs, Meaning(inner));
      PrintWords(redirs);
      TokWordsAdd([Sym('(')], Print(inner));
      TokWordsAdd([Sym('(')] + Print(inner), [Sym(')')]);
      TokWordsAdd([Sym('(')] + Print(inner) + [Sym(')')], PrintItems(redirs));
    case PipeOf(left, right) =>
      MeaningWords(left, EXEC);
      MeaningWords(right, PIPE);
      TokWordsAdd(Print(left), [Sym('|')]);
      TokWordsAdd(Print(left) + [Sym('|')], Print(right));
    case ListOf(left, right) =>
      MeaningWords(left, BACK);
      MeaningWords(right, LINE);
      TokWordsAdd(Print(left), [Sym(';')]);
      TokWordsAdd(Print(left) + [Sym(';')], Print(right));
    case BackOf(inner) =>
      MeaningWords(inner, BACK);
      TokWordsAdd(Print(inner), [Sym('&')]);
  }
}
