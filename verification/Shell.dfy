/** sh.c's parser. The functions below walk along the line as the code does, one character at a
    time, and are proved to read exactly the grammar; nulterminate then cuts the words out of the
    line in place. A `false` first result is a panic. */
module Shell {
  import opened ShellSyntax
  import opened ShellGrammar
  import ShellOrder

  function CharAt(line: seq<char>, s: nat): char { if s < |line| then line[s] else NUL }

  /** The loops that step over whitespace. */
  method SkipSpace(line: seq<char>, s: nat) returns (r: nat)
    requires s <= |line|
    ensures r == Skip(line, s)
  {
    r := s;
    while r < |line| && IsSpace(line[r])
      invariant s <= r <= |line| && forall k | s <= k < r :: IsSpace(line[k])
    {
      r := r + 1;
    }
    SkipAt(line, s, r);
  }

  /** The loop over the characters of a word. */
  method SkipWord(line: seq<char>, s: nat) returns (r: nat)
    requires s <= |line| && IsLine(line)
    ensures r == WordEnd(line, s)
  {
    r := s;
    while r < |line| && !IsSpace(line[r]) && !IsSymbol(line[r])
      invariant s <= r <= |line| && forall k | s <= k < r :: IsWordChar(line[k])
    {
      r := r + 1;
    }
    WordEndAt(line, s, r);
  }

  lemma {:induction false} WordEndAt(line: seq<char>, s: nat, p: nat)
    requires s <= p <= |line| && (forall k | s <= k < p :: IsWordChar(line[k])) && (p < |line| ==> !IsWordChar(line[p]))
    ensures WordEnd(line, s) == p
    decreases p - s
  {
    if s < p {
      WordEndAt(line, s + 1, p);
    }
  }

  lemma LexOne(line: seq<char>, s: nat)
    requires s <= |line| && IsLine(line)
    ensures var p := Skip(line, s);
            Lex(line, s) == if p == |line| then [] else [TokenAt(line, p).0] + Lex(line, TokenAt(line, p).1)
  {
  }

  /** gettoken: the next token as the code reports it, and the position behind it. */
  method GetToken(line: seq<char>, s: nat) returns (ret: char, q: nat, eq: nat, s': nat)
    requires s <= |line| && IsLine(line)
    ensures s <= s' <= |line|
    ensures ret == NUL <==> Lex(line, s) == []
    ensures ret == NUL ==> Lex(line, s') == []
    ensures ret != NUL ==> s < s' && Lex(line, s) == [if ret == 'a' then Word(q, eq) else Sym(ret)] + Lex(line, s')
    ensures ret != NUL && ret != 'a' ==> IsSymbol(ret) || ret == '+'
  {
    hide Lex, WordEnd;
    var p := SkipSpace(line, s);
    LexOne(line, s);
    q := p;
    ret := CharAt(line, p);
    if ret == NUL {
      LexSkip(line, s);
    } else if ret in {'|', '(', ')', ';', '&', '<'} {
      p := p + 1;
    } else if ret == '>' {
      p := p + 1;
      if CharAt(line, p) == '>' {
        ret := '+';
        p := p + 1;
      }
    } else {
      ret := 'a';
      p := SkipWord(line, p);
    }
    eq := p;
    s' := SkipSpace(line, p);
    LexSkip(line, p);
  }

  /** The character a token starts with. */
  function FirstChar(c: char): char { if c == '+' then '>' else c }

  /** peek, for sets of symbols. */
  method Peek(line: seq<char>, s: nat, toks: seq<char>) returns (b: bool, s': nat)
    requires s <= |line| && IsLine(line) && forall c <- toks :: IsSymbol(c)
    ensures s <= s' <= |line| && Lex(line, s') == Lex(line, s) && s' == Skip(line, s)
    ensures b <==> Lex(line, s) != [] && Lex(line, s)[0].Sym? && FirstChar(Lex(line, s)[0].c) in toks
  {
    s' := SkipSpace(line, s);
    LexSkip(line, s);
    var c := CharAt(line, s');
    b := c != NUL && c in toks;
  }

  // ---------------------------------------------------------------- the parser

  /** parseredirs: the command wrapped in the redirections from here on. */
  method ParseRedirections(cmd0: Cmd, line: seq<char>, s: nat) returns (ok: bool, cmd: Cmd, s': nat)
    requires s <= |line| && IsLine(line)
    ensures s <= s' <= |line|
    ensures ok <==> ParseRedirs(Lex(line, s), []).Ok?
    ensures ok ==> var r := ParseRedirs(Lex(line, s), []); cmd == Wrap(cmd0, r.value) && Lex(line, s') == r.rest
  {
    hide Lex, Skip;
    ghost var redirs: seq<Item> := [];
    cmd := cmd0;
    s' := s;
    while true
      invariant s <= s' <= |line| && ParseRedirs(Lex(line, s), []) == ParseRedirs(Lex(line, s'), redirs)
      invariant cmd == Wrap(cmd0, redirs)
      decreases |line| - s'
    {
      var b;
      b, s' := Peek(line, s', "<>");
      if !b {
        return true, cmd, s';
      }
      ghost var toks := Lex(line, s');
      var tok, q, eq, ret;
      tok, q, eq, s' := GetToken(line, s');
      ghost var toks1 := Lex(line, s');
      assert toks[1..] == toks1;
      ret, q, eq, s' := GetToken(line, s');
      if ret != 'a' {
        return false, cmd, s';
      }
      assert toks[2..] == Lex(line, s') by { assert toks1[1..] == Lex(line, s'); }
      if tok == '<' {
        cmd := Redir(cmd, q, eq, O_RDONLY, 0);
      } else if tok == '>' {
        cmd := Redir(cmd, q, eq, O_WRONLY + O_CREATE, 1);
      } else if tok == '+' {
        cmd := Redir(cmd, q, eq, O_WRONLY + O_CREATE, 1);
      }
      WrapSnoc(cmd0, redirs, Redirect(tok, q, eq));
      redirs := redirs + [Redirect(tok, q, eq)];
    }
  }

  /** A store into the argument array of the simple command inside the redirections. */
  function AddArg(cmd: Cmd, w: (nat, nat)): Cmd {
    match cmd
    case Exec(argv) => Exec(argv + [w])
    case Redir(c, file, efile, mode, fd) => Redir(AddArg(c, w), file, efile, mode, fd)
    case _ => cmd
  }

  /** What a parse function owes: it fails where the grammar does, and otherwise returns the command
      the phrase stands for and stops where the phrase does. */
  ghost predicate Reads(p: Parse<Phrase>, line: seq<char>, s: nat, ok: bool, cmd: Cmd, s': nat)
    requires IsLine(line)
  {
    && (ok <==> p.Ok?)
    && s <= s' <= |line|
    && (ok ==> cmd == Meaning(p.value) && Lex(line, s') == p.rest)
  }

  method ParseBlock(line: seq<char>, s: nat) returns (ok: bool, cmd: Cmd, s': nat)
    requires s <= |line| && IsLine(line) && ShellGrammar.Next(Lex(line, s), '(')
    ensures Reads(ParseExec(Lex(line, s)), line, s, ok, cmd, s')
    decreases |line| - s, EXEC
  {
    hide Lex, Skip, ParseRedirs, Wrap;
    ghost var toks := Lex(line, s);
    var ret, q, eq;
    ret, q, eq, s' := GetToken(line, s);
    assert toks[1..] == Lex(line, s');
    ok, cmd, s' := ParseLineCmd(line, s');
    if !ok {
      return;
    }
    ghost var rest := Lex(line, s');
    var b;
    b, s' := Peek(line, s', ")");
    if !b {
      return false, cmd, s';
    }
    ret, q, eq, s' := GetToken(line, s');
    assert rest[1..] == Lex(line, s');
    ok, cmd, s' := ParseRedirections(cmd, line, s');
  }

  method ParseExecCmd(line: seq<char>, s: nat) returns (ok: bool, cmd: Cmd, s': nat)
    requires s <= |line| && IsLine(line)
    ensures Reads(ParseExec(Lex(line, s)), line, s, ok, cmd, s')
    decreases |line| - s, PIPE
  {
    hide Lex, Skip, ParseRedirs, ParseItems, Wrap, Args, ParseLine;
    var b;
    b, s' := Peek(line, s, "(");
    if b {
      ok, cmd, s' := ParseBlock(line, s');
      return;
    }
    ghost var toks := Lex(line, s);
    cmd := Exec([]);
    var argc := 0;
    ok, cmd, s' := ParseRedirections(cmd, line, s');
    RedirsThenItems(toks, []);
    if !ok {
      return;
    }
    ghost var items := ParseRedirs(toks, []).value;
    OnlyRedirs(toks, []);
    while true
      invariant s <= s' <= |line| && ParseItems(toks, []) == ParseItems(Lex(line, s'), items)
      invariant argc == |Args(items)| < MAXARGS && !NextRedir(Lex(line, s'))
      invariant cmd == Wrap(Exec(Args(items)), items)
      decreases |line| - s'
    {
      b, s' := Peek(line, s', "|)&;");
      ghost var here := Lex(line, s');
      ItemsHere(here, items);
      if b {
        break;
      }
      var tok, q, eq;
      tok, q, eq, s' := GetToken(line, s');
      if tok == NUL {
        break;
      }
      if tok != 'a' {
        return false, cmd, s';
      }
      assert here[1..] == Lex(line, s');
      cmd := AddArg(cmd, (q, eq));
      argc := argc + 1;
      ghost var items1 := items + [Arg(q, eq)];
      ArgStored(items, q, eq);
      if argc >= MAXARGS {
        return false, cmd, s';
      }
      ghost var toks1 := Lex(line, s');
      ok, cmd, s' := ParseRedirections(cmd, line, s');
      RedirsThenItems(toks1, items1);
      if !ok {
        return;
      }
      items := items1 + ParseRedirs(toks1, []).value;
      OnlyRedirs(toks1, items1);
    }
    ok := true;
  }

  method ParsePipeCmd(line: seq<char>, s: nat) returns (ok: bool, cmd: Cmd, s': nat)
    requires s <= |line| && IsLine(line)
    ensures Reads(ParsePipe(Lex(line, s)), line, s, ok, cmd, s')
    decreases |line| - s, BACK
  {
    hide Lex, Skip, ParseExec;
    ok, cmd, s' := ParseExecCmd(line, s);
    if !ok {
      return;
    }
    ghost var rest := Lex(line, s');
    var b;
    b, s' := Peek(line, s', "|");
    if b {
      var tok, q, eq, right;
      tok, q, eq, s' := GetToken(line, s');
      assert rest[1..] == Lex(line, s');
      ok, right, s' := ParsePipeCmd(line, s');
      cmd := Pipe(cmd, right);
    }
  }

  method ParseLineCmd(line: seq<char>, s: nat) returns (ok: bool, cmd: Cmd, s': nat)
    requires s <= |line| && IsLine(line)
    ensures Reads(ParseLine(Lex(line, s)), line, s, ok, cmd, s')
    decreases |line| - s, LINE
  {
    hide Lex, Skip, ParsePipe;
    ok, cmd, s' := ParsePipeCmd(line, s);
    if !ok {
      return;
    }
    ghost var f := ParsePipe(Lex(line, s)).value;
    ghost var backs := ParseBacks(f, Lex(line, s'));
    var b;
    b, s' := Peek(line, s', "&");
    while b
      invariant s <= s' <= |line| && b == ShellGrammar.Next(Lex(line, s'), '&')
      invariant cmd == Meaning(f) && ParseBacks(f, Lex(line, s')) == backs
      decreases |line| - s'
    {
      ghost var here := Lex(line, s');
      var tok, q, eq;
      tok, q, eq, s' := GetToken(line, s');
      assert here[1..] == Lex(line, s');
      cmd := Back(cmd);
      f := BackOf(f);
      b, s' := Peek(line, s', "&");
    }
    b, s' := Peek(line, s', ";");
    if b {
      ghost var here := Lex(line, s');
      var tok, q, eq, right;
      tok, q, eq, s' := GetToken(line, s');
      assert here[1..] == Lex(line, s');
      ok, right, s' := ParseLineCmd(line, s');
      cmd := List(cmd, right);
    }
  }

  // ---------------------------------------------------------------- redirections among the items

  lemma {:induction false} RedirsAcc(toks: seq<Tok>, acc: seq<Item>, acc': seq<Item>)
    ensures var r := ParseRedirs(toks, acc');
            ParseRedirs(toks, acc + acc') == if r.Ok? then Ok(acc + r.value, r.rest) else Fail
    decreases |toks|
  {
    if NextRedir(toks) && |toks| > 1 && toks[1].Word? {
      var i := Redirect(toks[0].c, toks[1].q, toks[1].eq);
      RedirsAcc(toks[2..], acc, acc' + [i]);
      assert acc + acc' + [i] == acc + (acc' + [i]);
    }
  }

  /** Redirections read first are items read. */
  lemma {:induction false} RedirsItems(toks: seq<Tok>, acc: seq<Item>)
    ensures var r := ParseRedirs(toks, acc);
            ParseItems(toks, acc) == if r.Ok? then ParseItems(r.rest, r.value) else Fail
    decreases |toks|
  {
    if NextRedir(toks) && |toks| > 1 && toks[1].Word? {
      RedirsItems(toks[2..], acc + [Redirect(toks[0].c, toks[1].q, toks[1].eq)]);
    }
  }

  lemma RedirsThenItems(toks: seq<Tok>, acc: seq<Item>)
    ensures var r := ParseRedirs(toks, []);
            ParseItems(toks, acc) == if r.Ok? then ParseItems(r.rest, acc + r.value) else Fail
  {
    RedirsItems(toks, acc);
    RedirsAcc(toks, acc, []);
    assert acc + [] == acc;
  }

  /** What parseredirs finds are redirections, and it stops where there are no more. */
  lemma OnlyRedirs(toks: seq<Tok>, items: seq<Item>)
    requires ParseRedirs(toks, []).Ok?
    ensures items == [] ==> Args(items) == [] && items + ParseRedirs(toks, []).value == ParseRedirs(toks, []).value
    ensures var r := ParseRedirs(toks, []); Args(items + r.value) == Args(items) && !NextRedir(r.rest)
    ensures var r := ParseRedirs(toks, []); forall c :: Wrap(c, items + r.value) == Wrap(Wrap(c, items), r.value)
  {
    var r := ParseRedirs(toks, []);
    RedirsSound(toks, []);
    NoArgs(r.value);
    ArgsConcat(items, r.value);
    forall c
      ensures Wrap(c, items + r.value) == Wrap(Wrap(c, items), r.value)
    {
      WrapConcat(c, items, r.value);
    }
  }

  /** How the loop in parseexec goes on from a place where no redirection follows. */
  lemma ItemsHere(toks: seq<Tok>, items: seq<Item>)
    requires !NextRedir(toks)
    ensures toks == [] ==> ParseItems(toks, items) == Ok(items, toks)
    ensures toks != [] && toks[0].Sym? ==> ParseItems(toks, items) == if IsStop(toks[0].c) then Ok(items, toks) else Fail
    ensures toks != [] && toks[0].Word? ==>
              var items' := items + [Arg(toks[0].q, toks[0].eq)];
              ParseItems(toks, items) == if |Args(items')| >= MAXARGS then Fail else ParseItems(toks[1..], items')
  {
  }

  lemma {:induction false} WrapConcat(c: Cmd, a: seq<Item>, b: seq<Item>)
    ensures Wrap(c, a + b) == Wrap(Wrap(c, a), b)
    decreases |b|
  {
    if b == [] {
      assert a + b == a;
    } else {
      LastOff(a, b);
      var init := b[..|b| - 1];
      WrapConcat(c, a, init);
      assert (a + b)[..|a + b| - 1] == a + init;
    }
  }

  lemma WrapSnoc(c: Cmd, items: seq<Item>, i: Item)
    ensures Wrap(c, items + [i]) == Apply(Wrap(c, items), i)
  {
    assert (items + [i])[..|items|] == items;
  }

  lemma {:induction false} AddArgWrap(argv: seq<(nat, nat)>, items: seq<Item>, w: (nat, nat))
    ensures AddArg(Wrap(Exec(argv), items), w) == Wrap(Exec(argv + [w]), items)
  {
    if items != [] {
      AddArgWrap(argv, items[..|items| - 1], w);
    }
  }

  /** An argument goes to the simple command, however many redirections already wrap it. */
  lemma ArgStored(items: seq<Item>, q: nat, eq: nat)
    ensures var items' := items + [Arg(q, eq)];
            Args(items') == Args(items) + [(q, eq)] && Wrap(Exec(Args(items')), items') == AddArg(Wrap(Exec(Args(items)), items), (q, eq))
  {
    ArgsSnoc(items, Arg(q, eq));
    WrapSnoc(Exec(Args(items) + [(q, eq)]), items, Arg(q, eq));
    AddArgWrap(Args(items), items, (q, eq));
  }

  // ---------------------------------------------------------------- nulterminate

  ghost function EndSet(cmd: Cmd): set<nat> { set w | w in Words(cmd) :: w.1 }

  ghost predicate Cut(before: seq<char>, after: seq<char>, ends: set<nat>) {
    |after| == |before| && forall k | 0 <= k < |before| :: after[k] == if k in ends then NUL else before[k]
  }

  /** Writes a NUL at the end of every word of the tree, and nothing else. */
  method NulTerminate(cmd: Cmd, buf: array<char>)
    requires forall e <- EndSet(cmd) :: e < buf.Length
    modifies buf
    ensures Cut(old(buf[..]), buf[..], EndSet(cmd))
    decreases cmd
  {
    match cmd
    case Exec(argv) =>
      var i := 0;
      while i < |argv|
        invariant 0 <= i <= |argv|
        invariant forall k | 0 <= k < buf.Length :: buf[k] == if (exists j :: 0 <= j < i && argv[j].1 == k) then NUL else old(buf[k])
      {
        assert argv[i] in Words(cmd) && argv[i].1 in EndSet(cmd);
        buf[argv[i].1] := NUL;
        i := i + 1;
      }
      ExecEnds(argv);
    case Redir(c, file, efile, mode, fd) =>
      EndsUnion(cmd);
      NulTerminate(c, buf);
      buf[efile] := NUL;
    case Pipe(left, right) =>
      EndsUnion(cmd);
      NulTerminate(left, buf);
      NulTerminate(right, buf);
    case List(left, right) =>
      EndsUnion(cmd);
      NulTerminate(left, buf);
      NulTerminate(right, buf);
    case Back(c) =>
      EndsUnion(cmd);
      NulTerminate(c, buf);
  }

  lemma ExecEnds(argv: seq<(nat, nat)>)
    ensures forall e :: e in EndSet(Exec(argv)) <==> exists j :: 0 <= j < |argv| && argv[j].1 == e
  {
    forall j | 0 <= j < |argv|
      ensures argv[j].1 in EndSet(Exec(argv))
    {
      assert argv[j] in Words(Exec(argv));
    }
  }

  lemma EndsUnion(cmd: Cmd)
    ensures match cmd
            case Exec(argv) => true
            case Redir(c, file, efile, mode, fd) => EndSet(cmd) == EndSet(c) + {efile}
            case Pipe(left, right) => EndSet(cmd) == EndSet(left) + EndSet(right)
            case List(left, right) => EndSet(cmd) == EndSet(left) + EndSet(right)
            case Back(c) => EndSet(cmd) == EndSet(c)
  {
    match cmd
    case Exec(argv) =>
    case Redir(c, file, efile, mode, fd) =>
      assert (file, efile) in Words(cmd);
      assert forall w :: w in Words(cmd) <==> w in Words(c) || w == (file, efile);
    case Pipe(left, right) =>
    case List(left, right) =>
    case Back(c) =>
  }

  // ---------------------------------------------------------------- parsecmd

  /** The C string at `q`. */
  ghost function StringAt(b: seq<char>, q: nat): seq<char>
    requires q <= |b|
    decreases |b| - q
  {
    if q < |b| && b[q] != NUL then [b[q]] + StringAt(b, q + 1) else []
  }

  lemma {:induction false} StringIs(b: seq<char>, q: nat, eq: nat)
    requires q <= eq < |b| && b[eq] == NUL && forall k | q <= k < eq :: b[k] != NUL
    ensures StringAt(b, q) == b[q..eq]
    decreases eq - q
  {
    if q < eq {
      StringIs(b, q + 1, eq);
      assert b[q..eq] == [b[q]] + b[q + 1..eq];
    }
  }

  method StrLen(buf: array<char>) returns (n: nat)
    requires exists k :: 0 <= k < buf.Length && buf[k] == NUL
    ensures n < buf.Length && buf[n] == NUL && IsLine(buf[..n])
  {
    n := 0;
    while buf[n] != NUL
      invariant n < buf.Length && forall k | 0 <= k < n :: buf[k] != NUL
      decreases buf.Length - n
    {
      n := n + 1;
    }
  }

  ghost predicate Written(line: seq<char>, f: Phrase)
    requires IsLine(line)
  {
    Form(f, LINE) && Print(f) == Lex(line, 0)
  }

  /** The buffer holds every word of the tree as a string of its own, spelled as in the line. */
  ghost predicate AllStrings(line: seq<char>, b: seq<char>, cmd: Cmd) {
    forall w <- Words(cmd) :: w.0 < w.1 <= |line| && w.0 <= |b| && StringAt(b, w.0) == line[w.0..w.1]
  }

  /** parsecmd: accepts exactly the lines of the grammar, returns the one command the line stands
      for, and leaves its words in the buffer as strings. */
  method ParseCmd(buf: array<char>) returns (ok: bool, cmd: Cmd, ghost line: seq<char>)
    requires exists k :: 0 <= k < buf.Length && buf[k] == NUL
    modifies buf
    ensures |line| < buf.Length && line == old(buf[..|line|]) && old(buf[|line|]) == NUL && IsLine(line)
    ensures ok <==> exists f :: Written(line, f)
    ensures forall f | Written(line, f) :: cmd == Meaning(f)
    ensures ok ==> ShellOrder.Agrees(Lex(line, 0), cmd)
    ensures ok ==> AllStrings(line, buf[..], cmd)
    ensures !ok ==> buf[..] == old(buf[..])
  {
    hide Lex, ParseLine, Form, Print, Meaning, Skip, Words, ShellOrder.Agrees;
    var es := StrLen(buf);
    var text := buf[..es];
    line := text;
    var s;
    ok, cmd, s := ParseLineCmd(text, 0);
    Accepted(line, cmd, s, ok);
    if !ok {
      return;
    }
    var b;
    b, s := Peek(text, s, "");
    AtEnd(line, s);
    if s != es {
      return false, cmd, line;
    }
    TreeWords(line, cmd);
    TreeInOrder(line, cmd);
    NulTerminate(cmd, buf);
    CutStrings(line, old(buf[..]), buf[..], cmd);
  }

  lemma AtEnd(line: seq<char>, s: nat)
    requires s <= |line| && IsLine(line) && s == Skip(line, s)
    ensures Lex(line, s) == [] <==> s == |line|
  {
  }

  lemma Accepted(line: seq<char>, cmd: Cmd, s: nat, ok: bool)
    requires IsLine(line) && Reads(ParseLine(Lex(line, 0)), line, 0, ok, cmd, s)
    ensures ok && Lex(line, s) == [] <==> exists f :: Written(line, f)
    ensures forall f | Written(line, f) :: cmd == Meaning(f)
  {
    hide Lex, ParseLine, Form, Print, Meaning;
    var p := ParseLine(Lex(line, 0));
    if ok && Lex(line, s) == [] {
      ParsePrint(p.value, Lex(line, 0));
      assert Written(line, p.value);
    }
    forall f | Written(line, f)
      ensures ok && Lex(line, s) == [] && cmd == Meaning(f)
    {
      ParsePrint(f, Lex(line, 0));
    }
  }

  /** The tree read from left to right is the line: arguments, redirections and connectives in order. */
  lemma TreeInOrder(line: seq<char>, cmd: Cmd)
    requires IsLine(line) && (exists f :: Written(line, f)) && (forall f | Written(line, f) :: cmd == Meaning(f))
    ensures ShellOrder.Agrees(Lex(line, 0), cmd)
  {
    hide Lex, Form, Print, Meaning, ShellOrder.Agrees;
    var f :| Written(line, f);
    ShellOrder.MeaningInOrder(f, LINE);
  }

  /** The words of the tree are the words of the line. */
  lemma TreeWords(line: seq<char>, cmd: Cmd)
    requires IsLine(line) && (exists f :: Written(line, f)) && (forall f | Written(line, f) :: cmd == Meaning(f))
    ensures Words(cmd) == TokWords(Lex(line, 0)) && forall w <- Words(cmd) :: IsWord(line, w.0, w.1)
    ensures forall e <- EndSet(cmd) :: e <= |line|
  {
    hide Lex, Form, Print, Meaning, Words;
    var f :| Written(line, f);
    MeaningWords(f, LINE);
    forall w | w in Words(cmd)
      ensures IsWord(line, w.0, w.1)
    {
      var t :| t in Lex(line, 0) && t.Word? && (t.q, t.eq) == w;
      var k :| 0 <= k < |Lex(line, 0)| && Lex(line, 0)[k] == t;
      LexWords(line, 0, k);
    }
  }

  /** No terminator falls inside another word. */
  lemma CutStrings(line: seq<char>, before: seq<char>, after: seq<char>, cmd: Cmd)
    requires |line| < |before| && line == before[..|line|] && IsLine(line) && before[|line|] == NUL
    requires Cut(before, after, EndSet(cmd)) && forall w <- Words(cmd) :: IsWord(line, w.0, w.1)
    ensures AllStrings(line, after, cmd)
  {
    forall w | w in Words(cmd)
      ensures w.0 < w.1 <= |line| && w.0 <= |after| && StringAt(after, w.0) == line[w.0..w.1]
    {
      assert w.1 in EndSet(cmd);
      forall k | w.0 <= k < w.1
        ensures after[k] == line[k] && after[k] != NUL
      {
        assert k !in EndSet(cmd) by {
          forall w' | w' in Words(cmd)
            ensures w'.1 != k
          {
            EndOutside(line, w.0, w.1, w'.0, w'.1);
          }
        }
      }
      StringIs(after, w.0, w.1);
      assert after[w.0..w.1] == line[w.0..w.1];
    }
  }
}
