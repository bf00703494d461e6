/** Reading tokens as a phrase of the grammar: recursive descent on token sequences, without a line
    or positions. It accepts exactly the grammar, and the phrase it finds is the only one. */
module ShellGrammar {
  import opened ShellSyntax

  datatype Parse<T> = Fail | Ok(value: T, rest: seq<Tok>)

  predicate IsRedirOp(c: char) { c in {'<', '>', '+'} }

  predicate IsStop(c: char) { c in {'|', ')', '&', ';'} }

  /** The next token is a symbol in the given set. */
  predicate Next(toks: seq<Tok>, c: char) { toks != [] && toks[0] == Sym(c) }

  predicate NextRedir(toks: seq<Tok>) { toks != [] && toks[0].Sym? && IsRedirOp(toks[0].c) }

  function ParseRedirs(toks: seq<Tok>, acc: seq<Item>): (r: Parse<seq<Item>>)
    ensures r.Ok? ==> |r.rest| <= |toks|
    decreases |toks|
  {
    if NextRedir(toks) then
      if |toks| > 1 && toks[1].Word? then ParseRedirs(toks[2..], acc + [Redirect(toks[0].c, toks[1].q, toks[1].eq)])
      else Fail
    else Ok(acc, toks)
  }

  function ParseItems(toks: seq<Tok>, acc: seq<Item>): (r: Parse<seq<Item>>)
    ensures r.Ok? ==> |r.rest| <= |toks|
    decreases |toks|
  {
    if toks == [] then Ok(acc, toks)
    else if toks[0].Word? then
      var acc' := acc + [Arg(toks[0].q, toks[0].eq)];
      if |Args(acc')| >= MAXARGS then Fail else ParseItems(toks[1..], acc')
    else if IsRedirOp(toks[0].c) then
      if |toks| > 1 && toks[1].Word? then ParseItems(toks[2..], acc + [Redirect(toks[0].c, toks[1].q, toks[1].eq)])
      else Fail
    else if IsStop(toks[0].c) then Ok(acc, toks)
    else Fail
  }

  function ParseExec(toks: seq<Tok>): (r: Parse<Phrase>)
    ensures r.Ok? ==> |r.rest| <= |toks|
    decreases |toks|, EXEC
  {
    if Next(toks, '(') then
      match ParseLine(toks[1..])
      case Fail => Fail
      case Ok(f, rest) =>
        if !Next(rest, ')') then Fail
        else
          match ParseRedirs(rest[1..], [])
          case Fail => Fail
          case Ok(redirs, rest') => Ok(Block(f, redirs), rest')
    else
      match ParseItems(toks, [])
      case Fail => Fail
      case Ok(items, rest) => Ok(Simple(items), rest)
  }

  function ParsePipe(toks: seq<Tok>): (r: Parse<Phrase>)
    ensures r.Ok? ==> |r.rest| <= |toks|
    decreases |toks|, PIPE
  {
    match ParseExec(toks)
    case Fail => Fail
    case Ok(f, rest) =>
      if !Next(rest, '|') then Ok(f, rest)
      else
        match ParsePipe(rest[1..])
        case Fail => Fail
        case Ok(g, rest') => Ok(PipeOf(f, g), rest')
  }

  function ParseBacks(f: Phrase, toks: seq<Tok>): (r: Parse<Phrase>)
    ensures r.Ok? && |r.rest| <= |toks| && !Next(r.rest, '&')
    decreases |toks|
  {
    if Next(toks, '&') then ParseBacks(BackOf(f), toks[1..]) else Ok(f, toks)
  }

  function ParseLine(toks: seq<Tok>): (r: Parse<Phrase>)
    ensures r.Ok? ==> |r.rest| <= |toks|
    decreases |toks|, LINE
  {
    match ParsePipe(toks)
    case Fail => Fail
    case Ok(f, rest) =>
      var b := ParseBacks(f, rest);
      if !Next(b.rest, ';') then b
      else
        match ParseLine(b.rest[1..])
        case Fail => Fail
        case Ok(g, rest') => Ok(ListOf(b.value, g), rest')
  }

  // ---------------------------------------------------------------- what is read is what is written

  lemma Assoc(a: seq<Tok>, b: seq<Tok>, c: seq<Tok>)
    ensures a + b + c == a + (b + c)
  {
  }

  lemma Around(a: seq<Tok>, c: char, b: seq<Tok>, rest: seq<Tok>)
    ensures a + [Sym(c)] + b + rest == a + ([Sym(c)] + (b + rest)) && ([Sym(c)] + (b + rest))[1..] == b + rest
  {
  }

  lemma PrintSnoc(items: seq<Item>, i: Item)
    ensures PrintItems(items + [i]) == PrintItems(items) + PrintItem(i)
  {
  }

  lemma ArgsSnoc(items: seq<Item>, i: Item)
    ensures Args(items + [i]) == Args(items) + if i.Arg? then [(i.q, i.eq)] else []
  {
  }

  /** One more item read. */
  lemma ReadItem(acc: seq<Item>, i: Item, toks: seq<Tok>)
    requires PrintItem(i) <= toks
    ensures PrintItems(acc + [i]) + toks[|PrintItem(i)|..] == PrintItems(acc) + toks
  {
    hide PrintItems, PrintItem;
    PrintSnoc(acc, i);
    Assoc(PrintItems(acc), PrintItem(i), toks[|PrintItem(i)|..]);
    assert toks == PrintItem(i) + toks[|PrintItem(i)|..];
  }

  lemma {:induction false} RedirsSound(toks: seq<Tok>, acc: seq<Item>)
    requires RedirsOk(acc)
    ensures var r := ParseRedirs(toks, acc); r.Ok? ==>
              RedirsOk(r.value) && PrintItems(r.value) + r.rest == PrintItems(acc) + toks && !NextRedir(r.rest)
    decreases |toks|
  {
    if NextRedir(toks) && |toks| > 1 && toks[1].Word? {
      var i := Redirect(toks[0].c, toks[1].q, toks[1].eq);
      RedirsSound(toks[2..], acc + [i]);
      ReadItem(acc, i, toks);
    }
  }

  lemma {:induction false} ItemsSound(toks: seq<Tok>, acc: seq<Item>)
    requires ItemsOk(acc)
    ensures var r := ParseItems(toks, acc); r.Ok? ==> ItemsOk(r.value) && PrintItems(r.value) + r.rest == PrintItems(acc) + toks
    decreases |toks|
  {
    if toks != [] && toks[0].Word? {
      var i := Arg(toks[0].q, toks[0].eq);
      if |Args(acc + [i])| < MAXARGS {
        ItemsSound(toks[1..], acc + [i]);
        ReadItem(acc, i, toks);
      }
    } else if toks != [] && IsRedirOp(toks[0].c) && |toks| > 1 && toks[1].Word? {
      var i := Redirect(toks[0].c, toks[1].q, toks[1].eq);
      ArgsSnoc(acc, i);
      ItemsSound(toks[2..], acc + [i]);
      ReadItem(acc, i, toks);
    }
  }

  lemma BlockTokens(inner: seq<Tok>, redirs: seq<Tok>, rest: seq<Tok>)
    ensures [Sym('(')] + inner + [Sym(')')] + redirs + rest == [Sym('(')] + (inner + ([Sym(')')] + (redirs + rest)))
    ensures ([Sym('(')] + (inner + ([Sym(')')] + (redirs + rest))))[1..] == inner + ([Sym(')')] + (redirs + rest))
    ensures ([Sym(')')] + (redirs + rest))[1..] == redirs + rest
  {
  }

  lemma {:induction false} ExecSound(toks: seq<Tok>)
    ensures var r := ParseExec(toks); r.Ok? ==> Form(r.value, EXEC) && Print(r.value) + r.rest == toks
    decreases |toks|, EXEC
  {
    if Next(toks, '(') {
      LineSound(toks[1..]);
      var p := ParseLine(toks[1..]);
      if p.Ok? && Next(p.rest, ')') {
        RedirsSound(p.rest[1..], []);
        var q := ParseRedirs(p.rest[1..], []);
        if q.Ok? {
          assert toks == [Sym('(')] + toks[1..] && p.rest == [Sym(')')] + p.rest[1..];
          BlockTokens(Print(p.value), PrintItems(q.value), q.rest);
        }
      }
    } else {
      ItemsSound(toks, []);
    }
  }

  lemma {:induction false} PipeSound(toks: seq<Tok>)
    ensures var r := ParsePipe(toks); r.Ok? ==> Form(r.value, PIPE) && Print(r.value) + r.rest == toks
    decreases |toks|, PIPE
  {
    ExecSound(toks);
    var p := ParseExec(toks);
    if p.Ok? && Next(p.rest, '|') {
      PipeSound(p.rest[1..]);
      var q := ParsePipe(p.rest[1..]);
      if q.Ok? {
        assert p.rest == [Sym('|')] + p.rest[1..];
        Around(Print(p.value), '|', Print(q.value), q.rest);
      }
    }
  }

  lemma {:induction false} BacksSound(f: Phrase, toks: seq<Tok>)
    requires Form(f, BACK)
    ensures var r := ParseBacks(f, toks); Form(r.value, BACK) && Print(r.value) + r.rest == Print(f) + toks
    decreases |toks|
  {
    if Next(toks, '&') {
      BacksSound(BackOf(f), toks[1..]);
      assert toks == [Sym('&')] + toks[1..];
      Assoc(Print(f), [Sym('&')], toks[1..]);
    }
  }

  lemma {:induction false} LineSound(toks: seq<Tok>)
    ensures var r := ParseLine(toks); r.Ok? ==> Form(r.value, LINE) && Print(r.value) + r.rest == toks
    decreases |toks|, LINE
  {
    PipeSound(toks);
    var p := ParsePipe(toks);
    if p.Ok? {
      FormMore(p.value, PIPE, BACK);
      BacksSound(p.value, p.rest);
      var b := ParseBacks(p.value, p.rest);
      FormMore(b.value, BACK, LINE);
      if Next(b.rest, ';') {
        LineSound(b.rest[1..]);
        var q := ParseLine(b.rest[1..]);
        if q.Ok? {
          assert b.rest == [Sym(';')] + b.rest[1..];
          Around(Print(b.value), ';', Print(q.value), q.rest);
        }
      }
    }
  }

  lemma FormMore(f: Phrase, rule: nat, rule': nat)
    requires Form(f, rule) && rule <= rule'
    ensures Form(f, rule')
  {
  }

  // ---------------------------------------------------------------- what is written is read

  /** A phrase of this kind can end before `rest`. */
  predicate Ends(rule: nat, rest: seq<Tok>) {
    rest == [] || (rest[0].Sym? &&
      (rest[0].c == ')' || (rule < LINE && rest[0].c == ';') || (rule < BACK && rest[0].c == '&') || (rule < PIPE && rest[0].c == '|')))
  }

  lemma LastOff(a: seq<Item>, b: seq<Item>)
    requires b != []
    ensures a + b == (a + b[..|b| - 1]) + [b[|b| - 1]] && b == b[..|b| - 1] + [b[|b| - 1]]
  {
  }

  lemma FirstOver(a: seq<Item>, b: seq<Item>)
    requires b != []
    ensures (a + [b[0]]) + b[1..] == a + b && b[0] in b && b[0] in a + b
  {
  }

  lemma {:induction false} PrintConcat(a: seq<Item>, b: seq<Item>)
    ensures PrintItems(a + b) == PrintItems(a) + PrintItems(b)
    decreases |b|
  {
    if b == [] {
      assert a + b == a;
    } else {
      hide PrintItems, PrintItem;
      var init, last := b[..|b| - 1], b[|b| - 1];
      PrintConcat(a, init);
      PrintSnoc(a + init, last);
      PrintSnoc(init, last);
      LastOff(a, b);
      Assoc(PrintItems(a), PrintItems(init), PrintItem(last));
    }
  }

  lemma {:induction false} ArgsConcat(a: seq<Item>, b: seq<Item>)
    ensures Args(a + b) == Args(a) + Args(b)
    decreases |b|
  {
    if b == [] {
      assert a + b == a;
    } else {
      var init := b[..|b| - 1];
      ArgsConcat(a, init);
      ArgsSnoc(a + init, b[|b| - 1]);
      LastOff(a, b);
    }
  }

  /** Reading the first item off what is written. */
  lemma FirstItem(items: seq<Item>, rest: seq<Tok>)
    requires items != []
    ensures PrintItems(items) + rest == PrintItem(items[0]) + (PrintItems(items[1..]) + rest)
  {
    assert items == [items[0]] + items[1..] && [items[0]] == [] + [items[0]];
    PrintConcat([items[0]], items[1..]);
    PrintSnoc([], items[0]);
    assert PrintItems([]) + PrintItem(items[0]) == PrintItem(items[0]);
    hide PrintItems, PrintItem;
    Assoc(PrintItem(items[0]), PrintItems(items[1..]), rest);
  }

  lemma {:induction false} RedirsComplete(items: seq<Item>, rest: seq<Tok>, acc: seq<Item>)
    requires RedirsOk(items) && !NextRedir(rest)
    ensures ParseRedirs(PrintItems(items) + rest, acc) == Ok(acc + items, rest)
    decreases |items|
  {
    if items == [] {
      assert PrintItems(items) + rest == rest && acc + items == acc;
    } else {
      hide PrintItems;
      FirstItem(items, rest);
      FirstOver(acc, items);
      RedirsComplete(items[1..], rest, acc + [items[0]]);
      assert (PrintItems(items) + rest)[2..] == PrintItems(items[1..]) + rest;
    }
  }

  lemma ItemStep(i: Item, toks: seq<Tok>, acc: seq<Item>)
    requires (i.Redirect? ==> IsRedirOp(i.op)) && |Args(acc + [i])| < MAXARGS
    ensures ParseItems(PrintItem(i) + toks, acc) == ParseItems(toks, acc + [i])
  {
  }

  lemma {:induction false} ItemsComplete(items: seq<Item>, rest: seq<Tok>, acc: seq<Item>)
    requires ItemsOk(acc + items) && Ends(EXEC, rest)
    ensures ParseItems(PrintItems(items) + rest, acc) == Ok(acc + items, rest)
    decreases |items|
  {
    if items == [] {
      assert PrintItems(items) + rest == rest && acc + items == acc;
    } else {
      hide PrintItems, PrintItem, ParseItems, Args;
      FirstItem(items, rest);
      FirstOver(acc, items);
      ArgsConcat(acc + [items[0]], items[1..]);
      ItemStep(items[0], PrintItems(items[1..]) + rest, acc);
      ItemsComplete(items[1..], rest, acc + [items[0]]);
    }
  }

  lemma {:induction false} ExecComplete(f: Phrase, rest: seq<Tok>)
    requires Form(f, EXEC) && Ends(EXEC, rest)
    ensures ParseExec(Print(f) + rest) == Ok(f, rest)
    decreases f, EXEC
  {
    match f
    case Simple(items) =>
      SimpleComplete(items, rest);
    case Block(inner, redirs) =>
      var tail := [Sym(')')] + (PrintItems(redirs) + rest);
      BlockTokens(Print(inner), PrintItems(redirs), rest);
      LineComplete(inner, tail);
      RedirsComplete(redirs, rest, []);
      assert [] + redirs == redirs;
  }

  lemma SimpleComplete(items: seq<Item>, rest: seq<Tok>)
    requires ItemsOk(items) && Ends(EXEC, rest)
    ensures ParseExec(PrintItems(items) + rest) == Ok(Simple(items), rest)
  {
    assert [] + items == items;
    ItemsComplete(items, rest, []);
    NotBlock(items, rest);
  }

  lemma NotBlock(items: seq<Item>, rest: seq<Tok>)
    requires ItemsOk(items) && Ends(EXEC, rest)
    ensures !Next(PrintItems(items) + rest, '(')
  {
  }

  lemma {:induction false} PipeComplete(f: Phrase, rest: seq<Tok>)
    requires Form(f, PIPE) && Ends(PIPE, rest)
    ensures ParsePipe(Print(f) + rest) == Ok(f, rest)
    decreases f, PIPE
  {
    if f.PipeOf? {
      var tail := [Sym('|')] + (Print(f.right) + rest);
      Around(Print(f.left), '|', Print(f.right), rest);
      ExecComplete(f.left, tail);
      PipeComplete(f.right, rest);
    } else {
      ExecComplete(f, rest);
    }
  }

  lemma {:induction false} BackComplete(f: Phrase, rest: seq<Tok>)
    requires Form(f, BACK) && Ends(PIPE, rest)
    ensures var p := ParsePipe(Print(f) + rest); p.Ok? && ParseBacks(p.value, p.rest) == ParseBacks(f, rest)
    decreases f, BACK
  {
    if f.BackOf? {
      var tail := [Sym('&')] + rest;
      Assoc(Print(f.inner), [Sym('&')], rest);
      BackComplete(f.inner, tail);
      assert tail[1..] == rest;
    } else {
      PipeComplete(f, rest);
    }
  }

  lemma {:induction false} LineComplete(f: Phrase, rest: seq<Tok>)
    requires Form(f, LINE) && Ends(LINE, rest)
    ensures ParseLine(Print(f) + rest) == Ok(f, rest)
    decreases f, LINE
  {
    if f.ListOf? {
      var tail := [Sym(';')] + (Print(f.right) + rest);
      Around(Print(f.left), ';', Print(f.right), rest);
      BackComplete(f.left, tail);
      LineComplete(f.right, rest);
    } else {
      BackComplete(f, rest);
    }
  }

  /** Parsing undoes printing, and only printing: the grammar is unambiguous and read in full. */
  lemma ParsePrint(f: Phrase, toks: seq<Tok>)
    ensures ParseLine(toks) == Ok(f, []) <==> Form(f, LINE) && Print(f) == toks
  {
    if ParseLine(toks) == Ok(f, []) {
      LineSound(toks);
      assert Print(f) + [] == Print(f);
    }
    if Form(f, LINE) && Print(f) == toks {
      LineComplete(f, []);
      assert Print(f) + [] == toks;
    }
  }
}
