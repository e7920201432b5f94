/**
 The shell's language as a grammar, and the parser as exactly its reader: on every sequence of tokens it finds the one
 tree that the grammar gives, and fails if there is none.  In a simple command words and redirections may be mixed.
 */
module ShellSyntax {
  import opened ShellGrammar

  datatype Item = Arg(w: string) | Red(kind: char, file: string)

  datatype ExecT = Simple(items: seq<Item>) | Block(body: LineT, reds: seq<Item>)

  datatype PipeT = One(e: ExecT) | Piped(e: ExecT, p: PipeT)

  /** amps ampersands, and then the end or a semicolon and more. */
  datatype LineT = Last(p: PipeT, amps: nat) | More(p: PipeT, amps: nat, rest: LineT)

  // ----- the tokens of a tree -----

  function ItemToks(i: Item): seq<Tok> { if i.Arg? then [Word(i.w)] else [Sym(i.kind), Word(i.file)] }

  function Tokens(items: seq<Item>): seq<Tok> {
    if items == [] then [] else ItemToks(items[0]) + Tokens(items[1..])
  }

  function Amps(n: nat): seq<Tok> { if n == 0 then [] else [Sym('&')] + Amps(n - 1) }

  function ExecToks(e: ExecT): seq<Tok> {
    match e
    case Simple(items) => Tokens(items)
    case Block(body, reds) => [Sym('(')] + (LineToks(body) + ([Sym(')')] + Tokens(reds)))
  }

  function PipeToks(p: PipeT): seq<Tok> {
    match p
    case One(e) => ExecToks(e)
    case Piped(e, p) => ExecToks(e) + ([Sym('|')] + PipeToks(p))
  }

  function LineToks(l: LineT): seq<Tok> {
    match l
    case Last(p, amps) => PipeToks(p) + Amps(amps)
    case More(p, amps, rest) => PipeToks(p) + (Amps(amps) + ([Sym(';')] + LineToks(rest)))
  }

  // ----- the command it stands for -----

  /** The words of a simple command that are no file names, in order. */
  function ArgsOf(items: seq<Item>): seq<string> {
    if items == [] then [] else (if items[0].Arg? then [items[0].w] else []) + ArgsOf(items[1..])
  }

  /** Its redirections, in order. */
  function RedsOf(items: seq<Item>): seq<(char, string)> {
    if items == [] then [] else (if items[0].Red? then [(items[0].kind, items[0].file)] else []) + RedsOf(items[1..])
  }

  function Backs(c: Cmd, n: nat): Cmd
    decreases n
  {
    if n == 0 then c else Backs(Back(c), n - 1)
  }

  function ExecCmd(e: ExecT): Cmd {
    match e
    case Simple(items) => Wrap(Exec(ArgsOf(items)), RedsOf(items))
    case Block(body, reds) => Wrap(LineCmd(body), RedsOf(reds))
  }

  function PipeCmd(p: PipeT): Cmd {
    match p
    case One(e) => ExecCmd(e)
    case Piped(e, p) => Pipe(ExecCmd(e), PipeCmd(p))
  }

  function LineCmd(l: LineT): Cmd {
    match l
    case Last(p, amps) => Backs(PipeCmd(p), amps)
    case More(p, amps, rest) => List(Backs(PipeCmd(p), amps), LineCmd(rest))
  }

  // ----- the trees there are -----

  predicate Fine(items: seq<Item>) {
    forall k :: 0 <= k < |items| && items[k].Red? ==> items[k].kind in {'<', '>', '+'}
  }

  predicate WfExec(e: ExecT) {
    match e
    case Simple(items) => Fine(items) && |ArgsOf(items)| <= 9
    case Block(body, reds) => WfLine(body) && Fine(reds) && ArgsOf(reds) == []
  }

  predicate WfPipe(p: PipeT) {
    match p
    case One(e) => WfExec(e)
    case Piped(e, p) => WfExec(e) && WfPipe(p)
  }

  predicate WfLine(l: LineT) {
    match l
    case Last(p, _) => WfPipe(p)
    case More(p, _, rest) => WfPipe(p) && WfLine(rest)
  }

  // ----- every tree is read -----

  lemma Assoc<T>(a: seq<T>, b: seq<T>, c: seq<T>)
    ensures a + b + c == a + (b + c)
  {
  }

  /** A list of items from its first on. */
  lemma ItemsFirst(items: seq<Item>)
    requires items != []
    ensures Tokens(items) == ItemToks(items[0]) + Tokens(items[1..])
    ensures ArgsOf(items) == (if items[0].Arg? then [items[0].w] else []) + ArgsOf(items[1..])
    ensures RedsOf(items) == (if items[0].Red? then [(items[0].kind, items[0].file)] else []) + RedsOf(items[1..])
  {
  }

  lemma ItemsNone()
    ensures Tokens([]) == [] && ArgsOf([]) == [] && RedsOf([]) == []
  {
  }

  lemma ItemFirst(items: seq<Item>, q: seq<Tok>)
    requires items != []
    ensures Tokens(items) + q == ItemToks(items[0]) + (Tokens(items[1..]) + q)
  {
    hide Tokens, ItemToks;
    ItemsFirst(items);
    Assoc(ItemToks(items[0]), Tokens(items[1..]), q);
  }

  lemma {:induction false} ItemsRead(items: seq<Item>, q: seq<Tok>, args: seq<string>, rs: seq<(char, string)>)
    requires Fine(items) && |args| + |ArgsOf(items)| <= 9 && Stops(q, {'|', ')', '&', ';'})
    ensures var r := ParseRedirs(Tokens(items) + q);
            && r.Redirs?
            && ParseArgs(r.rest, args, rs + r.list) == Ok(Wrap(Exec(args + ArgsOf(items)), rs + RedsOf(items)), q)
    decreases |items|
  {
    hide ParseArgs, ParseRedirs, Wrap, Next, Tokens, ArgsOf, RedsOf, Stops;
    if items == [] {
      ItemsNone();
      NoItems(q);
      ArgsEnd(q, args, rs);
      assert args + [] == args && rs + [] == rs;
    } else {
      var i, u := items[0], Tokens(items[1..]) + q;
      ItemsFirst(items);
      ItemFirst(items, q);
      assert [] + RedsOf(items[1..]) == RedsOf(items[1..]) && [] + ArgsOf(items[1..]) == ArgsOf(items[1..]);
      if i.Arg? {
        ItemsRead(items[1..], q, args + [i.w], rs);
        ArgFirst([Word(i.w)] + u, i.w, u, args, rs);
        Assoc(args, [i.w], ArgsOf(items[1..]));
        assert rs + [] == rs;
      } else {
        var r := (i.kind, i.file);
        ItemsRead(items[1..], q, args, rs + [r]);
        RedirsStep([Sym(r.0), Word(r.1)] + u, r, u);
        Assoc(rs, [r], ParseRedirs(u).list);
        Assoc(rs, [r], RedsOf(items[1..]));
      }
    }
  }

  lemma {:induction false} NoItems(q: seq<Tok>)
    requires Stops(q, {'|', ')', '&', ';'})
    ensures ParseRedirs(Tokens([]) + q) == Redirs([], q)
  {
    hide Tokens;
    ItemsNone();
    assert [] + q == q;
    StopsPlain(q);
  }

  lemma ArgFirst(t: seq<Tok>, w: string, u: seq<Tok>, args: seq<string>, rs: seq<(char, string)>)
    requires t == [Word(w)] + u && |args| < 9 && ParseRedirs(u).Redirs?
    ensures ParseRedirs(t) == Redirs([], t)
    ensures ParseArgs(t, args, rs) == ParseArgs(ParseRedirs(u).rest, args + [w], rs + ParseRedirs(u).list)
  {
    assert t[1..] == u;
  }

  lemma SimpleReads(items: seq<Item>, q: seq<Tok>)
    requires WfExec(Simple(items)) && Stops(q, {'|', ')', '&', ';'})
    ensures ParseExec(Tokens(items) + q) == Ok(ExecCmd(Simple(items)), q)
  {
    hide Tokens, ArgsOf, RedsOf, ParseArgs, ParseRedirs, Wrap;
    ItemsRead(items, q, [], []);
    var r := ParseRedirs(Tokens(items) + q);
    assert [] + ArgsOf(items) == ArgsOf(items) && [] + RedsOf(items) == RedsOf(items) && [] + r.list == r.list;
    NoParen(items, q);
  }

  lemma NoParen(items: seq<Item>, q: seq<Tok>)
    requires Fine(items) && Stops(q, {'|', ')', '&', ';'})
    ensures !Next(Tokens(items) + q, {'('})
  {
    if items != [] {
      ItemFirst(items, q);
    } else {
      assert Tokens(items) + q == q;
    }
  }

  lemma {:induction false} RedsRead(reds: seq<Item>, q: seq<Tok>)
    requires Fine(reds) && ArgsOf(reds) == [] && !Next(q, {'<', '>', '+'})
    ensures ParseRedirs(Tokens(reds) + q) == Redirs(RedsOf(reds), q)
    decreases |reds|
  {
    if reds == [] {
      assert Tokens(reds) + q == q;
    } else {
      assert reds[0].Red?;
      var r, u := (reds[0].kind, reds[0].file), Tokens(reds[1..]) + q;
      ItemFirst(reds, q);
      RedsRead(reds[1..], q);
      hide ParseRedirs, Tokens;
      RedirsStep([Sym(r.0), Word(r.1)] + u, r, u);
    }
  }

  lemma {:induction false} BacksRead(c: Cmd, n: nat, q: seq<Tok>)
    requires !Next(q, {'&'})
    ensures ParseBacks(c, Amps(n) + q) == Ok(Backs(c, n), q)
    decreases n
  {
    if n == 0 {
      assert Amps(n) + q == q;
    } else {
      var t := [Sym('&')] + (Amps(n - 1) + q);
      assert Amps(n) + q == t && t[1..] == Amps(n - 1) + q;
      BacksRead(Back(c), n - 1, q);
    }
  }

  lemma {:induction false} ExecReads(e: ExecT, q: seq<Tok>)
    requires WfExec(e) && Stops(q, {'|', ')', '&', ';'})
    ensures ParseExec(ExecToks(e) + q) == Ok(ExecCmd(e), q)
    decreases e
  {
    match e
    case Simple(items) => SimpleReads(items, q);
    case Block(body, reds) =>
      var tail := [Sym(')')] + (Tokens(reds) + q);
      LineReads(body, tail);
      RedsRead(reds, q);
      BlockReads(body, reds, q, tail);
  }

  lemma BlockReads(body: LineT, reds: seq<Item>, q: seq<Tok>, tail: seq<Tok>)
    requires tail == [Sym(')')] + (Tokens(reds) + q) && ParseRedirs(Tokens(reds) + q) == Redirs(RedsOf(reds), q)
    requires ParseLine(LineToks(body) + tail) == Ok(LineCmd(body), tail)
    ensures ParseExec(ExecToks(Block(body, reds)) + q) == Ok(ExecCmd(Block(body, reds)), q)
  {
    hide LineToks, Tokens, ParseRedirs, ParseLine, Wrap, RedsOf, LineCmd;
    var line, rest := LineToks(body), Tokens(reds);
    var t := [Sym('(')] + (line + tail);
    Assoc([Sym('(')], line + ([Sym(')')] + rest), q);
    Assoc(line, [Sym(')')] + rest, q);
    Assoc([Sym(')')], rest, q);
    assert t[1..] == line + tail && tail[1..] == rest + q;
  }

  lemma {:induction false} PipeReads(p: PipeT, q: seq<Tok>)
    requires WfPipe(p) && Stops(q, {')', '&', ';'})
    ensures ParsePipe(PipeToks(p) + q) == Ok(PipeCmd(p), q)
    decreases p
  {
    match p
    case One(e) => ExecReads(e, q);
    case Piped(e, p1) =>
      var bar := [Sym('|')] + (PipeToks(p1) + q);
      ExecReads(e, bar);
      PipeReads(p1, q);
      PipedReads(e, p1, q, bar);
  }

  lemma PipedReads(e: ExecT, p: PipeT, q: seq<Tok>, bar: seq<Tok>)
    requires bar == [Sym('|')] + (PipeToks(p) + q) && ParseExec(ExecToks(e) + bar) == Ok(ExecCmd(e), bar)
    requires ParsePipe(PipeToks(p) + q) == Ok(PipeCmd(p), q)
    ensures ParsePipe(PipeToks(Piped(e, p)) + q) == Ok(PipeCmd(Piped(e, p)), q)
  {
    hide ExecToks, ParseExec, ExecCmd;
    Assoc(ExecToks(e), [Sym('|')] + PipeToks(p), q);
    Assoc([Sym('|')], PipeToks(p), q);
    assert bar[1..] == PipeToks(p) + q;
  }

  lemma {:induction false} LineReads(l: LineT, q: seq<Tok>)
    requires WfLine(l) && Stops(q, {')'})
    ensures ParseLine(LineToks(l) + q) == Ok(LineCmd(l), q)
    decreases l
  {
    var (p, n) := (l.p, l.amps);
    match l
    case Last(_, _) =>
      assert PipeToks(p) + Amps(n) + q == PipeToks(p) + (Amps(n) + q);
      AmpsStop(n, q);
      PipeReads(p, Amps(n) + q);
      BacksRead(PipeCmd(p), n, q);
    case More(_, _, rest) =>
      var semi := [Sym(';')] + (LineToks(rest) + q);
      assert PipeToks(p) + (Amps(n) + ([Sym(';')] + LineToks(rest))) + q == PipeToks(p) + (Amps(n) + semi);
      AmpsStop(n, semi);
      PipeReads(p, Amps(n) + semi);
      BacksRead(PipeCmd(p), n, semi);
      assert semi[1..] == LineToks(rest) + q;
      LineReads(rest, q);
  }

  lemma AmpsStop(n: nat, q: seq<Tok>)
    requires Stops(q, {')', ';'})
    ensures Stops(Amps(n) + q, {')', '&', ';'})
  {
    if n == 0 {
      assert Amps(n) + q == q;
    }
  }

  // ----- whatever is read has a tree -----

  lemma {:induction false} Joined(a: seq<Item>, b: seq<Item>)
    ensures Tokens(a + b) == Tokens(a) + Tokens(b) && ArgsOf(a + b) == ArgsOf(a) + ArgsOf(b)
    ensures RedsOf(a + b) == RedsOf(a) + RedsOf(b)
    decreases |a|
  {
    hide Tokens, ArgsOf, RedsOf, ItemToks;
    if a == [] {
      ItemsNone();
      assert a + b == b;
      assert [] + Tokens(b) == Tokens(b) && [] + ArgsOf(b) == ArgsOf(b) && [] + RedsOf(b) == RedsOf(b);
    } else {
      var i := a[0];
      assert (a + b)[1..] == a[1..] + b && (a + b)[0] == i;
      Joined(a[1..], b);
      ItemsFirst(a);
      ItemsFirst(a + b);
      Assoc(ItemToks(i), Tokens(a[1..]), Tokens(b));
      Assoc(if i.Arg? then [i.w] else [], ArgsOf(a[1..]), ArgsOf(b));
      Assoc(if i.Red? then [(i.kind, i.file)] else [], RedsOf(a[1..]), RedsOf(b));
    }
  }

  lemma {:induction false} RedirsTree(t: seq<Tok>) returns (reds: seq<Item>)
    requires ParseRedirs(t).Redirs?
    ensures Fine(reds) && ArgsOf(reds) == [] && RedsOf(reds) == ParseRedirs(t).list
    ensures t == Tokens(reds) + ParseRedirs(t).rest
    decreases |t|
  {
    hide Tokens, ArgsOf, RedsOf;
    if !Next(t, {'<', '>', '+'}) {
      reds := [];
      ItemsNone();
      assert [] + t == t;
    } else {
      var more := RedirsTree(t[2..]);
      reds := [Red(t[0].c, t[1].w)] + more;
      assert reds[1..] == more && reds[0].Red?;
      ItemsFirst(reds);
      var head := [Sym(t[0].c), Word(t[1].w)];
      assert t == head + t[2..];
      Assoc(head, Tokens(more), ParseRedirs(t[2..]).rest);
      assert [] + ArgsOf(more) == [];
    }
  }

  lemma {:induction false} ArgsTree(t: seq<Tok>, args: seq<string>, rs: seq<(char, string)>) returns (items: seq<Item>)
    requires ParseArgs(t, args, rs).Ok? && |args| <= 9
    ensures Fine(items) && |args| + |ArgsOf(items)| <= 9
    ensures var r := ParseArgs(t, args, rs);
            t == Tokens(items) + r.rest && r.cmd == Wrap(Exec(args + ArgsOf(items)), rs + RedsOf(items))
    decreases |t|
  {
    hide Tokens, ArgsOf, RedsOf, Wrap, ParseRedirs;
    if |t| == 0 || Next(t, {'|', ')', '&', ';'}) {
      items := [];
      ItemsNone();
      assert args + [] == args && rs + [] == rs && [] + t == t;
    } else {
      var w, r := t[0].w, ParseRedirs(t[1..]);
      var reds := RedirsTree(t[1..]);
      var more := ArgsTree(r.rest, args + [w], rs + r.list);
      items := [Arg(w)] + (reds + more);
      assert t == [Word(w)] + t[1..];
      ArgsTreeStep(t, w, reds, more, items, ParseArgs(t, args, rs).rest, args, rs);
    }
  }

  lemma ArgsTreeStep(t: seq<Tok>, w: string, reds: seq<Item>, more: seq<Item>, items: seq<Item>, rest: seq<Tok>,
                     args: seq<string>, rs: seq<(char, string)>)
    requires Fine(reds) && Fine(more) && ArgsOf(reds) == [] && items == [Arg(w)] + (reds + more)
    requires t == [Word(w)] + (Tokens(reds) + (Tokens(more) + rest))
    ensures Fine(items) && t == Tokens(items) + rest
    ensures args + [w] + ArgsOf(more) == args + ArgsOf(items) && |ArgsOf(items)| == 1 + |ArgsOf(more)|
    ensures rs + RedsOf(reds) + RedsOf(more) == rs + RedsOf(items)
  {
    hide Tokens, ArgsOf, RedsOf;
    assert items[1..] == reds + more && items[0] == Arg(w);
    Joined(reds, more);
    ItemsFirst(items);
    ItemFirst(items, rest);
    Assoc(Tokens(reds), Tokens(more), rest);
    Assoc(args, [w], ArgsOf(more));
    Assoc(rs, RedsOf(reds), RedsOf(more));
    assert [] + ArgsOf(more) == ArgsOf(more) && [] + (RedsOf(reds) + RedsOf(more)) == RedsOf(reds) + RedsOf(more);
  }

  lemma {:induction false} BacksTree(c: Cmd, t: seq<Tok>) returns (n: nat)
    ensures var r := ParseBacks(c, t); t == Amps(n) + r.rest && r.cmd == Backs(c, n)
    decreases |t|
  {
    if Next(t, {'&'}) {
      var k := BacksTree(Back(c), t[1..]);
      n := k + 1;
      assert t == [Sym('&')] + t[1..];
      Assoc([Sym('&')], Amps(k), ParseBacks(Back(c), t[1..]).rest);
    } else {
      n := 0;
      assert Amps(0) + t == t;
    }
  }

  lemma {:induction false} ExecTree(t: seq<Tok>) returns (e: ExecT)
    requires ParseExec(t).Ok?
    ensures WfExec(e) && t == ExecToks(e) + ParseExec(t).rest && ParseExec(t).cmd == ExecCmd(e)
    decreases |t|, 0
  {
    hide Tokens, ArgsOf, RedsOf, Wrap, ParseRedirs, ParseArgs, LineToks, LineCmd, Fine;
    if Next(t, {'('}) {
      var b := ParseLine(t[1..]);
      var body := LineTree(t[1..]);
      var reds := RedirsTree(b.rest[1..]);
      e := Block(body, reds);
      BlockToks(t, body, reds, b.rest, ParseRedirs(b.rest[1..]).rest);
    } else {
      var r := ParseRedirs(t);
      var reds := RedirsTree(t);
      var items := ArgsTree(r.rest, [], r.list);
      e := Simple(reds + items);
      Joined(reds, items);
      FineJoined(reds, items);
      Assoc(Tokens(reds), Tokens(items), ParseExec(t).rest);
      assert [] + ArgsOf(items) == ArgsOf(items);
    }
  }

  lemma FineJoined(a: seq<Item>, b: seq<Item>)
    requires Fine(a) && Fine(b)
    ensures Fine(a + b)
  {
  }

  lemma BlockToks(t: seq<Tok>, body: LineT, reds: seq<Item>, close: seq<Tok>, rest: seq<Tok>)
    requires |t| > 0 && t[0] == Sym('(') && t[1..] == LineToks(body) + close && |close| > 0 && close[0] == Sym(')')
    requires close[1..] == Tokens(reds) + rest
    ensures t == ExecToks(Block(body, reds)) + rest
  {
    hide LineToks, Tokens;
    var line, more := LineToks(body), Tokens(reds);
    assert t == [Sym('(')] + t[1..] && close == [Sym(')')] + close[1..];
    Assoc([Sym('(')], line + ([Sym(')')] + more), rest);
    Assoc(line, [Sym(')')] + more, rest);
    Assoc([Sym(')')], more, rest);
  }

  lemma {:induction false} PipeTree(t: seq<Tok>) returns (p: PipeT)
    requires ParsePipe(t).Ok?
    ensures WfPipe(p) && t == PipeToks(p) + ParsePipe(t).rest && ParsePipe(t).cmd == PipeCmd(p)
    decreases |t|, 1
  {
    hide ExecToks, ExecCmd, WfExec, ParseExec;
    var l := ParseExec(t);
    var e := ExecTree(t);
    if Next(l.rest, {'|'}) {
      var p1 := PipeTree(l.rest[1..]);
      p := Piped(e, p1);
      assert l.rest == [Sym('|')] + l.rest[1..];
      var rest := ParsePipe(l.rest[1..]).rest;
      Assoc([Sym('|')], PipeToks(p1), rest);
      Assoc(ExecToks(e), [Sym('|')] + PipeToks(p1), rest);
    } else {
      p := One(e);
    }
  }

  lemma {:induction false} LineTree(t: seq<Tok>) returns (l: LineT)
    requires ParseLine(t).Ok?
    ensures WfLine(l) && t == LineToks(l) + ParseLine(t).rest && ParseLine(t).cmd == LineCmd(l)
    decreases |t|, 2
  {
    hide PipeToks, PipeCmd, WfPipe, ParsePipe, Amps, ParseBacks, Backs;
    var r := ParsePipe(t);
    var p := PipeTree(t);
    var n := BacksTree(r.cmd, r.rest);
    var b := ParseBacks(r.cmd, r.rest);
    if Next(b.rest, {';'}) {
      var more := LineTree(b.rest[1..]);
      l := More(p, n, more);
      assert b.rest == [Sym(';')] + b.rest[1..];
      var rest := ParseLine(b.rest[1..]).rest;
      Assoc([Sym(';')], LineToks(more), rest);
      Assoc(Amps(n), [Sym(';')] + LineToks(more), rest);
      Assoc(PipeToks(p), Amps(n) + ([Sym(';')] + LineToks(more)), rest);
    } else {
      l := Last(p, n);
      Assoc(PipeToks(p), Amps(n), b.rest);
    }
  }

  // ----- the parser and the grammar -----

  /** Line l is made of these tokens and means this command. */
  ghost predicate Spells(l: LineT, t: seq<Tok>, c: Cmd) { WfLine(l) && LineToks(l) == t && LineCmd(l) == c }

  /** The parser accepts just the lines of the grammar, and builds the command that each stands for. */
  lemma ParsesExactly(t: seq<Tok>, c: Cmd)
    ensures ParseAll(t) == Ok(c, []) <==> exists l :: Spells(l, t, c)
  {
    hide ParseLine, LineToks, LineCmd, WfLine;
    if ParseAll(t) == Ok(c, []) {
      var l := LineTree(t);
      assert LineToks(l) + [] == LineToks(l);
      assert Spells(l, t, c);
    }
    if l :| Spells(l, t, c) {
      LineReads(l, []);
      assert LineToks(l) + [] == LineToks(l);
    }
  }

  /** Wherever redirections stand in a simple command, they are applied in order, and the other words are arguments. */
  lemma MixedRead(items: seq<Item>)
    requires Fine(items)
    ensures if |ArgsOf(items)| <= 9 then ParseAll(Tokens(items)) == Ok(Wrap(Exec(ArgsOf(items)), RedsOf(items)), [])
            else ParseAll(Tokens(items)) == Bad
  {
    hide ParseLine, Tokens, ArgsOf, RedsOf, Wrap, Fine;
    var t := Tokens(items);
    if |ArgsOf(items)| <= 9 {
      var e := Simple(items);
      var l := Last(One(e), 0);
      assert WfExec(e) && ExecToks(e) == t && WfPipe(One(e)) && PipeToks(One(e)) == t && PipeCmd(One(e)) == ExecCmd(e);
      assert LineToks(l) == t + Amps(0) && t + Amps(0) == t;
      assert Spells(l, t, Wrap(Exec(ArgsOf(items)), RedsOf(items)));
      ParsesExactly(t, Wrap(Exec(ArgsOf(items)), RedsOf(items)));
    } else {
      TooManyArgs(items);
    }
  }

  /** The tenth argument is one too many, wherever it stands. */
  lemma {:induction false} TooMany(items: seq<Item>, args: seq<string>, rs: seq<(char, string)>)
    requires Fine(items) && |args| <= 9 < |args| + |ArgsOf(items)|
    ensures var r := ParseRedirs(Tokens(items)); r.Redirs? && ParseArgs(r.rest, args, rs + r.list) == Bad
    decreases |items|
  {
    hide ParseArgs, ParseRedirs, Next, Tokens, ArgsOf;
    if items == [] {
      ItemsNone();
    } else {
      var i, u := items[0], Tokens(items[1..]);
      ItemsFirst(items);
      if i.Arg? {
        if |args| < 9 {
          TooMany(items[1..], args + [i.w], rs);
          ArgFirst([Word(i.w)] + u, i.w, u, args, rs);
          assert rs + [] == rs;
        } else {
          Tenth([Word(i.w)] + u, args, rs);
          assert rs + [] == rs;
        }
      } else {
        var r := (i.kind, i.file);
        assert [] + ArgsOf(items[1..]) == ArgsOf(items[1..]);
        TooMany(items[1..], args, rs + [r]);
        RedirsStep([Sym(r.0), Word(r.1)] + u, r, u);
        Assoc(rs, [r], ParseRedirs(u).list);
      }
    }
  }

  lemma Tenth(t: seq<Tok>, args: seq<string>, rs: seq<(char, string)>)
    requires |t| > 0 && t[0].Word? && |args| == 9
    ensures ParseRedirs(t) == Redirs([], t) && ParseArgs(t, args, rs) == Bad
  {
  }

  lemma TooManyArgs(items: seq<Item>)
    requires Fine(items) && |ArgsOf(items)| > 9
    ensures ParseAll(Tokens(items)) == Bad
  {
    TooMany(items, [], []);
    var t := Tokens(items);
    assert [] + ParseRedirs(t).list == ParseRedirs(t).list;
    assert !Next(t, {'('}) by {
      ItemsFirst(items);
    }
    hide ParseArgs, ParseRedirs;
    assert ParseExec(t) == Bad && ParsePipe(t) == Bad;
  }
}
