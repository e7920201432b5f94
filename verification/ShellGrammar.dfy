/** The shell's grammar on tokens: what its parser computes, and a printer it inverts. */
module ShellGrammar {

  /** '+' is the token >>. */
  datatype Tok = Sym(c: char) | Word(w: string)

  datatype Cmd =
    | Exec(args: seq<string>)
    | Redir(cmd: Cmd, kind: char, file: string)
    | Pipe(left: Cmd, right: Cmd)
    | List(first: Cmd, rest: Cmd)
    | Back(bg: Cmd)

  datatype Parsed = Ok(cmd: Cmd, rest: seq<Tok>) | Bad

  datatype Redirs = Redirs(list: seq<(char, string)>, rest: seq<Tok>) | NoFile

  predicate Next(t: seq<Tok>, cs: set<char>) { |t| > 0 && t[0].Sym? && t[0].c in cs }

  // ----- the parser -----

  /** The redirections at the head of t. */
  function ParseRedirs(t: seq<Tok>): (r: Redirs)
    ensures r.Redirs? ==> |r.rest| <= |t| && !Next(r.rest, {'<', '>', '+'})
  {
    if !Next(t, {'<', '>', '+'}) then Redirs([], t)
    else if |t| < 2 || !t[1].Word? then NoFile
    else
      var r := ParseRedirs(t[2..]);
      if r.NoFile? then NoFile else Redirs([(t[0].c, t[1].w)] + r.list, r.rest)
  }

  function Wrap(c: Cmd, rs: seq<(char, string)>): Cmd
    decreases |rs|
  {
    if rs == [] then c else Wrap(Redir(c, rs[0].0, rs[0].1), rs[1..])
  }

  /** The rest of a simple command, with args and redirections rs read so far; at most nine arguments. */
  function ParseArgs(t: seq<Tok>, args: seq<string>, rs: seq<(char, string)>): (r: Parsed)
    ensures r.Ok? ==> |r.rest| <= |t|
    decreases |t|
  {
    if |t| == 0 || Next(t, {'|', ')', '&', ';'}) then Ok(Wrap(Exec(args), rs), t)
    else if !t[0].Word? || |args| + 1 >= 10 then Bad
    else
      var r := ParseRedirs(t[1..]);
      if r.NoFile? then Bad else ParseArgs(r.rest, args + [t[0].w], rs + r.list)
  }

  function ParseExec(t: seq<Tok>): (r: Parsed)
    ensures r.Ok? ==> |r.rest| <= |t|
    decreases |t|, 0
  {
    if Next(t, {'('}) then
      var b := ParseLine(t[1..]);
      if b.Bad? || !Next(b.rest, {')'}) then Bad
      else
        var r := ParseRedirs(b.rest[1..]);
        if r.NoFile? then Bad else Ok(Wrap(b.cmd, r.list), r.rest)
    else
      var r := ParseRedirs(t);
      if r.NoFile? then Bad else ParseArgs(r.rest, [], r.list)
  }

  function ParsePipe(t: seq<Tok>): (r: Parsed)
    ensures r.Ok? ==> |r.rest| <= |t|
    decreases |t|, 1
  {
    var l := ParseExec(t);
    if l.Bad? || !Next(l.rest, {'|'}) then l
    else
      var r := ParsePipe(l.rest[1..]);
      if r.Bad? then Bad else Ok(Pipe(l.cmd, r.cmd), r.rest)
  }

  function ParseBacks(c: Cmd, t: seq<Tok>): (r: Parsed)
    ensures r.Ok? && |r.rest| <= |t| && !Next(r.rest, {'&'})
    decreases |t|
  {
    if Next(t, {'&'}) then ParseBacks(Back(c), t[1..]) else Ok(c, t)
  }

  function ParseLine(t: seq<Tok>): (r: Parsed)
    ensures r.Ok? ==> |r.rest| <= |t|
    decreases |t|, 2
  {
    var p := ParsePipe(t);
    if p.Bad? then Bad
    else
      var l := ParseBacks(p.cmd, p.rest);
      if !Next(l.rest, {';'}) then l
      else
        var r := ParseLine(l.rest[1..]);
        if r.Bad? then Bad else Ok(List(l.cmd, r.cmd), r.rest)
  }

  // ----- the printer -----

  function PrintWords(args: seq<string>): seq<Tok> {
    if args == [] then [] else [Word(args[0])] + PrintWords(args[1..])
  }

  /** A command as the parser's innermost level reads it; parentheses around whatever binds less tightly. */
  function PrintExec(c: Cmd): seq<Tok>
    decreases c, if c.Exec? || c.Redir? then 0 else 4
  {
    match c
    case Exec(args) => PrintWords(args)
    case Redir(d, kind, file) => PrintExec(d) + [Sym(kind), Word(file)]
    case _ => [Sym('(')] + PrintLine(c) + [Sym(')')]
  }

  function PrintPipe(c: Cmd): seq<Tok>
    decreases c, if c.List? || c.Back? then 5 else 1
  {
    if c.Pipe? then PrintExec(c.left) + ([Sym('|')] + PrintPipe(c.right)) else PrintExec(c)
  }

  function PrintBack(c: Cmd): seq<Tok>
    decreases c, if c.List? then 6 else 2
  {
    if c.Back? then PrintBack(c.bg) + [Sym('&')] else PrintPipe(c)
  }

  function PrintLine(c: Cmd): seq<Tok>
    decreases c, 3
  {
    if c.List? then PrintBack(c.first) + ([Sym(';')] + PrintLine(c.rest)) else PrintBack(c)
  }

  // ----- what the parser builds, it builds within these limits -----

  predicate Legal(c: Cmd) {
    match c
    case Exec(args) => |args| <= 9
    case Redir(d, kind, file) => kind in {'<', '>', '+'} && Legal(d)
    case Pipe(l, r) => Legal(l) && Legal(r)
    case List(l, r) => Legal(l) && Legal(r)
    case Back(d) => Legal(d)
  }

  // ----- redirections -----

  function Base(c: Cmd): Cmd { if c.Redir? then Base(c.cmd) else c }

  function RedirsOf(c: Cmd): seq<(char, string)> { if c.Redir? then RedirsOf(c.cmd) + [(c.kind, c.file)] else [] }

  function PrintRedirs(rs: seq<(char, string)>): seq<Tok> {
    if rs == [] then [] else [Sym(rs[0].0), Word(rs[0].1)] + PrintRedirs(rs[1..])
  }

  predicate Kinds(rs: seq<(char, string)>) { forall i :: 0 <= i < |rs| ==> rs[i].0 in {'<', '>', '+'} }

  lemma {:induction false} WrapSnoc(c: Cmd, rs: seq<(char, string)>, r: (char, string))
    ensures Wrap(c, rs + [r]) == Redir(Wrap(c, rs), r.0, r.1)
    decreases |rs|
  {
    if rs == [] {
      assert rs + [r] == [r] && [r][1..] == [];
    } else {
      assert (rs + [r])[1..] == rs[1..] + [r];
      WrapSnoc(Redir(c, rs[0].0, rs[0].1), rs[1..], r);
    }
  }

  lemma {:induction false} PrintSnoc(rs: seq<(char, string)>, r: (char, string))
    ensures PrintRedirs(rs + [r]) == PrintRedirs(rs) + [Sym(r.0), Word(r.1)]
    decreases |rs|
  {
    if rs == [] {
      assert rs + [r] == [r] && [r][1..] == [];
    } else {
      assert (rs + [r])[1..] == rs[1..] + [r];
      PrintSnoc(rs[1..], r);
    }
  }

  /** A command is its base with its redirections around it, and prints so. */
  lemma {:induction false} Unwrapped(c: Cmd)
    ensures Wrap(Base(c), RedirsOf(c)) == c && PrintExec(c) == PrintExec(Base(c)) + PrintRedirs(RedirsOf(c))
    ensures Legal(c) ==> Kinds(RedirsOf(c)) && Legal(Base(c))
  {
    if c.Redir? {
      Unwrapped(c.cmd);
      var r := (c.kind, c.file);
      WrapSnoc(Base(c), RedirsOf(c.cmd), r);
      PrintSnoc(RedirsOf(c.cmd), r);
      var (a, b, d) := (PrintExec(Base(c)), PrintRedirs(RedirsOf(c.cmd)), [Sym(c.kind), Word(c.file)]);
      assert (a + b) + d == a + (b + d);
    }
  }

  lemma RedirsStep(t: seq<Tok>, r: (char, string), u: seq<Tok>)
    requires t == [Sym(r.0), Word(r.1)] + u && r.0 in {'<', '>', '+'} && ParseRedirs(u).Redirs?
    ensures ParseRedirs(t) == Redirs([r] + ParseRedirs(u).list, ParseRedirs(u).rest)
  {
    assert t[2..] == u;
  }

  lemma {:induction false} RedirsRead(rs: seq<(char, string)>, q: seq<Tok>)
    requires Kinds(rs) && !Next(q, {'<', '>', '+'})
    ensures ParseRedirs(PrintRedirs(rs) + q) == Redirs(rs, q)
    decreases |rs|
  {
    if rs == [] {
      assert PrintRedirs(rs) + q == q;
    } else {
      var u := PrintRedirs(rs[1..]) + q;
      assert PrintRedirs(rs) + q == [Sym(rs[0].0), Word(rs[0].1)] + u;
      RedirsRead(rs[1..], q);
      hide PrintRedirs, ParseRedirs, Next;
      RedirsStep([Sym(rs[0].0), Word(rs[0].1)] + u, rs[0], u);
      assert [rs[0]] + rs[1..] == rs;
    }
  }

  // ----- what may follow a command at each level -----

  predicate Stops(q: seq<Tok>, cs: set<char>) { |q| == 0 || Next(q, cs) }

  /** Arguments, then redirections, are read back. */
  lemma {:induction false} ArgsRead(pre: seq<string>, args: seq<string>, rs: seq<(char, string)>, q: seq<Tok>)
    requires |args| > 0 && |pre| + |args| <= 9 && Kinds(rs) && Stops(q, {'|', ')', '&', ';'})
    ensures ParseArgs(PrintWords(args) + (PrintRedirs(rs) + q), pre, []) == Ok(Wrap(Exec(pre + args), rs), q)
    decreases |args|
  {
    hide ParseArgs, ParseRedirs, PrintRedirs, PrintWords, Next;
    var t, u := PrintWords(args) + (PrintRedirs(rs) + q), PrintWords(args[1..]) + (PrintRedirs(rs) + q);
    WordsFirst(args, PrintRedirs(rs) + q);
    if |args| == 1 {
      StopsPlain(q);
      RedirsRead(rs, q);
      ArgsStep(t, pre, args[0], u, rs, q);
      ArgsEnd(q, pre + [args[0]], rs);
      assert pre + [args[0]] == pre + args;
    } else {
      WordsFirst(args[1..], PrintRedirs(rs) + q);
      WordFirst(u);
      ArgsStep(t, pre, args[0], u, [], u);
      ArgsRead(pre + [args[0]], args[1..], rs, q);
      assert pre + [args[0]] + args[1..] == pre + args;
    }
  }

  lemma {:induction false} WordsFirst(args: seq<string>, q: seq<Tok>)
    requires |args| > 0
    ensures PrintWords(args) + q == [Word(args[0])] + (PrintWords(args[1..]) + q)
    ensures |args| == 1 ==> PrintWords(args[1..]) + q == q
  {
    var w, p := [Word(args[0])], PrintWords(args[1..]);
    assert PrintWords(args) == w + p;
    hide PrintWords;
    assert (w + p) + q == w + (p + q);
  }

  lemma WordFirst(t: seq<Tok>)
    requires |t| > 0 && t[0].Word?
    ensures ParseRedirs(t) == Redirs([], t)
  {
  }

  lemma StopsPlain(q: seq<Tok>)
    requires Stops(q, {'|', ')', '&', ';'})
    ensures !Next(q, {'<', '>', '+'})
  {
  }

  lemma ArgsEnd(q: seq<Tok>, args: seq<string>, rs: seq<(char, string)>)
    requires Stops(q, {'|', ')', '&', ';'})
    ensures ParseArgs(q, args, rs) == Ok(Wrap(Exec(args), rs), q)
  {
  }

  /** One argument, and the redirections after it. */
  lemma ArgsStep(t: seq<Tok>, pre: seq<string>, w: string, u: seq<Tok>, rs: seq<(char, string)>, q: seq<Tok>)
    requires t == [Word(w)] + u && |pre| < 9 && ParseRedirs(u) == Redirs(rs, q)
    ensures ParseArgs(t, pre, []) == ParseArgs(q, pre + [w], rs)
  {
    assert t[1..] == u && [] + rs == rs;
  }

  lemma SimpleRead(args: seq<string>, rs: seq<(char, string)>, q: seq<Tok>)
    requires |args| <= 9 && Kinds(rs) && Stops(q, {'|', ')', '&', ';'})
    ensures ParseExec(PrintWords(args) + (PrintRedirs(rs) + q)) == Ok(Wrap(Exec(args), rs), q)
  {
    var t := PrintWords(args) + (PrintRedirs(rs) + q);
    if args == [] {
      assert t == PrintRedirs(rs) + q;
      RedirsRead(rs, q);
      assert !Next(t, {'('});
    } else {
      assert t[0] == Word(args[0]);
      assert ParseRedirs(t) == Redirs([], t);
      ArgsRead([], args, rs, q);
      assert [] + args == args;
    }
  }

  lemma BlockStep(b: Cmd, rs: seq<(char, string)>, q: seq<Tok>, tail: seq<Tok>)
    requires !b.Exec? && !b.Redir? && ParseRedirs(tail) == Redirs(rs, q)
    requires ParseLine(PrintLine(b) + ([Sym(')')] + tail)) == Ok(b, [Sym(')')] + tail)
    ensures ParseExec(PrintExec(b) + tail) == Ok(Wrap(b, rs), q)
  {
    var line, close := PrintLine(b), [Sym(')')] + tail;
    assert PrintExec(b) == [Sym('(')] + line + [Sym(')')];
    hide PrintLine, PrintExec, ParseRedirs, Wrap, ParseLine;
    var t := [Sym('(')] + (line + close);
    assert PrintExec(b) + tail == t;
    assert t[1..] == line + close && close[1..] == tail;
  }

  /** What is printed at each level is read back there, whatever admissible tokens follow. */
  lemma {:induction false} ExecRead(c: Cmd, q: seq<Tok>)
    requires Legal(c) && Stops(q, {'|', ')', '&', ';'})
    ensures ParseExec(PrintExec(c) + q) == Ok(c, q)
    decreases c, 4
  {
    Unwrapped(c);
    var (b, rs) := (Base(c), RedirsOf(c));
    var tail := PrintRedirs(rs) + q;
    assert (PrintExec(b) + PrintRedirs(rs)) + q == PrintExec(b) + tail;
    if b.Exec? {
      SimpleRead(b.args, rs, q);
    } else {
      BaseSmaller(c);
      LineRead(b, [Sym(')')] + tail);
      RedirsRead(rs, q);
      BlockStep(b, rs, q, tail);
    }
  }

  /** The base is the command itself or a part of it. */
  lemma {:induction false} BaseSmaller(c: Cmd)
    ensures Base(c) == c || Base(c) < c
    ensures !Base(c).Redir?
  {
    if c.Redir? {
      BaseSmaller(c.cmd);
    }
  }

  lemma {:induction false} PipeRead(c: Cmd, q: seq<Tok>)
    requires Legal(c) && Stops(q, {')', '&', ';'})
    ensures ParsePipe(PrintPipe(c) + q) == Ok(c, q)
    decreases c, if c.Pipe? then 1 else 5
  {
    if c.Pipe? {
      var bar := [Sym('|')] + (PrintPipe(c.right) + q);
      assert PrintPipe(c) + q == PrintExec(c.left) + bar;
      ExecRead(c.left, bar);
      assert bar[1..] == PrintPipe(c.right) + q;
      PipeRead(c.right, q);
    } else {
      ExecRead(c, q);
    }
  }

  /** parsepipe and then the ampersands: the background marks of c are read as if they followed it. */
  lemma {:induction false} BackRead(c: Cmd, q: seq<Tok>) returns (p: Parsed)
    requires Legal(c) && Stops(q, {')', '&', ';'})
    ensures p == ParsePipe(PrintBack(c) + q) && p.Ok? && ParseBacks(p.cmd, p.rest) == ParseBacks(c, q)
    decreases c, if c.Back? || c.Pipe? then 2 else 6
  {
    if c.Back? {
      var amp := [Sym('&')] + q;
      assert PrintBack(c) + q == PrintBack(c.bg) + amp;
      assert amp[1..] == q;
      p := BackRead(c.bg, amp);
    } else {
      PipeRead(c, q);
      p := ParsePipe(PrintBack(c) + q);
    }
  }

  lemma {:induction false} LineRead(c: Cmd, q: seq<Tok>)
    requires Legal(c) && Stops(q, {')'})
    ensures ParseLine(PrintLine(c) + q) == Ok(c, q)
    decreases c, if c.Exec? || c.Redir? then 7 else 3
  {
    if c.List? {
      var semi := [Sym(';')] + (PrintLine(c.rest) + q);
      assert PrintLine(c) + q == PrintBack(c.first) + semi;
      var p := BackRead(c.first, semi);
      assert semi[1..] == PrintLine(c.rest) + q;
      LineRead(c.rest, q);
    } else {
      var p := BackRead(c, q);
    }
  }

  /** parsecmd on tokens: nothing may be left over. */
  function ParseAll(t: seq<Tok>): Parsed {
    var r := ParseLine(t);
    if r.Ok? && r.rest == [] then r else Bad
  }

  /** Every command with at most nine arguments each is read back from its printed form. */
  lemma RoundTrip(c: Cmd)
    requires Legal(c)
    ensures ParseAll(PrintLine(c)) == Ok(c, [])
  {
    LineRead(c, []);
    assert PrintLine(c) + [] == PrintLine(c);
  }

  lemma {:induction false} WrapLegal(c: Cmd, rs: seq<(char, string)>)
    requires Legal(c) && Kinds(rs)
    ensures Legal(Wrap(c, rs))
    decreases |rs|
  {
    if rs != [] {
      WrapLegal(Redir(c, rs[0].0, rs[0].1), rs[1..]);
    }
  }

  lemma {:induction false} RedirsKinds(t: seq<Tok>)
    ensures ParseRedirs(t).Redirs? ==> Kinds(ParseRedirs(t).list)
    decreases |t|
  {
    if Next(t, {'<', '>', '+'}) && |t| >= 2 {
      RedirsKinds(t[2..]);
    }
  }

  lemma {:induction false} ArgsLegal(t: seq<Tok>, args: seq<string>, rs: seq<(char, string)>)
    requires |args| <= 9 && Kinds(rs)
    ensures ParseArgs(t, args, rs).Ok? ==> Legal(ParseArgs(t, args, rs).cmd)
    decreases |t|
  {
    if |t| == 0 || Next(t, {'|', ')', '&', ';'}) {
      WrapLegal(Exec(args), rs);
    } else if t[0].Word? && |args| + 1 < 10 {
      var r := ParseRedirs(t[1..]);
      RedirsKinds(t[1..]);
      if r.Redirs? {
        ArgsLegal(r.rest, args + [t[0].w], rs + r.list);
      }
    }
  }

  lemma {:induction false} BacksLegal(c: Cmd, t: seq<Tok>)
    requires Legal(c)
    ensures Legal(ParseBacks(c, t).cmd)
    decreases |t|
  {
    if Next(t, {'&'}) {
      BacksLegal(Back(c), t[1..]);
    }
  }

  /** Whatever the parser builds has at most nine arguments a command, and can be printed. */
  lemma {:induction false} ParsedLegal(t: seq<Tok>)
    ensures ParseExec(t).Ok? ==> Legal(ParseExec(t).cmd)
    ensures ParsePipe(t).Ok? ==> Legal(ParsePipe(t).cmd)
    ensures ParseLine(t).Ok? ==> Legal(ParseLine(t).cmd)
    decreases |t|
  {
    ExecLegal(t);
    var l := ParseExec(t);
    if l.Ok? && Next(l.rest, {'|'}) {
      ParsedLegal(l.rest[1..]);
    }
    var p := ParsePipe(t);
    if p.Ok? {
      BacksLegal(p.cmd, p.rest);
      var b := ParseBacks(p.cmd, p.rest);
      if Next(b.rest, {';'}) {
        ParsedLegal(b.rest[1..]);
      }
    }
  }

  lemma {:induction false} ExecLegal(t: seq<Tok>)
    ensures ParseExec(t).Ok? ==> Legal(ParseExec(t).cmd)
    decreases |t|, 0
  {
    if Next(t, {'('}) {
      ParsedLegal(t[1..]);
      var b := ParseLine(t[1..]);
      if b.Ok? && Next(b.rest, {')'}) {
        RedirsKinds(b.rest[1..]);
        var r := ParseRedirs(b.rest[1..]);
        if r.Redirs? {
          WrapLegal(b.cmd, r.list);
        }
      }
    } else {
      RedirsKinds(t);
      var r := ParseRedirs(t);
      if r.Redirs? {
        ArgsLegal(r.rest, [], r.list);
      }
    }
  }

  /** Parsing, printing and parsing again changes nothing. */
  lemma Normalizes(t: seq<Tok>)
    requires ParseAll(t).Ok?
    ensures ParseAll(PrintLine(ParseAll(t).cmd)) == ParseAll(t)
  {
    ParsedLegal(t);
    RoundTrip(ParseAll(t).cmd);
  }
}
