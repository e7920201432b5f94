/**
 The shell's parser (sh.c) over a buffer that holds a C string. Trees refer to words by their place in
 the buffer, as the code's pointers do; ok is false where the code panics.
 */
module Shell {
  import opened ShellGrammar
  import opened ShellLex

  datatype Tree =
    | TExec(args: seq<(nat, nat)>)
    | TRedir(cmd: Tree, q: nat, eq: nat, kind: char)
    | TPipe(left: Tree, right: Tree)
    | TList(first: Tree, rest: Tree)
    | TBack(bg: Tree)

  /** A whole word of the buffer: it cannot be extended to the right. */
  predicate WordAt(m: seq<char>, q: nat, eq: nat) {
    q < eq < |m| && (forall i :: q <= i < eq ==> WordChar(m[i])) && !WordChar(m[eq])
  }

  predicate WordsAt(m: seq<char>, args: seq<(nat, nat)>) {
    forall i :: 0 <= i < |args| ==> WordAt(m, args[i].0, args[i].1)
  }

  predicate Sound(m: seq<char>, t: Tree) {
    match t
    case TExec(args) => WordsAt(m, args)
    case TRedir(c, q, eq, kind) => WordAt(m, q, eq) && Sound(m, c)
    case TPipe(l, r) => Sound(m, l) && Sound(m, r)
    case TList(l, r) => Sound(m, l) && Sound(m, r)
    case TBack(c) => Sound(m, c)
  }

  function Words(m: seq<char>, args: seq<(nat, nat)>): (r: seq<string>)
    requires WordsAt(m, args)
    ensures |r| == |args| && forall i :: 0 <= i < |r| ==> r[i] == m[args[i].0..args[i].1]
  {
    seq(|args|, i requires 0 <= i < |args| => m[args[i].0..args[i].1])
  }

  /** The command a tree stands for. */
  function Meaning(m: seq<char>, t: Tree): Cmd
    requires Sound(m, t)
  {
    match t
    case TExec(args) => Exec(Words(m, args))
    case TRedir(c, q, eq, kind) => Redir(Meaning(m, c), kind, m[q..eq])
    case TPipe(l, r) => Pipe(Meaning(m, l), Meaning(m, r))
    case TList(l, r) => List(Meaning(m, l), Meaning(m, r))
    case TBack(c) => Back(Meaning(m, c))
  }

  function Code(t: Tok): char { if t.Word? then 'a' else t.c }

  /** peek compares characters: both > and >> begin with >. */
  function Lead(t: Tok): char { if t.Word? then 'a' else if t.c == '+' then '>' else t.c }

  // ----- one step of the tokenizer -----

  lemma LexSpace(t: string)
    requires |t| > 0 && IsSpace(t[0])
    ensures Lex(t) == Lex(t[1..])
  {
  }

  /** The characters of a word and what follows it. */
  lemma {:induction false} WordLenMax(t: string, k: nat)
    requires k <= |t| && (forall i :: 0 <= i < k ==> WordChar(t[i])) && (k < |t| ==> !WordChar(t[k]))
    ensures WordLen(t) == k
    decreases k
  {
    assert t == t[..k] + t[k..];
    WordLenIs(t[..k], t[k..]);
  }

  lemma LexWord(t: string, k: nat)
    requires 0 < k <= |t| && (forall i :: 0 <= i < k ==> WordChar(t[i])) && (k < |t| ==> !WordChar(t[k]))
    ensures Lex(t) == [Word(t[..k])] + Lex(t[k..])
  {
    WordLenMax(t, k);
    assert WordChar(t[0]);
  }

  // ----- redirections around a simple command -----

  /** Redirections around a simple command; the code's cmd points to the command inside ret. */
  predicate Chain(t: Tree) { t.TExec? || (t.TRedir? && Chain(t.cmd)) }

  /** Writing the argument array through that pointer. */
  function Fill(t: Tree, args: seq<(nat, nat)>): Tree {
    match t
    case TExec(_) => TExec(args)
    case TRedir(c, q, eq, kind) => TRedir(Fill(c, args), q, eq, kind)
    case _ => t
  }

  lemma {:induction false} FillMeaning(m: seq<char>, t: Tree, args: seq<(nat, nat)>)
    requires Sound(m, t) && Chain(t) && WordsAt(m, args)
    ensures Sound(m, Fill(t, args)) && Meaning(m, Fill(t, args)) == Wrap(Exec(Words(m, args)), RedirsOf(Meaning(m, t)))
  {
    if t.TRedir? {
      FillMeaning(m, t.cmd, args);
      WrapSnoc(Exec(Words(m, args)), RedirsOf(Meaning(m, t.cmd)), (t.kind, m[t.q..t.eq]));
    }
  }

  lemma {:induction false} WrapRedirs(c: Cmd, rs: seq<(char, string)>)
    ensures RedirsOf(Wrap(c, rs)) == RedirsOf(c) + rs
    decreases |rs|
  {
    if rs == [] {
      assert RedirsOf(c) + rs == RedirsOf(c);
    } else {
      WrapRedirs(Redir(c, rs[0].0, rs[0].1), rs[1..]);
      assert RedirsOf(c) + [rs[0]] + rs[1..] == RedirsOf(c) + rs;
    }
  }

  lemma RedirsGo(t: seq<Tok>, kind: char, file: string, u: seq<Tok>)
    requires t == [Sym(kind), Word(file)] + u && kind in {'<', '>', '+'}
    ensures var (r, r') := (ParseRedirs(t), ParseRedirs(u));
            (r.Redirs? <==> r'.Redirs?)
            && (r.Redirs? ==> r.rest == r'.rest && forall c :: Wrap(c, r.list) == Wrap(Redir(c, kind, file), r'.list))
  {
    assert t[2..] == u;
    if ParseRedirs(u).Redirs? {
      var l := ParseRedirs(u).list;
      assert ([(kind, file)] + l)[1..] == l;
    }
  }

  // ----- the words of a tree -----

  function SpansOf(args: seq<(nat, nat)>): set<(nat, nat)> { set i | 0 <= i < |args| :: args[i] }

  function Spans(t: Tree): set<(nat, nat)> {
    match t
    case TExec(args) => SpansOf(args)
    case TRedir(c, q, eq, kind) => Spans(c) + {(q, eq)}
    case TPipe(l, r) => Spans(l) + Spans(r)
    case TList(l, r) => Spans(l) + Spans(r)
    case TBack(c) => Spans(c)
  }

  function EndsOf(args: seq<(nat, nat)>): set<nat> { set i | 0 <= i < |args| :: args[i].1 }

  function Ends(t: Tree): set<nat> {
    match t
    case TExec(args) => EndsOf(args)
    case TRedir(c, q, eq, kind) => Ends(c) + {eq}
    case TPipe(l, r) => Ends(l) + Ends(r)
    case TList(l, r) => Ends(l) + Ends(r)
    case TBack(c) => Ends(c)
  }

  lemma EndsOfSnoc(args: seq<(nat, nat)>, a: (nat, nat))
    ensures EndsOf(args + [a]) == EndsOf(args) + {a.1}
  {
    var all := args + [a];
    forall e | e in EndsOf(args) ensures e in EndsOf(all) {
      var i :| 0 <= i < |args| && args[i].1 == e;
      assert all[i].1 == e;
    }
    assert all[|args|].1 == a.1;
  }

  function Nulled(m: seq<char>, ends: set<nat>): (r: seq<char>)
    ensures |r| == |m| && forall i :: 0 <= i < |m| ==> r[i] == if i in ends then '\0' else m[i]
  {
    seq(|m|, i requires 0 <= i < |m| => if i in ends then '\0' else m[i])
  }

  /** The C string at q is w. */
  predicate Reads(m: seq<char>, q: nat, w: string) {
    q + |w| < |m| && m[q + |w|] == '\0' && m[q..q + |w|] == w && forall i :: 0 <= i < |w| ==> w[i] != '\0'
  }

  lemma {:induction false} EndsInside(m: seq<char>, t: Tree)
    requires Sound(m, t)
    ensures forall e :: e in Ends(t) ==> e < |m| && !WordChar(m[e])
    decreases t
  {
    match t
    case TExec(args) =>
    case TRedir(c, q, eq, kind) => EndsInside(m, c);
    case TPipe(l, r) => EndsInside(m, l); EndsInside(m, r);
    case TList(l, r) => EndsInside(m, l); EndsInside(m, r);
    case TBack(c) => EndsInside(m, c);
  }

  lemma {:induction false} SpanWords(m: seq<char>, t: Tree, q: nat, eq: nat)
    requires Sound(m, t) && (q, eq) in Spans(t)
    ensures WordAt(m, q, eq) && eq in Ends(t)
    decreases t
  {
    match t
    case TExec(args) =>
      var i :| 0 <= i < |args| && args[i] == (q, eq);
      assert args[i].1 == eq;
    case TRedir(c, q', eq', kind) =>
      if (q, eq) in Spans(c) {
        SpanWords(m, c, q, eq);
      }
    case TPipe(l, r) =>
      if (q, eq) in Spans(l) {
        SpanWords(m, l, q, eq);
      } else {
        SpanWords(m, r, q, eq);
      }
    case TList(l, r) =>
      if (q, eq) in Spans(l) {
        SpanWords(m, l, q, eq);
      } else {
        SpanWords(m, r, q, eq);
      }
    case TBack(c) =>
      SpanWords(m, c, q, eq);
  }

  /** No word of the tree ends inside another. */
  lemma EndOutside(m: seq<char>, t: Tree, q: nat, eq: nat, e: nat)
    requires Sound(m, t) && (q, eq) in Spans(t) && e in Ends(t)
    ensures !(q <= e < eq)
  {
    SpanWords(m, t, q, eq);
    EndsInside(m, t);
  }

  /** After the NULs are written, every word reads as it was. */
  lemma SpanReads(m: seq<char>, t: Tree, q: nat, eq: nat)
    requires Sound(m, t) && (q, eq) in Spans(t)
    ensures WordAt(m, q, eq) && Reads(Nulled(m, Ends(t)), q, m[q..eq])
  {
    SpanWords(m, t, q, eq);
    var r := Nulled(m, Ends(t));
    forall i | q <= i < eq ensures r[i] == m[i] && m[i] != '\0' {
      if i in Ends(t) {
        EndOutside(m, t, q, eq, i);
      }
      assert WordChar(m[i]);
    }
    assert r[q..eq] == m[q..eq];
  }

  class Parser {
    const n: nat
    var mem: array<char>
    var ps: nat

    ghost predicate Valid()
      reads this, mem
    {
      mem.Length == n + 1 && mem[n] == '\0' && ps <= n && forall i :: 0 <= i < n ==> mem[i] != '\0'
    }

    ghost function Toks(): seq<Tok>
      reads this, mem
      requires Valid()
    {
      Lex(mem[ps..n])
    }

    /** Past the whitespace at s. */
    method Skip(s: nat) returns (e: nat)
      requires Valid() && s <= n
      ensures s <= e <= n && Lex(mem[e..n]) == Lex(mem[s..n]) && (e < n ==> !IsSpace(mem[e]))
    {
      e := s;
      while e < n && IsSpace(mem[e])
        invariant s <= e <= n && Lex(mem[e..n]) == Lex(mem[s..n])
      {
        LexSpace(mem[e..n]);
        assert mem[e..n][1..] == mem[e + 1..n];
        e := e + 1;
      }
    }

    /** The end of the word at s. */
    method WordEnd(s: nat) returns (e: nat)
      requires Valid() && s < n && WordChar(mem[s])
      ensures s < e <= n && WordAt(mem[..], s, e) && Lex(mem[s..n]) == [Word(mem[s..e])] + Lex(mem[e..n])
    {
      e := s;
      while e < n && !IsSpace(mem[e]) && !IsSymbol(mem[e])
        invariant s <= e <= n && (e == s ==> WordChar(mem[s])) && forall i :: s <= i < e ==> WordChar(mem[i])
      {
        e := e + 1;
      }
      var t := mem[s..n];
      LexWord(t, e - s);
      assert t[..e - s] == mem[s..e] && t[e - s..] == mem[e..n];
    }

    /** The next token: its code, 0 at the end, and for a word its place. */
    method Gettoken() returns (tok: char, q: nat, eq: nat)
      requires Valid()
      modifies this`ps
      ensures Valid() && old(ps) <= ps
      ensures old(Toks()) == [] ==> tok == '\0' && Toks() == []
      ensures old(Toks()) != [] ==> tok == Code(old(Toks()[0])) && tok != '\0' && Toks() == old(Toks())[1..]
      ensures old(Toks()) != [] ==> (tok == 'a' <==> old(Toks()[0]).Word?)
      ensures old(Toks()) != [] && old(Toks()[0]).Word? ==> WordAt(mem[..], q, eq) && mem[q..eq] == old(Toks()[0]).w
    {
      hide Lex;
      var s := Skip(ps);
      q := s;
      ghost var t;
      tok, s, t := Scan(s);
      eq := s;
      s := Skip(s);
      ps := s;
    }

    /** The token at s, which is no whitespace, and the place after it. */
    method Scan(s: nat) returns (tok: char, e: nat, ghost t: Tok)
      requires Valid() && s <= n && (s < n ==> !IsSpace(mem[s]))
      ensures s <= e <= n && (s == n ==> tok == '\0' && e == n && Lex(mem[s..n]) == [] == Lex(mem[e..n]))
      ensures s < n ==> Lex(mem[s..n]) == [t] + Lex(mem[e..n])
      ensures s < n ==> tok == Code(t) && tok != '\0' && (tok == 'a' <==> t.Word?)
      ensures s < n && t.Word? ==> WordAt(mem[..], s, e) && mem[s..e] == t.w
    {
      hide Lex;
      tok, e, t := mem[s], s, Sym(mem[s]);
      LexFirst(mem[s..n]);
      if tok == '\0' {
        assert s == n;
      } else if tok == '>' {
        e := e + 1;
        if mem[e] == '>' {
          tok, t := '+', Sym('+');
          e := e + 1;
          assert mem[s..n][2..] == mem[e..n];
        } else {
          assert mem[s..n][1..] == mem[e..n];
        }
      } else if IsSymbol(tok) {
        e := e + 1;
        assert mem[s..n][1..] == mem[e..n];
      } else {
        tok := 'a';
        e := WordEnd(s);
        t := Word(mem[s..e]);
        assert mem[..][s..e] == mem[s..e];
      }
    }

    /** Whether the next character, past whitespace, is one of these symbols. */
    method Peek(cs: set<char>) returns (yes: bool)
      requires Valid() && forall c :: c in cs ==> IsSymbol(c)
      modifies this`ps
      ensures Valid() && old(ps) <= ps && Toks() == old(Toks())
      ensures ps == n <==> Toks() == []
      ensures yes <==> Toks() != [] && Toks()[0].Sym? && Lead(Toks()[0]) in cs
    {
      ps := Skip(ps);
      yes := mem[ps] != '\0' && mem[ps] in cs;
      if ps < n && !IsSymbol(mem[ps]) {
        assert WordChar(mem[ps]);
        ghost var t := mem[ps..n];
        assert t[0] == mem[ps];
      }
    }

    /** What a parsing method has found is what the grammar says. */
    ghost predicate Agrees(r: Parsed, ok: bool, t: Tree)
      reads this, mem
    {
      && Valid() && (ok <==> r.Ok?)
      && (ok ==> Sound(mem[..], t) && Meaning(mem[..], t) == r.cmd && Toks() == r.rest)
    }

    method ParseRedirs(cmd: Tree) returns (ok: bool, ret: Tree)
      requires Valid() && Sound(mem[..], cmd)
      modifies this`ps
      ensures Valid() && Sound(mem[..], ret) && (Chain(cmd) ==> Chain(ret))
      ensures var r := ShellGrammar.ParseRedirs(old(Toks()));
              (ok <==> r.Redirs?)
              && (ok ==> Toks() == r.rest && Meaning(mem[..], ret) == Wrap(Meaning(mem[..], cmd), r.list))
    {
      hide Lex, WordChar;
      ghost var m := mem[..];
      ghost var whole := ShellGrammar.ParseRedirs(Toks());
      ret := cmd;
      while true
        invariant Valid() && mem[..] == m && Sound(m, ret) && (Chain(cmd) ==> Chain(ret))
        invariant var r := ShellGrammar.ParseRedirs(Toks());
                  (r.Redirs? <==> whole.Redirs?)
                  && (r.Redirs? ==> r.rest == whole.rest
                                    && Wrap(Meaning(m, ret), r.list) == Wrap(Meaning(m, cmd), whole.list))
        decreases |Toks()|
      {
        var more := Peek({'<', '>'});
        if !more {
          return true, ret;
        }
        ghost var t := Toks();
        var tok, _, _ := Gettoken();
        var word, q, eq := Gettoken();
        if word != 'a' {
          return false, ret;
        }
        assert t == [Sym(tok), Word(m[q..eq])] + t[2..] by {
          assert t[1..][0] == t[1] && t[1].Word?;
          assert m[q..eq] == mem[q..eq];
        }
        RedirsGo(t, tok, m[q..eq], t[2..]);
        ret := TRedir(ret, q, eq, tok);
      }
    }

    /** A simple command or a block. */
    method ParseExec() returns (ok: bool, ret: Tree)
      requires Valid()
      modifies this`ps
      ensures Agrees(ShellGrammar.ParseExec(old(Toks())), ok, ret)
      decreases |Toks()|, 1
    {
      hide Lex, WordChar, ShellGrammar.ParseRedirs, ShellGrammar.ParseArgs, ShellGrammar.ParseLine, Wrap;
      var block := Peek({'('});
      if block {
        ok, ret := ParseBlock();
        return;
      }
      ghost var r := ShellGrammar.ParseRedirs(Toks());
      assert Words(mem[..], []) == [];
      ok, ret := ParseRedirs(TExec([]));
      if ok {
        WrapRedirs(Exec([]), r.list);
        assert [] + r.list == r.list;
        ok, ret := ParseArgs(ret);
      }
    }

    /** parseexec's loop; ret holds the redirections so far around an argument list still empty. */
    method ParseArgs(start: Tree) returns (ok: bool, ret: Tree)
      requires Valid() && Sound(mem[..], start) && Chain(start)
      modifies this`ps
      ensures Agrees(ShellGrammar.ParseArgs(old(Toks()), [], RedirsOf(old(Meaning(mem[..], start)))), ok, ret)
    {
      hide Lex, WordChar;
      ghost var m := mem[..];
      ret := start;
      var args := [];
      assert Words(m, args) == [];
      ghost var whole := ShellGrammar.ParseArgs(Toks(), [], RedirsOf(Meaning(m, start)));
      while true
        invariant Valid() && mem[..] == m && Sound(m, ret) && Chain(ret) && WordsAt(m, args) && |args| < 10
        invariant ShellGrammar.ParseArgs(Toks(), Words(m, args), RedirsOf(Meaning(m, ret))) == whole
        decreases |Toks()|
      {
        FillMeaning(m, ret, args);
        var stop := Peek({'|', ')', '&', ';'});
        if stop {
          return true, Fill(ret, args);
        }
        ghost var t, was := Toks(), Meaning(m, ret);
        var tok, q, eq := Gettoken();
        if tok == '\0' {
          return true, Fill(ret, args);
        }
        if tok != 'a' {
          return false, ret;
        }
        assert t[0] == Word(m[q..eq]) by {
          assert m[q..eq] == mem[q..eq];
        }
        assert Words(m, args + [(q, eq)]) == Words(m, args) + [m[q..eq]];
        args := args + [(q, eq)];
        if |args| >= 10 {
          return false, ret;
        }
        var more;
        more, ret := ParseRedirs(ret);
        if !more {
          return false, ret;
        }
        WrapRedirs(was, ShellGrammar.ParseRedirs(t[1..]).list);
      }
    }

    method ParseBlock() returns (ok: bool, ret: Tree)
      requires Valid() && Next(Toks(), {'('})
      modifies this`ps
      ensures Agrees(ShellGrammar.ParseExec(old(Toks())), ok, ret)
      decreases |Toks()|, 0
    {
      var tok, _, _ := Gettoken();
      ok, ret := ParseLine();
      if !ok {
        return;
      }
      var close := Peek({')'});
      if !close {
        return false, ret;
      }
      var shut, _, _ := Gettoken();
      ok, ret := ParseRedirs(ret);
    }

    method ParsePipe() returns (ok: bool, ret: Tree)
      requires Valid()
      modifies this`ps
      ensures Agrees(ShellGrammar.ParsePipe(old(Toks())), ok, ret)
      decreases |Toks()|, 2
    {
      ok, ret := ParseExec();
      if !ok {
        return;
      }
      var bar := Peek({'|'});
      if bar {
        var tok, _, _ := Gettoken();
        var right;
        ok, right := ParsePipe();
        ret := TPipe(ret, right);
      }
    }

    method ParseLine() returns (ok: bool, ret: Tree)
      requires Valid()
      modifies this`ps
      ensures Agrees(ShellGrammar.ParseLine(old(Toks())), ok, ret)
      decreases |Toks()|, 3
    {
      ghost var m := mem[..];
      ok, ret := ParsePipe();
      if !ok {
        return;
      }
      ghost var p := ShellGrammar.ParsePipe(old(Toks()));
      ghost var l := ParseBacks(p.cmd, p.rest);
      while true
        invariant Valid() && mem[..] == m && Sound(m, ret) && ParseBacks(Meaning(m, ret), Toks()) == l
        decreases |Toks()|
      {
        var amp := Peek({'&'});
        if !amp {
          break;
        }
        var tok, _, _ := Gettoken();
        ret := TBack(ret);
      }
      var semi := Peek({';'});
      if semi {
        var tok, _, _ := Gettoken();
        var rest;
        ok, rest := ParseLine();
        ret := TList(ret, rest);
      }
    }

    /** nulterminate: a NUL at the end of every word of the tree, and nowhere else. */
    method Nulterminate(t: Tree)
      requires forall e :: e in Ends(t) ==> e < mem.Length
      modifies mem
      ensures mem[..] == Nulled(old(mem[..]), Ends(t))
      decreases t
    {
      match t
      case TExec(args) =>
        assert forall k :: 0 <= k < |args| ==> args[k].1 in Ends(t);
        var i := 0;
        while i < |args|
          invariant 0 <= i <= |args|
          invariant mem[..] == Nulled(old(mem[..]), EndsOf(args[..i]))
        {
          assert EndsOf(args[..i + 1]) == EndsOf(args[..i]) + {args[i].1} by {
            assert args[..i + 1] == args[..i] + [args[i]];
            EndsOfSnoc(args[..i], args[i]);
          }
          mem[args[i].1] := '\0';
          i := i + 1;
        }
        assert args[..i] == args;
      case TRedir(c, q, eq, kind) =>
        assert Ends(t) == Ends(c) + {eq};
        Nulterminate(c);
        mem[eq] := '\0';
      case TPipe(l, r) =>
        assert Ends(t) == Ends(l) + Ends(r);
        Nulterminate(l);
        Nulterminate(r);
      case TList(l, r) =>
        assert Ends(t) == Ends(l) + Ends(r);
        Nulterminate(l);
        Nulterminate(r);
      case TBack(c) =>
        assert Ends(t) == Ends(c);
        Nulterminate(c);
    }

    /**
     parsecmd: succeeds exactly when the grammar accepts all the tokens, with the grammar's command;
     afterwards every word of the tree, read as a C string from its start, is exactly that word.
     */
    method ParseCmd() returns (ok: bool, ret: Tree)
      requires Valid()
      modifies this`ps, mem
      ensures ok <==> ParseAll(old(Toks())).Ok?
      ensures ok ==> Sound(old(mem[..]), ret) && Meaning(old(mem[..]), ret) == ParseAll(old(Toks())).cmd
      ensures ok ==> forall q, eq :: (q, eq) in Spans(ret) ==>
                WordAt(old(mem[..]), q, eq) && Reads(mem[..], q, old(mem[..])[q..eq])
    {
      ghost var m := mem[..];
      ok, ret := ParseLine();
      if !ok {
        return;
      }
      var none := Peek({});
      if ps != n {
        return false, ret;
      }
      EndsInside(m, ret);
      Nulterminate(ret);
      forall q, eq | (q, eq) in Spans(ret) ensures WordAt(m, q, eq) && Reads(mem[..], q, m[q..eq]) {
        SpanReads(m, ret, q, eq);
      }
    }
  }
}
