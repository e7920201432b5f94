/** Text and tokens: what gettoken reads, and a text that reads back as given tokens. */
module ShellLex {
  import opened ShellGrammar

  predicate IsSpace(c: char) { c in {' ', '\t', '\r', '\n', '\U{0B}'} }

  predicate IsSymbol(c: char) { c in {'<', '|', '>', '&', ';', '(', ')'} }

  predicate WordChar(c: char) { !IsSpace(c) && !IsSymbol(c) && c != '\0' }

  /** The length of the word at the head of t. */
  function WordLen(t: string): (n: nat)
    ensures n <= |t| && (forall i :: 0 <= i < n ==> WordChar(t[i])) && (n < |t| ==> !WordChar(t[n]))
  {
    if t == [] || !WordChar(t[0]) then 0 else 1 + WordLen(t[1..])
  }

  /** The tokens of a text without NUL. */
  function Lex(t: string): seq<Tok> {
    if t == [] then []
    else if IsSpace(t[0]) || t[0] == '\0' then Lex(t[1..])
    else if |t| >= 2 && t[0] == '>' && t[1] == '>' then [Sym('+')] + Lex(t[2..])
    else if IsSymbol(t[0]) then [Sym(t[0])] + Lex(t[1..])
    else [Word(t[..WordLen(t)])] + Lex(t[WordLen(t)..])
  }

  /** How a text that does not begin with a word is read. */
  lemma LexFirst(t: string)
    ensures t == [] ==> Lex(t) == []
    ensures |t| > 0 && IsSymbol(t[0]) ==>
              Lex(t) == if |t| >= 2 && t[0] == '>' && t[1] == '>' then [Sym('+')] + Lex(t[2..])
                        else [Sym(t[0])] + Lex(t[1..])
  {
  }

  // ----- a text for given tokens -----

  predicate LegalWord(w: string) { |w| > 0 && forall i :: 0 <= i < |w| ==> WordChar(w[i]) }

  predicate LegalTok(t: Tok) { if t.Word? then LegalWord(t.w) else IsSymbol(t.c) || t.c == '+' }

  function Show(t: Tok): string {
    if t.Word? then t.w + " " else if t.c == '+' then ">> " else [t.c, ' ']
  }

  function Text(ts: seq<Tok>): string {
    if ts == [] then [] else Show(ts[0]) + Text(ts[1..])
  }

  lemma {:induction false} WordLenIs(w: string, x: string)
    requires (forall i :: 0 <= i < |w| ==> WordChar(w[i])) && (x == [] || !WordChar(x[0]))
    ensures WordLen(w + x) == |w|
    decreases |w|
  {
    if w == [] {
      assert w + x == x;
    } else {
      assert (w + x)[1..] == w[1..] + x;
      WordLenIs(w[1..], x);
    }
  }

  lemma LexShow(t: Tok, x: string)
    requires LegalTok(t)
    ensures Lex(Show(t) + x) == [t] + Lex(x)
  {
    var all := Show(t) + x;
    if t.Word? {
      assert all == t.w + (" " + x);
      WordLenIs(t.w, " " + x);
      assert all[..|t.w|] == t.w && all[|t.w|..] == " " + x && (" " + x)[1..] == x;
    } else if t.c == '+' {
      assert all[2..] == " " + x && (" " + x)[1..] == x;
    } else {
      assert all[1..] == " " + x && (" " + x)[1..] == x;
    }
  }

  lemma {:induction false} LexText(ts: seq<Tok>)
    requires forall i :: 0 <= i < |ts| ==> LegalTok(ts[i])
    ensures Lex(Text(ts)) == ts
    decreases |ts|
  {
    if ts != [] {
      LexShow(ts[0], Text(ts[1..]));
      LexText(ts[1..]);
    }
  }

  // ----- every legal command has a text that parses to it -----

  predicate LegalWords(c: Cmd) {
    match c
    case Exec(args) => forall i :: 0 <= i < |args| ==> LegalWord(args[i])
    case Redir(d, kind, file) => LegalWord(file) && LegalWords(d)
    case Pipe(l, r) => LegalWords(l) && LegalWords(r)
    case List(l, r) => LegalWords(l) && LegalWords(r)
    case Back(d) => LegalWords(d)
  }

  ghost predicate AllLegal(ts: seq<Tok>) { forall i :: 0 <= i < |ts| ==> LegalTok(ts[i]) }

  lemma {:induction false} WordsLegal(args: seq<string>)
    requires forall i :: 0 <= i < |args| ==> LegalWord(args[i])
    ensures AllLegal(PrintWords(args))
    decreases |args|
  {
    if args != [] {
      WordsLegal(args[1..]);
    }
  }

  lemma {:induction false} PrintLegal(c: Cmd)
    requires Legal(c) && LegalWords(c)
    ensures AllLegal(PrintExec(c)) && AllLegal(PrintPipe(c)) && AllLegal(PrintBack(c)) && AllLegal(PrintLine(c))
    decreases c
  {
    hide AllLegal;
    match c
    case Exec(args) => WordsLegal(args);
    case Redir(d, kind, file) =>
      PrintLegal(d);
      RedirLegal(PrintExec(d), kind, file);
      assert PrintLine(c) == PrintBack(c) == PrintPipe(c) == PrintExec(c);
    case Pipe(l, r) =>
      PrintLegal(l);
      PrintLegal(r);
      JoinLegal(PrintExec(l), '|', PrintPipe(r));
      assert PrintLine(c) == PrintBack(c) == PrintPipe(c);
      WrapLegal(PrintLine(c));
    case List(l, r) =>
      PrintLegal(l);
      PrintLegal(r);
      JoinLegal(PrintBack(l), ';', PrintLine(r));
      assert PrintBack(c) == PrintPipe(c) == PrintExec(c);
      WrapLegal(PrintLine(c));
    case Back(d) =>
      PrintLegal(d);
      JoinLegal(PrintBack(d), '&', []);
      assert PrintLine(c) == PrintBack(c) && PrintPipe(c) == PrintExec(c);
      WrapLegal(PrintLine(c));
  }

  lemma JoinLegal(a: seq<Tok>, sym: char, b: seq<Tok>)
    requires AllLegal(a) && LegalTok(Sym(sym)) && (b == [] || AllLegal(b))
    ensures AllLegal(a + ([Sym(sym)] + b)) && (b == [] ==> AllLegal(a + [Sym(sym)]))
  {
  }

  lemma WrapLegal(a: seq<Tok>)
    requires AllLegal(a)
    ensures AllLegal([Sym('(')] + a + [Sym(')')])
  {
  }

  lemma RedirLegal(a: seq<Tok>, kind: char, file: string)
    requires AllLegal(a) && LegalTok(Sym(kind)) && LegalTok(Word(file))
    ensures AllLegal(a + [Sym(kind), Word(file)])
  {
  }

  /** Printing a command as text and parsing the text gives the command back. */
  lemma TextRoundTrip(c: Cmd)
    requires Legal(c) && LegalWords(c)
    ensures ParseAll(Lex(Text(PrintLine(c)))) == Ok(c, [])
  {
    PrintLegal(c);
    LexText(PrintLine(c));
    RoundTrip(c);
  }
}
