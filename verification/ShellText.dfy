/**
 Command lines as text.  Any text without NUL is tokens with blanks around them in exactly one reading: blanks are
 optional, words are as long as they can be, and two > in a row are one token.
 */
module ShellText {
  import opened ShellGrammar
  import opened ShellLex
  import opened ShellSyntax

  /** Blanks and a token, over and over, and blanks at the end. */
  datatype Spelled = Tail(blank: string) | Then(blank: string, tok: Tok, rest: Spelled)

  function Raw(t: Tok): string { if t.Word? then t.w else if t.c == '+' then ">>" else [t.c] }

  function TextOf(s: Spelled): string {
    match s
    case Tail(b) => b
    case Then(b, t, rest) => b + (Raw(t) + TextOf(rest))
  }

  function ToksOf(s: Spelled): seq<Tok> {
    match s
    case Tail(_) => []
    case Then(_, t, rest) => [t] + ToksOf(rest)
  }

  predicate Blank(b: string) { forall i :: 0 <= i < |b| ==> IsSpace(b[i]) }

  /** The token does not go on in the text x that follows. */
  predicate Ends(t: Tok, x: string) {
    && (t.Word? && |x| > 0 ==> !WordChar(x[0]))
    && (t == Sym('>') && |x| > 0 ==> x[0] != '>')
  }

  predicate WfText(s: Spelled) {
    match s
    case Tail(b) => Blank(b)
    case Then(b, t, rest) => Blank(b) && LegalTok(t) && Ends(t, TextOf(rest)) && WfText(rest)
  }

  lemma {:induction false} SkipBlanks(b: string, x: string)
    requires Blank(b)
    ensures Lex(b + x) == Lex(x)
    decreases |b|
  {
    if b == [] {
      assert b + x == x;
    } else {
      assert (b + x)[0] == b[0] && (b + x)[1..] == b[1..] + x;
      SkipBlanks(b[1..], x);
    }
  }

  lemma LexWord(t: string)
    ensures |t| > 0 && WordChar(t[0]) ==> Lex(t) == [Word(t[..WordLen(t)])] + Lex(t[WordLen(t)..])
  {
  }

  lemma LexRaw(t: Tok, x: string)
    requires LegalTok(t) && Ends(t, x) && (forall i :: 0 <= i < |x| ==> x[i] != '\0')
    ensures Lex(Raw(t) + x) == [t] + Lex(x)
  {
    hide Lex;
    var all := Raw(t) + x;
    LexFirst(all);
    LexWord(all);
    if t.Word? {
      WordLenIs(t.w, x);
      assert all[..|t.w|] == t.w && all[|t.w|..] == x;
    } else if t.c == '+' {
      assert all[0] == '>' && all[1] == '>' && all[2..] == x;
    } else {
      assert all[0] == t.c && all[1..] == x;
    }
  }

  lemma {:induction false} NoNul(s: Spelled)
    requires WfText(s)
    ensures forall i :: 0 <= i < |TextOf(s)| ==> TextOf(s)[i] != '\0'
  {
    if s.Then? {
      NoNul(s.rest);
      assert forall i :: 0 <= i < |Raw(s.tok)| ==> Raw(s.tok)[i] != '\0';
    }
  }

  /** Every spelling is read as its tokens. */
  lemma {:induction false} SpelledRead(s: Spelled)
    requires WfText(s)
    ensures Lex(TextOf(s)) == ToksOf(s)
  {
    match s
    case Tail(b) =>
      assert b + [] == b;
      SkipBlanks(b, []);
    case Then(b, t, rest) =>
      NoNul(rest);
      SpelledRead(rest);
      hide Lex, TextOf, ToksOf;
      SkipBlanks(b, Raw(t) + TextOf(rest));
      LexRaw(t, TextOf(rest));
      ThenRead(s);
  }

  lemma ThenRead(s: Spelled)
    requires s.Then? && Lex(s.blank + (Raw(s.tok) + TextOf(s.rest))) == [s.tok] + ToksOf(s.rest)
    ensures Lex(TextOf(s)) == ToksOf(s)
  {
    hide Lex, Raw;
  }

  /** Every text without NUL is a spelling. */
  lemma {:induction false} Respelled(t: string) returns (s: Spelled)
    requires forall i :: 0 <= i < |t| ==> t[i] != '\0'
    ensures WfText(s) && TextOf(s) == t
    decreases |t|
  {
    if t == [] {
      s := Tail("");
    } else if IsSpace(t[0]) {
      var r := Respelled(t[1..]);
      s := Shifted(t[0], r);
      assert t == [t[0]] + t[1..];
    } else {
      var n, tok := FirstTok(t);
      var r := Respelled(t[n..]);
      s := Then("", tok, r);
      assert "" + (Raw(tok) + t[n..]) == Raw(tok) + t[n..];
    }
  }

  lemma Shifted(c: char, r: Spelled) returns (s: Spelled)
    requires WfText(r) && IsSpace(c)
    ensures WfText(s) && TextOf(s) == [c] + TextOf(r)
  {
    match r
    case Tail(b) => s := Tail([c] + b);
    case Then(b, t, rest) =>
      s := Then([c] + b, t, rest);
      Assoc([c], b, Raw(t) + TextOf(rest));
  }

  /** The token at the head of a text, as long as it can be. */
  lemma FirstTok(t: string) returns (n: nat, tok: Tok)
    requires t != [] && !IsSpace(t[0]) && forall i :: 0 <= i < |t| ==> t[i] != '\0'
    ensures 0 < n <= |t| && LegalTok(tok) && t == Raw(tok) + t[n..] && Ends(tok, t[n..])
  {
    if IsSymbol(t[0]) {
      if |t| >= 2 && t[0] == '>' && t[1] == '>' {
        n, tok := 2, Sym('+');
      } else {
        n, tok := 1, Sym(t[0]);
      }
    } else {
      n, tok := WordLen(t), Word(t[..WordLen(t)]);
    }
  }

  ghost predicate Reads(s: Spelled, l: LineT, t: string, c: Cmd) {
    WfText(s) && TextOf(s) == t && Spells(l, ToksOf(s), c)
  }

  /** The tokens of a text are those of its spellings. */
  lemma LexExact(t: string, ts: seq<Tok>)
    requires forall i :: 0 <= i < |t| ==> t[i] != '\0'
    ensures Lex(t) == ts <==> exists s :: WfText(s) && TextOf(s) == t && ToksOf(s) == ts
  {
    var s := Respelled(t);
    SpelledRead(s);
    if s' :| WfText(s') && TextOf(s') == t && ToksOf(s') == ts {
      SpelledRead(s');
    }
  }

  /** The shell takes a line for a command just if the line spells a sentence of the grammar that means it. */
  lemma LineExact(t: string, c: Cmd)
    requires forall i :: 0 <= i < |t| ==> t[i] != '\0'
    ensures ParseAll(Lex(t)) == Ok(c, []) <==> exists s, l :: Reads(s, l, t, c)
  {
    hide Lex, ParseAll, TextOf, ToksOf, WfText, Spells;
    ParsesExactly(Lex(t), c);
    var s := Respelled(t);
    SpelledRead(s);
    if l :| Spells(l, Lex(t), c) {
      assert Reads(s, l, t, c);
    }
    if s', l :| Reads(s', l, t, c) {
      SpelledRead(s');
    }
  }
}
