/** grep's matcher against the language of its patterns. C strings are sequences without the final NUL. */
module Grep {

  // ----- the language, declaratively -----

  datatype Atom = One(c: char) | Star(c: char) | End

  predicate Fits(c: char, x: char) { c == '.' || c == x }

  /** A pattern is a sequence of atoms: c*, a final $, and single characters. */
  function Atoms(re: string): seq<Atom> {
    if |re| == 0 then []
    else if |re| >= 2 && re[1] == '*' then [Star(re[0])] + Atoms(re[2..])
    else if re == "$" then [End]
    else [One(re[0])] + Atoms(re[1..])
  }

  /** Atom a stands for text[i..j]. */
  ghost predicate Stands(a: Atom, text: string, i: int, j: int) {
    && 0 <= i <= j <= |text|
    && match a
       case One(c) => j == i + 1 && Fits(c, text[i])
       case Star(c) => forall k :: i <= k < j ==> Fits(c, text[k])
       case End => i == j == |text|
  }

  /** cuts divides a piece of the text into one part per atom. */
  ghost predicate Divides(atoms: seq<Atom>, text: string, cuts: seq<int>) {
    |cuts| == |atoms| + 1 && 0 <= cuts[0] <= |text|
    && forall k :: 0 <= k < |atoms| ==> Stands(atoms[k], text, cuts[k], cuts[k + 1])
  }

  /** Some piece of the text that starts at i is in the language. */
  ghost predicate At(atoms: seq<Atom>, text: string, i: int) {
    exists cuts :: Divides(atoms, text, cuts) && cuts[0] == i
  }

  /** The text has a substring in the pattern's language; a leading ^ ties it to the start. */
  ghost predicate Found(re: string, text: string) {
    if |re| > 0 && re[0] == '^' then At(Atoms(re[1..]), text, 0)
    else exists i :: At(Atoms(re), text, i)
  }

  lemma AtNothing(text: string, i: int)
    ensures At([], text, i) <==> 0 <= i <= |text|
  {
    if 0 <= i <= |text| {
      assert Divides([], text, [i]);
    }
  }

  /** Matching an atom and then the rest. */
  lemma AtCons(a: Atom, rest: seq<Atom>, text: string, i: int)
    ensures At([a] + rest, text, i) <==> exists j :: Stands(a, text, i, j) && At(rest, text, j)
  {
    var all := [a] + rest;
    if At(all, text, i) {
      var cuts :| Divides(all, text, cuts) && cuts[0] == i;
      assert Stands(all[0], text, cuts[0], cuts[1]);
      forall k | 0 <= k < |rest| ensures Stands(rest[k], text, cuts[1..][k], cuts[1..][k + 1]) {
        assert Stands(all[k + 1], text, cuts[k + 1], cuts[k + 2]);
      }
      assert Divides(rest, text, cuts[1..]) && cuts[1..][0] == cuts[1];
    }
    if j :| Stands(a, text, i, j) && At(rest, text, j) {
      var cuts :| Divides(rest, text, cuts) && cuts[0] == j;
      var more := [i] + cuts;
      forall k | 0 <= k < |all| ensures Stands(all[k], text, more[k], more[k + 1]) {
        if k > 0 {
          assert Stands(rest[k - 1], text, cuts[k - 1], cuts[k]);
        }
      }
      assert Divides(all, text, more) && more[0] == i;
    }
  }

  /** One more character for a star. */
  lemma StarStep(c: char, rest: seq<Atom>, text: string, i: int)
    requires 0 <= i <= |text|
    ensures At([Star(c)] + rest, text, i)
       <==> At(rest, text, i) || (i < |text| && Fits(c, text[i]) && At([Star(c)] + rest, text, i + 1))
  {
    AtCons(Star(c), rest, text, i);
    if i < |text| {
      AtCons(Star(c), rest, text, i + 1);
    }
    if At([Star(c)] + rest, text, i) {
      var j :| Stands(Star(c), text, i, j) && At(rest, text, j);
      assert j > i ==> Stands(Star(c), text, i + 1, j);
    }
    if At(rest, text, i) {
      assert Stands(Star(c), text, i, i);
    }
    if i < |text| && Fits(c, text[i]) && At([Star(c)] + rest, text, i + 1) {
      var j :| Stands(Star(c), text, i + 1, j) && At(rest, text, j);
      assert Stands(Star(c), text, i, j);
    }
  }

  // ----- the matcher -----

  /** matchhere, at position i of the text. */
  method MatchHere(re: string, text: string, i: int) returns (yes: bool)
    requires 0 <= i <= |text|
    ensures yes <==> At(Atoms(re), text, i)
    decreases |re|, 0
  {
    if |re| == 0 {
      AtNothing(text, i);
      return true;
    }
    if |re| > 1 && re[1] == '*' {
      yes := MatchStar(re[0], re[2..], text, i);
      return;
    }
    if re[0] == '$' && |re| == 1 {
      AtNothing(text, |text|);
      AtCons(End, [], text, i);
      assert [End] + [] == [End] == Atoms(re);
      assert i == |text| ==> Stands(End, text, i, |text|);
      return i == |text|;
    }
    AtCons(One(re[0]), Atoms(re[1..]), text, i);
    if i < |text| && (re[0] == '.' || re[0] == text[i]) {
      yes := MatchHere(re[1..], text, i + 1);
      assert Stands(One(re[0]), text, i, i + 1);
      return;
    }
    return false;
  }

  /** matchstar: c* followed by re. */
  method MatchStar(c: char, re: string, text: string, start: int) returns (yes: bool)
    requires 0 <= start <= |text|
    ensures yes <==> At([Star(c)] + Atoms(re), text, start)
    decreases |re|, 1
  {
    var i := start;
    while true
      invariant start <= i <= |text|
      invariant At([Star(c)] + Atoms(re), text, start) <==> At([Star(c)] + Atoms(re), text, i)
      decreases |text| - i
    {
      StarStep(c, Atoms(re), text, i);
      var here := MatchHere(re, text, i);
      if here {
        return true;
      }
      if !(i < |text| && (text[i] == c || c == '.')) {
        return false;
      }
      i := i + 1;
    }
  }

  method Match(re: string, text: string) returns (yes: bool)
    ensures yes <==> Found(re, text)
  {
    if |re| > 0 && re[0] == '^' {
      yes := MatchHere(re[1..], text, 0);
      return;
    }
    var i := 0;
    while true
      invariant 0 <= i <= |text| && forall k :: 0 <= k < i ==> !At(Atoms(re), text, k)
      decreases |text| - i
    {
      var here := MatchHere(re, text, i);
      if here {
        return true;
      }
      if i == |text| {
        break;
      }
      i := i + 1;
    }
    forall k ensures !At(Atoms(re), text, k) {
      if k < 0 || k > |text| {
        AtOutside(Atoms(re), text, k);
      }
    }
    return false;
  }

  lemma AtOutside(atoms: seq<Atom>, text: string, k: int)
    requires k < 0 || k > |text|
    ensures !At(atoms, text, k)
  {
  }
}
