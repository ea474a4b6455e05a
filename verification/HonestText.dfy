/** The forbidden-word screen on notes, and how it distributes over the pieces of a text. */
module HonestText {
  /** `to_ascii_lowercase`. */
  function LowerChar(c: char): char {
    if 'A' <= c <= 'Z' then (c as int + 32) as char else c
  }

  function Lower(s: string): (t: string)
    ensures |t| == |s|
    ensures forall i :: 0 <= i < |s| ==> t[i] == LowerChar(s[i])
  {
    seq(|s|, i requires 0 <= i < |s| => LowerChar(s[i]))
  }

  predicate OccursAt(s: string, i: nat, w: string) {
    i + |w| <= |s| && s[i..i + |w|] == w
  }

  ghost predicate Contains(s: string, w: string) {
    exists i: nat :: OccursAt(s, i, w)
  }

  const QUANTUM_PROOF := "quantum-proof"
  const QUANTUM_SAFE := "quantum-safe"
  const UNBREAKABLE := "unbreakable"

  ghost predicate IsHonestNote(note: string) {
    && !Contains(Lower(note), QUANTUM_PROOF)
    && !Contains(Lower(note), QUANTUM_SAFE)
    && !Contains(Lower(note), UNBREAKABLE)
  }

  // -- splitting at separators -------------------------------------------------------------------

  /** Characters that end a word: no forbidden word contains one. */
  predicate IsSeparator(c: char) {
    c == ' ' || c == '(' || c == ')'
  }

  predicate WithoutSeparators(w: string) {
    forall i :: 0 <= i < |w| ==> !IsSeparator(w[i])
  }

  lemma ForbiddenWordsAreWords()
    ensures WithoutSeparators(QUANTUM_PROOF) && WithoutSeparators(QUANTUM_SAFE) && WithoutSeparators(UNBREAKABLE)
  {
  }

  /** A word without separators lies on one side of any separator. */
  lemma ContainsSplits(a: string, c: char, b: string, w: string)
    requires w != "" && IsSeparator(c) && WithoutSeparators(w)
    ensures Contains(a + [c] + b, w) <==> Contains(a, w) || Contains(b, w)
  {
    var s := a + [c] + b;
    if Contains(a, w) {
      var i: nat :| OccursAt(a, i, w);
      assert s[i..i + |w|] == a[i..i + |w|];
      assert OccursAt(s, i, w);
    }
    if Contains(b, w) {
      var i: nat :| OccursAt(b, i, w);
      var k := |a| + 1;
      assert s[k + i..k + i + |w|] == b[i..i + |w|];
      assert OccursAt(s, k + i, w);
    }
    if Contains(s, w) {
      var i: nat :| OccursAt(s, i, w);
      OccurrenceSide(a, c, b, w, i);
    }
  }

  lemma LetterOf(s: string, i: nat, w: string, k: nat)
    requires OccursAt(s, i, w) && k < |w|
    ensures i + k < |s| && s[i + k] == w[k]
  {
    assert s[i..i + |w|][k] == s[i + k];
  }

  lemma OccurrenceSide(a: string, c: char, b: string, w: string, i: nat)
    requires w != "" && IsSeparator(c) && WithoutSeparators(w) && OccursAt(a + [c] + b, i, w)
    ensures Contains(a, w) || Contains(b, w)
  {
    var s := a + [c] + b;
    var k := |a|;
    assert s[k] == c;
    if i <= k < i + |w| {
      LetterOf(s, i, w, k - i);
      assert false;
    } else if i + |w| <= k {
      assert a[i..i + |w|] == s[i..i + |w|];
      assert OccursAt(a, i, w);
    } else {
      assert b[i - k - 1..i - k - 1 + |w|] == s[i..i + |w|];
      assert OccursAt(b, i - k - 1, w);
    }
  }

  /** The screen passes a text exactly when it passes both sides of a separator. */
  lemma HonestSplits(a: string, c: char, b: string)
    requires IsSeparator(c)
    ensures IsHonestNote(a + [c] + b) <==> IsHonestNote(a) && IsHonestNote(b)
  {
    hide Contains;
    ForbiddenWordsAreWords();
    assert Lower(a + [c] + b) == Lower(a) + [c] + Lower(b);
    ContainsSplits(Lower(a), c, Lower(b), QUANTUM_PROOF);
    ContainsSplits(Lower(a), c, Lower(b), QUANTUM_SAFE);
    ContainsSplits(Lower(a), c, Lower(b), UNBREAKABLE);
  }

  // -- texts that are honest on sight --------------------------------------------------------------

  /** Neither case of the letter `l` occurs. */
  predicate Lacks(s: string, l: char) {
    forall i :: 0 <= i < |s| ==> LowerChar(s[i]) != l
  }

  lemma LackingLetter(s: string, w: string, k: nat)
    requires k < |w| && Lacks(s, w[k])
    ensures !Contains(Lower(s), w)
  {
    if Contains(Lower(s), w) {
      var i: nat :| OccursAt(Lower(s), i, w);
      LetterOf(Lower(s), i, w, k);
      assert false;
    }
  }

  /** Every forbidden word has a `u`. */
  lemma HonestWithoutU(s: string)
    requires Lacks(s, 'u')
    ensures IsHonestNote(s)
  {
    hide Contains, Lacks;
    assert QUANTUM_PROOF[1] == 'u' && QUANTUM_SAFE[1] == 'u' && UNBREAKABLE[0] == 'u';
    LackingLetter(s, QUANTUM_PROOF, 1);
    LackingLetter(s, QUANTUM_SAFE, 1);
    LackingLetter(s, UNBREAKABLE, 0);
  }

  /** Every forbidden word has an `f` or a `b`. */
  lemma HonestWithoutFB(s: string)
    requires Lacks(s, 'f') && Lacks(s, 'b')
    ensures IsHonestNote(s)
  {
    hide Contains, Lacks;
    assert QUANTUM_PROOF[12] == 'f' && QUANTUM_SAFE[10] == 'f' && UNBREAKABLE[2] == 'b';
    LackingLetter(s, QUANTUM_PROOF, 12);
    LackingLetter(s, QUANTUM_SAFE, 10);
    LackingLetter(s, UNBREAKABLE, 2);
  }

  /** No forbidden word is shorter than eleven characters. */
  lemma HonestShort(s: string)
    requires |s| < 11
    ensures IsHonestNote(s)
  {
  }

  // -- texts in pieces -------------------------------------------------------------------------------

  /** Pieces set next to each other with single spaces. */
  function Spaced(pieces: seq<string>): string {
    if pieces == [] then ""
    else if |pieces| == 1 then pieces[0]
    else pieces[0] + " " + Spaced(pieces[1..])
  }

  ghost predicate AllHonest(pieces: seq<string>) {
    forall i :: 0 <= i < |pieces| ==> IsHonestNote(pieces[i])
  }

  lemma {:induction false} SpacedHonest(pieces: seq<string>)
    ensures IsHonestNote(Spaced(pieces)) <==> AllHonest(pieces)
  {
    hide IsHonestNote;
    if pieces == [] {
      HonestShort("");
    } else if |pieces| > 1 {
      SpacedHonest(pieces[1..]);
      HonestSplits(pieces[0], ' ', Spaced(pieces[1..]));
      assert AllHonest(pieces) <==> IsHonestNote(pieces[0]) && AllHonest(pieces[1..]) by {
        assert forall i :: 1 <= i < |pieces| ==> pieces[i] == pieces[1..][i - 1];
      }
    }
  }

  // -- pieces that are honest on sight ---------------------------------------------------------------

  /** Too short for a forbidden word, or without a letter that each of them has. */
  predicate OnSight(s: string) {
    || |s| < 11
    || ('u' !in s && 'U' !in s)
    || ('f' !in s && 'F' !in s && 'b' !in s && 'B' !in s)
  }

  lemma OnSightIsHonest(s: string)
    requires OnSight(s)
    ensures IsHonestNote(s)
  {
    if |s| < 11 {
      HonestShort(s);
    } else if 'u' !in s && 'U' !in s {
      HonestWithoutU(s);
    } else {
      HonestWithoutFB(s);
    }
  }

  // -- the screen, character by character ------------------------------------------------------------

  /** `c` is the lower-case character `w` in either case. */
  predicate EitherCase(c: char, w: char) {
    c == w || ('a' <= w <= 'z' && c as int == w as int - 32)
  }

  predicate SpelledAt(note: string, i: nat, w: string) {
    i + |w| <= |note| && forall k :: 0 <= k < |w| ==> EitherCase(note[i + k], w[k])
  }

  /** A note fails exactly when one of the three words stands in it somewhere, in any mix of cases. */
  lemma ScreenedWords(note: string)
    ensures IsHonestNote(note) <==>
      forall i: nat ::
        && !SpelledAt(note, i, "quantum-proof") && !SpelledAt(note, i, "quantum-safe")
        && !SpelledAt(note, i, "unbreakable")
  {
    hide Lower, SpelledAt, OccursAt;
    assert QUANTUM_PROOF == "quantum-proof" && QUANTUM_SAFE == "quantum-safe" && UNBREAKABLE == "unbreakable";
    forall i: nat
      ensures OccursAt(Lower(note), i, QUANTUM_PROOF) <==> SpelledAt(note, i, QUANTUM_PROOF)
      ensures OccursAt(Lower(note), i, QUANTUM_SAFE) <==> SpelledAt(note, i, QUANTUM_SAFE)
      ensures OccursAt(Lower(note), i, UNBREAKABLE) <==> SpelledAt(note, i, UNBREAKABLE)
    {
      WordAt(note, i, QUANTUM_PROOF);
      WordAt(note, i, QUANTUM_SAFE);
      WordAt(note, i, UNBREAKABLE);
    }
  }

  lemma WordAt(note: string, i: nat, w: string)
    requires forall k :: 0 <= k < |w| ==> !('A' <= w[k] <= 'Z')
    ensures OccursAt(Lower(note), i, w) <==> SpelledAt(note, i, w)
  {
    var t := Lower(note);
    if i + |w| <= |note| {
      var part := t[i..i + |w|];
      assert forall k :: 0 <= k < |w| ==> part[k] == LowerChar(note[i + k]);
      assert forall k :: 0 <= k < |w| ==> (LowerChar(note[i + k]) == w[k] <==> EitherCase(note[i + k], w[k]));
      if SpelledAt(note, i, w) {
        assert t[i..i + |w|] == w;
      }
    }
  }
}
