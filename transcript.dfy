/**
 * Clean-up of a finished transcription before it is pasted (windows.py,
 * `MainWindow.remove_duplicates`): the text is cut at every '.', each piece is
 * stripped, and a stripped piece survives only if it is non-empty and does not
 * occur inside any other non-blank piece. Survivors are joined with ". ".
 */
module Transcript {
  import opened Strings

  /** A piece that `strip()` turns into the empty string. */
  predicate Blank(piece: string) {
    Strip(piece) == ""
  }

  /** Piece `i` occurs, once stripped, inside the other, non-blank piece `j` (which is left unstripped). */
  predicate SwallowedBy(pieces: seq<string>, i: int, j: int) {
    0 <= i < |pieces| && 0 <= j < |pieces| && j != i && !Blank(pieces[j]) && Contains(pieces[j], Strip(pieces[i]))
  }

  /** Piece `i` occurs, once stripped, inside some other non-blank piece. */
  predicate Swallowed(pieces: seq<string>, i: int) {
    0 <= i < |pieces| && exists j | 0 <= j < |pieces| :: SwallowedBy(pieces, i, j)
  }

  /** Piece `i` survives the clean-up. */
  predicate Keeps(pieces: seq<string>, i: int) {
    0 <= i < |pieces| && !Blank(pieces[i]) && !Swallowed(pieces, i)
  }

  /** The stripped survivors among the first `n` pieces, in input order. */
  function KeptUpTo(pieces: seq<string>, n: nat): (kept: seq<string>)
    requires n <= |pieces|
    ensures |kept| <= n
  {
    if n == 0 then []
    else KeptUpTo(pieces, n - 1) + (if Keeps(pieces, n - 1) then [Strip(pieces[n - 1])] else [])
  }

  /** The sentences the clean-up keeps, in input order. */
  function KeptSentences(text: string): (kept: seq<string>)
    ensures |kept| <= |Split(text, '.')|
  {
    KeptUpTo(Split(text, '.'), |Split(text, '.')|)
  }

  /** What `remove_duplicates` returns for `text`. */
  function Cleaned(text: string): (r: string)
    ensures r == "" <==> KeptSentences(text) == []
    ensures r != "" ==> r[|r| - 1] != '.'
  {
    var kept := KeptSentences(text);
    if kept != [] then
      var last := kept[|kept| - 1];
      KeptSentenceShape(text, last);
      JoinLastChar(". ", kept);
      assert last[|last| - 1] in last;
      Join(". ", kept)
    else Join(". ", kept)
  }

  /** `remove_duplicates`: the nested scan of windows.py, returning the cleaned text. */
  method RemoveDuplicates(text: string) returns (cleanedText: string)
    ensures cleanedText == Cleaned(text)
  {
    var sentences := Split(text, '.');
    var cleaned: seq<string> := [];
    var i := 0;
    while i < |sentences|
      invariant 0 <= i <= |sentences|
      invariant cleaned == KeptUpTo(sentences, i)
    {
      var sentence := Strip(sentences[i]);
      if sentence != "" {
        var isDuplicate := false;
        var j := 0;
        while j < |sentences|
          invariant 0 <= j <= |sentences|
          invariant isDuplicate ==> Swallowed(sentences, i)
          invariant !isDuplicate ==> forall k :: 0 <= k < j ==> !SwallowedBy(sentences, i, k)
        {
          if i != j && sentence != "" && Strip(sentences[j]) != "" {
            if Contains(sentences[j], sentence) {
              assert SwallowedBy(sentences, i, j);
              isDuplicate := true;
              break;
            }
          }
          j := j + 1;
        }
        if !isDuplicate {
          cleaned := cleaned + [sentence];
        }
      }
      i := i + 1;
    }
    cleanedText := Join(". ", cleaned);
  }

  /** A string occurs inside itself. */
  lemma ContainsSelf(s: string)
    ensures Contains(s, s)
  {
    assert OccursAt(s, s, 0);
  }

  /** A stripped piece occurs inside the unstripped piece. */
  lemma ContainsStripped(s: string)
    ensures Contains(s, Strip(s))
  {
    StripIsPiece(s);
    var i :| OccursAt(Strip(s), s, i);
    assert 0 <= i <= |s| - |Strip(s)|;
  }

  /** Membership in the kept list: exactly the stripped pieces that survive. */
  lemma {:induction false} KeptUpToMembers(pieces: seq<string>, n: nat, x: string)
    requires n <= |pieces|
    ensures x in KeptUpTo(pieces, n) <==> exists k | 0 <= k < n :: Keeps(pieces, k) && Strip(pieces[k]) == x
  {
    if n > 0 {
      KeptUpToMembers(pieces, n - 1, x);
    }
  }

  /** The kept sentences are exactly the stripped pieces that survive. */
  lemma KeptSentencesExactly(text: string, x: string)
    ensures x in KeptSentences(text) <==>
      exists k | 0 <= k < |Split(text, '.')| :: Keeps(Split(text, '.'), k) && Strip(Split(text, '.')[k]) == x
  {
    assert KeptSentences(text) == KeptUpTo(Split(text, '.'), |Split(text, '.')|);
    KeptUpToMembers(Split(text, '.'), |Split(text, '.')|, x);
  }

  /** Every kept sentence is non-empty and free of '.'. */
  lemma KeptSentenceShape(text: string, x: string)
    requires x in KeptSentences(text)
    ensures x != "" && '.' !in x
  {
    var pieces := Split(text, '.');
    KeptUpToMembers(pieces, |pieces|, x);
    var k :| 0 <= k < |pieces| && Keeps(pieces, k) && Strip(pieces[k]) == x;
    StripIsPiece(pieces[k]);
    var i :| OccursAt(x, pieces[k], i);
    assert '.' !in pieces[k];
    forall m | 0 <= m < |x| ensures x[m] != '.' {
      assert x[m] == pieces[k][i + m];
    }
  }

  /** A sentence that appears (after stripping) in two different places is dropped
      entirely: each copy occurs inside the other. */
  lemma RepeatedSentenceDropped(text: string, i: nat, j: nat)
    requires i < j < |Split(text, '.')|
    requires Strip(Split(text, '.')[i]) == Strip(Split(text, '.')[j]) != ""
    ensures Strip(Split(text, '.')[i]) !in KeptSentences(text)
  {
    var pieces := Split(text, '.');
    var s := Strip(pieces[i]);
    KeptUpToMembers(pieces, |pieces|, s);
    forall k | 0 <= k < |pieces| && Strip(pieces[k]) == s
      ensures !Keeps(pieces, k)
    {
      var other := if k == i then j else i;
      ContainsStripped(pieces[other]);
      assert SwallowedBy(pieces, k, other);
    }
  }

  /** The pieces of "Hello. Hello". */
  lemma HelloPieces()
    ensures Split("Hello. Hello", '.') == ["Hello", " Hello"]
  {
    var pieces := ["Hello", " Hello"];
    assert Join(".", pieces) == "Hello. Hello";
    SplitJoin(pieces, '.');
  }

  /** Both pieces of "Hello. Hello" strip to "Hello". */
  lemma HelloStripped()
    ensures Strip(" Hello") == "Hello" && Strip("Hello") == "Hello"
  {
    assert DropLeading(" Hello", IsPySpace) == DropLeading("Hello", IsPySpace) == "Hello";
    assert DropTrailing("Hello", IsPySpace) == "Hello";
  }

  /** The smallest concrete case: "Hello. Hello" loses both copies. */
  lemma ExactDuplicateExample()
    ensures Cleaned("Hello. Hello") == ""
  {
    HelloPieces();
    HelloStripped();
    var pieces := Split("Hello. Hello", '.');
    ContainsStripped(" Hello");
    ContainsSelf("Hello");
    assert SwallowedBy(pieces, 0, 1) && SwallowedBy(pieces, 1, 0);
    assert !Keeps(pieces, 0) && !Keeps(pieces, 1);
    assert KeptUpTo(pieces, 1) == [];
    assert KeptSentences("Hello. Hello") == KeptUpTo(pieces, 2) == [];
  }
}
