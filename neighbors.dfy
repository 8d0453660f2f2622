/** Edit-distance-1 neighbours of a phrase: every single-character deletion, substitution
    by a lower-case letter and insertion of a lower-case letter, applied to the lower-cased
    phrase, kept when dictionary-valid, in normalised form, without the phrase itself. */
module Neighbors {
  import opened Phrase

  /** string.ascii_lowercase */
  const Alphabet: string := "abcdefghijklmnopqrstuvwxyz"

  /** lower_phrase[:i] + lower_phrase[i+1:]: the character at i is removed and the others
      keep their order. */
  function Deletion(s: string, i: nat): (r: string)
    requires i < |s|
    ensures |r| == |s| - 1
    ensures forall j :: 0 <= j < |r| ==> r[j] == if j < i then s[j] else s[j + 1]
  {
    s[..i] + s[i + 1..]
  }

  /** lower_phrase[:i] + char + lower_phrase[i+1:]: the character at i is replaced by ch and
      nothing else changes. */
  function Substitution(s: string, i: nat, ch: char): (r: string)
    requires i < |s|
    ensures |r| == |s| && r[i] == ch
    ensures forall j :: 0 <= j < |s| && j != i ==> r[j] == s[j]
  {
    s[..i] + [ch] + s[i + 1..]
  }

  /** lower_phrase[:i] + char + lower_phrase[i:]: ch is placed at i and the characters from i
      on move one place to the right. */
  function Insertion(s: string, i: nat, ch: char): (r: string)
    requires i <= |s|
    ensures |r| == |s| + 1 && r[i] == ch
    ensures forall j :: 0 <= j < i ==> r[j] == s[j]
    ensures forall j :: i < j < |r| ==> r[j] == s[j - 1]
  {
    s[..i] + [ch] + s[i..]
  }

  // ---------------------------------------------------------------------------
  // The candidate sets. The "Below" sets collect the candidates of the positions
  // before n; the "At" sets those of one position and the first k letters.

  ghost function DeletionsBelow(s: string, n: nat): set<string>
    requires n <= |s|
  {
    set i | 0 <= i < n :: Deletion(s, i)
  }

  /** Substitution skips a space and the letter already at the position. */
  ghost function SubstitutionsAt(s: string, i: nat, k: nat): set<string>
    requires i < |s| && k <= |Alphabet|
  {
    set ch | ch in Alphabet[..k] && s[i] != ' ' && ch != s[i] :: Substitution(s, i, ch)
  }

  ghost function SubstitutionsBelow(s: string, n: nat): set<string>
    requires n <= |s|
  {
    set i, ch | 0 <= i < n && ch in Alphabet && s[i] != ' ' && ch != s[i] :: Substitution(s, i, ch)
  }

  ghost function InsertionsAt(s: string, i: nat, k: nat): set<string>
    requires i <= |s| && k <= |Alphabet|
  {
    set ch | ch in Alphabet[..k] :: Insertion(s, i, ch)
  }

  ghost function InsertionsBelow(s: string, n: nat): set<string>
    requires n <= |s| + 1
  {
    set i, ch | 0 <= i < n && ch in Alphabet :: Insertion(s, i, ch)
  }

  /** Every raw candidate generated from s. */
  ghost function Candidates(s: string): set<string> {
    DeletionsBelow(s, |s|) + SubstitutionsBelow(s, |s|) + InsertionsBelow(s, |s| + 1)
  }

  /** The normalised forms of the valid candidates. */
  ghost function Accepted(cands: set<string>, words: set<string>): set<string> {
    set c | c in cands && IsValidPhrase(c, words) :: NormalizePhrase(c)
  }

  /** Every accepted form is a valid phrase in normal form. */
  lemma AcceptedCanonical(cands: set<string>, words: set<string>)
    ensures forall v :: v in Accepted(cands, words) ==> IsValidPhrase(v, words) && NormalizePhrase(v) == v
  {
    forall v | v in Accepted(cands, words) ensures IsValidPhrase(v, words) && NormalizePhrase(v) == v {
      var c :| c in cands && IsValidPhrase(c, words) && v == NormalizePhrase(c);
      NormalizePreservesValidity(c, words);
      NormalizeIdempotent(c);
    }
  }

  /** What get_neighbors returns: the accepted forms of the candidates, without the phrase's
      own normal form. Each is a valid phrase in normal form. */
  ghost function NeighborSet(phrase: string, words: set<string>): (r: set<string>)
    ensures NormalizePhrase(phrase) !in r
    ensures forall v :: v in r ==> IsValidPhrase(v, words) && NormalizePhrase(v) == v
  {
    AcceptedCanonical(Candidates(LowerStr(phrase)), words);
    Accepted(Candidates(LowerStr(phrase)), words) - {NormalizePhrase(phrase)}
  }

  // ---------------------------------------------------------------------------
  // One more position or one more letter

  lemma DeletionsStep(s: string, i: nat)
    requires i < |s|
    ensures DeletionsBelow(s, i + 1) == DeletionsBelow(s, i) + {Deletion(s, i)}
  {
    assert Deletion(s, i) in DeletionsBelow(s, i + 1);
  }

  lemma SubstitutionsAtStep(s: string, i: nat, k: nat)
    requires i < |s| && k < |Alphabet|
    ensures s[i] == ' ' || Alphabet[k] == s[i] ==> SubstitutionsAt(s, i, k + 1) == SubstitutionsAt(s, i, k)
    ensures s[i] != ' ' && Alphabet[k] != s[i] ==>
              SubstitutionsAt(s, i, k + 1) == SubstitutionsAt(s, i, k) + {Substitution(s, i, Alphabet[k])}
  {
    assert Alphabet[..k + 1] == Alphabet[..k] + [Alphabet[k]];
  }

  /** A space is never substituted. */
  lemma SubstitutionsAtSpace(s: string, i: nat)
    requires i < |s| && s[i] == ' '
    ensures SubstitutionsAt(s, i, |Alphabet|) == {}
  {
  }

  lemma SubstitutionsStep(s: string, i: nat)
    requires i < |s|
    ensures SubstitutionsBelow(s, i + 1) == SubstitutionsBelow(s, i) + SubstitutionsAt(s, i, |Alphabet|)
  {
    assert Alphabet[..|Alphabet|] == Alphabet;
    forall c | c in SubstitutionsBelow(s, i + 1)
      ensures c in SubstitutionsBelow(s, i) + SubstitutionsAt(s, i, |Alphabet|)
    {
      var j, ch :| 0 <= j < i + 1 && ch in Alphabet && s[j] != ' ' && ch != s[j] && c == Substitution(s, j, ch);
      if j < i { assert c in SubstitutionsBelow(s, i); }
    }
    forall c | c in SubstitutionsAt(s, i, |Alphabet|) ensures c in SubstitutionsBelow(s, i + 1) {
      var ch :| ch in Alphabet && s[i] != ' ' && ch != s[i] && c == Substitution(s, i, ch);
    }
  }

  lemma InsertionsAtStep(s: string, i: nat, k: nat)
    requires i <= |s| && k < |Alphabet|
    ensures InsertionsAt(s, i, k + 1) == InsertionsAt(s, i, k) + {Insertion(s, i, Alphabet[k])}
  {
    assert Alphabet[..k + 1] == Alphabet[..k] + [Alphabet[k]];
  }

  lemma InsertionsStep(s: string, i: nat)
    requires i <= |s|
    ensures InsertionsBelow(s, i + 1) == InsertionsBelow(s, i) + InsertionsAt(s, i, |Alphabet|)
  {
    assert Alphabet[..|Alphabet|] == Alphabet;
    forall c | c in InsertionsBelow(s, i + 1)
      ensures c in InsertionsBelow(s, i) + InsertionsAt(s, i, |Alphabet|)
    {
      var j, ch :| 0 <= j < i + 1 && ch in Alphabet && c == Insertion(s, j, ch);
      if j < i { assert c in InsertionsBelow(s, i); }
    }
    forall c | c in InsertionsAt(s, i, |Alphabet|) ensures c in InsertionsBelow(s, i + 1) {
      var ch :| ch in Alphabet && c == Insertion(s, i, ch);
    }
  }

  lemma AcceptedAddOne(cands: set<string>, c: string, words: set<string>)
    ensures Accepted(cands + {c}, words) ==
            Accepted(cands, words) + (if IsValidPhrase(c, words) then {NormalizePhrase(c)} else {})
  {
  }

  // ---------------------------------------------------------------------------
  // get_neighbors

  lemma AcceptedUnion(a: set<string>, b: set<string>, words: set<string>)
    ensures Accepted(a + b, words) == Accepted(a, words) + Accepted(b, words)
  {
  }

  /** One candidate of get_neighbors: its normal form is added when it is a valid phrase,
      so what has been found stays the accepted forms of the candidates tried. */
  method AddIfValid(candidate: string, words: set<string>, found: set<string>, ghost tried: set<string>,
                    neighbors: set<string>) returns (r: set<string>)
    requires neighbors == found + Accepted(tried, words)
    ensures r == found + Accepted(tried + {candidate}, words)
  {
    r := neighbors;
    if IsValidPhrase(candidate, words) {
      r := r + {NormalizePhrase(candidate)};
    }
    AcceptedAddOne(tried, candidate, words);
  }

  /** Step 1 of get_neighbors: every single-character deletion. */
  method AddDeletions(lower: string, words: set<string>, found: set<string>) returns (neighbors: set<string>)
    ensures neighbors == found + Accepted(DeletionsBelow(lower, |lower|), words)
  {
    neighbors := found;
    ghost var tried: set<string> := {};
    for i := 0 to |lower|
      invariant tried == DeletionsBelow(lower, i)
      invariant neighbors == found + Accepted(tried, words)
    {
      var candidate := Deletion(lower, i);
      neighbors := AddIfValid(candidate, words, found, tried, neighbors);
      DeletionsStep(lower, i);
      tried := tried + {candidate};
    }
  }

  /** The inner loop of step 2: every other letter substituted at position i, which is
      skipped altogether when it holds a space. */
  method AddSubstitutionsAt(lower: string, i: nat, words: set<string>, found: set<string>)
    returns (neighbors: set<string>)
    requires i < |lower|
    ensures neighbors == found + Accepted(SubstitutionsAt(lower, i, |Alphabet|), words)
  {
    neighbors := found;
    if lower[i] == ' ' {
      SubstitutionsAtSpace(lower, i);
      return;
    }
    var original := lower[i];
    ghost var tried: set<string> := {};
    for k := 0 to |Alphabet|
      invariant tried == SubstitutionsAt(lower, i, k)
      invariant neighbors == found + Accepted(tried, words)
    {
      var ch := Alphabet[k];
      SubstitutionsAtStep(lower, i, k);
      if ch != original {
        var candidate := Substitution(lower, i, ch);
        neighbors := AddIfValid(candidate, words, found, tried, neighbors);
        tried := tried + {candidate};
      }
    }
  }

  /** Step 2 of get_neighbors: every substitution of a non-space character by another letter. */
  method AddSubstitutions(lower: string, words: set<string>, found: set<string>) returns (neighbors: set<string>)
    ensures neighbors == found + Accepted(SubstitutionsBelow(lower, |lower|), words)
  {
    neighbors := found;
    ghost var tried: set<string> := {};
    for i := 0 to |lower|
      invariant tried == SubstitutionsBelow(lower, i)
      invariant neighbors == found + Accepted(tried, words)
    {
      SubstitutionsStep(lower, i);
      neighbors := AddSubstitutionsAt(lower, i, words, neighbors);
      AcceptedUnion(tried, SubstitutionsAt(lower, i, |Alphabet|), words);
      tried := tried + SubstitutionsAt(lower, i, |Alphabet|);
    }
  }

  /** The inner loop of step 3: every letter inserted at position i. */
  method AddInsertionsAt(lower: string, i: nat, words: set<string>, found: set<string>)
    returns (neighbors: set<string>)
    requires i <= |lower|
    ensures neighbors == found + Accepted(InsertionsAt(lower, i, |Alphabet|), words)
  {
    neighbors := found;
    ghost var tried: set<string> := {};
    for k := 0 to |Alphabet|
      invariant tried == InsertionsAt(lower, i, k)
      invariant neighbors == found + Accepted(tried, words)
    {
      var candidate := Insertion(lower, i, Alphabet[k]);
      neighbors := AddIfValid(candidate, words, found, tried, neighbors);
      InsertionsAtStep(lower, i, k);
      tried := tried + {candidate};
    }
  }

  /** Step 3 of get_neighbors: every insertion of a letter at positions 0 to |lower|. */
  method AddInsertions(lower: string, words: set<string>, found: set<string>) returns (neighbors: set<string>)
    ensures neighbors == found + Accepted(InsertionsBelow(lower, |lower| + 1), words)
  {
    neighbors := found;
    ghost var tried: set<string> := {};
    for i := 0 to |lower| + 1
      invariant tried == InsertionsBelow(lower, i)
      invariant neighbors == found + Accepted(tried, words)
    {
      InsertionsStep(lower, i);
      neighbors := AddInsertionsAt(lower, i, words, neighbors);
      AcceptedUnion(tried, InsertionsAt(lower, i, |Alphabet|), words);
      tried := tried + InsertionsAt(lower, i, |Alphabet|);
    }
  }

  /** get_neighbors */
  method GetNeighbors(phrase: string, words: set<string>) returns (neighbors: set<string>)
    ensures neighbors == NeighborSet(phrase, words)
    ensures forall v {:trigger IsValidPhrase(v, words)} :: v in neighbors ==> IsValidPhrase(v, words) && NormalizePhrase(v) == v
    ensures NormalizePhrase(phrase) !in neighbors
  {
    var lower := LowerStr(phrase);
    neighbors := AddDeletions(lower, words, {});
    neighbors := AddSubstitutions(lower, words, neighbors);
    neighbors := AddInsertions(lower, words, neighbors);
    AcceptedUnion(DeletionsBelow(lower, |lower|), SubstitutionsBelow(lower, |lower|), words);
    AcceptedUnion(DeletionsBelow(lower, |lower|) + SubstitutionsBelow(lower, |lower|),
                  InsertionsBelow(lower, |lower| + 1), words);
    assert neighbors == Accepted(Candidates(lower), words);

    // Remove self-loops
    var normalizedStart := NormalizePhrase(phrase);
    ghost var accepted := neighbors;
    if normalizedStart in neighbors {
      neighbors := neighbors - {normalizedStart};
    }
    assert neighbors == accepted - {normalizedStart};
  }

  // ---------------------------------------------------------------------------
  // Properties of the neighbour set

  /** Every neighbour is a dictionary-valid phrase in normal form, other than the phrase
      itself, and the normal form of some valid candidate. */
  lemma NeighborIsCanonical(phrase: string, words: set<string>, v: string)
    requires v in NeighborSet(phrase, words)
    ensures IsValidPhrase(v, words)
    ensures NormalizePhrase(v) == v
    ensures v != NormalizePhrase(phrase)
    ensures exists c :: c in Candidates(LowerStr(phrase)) && IsValidPhrase(c, words) && v == NormalizePhrase(c)
  {
    var c :| c in Candidates(LowerStr(phrase)) && IsValidPhrase(c, words) && v == NormalizePhrase(c);
    NormalizePreservesValidity(c, words);
    NormalizeIdempotent(c);
  }

  /** A valid candidate whose normal form differs from the phrase's is a neighbour. */
  lemma ValidCandidateIsNeighbor(phrase: string, words: set<string>, c: string)
    requires c in Candidates(LowerStr(phrase)) && IsValidPhrase(c, words)
    requires NormalizePhrase(c) != NormalizePhrase(phrase)
    ensures NormalizePhrase(c) in NeighborSet(phrase, words)
  {
  }

  /** s and c agree everywhere except at position i. */
  ghost predicate DiffersOnlyAt(s: string, c: string, i: nat) {
    |c| == |s| && i < |s| && c[i] != s[i] &&
    forall j :: 0 <= j < |s| && j != i ==> c[j] == s[j]
  }

  /** A deletion is one character shorter than s, and re-inserting the removed character
      restores s. */
  lemma DeletionIsOneEdit(s: string, c: string)
    requires c in DeletionsBelow(s, |s|)
    ensures |c| == |s| - 1
    ensures exists i :: 0 <= i < |s| && Insertion(c, i, s[i]) == s
  {
    var i :| 0 <= i < |s| && c == Deletion(s, i);
    assert c[..i] == s[..i] && c[i..] == s[i + 1..];
    assert Insertion(c, i, s[i]) == s;
  }

  /** A substitution has the length of s and differs from it at exactly one position, which
      holds a non-space character in s and a lower-case letter in the candidate. */
  lemma SubstitutionIsOneEdit(s: string, c: string)
    requires c in SubstitutionsBelow(s, |s|)
    ensures exists i: nat :: DiffersOnlyAt(s, c, i) && s[i] != ' ' && IsAsciiLower(c[i])
  {
    var i, ch :| 0 <= i < |s| && ch in Alphabet && s[i] != ' ' && ch != s[i] && c == Substitution(s, i, ch);
    assert c[i] == ch;
    assert DiffersOnlyAt(s, c, i);
  }

  /** The alphabet holds the lower-case letters. */
  lemma AlphabetLower(ch: char)
    requires ch in Alphabet
    ensures IsAsciiLower(ch)
  {
  }

  /** Deleting a character just inserted restores the string. */
  lemma InsertThenDelete(s: string, i: nat, ch: char)
    requires i <= |s|
    ensures Deletion(Insertion(s, i, ch), i) == s
  {
    var d := Deletion(Insertion(s, i, ch), i);
    assert forall j :: 0 <= j < |s| ==> d[j] == s[j];
  }

  /** An insertion is one character longer than s, holds a lower-case letter at some position,
      and deleting that letter restores s. */
  lemma InsertionIsOneEdit(s: string, c: string)
    requires c in InsertionsBelow(s, |s| + 1)
    ensures |c| == |s| + 1
    ensures exists i :: 0 <= i < |c| && IsAsciiLower(c[i]) && Deletion(c, i) == s
  {
    var i, ch :| 0 <= i <= |s| && ch in Alphabet && c == Insertion(s, i, ch);
    InsertThenDelete(s, i, ch);
    AlphabetLower(ch);
    assert 0 <= i < |c| && IsAsciiLower(c[i]) && Deletion(c, i) == s;
  }

  /** No candidate is the lower-cased phrase itself: the lengths keep deletions and insertions
      away from it, and a substitution changes one character. */
  lemma NotOwnCandidate(s: string)
    ensures s !in Candidates(s)
  {
    if s in DeletionsBelow(s, |s|) {
      DeletionIsOneEdit(s, s);
    }
    if s in SubstitutionsBelow(s, |s|) {
      SubstitutionIsOneEdit(s, s);
    }
    if s in InsertionsBelow(s, |s| + 1) {
      InsertionIsOneEdit(s, s);
    }
  }

  /** With an empty dictionary no candidate is valid, so a phrase has no neighbours. */
  lemma NoWordsNoNeighbors(phrase: string)
    ensures NeighborSet(phrase, {}) == {}
  {
    forall c | c in Candidates(LowerStr(phrase)) ensures !IsValidPhrase(c, {}) {
      if Split(c) != [] {
        assert LowerStr(Split(c)[0]) !in {};
      }
    }
  }

  /** Completeness for deletions: a valid deletion from the lower-cased phrase whose normal
      form differs from the phrase's is a neighbour. */
  lemma DeletionNeighbor(phrase: string, words: set<string>, i: nat)
    requires i < |phrase|
    requires IsValidPhrase(Deletion(LowerStr(phrase), i), words)
    requires NormalizePhrase(Deletion(LowerStr(phrase), i)) != NormalizePhrase(phrase)
    ensures NormalizePhrase(Deletion(LowerStr(phrase), i)) in NeighborSet(phrase, words)
  {
    var s := LowerStr(phrase);
    assert Deletion(s, i) in DeletionsBelow(s, |s|);
    ValidCandidateIsNeighbor(phrase, words, Deletion(s, i));
  }

  /** Completeness for substitutions of a non-space character by another letter. */
  lemma SubstitutionNeighbor(phrase: string, words: set<string>, i: nat, ch: char)
    requires i < |phrase| && ch in Alphabet
    requires LowerStr(phrase)[i] != ' ' && ch != LowerStr(phrase)[i]
    requires IsValidPhrase(Substitution(LowerStr(phrase), i, ch), words)
    requires NormalizePhrase(Substitution(LowerStr(phrase), i, ch)) != NormalizePhrase(phrase)
    ensures NormalizePhrase(Substitution(LowerStr(phrase), i, ch)) in NeighborSet(phrase, words)
  {
    var s := LowerStr(phrase);
    assert Substitution(s, i, ch) in SubstitutionsBelow(s, |s|);
    ValidCandidateIsNeighbor(phrase, words, Substitution(s, i, ch));
  }

  /** Completeness for insertions of a letter at positions 0 to the phrase's length. */
  lemma InsertionNeighbor(phrase: string, words: set<string>, i: nat, ch: char)
    requires i <= |phrase| && ch in Alphabet
    requires IsValidPhrase(Insertion(LowerStr(phrase), i, ch), words)
    requires NormalizePhrase(Insertion(LowerStr(phrase), i, ch)) != NormalizePhrase(phrase)
    ensures NormalizePhrase(Insertion(LowerStr(phrase), i, ch)) in NeighborSet(phrase, words)
  {
    var s := LowerStr(phrase);
    assert Insertion(s, i, ch) in InsertionsBelow(s, |s| + 1);
    ValidCandidateIsNeighbor(phrase, words, Insertion(s, i, ch));
  }

  /** The candidates of a word of lower-case letters are made of lower-case letters too. */
  lemma CandidateLetters(s: string, c: string)
    requires forall k :: 0 <= k < |s| ==> IsAsciiLower(s[k])
    requires c in Candidates(s)
    ensures forall k :: 0 <= k < |c| ==> IsAsciiLower(c[k])
  {
    if c in DeletionsBelow(s, |s|) {
      var i :| 0 <= i < |s| && c == Deletion(s, i);
    } else if c in SubstitutionsBelow(s, |s|) {
      var i, ch :| 0 <= i < |s| && ch in Alphabet && s[i] != ' ' && ch != s[i] && c == Substitution(s, i, ch);
      AlphabetLower(ch);
    } else {
      var i, ch :| 0 <= i <= |s| && ch in Alphabet && c == Insertion(s, i, ch);
      AlphabetLower(ch);
    }
  }

  /** A candidate made of lower-case letters is valid exactly when it is a dictionary word. */
  lemma LetterCandidateValid(c: string, words: set<string>)
    requires forall k :: 0 <= k < |c| ==> IsAsciiLower(c[k])
    ensures IsValidPhrase(c, words) <==> c != [] && c in words
  {
    if c == [] {
      assert Split(c) == [];
    } else {
      assert LowerStr(c) == c;
      SingleToken(c, words);
    }
  }
}
