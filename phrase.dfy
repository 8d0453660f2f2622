/** Phrases: whitespace splitting, Title-Case normalisation and dictionary validity.
    Characters are modelled as ASCII: case mapping touches only 'A'..'Z' and 'a'..'z',
    and whitespace is the ASCII part of what Python's str.split() splits on. */
module Phrase {

  /** The ASCII characters Python's str.isspace() accepts: tab, line feed, vertical tab,
      form feed, carriage return, the four information separators and the space. */
  predicate IsWhitespace(c: char) {
    (9 <= c as int <= 13) || (28 <= c as int <= 32)
  }

  predicate IsAsciiUpper(c: char) { 'A' <= c <= 'Z' }
  predicate IsAsciiLower(c: char) { 'a' <= c <= 'z' }

  function Lower(c: char): (r: char)
    ensures IsAsciiUpper(c) ==> IsAsciiLower(r) && r as int == c as int + 32
    ensures !IsAsciiUpper(c) ==> r == c
  {
    if IsAsciiUpper(c) then (c as int + 32) as char else c
  }

  function Upper(c: char): (r: char)
    ensures IsAsciiLower(c) ==> IsAsciiUpper(r) && r as int == c as int - 32
    ensures !IsAsciiLower(c) ==> r == c
  {
    if IsAsciiLower(c) then (c as int - 32) as char else c
  }

  /** str.lower() */
  function LowerStr(s: string): (r: string)
    ensures |r| == |s|
    ensures forall i :: 0 <= i < |s| ==> r[i] == Lower(s[i])
  {
    seq(|s|, i requires 0 <= i < |s| => Lower(s[i]))
  }

  /** A token: a non-empty run of non-whitespace characters. */
  predicate IsToken(w: string) {
    |w| > 0 && forall k :: 0 <= k < |w| ==> !IsWhitespace(w[k])
  }

  /** Length of the run of non-whitespace characters at the front of s. */
  function TokenLength(s: string): (n: nat)
    ensures n <= |s|
    ensures forall k :: 0 <= k < n ==> !IsWhitespace(s[k])
    ensures n < |s| ==> IsWhitespace(s[n])
  {
    if s == [] || IsWhitespace(s[0]) then 0 else 1 + TokenLength(s[1..])
  }

  /** str.split() with no separator: the maximal runs of non-whitespace, in order. */
  function Split(s: string): (ts: seq<string>)
    ensures forall i :: 0 <= i < |ts| ==> IsToken(ts[i])
    decreases |s|
  {
    if s == [] then []
    else if IsWhitespace(s[0]) then Split(s[1..])
    else
      var n := TokenLength(s);
      [s[..n]] + Split(s[n..])
  }

  /** ' '.join(ts). When every element is a token, splitting the result gives ts back. */
  function Join(ts: seq<string>): (r: string)
    ensures (forall i :: 0 <= i < |ts| ==> IsToken(ts[i])) ==> Split(r) == ts
  {
    if ts == [] then []
    else if |ts| == 1 then
      if IsToken(ts[0]) then SplitToken(ts[0]); ts[0] else ts[0]
    else
      var j := Join(ts[1..]);
      assert [ts[0]] + ts[1..] == ts;
      if IsToken(ts[0]) then SplitTokenWhitespace(ts[0], ' ', j); ts[0] + " " + j else ts[0] + " " + j
  }

  /** str.capitalize(): first character upper-case, the rest lower-case. */
  function Capitalize(w: string): (r: string)
    ensures |r| == |w|
    ensures LowerStr(r) == LowerStr(w)
    ensures IsCapitalized(r)
    ensures IsToken(w) ==> IsToken(r)
  {
    if w == [] then [] else [Upper(w[0])] + LowerStr(w[1..])
  }

  /** The first character is not a lower-case letter and no later one is an upper-case letter. */
  predicate IsCapitalized(w: string) {
    (|w| > 0 ==> Upper(w[0]) == w[0]) &&
    forall k :: 1 <= k < |w| ==> Lower(w[k]) == w[k]
  }

  function CapitalizeAll(ts: seq<string>): (cs: seq<string>)
    ensures |cs| == |ts|
    ensures forall i :: 0 <= i < |ts| ==> cs[i] == Capitalize(ts[i])
  {
    seq(|ts|, i requires 0 <= i < |ts| => Capitalize(ts[i]))
  }

  /** normalize_phrase: every token in Title Case, joined by single spaces. The result is
      single-spaced and its tokens are the capitalised tokens of the phrase. */
  function NormalizePhrase(phrase: string): (r: string)
    ensures SingleSpaced(r)
    ensures Split(r) == CapitalizeAll(Split(phrase))
  {
    var cs := CapitalizeAll(Split(phrase));
    JoinSingleSpaced(cs);
    Join(cs)
  }

  /** Every token of the list, lower-cased, is a dictionary word (the loop with early return). */
  function AllKnown(parts: seq<string>, words: set<string>): (b: bool)
    ensures b <==> forall i :: 0 <= i < |parts| ==> LowerStr(parts[i]) in words
  {
    parts == [] || (LowerStr(parts[0]) in words && AllKnown(parts[1..], words))
  }

  /** is_valid_phrase: at least one token, and every token, lower-cased, is in the dictionary. */
  function IsValidPhrase(phrase: string, words: set<string>): (b: bool)
    ensures b <==> |Split(phrase)| > 0 &&
                   forall i :: 0 <= i < |Split(phrase)| ==> LowerStr(Split(phrase)[i]) in words
  {
    var parts := Split(phrase);
    parts != [] && AllKnown(parts, words)
  }

  /** The printed form has no leading, trailing or repeated whitespace, and its only
      whitespace character is the space. */
  predicate SingleSpaced(r: string) {
    (|r| > 0 ==> !IsWhitespace(r[0]) && !IsWhitespace(r[|r| - 1])) &&
    (forall i :: 0 <= i < |r| && IsWhitespace(r[i]) ==> r[i] == ' ') &&
    (forall i :: 0 <= i < |r| - 1 && IsWhitespace(r[i]) ==> !IsWhitespace(r[i + 1]))
  }

  // ---------------------------------------------------------------------------
  // Splitting and joining

  /** A phrase splits into no tokens exactly when it is empty or all whitespace. */
  lemma {:induction false} SplitEmptyIff(s: string)
    ensures Split(s) == [] <==> forall i :: 0 <= i < |s| ==> IsWhitespace(s[i])
    decreases |s|
  {
    if s != [] {
      if IsWhitespace(s[0]) {
        SplitEmptyIff(s[1..]);
        if forall i :: 0 <= i < |s[1..]| ==> IsWhitespace(s[1..][i]) {
          forall i | 0 <= i < |s| ensures IsWhitespace(s[i]) {
            if i > 0 { assert s[i] == s[1..][i - 1]; }
          }
        }
      }
    }
  }

  /** A single token splits into itself. */
  lemma SplitToken(t: string)
    requires IsToken(t)
    ensures TokenLength(t) == |t|
    ensures Split(t) == [t]
  {
    var n := TokenLength(t);
    assert n == |t|;
    assert t[..n] == t;
    assert t[n..] == [];
  }

  /** Whitespace at the front of a phrase is skipped. */
  lemma SplitSkipsWhitespace(w: char, rest: string)
    requires IsWhitespace(w)
    ensures Split([w] + rest) == Split(rest)
  {
    assert ([w] + rest)[1..] == rest;
  }

  /** A token followed by any whitespace character and more text splits as the token, then
      the rest. */
  lemma SplitTokenWhitespace(t: string, w: char, rest: string)
    requires IsToken(t) && IsWhitespace(w)
    ensures Split(t + [w] + rest) == [t] + Split(rest)
  {
    var s := t + [w] + rest;
    var n := TokenLength(s);
    assert forall k :: 0 <= k < |t| ==> s[k] == t[k];
    assert s[|t|] == w;
    assert n == |t|;
    assert s[..n] == t;
    assert s[n..] == [w] + rest;
    SplitSkipsWhitespace(w, rest);
  }

  /** A non-empty join of tokens starts and ends with a non-whitespace character. */
  lemma {:induction false} JoinEnds(ts: seq<string>)
    requires |ts| > 0
    requires forall i :: 0 <= i < |ts| ==> IsToken(ts[i])
    ensures |Join(ts)| > 0
    ensures !IsWhitespace(Join(ts)[0])
    ensures !IsWhitespace(Join(ts)[|Join(ts)| - 1])
  {
    if |ts| > 1 {
      JoinEnds(ts[1..]);
      var j := Join(ts[1..]);
      assert Join(ts) == ts[0] + " " + j;
      assert Join(ts)[|Join(ts)| - 1] == j[|j| - 1];
    }
  }

  /** Joining tokens yields a single-spaced phrase. */
  lemma {:induction false} JoinSingleSpaced(ts: seq<string>)
    requires forall i :: 0 <= i < |ts| ==> IsToken(ts[i])
    ensures SingleSpaced(Join(ts))
  {
    if |ts| > 1 {
      JoinSingleSpaced(ts[1..]);
      JoinEnds(ts[1..]);
      JoinEnds(ts);
      var t, j := ts[0], Join(ts[1..]);
      var r := t + " " + j;
      assert r == Join(ts);
      assert forall i :: 0 <= i < |t| ==> r[i] == t[i];
      assert r[|t|] == ' ';
      assert forall i :: |t| < i < |r| ==> r[i] == j[i - |t| - 1];
      forall i | 0 <= i < |r| && IsWhitespace(r[i]) ensures r[i] == ' ' {
        if i > |t| { assert r[i] == j[i - |t| - 1]; }
      }
      forall i | 0 <= i < |r| - 1 && IsWhitespace(r[i]) ensures !IsWhitespace(r[i + 1]) {
        if i > |t| { assert r[i] == j[i - |t| - 1] && r[i + 1] == j[i - |t|]; }
      }
    }
  }

  // ---------------------------------------------------------------------------
  // Case mapping

  lemma CapitalizeIdempotent(w: string)
    ensures Capitalize(Capitalize(w)) == Capitalize(w)
  {
    if w != [] {
      var c := Capitalize(w);
      assert c[1..] == LowerStr(w[1..]);
      assert LowerStr(c[1..]) == c[1..];
    }
  }

  // ---------------------------------------------------------------------------
  // Normalisation

  /** normalize_phrase keeps the tokens of the phrase, up to case, each one in Title Case,
      and prints them single-spaced. */
  lemma NormalizeShape(phrase: string)
    ensures SingleSpaced(NormalizePhrase(phrase))
    ensures |Split(NormalizePhrase(phrase))| == |Split(phrase)|
    ensures forall i :: 0 <= i < |Split(phrase)| ==>
              IsCapitalized(Split(NormalizePhrase(phrase))[i]) &&
              LowerStr(Split(NormalizePhrase(phrase))[i]) == LowerStr(Split(phrase)[i])
  {
    var cs := CapitalizeAll(Split(phrase));
    JoinSingleSpaced(cs);
  }

  /** Normalising twice is normalising once. */
  lemma NormalizeIdempotent(phrase: string)
    ensures NormalizePhrase(NormalizePhrase(phrase)) == NormalizePhrase(phrase)
  {
    var cs := CapitalizeAll(Split(phrase));
    forall i | 0 <= i < |cs| ensures CapitalizeAll(cs)[i] == cs[i] {
      CapitalizeIdempotent(Split(phrase)[i]);
    }
    assert CapitalizeAll(cs) == cs;
  }

  /** Normalising does not change whether a phrase is valid. */
  lemma NormalizePreservesValidity(phrase: string, words: set<string>)
    ensures IsValidPhrase(NormalizePhrase(phrase), words) == IsValidPhrase(phrase, words)
  {
    NormalizeShape(phrase);
  }

  /** An empty or whitespace-only phrase is never valid, whatever the dictionary. */
  lemma EmptyPhraseInvalid(phrase: string, words: set<string>)
    requires forall i :: 0 <= i < |phrase| ==> IsWhitespace(phrase[i])
    ensures !IsValidPhrase(phrase, words)
  {
    SplitEmptyIff(phrase);
  }

  /** A single token is valid exactly when its lower-case form is a word, and normalises
      to its capitalised form. */
  lemma SingleToken(w: string, words: set<string>)
    requires IsToken(w)
    ensures IsValidPhrase(w, words) <==> LowerStr(w) in words
    ensures NormalizePhrase(w) == Capitalize(w)
  {
    SplitToken(w);
    assert CapitalizeAll([w]) == [Capitalize(w)];
  }

  /** A dictionary word written in lower-case letters is a valid phrase, and normalises to
      itself with its first letter upper-cased. */
  lemma LowerWordShown(w: string, words: set<string>)
    requires w in words && |w| > 0
    requires forall k :: 0 <= k < |w| ==> IsAsciiLower(w[k])
    ensures IsValidPhrase(w, words)
    ensures NormalizePhrase(w) == [Upper(w[0])] + w[1..]
  {
    assert LowerStr(w) == w;
    assert LowerStr(w[1..]) == w[1..];
    SingleToken(w, words);
  }
}
