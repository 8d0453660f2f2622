/** A worked example: the dictionary {cat, bat, cot, car, at, cats} and the phrase "Cat",
    whose neighbours include "At", "Bat", "Cot", "Car" and "Cats". */
module Example {
  import opened Phrase
  import opened Neighbors
  import opened PhraseGraph

  const Words: set<string> := {"cat", "bat", "cot", "car", "at", "cats"}

  lemma CatIsNormal()
    ensures LowerStr("Cat") == "cat"
    ensures NormalizePhrase("Cat") == "Cat"
  {
    SingleToken("Cat", Words);
    assert LowerStr("at") == "at";
  }

  // Each one-word candidate is a valid phrase and is shown in Title Case.

  lemma AtShown()
    ensures IsValidPhrase("at", Words) && NormalizePhrase("at") == "At"
  {
    LowerWordShown("at", Words);
  }

  lemma BatShown()
    ensures IsValidPhrase("bat", Words) && NormalizePhrase("bat") == "Bat"
  {
    LowerWordShown("bat", Words);
  }

  lemma CotShown()
    ensures IsValidPhrase("cot", Words) && NormalizePhrase("cot") == "Cot"
  {
    LowerWordShown("cot", Words);
  }

  lemma CarShown()
    ensures IsValidPhrase("car", Words) && NormalizePhrase("car") == "Car"
  {
    LowerWordShown("car", Words);
  }

  lemma CatsShown()
    ensures IsValidPhrase("cats", Words) && NormalizePhrase("cats") == "Cats"
  {
    LowerWordShown("cats", Words);
  }

  // Each candidate is one edit of "cat".

  lemma CatEdits()
    ensures Deletion("cat", 0) == "at"
    ensures Substitution("cat", 0, 'b') == "bat"
    ensures Substitution("cat", 1, 'o') == "cot"
    ensures Substitution("cat", 2, 'r') == "car"
    ensures Insertion("cat", 3, 's') == "cats"
  {
  }

  lemma CatToAt()
    ensures "At" in NeighborSet("Cat", Words)
  {
    CatIsNormal();
    CatEdits();
    AtShown();
    assert "At" != "Cat";
    DeletionNeighbor("Cat", Words, 0);
  }

  lemma CatToBat()
    ensures "Bat" in NeighborSet("Cat", Words)
  {
    CatIsNormal();
    CatEdits();
    BatShown();
    assert "Bat" != "Cat";
    SubstitutionNeighbor("Cat", Words, 0, 'b');
  }

  lemma CatToCot()
    ensures "Cot" in NeighborSet("Cat", Words)
  {
    CatIsNormal();
    CatEdits();
    CotShown();
    assert "Cot" != "Cat";
    SubstitutionNeighbor("Cat", Words, 1, 'o');
  }

  lemma CatToCar()
    ensures "Car" in NeighborSet("Cat", Words)
  {
    CatIsNormal();
    CatEdits();
    CarShown();
    assert "Car" != "Cat";
    SubstitutionNeighbor("Cat", Words, 2, 'r');
  }

  lemma CatToCats()
    ensures "Cats" in NeighborSet("Cat", Words)
  {
    CatIsNormal();
    CatEdits();
    CatsShown();
    assert "Cats" != "Cat";
    InsertionNeighbor("Cat", Words, 3, 's');
  }

  /** A valid candidate of "cat" is one of the other dictionary words: every candidate is
      made of lower-case letters, so it is valid only as a single dictionary word. */
  lemma CatCandidateIsWord(c: string)
    requires c in Candidates("cat") && IsValidPhrase(c, Words)
    ensures c in {"at", "bat", "cot", "car", "cats"}
  {
    assert forall k :: 0 <= k < |"cat"| ==> IsAsciiLower("cat"[k]);
    CandidateLetters("cat", c);
    LetterCandidateValid(c, Words);
    NotOwnCandidate("cat");
  }

  /** A valid candidate of "cat" shows as one of the five listed phrases. */
  lemma CatCandidateShown(c: string)
    requires c in Candidates("cat") && IsValidPhrase(c, Words)
    ensures NormalizePhrase(c) in {"At", "Bat", "Cot", "Car", "Cats"}
  {
    CatCandidateIsWord(c);
    AtShown();
    BatShown();
    CotShown();
    CarShown();
    CatsShown();
  }

  /** Nothing but the five listed phrases is a neighbour of "Cat". */
  lemma CatNeighborsWithin()
    ensures NeighborSet("Cat", Words) <= {"At", "Bat", "Cot", "Car", "Cats"}
  {
    CatIsNormal();
    forall v | v in NeighborSet("Cat", Words) ensures v in {"At", "Bat", "Cot", "Car", "Cats"} {
      var c :| c in Candidates("cat") && IsValidPhrase(c, Words) && v == NormalizePhrase(c);
      CatCandidateShown(c);
    }
  }

  /** The neighbours of "Cat" are exactly "At" (deleting the 'c'), "Bat", "Cot" and "Car"
      (substituting 'b' for the 'c', 'o' for the 'a', 'r' for the 't') and "Cats" (inserting
      's' at the end). */
  lemma CatExample()
    ensures NeighborSet("Cat", Words) == {"At", "Bat", "Cot", "Car", "Cats"}
  {
    CatToAt();
    CatToBat();
    CatToCot();
    CatToCar();
    CatToCats();
    CatNeighborsWithin();
  }

  /** The neighbour function of generate_graph over this dictionary, at "Cat". */
  lemma CatNeighborsOf(shown: set<string>)
    requires shown == NeighborsOf(Words)("Cat")
    ensures shown == {"At", "Bat", "Cot", "Car", "Cats"}
  {
    CatExample();
  }

  /** The depth-1 graph of "Cat" once its start and neighbours are known. */
  lemma CatLayer(graph: Graph, s: string, shown: set<string>)
    requires s == "Cat" && shown == {"At", "Bat", "Cot", "Car", "Cats"}
    requires graph.nodes == {s} + shown
    requires forall u, v :: (u, v) in graph.edges <==> u == s && v in shown
    ensures graph.nodes == {"Cat", "At", "Bat", "Cot", "Car", "Cats"}
    ensures forall u, v :: (u, v) in graph.edges <==> u == "Cat" && v in {"At", "Bat", "Cot", "Car", "Cats"}
  {
  }

  /** generate_graph("Cat", 1) over this dictionary: "Cat" and its five neighbours, and an
      edge from "Cat" to each of them. */
  method CatGraph() returns (graph: Graph)
    ensures graph.nodes == {"Cat", "At", "Bat", "Cot", "Car", "Cats"}
    ensures forall u, v :: (u, v) in graph.edges <==> u == "Cat" && v in {"At", "Bat", "Cot", "Car", "Cats"}
  {
    graph := OneLayerGraph("Cat", Words);
    ghost var s := NormalizePhrase("Cat");
    CatIsNormal();
    ghost var shown := NeighborsOf(Words)(s);
    CatNeighborsOf(shown);
    CatLayer(graph, s, shown);
  }

  /** When every character of s is x and s has at least two, every candidate of s still
      holds an x: one edit removes or replaces at most one of them. */
  lemma CandidateKeeps(s: string, x: char, c: string)
    requires |s| >= 2 && forall k :: 0 <= k < |s| ==> s[k] == x
    requires c in Candidates(s)
    ensures exists j :: 0 <= j < |c| && c[j] == x
  {
    if c in DeletionsBelow(s, |s|) {
      var i :| 0 <= i < |s| && c == Deletion(s, i);
      assert c[0] == x;
    } else if c in SubstitutionsBelow(s, |s|) {
      var i, ch :| 0 <= i < |s| && ch in Alphabet && s[i] != ' ' && ch != s[i] && c == Substitution(s, i, ch);
      var j := if i == 0 then 1 else 0;
      assert c[j] == x;
    } else {
      var i, ch :| 0 <= i <= |s| && ch in Alphabet && c == Insertion(s, i, ch);
      var j := if i == 0 then 1 else 0;
      assert c[j] == x;
    }
  }

  /** No word of this dictionary holds a 'z'. */
  lemma NoZ(w: string)
    requires w in Words
    ensures forall j :: 0 <= j < |w| ==> w[j] != 'z'
  {
  }

  /** Every candidate of "zz" keeps a 'z', which no word of this dictionary has, so none of
      them is valid. */
  lemma ZzCandidateInvalid(c: string)
    requires c in Candidates("zz")
    ensures !IsValidPhrase(c, Words)
  {
    var zz := "zz";
    assert forall k :: 0 <= k < |zz| ==> IsAsciiLower(zz[k]) && zz[k] == 'z';
    CandidateLetters(zz, c);
    LetterCandidateValid(c, Words);
    CandidateKeeps(zz, 'z', c);
    if c in Words {
      NoZ(c);
    }
  }

  /** "Zz" has no neighbour over this dictionary. */
  lemma ZzIsolated()
    ensures NormalizePhrase("Zz") == "Zz"
    ensures NeighborSet("Zz", Words) == {}
  {
    SingleToken("Zz", Words);
    assert LowerStr("z") == "z";
    assert LowerStr("Zz") == "zz";
    forall c | c in Candidates("zz") ensures !IsValidPhrase(c, Words) {
      ZzCandidateInvalid(c);
    }
  }

  /** generate_graph("Zz", 2) over this dictionary: the single node "Zz" and no edges. */
  method ZzGraph() returns (graph: Graph)
    ensures graph == Graph({"Zz"}, {})
  {
    ZzIsolated();
    graph := IsolatedGraph("Zz", 2, Words);
  }
}
