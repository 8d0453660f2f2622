# Phrase graph: edit-distance-1 neighbours and a layered breadth-first graph

This project models the phrase-graph algorithm of `main.py` in Dafny and proves properties of
the model. Starting from a phrase, the program builds a directed graph of phrases. Every
phrase in it is reachable from the start by single-character edits: a deletion, a
substitution by a lower-case letter, or an insertion of a lower-case letter. Every
whitespace-separated token of every phrase other than the start must be a dictionary word.
The graph is built breadth-first up to a depth bound. Each edge runs from one layer to the
next.

The model has four modules:

- `Phrase` (`phrase.dfy`) covers splitting on whitespace, `str.lower()`, `str.capitalize()`
  and `' '.join`. On top of these it defines `normalize_phrase` (Title Case, single-spaced)
  and `is_valid_phrase`. These are pure functions, as in the source.
- `Neighbors` (`neighbors.dfy`) covers `get_neighbors`. The function `NeighborSet` is a
  reference definition: it is the set of the normalised forms of the valid deletions,
  substitutions and insertions on the lower-cased phrase, minus the normalised phrase itself.
  The method `GetNeighbors` runs the source's three loops and is proved to compute exactly
  that set.
- `PhraseGraph` (`graph.dfy`) covers the traversal of `generate_graph`. The class
  `GraphBuilder` holds the FIFO queue of (phrase, depth) pairs, the `visited` depth map and
  the graph. A networkx graph is replaced by the datatype `Graph`: a node set and a set of
  (source, target) edges. `GenerateGraph` runs the `while queue` loop. It is proved to
  produce these results:
  - the node set is the key set of `visited`;
  - the recorded phrases are exactly those within the depth bound of the normalised start,
    and each is recorded at its distance from the start;
  - every edge goes from a phrase at depth d below the bound to a neighbour at depth d + 1,
    and every such pair is an edge;
  - nothing is enqueued twice;
  - exactly the phrases below the bound are expanded;
  - a bound of 0 or below, or an empty dictionary, gives the start alone.
- `Example` (`example.dfy`) is a worked example over the dictionary
  {cat, bat, cot, car, at, cats}. The neighbours of "Cat" are exactly "At", "Bat", "Cot",
  "Car" and "Cats", and its depth-1 graph joins "Cat" to each of them. "Zz" has no
  neighbour, so its depth-2 graph is that one node.

The dictionary is a parameter `words: set<string>`. Characters are ASCII. Case mapping
touches only `A`–`Z` and `a`–`z`. Whitespace (`IsWhitespace`) is the set of ASCII characters
Python's `str.isspace()` accepts: codes 9–13 and 28–32. Substitution skips only the space
character, as the source does. A tab, for example, can be substituted.

Iterating over a Python `set` follows an order that is not specified. `Expand` handles the
neighbours in an arbitrary order (`:|`). All the results above hold whatever that order is.

## Model

| member | source | states |
|---|---|---|
| `Phrase.Lower` | main.py:50 | An upper-case ASCII letter maps to its lower-case letter; every other character is unchanged |
| `Phrase.Upper` | main.py:56 | A lower-case ASCII letter maps to its upper-case letter; every other character is unchanged |
| `Phrase.LowerStr` | main.py:60 | `str.lower()` keeps the length and lower-cases each character in place |
| `Phrase.TokenLength` | main.py:46 | The token at the front of a string is a run of non-whitespace, ended by whitespace or the end of the string |
| `Phrase.Split` | main.py:46 | Every part `str.split()` yields is a non-empty run of non-whitespace characters; with `SplitSkipsWhitespace`, `SplitToken` and `SplitTokenWhitespace` it is pinned down for every whitespace character |
| `Phrase.Capitalize` | main.py:56 | `str.capitalize()` keeps the length and the lower-case form, leaves the word capitalised and maps a token to a token |
| `Phrase.CapitalizeAll` | main.py:56 | Each token is capitalised in place and the count is kept |
| `Phrase.AllKnown` | main.py:49-52 | The loop with early return accepts exactly when every part, lower-cased, is a dictionary word |
| `Phrase.IsValidPhrase` | main.py:44-52 | A phrase is valid if and only if it has at least one token and every token, lower-cased, is in the dictionary |
| `Phrase.SplitEmptyIff` | main.py:46-48 | A phrase splits into no tokens exactly when it is empty or all whitespace |
| `Phrase.EmptyPhraseInvalid` | main.py:46-48 | An empty or whitespace-only phrase is invalid for every dictionary |
| `Phrase.SplitToken` | main.py:46 | A single token splits into itself |
| `Phrase.SplitSkipsWhitespace` | main.py:46 | Leading whitespace of any kind is skipped |
| `Phrase.SplitTokenWhitespace` | main.py:46 | A token, any whitespace character and more text split into the token followed by the split of the rest |
| `Phrase.Join` | main.py:56 | `' '.join` of tokens splits back into exactly those tokens |
| `Phrase.JoinEnds` | main.py:56 | A non-empty join of tokens neither starts nor ends with whitespace |
| `Phrase.JoinSingleSpaced` | main.py:56 | A join of tokens has no leading, trailing or repeated whitespace, and its only whitespace is the space |
| `Phrase.CapitalizeIdempotent` | main.py:56 | Capitalising twice is capitalising once |
| `Phrase.NormalizeShape` | main.py:54-56 | The normalised phrase is single-spaced and has the same number of tokens; each token is capitalised and equal, up to case, to the original one |
| `Phrase.NormalizePhrase` | main.py:54-56 | The result is single-spaced, and its tokens are the input's tokens, each capitalised |
| `Phrase.NormalizeIdempotent` | main.py:54-56 | Normalising twice is normalising once |
| `Phrase.NormalizePreservesValidity` | main.py:44-56 | A phrase and its normalised form are valid for the same dictionaries |
| `Phrase.SingleToken` | main.py:44-56 | A single token is valid exactly when its lower-case form is a word, and it normalises to its capitalised form |
| `Phrase.LowerWordShown` | main.py:44-56 | A dictionary word in lower-case letters is valid and normalises to itself with its first letter upper-cased |
| `Neighbors.Deletion` | main.py:69 | The character at i is removed: one shorter, the prefix kept and the rest shifted left by one |
| `Neighbors.Substitution` | main.py:82 | The character at i is replaced by the given one and every other position is unchanged |
| `Neighbors.Insertion` | main.py:89 | The given character is placed at i: one longer, the prefix kept and the rest shifted right by one |
| `Neighbors.AcceptedCanonical` | main.py:70-71 | Every accepted form of a candidate is a valid phrase in normal form |
| `Neighbors.NeighborSet` | main.py:58-98 | The reference neighbour set never holds the phrase's own normal form, and every element is valid and in normal form |
| `Neighbors.DeletionsStep` | main.py:68-69 | The deletions at positions below i + 1 are those below i plus the deletion at i |
| `Neighbors.SubstitutionsAtStep` | main.py:75-82 | One more letter adds a substitution unless the position holds a space or that same letter |
| `Neighbors.SubstitutionsAtSpace` | main.py:75-76 | A position holding a space yields no substitution |
| `Neighbors.SubstitutionsStep` | main.py:74-82 | One more position adds all the substitutions at that position |
| `Neighbors.InsertionsAtStep` | main.py:88-89 | One more letter adds the insertion of that letter |
| `Neighbors.InsertionsStep` | main.py:87-89 | One more position adds all the insertions at that position |
| `Neighbors.AcceptedAddOne` | main.py:70-71 | One more candidate adds its normal form exactly when it is valid |
| `Neighbors.AcceptedUnion` | main.py:67-91 | The accepted forms of a union of candidate sets are the union of the accepted forms |
| `Neighbors.AddIfValid` | main.py:70-71 | Trying one more candidate keeps the found set equal to the accepted forms of the candidates tried |
| `Neighbors.AddDeletions` | main.py:67-71 | The deletion loop adds exactly the normal forms of the valid deletions |
| `Neighbors.AddSubstitutionsAt` | main.py:75-84 | The inner substitution loop at one position adds exactly the normal forms of its valid substitutions, and nothing at a space |
| `Neighbors.AddSubstitutions` | main.py:73-84 | The substitution loop adds exactly the normal forms of the valid substitutions of a non-space character by a different letter |
| `Neighbors.AddInsertionsAt` | main.py:88-91 | The inner insertion loop at one position adds exactly the normal forms of its valid insertions |
| `Neighbors.AddInsertions` | main.py:86-91 | The insertion loop adds exactly the normal forms of the valid insertions of a letter at positions 0 to the length |
| `Neighbors.GetNeighbors` | main.py:58-98 | The result is the reference neighbour set; every element is valid and in normal form, and the normalised input is never in it |
| `Neighbors.NeighborIsCanonical` | main.py:67-96 | Every neighbour is valid, in normal form, different from the normalised phrase, and the normal form of some valid candidate |
| `Neighbors.ValidCandidateIsNeighbor` | main.py:67-96 | Every valid candidate whose normal form differs from the phrase's contributes that normal form |
| `Neighbors.DeletionNeighbor` | main.py:67-71 | A valid deletion whose normal form differs from the phrase's is a neighbour |
| `Neighbors.SubstitutionNeighbor` | main.py:73-84 | A valid substitution of a non-space character by another letter, whose normal form differs, is a neighbour |
| `Neighbors.InsertionNeighbor` | main.py:86-91 | A valid insertion of a letter, whose normal form differs, is a neighbour |
| `Neighbors.DeletionIsOneEdit` | main.py:68-69 | A deletion is one character shorter, and re-inserting the deleted character restores the phrase |
| `Neighbors.SubstitutionIsOneEdit` | main.py:74-82 | A substitution differs from the phrase at exactly one position; that position holds a non-space character in the phrase and a lower-case letter in the candidate |
| `Neighbors.InsertionIsOneEdit` | main.py:87-89 | An insertion is one character longer and holds a lower-case letter whose deletion restores the phrase |
| `Neighbors.AlphabetLower` | main.py:65 | Every letter of `string.ascii_lowercase` is a lower-case ASCII letter |
| `Neighbors.InsertThenDelete` | main.py:69-89 | Deleting an inserted character gives back the phrase |
| `Neighbors.NotOwnCandidate` | main.py:67-91 | No candidate is the lower-cased phrase itself |
| `Neighbors.NoWordsNoNeighbors` | main.py:58-98 | With an empty dictionary no phrase has a neighbour |
| `Neighbors.CandidateLetters` | main.py:67-91 | The candidates of a phrase of lower-case letters are made of lower-case letters |
| `Neighbors.LetterCandidateValid` | main.py:44-52 | A string of lower-case letters is valid exactly when it is a non-empty dictionary word |
| `PhraseGraph.ReachStep` | main.py:126-129 | A neighbour of a phrase within k steps is within k + 1 steps |
| `PhraseGraph.ReachMonotone` | main.py:119-132 | The phrases within k steps are among those within m steps when k <= m |
| `PhraseGraph.ReachIsolated` | main.py:119-132 | When the start has no neighbour, only the start is reachable, at every bound |
| `PhraseGraph.ReachOne` | main.py:119-132 | Within one step lie the start and its neighbours, and nothing else |
| `PhraseGraph.ReachCases` | main.py:119-132 | A phrase within k + 1 steps is within k steps or a neighbour of one that is |
| `PhraseGraph.RecordsAdd` | main.py:127-128 | Recording a new, correctly placed phrase keeps every recorded phrase correct |
| `PhraseGraph.HistoryAdd` | main.py:128-129 | Appending a new phrase to the queue extends the queue history and the index of each phrase in it |
| `PhraseGraph.OrderAdd` | main.py:129 | Appending at depth level + 1 keeps the queue in breadth-first order |
| `PhraseGraph.ExpandedAdd` | main.py:128-129 | Recording a new phrase keeps the expanded phrases consistent with the queue history |
| `PhraseGraph.EdgesAddNew` | main.py:127-130 | A new neighbour recorded one layer deeper gets exactly the edge from the phrase being expanded |
| `PhraseGraph.EdgesAddSeen` | main.py:131-132 | A neighbour already recorded gets an edge exactly when it lies one layer deeper |
| `PhraseGraph.StartExpanding` | main.py:122-125 | Expansion of a phrase not expanded before starts with none of its neighbours handled |
| `PhraseGraph.FinishExpanding` | main.py:126-132 | Once all neighbours are handled, every neighbour of the expanded phrase is recorded at most one layer deeper |
| `PhraseGraph.HistoryPop` | main.py:120 | `popleft` takes the next entry of the queue history |
| `PhraseGraph.OrderPop` | main.py:120 | The dequeued depth is the current level or one more |
| `PhraseGraph.ExpandedPop` | main.py:120-123 | The dequeued phrase was not expanded before, and it is expanded exactly when its depth is below the bound |
| `PhraseGraph.DepthsBounded` | main.py:119-129 | Every recorded depth is at most one more than the last dequeued depth |
| `PhraseGraph.QueueLayered` | main.py:114-129 | Queue depths never decrease from front to back and differ by at most one |
| `PhraseGraph.ReachedWithin` | main.py:119-132 | Once every phrase below the bound is expanded, every phrase within k steps is recorded at depth k or less |
| `PhraseGraph.ReachedStep` | main.py:126-132 | A phrase one step beyond the recorded layers is a neighbour of an expanded phrase, so it is recorded at most one layer deeper |
| `PhraseGraph.Finished` | main.py:119-134 | With the queue empty, the recorded phrases are exactly those within the bound, each at its distance; the expanded phrases are those below the bound; the edges are exactly the layer edges out of them |
| `PhraseGraph.AddedNewRecords` | main.py:127-130 | Recording a new neighbour keeps node set and depth map in step and every record correct |
| `PhraseGraph.AddedNewBook` | main.py:128-129 | Recording a new neighbour keeps queue history, order and expanded phrases consistent |
| `PhraseGraph.AddedNewCore` | main.py:127-130 | Recording a new neighbour keeps the traversal invariant apart from the edges |
| `PhraseGraph.VisitNewOk` | main.py:127-130 | A neighbour not seen before keeps the invariant during expansion |
| `PhraseGraph.VisitSeenOk` | main.py:131-132 | A neighbour seen before keeps the invariant during expansion |
| `PhraseGraph.EffectGrows` | main.py:126-132 | Expansion only adds recorded phrases, and it lengthens the queue only by adding them |
| `PhraseGraph.EffectStart` | main.py:125 | Before any neighbour is handled, expansion has changed nothing |
| `PhraseGraph.EffectNew` | main.py:127-130 | A new neighbour is recorded at depth d + 1, appended to the queue and joined by an edge |
| `PhraseGraph.EffectSeen` | main.py:131-132 | A neighbour seen before changes only the edges, and only when it lies at depth d + 1 |
| `PhraseGraph.HandledOk` | main.py:126-132 | Handling one neighbour keeps the invariant and extends the effect of the expansion |
| `PhraseGraph.PopOk` | main.py:119-123 | The dequeued phrase is recorded at its queued depth and not yet expanded; at or past the bound it is dropped, below it expansion starts |
| `PhraseGraph.FinishOk` | main.py:125-132 | After the last neighbour, the invariant between dequeues holds again |
| `PhraseGraph.AddedNew` | main.py:127-130 | A new neighbour gets depth level + 1 and is appended to the queue with it, with the edge from current; other depths are unchanged |
| `PhraseGraph.AddedSeen` | main.py:131-132 | For a neighbour seen before, depths and queue are unchanged, and the edge from current is added exactly when its depth is level + 1 |
| `PhraseGraph.Handled` | main.py:126-132 | After one neighbour is handled it is recorded; a new one at level + 1 and enqueued, a seen one with depths and queue unchanged; the edge from current exists exactly when it was there or the neighbour lies at level + 1 |
| `PhraseGraph.Popped` | main.py:120-123 | `popleft` removes the front entry and sets the level to its depth; depths and graph are unchanged; the phrase is expanded exactly when its depth is below the bound |
| `PhraseGraph.GraphBuilder.constructor` | main.py:105-115 | The normalised start is the only node, with no edges, at depth 0 and the only queue entry |
| `PhraseGraph.GraphBuilder.Visit` | main.py:127-132 | A new neighbour is recorded one layer deeper, enqueued and joined by an edge; one at the next layer gets only the edge; a shallower one is ignored |
| `PhraseGraph.GraphBuilder.Dequeue` | main.py:120 | The front entry is removed and returned |
| `PhraseGraph.GraphBuilder.Neighbors` | main.py:125 | The neighbours are the reference neighbour set, all valid and in normal form |
| `PhraseGraph.GraphBuilder.Expand` | main.py:125-132 | Every neighbour is handled: new ones are recorded at d + 1 and enqueued, edges go exactly to neighbours at d + 1, and nothing recorded before changes |
| `PhraseGraph.GraphBuilder.Step` | main.py:119-132 | One loop turn keeps the invariant; an entry at or past the bound is dropped unchanged; a phrase is expanded only if not expanded before; either new phrases are recorded or the queue shrinks; the queue stays layered |
| `PhraseGraph.RecordedInBound` | main.py:127-129 | Every recorded phrase is within the depth bound of the start |
| `PhraseGraph.FewerLeft` | main.py:119 | Recording more phrases inside the bound leaves fewer unrecorded, so the loop terminates |
| `PhraseGraph.HistoryDistinct` | main.py:127-129 | No phrase is enqueued twice, and the enqueued phrases are exactly the recorded ones |
| `PhraseGraph.Result` | main.py:119-134 | With the queue empty, every property listed for `GenerateGraph` holds of the state |
| `PhraseGraph.ShallowResult` | main.py:112-123 | With a depth bound of 0 or below, the graph is the start alone, with no edges |
| `PhraseGraph.IsolatedResult` | main.py:105-134 | With an empty dictionary, the graph is the start alone, whatever the bound |
| `PhraseGraph.GenerateGraph` | main.py:100-134 | Nodes are the keys of `visited`, exactly the phrases within the bound of the normalised start; each is recorded at its distance (reachable at its recorded depth, not at any smaller one) and is valid unless it is the start; edges are exactly the pairs (u, v) with u below the bound and v a neighbour one layer deeper; no phrase is enqueued twice; exactly the phrases below the bound are expanded; a bound of 0 or an empty dictionary gives one node and no edges |
| `PhraseGraph.OneLayer` | main.py:119-134 | At depth 1, the nodes are the start and its neighbours and the edges go from the start to each neighbour |
| `PhraseGraph.OneLayerGraph` | main.py:100-134 | `generate_graph` at depth 1 gives the start and its neighbours, with an edge from the start to each and no other edge |
| `PhraseGraph.SingleNode` | main.py:119-134 | When only the start is recorded, there is no edge |
| `PhraseGraph.IsolatedGraph` | main.py:100-134 | A start without neighbours gives the graph with that node alone, at every depth |
| `Example.CatIsNormal` | main.py:54-60 | "Cat" lower-cases to "cat" and is already in normal form |
| `Example.AtShown` | main.py:44-56 | "at" is valid and shows as "At" |
| `Example.BatShown` | main.py:44-56 | "bat" is valid and shows as "Bat" |
| `Example.CotShown` | main.py:44-56 | "cot" is valid and shows as "Cot" |
| `Example.CarShown` | main.py:44-56 | "car" is valid and shows as "Car" |
| `Example.CatsShown` | main.py:44-56 | "cats" is valid and shows as "Cats" |
| `Example.CatEdits` | main.py:67-91 | The edits named in the example produce the expected words |
| `Example.CatToAt` | main.py:67-71 | Deleting the 'c' of "cat" gives the neighbour "At" |
| `Example.CatToBat` | main.py:73-84 | Substituting 'b' for the 'c' gives the neighbour "Bat" |
| `Example.CatToCot` | main.py:73-84 | Substituting 'o' for the 'a' gives the neighbour "Cot" |
| `Example.CatToCar` | main.py:73-84 | Substituting 'r' for the 't' gives the neighbour "Car" |
| `Example.CatToCats` | main.py:86-91 | Inserting 's' at the end gives the neighbour "Cats" |
| `Example.CatCandidateIsWord` | main.py:67-91 | A valid candidate of "cat" is one of the dictionary words other than "cat" |
| `Example.CatCandidateShown` | main.py:67-96 | The normal form of a valid candidate of "cat" is one of the five expected neighbours |
| `Example.CatNeighborsWithin` | main.py:58-98 | "Cat" has no neighbour besides the five expected ones |
| `Example.CatExample` | main.py:58-98 | The neighbours of "Cat" are exactly "At", "Bat", "Cot", "Car" and "Cats" |
| `Example.CatNeighborsOf` | main.py:125 | The neighbour relation of `generate_graph` gives "Cat" the five expected neighbours |
| `Example.CatGraph` | main.py:100-134 | `generate_graph("Cat", 1)` gives the nodes "Cat", "At", "Bat", "Cot", "Car", "Cats" and exactly the five edges from "Cat" |
| `Example.CandidateKeeps` | main.py:67-91 | One edit of a string of at least two equal characters keeps one of them |
| `Example.ZzCandidateInvalid` | main.py:67-91 | No candidate of "zz" is valid for this dictionary, which has no 'z' |
| `Example.ZzIsolated` | main.py:58-98 | "Zz" is in normal form and has no neighbour |
| `Example.ZzGraph` | main.py:100-134 | `generate_graph("Zz", 2)` gives the single node "Zz" and no edge |

## Left out

- `download_file` and `load_words` (main.py:18-42) are not modelled. They fetch over the network, cache files and read them. The dictionary is a parameter instead.
- `main` (main.py:136-156) is not modelled. It covers argument parsing, printing and JSON output through networkx.
- The `print` diagnostics in `generate_graph` are not modelled. This includes the warning for an invalid start phrase, which does not affect the result.
- networkx's `DiGraph` is replaced by a node set and an edge set. The node set is proved equal to the key set of `visited`. The graph's extra bookkeeping is not modelled.
- Unicode case mapping and non-ASCII whitespace are not modelled. Only ASCII letters change case, and whitespace is the ASCII set `str.isspace()` accepts.
- The iteration order of Python sets is not modelled. `Expand` handles neighbours in an arbitrary order, and the proved results hold for every order.
- The depth bound is an `int`, as Python's `int` argument allows. A bound of 0 or below expands nothing. Python's arbitrary-precision integers match Dafny's unbounded ones, so no wrap-around arises.
