/** generate_graph: a breadth-first traversal from the normalised start phrase that
    expands phrases below the depth bound and keeps only edges from one layer to the next. */
module PhraseGraph {
  import opened Phrase
  import opened Neighbors

  /** The directed graph: a node set and a set of (source, target) edges. */
  datatype Graph = Graph(nodes: set<string>, edges: set<(string, string)>)

  /** Depth bound seen as a number of layers: a bound of 0 or below expands nothing. */
  function Layers(depth: int): nat {
    if depth > 0 then depth else 0
  }

  /** The neighbour relation of generate_graph as a function, for a given dictionary. */
  ghost function NeighborsOf(words: set<string>): (nb: string -> set<string>)
    ensures forall u :: nb(u) == NeighborSet(u, words)
  {
    u => NeighborSet(u, words)
  }

  /** The phrases reachable from start in at most k steps of the neighbour function nb. */
  ghost function Reach(nb: string -> set<string>, start: string, k: nat): set<string> {
    if k == 0 then {start}
    else
      var r := Reach(nb, start, k - 1);
      r + set u, v | u in r && v in nb(u) :: v
  }

  lemma ReachStep(nb: string -> set<string>, start: string, k: nat, u: string, v: string)
    requires u in Reach(nb, start, k) && v in nb(u)
    ensures v in Reach(nb, start, k + 1)
  {
  }

  lemma {:induction false} ReachMonotone(nb: string -> set<string>, start: string, k: nat, m: nat)
    requires k <= m
    ensures Reach(nb, start, k) <= Reach(nb, start, m)
    decreases m - k
  {
    if k < m {
      ReachMonotone(nb, start, k + 1, m);
    }
  }

  /** A phrase without neighbours reaches only itself. */
  lemma {:induction false} ReachIsolated(nb: string -> set<string>, start: string, k: nat)
    requires nb(start) == {}
    ensures Reach(nb, start, k) == {start}
  {
    if k > 0 {
      ReachIsolated(nb, start, k - 1);
    }
  }

  /** Within one step of the start: the start and its neighbours. */
  lemma ReachOne(nb: string -> set<string>, start: string)
    ensures Reach(nb, start, 1) == {start} + nb(start)
  {
    assert Reach(nb, start, 0) == {start};
  }

  /** A phrase within k + 1 steps is within k steps or a neighbour of one that is. */
  lemma ReachCases(nb: string -> set<string>, start: string, k: nat, v: string)
    requires v in Reach(nb, start, k + 1)
    ensures v in Reach(nb, start, k) || exists u :: u in Reach(nb, start, k) && v in nb(u)
  {
  }

  // ---------------------------------------------------------------------------
  // The traversal invariant, stated on values

  /** Every neighbour of u is recorded, at most one layer deeper than u. */
  ghost predicate Settled(nb: string -> set<string>, visited: map<string, nat>, u: string) {
    u in visited &&
    forall v :: v in nb(u) ==> v in visited && visited[v] <= visited[u] + 1
  }

  /** An edge the traversal keeps: to a neighbour recorded exactly one layer deeper. */
  ghost predicate LayerEdge(nb: string -> set<string>, visited: map<string, nat>, u: string, v: string) {
    u in visited && v in visited && v in nb(u) && visited[v] == visited[u] + 1
  }

  /** What is known of a phrase recorded at depth k: it is in normal form, valid unless it
      is the start, within the depth bound and reachable in k steps. */
  ghost predicate RecordedOk(start: string, words: set<string>, nb: string -> set<string>, depth: int,
                             bound: set<string>, v: string, k: nat)
  {
    && NormalizePhrase(v) == v
    && (v != start ==> IsValidPhrase(v, words))
    && k <= Layers(depth)
    && v in Reach(nb, start, k)
    && v in bound
  }

  /** The start is recorded at depth 0, and every recorded phrase satisfies RecordedOk at
      its depth. */
  ghost predicate RecordsOk(start: string, words: set<string>, nb: string -> set<string>, depth: int,
                            bound: set<string>, visited: map<string, nat>)
  {
    && bound == Reach(nb, start, Layers(depth))
    && start in visited && visited[start] == 0
    && forall v {:trigger RecordedOk(start, words, nb, depth, bound, v, visited[v])} ::
         v in visited ==> RecordedOk(start, words, nb, depth, bound, v, visited[v])
  }

  /** The history lists every recorded phrase once, with its depth, starting with the start;
      pos gives each phrase's index in it; the queue is the part not yet dequeued. */
  ghost predicate HistoryOk(start: string, history: seq<(string, nat)>, popped: nat,
                            queue: seq<(string, nat)>, visited: map<string, nat>, pos: map<string, nat>)
  {
    && |history| > 0 && history[0] == (start, 0)
    && popped <= |history| && queue == history[popped..]
    && (forall v :: v in visited ==> v in pos && pos[v] < |history| && history[pos[v]].0 == v)
    && (forall i :: 0 <= i < |history| ==>
          history[i].0 in visited && visited[history[i].0] == history[i].1 &&
          history[i].0 in pos && pos[history[i].0] == i)
  }

  /** Breadth-first order: the dequeued entries are no deeper than the last dequeued depth
      (level); the queue holds entries at level, up to index mid, then entries at level + 1. */
  ghost predicate OrderOk(history: seq<(string, nat)>, popped: nat, mid: nat, level: nat)
  {
    && popped <= mid <= |history|
    && (forall i :: 0 <= i < popped ==> history[i].1 <= level)
    && (forall i :: popped <= i < mid ==> history[i].1 == level)
    && (forall i :: mid <= i < |history| ==> history[i].1 == level + 1)
    && (popped > 0 ==> history[popped - 1].1 == level)
  }

  /** The expanded phrases are exactly the dequeued ones below the depth bound. */
  ghost predicate ExpandedOk(depth: int, history: seq<(string, nat)>, popped: nat,
                             visited: map<string, nat>, pos: map<string, nat>, expanded: set<string>)
  {
    && popped <= |history|
    && (forall u :: u in expanded ==> u in visited && u in pos && pos[u] < popped && visited[u] < depth)
    && (forall i :: 0 <= i < popped && history[i].1 < depth ==> history[i].0 in expanded)
  }

  /** Between two dequeues: every expanded phrase is settled and the edges are exactly the
      layer edges out of expanded phrases. */
  ghost predicate EdgesDone(nb: string -> set<string>, visited: map<string, nat>, expanded: set<string>,
                            edges: set<(string, string)>)
  {
    && (forall u :: u in expanded ==> Settled(nb, visited, u))
    && (forall u, v :: (u, v) in edges ==> u in expanded && LayerEdge(nb, visited, u, v))
    && (forall u, v :: u in expanded && LayerEdge(nb, visited, u, v) ==> (u, v) in edges)
  }

  /** While current is expanded and its neighbours in done are handled: as EdgesDone for the
      other expanded phrases, and current's edges are its layer edges into done. */
  ghost predicate EdgesDuring(nb: string -> set<string>, visited: map<string, nat>, expanded: set<string>,
                              current: string, done: set<string>, edges: set<(string, string)>)
  {
    && (forall u :: u in expanded && u != current ==> Settled(nb, visited, u))
    && (forall u, v :: (u, v) in edges ==>
          LayerEdge(nb, visited, u, v) && ((u in expanded && u != current) || (u == current && v in done)))
    && (forall u, v :: u in expanded && u != current && LayerEdge(nb, visited, u, v) ==> (u, v) in edges)
    && (forall v :: v in done && LayerEdge(nb, visited, current, v) ==> (current, v) in edges)
  }

  // ---------------------------------------------------------------------------
  // How one step of the traversal keeps the invariant

  lemma RecordsAdd(start: string, words: set<string>, nb: string -> set<string>, depth: int,
                   bound: set<string>, visited: map<string, nat>, n: string, k: nat)
    requires RecordsOk(start, words, nb, depth, bound, visited)
    requires n !in visited && RecordedOk(start, words, nb, depth, bound, n, k)
    ensures RecordsOk(start, words, nb, depth, bound, visited[n := k])
  {
  }

  lemma HistoryAdd(start: string, history: seq<(string, nat)>, popped: nat,
                   queue: seq<(string, nat)>, visited: map<string, nat>, pos: map<string, nat>,
                   n: string, k: nat)
    requires HistoryOk(start, history, popped, queue, visited, pos) && n !in visited
    ensures HistoryOk(start, history + [(n, k)], popped, queue + [(n, k)], visited[n := k], pos[n := |history|])
  {
    assert (history + [(n, k)])[popped..] == history[popped..] + [(n, k)];
  }

  lemma OrderAdd(history: seq<(string, nat)>, popped: nat, mid: nat, level: nat, n: string)
    requires OrderOk(history, popped, mid, level)
    ensures OrderOk(history + [(n, level + 1)], popped, mid, level)
  {
  }

  lemma ExpandedAdd(depth: int, history: seq<(string, nat)>, popped: nat, visited: map<string, nat>,
                    pos: map<string, nat>, expanded: set<string>, n: string, k: nat)
    requires ExpandedOk(depth, history, popped, visited, pos, expanded) && n !in visited
    ensures ExpandedOk(depth, history + [(n, k)], popped, visited[n := k], pos[n := |history|], expanded)
  {
  }

  /** Handling a neighbour seen for the first time: it is recorded one layer deeper and gets
      its edge. */
  lemma EdgesAddNew(nb: string -> set<string>, visited: map<string, nat>, expanded: set<string>,
                    current: string, done: set<string>, edges: set<(string, string)>, n: string)
    requires EdgesDuring(nb, visited, expanded, current, done, edges)
    requires current in visited && n in nb(current) && n !in visited && done <= visited.Keys
    ensures EdgesDuring(nb, visited[n := visited[current] + 1], expanded, current, done + {n},
                        edges + {(current, n)})
  {
    var visited' := visited[n := visited[current] + 1];
    var edges' := edges + {(current, n)};
    forall u | u in expanded && u != current ensures Settled(nb, visited', u) {
      assert Settled(nb, visited, u);
    }
    forall u, v | (u, v) in edges'
      ensures LayerEdge(nb, visited', u, v) && ((u in expanded && u != current) || (u == current && v in done + {n}))
    {
      if (u, v) in edges {
        assert LayerEdge(nb, visited, u, v);
      }
    }
    forall u, v | u in expanded && u != current && LayerEdge(nb, visited', u, v)
      ensures (u, v) in edges'
    {
      assert Settled(nb, visited, u);
      assert v != n;
      assert LayerEdge(nb, visited, u, v);
    }
    forall v | v in done + {n} && LayerEdge(nb, visited', current, v) ensures (current, v) in edges' {
      if v != n {
        assert LayerEdge(nb, visited, current, v);
      }
    }
  }

  /** Handling a neighbour already recorded: it gets an edge exactly when it is one layer deeper. */
  lemma EdgesAddSeen(nb: string -> set<string>, visited: map<string, nat>, expanded: set<string>,
                     current: string, done: set<string>, edges: set<(string, string)>, n: string)
    requires EdgesDuring(nb, visited, expanded, current, done, edges)
    requires current in visited && n in nb(current) && n in visited
    ensures EdgesDuring(nb, visited, expanded, current, done + {n},
                        if visited[n] == visited[current] + 1 then edges + {(current, n)} else edges)
  {
  }

  /** Starting to expand a phrase that has not been expanded before. */
  lemma StartExpanding(nb: string -> set<string>, visited: map<string, nat>, expanded: set<string>,
                       edges: set<(string, string)>, current: string)
    requires EdgesDone(nb, visited, expanded, edges) && current !in expanded
    ensures EdgesDuring(nb, visited, expanded + {current}, current, {}, edges)
  {
  }

  /** Finishing the expansion: once all of current's neighbours are handled and recorded at
      most one layer deeper, current is settled. */
  lemma FinishExpanding(nb: string -> set<string>, visited: map<string, nat>, expanded: set<string>,
                        current: string, edges: set<(string, string)>)
    requires EdgesDuring(nb, visited, expanded, current, nb(current), edges)
    requires current in expanded && current in visited
    requires forall v :: v in nb(current) ==> v in visited && visited[v] <= visited[current] + 1
    ensures EdgesDone(nb, visited, expanded, edges)
  {
    assert Settled(nb, visited, current);
  }

  /** Dequeuing the front entry of the queue. */
  lemma HistoryPop(start: string, history: seq<(string, nat)>, popped: nat,
                   queue: seq<(string, nat)>, visited: map<string, nat>, pos: map<string, nat>)
    requires HistoryOk(start, history, popped, queue, visited, pos) && queue != []
    ensures popped < |history| && queue[0] == history[popped]
    ensures HistoryOk(start, history, popped + 1, queue[1..], visited, pos)
  {
    assert queue[1..] == history[popped + 1..];
  }

  lemma OrderPop(history: seq<(string, nat)>, popped: nat, mid: nat, level: nat)
    requires OrderOk(history, popped, mid, level) && popped < |history|
    ensures history[popped].1 == level || history[popped].1 == level + 1
    ensures history[popped].1 == level ==> OrderOk(history, popped + 1, mid, level)
    ensures history[popped].1 == level + 1 ==> OrderOk(history, popped + 1, |history|, level + 1)
  {
  }

  lemma ExpandedPop(depth: int, history: seq<(string, nat)>, popped: nat, visited: map<string, nat>,
                    pos: map<string, nat>, expanded: set<string>)
    requires ExpandedOk(depth, history, popped, visited, pos, expanded) && popped < |history|
    requires history[popped].0 in visited && history[popped].0 in pos && pos[history[popped].0] == popped
    requires visited[history[popped].0] == history[popped].1
    ensures history[popped].0 !in expanded
    ensures ExpandedOk(depth, history, popped + 1, visited, pos,
                       if history[popped].1 < depth then expanded + {history[popped].0} else expanded)
  {
  }

  /** Every recorded depth is at most one past the last dequeued one. */
  lemma DepthsBounded(start: string, history: seq<(string, nat)>, popped: nat, mid: nat, level: nat,
                      queue: seq<(string, nat)>, visited: map<string, nat>, pos: map<string, nat>)
    requires HistoryOk(start, history, popped, queue, visited, pos) && OrderOk(history, popped, mid, level)
    ensures forall v :: v in visited ==> visited[v] <= level + 1
  {
    forall v | v in visited ensures visited[v] <= level + 1 {
      assert history[pos[v]].0 == v;
    }
  }

  /** The queue holds entries of at most two adjacent layers, shallower ones first. */
  lemma QueueLayered(start: string, history: seq<(string, nat)>, popped: nat, mid: nat, level: nat,
                     queue: seq<(string, nat)>, visited: map<string, nat>, pos: map<string, nat>)
    requires HistoryOk(start, history, popped, queue, visited, pos) && OrderOk(history, popped, mid, level)
    ensures forall i, j :: 0 <= i < j < |queue| ==> queue[i].1 <= queue[j].1 <= queue[i].1 + 1
  {
    forall i, j | 0 <= i < j < |queue| ensures queue[i].1 <= queue[j].1 <= queue[i].1 + 1 {
      assert queue[i] == history[popped + i] && queue[j] == history[popped + j];
    }
  }

  // ---------------------------------------------------------------------------
  // What the finished traversal has computed

  /** Once every phrase below the bound has been expanded and every expanded phrase is
      settled, every phrase within k steps (k up to the bound) is recorded at depth k or less. */
  lemma {:induction false} ReachedWithin(nb: string -> set<string>, start: string, depth: int,
                                         visited: map<string, nat>, expanded: set<string>, k: nat)
    requires start in visited && visited[start] == 0
    requires forall u :: u in visited && visited[u] < depth ==> u in expanded
    requires forall u :: u in expanded ==> Settled(nb, visited, u)
    requires k <= Layers(depth)
    ensures forall v :: v in Reach(nb, start, k) ==> v in visited && visited[v] <= k
  {
    if k > 0 {
      ReachedWithin(nb, start, depth, visited, expanded, k - 1);
      forall v | v in Reach(nb, start, k) ensures v in visited && visited[v] <= k {
        ReachedStep(nb, start, depth, visited, expanded, k, v);
      }
    }
  }

  /** The inductive step of ReachedWithin, for one phrase within k steps. */
  lemma ReachedStep(nb: string -> set<string>, start: string, depth: int,
                    visited: map<string, nat>, expanded: set<string>, k: nat, v: string)
    requires forall u :: u in visited && visited[u] < depth ==> u in expanded
    requires forall u :: u in expanded ==> Settled(nb, visited, u)
    requires 0 < k <= Layers(depth)
    requires forall w :: w in Reach(nb, start, k - 1) ==> w in visited && visited[w] <= k - 1
    requires v in Reach(nb, start, k)
    ensures v in visited && visited[v] <= k
  {
    ReachCases(nb, start, k - 1, v);
    if v !in Reach(nb, start, k - 1) {
      var u :| u in Reach(nb, start, k - 1) && v in nb(u);
      assert u in expanded;
      assert Settled(nb, visited, u);
    }
  }

  /** When the queue is empty: the recorded phrases are exactly those within the depth bound
      of the start, each at its distance from the start; the edges are exactly the layer edges
      out of phrases below the bound; and the expanded phrases are exactly those below it. */
  lemma Finished(start: string, words: set<string>, nb: string -> set<string>, depth: int,
                 bound: set<string>, visited: map<string, nat>,
                 history: seq<(string, nat)>, popped: nat, mid: nat, level: nat, pos: map<string, nat>,
                 expanded: set<string>, edges: set<(string, string)>)
    requires RecordsOk(start, words, nb, depth, bound, visited)
    requires HistoryOk(start, history, popped, [], visited, pos) && OrderOk(history, popped, mid, level)
    requires ExpandedOk(depth, history, popped, visited, pos, expanded)
    requires EdgesDone(nb, visited, expanded, edges)
    ensures visited.Keys == Reach(nb, start, Layers(depth))
    ensures forall v, k :: v in visited && k < visited[v] ==> v !in Reach(nb, start, k)
    ensures forall v :: v in expanded <==> v in visited && visited[v] < depth
    ensures forall u, v :: (u, v) in edges <==> u in visited && visited[u] < depth && LayerEdge(nb, visited, u, v)
  {
    assert popped == |history|;
    forall v | v in visited ensures v in Reach(nb, start, Layers(depth)) {
      assert RecordedOk(start, words, nb, depth, bound, v, visited[v]);
    }
    forall u | u in visited && visited[u] < depth ensures u in expanded {
      assert history[pos[u]].0 == u;
    }
    ReachedWithin(nb, start, depth, visited, expanded, Layers(depth));
    forall v, k | v in visited && k < visited[v] ensures v !in Reach(nb, start, k) {
      assert RecordedOk(start, words, nb, depth, bound, v, visited[v]);
      ReachedWithin(nb, start, depth, visited, expanded, k);
    }
  }

  // ---------------------------------------------------------------------------
  // The traversal state as a value

  /** What a traversal is run with: the normalised start, the dictionary, the neighbour
      function, the depth bound and the phrases within it. */
  datatype Params = Params(start: string, words: set<string>, nb: string -> set<string>,
                           depth: int, bound: set<string>)

  /** The state of generate_graph's loop: the queue, the depth map and the graph, together
      with every entry ever enqueued, each phrase's index in that history, how many entries
      were dequeued, the depth of the last one dequeued and the phrases expanded, in order. */
  datatype Traversal = Traversal(queue: seq<(string, nat)>, visited: map<string, nat>, graph: Graph,
                                 history: seq<(string, nat)>, pos: map<string, nat>,
                                 popped: nat, mid: nat, level: nat, expanded: set<string>)

  ghost predicate CoreOk(p: Params, t: Traversal) {
    && t.graph.nodes == t.visited.Keys
    && RecordsOk(p.start, p.words, p.nb, p.depth, p.bound, t.visited)
    && HistoryOk(p.start, t.history, t.popped, t.queue, t.visited, t.pos)
    && OrderOk(t.history, t.popped, t.mid, t.level)
    && ExpandedOk(p.depth, t.history, t.popped, t.visited, t.pos, t.expanded)
  }

  /** The invariant between two dequeues. */
  ghost predicate ValidOk(p: Params, t: Traversal) {
    CoreOk(p, t) && EdgesDone(p.nb, t.visited, t.expanded, t.graph.edges)
  }

  /** The invariant while the neighbours of current are handled; done holds those handled. */
  ghost predicate ExpandingOk(p: Params, t: Traversal, current: string, done: set<string>) {
    && CoreOk(p, t)
    && t.popped > 0 && t.history[t.popped - 1].0 == current
    && current in t.visited && t.visited[current] == t.level && t.level < p.depth
    && current in t.expanded
    && done <= p.nb(current) && done <= t.visited.Keys
    && EdgesDuring(p.nb, t.visited, t.expanded, current, done, t.graph.edges)
  }

  /** The state after a neighbour seen for the first time is recorded one layer deeper,
      enqueued and joined by an edge from current. */
  function AddedNew(t: Traversal, current: string, n: string): (r: Traversal)
    ensures r.visited.Keys == t.visited.Keys + {n} && r.visited[n] == t.level + 1
    ensures forall v :: v in t.visited && v != n ==> r.visited[v] == t.visited[v]
    ensures r.queue == t.queue + [(n, t.level + 1)]
    ensures r.graph.edges == t.graph.edges + {(current, n)}
  {
    var k := t.level + 1;
    t.(visited := t.visited[n := k], queue := t.queue + [(n, k)],
       history := t.history + [(n, k)], pos := t.pos[n := |t.history|],
       graph := Graph(t.graph.nodes + {current, n}, t.graph.edges + {(current, n)}))
  }

  /** Recording a new neighbour keeps every node recorded correctly. */
  lemma AddedNewRecords(p: Params, t: Traversal, current: string, n: string)
    requires CoreOk(p, t) && current in t.visited && t.visited[current] == t.level && t.level < p.depth
    requires n in p.nb(current) && n !in t.visited
    requires IsValidPhrase(n, p.words) && NormalizePhrase(n) == n
    ensures AddedNew(t, current, n).graph.nodes == AddedNew(t, current, n).visited.Keys
    ensures RecordsOk(p.start, p.words, p.nb, p.depth, p.bound, AddedNew(t, current, n).visited)
  {
    var k := t.level + 1;
    assert RecordedOk(p.start, p.words, p.nb, p.depth, p.bound, current, t.visited[current]);
    ReachStep(p.nb, p.start, t.level, current, n);
    ReachMonotone(p.nb, p.start, k, Layers(p.depth));
    RecordsAdd(p.start, p.words, p.nb, p.depth, p.bound, t.visited, n, k);
  }

  /** Recording a new neighbour keeps the queue history, its order and the expanded set
      consistent. */
  lemma AddedNewBook(p: Params, t: Traversal, current: string, n: string)
    requires CoreOk(p, t) && t.level < p.depth
    requires n !in t.visited
    ensures HistoryOk(p.start, AddedNew(t, current, n).history, t.popped, AddedNew(t, current, n).queue,
                      AddedNew(t, current, n).visited, AddedNew(t, current, n).pos)
    ensures OrderOk(AddedNew(t, current, n).history, t.popped, t.mid, t.level)
    ensures ExpandedOk(p.depth, AddedNew(t, current, n).history, t.popped, AddedNew(t, current, n).visited,
                       AddedNew(t, current, n).pos, t.expanded)
  {
    var k := t.level + 1;
    HistoryAdd(p.start, t.history, t.popped, t.queue, t.visited, t.pos, n, k);
    OrderAdd(t.history, t.popped, t.mid, t.level, n);
    ExpandedAdd(p.depth, t.history, t.popped, t.visited, t.pos, t.expanded, n, k);
  }

  /** Recording a new neighbour keeps the invariant apart from the edges. */
  lemma AddedNewCore(p: Params, t: Traversal, current: string, n: string)
    requires CoreOk(p, t) && current in t.visited && t.visited[current] == t.level && t.level < p.depth
    requires n in p.nb(current) && n !in t.visited
    requires IsValidPhrase(n, p.words) && NormalizePhrase(n) == n
    ensures CoreOk(p, AddedNew(t, current, n))
  {
    AddedNewRecords(p, t, current, n);
    AddedNewBook(p, t, current, n);
  }

  /** In generate_graph's inner loop, a neighbour seen for the first time is recorded one
      layer deeper, enqueued and joined by an edge. */
  lemma VisitNewOk(p: Params, t: Traversal, current: string, done: set<string>, n: string)
    requires ExpandingOk(p, t, current, done)
    requires n in p.nb(current) && n !in t.visited
    requires IsValidPhrase(n, p.words) && NormalizePhrase(n) == n
    ensures ExpandingOk(p, AddedNew(t, current, n), current, done + {n})
  {
    AddedNewCore(p, t, current, n);
    EdgesAddNew(p.nb, t.visited, t.expanded, current, done, t.graph.edges, n);
  }

  /** The state after a neighbour that was already seen: an edge is added only when that
      neighbour is one layer below current. */
  function AddedSeen(t: Traversal, current: string, n: string): (r: Traversal)
    requires n in t.visited
    ensures r.visited == t.visited && r.queue == t.queue
    ensures (current, n) in r.graph.edges <==> (current, n) in t.graph.edges || t.visited[n] == t.level + 1
    ensures forall e :: e != (current, n) ==> (e in r.graph.edges <==> e in t.graph.edges)
  {
    if t.visited[n] == t.level + 1
    then t.(graph := Graph(t.graph.nodes + {current, n}, t.graph.edges + {(current, n)}))
    else t
  }

  /** In generate_graph's inner loop, a neighbour seen before gets an edge only when it lies in the next layer. */
  lemma VisitSeenOk(p: Params, t: Traversal, current: string, done: set<string>, n: string)
    requires ExpandingOk(p, t, current, done)
    requires n in p.nb(current) && n in t.visited
    ensures ExpandingOk(p, AddedSeen(t, current, n), current, done + {n})
  {
    EdgesAddSeen(p.nb, t.visited, t.expanded, current, done, t.graph.edges, n);
  }

  /** What expanding current at depth d has done so far, measured from the state t0 right
      after current was dequeued: the neighbours in done not recorded before are now recorded
      at d + 1 and appended to the queue, nothing recorded before changed, and the new edges
      run from current to the neighbours in done recorded at d + 1. */
  ghost predicate EffectOk(t0: Traversal, current: string, d: nat, done: set<string>, t: Traversal) {
    && (forall v :: v in t.visited <==> v in t0.visited || v in done)
    && (forall v :: v in t0.visited ==> t.visited[v] == t0.visited[v])
    && (forall v :: v in t.visited && v !in t0.visited ==> t.visited[v] == d + 1)
    && (forall u, v :: (u, v) in t.graph.edges <==>
          (u, v) in t0.graph.edges || (u == current && v in done && v in t.visited && t.visited[v] == d + 1))
    && |t.queue| == |t0.queue| + |t.visited.Keys| - |t0.visited.Keys|
    && t0.queue <= t.queue
    && (forall i :: |t0.queue| <= i < |t.queue| ==>
          t.queue[i].0 in t.visited && t.queue[i].0 !in t0.visited && t.queue[i].1 == d + 1)
  }

  /** Expanding only adds phrases, and each added phrase lengthens the queue by one. */
  lemma EffectGrows(t0: Traversal, current: string, d: nat, done: set<string>, t: Traversal)
    requires EffectOk(t0, current, d, done, t)
    ensures t0.visited.Keys <= t.visited.Keys
    ensures t.visited.Keys == t0.visited.Keys ==> |t.queue| == |t0.queue|
  {
  }

  lemma EffectStart(t0: Traversal, current: string, d: nat)
    ensures EffectOk(t0, current, d, {}, t0)
  {
  }

  lemma EffectNew(t0: Traversal, current: string, done: set<string>, t: Traversal, n: string)
    requires EffectOk(t0, current, t.level, done, t) && n !in t.visited
    ensures EffectOk(t0, current, t.level, done + {n}, AddedNew(t, current, n))
  {
    var t' := AddedNew(t, current, n);
    assert t'.visited.Keys == t.visited.Keys + {n};
    assert t.queue <= t'.queue;
    forall i | |t0.queue| <= i < |t'.queue|
      ensures t'.queue[i].0 in t'.visited && t'.queue[i].0 !in t0.visited && t'.queue[i].1 == t.level + 1
    {
      if i < |t.queue| { assert t'.queue[i] == t.queue[i]; }
    }
  }

  lemma EffectSeen(t0: Traversal, current: string, done: set<string>, t: Traversal, n: string)
    requires EffectOk(t0, current, t.level, done, t) && n in t.visited
    ensures EffectOk(t0, current, t.level, done + {n}, AddedSeen(t, current, n))
  {
  }

  /** Moving one element from the unhandled to the handled part keeps them a partition. */
  lemma MoveOne(all: set<string>, rest: set<string>, done: set<string>, n: string)
    requires rest + done == all && rest !! done && n in rest
    ensures n !in done
    ensures (rest - {n}) + (done + {n}) == all && (rest - {n}) !! (done + {n})
    ensures |rest - {n}| < |rest|
  {
  }

  /** The state after handling neighbour n of current (one turn of generate_graph's inner loop). */
  function Handled(t: Traversal, current: string, n: string): (r: Traversal)
    ensures n in r.visited && t.visited.Keys <= r.visited.Keys
    ensures n !in t.visited ==> r.visited[n] == t.level + 1 && r.queue == t.queue + [(n, t.level + 1)]
    ensures n in t.visited ==> r.visited == t.visited && r.queue == t.queue
    ensures (current, n) in r.graph.edges <==> (current, n) in t.graph.edges || r.visited[n] == t.level + 1
  {
    if n in t.visited then AddedSeen(t, current, n) else AddedNew(t, current, n)
  }

  /** Handling one more neighbour keeps the invariant and extends the effect of expanding
      current by that neighbour. */
  lemma HandledOk(p: Params, t0: Traversal, t: Traversal, current: string, done: set<string>, n: string)
    requires ExpandingOk(p, t, current, done) && EffectOk(t0, current, t.level, done, t)
    requires n in p.nb(current) && IsValidPhrase(n, p.words) && NormalizePhrase(n) == n
    ensures ExpandingOk(p, Handled(t, current, n), current, done + {n})
    ensures EffectOk(t0, current, t.level, done + {n}, Handled(t, current, n))
  {
    if n in t.visited {
      VisitSeenOk(p, t, current, done, n);
      EffectSeen(t0, current, done, t, n);
    } else {
      VisitNewOk(p, t, current, done, n);
      EffectNew(t0, current, done, t, n);
    }
  }

  /** The state after dequeuing: the front entry's depth becomes the level, and the boundary
      moves to the back of the queue when the front was already one layer deeper. */
  ghost function Popped(t: Traversal, depth: int): (r: Traversal)
    requires t.queue != []
    ensures r.queue == t.queue[1..] && r.visited == t.visited && r.graph == t.graph
    ensures r.level == t.queue[0].1 && r.popped == t.popped + 1
    ensures r.expanded == if t.queue[0].1 < depth then t.expanded + {t.queue[0].0} else t.expanded
  {
    var (current, d) := t.queue[0];
    t.(queue := t.queue[1..], popped := t.popped + 1, level := d,
       mid := if d == t.level then t.mid else |t.history|,
       expanded := if d < depth then t.expanded + {current} else t.expanded)
  }

  /** generate_graph's queue.popleft(): dequeuing the front entry, which has not been
      expanded before and is at the current level or one deeper; one at or past the bound
      is dropped, one below it starts being expanded. */
  lemma PopOk(p: Params, t: Traversal)
    requires ValidOk(p, t) && t.queue != []
    ensures t.queue[0].0 in t.visited && t.visited[t.queue[0].0] == t.queue[0].1
    ensures t.queue[0].0 !in t.expanded
    ensures t.queue[0].1 >= p.depth ==> ValidOk(p, Popped(t, p.depth))
    ensures t.queue[0].1 < p.depth ==> ExpandingOk(p, Popped(t, p.depth), t.queue[0].0, {})
  {
    HistoryPop(p.start, t.history, t.popped, t.queue, t.visited, t.pos);
    OrderPop(t.history, t.popped, t.mid, t.level);
    ExpandedPop(p.depth, t.history, t.popped, t.visited, t.pos, t.expanded);
    if t.queue[0].1 < p.depth {
      StartExpanding(p.nb, t.visited, t.expanded, t.graph.edges, t.queue[0].0);
    }
  }

  /** After the last neighbour of current: the invariant between dequeues holds again. */
  lemma FinishOk(p: Params, t: Traversal, current: string)
    requires ExpandingOk(p, t, current, p.nb(current))
    ensures ValidOk(p, t)
  {
    DepthsBounded(p.start, t.history, t.popped, t.mid, t.level, t.queue, t.visited, t.pos);
    FinishExpanding(p.nb, t.visited, t.expanded, current, t.graph.edges);
  }

  // ---------------------------------------------------------------------------
  // The traversal

  /** generate_graph's loop state: the FIFO queue of (phrase, depth) pairs, the depth at
      which each phrase was first seen and the graph built so far, with the ghost
      bookkeeping of Traversal alongside. */
  class GraphBuilder {
    const start: string
    const depth: int
    const words: set<string>
    ghost const nb: string -> set<string>
    ghost const bound: set<string>
    var queue: seq<(string, nat)>
    var visited: map<string, nat>
    var graph: Graph
    ghost var history: seq<(string, nat)>
    ghost var pos: map<string, nat>
    ghost var popped: nat
    ghost var mid: nat
    ghost var level: nat
    ghost var expanded: set<string>

    ghost function P(): Params
      reads this
    {
      Params(start, words, nb, depth, bound)
    }

    ghost function State(): Traversal
      reads this
    {
      Traversal(queue, visited, graph, history, pos, popped, mid, level, expanded)
    }

    /** nb is the neighbour relation of get_neighbors. */
    ghost predicate Linked()
      reads this
    {
      forall u {:trigger NeighborSet(u, words)} :: nb(u) == NeighborSet(u, words)
    }

    /** The invariant between two dequeues. */
    ghost predicate Valid()
      reads this
    {
      Linked() && ValidOk(P(), State())
    }

    /** The set-up of generate_graph: the start phrase, normalised, is the only node, at depth 0, and the
        only queue entry. */
    constructor (startPhrase: string, depth: int, words: set<string>)
      ensures Valid()
      ensures start == NormalizePhrase(startPhrase) && this.depth == depth && this.words == words
      ensures nb == NeighborsOf(words)
      ensures queue == [(start, 0)] && visited == map[start := 0] && graph == Graph({start}, {})
    {
      var s := NormalizePhrase(startPhrase);
      NormalizeIdempotent(startPhrase);
      ReachMonotone(NeighborsOf(words), s, 0, Layers(depth));
      start, this.depth, this.words := s, depth, words;
      nb := NeighborsOf(words);
      bound := Reach(NeighborsOf(words), s, Layers(depth));
      graph := Graph({s}, {});
      queue := [(s, 0)];
      visited := map[s := 0];
      history, pos, popped, mid, level, expanded := [(s, 0)], map[s := 0], 0, 1, 0, {};
    }

    /** One turn of generate_graph's inner loop: one neighbour of the phrase being expanded.
        A phrase not seen before is recorded one layer deeper, enqueued and joined by an edge;
        one already recorded exactly one layer deeper gets the edge only; one recorded
        shallower is ignored. */
    method Visit(current: string, currentDepth: nat, neighbor: string)
      requires currentDepth == level
      modifies this
      ensures State() == Handled(old(State()), current, neighbor)
      ensures expanded == old(expanded)
    {
      if neighbor !in visited {
        var k := currentDepth + 1;
        visited, queue, graph := visited[neighbor := k], queue + [(neighbor, k)],
                                 Graph(graph.nodes + {current, neighbor}, graph.edges + {(current, neighbor)});
        history, pos := history + [(neighbor, k)], pos[neighbor := |history|];
      } else if visited[neighbor] == currentDepth + 1 {
        graph := Graph(graph.nodes + {current, neighbor}, graph.edges + {(current, neighbor)});
      }
    }

    /** generate_graph's queue.popleft(): the front entry is dequeued; the depth test decides whether it is
        expanded. */
    method Dequeue() returns (current: string, d: nat)
      requires queue != []
      modifies this
      ensures (current, d) == old(queue[0])
      ensures State() == Popped(old(State()), depth)
    {
      ghost var t := State();
      current, d := queue[0].0, queue[0].1;
      queue := queue[1..];
      popped, level, mid := popped + 1, d, if d == t.level then mid else |history|;
      expanded := if d < depth then expanded + {current} else expanded;
    }

    /** generate_graph's call of get_neighbors: the neighbours of a phrase, as the relation nb. */
    method Neighbors(phrase: string) returns (neighbors: set<string>)
      requires Linked()
      ensures neighbors == nb(phrase)
      ensures forall v {:trigger IsValidPhrase(v, words)} :: v in neighbors ==>
                IsValidPhrase(v, words) && NormalizePhrase(v) == v
    {
      neighbors := GetNeighbors(phrase, words);
    }

    /** generate_graph's inner loop: every neighbour of current is handled by Visit, in an arbitrary order
        standing for the iteration order of the set. */
    method Expand(current: string, d: nat, neighbors: set<string>)
      requires Linked() && ExpandingOk(P(), State(), current, {}) && level == d && visited[current] == d
      requires neighbors == nb(current)
      modifies this
      ensures Valid()
      ensures EffectOk(old(State()), current, d, neighbors, State())
      ensures expanded == old(expanded)
    {
      ghost var t0 := State();
      EffectStart(t0, current, d);
      var rest := neighbors;
      ghost var done: set<string> := {};
      while rest != {}
        invariant Linked() && ExpandingOk(P(), State(), current, done)
        invariant rest + done == neighbors && rest !! done
        invariant level == d && visited[current] == d
        invariant EffectOk(t0, current, d, done, State())
        invariant expanded == t0.expanded
        decreases |rest|
      {
        var n :| n in rest;
        MoveOne(neighbors, rest, done, n);
        NeighborIsCanonical(current, words, n);
        HandledOk(P(), t0, State(), current, done, n);
        Visit(current, d, n);
        rest, done := rest - {n}, done + {n};
      }
      FinishOk(P(), State(), current);
    }

    /** One turn of generate_graph's traversal loop. An entry at or past the depth bound is
        dropped; any other is expanded. Either new phrases are recorded or the queue shrinks. */
    method Step()
      requires Valid() && queue != []
      modifies this
      ensures Valid()
      ensures old(visited.Keys) <= visited.Keys
      ensures visited.Keys == old(visited.Keys) ==> |queue| < |old(queue)|
      ensures old(queue[0].1) >= depth ==>
                queue == old(queue[1..]) && visited == old(visited) && graph == old(graph)
      ensures old(queue[0].1) < depth ==>
                EffectOk(Popped(old(State()), depth), old(queue[0].0), old(queue[0].1),
                         NeighborSet(old(queue[0].0), words), State())
      ensures old(queue[0].1) < depth ==>
                old(queue[0].0) !in old(expanded) && expanded == old(expanded) + {old(queue[0].0)}
      ensures old(queue[0].1) >= depth ==> expanded == old(expanded)
      ensures forall i, j :: 0 <= i < j < |queue| ==> queue[i].1 <= queue[j].1 <= queue[i].1 + 1
    {
      ghost var t := State();
      PopOk(P(), t);
      var current, d := Dequeue();
      if d < depth {
        var neighbors := Neighbors(current);
        ghost var t0 := State();
        Expand(current, d, neighbors);
        EffectGrows(t0, current, d, NeighborSet(current, words), State());
      }
      QueueLayered(start, history, popped, mid, level, queue, visited, pos);
    }
  }

  /** Every recorded phrase lies within the depth bound of the start. */
  lemma RecordedInBound(p: Params, t: Traversal)
    requires CoreOk(p, t)
    ensures t.visited.Keys <= p.bound
  {
    forall v | v in t.visited ensures v in p.bound {
      assert RecordedOk(p.start, p.words, p.nb, p.depth, p.bound, v, t.visited[v]);
    }
  }

  /** A subset is no larger than its superset, and a proper subset is smaller. */
  lemma {:induction false} SubsetSmaller(a: set<string>, b: set<string>)
    requires a <= b
    ensures |a| <= |b|
    ensures a != b ==> |a| < |b|
    decreases |b|
  {
    if b != {} {
      var x :| x in b;
      if x in a {
        SubsetSmaller(a - {x}, b - {x});
        if a != b {
          var y :| y in b && y !in a;
          assert y in b - {x} && y !in a - {x};
        }
      } else {
        SubsetSmaller(a, b - {x});
      }
    }
  }

  /** Recording more phrases inside a finite bound leaves fewer of it unrecorded. */
  lemma FewerLeft(bound: set<string>, before: set<string>, after: set<string>)
    requires before <= after <= bound
    ensures |bound - after| <= |bound - before|
    ensures before != after ==> |bound - after| < |bound - before|
  {
    SubsetSmaller(bound - after, bound - before);
    if before != after {
      var n :| n in after && n !in before;
      assert n in bound - before && n !in bound - after;
    }
  }

  /** The queue history lists every phrase at most once: nothing is enqueued twice. */
  lemma HistoryDistinct(start: string, history: seq<(string, nat)>, popped: nat,
                        queue: seq<(string, nat)>, visited: map<string, nat>, pos: map<string, nat>)
    requires HistoryOk(start, history, popped, queue, visited, pos)
    ensures forall i, j :: 0 <= i < j < |history| ==> history[i].0 != history[j].0
    ensures forall v :: v in visited <==> exists i :: 0 <= i < |history| && history[i].0 == v
  {
    forall v | v in visited ensures exists i :: 0 <= i < |history| && history[i].0 == v {
      assert history[pos[v]].0 == v;
    }
  }

  /** Entries with distinct phrases name as many phrases as there are entries. */
  lemma {:induction false} DistinctCount(order: seq<(string, nat)>)
    requires forall i, j :: 0 <= i < j < |order| ==> order[i].0 != order[j].0
    ensures |set i | 0 <= i < |order| :: order[i].0| == |order|
  {
    if order != [] {
      var rest := order[..|order| - 1];
      DistinctCount(rest);
      var last := order[|order| - 1].0;
      assert (set i | 0 <= i < |order| :: order[i].0) == (set i | 0 <= i < |rest| :: rest[i].0) + {last};
      assert last !in (set i | 0 <= i < |rest| :: rest[i].0);
    }
  }

  /** The traversal once the queue is empty: the graph's nodes are the recorded phrases,
      exactly those within the depth bound of the start, each at its distance from it and
      valid unless it is the start; the edges are exactly the layer edges out of the phrases
      below the bound; every phrase was enqueued once and exactly those below the bound were
      expanded. */
  lemma {:induction false} Result(p: Params, t: Traversal)
    requires ValidOk(p, t) && t.queue == [] && p.nb == NeighborsOf(p.words)
    ensures t.graph.nodes == t.visited.Keys
    ensures p.start in t.visited && t.visited[p.start] == 0
    ensures forall v :: v in t.visited && v != p.start ==>
              IsValidPhrase(v, p.words) && NormalizePhrase(v) == v && 0 < t.visited[v] <= Layers(p.depth)
    ensures forall u, v :: (u, v) in t.graph.edges <==>
              u in t.visited && t.visited[u] < p.depth && v in NeighborSet(u, p.words) &&
              v in t.visited && t.visited[v] == t.visited[u] + 1
    ensures t.visited.Keys == Reach(p.nb, p.start, Layers(p.depth))
    ensures forall v, k :: v in t.visited && k < t.visited[v] ==> v !in Reach(p.nb, p.start, k)
    ensures forall v :: v in t.visited ==> v in Reach(p.nb, p.start, t.visited[v])
    ensures |t.history| == |t.visited| && t.history[0] == (p.start, 0)
    ensures forall i :: 0 <= i < |t.history| ==>
              t.history[i].0 in t.visited && t.visited[t.history[i].0] == t.history[i].1
    ensures forall i, j :: 0 <= i < j < |t.history| ==> t.history[i].0 != t.history[j].0
    ensures forall v :: v in t.expanded <==> v in t.visited && t.visited[v] < p.depth
    ensures forall e :: e in t.graph.edges ==> e.0 in t.visited && t.visited[e.0] < p.depth
  {
    Finished(p.start, p.words, p.nb, p.depth, p.bound, t.visited, t.history, t.popped, t.mid, t.level,
             t.pos, t.expanded, t.graph.edges);
    HistoryDistinct(p.start, t.history, t.popped, t.queue, t.visited, t.pos);
    forall v | v in t.visited ensures v in Reach(p.nb, p.start, t.visited[v]) {
      assert RecordedOk(p.start, p.words, p.nb, p.depth, p.bound, v, t.visited[v]);
    }
    forall v | v in t.visited && v != p.start
      ensures IsValidPhrase(v, p.words) && NormalizePhrase(v) == v && 0 < t.visited[v] <= Layers(p.depth)
    {
      assert RecordedOk(p.start, p.words, p.nb, p.depth, p.bound, v, t.visited[v]);
    }
    assert t.visited.Keys == set i | 0 <= i < |t.history| :: t.history[i].0;
    DistinctCount(t.history);
    forall e | e in t.graph.edges ensures e.0 in t.visited && t.visited[e.0] < p.depth {
      assert (e.0, e.1) in t.graph.edges;
    }
  }

  /** With a depth bound of 0 or below the graph is the start alone. */
  lemma ShallowResult(p: Params, t: Traversal)
    requires ValidOk(p, t) && t.queue == [] && p.nb == NeighborsOf(p.words) && p.depth <= 0
    ensures t.graph == Graph({p.start}, {})
  {
    Result(p, t);
    assert t.visited.Keys == {p.start};
    assert t.graph.edges == {};
  }

  /** With an empty dictionary the graph is the start alone, whatever the depth bound. */
  lemma IsolatedResult(p: Params, t: Traversal)
    requires ValidOk(p, t) && t.queue == [] && p.nb == NeighborsOf(p.words) && p.words == {}
    ensures t.graph == Graph({p.start}, {})
  {
    Result(p, t);
    NoWordsNoNeighbors(p.start);
    ReachIsolated(p.nb, p.start, Layers(p.depth));
    assert t.graph.edges == {};
  }

  /** generate_graph, with the dictionary passed in. Besides the graph it
      returns the depth map, and as ghost results every (phrase, depth) entry ever enqueued,
      in order, and the phrases that were expanded. */
  method GenerateGraph(startPhrase: string, depth: int, words: set<string>)
    returns (graph: Graph, visited: map<string, nat>, ghost order: seq<(string, nat)>, ghost expanded: set<string>)
    ensures graph.nodes == visited.Keys
    ensures NormalizePhrase(startPhrase) in visited && visited[NormalizePhrase(startPhrase)] == 0
    ensures forall v :: v in visited && v != NormalizePhrase(startPhrase) ==>
              IsValidPhrase(v, words) && NormalizePhrase(v) == v && 0 < visited[v] <= Layers(depth)
    ensures forall u, v :: (u, v) in graph.edges <==>
              u in visited && visited[u] < depth && v in NeighborSet(u, words) &&
              v in visited && visited[v] == visited[u] + 1
    ensures visited.Keys == Reach(NeighborsOf(words), NormalizePhrase(startPhrase), Layers(depth))
    ensures forall v, k :: v in visited && k < visited[v] ==>
              v !in Reach(NeighborsOf(words), NormalizePhrase(startPhrase), k)
    ensures forall v :: v in visited ==>
              v in Reach(NeighborsOf(words), NormalizePhrase(startPhrase), visited[v])
    ensures |order| == |visited| && order[0] == (NormalizePhrase(startPhrase), 0)
    ensures forall i :: 0 <= i < |order| ==> order[i].0 in visited && visited[order[i].0] == order[i].1
    ensures forall i, j :: 0 <= i < j < |order| ==> order[i].0 != order[j].0
    ensures forall v :: v in expanded <==> v in visited && visited[v] < depth
    ensures depth <= 0 ==> graph == Graph({NormalizePhrase(startPhrase)}, {})
    ensures words == {} ==> graph == Graph({NormalizePhrase(startPhrase)}, {})
  {
    var b := new GraphBuilder(startPhrase, depth, words);
    while b.queue != []
      invariant b.Valid()
      invariant b.start == NormalizePhrase(startPhrase) && b.depth == depth && b.words == words
      invariant b.nb == NeighborsOf(words)
      decreases |b.bound - b.visited.Keys|, |b.queue|
    {
      ghost var before := b.visited.Keys;
      RecordedInBound(b.P(), b.State());
      b.Step();
      RecordedInBound(b.P(), b.State());
      FewerLeft(b.bound, before, b.visited.Keys);
    }
    Result(b.P(), b.State());
    if depth <= 0 {
      ShallowResult(b.P(), b.State());
    }
    if words == {} {
      IsolatedResult(b.P(), b.State());
    }
    graph, visited, order, expanded := b.graph, b.visited, b.history, b.expanded;
  }

  /** What generate_graph promises at depth 1, read for one start s: s and its neighbours
      are the nodes, and the edges go from s to each neighbour. */
  lemma OneLayer(s: string, nb: string -> set<string>, graph: Graph, visited: map<string, nat>)
    requires graph.nodes == visited.Keys && visited.Keys == {s} + nb(s) && s !in nb(s)
    requires visited[s] == 0 && forall v :: v in visited && v != s ==> 0 < visited[v] <= 1
    requires forall u, v :: (u, v) in graph.edges <==>
               u in visited && visited[u] < 1 && v in nb(u) &&
               v in visited && visited[v] == visited[u] + 1
    ensures graph.nodes == {s} + nb(s)
    ensures forall u, v :: (u, v) in graph.edges <==> u == s && v in nb(s)
  {
    forall u, v | (u, v) in graph.edges ensures u == s && v in nb(s) {
      assert visited[u] == 0;
    }
    forall v | v in nb(s) ensures (s, v) in graph.edges {
      assert v in visited && v != s;
    }
  }

  /** generate_graph at depth 1: the start and its neighbours are the nodes, and the edges
      go from the start to each neighbour. */
  method OneLayerGraph(startPhrase: string, words: set<string>) returns (graph: Graph)
    ensures graph.nodes == {NormalizePhrase(startPhrase)} + NeighborsOf(words)(NormalizePhrase(startPhrase))
    ensures forall u, v :: (u, v) in graph.edges <==>
              u == NormalizePhrase(startPhrase) && v in NeighborsOf(words)(NormalizePhrase(startPhrase))
  {
    var visited: map<string, nat>;
    ghost var order: seq<(string, nat)>, expanded: set<string>;
    graph, visited, order, expanded := GenerateGraph(startPhrase, 1, words);
    ghost var s := NormalizePhrase(startPhrase);
    ghost var nb := NeighborsOf(words);
    ReachOne(nb, s);
    OneLayer(s, nb, graph, visited);
  }

  /** When only the start is recorded, no edge can join two recorded phrases one layer
      apart. */
  lemma SingleNode(s: string, depth: int, words: set<string>, graph: Graph, visited: map<string, nat>)
    requires graph.nodes == visited.Keys && visited.Keys == {s}
    requires forall u, v :: (u, v) in graph.edges <==>
               u in visited && visited[u] < depth && v in NeighborSet(u, words) &&
               v in visited && visited[v] == visited[u] + 1
    ensures graph == Graph({s}, {})
  {
    assert forall e :: e in graph.edges ==> e.0 in visited && e.1 in visited && visited[e.1] == visited[e.0] + 1;
  }

  /** generate_graph from a phrase without neighbours, at any depth: that phrase alone. */
  method IsolatedGraph(startPhrase: string, depth: int, words: set<string>) returns (graph: Graph)
    requires NeighborSet(NormalizePhrase(startPhrase), words) == {}
    ensures graph == Graph({NormalizePhrase(startPhrase)}, {})
  {
    var visited: map<string, nat>;
    ghost var order: seq<(string, nat)>, expanded: set<string>;
    graph, visited, order, expanded := GenerateGraph(startPhrase, depth, words);
    ReachIsolated(NeighborsOf(words), NormalizePhrase(startPhrase), Layers(depth));
    SingleNode(NormalizePhrase(startPhrase), depth, words, graph, visited);
  }
}
