/** `buscarCaminho`: breadth-first search over the station graph. The
    search keeps a FIFO queue of partial paths (`fila`) and the set of
    expanded stations (`visitados`); it returns the first dequeued path that
    ends at the destination, or nothing when the queue runs dry.

    The proof keeps a ghost map `level` from each expanded station to the
    length of the path with which it was expanded. */
module RouteFinder {
  import opened Common
  import opened Stations

  function Last(p: seq<string>): string
    requires |p| > 0
  {
    p[|p| - 1]
  }

  // ---------------------------------------------------------------------
  // The facts the search keeps
  // ---------------------------------------------------------------------

  /** A partial path in the queue: it leaves `origin`, follows hops, repeats
      no station, and every station but its last has been expanded. */
  ghost predicate WellFormed(stations: seq<Station>, origin: string, visited: set<string>, p: seq<string>) {
    && |p| >= 1
    && p[0] == origin
    && Linked(stations, p)
    && NoRepeats(p)
    && forall i :: 0 <= i < |p| - 1 ==> p[i] in visited
  }

  /** Every queued path is well formed and ends inside `universe`. */
  ghost predicate QueueOk(stations: seq<Station>, origin: string, visited: set<string>, universe: set<string>,
                          queue: seq<seq<string>>) {
    forall i :: 0 <= i < |queue| ==>
      WellFormed(stations, origin, visited, queue[i]) && Last(queue[i]) in universe
  }

  /** The FIFO discipline: queued paths are ordered by length and the
      longest is at most one hop longer than the shortest. */
  ghost predicate Layered(queue: seq<seq<string>>) {
    forall i, j :: 0 <= i <= j < |queue| ==> |queue[i]| <= |queue[j]| <= |queue[i]| + 1
  }

  /** Some queued path of at most `bound` stations ends at `y`. */
  ghost predicate Pending(queue: seq<seq<string>>, y: string, bound: int) {
    exists k :: 0 <= k < |queue| && 0 < |queue[k]| <= bound && Last(queue[k]) == y
  }

  /** Each `y` in `ys` is either expanded at most one level after `x`, or
      not yet expanded but waiting in the queue at the end of a path at most
      one station longer than the one that expanded `x`. */
  ghost predicate CoveredFrom(queue: seq<seq<string>>, level: map<string, nat>, x: string, ys: seq<string>) {
    x in level &&
    forall y :: y in ys ==>
      (y in level && level[y] <= level[x] + 1) || (y !in level && Pending(queue, y, level[x] + 1))
  }

  /** Every hop leaving an expanded station is accounted for. */
  ghost predicate Covered(stations: seq<Station>, queue: seq<seq<string>>, level: map<string, nat>) {
    forall x :: x in level ==> CoveredFrom(queue, level, x, Neighbors(stations, x))
  }

  /** The state of the `while` loop. `universe` bounds the stations that
      can ever be expanded. */
  ghost predicate SearchState(stations: seq<Station>, origin: string, dest: string, universe: set<string>,
                              queue: seq<seq<string>>, visited: set<string>, level: map<string, nat>) {
    && visited == level.Keys
    && visited <= universe
    && NeighborIds(stations) <= universe
    && dest !in visited
    && (origin !in visited ==> queue == [[origin]])
    && (origin in visited ==> level[origin] == 1)
    && Layered(queue)
    && QueueOk(stations, origin, visited, universe, queue)
    && (|queue| > 0 ==> forall x :: x in level ==> level[x] <= |queue[0]|)
    && Covered(stations, queue, level)
  }

  /** Queued lengths while the neighbours of the station reached by `path`
      are enqueued: sorted, and between `|path|` and `|path| + 1`. */
  ghost predicate Lengths(path: seq<string>, queue: seq<seq<string>>) {
    && (forall i, j :: 0 <= i <= j < |queue| ==> |queue[i]| <= |queue[j]|)
    && (forall i :: 0 <= i < |queue| ==> |path| <= |queue[i]| <= |path| + 1)
  }

  /** The state of the `for` loop over the neighbours of `path`'s last
      station after `k` of them. */
  ghost predicate EnqueueState(stations: seq<Station>, origin: string, visited: set<string>, universe: set<string>,
                               level: map<string, nat>, path: seq<string>, queue: seq<seq<string>>, k: nat) {
    && |path| > 0
    && WellFormed(stations, origin, visited, path)
    && visited == level.Keys
    && Last(path) in visited
    && level[Last(path)] == |path|
    && (forall x :: x in level ==> level[x] <= |path|)
    && NeighborIds(stations) <= universe
    && k <= |Neighbors(stations, Last(path))|
    && Lengths(path, queue)
    && QueueOk(stations, origin, visited, universe, queue)
    && (forall x :: x in level && x != Last(path) ==> CoveredFrom(queue, level, x, Neighbors(stations, x)))
    && CoveredFrom(queue, level, Last(path), Neighbors(stations, Last(path))[..k])
  }

  /** The queue after all neighbours of `path`'s last station have been
      considered. */
  ghost predicate Enqueued(stations: seq<Station>, origin: string, visited: set<string>, universe: set<string>,
                           level: map<string, nat>, path: seq<string>, queue: seq<seq<string>>) {
    && (forall i :: 0 <= i < |queue| ==> |path| <= |queue[i]|)
    && Layered(queue)
    && QueueOk(stations, origin, visited, universe, queue)
    && Covered(stations, queue, level)
  }

  // ---------------------------------------------------------------------
  // Dequeuing
  // ---------------------------------------------------------------------

  /** Dequeuing, and expanding more stations, keeps the rest of the queue
      well formed. */
  lemma DequeueKeepsQueueOk(stations: seq<Station>, origin: string, visited: set<string>, visited': set<string>,
                            universe: set<string>, queue: seq<seq<string>>)
    requires |queue| > 0 && visited <= visited'
    requires QueueOk(stations, origin, visited, universe, queue)
    ensures QueueOk(stations, origin, visited', universe, queue[1..])
  {
    forall i | 0 <= i < |queue| - 1
      ensures WellFormed(stations, origin, visited', queue[1..][i])
    {
      assert queue[1..][i] == queue[i + 1];
      assert WellFormed(stations, origin, visited, queue[i + 1]);
    }
  }

  /** Dequeuing a path that does not end at `y` keeps `y` pending. */
  lemma DequeueKeepsPending(queue: seq<seq<string>>, y: string, bound: int)
    requires |queue| > 0 && |queue[0]| > 0 && Last(queue[0]) != y
    requires Pending(queue, y, bound)
    ensures Pending(queue[1..], y, bound)
  {
    var k :| 0 <= k < |queue| && 0 < |queue[k]| <= bound && Last(queue[k]) == y;
    assert queue[1..][k - 1] == queue[k];
  }

  /** Dequeuing a path that ends at an expanded station loses no pending
      neighbour of `x`: a pending neighbour is unexpanded, so its witness
      path is another one. */
  lemma DequeueKeepsCoveredFrom(queue: seq<seq<string>>, level: map<string, nat>, x: string, ys: seq<string>)
    requires |queue| > 0 && |queue[0]| > 0 && Last(queue[0]) in level
    requires CoveredFrom(queue, level, x, ys)
    ensures CoveredFrom(queue[1..], level, x, ys)
  {
    forall y | y in ys && y !in level
      ensures Pending(queue[1..], y, level[x] + 1)
    {
      DequeueKeepsPending(queue, y, level[x] + 1);
    }
  }

  lemma DequeueKeepsCovered(stations: seq<Station>, queue: seq<seq<string>>, level: map<string, nat>)
    requires |queue| > 0 && |queue[0]| > 0 && Last(queue[0]) in level
    requires Covered(stations, queue, level)
    ensures Covered(stations, queue[1..], level)
  {
    forall x | x in level
      ensures CoveredFrom(queue[1..], level, x, Neighbors(stations, x))
    {
      DequeueKeepsCoveredFrom(queue, level, x, Neighbors(stations, x));
    }
  }

  /** Dequeuing the shortest queued path and expanding its last station `a`
      keeps the neighbours of an earlier expanded `x` accounted for: a hop
      into `a` is now expanded at the dequeued length, which is no more
      than the length of the path that was pending for it. */
  lemma ExpandKeepsCoveredFrom(queue: seq<seq<string>>, level: map<string, nat>, a: string, x: string, ys: seq<string>)
    requires |queue| > 0 && |queue[0]| > 0 && Last(queue[0]) == a && a !in level
    requires forall k :: 0 <= k < |queue| ==> |queue[0]| <= |queue[k]|
    requires CoveredFrom(queue, level, x, ys)
    ensures CoveredFrom(queue[1..], level[a := |queue[0]|], x, ys)
  {
    var level' := level[a := |queue[0]|];
    forall y | y in ys
      ensures (y in level' && level'[y] <= level'[x] + 1) || (y !in level' && Pending(queue[1..], y, level'[x] + 1))
    {
      if y !in level {
        if y != a {
          DequeueKeepsPending(queue, y, level[x] + 1);
        } else {
          var k :| 0 <= k < |queue| && 0 < |queue[k]| <= level[x] + 1 && Last(queue[k]) == y;
          assert |queue[0]| <= |queue[k]|;
        }
      }
    }
  }

  lemma ExpandKeepsCovered(stations: seq<Station>, queue: seq<seq<string>>, level: map<string, nat>, a: string)
    requires |queue| > 0 && |queue[0]| > 0 && Last(queue[0]) == a && a !in level
    requires Layered(queue)
    requires Covered(stations, queue, level)
    ensures forall x :: x in level[a := |queue[0]|] && x != a ==>
      CoveredFrom(queue[1..], level[a := |queue[0]|], x, Neighbors(stations, x))
  {
    assert forall k :: 0 <= k < |queue| ==> |queue[0]| <= |queue[k]|;
    forall x | x in level[a := |queue[0]|] && x != a
      ensures CoveredFrom(queue[1..], level[a := |queue[0]|], x, Neighbors(stations, x))
    {
      ExpandKeepsCoveredFrom(queue, level, a, x, Neighbors(stations, x));
    }
  }

  /** The rest of a layered queue is layered, and its front is no shorter
      than the dequeued path. */
  lemma DequeueKeepsLayered(queue: seq<seq<string>>)
    requires |queue| > 0 && Layered(queue)
    ensures Layered(queue[1..])
    ensures Lengths(queue[0], queue[1..])
  {
    forall i, j | 0 <= i <= j < |queue| - 1
      ensures |queue[1..][i]| <= |queue[1..][j]| <= |queue[1..][i]| + 1
    {
      assert queue[1..][i] == queue[i + 1] && queue[1..][j] == queue[j + 1];
    }
    forall i | 0 <= i < |queue| - 1
      ensures |queue[0]| <= |queue[1..][i]| <= |queue[0]| + 1
    {
      assert queue[1..][i] == queue[i + 1];
    }
  }

  /** Expanding one more station of `universe` leaves fewer to expand. */
  lemma FewerUnvisited(universe: set<string>, visited: set<string>, a: string)
    requires a in universe && a !in visited
    ensures |universe - (visited + {a})| < |universe - visited|
  {
    assert universe - visited == (universe - (visited + {a})) + {a};
  }

  // ---------------------------------------------------------------------
  // Enqueuing
  // ---------------------------------------------------------------------

  /** Appending a path to the queue keeps every pending station pending. */
  lemma EnqueueKeeps(queue: seq<seq<string>>, level: map<string, nat>, x: string, ys: seq<string>, p: seq<string>)
    requires CoveredFrom(queue, level, x, ys)
    ensures CoveredFrom(queue + [p], level, x, ys)
  {
    forall y | y in ys && y !in level
      ensures Pending(queue + [p], y, level[x] + 1)
    {
      var k :| 0 <= k < |queue| && 0 < |queue[k]| <= level[x] + 1 && Last(queue[k]) == y;
      assert (queue + [p])[k] == queue[k];
    }
  }

  /** Extending a queued path by an unexpanded neighbour of its (expanded)
      last station gives a queued path again. */
  lemma ExtendWellFormed(stations: seq<Station>, origin: string, visited: set<string>, path: seq<string>, next: string)
    requires WellFormed(stations, origin, visited, path)
    requires Last(path) in visited
    requires next in Neighbors(stations, Last(path)) && next !in visited
    ensures WellFormed(stations, origin, visited, path + [next])
  {
    var p := path + [next];
    assert forall i :: 0 <= i < |path| ==> p[i] == path[i] && path[i] in visited;
  }

  /** Appending a well-formed path that ends inside `universe` keeps the
      queue well formed. */
  lemma EnqueueKeepsQueueOk(stations: seq<Station>, origin: string, visited: set<string>, universe: set<string>,
                            queue: seq<seq<string>>, p: seq<string>)
    requires QueueOk(stations, origin, visited, universe, queue)
    requires WellFormed(stations, origin, visited, p) && Last(p) in universe
    ensures QueueOk(stations, origin, visited, universe, queue + [p])
  {
    forall i | 0 <= i < |queue| + 1
      ensures WellFormed(stations, origin, visited, (queue + [p])[i]) && Last((queue + [p])[i]) in universe
    {
      if i < |queue| {
        assert (queue + [p])[i] == queue[i];
      }
    }
  }

  /** Appending a path one station longer than `path` keeps the lengths
      sorted and within one hop of `path`. Dafny proves it from the
      definitions; it is stated on its own to keep the caller's proof
      obligation small. */
  lemma EnqueueKeepsLengths(path: seq<string>, queue: seq<seq<string>>, p: seq<string>)
    requires Lengths(path, queue) && |p| == |path| + 1
    ensures Lengths(path, queue + [p])
  {
  }

  /** After appending a path ending at the `k`-th neighbour of `current`,
      one station longer than the path that expanded `current`, the first
      `k + 1` neighbours are accounted for. */
  lemma EnqueueCovers(level: map<string, nat>, current: string, neighbors: seq<string>,
                      queue: seq<seq<string>>, extended: seq<string>, k: nat)
    requires k < |neighbors| && neighbors[k] !in level
    requires current in level && |extended| == level[current] + 1 && Last(extended) == neighbors[k]
    requires CoveredFrom(queue, level, current, neighbors[..k])
    ensures CoveredFrom(queue + [extended], level, current, neighbors[..k + 1])
  {
    assert neighbors[..k + 1] == neighbors[..k] + [neighbors[k]];
    EnqueueKeeps(queue, level, current, neighbors[..k], extended);
    assert (queue + [extended])[|queue|] == extended;
    assert Pending(queue + [extended], neighbors[k], level[current] + 1);
  }

  /** Appending the path extended by an unexpanded neighbour keeps the loop
      state. */
  lemma EnqueueStep(stations: seq<Station>, origin: string, visited: set<string>, universe: set<string>,
                    level: map<string, nat>, path: seq<string>, queue: seq<seq<string>>, k: nat)
    requires EnqueueState(stations, origin, visited, universe, level, path, queue, k)
    requires k < |Neighbors(stations, Last(path))|
    requires Neighbors(stations, Last(path))[k] !in visited
    ensures EnqueueState(stations, origin, visited, universe, level, path,
                         queue + [path + [Neighbors(stations, Last(path))[k]]], k + 1)
  {
    var current := Last(path);
    var neighbors := Neighbors(stations, current);
    var next := neighbors[k];
    var extended := path + [next];
    EnqueueCovers(level, current, neighbors, queue, extended, k);
    forall x | x in level && x != current
      ensures CoveredFrom(queue + [extended], level, x, Neighbors(stations, x))
    {
      EnqueueKeeps(queue, level, x, Neighbors(stations, x), extended);
    }
    ExtendWellFormed(stations, origin, visited, path, next);
    EnqueueKeepsQueueOk(stations, origin, visited, universe, queue, extended);
    EnqueueKeepsLengths(path, queue, extended);
  }

  /** Skipping an already expanded neighbour keeps the loop state. */
  lemma SkipStep(stations: seq<Station>, origin: string, visited: set<string>, universe: set<string>,
                 level: map<string, nat>, path: seq<string>, queue: seq<seq<string>>, k: nat)
    requires EnqueueState(stations, origin, visited, universe, level, path, queue, k)
    requires k < |Neighbors(stations, Last(path))|
    requires Neighbors(stations, Last(path))[k] in visited
    ensures EnqueueState(stations, origin, visited, universe, level, path, queue, k + 1)
  {
    var neighbors := Neighbors(stations, Last(path));
    assert neighbors[..k + 1] == neighbors[..k] + [neighbors[k]];
  }

  /** After the last neighbour the queue is layered and every hop leaving
      an expanded station is accounted for. */
  lemma EnqueueDone(stations: seq<Station>, origin: string, visited: set<string>, universe: set<string>,
                    level: map<string, nat>, path: seq<string>, queue: seq<seq<string>>)
    requires |path| > 0
    requires EnqueueState(stations, origin, visited, universe, level, path, queue,
                          |Neighbors(stations, Last(path))|)
    ensures Enqueued(stations, origin, visited, universe, level, path, queue)
  {
    var neighbors := Neighbors(stations, Last(path));
    assert neighbors[..|neighbors|] == neighbors;
  }

  /** The paths the neighbour loop pushes, in order: `path` extended by each
      station of `ns` that is not expanded yet. Only such one-hop extensions
      are pushed. */
  function Extensions(path: seq<string>, ns: seq<string>, visited: set<string>): (r: seq<seq<string>>)
    ensures |r| <= |ns|
    ensures forall i :: 0 <= i < |r| ==>
      |r[i]| == |path| + 1 && r[i][..|path|] == path && r[i][|path|] in ns && r[i][|path|] !in visited
  {
    if |ns| == 0 then []
    else
      var n := ns[|ns| - 1];
      var front := Extensions(path, ns[..|ns| - 1], visited);
      assert forall i :: 0 <= i < |front| ==> front[i][|path|] in ns;
      if n in visited then front
      else
        assert (path + [n])[..|path|] == path;
        front + [path + [n]]
  }

  /** Conversely, every neighbour not expanded yet gets its extension
      pushed. */
  lemma {:induction false} ExtensionsComplete(path: seq<string>, ns: seq<string>, visited: set<string>, n: string)
    requires n in ns && n !in visited
    ensures path + [n] in Extensions(path, ns, visited)
  {
    var init := ns[..|ns| - 1];
    if ns[|ns| - 1] != n {
      assert ns == init + [ns[|ns| - 1]];
      assert n in init;
      ExtensionsComplete(path, init, visited, n);
    }
  }

  /** One more neighbour considered: its extension is pushed after the
      earlier ones, or nothing is pushed when it is already expanded. */
  lemma ExtensionsStep(path: seq<string>, ns: seq<string>, visited: set<string>, k: nat)
    requires k < |ns|
    ensures Extensions(path, ns[..k + 1], visited) ==
      Extensions(path, ns[..k], visited) + (if ns[k] in visited then [] else [path + [ns[k]]])
  {
    assert ns[..k + 1][..k] == ns[..k];
  }

  /** The `for` loop over `vizinhos` of the station just expanded (the last
      of `path`): each neighbour not yet expanded gets the path extended by
      it appended to the queue, in neighbour-list order. */
  method EnqueueNeighbors(stations: seq<Station>, origin: string, path: seq<string>, visited: set<string>,
                          queue: seq<seq<string>>, ghost level: map<string, nat>, ghost universe: set<string>)
    returns (queue': seq<seq<string>>)
    requires EnqueueState(stations, origin, visited, universe, level, path, queue, 0)
    ensures queue' == queue + Extensions(path, Neighbors(stations, Last(path)), visited)
    ensures Enqueued(stations, origin, visited, universe, level, path, queue')
  {
    var neighbors := Neighbors(stations, Last(path));
    queue' := queue;
    var k := 0;
    while k < |neighbors|
      invariant k <= |neighbors|
      invariant queue' == queue + Extensions(path, neighbors[..k], visited)
      invariant EnqueueState(stations, origin, visited, universe, level, path, queue', k)
    {
      ExtensionsStep(path, neighbors, visited, k);
      if neighbors[k] !in visited {
        EnqueueStep(stations, origin, visited, universe, level, path, queue', k);
        queue' := queue' + [path + [neighbors[k]]];
      } else {
        SkipStep(stations, origin, visited, universe, level, path, queue', k);
      }
      k := k + 1;
    }
    assert neighbors[..k] == neighbors;
    EnqueueDone(stations, origin, visited, universe, level, path, queue');
  }

  // ---------------------------------------------------------------------
  // The turns of the `while` loop
  // ---------------------------------------------------------------------

  lemma SearchStart(stations: seq<Station>, origin: string, dest: string)
    ensures SearchState(stations, origin, dest, {origin} + NeighborIds(stations), [[origin]], {}, map[])
  {
    assert Linked(stations, [origin]);
  }

  /** Dequeuing a path whose last station is already expanded keeps the
      search state. */
  lemma DequeueSkip(stations: seq<Station>, origin: string, dest: string, universe: set<string>,
                    queue: seq<seq<string>>, visited: set<string>, level: map<string, nat>)
    requires SearchState(stations, origin, dest, universe, queue, visited, level)
    requires |queue| > 0 && |queue[0]| > 0 && Last(queue[0]) in visited
    ensures SearchState(stations, origin, dest, universe, queue[1..], visited, level)
  {
    DequeueKeepsCovered(stations, queue, level);
    DequeueKeepsQueueOk(stations, origin, visited, visited, universe, queue);
    DequeueKeepsLayered(queue);
  }

  /** Expanding more stations keeps a queued path well formed.
      Dafny proves it from the definitions; it is stated
      on its own to keep the caller's proof obligation small. */
  lemma WellFormedGrows(stations: seq<Station>, origin: string, visited: set<string>, visited': set<string>,
                        p: seq<string>)
    requires visited <= visited'
    requires WellFormed(stations, origin, visited, p)
    ensures WellFormed(stations, origin, visited', p)
  {
  }

  /** Expanding a station at the current front length keeps every level at
      most that length. Dafny proves it from the definitions; it is stated
      on its own to keep the caller's proof obligation small. */
  lemma LevelBound(level: map<string, nat>, level': map<string, nat>, a: string, n: nat)
    requires level' == level[a := n]
    requires forall x :: x in level ==> level[x] <= n
    ensures forall x :: x in level' ==> level'[x] <= n
  {
  }

  /** The neighbour loop for the station reached by `path` starts with
      nothing of its own accounted for yet. */
  lemma StartEnqueue(stations: seq<Station>, origin: string, visited: set<string>, universe: set<string>,
                     level: map<string, nat>, path: seq<string>, queue: seq<seq<string>>)
    requires |path| > 0 && WellFormed(stations, origin, visited, path)
    requires visited == level.Keys && Last(path) in visited && level[Last(path)] == |path|
    requires forall x :: x in level ==> level[x] <= |path|
    requires NeighborIds(stations) <= universe
    requires Lengths(path, queue)
    requires QueueOk(stations, origin, visited, universe, queue)
    requires forall x :: x in level && x != Last(path) ==> CoveredFrom(queue, level, x, Neighbors(stations, x))
    ensures EnqueueState(stations, origin, visited, universe, level, path, queue, 0)
  {
    assert Neighbors(stations, Last(path))[..0] == [];
  }

  /** Dequeuing a path whose last station `a` is not yet expanded, and is not
      the destination: `a` is one more station of `universe` to expand, and
      the dequeued path is well formed once `a` is expanded. */
  lemma DequeueExpand(stations: seq<Station>, origin: string, dest: string, universe: set<string>,
                      queue: seq<seq<string>>, visited: set<string>, level: map<string, nat>,
                      level': map<string, nat>)
    requires SearchState(stations, origin, dest, universe, queue, visited, level)
    requires |queue| > 0 && |queue[0]| > 0 && Last(queue[0]) !in visited
    requires level' == level[Last(queue[0]) := |queue[0]|]
    ensures Last(queue[0]) in universe
    ensures |universe - (visited + {Last(queue[0])})| < |universe - visited|
    ensures WellFormed(stations, origin, visited + {Last(queue[0])}, queue[0])
    ensures visited + {Last(queue[0])} == level'.Keys && level'[Last(queue[0])] == |queue[0]|
    ensures forall x :: x in level' ==> level'[x] <= |queue[0]|
  {
    var a := Last(queue[0]);
    assert WellFormed(stations, origin, visited, queue[0]) && a in universe;
    WellFormedGrows(stations, origin, visited, visited + {a}, queue[0]);
    FewerUnvisited(universe, visited, a);
    LevelBound(level, level', a, |queue[0]|);
  }

  /** The rest of the queue, after dequeuing a path to an unexpanded `a`, is
      well formed with `a` expanded, and its lengths are those of the neighbour
      loop for `a`. */
  lemma DequeueExpandQueue(stations: seq<Station>, origin: string, dest: string, universe: set<string>,
                           queue: seq<seq<string>>, visited: set<string>, level: map<string, nat>)
    requires SearchState(stations, origin, dest, universe, queue, visited, level)
    requires |queue| > 0 && |queue[0]| > 0 && Last(queue[0]) !in visited
    ensures Lengths(queue[0], queue[1..])
    ensures QueueOk(stations, origin, visited + {Last(queue[0])}, universe, queue[1..])
  {
    DequeueKeepsQueueOk(stations, origin, visited, visited + {Last(queue[0])}, universe, queue);
    DequeueKeepsLayered(queue);
  }

  /** After dequeuing a path to an unexpanded `a` and expanding `a`, every
      hop leaving another expanded station is accounted for. */
  lemma DequeueExpandCovered(stations: seq<Station>, origin: string, dest: string, universe: set<string>,
                             queue: seq<seq<string>>, visited: set<string>, level: map<string, nat>,
                             level': map<string, nat>)
    requires SearchState(stations, origin, dest, universe, queue, visited, level)
    requires |queue| > 0 && |queue[0]| > 0 && Last(queue[0]) !in visited
    requires level' == level[Last(queue[0]) := |queue[0]|]
    ensures forall x :: x in level' && x != Last(queue[0]) ==>
      CoveredFrom(queue[1..], level', x, Neighbors(stations, x))
  {
    ExpandKeepsCovered(stations, queue, level, Last(queue[0]));
  }

  /** After the neighbour loop for `a` the search state holds again, with
      `a` expanded. Dafny proves it from the definitions; it is stated
      on its own to keep the caller's proof obligation small. */
  lemma ExpandDone(stations: seq<Station>, origin: string, dest: string, universe: set<string>,
                   queue: seq<seq<string>>, visited: set<string>, level: map<string, nat>,
                   queue': seq<seq<string>>)
    requires SearchState(stations, origin, dest, universe, queue, visited, level)
    requires |queue| > 0 && |queue[0]| > 0
    requires Last(queue[0]) !in visited && Last(queue[0]) != dest && Last(queue[0]) in universe
    requires Enqueued(stations, origin, visited + {Last(queue[0])}, universe,
                      level[Last(queue[0]) := |queue[0]|], queue[0], queue')
    ensures SearchState(stations, origin, dest, universe, queue', visited + {Last(queue[0])},
                        level[Last(queue[0]) := |queue[0]|])
  {
  }

  /** One turn of the `while` loop in which the dequeued path ends at a
      station that is neither the destination nor expanded yet: the station
      is marked visited and its neighbours are enqueued. */
  method Expand(stations: seq<Station>, origin: string, dest: string, ghost universe: set<string>,
                queue: seq<seq<string>>, visited: set<string>, ghost level: map<string, nat>)
    returns (queue': seq<seq<string>>, visited': set<string>, ghost level': map<string, nat>)
    requires SearchState(stations, origin, dest, universe, queue, visited, level)
    requires |queue| > 0 && |queue[0]| > 0 && Last(queue[0]) !in visited && Last(queue[0]) != dest
    ensures visited' == visited + {Last(queue[0])}
    ensures queue' == queue[1..] + Extensions(queue[0], Neighbors(stations, Last(queue[0])), visited')
    ensures SearchState(stations, origin, dest, universe, queue', visited', level')
    ensures |universe - visited'| < |universe - visited|
  {
    var path := queue[0];
    var current := Last(path);
    visited' := visited + {current};
    level' := level[current := |path|];
    DequeueExpand(stations, origin, dest, universe, queue, visited, level, level');
    DequeueExpandQueue(stations, origin, dest, universe, queue, visited, level);
    DequeueExpandCovered(stations, origin, dest, universe, queue, visited, level, level');
    StartEnqueue(stations, origin, visited', universe, level', path, queue[1..]);
    queue' := EnqueueNeighbors(stations, origin, path, visited', queue[1..], level', universe);
    ExpandDone(stations, origin, dest, universe, queue, visited, level, queue');
  }

  // ---------------------------------------------------------------------
  // The outcomes
  // ---------------------------------------------------------------------

  /** The dequeued path is a shortest one. Walking along any path `p` from
      the origin to the destination, the stations are expanded at levels at
      most their position plus one, until the first unexpanded one (there is
      one: the destination is never expanded); that one waits in the queue
      at the end of a path no longer than its position plus one, and the
      queue front is no longer than that. */
  lemma {:induction false} FrontIsShortest(stations: seq<Station>, origin: string, dest: string,
                                           queue: seq<seq<string>>, level: map<string, nat>,
                                           p: seq<string>, j: nat)
    requires |queue| > 0 && Layered(queue)
    requires dest !in level
    requires origin !in level ==> queue == [[origin]]
    requires origin in level ==> level[origin] == 1
    requires Covered(stations, queue, level)
    requires IsPath(stations, p, origin, dest)
    requires j < |p|
    requires forall k :: 0 <= k < j ==> p[k] in level && level[p[k]] <= k + 1
    ensures |queue[0]| <= |p|
    decreases |p| - j
  {
    if j > 0 {
      assert Edge(stations, p[j - 1], p[j]);
      assert CoveredFrom(queue, level, p[j - 1], Neighbors(stations, p[j - 1]));
    }
    if p[j] !in level {
      if j > 0 {
        var k :| 0 <= k < |queue| && 0 < |queue[k]| <= level[p[j - 1]] + 1 && Last(queue[k]) == p[j];
        assert |queue[0]| <= |queue[k]|;
      }
    } else {
      FrontIsShortest(stations, origin, dest, queue, level, p, j + 1);
    }
  }

  /** A dequeued path that ends at the destination is a shortest path to it,
      and repeats no station. */
  lemma DequeuedIsShortest(stations: seq<Station>, origin: string, dest: string, universe: set<string>,
                           queue: seq<seq<string>>, visited: set<string>, level: map<string, nat>)
    requires SearchState(stations, origin, dest, universe, queue, visited, level)
    requires |queue| > 0 && |queue[0]| > 0 && Last(queue[0]) == dest
    ensures IsPath(stations, queue[0], origin, dest) && NoRepeats(queue[0])
    ensures forall p :: IsPath(stations, p, origin, dest) ==> |queue[0]| <= |p|
  {
    assert WellFormed(stations, origin, visited, queue[0]);
    forall p | IsPath(stations, p, origin, dest)
      ensures |queue[0]| <= |p|
    {
      FrontIsShortest(stations, origin, dest, queue, level, p, 0);
    }
  }

  /** When the queue is empty every hop from an expanded station leads to an
      expanded station, so every station of a path from the (expanded)
      origin is expanded. */
  lemma {:induction false} ClosedUnderHops(stations: seq<Station>, origin: string, b: string,
                                           level: map<string, nat>, p: seq<string>, j: nat)
    requires Covered(stations, [], level)
    requires origin in level
    requires IsPath(stations, p, origin, b)
    requires j < |p|
    ensures p[j] in level
  {
    if j > 0 {
      ClosedUnderHops(stations, origin, b, level, p, j - 1);
      assert Edge(stations, p[j - 1], p[j]);
      assert CoveredFrom([], level, p[j - 1], Neighbors(stations, p[j - 1]));
    }
  }

  /** When the queue is empty, the destination is unreachable. */
  lemma Exhausted(stations: seq<Station>, origin: string, dest: string, universe: set<string>,
                  visited: set<string>, level: map<string, nat>)
    requires SearchState(stations, origin, dest, universe, [], visited, level)
    ensures !Reachable(stations, origin, dest)
  {
    forall p | IsPath(stations, p, origin, dest)
      ensures false
    {
      ClosedUnderHops(stations, origin, dest, level, p, |p| - 1);
    }
  }

  /** `buscarCaminho(origemId, destinoId)`, returning the ids of the path;
      the caller maps them to stations. */
  method FindPath(stations: seq<Station>, origin: string, dest: string) returns (r: Option<seq<string>>)
    ensures r.Some? ==> IsPath(stations, r.value, origin, dest)
    ensures r.Some? ==> NoRepeats(r.value)
    ensures r.Some? ==> forall p :: IsPath(stations, p, origin, dest) ==> |r.value| <= |p|
    ensures r.None? <==> !Reachable(stations, origin, dest)
  {
    var queue: seq<seq<string>> := [[origin]];
    var visited: set<string> := {};
    ghost var level: map<string, nat> := map[];
    ghost var universe := {origin} + NeighborIds(stations);
    SearchStart(stations, origin, dest);
    while |queue| > 0
      invariant SearchState(stations, origin, dest, universe, queue, visited, level)
      decreases |universe - visited|, |queue|
    {
      var path := queue[0];
      var current := Last(path);
      if current == dest {
        DequeuedIsShortest(stations, origin, dest, universe, queue, visited, level);
        return Some(path);
      }
      if current in visited {
        DequeueSkip(stations, origin, dest, universe, queue, visited, level);
        queue := queue[1..];
      } else {
        queue, visited, level := Expand(stations, origin, dest, universe, queue, visited, level);
      }
    }
    Exhausted(stations, origin, dest, universe, visited, level);
    return None;
  }

  /** Any result meeting the contract of `FindPath` for a station and itself
      is the one-station path: the search stops at the very first dequeue. */
  lemma FindPathToItself(stations: seq<Station>, origin: string, r: Option<seq<string>>)
    requires r.Some? ==> IsPath(stations, r.value, origin, origin)
    requires r.Some? ==> forall p :: IsPath(stations, p, origin, origin) ==> |r.value| <= |p|
    requires r.None? <==> !Reachable(stations, origin, origin)
    ensures r == Some([origin])
  {
    assert IsPath(stations, [origin], origin, origin);
    assert |r.value| == 1;
    assert r.value == [r.value[0]];
  }
}
