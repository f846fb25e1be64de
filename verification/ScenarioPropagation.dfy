/** The propagation loop, with its queue of values, proved to output what ScenarioModel says. */
module ScenarioPropagation {
  import opened Options
  import opened ScenarioModel
  import opened ScenarioSearch

  /** A queued item with the value it carries. */
  datatype Job = Job(item: Item, value: real)

  function Items(queue: seq<Job>): (items: seq<Item>)
    ensures |items| == |queue|
  {
    seq(|queue|, i requires 0 <= i < |queue| => queue[i].item)
  }

  /** The job's value is the first listed shock folded along its path. */
  ghost predicate Right(shocks: seq<Shock>, job: Job) {
    Fold(FirstShock(shocks, job.item.origin), job.item.path) == Some(job.value)
  }

  /** Every edge out of the origin leads to something already visited from it. */
  ghost predicate Spent(edges: seq<Edge>, origin: Node, visited: set<(Node, Node)>) {
    forall e :: e in Adjacent(edges, origin) ==> (origin, e.target) in visited
  }

  /** A job carries the right value, or is a second root of its origin: behind the first one, or
      with nothing left to visit. */
  ghost predicate Sane(shocks: seq<Shock>, edges: seq<Edge>, queue: seq<Job>, visited: set<(Node, Node)>) {
    forall j :: 0 <= j < |queue| ==>
      || Right(shocks, queue[j])
      || (queue[j].item.path == [] && queue[j].item.node == queue[j].item.origin
          && (Spent(edges, queue[j].item.origin, visited)
              || exists i :: 0 <= i < j && queue[i].item == queue[j].item && Right(shocks, queue[i])))
  }

  lemma {:induction false} FirstShockListed(shocks: seq<Shock>, j: nat) returns (i: nat)
    requires j < |shocks|
    ensures i <= j && shocks[i].target == shocks[j].target && shocks[i].value == FirstShock(shocks, shocks[j].target)
  {
    if shocks[0].target == shocks[j].target {
      i := 0;
    } else {
      var k := FirstShockListed(shocks[1..], j - 1);
      i := k + 1;
    }
  }

  function Started(shocks: seq<Shock>): seq<Job> {
    seq(|shocks|, i requires 0 <= i < |shocks| => Job(Item(shocks[i].target, shocks[i].target, []), shocks[i].value))
  }

  lemma StartSane(shocks: seq<Shock>, edges: seq<Edge>)
    ensures Sane(shocks, edges, Started(shocks), {}) && Items(Started(shocks)) == Roots(shocks)
  {
    var queue := Started(shocks);
    forall j | 0 <= j < |queue| && !Right(shocks, queue[j])
      ensures exists i :: 0 <= i < j && queue[i].item == queue[j].item && Right(shocks, queue[i])
    {
      var i := FirstShockListed(shocks, j);
      assert Right(shocks, queue[i]);
    }
  }

  lemma {:induction false} FanPrefix(item: Item, out: seq<Edge>, marked: set<(Node, Node)>, i: nat)
    requires i <= |out|
    ensures forall a :: a in Fan(item, out[..i], marked) ==> a in Fan(item, out, marked)
    decreases |out|
  {
    if i < |out| {
      assert out[..|out| - 1][..i] == out[..i];
      FanPrefix(item, out[..|out| - 1], marked, i);
    } else {
      assert out[..i] == out;
    }
  }

  lemma FanStep(item: Item, out: seq<Edge>, marked: set<(Node, Node)>, i: nat)
    requires i < |out|
    ensures var front := Fan(item, out[..i], marked);
      Fan(item, out[..i + 1], marked) ==
        if Blocked(item, out[i], marked + Keys(front)) then front
        else front + [Item(item.origin, out[i].target, item.path + [out[i]])]
  {
    assert out[..i + 1][..i] == out[..i];
  }

  lemma ValuedSnoc(shocks: seq<Shock>, visits: seq<Item>, a: Item, value: real)
    requires Traversable(shocks, visits) && Right(shocks, Job(a, value))
    ensures Traversable(shocks, visits + [a])
    ensures Valued(shocks, visits + [a]) == Valued(shocks, visits) + [ImpactOf(a, value)]
  {}

  lemma FoldSnoc(shock: real, path: seq<Edge>, e: Edge)
    ensures Fold(shock, path + [e]) ==
      match Fold(shock, path) case None => None case Some(value) => Transmit(e, value)
  {
    assert (path + [e])[..|path|] == path;
  }

  method BuildAdjacency(edges: seq<Edge>) returns (adjacency: map<Node, seq<Edge>>)
    ensures forall node :: Adjacent(edges, node) == if node in adjacency then adjacency[node] else []
  {
    adjacency := map[];
    for i := 0 to |edges|
      invariant forall node :: Adjacent(edges[..i], node) == if node in adjacency then adjacency[node] else []
    {
      var edge := edges[i];
      assert edges[..i + 1][..i] == edges[..i];
      if edge.Live() {
        var before := if edge.source in adjacency then adjacency[edge.source] else [];
        adjacency := adjacency[edge.source := before + [edge]];
      }
    }
    assert edges[..|edges|] == edges;
  }

  /** Tries the edges of one job in order. */
  method TryEdges(shocks: seq<Shock>, edges: seq<Edge>, job: Job, out: seq<Edge>, visited: set<(Node, Node)>,
                  ghost visits: seq<Item>, impacts: seq<Impact>)
    returns (ok: bool, jobs: seq<Job>, visited': set<(Node, Node)>, impacts': seq<Impact>)
    requires out == Adjacent(edges, job.item.node)
    requires Right(shocks, job) || (job.item.node == job.item.origin && Spent(edges, job.item.origin, visited))
    requires Traversable(shocks, visits) && impacts == Valued(shocks, visits)
    ensures ok ==>
      && Items(jobs) == Fan(job.item, out, visited) && visited' == visited + Keys(Items(jobs))
      && (forall j :: j in jobs ==> Right(shocks, j))
      && Traversable(shocks, visits + Items(jobs)) && impacts' == Valued(shocks, visits + Items(jobs))
    ensures !ok ==> exists a :: a in Fan(job.item, out, visited) && Fold(FirstShock(shocks, a.origin), a.path).None?
  {
    hide Fan, Adjacent, Fold, Transmit, Valued, Traversable;
    ok, jobs, visited', impacts' := true, [], visited, impacts;
    FanOfNone(job.item, visited);
    assert visits + Items([]) == visits;
    for i := 0 to |out|
      invariant ok
      invariant Items(jobs) == Fan(job.item, out[..i], visited) && visited' == visited + Keys(Items(jobs))
      invariant forall j :: j in jobs ==> Right(shocks, j)
      invariant Traversable(shocks, visits + Items(jobs)) && impacts' == Valued(shocks, visits + Items(jobs))
    {
      var edge := out[i];
      FanStep(job.item, out, visited, i);
      if !((job.item.origin, edge.target) in visited' || OnPath(edge.target, job.item.path)) {
        assert edge in out;
        var a := Item(job.item.origin, edge.target, job.item.path + [edge]);
        FoldSnoc(FirstShock(shocks, job.item.origin), job.item.path, edge);
        var transmitted := Transmit(edge, job.value);
        if transmitted.None? {
          FanPrefix(job.item, out, visited, i + 1);
          assert a in Fan(job.item, out[..i + 1], visited);
          ok := false;
          return;
        }
        ValuedSnoc(shocks, visits + Items(jobs), a, transmitted.value);
        ItemsSnoc(jobs, Job(a, transmitted.value));
        assert visits + Items(jobs) + [a] == visits + Items(jobs + [Job(a, transmitted.value)]);
        KeysConcat(Items(jobs), [a]);
        KeysOne(a);
        jobs := jobs + [Job(a, transmitted.value)];
        visited' := visited' + {(job.item.origin, edge.target)};
        impacts' := impacts' + [ImpactOf(a, transmitted.value)];
      }
    }
    assert out[..|out|] == out;
  }

  lemma FanOfNone(item: Item, visited: set<(Node, Node)>)
    ensures Fan(item, [], visited) == [] && visited + Keys([]) == visited
  {}

  lemma ItemsSnoc(jobs: seq<Job>, job: Job)
    ensures Items(jobs + [job]) == Items(jobs) + [job.item]
  {}

  lemma KeysOne(a: Item)
    ensures Keys([a]) == {(a.origin, a.node)}
  {
    assert [a][0] in [a];
  }

  /** What remains of the queue after its first job, and the jobs that job added, stays sane. */
  lemma PopKeepsSane(shocks: seq<Shock>, edges: seq<Edge>, queue: seq<Job>, visited: set<(Node, Node)>,
                     jobs: seq<Job>, visited': set<(Node, Node)>)
    requires queue != [] && Sane(shocks, edges, queue, visited) && visited <= visited'
    requires forall j :: j in jobs ==> Right(shocks, j)
    requires queue[0].item.path == [] && queue[0].item.node == queue[0].item.origin
      ==> Spent(edges, queue[0].item.origin, visited')
    ensures Sane(shocks, edges, queue[1..] + jobs, visited')
  {
    hide Right, Adjacent;
    var rest := queue[1..] + jobs;
    forall j | |queue| - 1 <= j < |rest| ensures Right(shocks, rest[j]) {
      assert rest[j] in jobs;
    }
    forall j | 0 <= j < |queue| - 1 && !Right(shocks, rest[j])
      ensures rest[j].item.path == [] && rest[j].item.node == rest[j].item.origin
      ensures Spent(edges, rest[j].item.origin, visited')
           || exists i :: 0 <= i < j && rest[i].item == rest[j].item && Right(shocks, rest[i])
    {
      assert rest[j] == queue[j + 1];
      if !Spent(edges, rest[j].item.origin, visited) {
        var i :| 0 <= i < j + 1 && queue[i].item == queue[j + 1].item && Right(shocks, queue[i]);
        if i > 0 { assert rest[i - 1] == queue[i]; }
      }
    }
  }

  lemma ExpandedRootIsSpent(edges: seq<Edge>, item: Item, visited: set<(Node, Node)>)
    requires item.path == [] && item.node == item.origin
    ensures Spent(edges, item.origin, visited + Keys(Fan(item, Adjacent(edges, item.node), visited)))
  {}

  lemma FirstIsUsable(shocks: seq<Shock>, edges: seq<Edge>, queue: seq<Job>, visited: set<(Node, Node)>)
    requires queue != [] && Sane(shocks, edges, queue, visited)
    ensures Right(shocks, queue[0])
      || (queue[0].item.node == queue[0].item.origin && Spent(edges, queue[0].item.origin, visited))
  {}

  /** The state of the propagation: the queue is sane, what has been visited has values, and the
      search from here adds exactly the visits still missing. */
  ghost predicate Going(shocks: seq<Shock>, edges: seq<Edge>, maxDepth: nat, queue: seq<Job>,
                        visited: set<(Node, Node)>, visits: seq<Item>)
  {
    && FromOrigins(Items(queue), Origins(shocks))
    && Sane(shocks, edges, queue, visited)
    && Traversable(shocks, visits)
    && Visits(shocks, edges, maxDepth) == visits + Walk(edges, maxDepth, Origins(shocks), Items(queue), visited)
  }

  lemma StartGoing(shocks: seq<Shock>, edges: seq<Edge>, maxDepth: nat)
    ensures Going(shocks, edges, maxDepth, Started(shocks), {}, [])
  {
    hide Walk, Sane;
    StartSane(shocks, edges);
    RootsFromOrigins(shocks);
    NothingValued(shocks);
  }

  lemma PopDeepGoing(shocks: seq<Shock>, edges: seq<Edge>, maxDepth: nat, queue: seq<Job>,
                     visited: set<(Node, Node)>, visits: seq<Item>)
    requires Going(shocks, edges, maxDepth, queue, visited, visits) && 1 <= maxDepth
    requires queue != [] && |queue[0].item.path| >= maxDepth
    ensures Going(shocks, edges, maxDepth, queue[1..], visited, visits)
  {
    hide Walk, Sane, Visits, Traversable;
    PopDeepKeepsSane(shocks, edges, queue, visited, maxDepth);
    assert Items(queue)[1..] == Items(queue[1..]);
    WalkStep(edges, maxDepth, Origins(shocks), Items(queue), visited);
  }

  lemma FirstFromOrigins(shocks: seq<Shock>, queue: seq<Job>)
    requires FromOrigins(Items(queue), Origins(shocks)) && queue != []
    ensures queue[0].item.origin in Origins(shocks)
  {
    assert Items(queue)[0] in Items(queue);
  }

  /** The first job's edges tried: its new jobs join the queue, and the walk gets shorter. */
  lemma ExpandGoing(shocks: seq<Shock>, edges: seq<Edge>, maxDepth: nat, queue: seq<Job>, visited: set<(Node, Node)>,
                    visits: seq<Item>, jobs: seq<Job>)
    requires Going(shocks, edges, maxDepth, queue, visited, visits)
    requires queue != [] && |queue[0].item.path| < maxDepth
    requires Items(jobs) == Fan(queue[0].item, Adjacent(edges, queue[0].item.node), visited)
    requires forall j :: j in jobs ==> Right(shocks, j)
    requires Traversable(shocks, visits + Items(jobs))
    ensures var visited', origins := visited + Keys(Items(jobs)), Origins(shocks);
      && Going(shocks, edges, maxDepth, queue[1..] + jobs, visited', visits + Items(jobs))
      && ((jobs == [] && visited' == visited)
          || Markable(edges, origins) - visited' < Markable(edges, origins) - visited)
  {
    hide Walk, Sane, Visits, Traversable, Fan, Adjacent, Right, Markable, Spent;
    var job, rest, added := queue[0], queue[1..], Items(jobs);
    FirstFromOrigins(shocks, queue);
    AddedMarkable(edges, Origins(shocks), job.item, added, visited);
    assert Items(queue)[0] == job.item && Items(queue)[1..] == Items(rest);
    WalkStep(edges, maxDepth, Origins(shocks), Items(queue), visited);
    if job.item.path == [] && job.item.node == job.item.origin { ExpandedRootIsSpent(edges, job.item, visited); }
    PopKeepsSane(shocks, edges, queue, visited, jobs, visited + Keys(added));
    ItemsConcat(rest, jobs);
    assert visits + (added + Walk(edges, maxDepth, Origins(shocks), Items(rest) + added, visited + Keys(added)))
        == (visits + added) + Walk(edges, maxDepth, Origins(shocks), Items(rest) + added, visited + Keys(added));
  }

  /** An unsupported function on the way out of the first job makes the whole propagation fail. */
  lemma StopGoing(shocks: seq<Shock>, edges: seq<Edge>, maxDepth: nat, queue: seq<Job>, visited: set<(Node, Node)>,
                  visits: seq<Item>)
    requires Going(shocks, edges, maxDepth, queue, visited, visits)
    requires queue != [] && |queue[0].item.path| < maxDepth
    requires exists a ::
      a in Fan(queue[0].item, Adjacent(edges, queue[0].item.node), visited)
        && Fold(FirstShock(shocks, a.origin), a.path).None?
    ensures !Traversable(shocks, Visits(shocks, edges, maxDepth))
  {
    hide Walk, Sane, Visits, Traversable, Fan, Adjacent, Fold, FirstShock;
    assert Items(queue)[0] == queue[0].item;
    WalkStep(edges, maxDepth, Origins(shocks), Items(queue), visited);
    NotTraversable(shocks, Visits(shocks, edges, maxDepth),
                   Fan(queue[0].item, Adjacent(edges, queue[0].item.node), visited), visits);
  }

  lemma DoneGoing(shocks: seq<Shock>, edges: seq<Edge>, maxDepth: nat, visited: set<(Node, Node)>, visits: seq<Item>)
    requires Going(shocks, edges, maxDepth, [], visited, visits)
    ensures Visits(shocks, edges, maxDepth) == visits && Traversable(shocks, visits)
  {
    hide Walk, Sane, Visits, Traversable;
    WalkDone(edges, maxDepth, Origins(shocks), visited);
    assert Items([]) == [] && visits + [] == visits;
  }

  lemma GoingUsable(shocks: seq<Shock>, edges: seq<Edge>, maxDepth: nat, queue: seq<Job>, visited: set<(Node, Node)>,
                    visits: seq<Item>)
    requires Going(shocks, edges, maxDepth, queue, visited, visits) && queue != []
    ensures Traversable(shocks, visits)
    ensures Right(shocks, queue[0])
      || (queue[0].item.node == queue[0].item.origin && Spent(edges, queue[0].item.origin, visited))
  {
    hide Walk, Visits, Traversable;
    FirstIsUsable(shocks, edges, queue, visited);
  }

  /** The propagation, with its queue, its visited pairs and its outputs. */
  method PropagateScenario(shocks: seq<Shock>, edges: seq<Edge>, maxDepth: int) returns (r: Result)
    ensures r == Propagation(shocks, edges, maxDepth)
  {
    hide Going, Visits, Fan, Adjacent, Valued, Traversable, Right, Spent, Markable;
    if !(1 <= maxDepth <= 8) {
      return InvalidDepth;
    }
    var adjacency := BuildAdjacency(edges);
    var queue := Started(shocks);
    var visited: set<(Node, Node)> := {};
    var impacts: seq<Impact> := [];
    ghost var visits: seq<Item> := [];
    StartGoing(shocks, edges, maxDepth);
    NothingValued(shocks);
    while queue != []
      invariant Going(shocks, edges, maxDepth, queue, visited, visits)
      invariant Traversable(shocks, visits) && impacts == Valued(shocks, visits)
      decreases Markable(edges, Origins(shocks)) - visited, |queue|
    {
      var job := queue[0];
      var rest := queue[1..];
      if |job.item.path| >= maxDepth {
        PopDeepGoing(shocks, edges, maxDepth, queue, visited, visits);
        queue := rest;
      } else {
        var out := if job.item.node in adjacency then adjacency[job.item.node] else [];
        GoingUsable(shocks, edges, maxDepth, queue, visited, visits);
        var ok, jobs, visited', impacts' := TryEdges(shocks, edges, job, out, visited, visits, impacts);
        if !ok {
          StopGoing(shocks, edges, maxDepth, queue, visited, visits);
          return UnsupportedFunction;
        }
        ExpandGoing(shocks, edges, maxDepth, queue, visited, visits, jobs);
        visits := visits + Items(jobs);
        queue, visited, impacts := rest + jobs, visited', impacts';
      }
    }
    DoneGoing(shocks, edges, maxDepth, visited, visits);
    r := Impacts(impacts);
  }

  lemma NothingValued(shocks: seq<Shock>)
    ensures Traversable(shocks, []) && Valued(shocks, []) == []
  {}

  lemma ItemsConcat(xs: seq<Job>, ys: seq<Job>)
    ensures Items(xs + ys) == Items(xs) + Items(ys)
  {}

  lemma WalkDone(edges: seq<Edge>, maxDepth: nat, origins: set<Node>, visited: set<(Node, Node)>)
    ensures Walk(edges, maxDepth, origins, [], visited) == []
  {}

  lemma WalkStep(edges: seq<Edge>, maxDepth: nat, origins: set<Node>, queue: seq<Item>, visited: set<(Node, Node)>)
    requires FromOrigins(queue, origins) && queue != []
    ensures |queue[0].path| >= maxDepth ==>
      Walk(edges, maxDepth, origins, queue, visited) == Walk(edges, maxDepth, origins, queue[1..], visited)
    ensures |queue[0].path| < maxDepth ==>
      var added := Fan(queue[0], Adjacent(edges, queue[0].node), visited);
      FromOrigins(queue[1..] + added, origins) &&
      Walk(edges, maxDepth, origins, queue, visited)
        == added + Walk(edges, maxDepth, origins, queue[1..] + added, visited + Keys(added))
  {}

  lemma PopDeepKeepsSane(shocks: seq<Shock>, edges: seq<Edge>, queue: seq<Job>,
                         visited: set<(Node, Node)>, maxDepth: nat)
    requires queue != [] && Sane(shocks, edges, queue, visited) && |queue[0].item.path| >= maxDepth && 1 <= maxDepth
    ensures Sane(shocks, edges, queue[1..], visited)
  {
    PopKeepsSane(shocks, edges, queue, visited, [], visited);
    assert queue[1..] + [] == queue[1..];
  }

  lemma NotTraversable(shocks: seq<Shock>, all: seq<Item>, added: seq<Item>, visits: seq<Item>)
    requires visits + added <= all
    requires exists a :: a in added && Fold(FirstShock(shocks, a.origin), a.path).None?
    ensures !Traversable(shocks, all)
  {
    var a :| a in added && Fold(FirstShock(shocks, a.origin), a.path).None?;
    assert a in visits + added;
    assert a in all;
  }
}
