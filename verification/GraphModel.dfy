/** The economic graph at a point in time, its simple paths, and both ways of walking it. */
module GraphModel {
  import opened Options

  type Time = int
  type EntityId = nat
  type RelationshipId = nat

  datatype Status = Candidate | Verified | Disputed | Expired | Rejected

  predicate Live(eligible: Time, validFrom: Time, validTo: Option<Time>, status: Status, asOf: Time) {
    && eligible <= asOf && validFrom <= asOf
    && (validTo.None? || validTo.value > asOf)
    && (status.Verified? || status.Disputed?)
  }

  datatype Entity = Entity(
    workspace: nat, eligible: Time, validFrom: Time, validTo: Option<Time>, status: Status)

  datatype Relationship = Relationship(
    workspace: nat, subject: EntityId, predicateName: string, object_: EntityId, eligible: Time,
    validFrom: Time, validTo: Option<Time>, status: Status)

  datatype Graph = Graph(entities: map<EntityId, Entity>, relationships: map<RelationshipId, Relationship>)

  /** An empty set of predicates means no filter. */
  datatype Query = Query(
    workspace: nat, start: EntityId, asOf: Time, maxDepth: int, maxNodes: int, predicates: set<string>)

  predicate EntityVisible(g: Graph, q: Query, id: EntityId) {
    && id in g.entities
    && var e := g.entities[id];
       e.workspace == q.workspace && Live(e.eligible, e.validFrom, e.validTo, e.status, q.asOf)
  }

  predicate RelationshipLive(g: Graph, q: Query, id: RelationshipId) {
    && id in g.relationships
    && var r := g.relationships[id];
       r.workspace == q.workspace && Live(r.eligible, r.validFrom, r.validTo, r.status, q.asOf)
  }

  predicate RelationshipVisible(g: Graph, q: Query, id: RelationshipId) {
    && RelationshipLive(g, q, id)
    && (q.predicates == {} || g.relationships[id].predicateName in q.predicates)
  }

  predicate Touches(r: Relationship, id: EntityId) { r.subject == id || r.object_ == id }

  function OtherEnd(r: Relationship, id: EntityId): EntityId {
    if r.subject == id then r.object_ else r.subject
  }

  /** Entities visited in order, and the relationships between them. */
  datatype Path = Path(nodes: seq<EntityId>, links: seq<RelationshipId>) {
    predicate Valid() { |nodes| == |links| + 1 }

    function Last(): EntityId
      requires Valid()
    {
      nodes[|links|]
    }

    function Depth(): nat { |links| }

    function Then(link: RelationshipId, node: EntityId): Path {
      Path(nodes + [node], links + [link])
    }

    function Parent(): Path
      requires Valid() && links != []
    {
      Path(nodes[..|links|], links[..|links| - 1])
    }
  }

  function Root(q: Query): Path { Path([q.start], []) }

  // ---------------------------------------------------------------- the paths meant

  /** One visible hop along `link` from one entity to the next. */
  predicate Hop(g: Graph, q: Query, from: EntityId, link: RelationshipId, to: EntityId) {
    && RelationshipVisible(g, q, link)
    && Touches(g.relationships[link], from)
    && to == OtherEnd(g.relationships[link], from)
    && EntityVisible(g, q, to)
  }

  /** A path from the start along visible hops that repeats no entity. */
  ghost predicate SimplePath(g: Graph, q: Query, p: Path) {
    && p.Valid() && p.nodes[0] == q.start
    && (forall i, j :: 0 <= i < j < |p.nodes| ==> p.nodes[i] != p.nodes[j])
    && (forall i :: 0 <= i < |p.links| ==> Hop(g, q, p.nodes[i], p.links[i], p.nodes[i + 1]))
  }

  // ---------------------------------------------------------------- level by level

  predicate Extends(g: Graph, q: Query, p: Path, link: RelationshipId)
    requires p.Valid()
  {
    && RelationshipVisible(g, q, link)
    && Touches(g.relationships[link], p.Last())
    && OtherEnd(g.relationships[link], p.Last()) !in p.nodes
    && EntityVisible(g, q, OtherEnd(g.relationships[link], p.Last()))
  }

  function Extension(g: Graph, p: Path, link: RelationshipId): Path
    requires p.Valid() && link in g.relationships
  {
    p.Then(link, OtherEnd(g.relationships[link], p.Last()))
  }

  function Extensions(g: Graph, q: Query, p: Path): (es: set<Path>)
    requires p.Valid()
    ensures forall e :: e in es ==> e.Valid() && e.Depth() == p.Depth() + 1 && e.Parent() == p
  {
    set link | link in g.relationships && Extends(g, q, p, link) :: Extension(g, p, link)
  }

  function Level(g: Graph, q: Query, k: nat): (ps: set<Path>)
    ensures forall p :: p in ps ==> p.Valid() && p.Depth() == k
  {
    if k == 0 then {Root(q)}
    else set p, e | p in Level(g, q, k - 1) && e in Extensions(g, q, p) :: e
  }

  /** All paths of length 1 to `k`. */
  function Paths(g: Graph, q: Query, k: nat): (ps: set<Path>)
    ensures forall p :: p in ps ==> p.Valid() && 1 <= p.Depth() <= k
  {
    if k == 0 then {} else Paths(g, q, k - 1) + Level(g, q, k)
  }

  function Ends(ps: set<Path>): set<EntityId>
    requires forall p :: p in ps ==> p.Valid()
  {
    set p | p in ps :: p.Last()
  }

  function Reached(g: Graph, q: Query, k: nat): set<EntityId> {
    {q.start} + Ends(Paths(g, q, k))
  }

  function LinksOf(ps: set<Path>): set<RelationshipId> {
    set p, link | p in ps && link in p.links :: link
  }
}
