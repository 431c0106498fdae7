/** The entity graph a decision is evaluated over: a resource and the chain above it. */
module Entities {

  import opened Prelude
  import opened Text
  import opened Names

  datatype EntityType = Tenant | PolicySet | Namespace | Table | View

  datatype Uid = Uid(kind: EntityType, id: string)

  datatype Entity = Entity(uid: Uid, parents: set<Uid>)

  datatype ResourceType = CatalogResource | PolicySetResource | NamespaceResource | TableResource | ViewResource

  datatype Resource = Resource(kind: ResourceType, tenant: string, namespace: Option<seq<string>>, name: Option<string>)
  {
    function Levels(): seq<string> {
      namespace.GetOr([])
    }
  }

  /** The id of a path below a tenant. */
  function IdOf(tenant: string, path: seq<string>): string {
    Join([tenant] + path, PART_SEPARATOR)
  }

  function TenantUid(tenant: string): Uid {
    Uid(Tenant, tenant)
  }

  function NamespaceUid(tenant: string, path: seq<string>): Uid {
    Uid(Namespace, IdOf(tenant, path))
  }

  /** The `i`-th link above a resource: the tenant, then one namespace per level. */
  function Link(tenant: string, levels: seq<string>, i: nat): Uid
    requires i <= |levels|
  {
    if i == 0 then TenantUid(tenant) else NamespaceUid(tenant, levels[..i])
  }

  function LinkEntity(tenant: string, levels: seq<string>, i: nat): Entity
    requires i <= |levels|
  {
    Entity(Link(tenant, levels, i), if i == 0 then {} else {Link(tenant, levels, i - 1)})
  }

  function Chain(tenant: string, levels: seq<string>): seq<Entity> {
    seq(|levels| + 1, i requires 0 <= i <= |levels| => LinkEntity(tenant, levels, i))
  }

  function LeafKind(kind: ResourceType): EntityType {
    if kind == ViewResource then View else Table
  }

  function ResourceUid(r: Resource): Uid {
    if r.kind == PolicySetResource then Uid(PolicySet, r.tenant)
    else
      match r.name
      case Some(name) => Uid(LeafKind(r.kind), IdOf(r.tenant, r.Levels() + [name]))
      case None => Link(r.tenant, r.Levels(), |r.Levels()|)
  }

  /** The entities of a decision about `r`. */
  function GraphOf(r: Resource): seq<Entity> {
    if r.kind == PolicySetResource then
      Chain(r.tenant, []) + [Entity(ResourceUid(r), {TenantUid(r.tenant)})]
    else
      Chain(r.tenant, r.Levels())
      + (if r.name.Some? then [Entity(ResourceUid(r), {Link(r.tenant, r.Levels(), |r.Levels()|)})] else [])
  }

  lemma IdSnoc(tenant: string, path: seq<string>, level: string)
    ensures IdOf(tenant, path + [level]) == IdOf(tenant, path) + [PART_SEPARATOR] + level
  {
    assert [tenant] + (path + [level]) == ([tenant] + path) + [level];
    JoinSnoc([tenant] + path, level, PART_SEPARATOR);
  }

  lemma IdOfTenant(tenant: string)
    ensures IdOf(tenant, []) == tenant
  {
    assert [tenant] + [] == [tenant];
  }

  method ResourceEntities(r: Resource) returns (uid: Uid, entities: seq<Entity>)
    ensures uid == ResourceUid(r) && entities == GraphOf(r)
  {
    var tenantUid := TenantUid(r.tenant);
    entities := [Entity(tenantUid, {})];
    if r.kind == PolicySetResource {
      uid := Uid(PolicySet, r.tenant);
      assert Chain(r.tenant, []) == entities;
      entities := entities + [Entity(uid, {tenantUid})];
      return;
    }

    var levels := r.Levels();
    var parent, path := tenantUid, r.tenant;
    IdOfTenant(r.tenant);
    assert levels[..0] == [];
    for i := 0 to |levels|
      invariant parent == Link(r.tenant, levels, i) && path == IdOf(r.tenant, levels[..i])
      invariant entities == Chain(r.tenant, levels)[..i + 1]
    {
      assert levels[..i + 1] == levels[..i] + [levels[i]];
      IdSnoc(r.tenant, levels[..i], levels[i]);
      path := path + [PART_SEPARATOR] + levels[i];
      var next := Uid(Namespace, path);
      entities := entities + [Entity(next, {parent})];
      parent := next;
    }
    assert levels[..|levels|] == levels;
    assert Chain(r.tenant, levels)[..|levels| + 1] == Chain(r.tenant, levels);

    match r.name {
      case Some(name) =>
        IdSnoc(r.tenant, levels, name);
        path := path + [PART_SEPARATOR] + name;
        uid := Uid(LeafKind(r.kind), path);
        entities := entities + [Entity(uid, {parent})];
      case None =>
        uid := parent;
    }
  }

  // ---------------------------------------------------------------------------
  // `in` over the graph
  // ---------------------------------------------------------------------------

  ghost predicate ParentOf(g: seq<Entity>, child: Uid, parent: Uid) {
    exists i :: 0 <= i < |g| && g[i].uid == child && parent in g[i].parents
  }

  ghost predicate Climb(g: seq<Entity>, p: seq<Uid>) {
    p != [] && forall i :: 0 <= i < |p| - 1 ==> ParentOf(g, p[i], p[i + 1])
  }

  /** The policy language's `a in b`: `b` is `a` or reached by parents. */
  ghost predicate IsIn(g: seq<Entity>, a: Uid, b: Uid) {
    exists p :: Climb(g, p) && p[0] == a && p[|p| - 1] == b
  }

  lemma IsInByClimb(g: seq<Entity>, p: seq<Uid>)
    requires Climb(g, p)
    ensures IsIn(g, p[0], p[|p| - 1])
  {
  }

  /** One step of `in`: the thing itself, or something one of its parents is in. */
  lemma IsInStep(g: seq<Entity>, a: Uid, b: Uid)
    ensures IsIn(g, a, b) <==> a == b || exists c :: ParentOf(g, a, c) && IsIn(g, c, b)
  {
    if IsIn(g, a, b) && a != b {
      var p :| Climb(g, p) && p[0] == a && p[|p| - 1] == b;
      var rest := p[1..];
      assert ParentOf(g, p[0], p[1]);
      forall i | 0 <= i < |rest| - 1 ensures ParentOf(g, rest[i], rest[i + 1]) {
        assert ParentOf(g, p[i + 1], p[i + 1 + 1]);
      }
      IsInByClimb(g, rest);
    }
    if a == b {
      IsInByClimb(g, [a]);
    }
    if c :| ParentOf(g, a, c) && IsIn(g, c, b) {
      var p :| Climb(g, p) && p[0] == c && p[|p| - 1] == b;
      var q := [a] + p;
      forall i | 0 <= i < |q| - 1 ensures ParentOf(g, q[i], q[i + 1]) {
        if i > 0 {
          assert ParentOf(g, p[i - 1], p[i - 1 + 1]);
        }
      }
      IsInByClimb(g, q);
    }
  }

  lemma {:induction false} IdGrows(tenant: string, path: seq<string>, n: nat)
    requires n <= |path|
    ensures |IdOf(tenant, path[..n])| + |path| - n <= |IdOf(tenant, path)|
    decreases |path|
  {
    if n < |path| {
      var before := path[..|path| - 1];
      IdGrows(tenant, before, n);
      assert before[..n] == path[..n];
      IdSnoc(tenant, before, path[|path| - 1]);
      assert before + [path[|path| - 1]] == path;
    } else {
      assert path[..n] == path;
    }
  }

  lemma LinksAreDistinct(tenant: string, levels: seq<string>, i: nat, k: nat)
    requires i < k <= |levels|
    ensures Link(tenant, levels, i) != Link(tenant, levels, k)
  {
    if i > 0 {
      IdGrows(tenant, levels[..k], i);
      assert levels[..k][..i] == levels[..i];
    }
  }

  /** A link's only parent is the link before it. */
  lemma ParentOfLink(r: Resource, i: nat, parent: Uid)
    requires r.kind != PolicySetResource && i <= |r.Levels()|
    ensures ParentOf(GraphOf(r), Link(r.tenant, r.Levels(), i), parent) <==>
            i > 0 && parent == Link(r.tenant, r.Levels(), i - 1)
  {
    var g, levels := GraphOf(r), r.Levels();
    var chain := Chain(r.tenant, levels);
    if ParentOf(g, Link(r.tenant, levels, i), parent) {
      var k :| 0 <= k < |g| && g[k].uid == Link(r.tenant, levels, i) && parent in g[k].parents;
      if k < |chain| {
        assert g[k] == chain[k] == LinkEntity(r.tenant, levels, k);
        if k < i {
          LinksAreDistinct(r.tenant, levels, k, i);
        } else if i < k {
          LinksAreDistinct(r.tenant, levels, i, k);
        }
      }
    }
    if i > 0 {
      assert g[i] == chain[i] == LinkEntity(r.tenant, levels, i);
    }
  }

  /** A link is in itself and in whatever the link before it is in. */
  lemma LinkIsInStep(r: Resource, i: nat, b: Uid)
    requires r.kind != PolicySetResource && i <= |r.Levels()|
    ensures IsIn(GraphOf(r), Link(r.tenant, r.Levels(), i), b) <==>
            b == Link(r.tenant, r.Levels(), i) || (i > 0 && IsIn(GraphOf(r), Link(r.tenant, r.Levels(), i - 1), b))
  {
    var g, here := GraphOf(r), Link(r.tenant, r.Levels(), i);
    IsInStep(g, here, b);
    forall c ensures ParentOf(g, here, c) <==> i > 0 && c == Link(r.tenant, r.Levels(), i - 1) {
      ParentOfLink(r, i, c);
    }
  }

  lemma {:induction false} LinkIsIn(r: Resource, i: nat, b: Uid)
    requires r.kind != PolicySetResource && i <= |r.Levels()|
    ensures IsIn(GraphOf(r), Link(r.tenant, r.Levels(), i), b) <==>
            exists k :: 0 <= k <= i && b == Link(r.tenant, r.Levels(), k)
  {
    LinkIsInStep(r, i, b);
    if i > 0 {
      LinkIsIn(r, i - 1, b);
    }
  }

  /** A table or view hangs from the last link. */
  lemma LeafIsIn(r: Resource, b: Uid)
    requires r.kind != PolicySetResource && r.name.Some?
    ensures IsIn(GraphOf(r), ResourceUid(r), b) <==>
            b == ResourceUid(r) || IsIn(GraphOf(r), Link(r.tenant, r.Levels(), |r.Levels()|), b)
  {
    IsInStep(GraphOf(r), ResourceUid(r), b);
    forall c ensures ParentOf(GraphOf(r), ResourceUid(r), c) <==> c == Link(r.tenant, r.Levels(), |r.Levels()|) {
      ParentOfLeaf(r, c);
    }
  }

  lemma ParentOfLeaf(r: Resource, parent: Uid)
    requires r.kind != PolicySetResource && r.name.Some?
    ensures ParentOf(GraphOf(r), ResourceUid(r), parent) <==> parent == Link(r.tenant, r.Levels(), |r.Levels()|)
  {
    var g, leaf := GraphOf(r), ResourceUid(r);
    var chain := Chain(r.tenant, r.Levels());
    var last := Link(r.tenant, r.Levels(), |r.Levels()|);
    assert g[|chain|] == Entity(leaf, {last});
    assert forall k :: 0 <= k < |chain| ==> g[k].uid.kind == Tenant || g[k].uid.kind == Namespace by {
      assert forall k :: 0 <= k < |chain| ==> g[k] == chain[k] == LinkEntity(r.tenant, r.Levels(), k);
    }
  }

  /** What a resource is in: itself, its tenant, and the namespaces its own path starts with. */
  lemma AncestorsAreTheTenantAndItsNamespaces(r: Resource, b: Uid)
    requires r.kind != PolicySetResource
    ensures IsIn(GraphOf(r), ResourceUid(r), b) <==>
            || b == ResourceUid(r) || b == TenantUid(r.tenant)
            || exists k :: 1 <= k <= |r.Levels()| && b == NamespaceUid(r.tenant, r.Levels()[..k])
  {
    LinkIsIn(r, |r.Levels()|, b);
    if r.name.Some? {
      LeafIsIn(r, b);
    }
    if k :| 0 <= k <= |r.Levels()| && b == Link(r.tenant, r.Levels(), k) {
      assert k == 0 || b == NamespaceUid(r.tenant, r.Levels()[..k]);
    }
    if k :| 1 <= k <= |r.Levels()| && b == NamespaceUid(r.tenant, r.Levels()[..k]) {
      assert b == Link(r.tenant, r.Levels(), k);
    }
    assert TenantUid(r.tenant) == Link(r.tenant, r.Levels(), 0);
  }

  /** Joined ids are injective on separator-free parts, so two paths never share an entity. */
  lemma IdsAreInjective(t: string, p: seq<string>, t': string, p': seq<string>)
    requires Free([t] + p, PART_SEPARATOR) && Free([t'] + p', PART_SEPARATOR)
    requires IdOf(t, p) == IdOf(t', p')
    ensures t == t' && p == p'
  {
    JoinInjective([t] + p, [t'] + p', PART_SEPARATOR);
    assert ([t] + p)[0] == ([t'] + p')[0];
    assert ([t] + p)[1..] == p && ([t'] + p')[1..] == p';
  }

  /** Inside one tenant, `in Namespace::id` is the prefix relation on namespace paths. */
  lemma InNamespaceIsPrefix(r: Resource, tenant: string, path: seq<string>)
    requires r.kind != PolicySetResource
    requires Free([r.tenant] + r.Levels(), PART_SEPARATOR) && Free([tenant] + path, PART_SEPARATOR) && path != []
    ensures IsIn(GraphOf(r), ResourceUid(r), NamespaceUid(tenant, path)) <==> tenant == r.tenant && path <= r.Levels()
  {
    var levels := r.Levels();
    var b := NamespaceUid(tenant, path);
    AncestorsAreTheTenantAndItsNamespaces(r, b);
    assert forall i :: 0 <= i < |levels| ==> levels[i] == ([r.tenant] + levels)[i + 1];
    forall k | 1 <= k <= |levels|
      ensures b == NamespaceUid(r.tenant, levels[..k]) <==> tenant == r.tenant && path == levels[..k]
    {
      assert forall i :: 0 <= i <= k ==> ([r.tenant] + levels[..k])[i] == ([r.tenant] + levels)[i];
      if b == NamespaceUid(r.tenant, levels[..k]) {
        IdsAreInjective(tenant, path, r.tenant, levels[..k]);
      }
    }
    if r.name.None? && levels != [] {
      assert levels[..|levels|] == levels;
    }
    if path <= levels {
      assert path == levels[..|path|];
    }
  }

  /** A policy set is in its tenant and in nothing else. */
  lemma PolicySetIsInItsTenant(r: Resource, b: Uid)
    requires r.kind == PolicySetResource
    ensures IsIn(GraphOf(r), ResourceUid(r), b) <==> b == ResourceUid(r) || b == TenantUid(r.tenant)
  {
    var g, uid, tenant := GraphOf(r), ResourceUid(r), TenantUid(r.tenant);
    assert Chain(r.tenant, []) == [Entity(tenant, {})];
    assert g[0].uid == tenant && g[1] == Entity(uid, {tenant}) && |g| == 2;
    forall c ensures ParentOf(g, uid, c) <==> c == tenant {
    }
    forall c ensures !ParentOf(g, tenant, c) {
    }
    IsInStep(g, uid, b);
    IsInStep(g, tenant, b);
  }

  // ---------------------------------------------------------------------------
  // The entities a policy can name
  // ---------------------------------------------------------------------------

  const UNIT_SEPARATOR: char := '\U{1F}'

  /** A table, a view, a namespace, a tenant and its policy set, as they are named in a policy. */
  lemma NamedEntities(tenant: string, levels: seq<string>, name: string)
    requires levels != []
    ensures ResourceUid(Resource(TableResource, tenant, Some(levels), Some(name))) ==
            Uid(Table, Join([tenant] + levels + [name], UNIT_SEPARATOR))
    ensures ResourceUid(Resource(ViewResource, tenant, Some(levels), Some(name))) ==
            Uid(View, Join([tenant] + levels + [name], UNIT_SEPARATOR))
    ensures ResourceUid(Resource(NamespaceResource, tenant, Some(levels), None)) ==
            Uid(Namespace, Join([tenant] + levels, UNIT_SEPARATOR))
    ensures ResourceUid(Resource(CatalogResource, tenant, None, None)) == Uid(Tenant, tenant)
    ensures ResourceUid(Resource(PolicySetResource, tenant, None, None)) == Uid(PolicySet, tenant)
  {
    assert [tenant] + levels + [name] == [tenant] + (levels + [name]);
    assert levels[..|levels|] == levels;
  }

  /** What a table is in, by the names a policy has for it: itself, its namespaces and its tenant, and nobody else's. */
  lemma TableIsIn(tenant: string, levels: seq<string>, name: string, b: Uid)
    requires levels != []
    ensures var r := Resource(TableResource, tenant, Some(levels), Some(name));
            IsIn(GraphOf(r), ResourceUid(r), b) <==>
            || b == Uid(Table, Join([tenant] + levels + [name], UNIT_SEPARATOR)) || b == Uid(Tenant, tenant)
            || exists k :: 1 <= k <= |levels| && b == Uid(Namespace, Join([tenant] + levels[..k], UNIT_SEPARATOR))
  {
    var r := Resource(TableResource, tenant, Some(levels), Some(name));
    NamedEntities(tenant, levels, name);
    AncestorsAreTheTenantAndItsNamespaces(r, b);
    forall k | 1 <= k <= |levels|
      ensures NamespaceUid(tenant, levels[..k]) == Uid(Namespace, Join([tenant] + levels[..k], UNIT_SEPARATOR))
    {
    }
    if k :| 1 <= k <= |levels| && b == Uid(Namespace, Join([tenant] + levels[..k], UNIT_SEPARATOR)) {
      assert b == NamespaceUid(tenant, r.Levels()[..k]);
    }
  }
}
