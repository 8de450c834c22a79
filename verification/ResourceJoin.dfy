/**
  The resources of a provisioner job with their agents, apps and metadata, assembled twice in
  the source: by nested loops in coderd/provisionerjobs.go and through maps in
  coderd/workspacebuilds.go.
*/
module KeyOrder {

  /** Go compares strings byte by byte. */
  predicate Less(a: string, b: string) {
    b != "" && (a == "" || a[0] < b[0] || (a[0] == b[0] && Less(a[1..], b[1..])))
  }

  lemma {:induction false} LessTotal(a: string, b: string)
    ensures a == b || Less(a, b) || Less(b, a)
  {
    if a != "" && b != "" && a[0] == b[0] {
      LessTotal(a[1..], b[1..]);
      assert a == [a[0]] + a[1..] && b == [b[0]] + b[1..];
    }
  }

  lemma {:induction false} LessAsymmetric(a: string, b: string)
    ensures !(Less(a, b) && Less(b, a))
  {
    if a != "" && b != "" && a[0] == b[0] {
      LessAsymmetric(a[1..], b[1..]);
    }
  }

  lemma {:induction false} LessTransitive(a: string, b: string, c: string)
    requires Less(a, b) && Less(b, c)
    ensures Less(a, c)
  {
    if a != "" && a[0] == b[0] == c[0] {
      LessTransitive(a[1..], b[1..], c[1..]);
    }
  }
}

module ResourceJoin {
  import opened KeyOrder
  import opened Wrappers

  datatype Resource = Resource(id: nat, jobId: nat, name: string, kind: string)

  /** `convertible` is false when the environment column is not valid JSON. */
  datatype Agent = Agent(id: nat, resourceId: nat, name: string, convertible: bool)

  datatype App = App(id: nat, agentId: nat, slug: string)

  datatype Field = Field(resourceId: nat, key: string, value: Option<string>, sensitive: bool)

  datatype ApiAgent = ApiAgent(agent: Agent, apps: seq<App>)

  datatype Entry = Entry(key: string, value: string, sensitive: bool)

  datatype ApiResource = ApiResource(resource: Resource, agents: seq<ApiAgent>, metadata: seq<Entry>)

  // ---- metadata of one resource ----

  ghost predicate Ascending(es: seq<Entry>) {
    forall i, j :: 0 <= i < j < |es| ==> Less(es[i].key, es[j].key)
  }

  /** The implicit "type" field, overridden by explicit fields, later ones last. */
  function FieldMap(kind: string, fields: seq<Field>): (m: map<string, Field>)
    ensures forall k :: k in m ==> m[k].key == k
  {
    if fields == [] then map["type" := Field(0, "type", Some(kind), false)]
    else
      var last := fields[|fields| - 1];
      FieldMap(kind, fields[..|fields| - 1])[last.key := last]
  }

  function EntryOf(f: Field): Entry
    requires f.value.Some?
  {
    Entry(f.key, f.value.value, f.sensitive)
  }

  ghost predicate Shows(m: map<string, Field>, e: Entry) {
    e.key in m && m[e.key].value.Some? && e == EntryOf(m[e.key])
  }

  /** Exactly the fields that have a value, in ascending order of key. */
  ghost predicate IsMetadata(kind: string, fields: seq<Field>, es: seq<Entry>) {
    && Ascending(es)
    && (forall e :: e in es ==> Shows(FieldMap(kind, fields), e))
    && (forall e :: Shows(FieldMap(kind, fields), e) ==> e in es)
  }

  /** Map iteration order does not matter: the sorted list is determined. */
  lemma {:induction false} AscendingUnique(a: seq<Entry>, b: seq<Entry>)
    requires Ascending(a) && Ascending(b) && forall e :: e in a <==> e in b
    ensures a == b
  {
    assert b != [] ==> b[0] in a;
    assert a != [] ==> a[0] in b;
    if a != [] {
      var k :| 0 <= k < |b| && b[k] == a[0];
      var j :| 0 <= j < |a| && a[j] == b[0];
      LessAsymmetric(a[0].key, b[0].key);
      assert a[0] == b[0];
      forall e ensures e in a[1..] <==> e in b[1..] {
        TailMember(a, e);
        TailMember(b, e);
      }
      AscendingUnique(a[1..], b[1..]);
    }
  }

  lemma TailMember(a: seq<Entry>, e: Entry)
    requires Ascending(a) && a != []
    ensures e in a[1..] <==> e in a && e != a[0]
  {
    LessAsymmetric(a[0].key, a[0].key);
    forall k | 1 <= k < |a| ensures a[k] != a[0] {
      assert Less(a[0].key, a[k].key);
    }
    if e in a[1..] {
      var k :| 0 <= k < |a[1..]| && a[1..][k] == e;
      assert a[k + 1] == e;
    }
    if e in a && e != a[0] {
      var k :| 0 <= k < |a| && a[k] == e;
      assert a[1..][k - 1] == e;
    }
  }

  function Insert(e: Entry, es: seq<Entry>): seq<Entry> {
    if es == [] || Less(e.key, es[0].key) then [e] + es else [es[0]] + Insert(e, es[1..])
  }

  lemma {:induction false} InsertAscending(e: Entry, es: seq<Entry>)
    requires Ascending(es) && forall x :: x in es ==> x.key != e.key
    ensures Ascending(Insert(e, es))
    ensures forall x :: x in Insert(e, es) <==> x == e || x in es
  {
    if es == [] {
    } else if Less(e.key, es[0].key) {
      forall j | 1 <= j < |es| ensures Less(e.key, es[j].key) {
        LessTransitive(e.key, es[0].key, es[j].key);
      }
    } else {
      var rest := Insert(e, es[1..]);
      InsertAscending(e, es[1..]);
      assert es[0] in es;
      LessTotal(e.key, es[0].key);
      forall j | 0 <= j < |rest| ensures Less(es[0].key, rest[j].key) {
        assert rest[j] in rest;
        if rest[j] != e {
          var k :| 0 <= k < |es[1..]| && es[1..][k] == rest[j];
          assert es[k + 1] == rest[j];
        }
      }
      assert es == [es[0]] + es[1..];
    }
  }

  /** convertWorkspaceResource: a map filled, walked in any order, and sorted. */
  method ConvertMetadata(kind: string, fields: seq<Field>) returns (es: seq<Entry>)
    ensures IsMetadata(kind, fields, es)
  {
    var m := map["type" := Field(0, "type", Some(kind), false)];
    assert fields[..0] == [];
    for i := 0 to |fields|
      invariant m == FieldMap(kind, fields[..i])
    {
      assert fields[..i + 1][..i] == fields[..i];
      m := m[fields[i].key := fields[i]];
    }
    assert fields[..|fields|] == fields;
    es := [];
    var keys := m.Keys;
    while keys != {}
      invariant keys <= m.Keys && Ascending(es)
      invariant forall e :: e in es ==> Shows(m, e) && e.key !in keys
      invariant forall e :: Shows(m, e) && e.key !in keys ==> e in es
      decreases keys
    {
      var k :| k in keys;
      if m[k].value.Some? {
        InsertAscending(EntryOf(m[k]), es);
        es := Insert(EntryOf(m[k]), es);
      }
      keys := keys - {k};
    }
  }

  // ---- the join ----

  /** The rows with one key, in table order. */
  function Where<T(!new)>(rows: seq<T>, key: T -> nat, k: nat): (r: seq<T>)
    ensures forall x :: x in r <==> x in rows && key(x) == k
  {
    if rows == [] then []
    else
      var (front, last) := (rows[..|rows| - 1], rows[|rows| - 1]);
      assert rows == front + [last];
      if key(last) == k then Where(front, key, k) + [last] else Where(front, key, k)
  }

  lemma WhereSnoc<T(!new)>(rows: seq<T>, x: T, key: T -> nat, k: nat)
    ensures Where(rows + [x], key, k) == Where(rows, key, k) + if key(x) == k then [x] else []
  {
    assert (rows + [x])[..|rows|] == rows;
  }

  lemma Associates<T>(a: seq<T>, b: seq<T>, c: seq<T>)
    ensures (a + b) + c == a + (b + c)
  {
  }

  lemma {:induction false} WhereAppend<T(!new)>(a: seq<T>, b: seq<T>, key: T -> nat, k: nat)
    ensures Where(a + b, key, k) == Where(a, key, k) + Where(b, key, k)
    decreases |b|
  {
    if b == [] {
      assert a + b == a;
    } else {
      var front, last := b[..|b| - 1], b[|b| - 1];
      WhereAppend(a, front, key, k);
      WhereSnoc(front, last, key, k);
      WhereSnoc(a + front, last, key, k);
      assert b == front + [last];
      Associates(a, front, [last]);
      Associates(Where(a, key, k), Where(front, key, k), if key(last) == k then [last] else []);
    }
  }

  /** Filtering keeps every matching row once, in table order. */
  lemma WhereKeepsOrder<T(!new)>(a: seq<T>, x: T, b: seq<T>, key: T -> nat, k: nat)
    ensures Where(a + [x] + b, key, k) ==
            Where(a, key, k) + (if key(x) == k then [x] else []) + Where(b, key, k)
  {
    WhereSnoc(a, x, key, k);
    WhereAppend(a + [x], b, key, k);
  }

  function ResourceOfAgent(a: Agent): nat { a.resourceId }
  function AgentOfApp(a: App): nat { a.agentId }
  function ResourceOfField(f: Field): nat { f.resourceId }
  function JobOfResource(r: Resource): nat { r.jobId }

  function AgentsOf(agents: seq<Agent>, resourceId: nat): seq<Agent> { Where(agents, ResourceOfAgent, resourceId) }

  function AppsOf(apps: seq<App>, agentId: nat): seq<App> { Where(apps, AgentOfApp, agentId) }

  function FieldsOf(fields: seq<Field>, resourceId: nat): seq<Field> { Where(fields, ResourceOfField, resourceId) }

  function ResourcesOf(resources: seq<Resource>, jobId: nat): seq<Resource> { Where(resources, JobOfResource, jobId) }

  datatype Tables = Tables(agents: seq<Agent>, apps: seq<App>, fields: seq<Field>)

  /** The agents of one resource with their apps, in table order. */
  ghost predicate IsAgents(t: Tables, resource: Resource, out: seq<ApiAgent>) {
    var mine := AgentsOf(t.agents, resource.id);
    && |out| == |mine|
    && forall i :: 0 <= i < |mine| ==> mine[i].convertible && out[i] == ApiAgent(mine[i], AppsOf(t.apps, mine[i].id))
  }

  ghost predicate IsApiResource(t: Tables, resource: Resource, out: ApiResource) {
    && out.resource == resource
    && IsAgents(t, resource, out.agents)
    && IsMetadata(resource.kind, FieldsOf(t.fields, resource.id), out.metadata)
  }

  ghost predicate IsJoin(t: Tables, resources: seq<Resource>, out: seq<ApiResource>) {
    |out| == |resources| && forall i :: 0 <= i < |resources| ==> IsApiResource(t, resources[i], out[i])
  }

  /** Some agent of some resource cannot be converted, which fails the whole request. */
  ghost predicate Unconvertible(t: Tables, resources: seq<Resource>) {
    exists i, a :: 0 <= i < |resources| && a in AgentsOf(t.agents, resources[i].id) && !a.convertible
  }

  ghost predicate Joins(t: Tables, resources: seq<Resource>, r: Result<seq<ApiResource>>) {
    if r.Err? then Unconvertible(t, resources) else IsJoin(t, resources, r.value)
  }

  lemma JoinExcludesFailure(t: Tables, resources: seq<Resource>, out: seq<ApiResource>)
    requires IsJoin(t, resources, out)
    ensures !Unconvertible(t, resources)
  {
    forall i, a | 0 <= i < |resources| && a in AgentsOf(t.agents, resources[i].id) ensures a.convertible {
      var mine := AgentsOf(t.agents, resources[i].id);
      var k :| 0 <= k < |mine| && mine[k] == a;
      assert IsApiResource(t, resources[i], out[i]);
    }
  }

  /** The outcome is determined by the tables, so any two assemblies of them agree. */
  lemma JoinsUnique(t: Tables, resources: seq<Resource>, r: Result<seq<ApiResource>>, r': Result<seq<ApiResource>>)
    requires Joins(t, resources, r) && Joins(t, resources, r')
    ensures r == r'
  {
    if r.Ok? { JoinExcludesFailure(t, resources, r.value); }
    if r'.Ok? { JoinExcludesFailure(t, resources, r'.value); }
    if r.Ok? && r'.Ok? {
      forall i | 0 <= i < |resources| ensures r.value[i] == r'.value[i] {
        assert IsApiResource(t, resources[i], r.value[i]) && IsApiResource(t, resources[i], r'.value[i]);
        assert r.value[i].agents == r'.value[i].agents;
        AscendingUnique(r.value[i].metadata, r'.value[i].metadata);
      }
      assert r.value == r'.value;
    }
  }

  // ---- nested loops (provisionerJobResources) ----

  method NestedAgents(t: Tables, resource: Resource) returns (r: Result<seq<ApiAgent>>)
    ensures r.Ok? ==> IsAgents(t, resource, r.value)
    ensures r.Err? ==> exists a :: a in AgentsOf(t.agents, resource.id) && !a.convertible
  {
    var agents: seq<ApiAgent> := [];
    for i := 0 to |t.agents|
      invariant IsAgents(Tables(t.agents[..i], t.apps, t.fields), resource, agents)
    {
      var agent := t.agents[i];
      assert t.agents[..i + 1][..i] == t.agents[..i];
      if agent.resourceId == resource.id {
        var dbApps: seq<App> := [];
        for j := 0 to |t.apps|
          invariant dbApps == AppsOf(t.apps[..j], agent.id)
        {
          assert t.apps[..j + 1][..j] == t.apps[..j];
          if t.apps[j].agentId == agent.id {
            dbApps := dbApps + [t.apps[j]];
          }
        }
        assert t.apps[..|t.apps|] == t.apps;
        if !agent.convertible {
          assert agent in AgentsOf(t.agents, resource.id);
          return Err;
        }
        agents := agents + [ApiAgent(agent, dbApps)];
      }
    }
    assert t.agents[..|t.agents|] == t.agents;
    r := Ok(agents);
  }

  method NestedJoin(resources: seq<Resource>, t: Tables) returns (r: Result<seq<ApiResource>>)
    ensures Joins(t, resources, r)
  {
    var out: seq<ApiResource> := [];
    for i := 0 to |resources|
      invariant IsJoin(t, resources[..i], out)
    {
      var resource := resources[i];
      var agents := NestedAgents(t, resource);
      if agents.Err? { return Err; }
      var fields: seq<Field> := [];
      for j := 0 to |t.fields|
        invariant fields == FieldsOf(t.fields[..j], resource.id)
      {
        assert t.fields[..j + 1][..j] == t.fields[..j];
        if t.fields[j].resourceId == resource.id {
          fields := fields + [t.fields[j]];
        }
      }
      assert t.fields[..|t.fields|] == t.fields;
      var metadata := ConvertMetadata(resource.kind, fields);
      out := out + [ApiResource(resource, agents.value, metadata)];
    }
    r := Ok(out);
  }

  // ---- maps (convertWorkspaceBuild) ----

  function Lookup<V>(m: map<nat, seq<V>>, k: nat): seq<V> { if k in m then m[k] else [] }

  /** Appending every row to its bucket leaves each bucket the filter by its key. */
  method GroupBy<T(!new)>(rows: seq<T>, key: T -> nat) returns (m: map<nat, seq<T>>)
    ensures forall k :: Lookup(m, k) == Where(rows, key, k)
  {
    m := map[];
    for i := 0 to |rows|
      invariant forall k :: Lookup(m, k) == Where(rows[..i], key, k)
    {
      assert rows[..i + 1][..i] == rows[..i];
      m := m[key(rows[i]) := Lookup(m, key(rows[i])) + [rows[i]]];
    }
    assert rows[..|rows|] == rows;
  }

  method IndexedAgents(agents: seq<Agent>, appsByAgent: map<nat, seq<App>>, ghost t: Tables, ghost resource: Resource)
    returns (r: Result<seq<ApiAgent>>)
    requires agents == AgentsOf(t.agents, resource.id)
    requires forall k :: Lookup(appsByAgent, k) == AppsOf(t.apps, k)
    ensures r.Ok? ==> IsAgents(t, resource, r.value)
    ensures r.Err? ==> exists a :: a in AgentsOf(t.agents, resource.id) && !a.convertible
  {
    var apiAgents: seq<ApiAgent> := [];
    for j := 0 to |agents|
      invariant |apiAgents| == j
      invariant forall k :: 0 <= k < j ==>
                  agents[k].convertible && apiAgents[k] == ApiAgent(agents[k], AppsOf(t.apps, agents[k].id))
    {
      if !agents[j].convertible {
        assert agents[j] in agents;
        return Err;
      }
      apiAgents := apiAgents + [ApiAgent(agents[j], Lookup(appsByAgent, agents[j].id))];
    }
    r := Ok(apiAgents);
  }

  method IndexedJoin(jobId: nat, resources: seq<Resource>, t: Tables) returns (r: Result<seq<ApiResource>>)
    ensures Joins(t, ResourcesOf(resources, jobId), r)
  {
    var resourcesByJob := GroupBy(resources, JobOfResource);
    var fieldsByResource := GroupBy(t.fields, ResourceOfField);
    var agentsByResource := GroupBy(t.agents, ResourceOfAgent);
    var appsByAgent := GroupBy(t.apps, AgentOfApp);
    var mine := Lookup(resourcesByJob, jobId);
    var out: seq<ApiResource> := [];
    for i := 0 to |mine|
      invariant IsJoin(t, mine[..i], out)
    {
      var agents := IndexedAgents(Lookup(agentsByResource, mine[i].id), appsByAgent, t, mine[i]);
      if agents.Err? { return Err; }
      var metadata := ConvertMetadata(mine[i].kind, Lookup(fieldsByResource, mine[i].id));
      out := out + [ApiResource(mine[i], agents.value, metadata)];
    }
    r := Ok(out);
  }

  // ---- the two agree ----

  ghost function ResourceIds(resources: seq<Resource>): set<nat> { set r | r in resources :: r.id }

  ghost function AgentIds(agents: seq<Agent>): set<nat> { set a | a in agents :: a.id }

  ghost function WhereIn<T>(rows: seq<T>, key: T -> nat, ids: set<nat>): seq<T> {
    if rows == [] then []
    else
      var (front, last) := (rows[..|rows| - 1], rows[|rows| - 1]);
      if key(last) in ids then WhereIn(front, key, ids) + [last] else WhereIn(front, key, ids)
  }

  /** What the queries of provisionerJobResources return: only rows of this job's resources. */
  ghost function Queried(t: Tables, resources: seq<Resource>): Tables {
    var ids := ResourceIds(resources);
    var agents := WhereIn(t.agents, ResourceOfAgent, ids);
    Tables(agents, WhereIn(t.apps, AgentOfApp, AgentIds(agents)), WhereIn(t.fields, ResourceOfField, ids))
  }

  lemma {:induction false} WhereInSame<T(!new)>(rows: seq<T>, key: T -> nat, ids: set<nat>, id: nat)
    requires id in ids
    ensures Where(WhereIn(rows, key, ids), key, id) == Where(rows, key, id)
  {
    if rows != [] {
      var front, last := rows[..|rows| - 1], rows[|rows| - 1];
      WhereInSame(front, key, ids, id);
      var kept := WhereIn(front, key, ids);
      assert (kept + [last])[..|kept|] == kept;
    }
  }

  lemma QueriedSame(t: Tables, resources: seq<Resource>, i: nat)
    requires i < |resources|
    ensures var q, id := Queried(t, resources), resources[i].id;
            && AgentsOf(q.agents, id) == AgentsOf(t.agents, id)
            && FieldsOf(q.fields, id) == FieldsOf(t.fields, id)
            && forall a :: a in AgentsOf(t.agents, id) ==> AppsOf(q.apps, a.id) == AppsOf(t.apps, a.id)
  {
    var q, id := Queried(t, resources), resources[i].id;
    assert resources[i] in resources;
    WhereInSame(t.agents, ResourceOfAgent, ResourceIds(resources), id);
    WhereInSame(t.fields, ResourceOfField, ResourceIds(resources), id);
    forall a | a in AgentsOf(t.agents, id) ensures AppsOf(q.apps, a.id) == AppsOf(t.apps, a.id) {
      assert a in AgentsOf(q.agents, id);
      WhereInSame(t.apps, AgentOfApp, AgentIds(q.agents), a.id);
    }
  }

  lemma QueriedJoins(t: Tables, resources: seq<Resource>, r: Result<seq<ApiResource>>)
    requires Joins(Queried(t, resources), resources, r)
    ensures Joins(t, resources, r)
  {
    var q := Queried(t, resources);
    if r.Err? {
      var i, a :| 0 <= i < |resources| && a in AgentsOf(q.agents, resources[i].id) && !a.convertible;
      QueriedSame(t, resources, i);
      assert a in AgentsOf(t.agents, resources[i].id);
    } else {
      forall i | 0 <= i < |resources| ensures IsApiResource(t, resources[i], r.value[i]) {
        QueriedSame(t, resources, i);
        assert IsApiResource(q, resources[i], r.value[i]);
        var mine := AgentsOf(t.agents, resources[i].id);
        assert forall k :: 0 <= k < |mine| ==> mine[k] in mine;
      }
    }
  }

  /**
    The map-indexed assembly over all the tables and the nested-loop assembly over the queried
    rows give the same lists in the same order, or fail together.
  */
  lemma AssembliesAgree(jobId: nat, all: seq<Resource>, t: Tables,
                        nested: Result<seq<ApiResource>>, indexed: Result<seq<ApiResource>>)
    requires var mine := ResourcesOf(all, jobId);
             Joins(Queried(t, mine), mine, nested) && Joins(t, mine, indexed)
    ensures nested == indexed
  {
    var mine := ResourcesOf(all, jobId);
    QueriedJoins(t, mine, nested);
    JoinsUnique(t, mine, nested, indexed);
  }

  // ---- the final sort of provisionerJobResources ----

  ghost predicate SortedByName(rs: seq<ApiResource>) {
    forall i, j :: 0 <= i < j < |rs| ==> !Less(rs[j].resource.name, rs[i].resource.name)
  }

  /** sort.Slice by name: a permutation in order; equal names may come out either way. */
  method SortByName(rs: seq<ApiResource>) returns (out: seq<ApiResource>)
    ensures SortedByName(out) && multiset(out) == multiset(rs)
  {
    out := [];
    assert rs[..0] == [];
    for i := 0 to |rs|
      invariant SortedByName(out) && multiset(out) == multiset(rs[..i])
    {
      var k := |out|;
      while k > 0 && Less(rs[i].resource.name, out[k - 1].resource.name)
        invariant 0 <= k <= |out|
        invariant forall j :: k <= j < |out| ==> Less(rs[i].resource.name, out[j].resource.name)
      {
        k := k - 1;
      }
      Inserted(out, k, rs[i]);
      assert rs[..i + 1] == rs[..i] + [rs[i]];
      out := out[..k] + [rs[i]] + out[k..];
    }
    assert rs[..|rs|] == rs;
  }

  lemma Inserted(out: seq<ApiResource>, k: nat, r: ApiResource)
    requires k <= |out| && SortedByName(out)
    requires k > 0 ==> !Less(r.resource.name, out[k - 1].resource.name)
    requires forall j :: k <= j < |out| ==> Less(r.resource.name, out[j].resource.name)
    ensures SortedByName(out[..k] + [r] + out[k..])
    ensures multiset(out[..k] + [r] + out[k..]) == multiset(out) + multiset{r}
  {
    NotBefore(out, k, r);
    InsertedOnce(out, k, r);
    InsertedInOrder(out, k, r, (a: ApiResource, b: ApiResource) => !Less(b.resource.name, a.resource.name));
  }

  lemma InsertedOnce<T>(out: seq<T>, k: nat, r: T)
    requires k <= |out|
    ensures multiset(out[..k] + [r] + out[k..]) == multiset(out) + multiset{r}
  {
    assert out == out[..k] + out[k..];
  }

  lemma InsertedInOrder<T>(out: seq<T>, k: nat, r: T, atMost: (T, T) -> bool)
    requires k <= |out|
    requires forall i, j :: 0 <= i < j < |out| ==> atMost(out[i], out[j])
    requires forall j :: 0 <= j < k ==> atMost(out[j], r)
    requires forall j :: k <= j < |out| ==> atMost(r, out[j])
    ensures var s := out[..k] + [r] + out[k..];
            forall i, j :: 0 <= i < j < |s| ==> atMost(s[i], s[j])
  {
  }

  lemma NotBefore(out: seq<ApiResource>, k: nat, r: ApiResource)
    requires k <= |out| && SortedByName(out)
    requires k > 0 ==> !Less(r.resource.name, out[k - 1].resource.name)
    requires forall j :: k <= j < |out| ==> Less(r.resource.name, out[j].resource.name)
    ensures forall j :: 0 <= j < k ==> !Less(r.resource.name, out[j].resource.name)
    ensures forall j :: k <= j < |out| ==> !Less(out[j].resource.name, r.resource.name)
  {
    forall j | 0 <= j < k ensures !Less(r.resource.name, out[j].resource.name) {
      var x, y, z := r.resource.name, out[j].resource.name, out[k - 1].resource.name;
      LessTotal(y, z);
      if Less(x, y) && Less(y, z) {
        LessTransitive(x, y, z);
      }
    }
    forall j | k <= j < |out| ensures !Less(out[j].resource.name, r.resource.name) {
      LessAsymmetric(out[j].resource.name, r.resource.name);
    }
  }

  // ---- metadata over the rows themselves ----

  /** Row i is the last with its key. */
  ghost predicate LastOfKey(fields: seq<Field>, i: int) {
    0 <= i < |fields| && forall j :: i < j < |fields| ==> fields[j].key != fields[i].key
  }

  ghost predicate NoneOfKey(fields: seq<Field>, key: string) {
    forall j :: 0 <= j < |fields| ==> fields[j].key != key
  }

  lemma {:induction false} LastRowIsMapped(kind: string, fields: seq<Field>, i: int)
    requires LastOfKey(fields, i)
    ensures var m := FieldMap(kind, fields); fields[i].key in m && m[fields[i].key] == fields[i]
    decreases |fields|
  {
    var n := |fields| - 1;
    if i < n {
      assert fields[n].key != fields[i].key;
      assert LastOfKey(fields[..n], i);
      LastRowIsMapped(kind, fields[..n], i);
    }
  }

  lemma {:induction false} AbsentKeyIsImplicit(kind: string, fields: seq<Field>, key: string)
    requires NoneOfKey(fields, key)
    ensures var m := FieldMap(kind, fields);
            && (key in m <==> key == "type")
            && (key == "type" ==> m[key].value == Some(kind) && !m[key].sensitive)
    decreases |fields|
  {
    if fields != [] {
      var n := |fields| - 1;
      assert fields[n].key != key;
      AbsentKeyIsImplicit(kind, fields[..n], key);
    }
  }

  lemma {:induction false} SomeRowIsLast(fields: seq<Field>, key: string) returns (i: int)
    requires !NoneOfKey(fields, key)
    ensures LastOfKey(fields, i) && fields[i].key == key
    decreases |fields|
  {
    i := |fields| - 1;
    if fields[i].key != key {
      var n, front := i, fields[..i];
      var j :| 0 <= j < |fields| && fields[j].key == key;
      assert front[j].key == key;
      i := SomeRowIsLast(front, key);
      forall j' | i < j' < |fields| ensures fields[j'].key != fields[i].key {
        assert j' < n ==> front[j'].key != front[i].key;
      }
    }
  }

  /** A shown entry is the last row of its key with that value and sensitivity, or the resource's kind under "type". */
  ghost predicate FromRows(kind: string, fields: seq<Field>, e: Entry) {
    || (exists i :: LastOfKey(fields, i) && fields[i].key == e.key && fields[i].value == Some(e.value)
                    && fields[i].sensitive == e.sensitive)
    || (NoneOfKey(fields, "type") && e == Entry("type", kind, false))
  }

  lemma LastIsUnique(fields: seq<Field>, i: int, k: int)
    requires LastOfKey(fields, i) && LastOfKey(fields, k)
    ensures fields[i].key == fields[k].key <==> i == k
  {
  }

  /** The metadata of a resource, said of its rows: exactly those entries. */
  lemma MetadataOfRows(kind: string, fields: seq<Field>, es: seq<Entry>, e: Entry)
    requires IsMetadata(kind, fields, es)
    ensures e in es <==> FromRows(kind, fields, e)
  {
    var m := FieldMap(kind, fields);
    assert e in es <==> Shows(m, e);
    if NoneOfKey(fields, e.key) {
      AbsentKeyIsImplicit(kind, fields, e.key);
      assert FromRows(kind, fields, e) <==> NoneOfKey(fields, "type") && e == Entry("type", kind, false);
    } else {
      var i := SomeRowIsLast(fields, e.key);
      LastRowIsMapped(kind, fields, i);
      forall k | LastOfKey(fields, k) && fields[k].key == e.key ensures k == i {
        LastIsUnique(fields, i, k);
      }
    }
  }
}
