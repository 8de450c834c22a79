/**
  coderd/workspacebuilds.go: the parameter values a build request writes for its workspace.
  The store refuses two rows with one (scope_id, name), and a failed write rolls back the
  whole transaction.
*/
module Parameters {

  datatype Row = Row(id: nat, scopeId: nat, name: string, value: string)

  datatype Param = Param(name: string, value: string)

  ghost predicate UniqueIds(rows: seq<Row>) {
    forall i, j :: 0 <= i < j < |rows| ==> rows[i].id != rows[j].id
  }

  /** The key parameter_values_scope_id_name_key. */
  ghost predicate UniqueNames(rows: seq<Row>) {
    forall i, j :: 0 <= i < j < |rows| ==> rows[i].scopeId != rows[j].scopeId || rows[i].name != rows[j].name
  }

  ghost predicate DistinctNames(ps: seq<Param>) {
    forall i, j :: 0 <= i < j < |ps| ==> ps[i].name != ps[j].name
  }

  predicate Has(rows: seq<Row>, scopeId: nat, name: string) {
    exists i :: 0 <= i < |rows| && rows[i].scopeId == scopeId && rows[i].name == name
  }

  function Without(rows: seq<Row>, id: nat): seq<Row> {
    if rows == [] then []
    else if rows[0].id == id then Without(rows[1..], id)
    else [rows[0]] + Without(rows[1..], id)
  }

  function InScope(rows: seq<Row>, scopeId: nat): (r: seq<Row>)
    ensures forall x :: x in r <==> x in rows && x.scopeId == scopeId
  {
    if rows == [] then []
    else if rows[0].scopeId == scopeId then [rows[0]] + InScope(rows[1..], scopeId)
    else InScope(rows[1..], scopeId)
  }

  class Store {
    var rows: seq<Row>

    method DeleteByID(id: nat)
      modifies this
      ensures rows == Without(old(rows), id)
    {
      rows := Without(rows, id);
    }

    method Insert(row: Row) returns (ok: bool)
      modifies this
      ensures ok <==> !Has(old(rows), row.scopeId, row.name)
      ensures rows == if ok then old(rows) + [row] else old(rows)
    {
      ok := !Has(rows, row.scopeId, row.name);
      if ok { rows := rows + [row]; }
    }
  }

  // ---- what the loops amount to ----

  /** The rows that survive: other scopes, and names the request does not mention. */
  ghost function Kept(rows: seq<Row>, scopeId: nat, names: set<string>): seq<Row> {
    if rows == [] then []
    else if rows[0].scopeId == scopeId && rows[0].name in names then Kept(rows[1..], scopeId, names)
    else [rows[0]] + Kept(rows[1..], scopeId, names)
  }

  ghost function Inserted(ps: seq<Param>, scopeId: nat, ids: seq<nat>): seq<Row>
    requires |ids| >= |ps|
  {
    seq(|ps|, i requires 0 <= i < |ps| => Row(ids[i], scopeId, ps[i].name, ps[i].value))
  }

  ghost function Names(ps: seq<Param>): set<string> { set p | p in ps :: p.name }

  lemma {:induction false} WithoutAppend(a: seq<Row>, b: seq<Row>, id: nat)
    ensures Without(a + b, id) == Without(a, id) + Without(b, id)
  {
    if a == [] {
      assert a + b == b;
    } else {
      WithoutAppend(a[1..], b, id);
      assert (a + b)[1..] == a[1..] + b;
    }
  }

  lemma {:induction false} WithoutAbsent(rows: seq<Row>, id: nat)
    requires forall x :: x in rows ==> x.id != id
    ensures Without(rows, id) == rows
  {
    if rows != [] {
      assert rows[0] in rows;
      WithoutAbsent(rows[1..], id);
    }
  }

  lemma {:induction false} KeptMembers(rows: seq<Row>, scopeId: nat, names: set<string>)
    ensures forall x :: x in Kept(rows, scopeId, names) <==>
              x in rows && !(x.scopeId == scopeId && x.name in names)
  {
    if rows != [] {
      KeptMembers(rows[1..], scopeId, names);
    }
  }

  /** Deleting the one row that holds a requested name is keeping one name fewer. */
  lemma {:induction false} DeleteOneName(rows: seq<Row>, scopeId: nat, names: set<string>, row: Row)
    requires UniqueIds(rows) && UniqueNames(rows)
    requires row in rows && row.scopeId == scopeId
    ensures Without(Kept(rows, scopeId, names), row.id) == Kept(rows, scopeId, names + {row.name})
  {
    if rows[0] == row {
      DeleteFirstName(rows, scopeId, names);
    } else {
      var k :| 0 <= k < |rows| && rows[k] == row;
      assert rows[1..][k - 1] == row;
      assert rows[0].id != row.id && !(rows[0].scopeId == scopeId && rows[0].name == row.name);
      UniqueTail(rows);
      DeleteOneName(rows[1..], scopeId, names, row);
      WithoutOther(rows[0], Kept(rows[1..], scopeId, names), row.id);
    }
  }

  lemma UniqueTail(rows: seq<Row>)
    requires rows != [] && UniqueIds(rows) && UniqueNames(rows)
    ensures UniqueIds(rows[1..]) && UniqueNames(rows[1..])
  {
  }

  lemma WithoutOther(first: Row, rest: seq<Row>, id: nat)
    requires first.id != id
    ensures Without([first] + rest, id) == [first] + Without(rest, id)
  {
    assert ([first] + rest)[1..] == rest;
  }

  lemma DeleteFirstName(rows: seq<Row>, scopeId: nat, names: set<string>)
    requires rows != [] && UniqueIds(rows) && UniqueNames(rows) && rows[0].scopeId == scopeId
    ensures Without(Kept(rows, scopeId, names), rows[0].id) == Kept(rows, scopeId, names + {rows[0].name})
  {
    var row, rest := rows[0], rows[1..];
    KeptMembers(rest, scopeId, names);
    forall x | x in rest ensures x.id != row.id && !(x.scopeId == scopeId && x.name == row.name) {
      var k :| 0 <= k < |rest| && rest[k] == x;
      assert rows[k + 1] == x;
    }
    WithoutAbsent(Kept(rest, scopeId, names), row.id);
    KeptUnmentioned(rest, scopeId, names, row.name);
  }

  lemma {:induction false} KeptUnmentioned(rows: seq<Row>, scopeId: nat, names: set<string>, name: string)
    requires forall x :: x in rows ==> !(x.scopeId == scopeId && x.name == name)
    ensures Kept(rows, scopeId, names) == Kept(rows, scopeId, names + {name})
  {
    if rows != [] {
      assert rows[0] in rows;
      KeptUnmentioned(rows[1..], scopeId, names, name);
    }
  }

  ghost predicate FreshIds(ids: seq<nat>, rows: seq<Row>) {
    && (forall i, j :: 0 <= i < j < |ids| ==> ids[i] != ids[j])
    && (forall i, x :: 0 <= i < |ids| && x in rows ==> x.id != ids[i])
  }

  lemma FreshFromKept(was: seq<Row>, done: seq<Param>, scopeId: nat, ids: seq<nat>)
    requires |ids| >= |done| && FreshIds(ids, was)
    ensures forall x, y :: x in was && y in Inserted(done, scopeId, ids) ==> x.id != y.id
  {
  }

  /** The inner loop over the snapshot: at most one row goes. */
  method DeleteExisting(db: Store, existing: seq<Row>, name: string,
                        ghost was: seq<Row>, ghost scopeId: nat, ghost names: set<string>, ghost added: seq<Row>)
    requires UniqueIds(was) && UniqueNames(was) && existing == InScope(was, scopeId)
    requires db.rows == Kept(was, scopeId, names) + added
    requires forall x, y :: x in was && y in added ==> x.id != y.id
    modifies db
    ensures db.rows == Kept(was, scopeId, names + {name}) + added
  {
    var i := 0;
    ghost var found := false;
    while i < |existing|
      invariant 0 <= i <= |existing|
      invariant db.rows == Kept(was, scopeId, if found then names + {name} else names) + added
      invariant !found ==> forall k :: 0 <= k < i ==> existing[k].name != name
    {
      if existing[i].name == name {
        ghost var gone := if found then names + {name} else names;
        assert existing[i] in was;
        WithoutAppend(Kept(was, scopeId, gone), added, existing[i].id);
        WithoutAbsent(added, existing[i].id);
        DeleteOneName(was, scopeId, gone, existing[i]);
        db.DeleteByID(existing[i].id);
        assert gone + {name} == names + {name};
        found := true;
      }
      i := i + 1;
    }
    if !found {
      forall x | x in was ensures !(x.scopeId == scopeId && x.name == name) {
        if x.scopeId == scopeId {
          assert x in existing;
        }
      }
      KeptUnmentioned(was, scopeId, names, name);
    }
  }

  lemma InsertRefusedIff(was: seq<Row>, scopeId: nat, done: seq<Param>, ids: seq<nat>, name: string)
    requires |ids| >= |done|
    ensures Has(Kept(was, scopeId, Names(done) + {name}) + Inserted(done, scopeId, ids), scopeId, name)
            <==> name in Names(done)
  {
    var kept, ins := Kept(was, scopeId, Names(done) + {name}), Inserted(done, scopeId, ids);
    KeptMembers(was, scopeId, Names(done) + {name});
    var rows := kept + ins;
    forall i | 0 <= i < |kept| ensures !(rows[i].scopeId == scopeId && rows[i].name == name) {
      assert kept[i] in kept;
    }
    if name in Names(done) {
      var p :| p in done && p.name == name;
      var k :| 0 <= k < |done| && done[k] == p;
      assert rows[|kept| + k] == ins[k];
    }
    if Has(rows, scopeId, name) {
      var i :| 0 <= i < |rows| && rows[i].scopeId == scopeId && rows[i].name == name;
      assert rows[i] == ins[i - |kept|];
      assert done[i - |kept|] in done;
    }
  }

  /** One round of the outer loop: drop the stored row of that name, then insert. */
  method WriteOne(db: Store, existing: seq<Row>, scopeId: nat, request: seq<Param>, i: nat, ids: seq<nat>,
                  ghost was: seq<Row>) returns (ok: bool)
    requires UniqueIds(was) && UniqueNames(was) && existing == InScope(was, scopeId)
    requires i < |request| == |ids| && FreshIds(ids, was) && DistinctNames(request[..i])
    requires db.rows == Kept(was, scopeId, Names(request[..i])) + Inserted(request[..i], scopeId, ids)
    modifies db
    ensures ok <==> request[i].name !in Names(request[..i])
    ensures ok ==> DistinctNames(request[..i + 1])
    ensures ok ==> db.rows == Kept(was, scopeId, Names(request[..i + 1])) + Inserted(request[..i + 1], scopeId, ids)
  {
    var p := request[i];
    ghost var done := request[..i];
    FreshFromKept(was, done, scopeId, ids);
    DeleteExisting(db, existing, p.name, was, scopeId, Names(done), Inserted(done, scopeId, ids));
    InsertRefusedIff(was, scopeId, done, ids, p.name);
    ok := db.Insert(Row(ids[i], scopeId, p.name, p.value));
    OneMore(request, i, scopeId, ids);
  }

  /**
    The transaction of postWorkspaceBuilds: it succeeds exactly when no name is requested
    twice, and then the table is the surviving rows followed by the requested ones.
  */
  method WriteParameters(db: Store, scopeId: nat, request: seq<Param>, ids: seq<nat>) returns (ok: bool)
    requires UniqueIds(db.rows) && UniqueNames(db.rows)
    requires |ids| == |request| && FreshIds(ids, db.rows)
    modifies db
    ensures ok <==> DistinctNames(request)
    ensures !ok ==> db.rows == old(db.rows)
    ensures ok ==> db.rows == Kept(old(db.rows), scopeId, Names(request)) + Inserted(request, scopeId, ids)
  {
    var saved := db.rows;
    var existing := InScope(db.rows, scopeId);
    var i := 0;
    KeptUnmentionedAll(saved, scopeId);
    assert Inserted(request[..0], scopeId, ids) == [];
    while i < |request|
      invariant 0 <= i <= |request| && DistinctNames(request[..i])
      invariant db.rows == Kept(saved, scopeId, Names(request[..i])) + Inserted(request[..i], scopeId, ids)
    {
      ok := WriteOne(db, existing, scopeId, request, i, ids, saved);
      if !ok {
        RepeatedName(request, i);
        db.rows := saved;
        return;
      }
      i := i + 1;
    }
    assert request[..i] == request;
    ok := true;
  }

  lemma OneMore(request: seq<Param>, i: nat, scopeId: nat, ids: seq<nat>)
    requires i < |request| <= |ids|
    ensures var p, done := request[i], request[..i];
            && Names(request[..i + 1]) == Names(done) + {p.name}
            && Inserted(request[..i + 1], scopeId, ids) ==
               Inserted(done, scopeId, ids) + [Row(ids[i], scopeId, p.name, p.value)]
            && (p.name !in Names(done) && DistinctNames(done) ==> DistinctNames(request[..i + 1]))
  {
    var p, done := request[i], request[..i];
    assert request[..i + 1] == done + [p];
    forall k | 0 <= k < i ensures request[k].name in Names(done) {
      assert request[k] == done[k];
    }
  }

  lemma RepeatedName(request: seq<Param>, i: nat)
    requires i < |request| && request[i].name in Names(request[..i])
    ensures !DistinctNames(request)
  {
    var p :| p in request[..i] && p.name == request[i].name;
    var k :| 0 <= k < i && request[..i][k] == p;
    assert request[k].name == request[i].name;
  }

  lemma {:induction false} KeptUnmentionedAll(rows: seq<Row>, scopeId: nat)
    ensures Kept(rows, scopeId, Names([])) == rows
  {
    assert Names([]) == {};
    if rows != [] {
      KeptUnmentionedAll(rows[1..], scopeId);
    }
  }

  // ---- as a map ----

  ghost function ValueOf(rows: seq<Row>, scopeId: nat): map<string, string> {
    if rows == [] then map[]
    else if rows[0].scopeId == scopeId then ValueOf(rows[1..], scopeId)[rows[0].name := rows[0].value]
    else ValueOf(rows[1..], scopeId)
  }

  ghost function Requested(ps: seq<Param>): map<string, string> {
    if ps == [] then map[] else Requested(ps[1..])[ps[0].name := ps[0].value]
  }

  lemma {:induction false} ValueOfAppend(a: seq<Row>, b: seq<Row>, scopeId: nat)
    requires ValueOf(a, scopeId).Keys !! ValueOf(b, scopeId).Keys
    ensures ValueOf(a + b, scopeId) == ValueOf(a, scopeId) + ValueOf(b, scopeId)
  {
    if a == [] {
      assert a + b == b;
    } else {
      ValueOfAppend(a[1..], b, scopeId);
      assert (a + b)[1..] == a[1..] + b;
    }
  }

  lemma {:induction false} ValueOfInserted(ps: seq<Param>, scopeId: nat, ids: seq<nat>)
    requires |ids| >= |ps|
    ensures ValueOf(Inserted(ps, scopeId, ids), scopeId) == Requested(ps)
    ensures Requested(ps).Keys == Names(ps)
  {
    if ps != [] {
      ValueOfInserted(ps[1..], scopeId, ids[1..]);
      assert Inserted(ps, scopeId, ids)[1..] == Inserted(ps[1..], scopeId, ids[1..]);
      assert ps == [ps[0]] + ps[1..];
    }
  }

  lemma {:induction false} ValueOfKept(rows: seq<Row>, scopeId: nat, names: set<string>)
    requires UniqueNames(rows)
    ensures ValueOf(Kept(rows, scopeId, names), scopeId) == ValueOf(rows, scopeId) - names
  {
    if rows != [] {
      ValueOfKept(rows[1..], scopeId, names);
      if rows[0].scopeId == scopeId && rows[0].name in names {
        assert ValueOf(rows, scopeId) - names == ValueOf(rows[1..], scopeId) - names;
      }
    }
  }

  /** The workspace's values become the old ones overridden by the requested ones. */
  lemma WritingOverrides(was: seq<Row>, scopeId: nat, request: seq<Param>, ids: seq<nat>)
    requires UniqueNames(was) && |ids| == |request|
    ensures ValueOf(Kept(was, scopeId, Names(request)) + Inserted(request, scopeId, ids), scopeId) ==
            ValueOf(was, scopeId) + Requested(request)
  {
    ValueOfKept(was, scopeId, Names(request));
    ValueOfInserted(request, scopeId, ids);
    ValueOfAppend(Kept(was, scopeId, Names(request)), Inserted(request, scopeId, ids), scopeId);
  }

  /** Each name still has one row, and rows of other workspaces are untouched. */
  lemma WritingKeepsKeyAndOthers(was: seq<Row>, scopeId: nat, request: seq<Param>, ids: seq<nat>, other: nat)
    requires UniqueNames(was) && |ids| == |request| && DistinctNames(request) && other != scopeId
    ensures var rows := Kept(was, scopeId, Names(request)) + Inserted(request, scopeId, ids);
            UniqueNames(rows) && InScope(rows, other) == InScope(was, other)
  {
    var kept, ins := Kept(was, scopeId, Names(request)), Inserted(request, scopeId, ids);
    KeptUnique(was, scopeId, Names(request));
    KeptMembers(was, scopeId, Names(request));
    forall i, j | 0 <= i < |kept| && 0 <= j < |ins|
      ensures kept[i].scopeId != ins[j].scopeId || kept[i].name != ins[j].name
    {
      assert kept[i] in kept && request[j] in request;
    }
    KeptOthers(was, scopeId, Names(request), other);
    InScopeAppend(kept, ins, other);
    NoneInScope(ins, other);
  }

  lemma {:induction false} NoneInScope(rows: seq<Row>, other: nat)
    requires forall i :: 0 <= i < |rows| ==> rows[i].scopeId != other
    ensures InScope(rows, other) == []
  {
    if rows != [] {
      NoneInScope(rows[1..], other);
    }
  }

  lemma {:induction false} KeptUnique(rows: seq<Row>, scopeId: nat, names: set<string>)
    requires UniqueNames(rows)
    ensures UniqueNames(Kept(rows, scopeId, names))
  {
    if rows != [] {
      var rest := Kept(rows[1..], scopeId, names);
      KeptUnique(rows[1..], scopeId, names);
      KeptMembers(rows[1..], scopeId, names);
      forall j | 0 <= j < |rest|
        ensures rows[0].scopeId != rest[j].scopeId || rows[0].name != rest[j].name
      {
        assert rest[j] in rest;
        var k :| 0 <= k < |rows[1..]| && rows[1..][k] == rest[j];
        assert rows[k + 1] == rest[j];
      }
    }
  }

  lemma {:induction false} KeptOthers(rows: seq<Row>, scopeId: nat, names: set<string>, other: nat)
    requires other != scopeId
    ensures InScope(Kept(rows, scopeId, names), other) == InScope(rows, other)
  {
    if rows != [] {
      KeptOthers(rows[1..], scopeId, names, other);
    }
  }

  lemma {:induction false} InScopeAppend(a: seq<Row>, b: seq<Row>, scopeId: nat)
    ensures InScope(a + b, scopeId) == InScope(a, scopeId) + InScope(b, scopeId)
  {
    if a == [] {
      assert a + b == b;
    } else {
      InScopeAppend(a[1..], b, scopeId);
      assert (a + b)[1..] == a[1..] + b;
    }
  }
}
