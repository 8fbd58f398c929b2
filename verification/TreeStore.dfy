/**
 The tree store on linked node objects: assembling a forest from flat rows through a map
 from ids to objects, and the pre-order walk that lists the objects again.
 */
module TreeStore {
  import opened Prelude
  import opened LegalNodes
  import opened Hierarchy

  // ----- An insertion-ordered map, as the rows of its values -----

  function IndexOfId(rows: seq<FlatNode>, id: string): (r: Option<nat>)
    ensures r.Some? ==> r.value < |rows| && rows[r.value].id == id
    ensures r.None? ==> forall i :: 0 <= i < |rows| ==> rows[i].id != id
    decreases |rows|
  {
    if rows == [] then None
    else if rows[|rows| - 1].id == id then Some(|rows| - 1)
    else IndexOfId(rows[..|rows| - 1], id)
  }

  /** `map.set(row.id, row)`: a known key keeps its position and takes the new value. */
  function Put(rows: seq<FlatNode>, row: FlatNode): (r: seq<FlatNode>) {
    match IndexOfId(rows, row.id)
    case Some(i) => rows[i := row]
    case None => rows + [row]
  }

  /** The rows left after inserting all of `flat`, in iteration order. */
  function Entries(flat: seq<FlatNode>): (r: seq<FlatNode>)
    ensures UniqueIds(r)
    decreases |flat|
  {
    if flat == [] then [] else Put(Entries(flat[..|flat| - 1]), flat[|flat| - 1])
  }

  lemma {:induction false} EntriesOfUnique(flat: seq<FlatNode>)
    requires UniqueIds(flat)
    ensures Entries(flat) == flat
    decreases |flat|
  {
    if flat != [] {
      EntriesOfUnique(flat[..|flat| - 1]);
      assert flat == flat[..|flat| - 1] + [flat[|flat| - 1]];
    }
  }

  /** The row is the last one of the list with its id. */
  ghost predicate LastWithId(flat: seq<FlatNode>, n: FlatNode) {
    exists k :: 0 <= k < |flat| && flat[k] == n && forall j :: k < j < |flat| ==> flat[j].id != n.id
  }

  /** The ids of the list, each where it occurs first. */
  function FirstIds(flat: seq<FlatNode>): (r: seq<string>)
    decreases |flat|
  {
    if flat == [] then []
    else
      var before, last := FirstIds(flat[..|flat| - 1]), flat[|flat| - 1].id;
      if last in before then before else before + [last]
  }

  lemma PutIdList(rows: seq<FlatNode>, row: FlatNode)
    ensures Ids(Put(rows, row)) == if row.id in Ids(rows) then Ids(rows) else Ids(rows) + [row.id]
  {
    var at := IndexOfId(rows, row.id);
    if at.Some? {
      assert Ids(rows)[at.value] == row.id;
    }
  }

  lemma PutMembers(rows: seq<FlatNode>, row: FlatNode, n: FlatNode)
    requires UniqueIds(rows)
    ensures n in Put(rows, row) <==> n == row || (n in rows && n.id != row.id)
  {
    var at, after := IndexOfId(rows, row.id), Put(rows, row);
    if at.Some? {
      assert after[at.value] == row;
      if n in rows && n.id != row.id {
        var i :| 0 <= i < |rows| && rows[i] == n;
        assert after[i] == n;
      }
    }
  }

  lemma LastStep(flat: seq<FlatNode>, n: FlatNode)
    requires flat != []
    ensures var before, last := flat[..|flat| - 1], flat[|flat| - 1];
            LastWithId(flat, n) <==> n == last || (LastWithId(before, n) && n.id != last.id)
  {
    var before, last := flat[..|flat| - 1], flat[|flat| - 1];
    if LastWithId(flat, n) && n != last {
      var k :| 0 <= k < |flat| && flat[k] == n && forall j :: k < j < |flat| ==> flat[j].id != n.id;
      assert before[k] == n && forall j :: k < j < |before| ==> before[j] == flat[j];
    }
    if LastWithId(before, n) && n.id != last.id {
      var k :| 0 <= k < |before| && before[k] == n && forall j :: k < j < |before| ==> before[j].id != n.id;
      assert flat[k] == n && forall j :: k < j < |before| ==> before[j] == flat[j];
    }
  }

  lemma {:induction false} EntriesIds(flat: seq<FlatNode>)
    ensures Ids(Entries(flat)) == FirstIds(flat)
    decreases |flat|
  {
    if flat != [] {
      EntriesIds(flat[..|flat| - 1]);
      PutIdList(Entries(flat[..|flat| - 1]), flat[|flat| - 1]);
    }
  }

  lemma {:induction false} EntriesMembers(flat: seq<FlatNode>, n: FlatNode)
    ensures n in Entries(flat) <==> LastWithId(flat, n)
    decreases |flat|
  {
    if flat != [] {
      var before, last := flat[..|flat| - 1], flat[|flat| - 1];
      EntriesMembers(before, n);
      PutMembers(Entries(before), last, n);
      LastStep(flat, n);
    }
  }

  /** What is left of a list with repeated ids: the last row of every id, in the place of the first. */
  lemma EntriesMeaning(flat: seq<FlatNode>)
    ensures forall n :: n in Entries(flat) <==> LastWithId(flat, n)
    ensures Ids(Entries(flat)) == FirstIds(flat)
  {
    EntriesIds(flat);
    forall n
      ensures n in Entries(flat) <==> LastWithId(flat, n)
    {
      EntriesMembers(flat, n);
    }
  }

  // ----- Objects behind rows -----

  function Objects(rows: seq<FlatNode>, byId: map<string, LegalNode>): (r: seq<LegalNode>)
    requires forall i :: 0 <= i < |rows| ==> rows[i].id in byId
    ensures |r| == |rows| && forall i :: 0 <= i < |rows| ==> r[i] == byId[rows[i].id]
  {
    seq(|rows|, i requires 0 <= i < |rows| => byId[rows[i].id])
  }

  /** `byId` maps the id of each row to an object of its own holding that row. */
  ghost predicate Holds(rows: seq<FlatNode>, byId: map<string, LegalNode>)
    reads byId.Values
  {
    byId.Keys == IdSet(rows) &&
    (forall i :: 0 <= i < |rows| ==> rows[i].id in byId && byId[rows[i].id].Row() == rows[i]) &&
    (forall a, b :: a in byId && b in byId && a != b ==> byId[a] != byId[b])
  }

  lemma RootsAreRows(all: seq<FlatNode>, rows: seq<FlatNode>)
    ensures forall i :: 0 <= i < |Roots(all, rows)| ==> Roots(all, rows)[i] in rows
    decreases |rows|
  {
    if rows != [] {
      RootsAreRows(all, rows[1..]);
    }
  }

  /** Every object's children are the objects of its kids among `done`, in order. */
  ghost predicate Linked(rows: seq<FlatNode>, done: seq<FlatNode>, byId: map<string, LegalNode>)
    reads byId.Values
  {
    forall i :: 0 <= i < |rows| ==> rows[i].id in byId && LinkedAt(rows[i].id, done, byId)
  }

  ghost predicate LinkedAt(id: string, done: seq<FlatNode>, byId: map<string, LegalNode>)
    requires id in byId
    reads byId.Values
  {
    (forall c :: c in Kids(done, id) ==> c.id in byId) &&
    byId[id].children == Objects(Kids(done, id), byId)
  }

  lemma PutIds(rows: seq<FlatNode>, row: FlatNode)
    ensures IdSet(Put(rows, row)) == IdSet(rows) + {row.id}
    ensures Ids(Put(rows, row)) == if row.id in IdSet(rows) then Ids(rows) else Ids(rows) + [row.id]
  {
    var after := Put(rows, row);
    match IndexOfId(rows, row.id) {
      case None =>
        IdSetConcat(rows, [row]);
        assert row in [row];
      case Some(i) =>
        assert rows[i] in rows;
        assert after[i] == row && row in after;
        forall x | x in IdSet(rows)
          ensures x in IdSet(after)
        {
          var m :| m in rows && m.id == x;
          var j :| 0 <= j < |rows| && rows[j] == m;
          assert after[j].id == x && after[j] in after;
        }
        forall x | x in IdSet(after)
          ensures x in IdSet(rows) + {row.id}
        {
          var m :| m in after && m.id == x;
          var j :| 0 <= j < |after| && after[j] == m;
          assert rows[j] in rows && rows[j].id == x;
        }
    }
  }

  lemma PutRows(rows: seq<FlatNode>, row: FlatNode, byId: map<string, LegalNode>, node: LegalNode, i: nat)
    requires Holds(rows, byId) && UniqueIds(rows) && node.Row() == row && i < |Put(rows, row)|
    ensures var after := Put(rows, row); var byId' := byId[row.id := node];
            after[i].id in byId' && byId'[after[i].id].Row() == after[i]
  {
    PutIds(rows, row);
    var after := Put(rows, row);
    if after[i].id != row.id {
      assert rows[i] == after[i];
    }
  }

  lemma PutHolds(rows: seq<FlatNode>, row: FlatNode, byId: map<string, LegalNode>, node: LegalNode)
    requires Holds(rows, byId) && UniqueIds(rows) && node.Row() == row && node !in byId.Values
    ensures Holds(Put(rows, row), byId[row.id := node])
  {
    var after := Put(rows, row);
    var byId' := byId[row.id := node];
    PutIds(rows, row);
    forall i | 0 <= i < |after|
      ensures after[i].id in byId' && byId'[after[i].id].Row() == after[i]
    {
      PutRows(rows, row, byId, node, i);
    }
    forall a, b | a in byId' && b in byId' && a != b
      ensures byId'[a] != byId'[b]
    {
      assert a != row.id ==> byId[a] in byId.Values;
      assert b != row.id ==> byId[b] in byId.Values;
    }
  }

  /** First loop of the assembler: one childless object per id, in insertion order. */
  method Insert(flat: seq<FlatNode>) returns (order: seq<string>, byId: map<string, LegalNode>)
    ensures Holds(Entries(flat), byId) && order == Ids(Entries(flat))
    ensures forall id :: id in byId ==> fresh(byId[id]) && byId[id].children == []
  {
    order, byId := [], map[];
    ghost var rows: seq<FlatNode> := [];
    for k := 0 to |flat|
      invariant rows == Entries(flat[..k])
      invariant Holds(rows, byId)
      invariant order == Ids(rows)
      invariant forall id :: id in byId ==> fresh(byId[id]) && byId[id].children == []
    {
      var row := flat[k];
      assert flat[..k + 1][..k] == flat[..k];
      var node := new LegalNode(row);
      PutHolds(rows, row, byId, node);
      if row.id !in byId {
        order := order + [row.id];
      }
      assert order == Ids(Put(rows, row)) by {
        PutIds(rows, row);
      }
      byId := byId[row.id := node];
      rows := Put(rows, row);
    }
    assert flat[..|flat|] == flat;
  }

  lemma {:induction false} KidsStep(rows: seq<FlatNode>, i: nat, id: string)
    requires i < |rows|
    ensures Kids(rows[..i + 1], id) ==
            Kids(rows[..i], id)
            + (if Truthy(rows[i].parentId) && rows[i].parentId.value == id then [rows[i]] else [])
  {
    assert rows[..i + 1] == rows[..i] + [rows[i]];
    KidsConcat(rows[..i], [rows[i]], id);
  }

  lemma {:induction false} RootsStep(rows: seq<FlatNode>, i: nat)
    requires i < |rows|
    ensures Roots(rows, rows[..i + 1]) ==
            Roots(rows, rows[..i]) + (if Up(rows, rows[i]).None? then [rows[i]] else [])
  {
    assert rows[..i + 1] == rows[..i] + [rows[i]];
    RootsConcat(rows, rows[..i], [rows[i]]);
  }

  lemma KeysAreIds(rows: seq<FlatNode>, id: string)
    ensures id in IdSet(rows) <==> Lookup(rows, id).Some?
  {
    if id in IdSet(rows) {
      var m :| m in rows && m.id == id;
    }
  }

  /** The children of one object after row `i` has been handled. */
  lemma LinkedAtStep(rows: seq<FlatNode>, i: nat, id: string, byId: map<string, LegalNode>,
                     before: seq<LegalNode>)
    requires i < |rows| && Holds(rows, byId) && id in byId
    requires forall c :: c in Kids(rows[..i], id) ==> c.id in byId
    requires before == Objects(Kids(rows[..i], id), byId)
    requires byId[id].children ==
             before + if rows[i].parentId == Some(id) && id != "" then [byId[rows[i].id]] else []
    ensures LinkedAt(id, rows[..i + 1], byId)
  {
    KidsStep(rows, i, id);
  }

  lemma RootObjects(rows: seq<FlatNode>, i: nat, byId: map<string, LegalNode>)
    requires i < |rows| && Holds(rows, byId)
    ensures forall m :: m in Roots(rows, rows[..i + 1]) ==> m.id in byId
    ensures forall m :: m in Roots(rows, rows[..i]) ==> m.id in byId
    ensures Objects(Roots(rows, rows[..i + 1]), byId) ==
            Objects(Roots(rows, rows[..i]), byId)
            + if Up(rows, rows[i]).None? then [byId[rows[i].id]] else []
  {
    RootsStep(rows, i);
    RootsAreRows(rows, rows[..i]);
    RootsAreRows(rows, rows[..i + 1]);
  }

  /** Second loop body: hang one object under its parent, or make it a root. */
  method Link(ghost rows: seq<FlatNode>, ghost i: nat, byId: map<string, LegalNode>, id: string,
              roots: seq<LegalNode>) returns (roots': seq<LegalNode>)
    requires i < |rows| && id == rows[i].id && Holds(rows, byId) && Linked(rows, rows[..i], byId)
    modifies byId.Values
    ensures Holds(rows, byId) && Linked(rows, rows[..i + 1], byId)
    ensures roots' == roots + if Up(rows, rows[i]).None? then [byId[id]] else []
  {
    var node := byId[id];
    var parentId := node.head.parentId;
    assert parentId == rows[i].parentId by {
      assert node.Row() == rows[i];
    }
    roots' := roots;
    if Truthy(parentId) {
      KeysAreIds(rows, parentId.value);
    }
    if Truthy(parentId) && parentId.value in byId {
      var parent := byId[parentId.value];
      parent.children := parent.children + [node];
    } else {
      roots' := roots' + [node];
    }
    assert Holds(rows, byId);
    forall j | 0 <= j < |rows|
      ensures LinkedAt(rows[j].id, rows[..i + 1], byId)
    {
      assert old(LinkedAt(rows[j].id, rows[..i], byId));
      assert byId[rows[j].id].children ==
        old(byId[rows[j].id].children)
        + if rows[i].parentId == Some(rows[j].id) && rows[j].id != "" then [node] else [];
      LinkedAtStep(rows, i, rows[j].id, byId, old(byId[rows[j].id].children));
    }
  }

  /** Fully linked objects represent every tree that is assembled from their rows. */
  lemma {:induction false} LinkedRepresents(rows: seq<FlatNode>, byId: map<string, LegalNode>, t: Tree)
    requires UniqueIds(rows) && Holds(rows, byId) && Linked(rows, rows, byId) && Matches(rows, t)
    ensures t.node.id in byId && Represents(byId[t.node.id], t, byId.Values)
    decreases t
  {
    var i :| 0 <= i < |rows| && rows[i] == t.node;
    assert LinkedAt(rows[i].id, rows, byId);
    var o := byId[t.node.id];
    assert |o.children| == |Heads(t.children)| == |t.children|;
    forall j | 0 <= j < |t.children|
      ensures Represents(o.children[j], t.children[j], byId.Values)
    {
      assert Heads(t.children)[j] == t.children[j].node;
      LinkedRepresents(rows, byId, t.children[j]);
    }
  }

  lemma LinkedForest(rows: seq<FlatNode>, byId: map<string, LegalNode>, roots: seq<LegalNode>)
    requires UniqueIds(rows) && Holds(rows, byId) && Linked(rows, rows, byId)
    requires forall m :: m in Roots(rows, rows) ==> m.id in byId
    requires roots == Objects(Roots(rows, rows), byId)
    ensures RepresentsAll(roots, AssembleForest(rows), byId.Values)
  {
    var ts := AssembleForest(rows);
    AssemblyMatches(rows);
    forall i | 0 <= i < |ts|
      ensures Represents(roots[i], ts[i], byId.Values)
    {
      assert Heads(ts)[i] == ts[i].node;
      LinkedRepresents(rows, byId, ts[i]);
    }
  }

  /** The second loop of the assembler. */
  method LinkAll(ghost rows: seq<FlatNode>, order: seq<string>, byId: map<string, LegalNode>)
    returns (roots: seq<LegalNode>)
    requires Holds(rows, byId) && Linked(rows, [], byId) && order == Ids(rows)
    modifies byId.Values
    ensures Holds(rows, byId) && Linked(rows, rows, byId)
    ensures forall m :: m in Roots(rows, rows) ==> m.id in byId
    ensures roots == Objects(Roots(rows, rows), byId)
  {
    roots := [];
    for i := 0 to |order|
      invariant Holds(rows, byId) && Linked(rows, rows[..i], byId)
      invariant forall m :: m in Roots(rows, rows[..i]) ==> m.id in byId
      invariant roots == Objects(Roots(rows, rows[..i]), byId)
    {
      RootObjects(rows, i, byId);
      roots := Link(rows, i, byId, order[i], roots);
    }
    assert rows[..|order|] == rows;
  }

  /**
   The assembler. On the rows that survive in the map it links the objects into exactly
   the forest `AssembleForest`, whatever cycles or dangling parents the rows contain.
   */
  method AssembleLegalNodeTree(flat: seq<FlatNode>)
    returns (roots: seq<LegalNode>, ghost repr: set<LegalNode>)
    ensures RepresentsAll(roots, AssembleForest(Entries(flat)), repr)
    ensures UniqueIds(flat) ==> RepresentsAll(roots, AssembleForest(flat), repr)
    ensures forall o :: o in repr ==> fresh(o)
  {
    var order, byId := Insert(flat);
    ghost var rows := Entries(flat);
    roots := LinkAll(rows, order, byId);
    repr := byId.Values;
    LinkedForest(rows, byId, roots);
    if UniqueIds(flat) {
      EntriesOfUnique(flat);
    }
  }

  // ----- The walk that lists the objects again -----

  ghost function Rows(ns: seq<LegalNode>): (r: seq<FlatNode>)
    reads ns
  {
    seq(|ns|, i requires 0 <= i < |ns| reads ns => ns[i].Row())
  }

  method Walk(n: LegalNode, ghost t: Tree, ghost repr: set<LegalNode>) returns (out: seq<LegalNode>)
    requires Represents(n, t, repr)
    ensures Rows(out) == Flatten(t)
    decreases t, 0
  {
    out := [n];
    assert Rows(out) == [t.node];
    var below := FlattenLegalNodes(n.children, t.children, repr);
    assert Rows(out + below) == Rows(out) + Rows(below);
    out := out + below;
  }

  /** Pre-order listing of the objects under the given roots. */
  method FlattenLegalNodes(ns: seq<LegalNode>, ghost ts: seq<Tree>, ghost repr: set<LegalNode>)
    returns (out: seq<LegalNode>)
    requires RepresentsAll(ns, ts, repr)
    ensures Rows(out) == FlattenAll(ts)
    decreases ts, 1
  {
    if ns == [] {
      return [];
    }
    var first := Walk(ns[0], ts[0], repr);
    var rest := FlattenLegalNodes(ns[1..], ts[1..], repr);
    out := first + rest;
    assert Rows(out) == Rows(first) + Rows(rest);
  }
}
