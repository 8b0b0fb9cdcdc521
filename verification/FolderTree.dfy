/** The folder hierarchy of the catalog: parents exist and no folder is its own ancestor. */
module FolderTree {
  import opened Wrappers
  import opened RefGraph

  datatype Folder = Folder(id: string, parentId: Option<string>)

  datatype CatalogError = DuplicateFolder | MissingParent | FolderCycle

  type Parents = map<string, Option<string>>

  function ParentsOf(folders: seq<Folder>): Parents {
    if folders == [] then map[]
    else ParentsOf(folders[..|folders| - 1])[folders[|folders| - 1].id := folders[|folders| - 1].parentId]
  }

  predicate ParentsExist(parents: Parents) {
    forall id :: id in parents && parents[id].Some? ==> parents[id].value in parents
  }

  /** The hierarchy as a graph whose names have at most one reference: to the parent. */
  function ParentGraph(parents: Parents): Graph {
    map id | id in parents :: if parents[id].Some? then [parents[id].value] else []
  }

  // ---------- the walk ----------

  /** A walk upwards from a folder, not yet at a checked one. */
  ghost predicate Climb(parents: Parents, path: seq<string>, current: Option<string>) {
    && (forall i :: 0 <= i < |path| ==> path[i] in parents)
    && (forall i :: 0 <= i < |path| - 1 ==> parents[path[i]] == Some(path[i + 1]))
    && (path != [] ==> parents[path[|path| - 1]] == current)
    && (forall i, j :: 0 <= i < j < |path| ==> path[i] != path[j])
  }

  function Members(path: seq<string>): set<string> {
    set x | x in path
  }

  /** The folders walked over can be ranked once the walk reached the top or a ranked folder. */
  lemma {:induction false} RankPath(parents: Parents, rank: map<string, nat>, height: nat, path: seq<string>, current: Option<string>)
    returns (rank': map<string, nat>, height': nat)
    requires ParentsExist(parents) && Climb(parents, path, current) && (current.Some? ==> current.value in rank)
    requires Ranked(ParentGraph(parents), rank) && Below(rank, height) && forall x :: x in path ==> x !in rank
    ensures Ranked(ParentGraph(parents), rank') && Below(rank', height') && rank'.Keys == rank.Keys + Members(path)
    decreases |path|
  {
    if path == [] {
      return rank, height;
    }
    var g := ParentGraph(parents);
    var last, front := path[|path| - 1], path[..|path| - 1];
    var rank1 := rank[last := height];
    forall a, b | a in rank1 && Edge(g, a, b) ensures b in rank1 && rank1[b] < rank1[a] {
      if a == last {
        assert parents[last] == Some(b);
      } else {
        assert b != last;
      }
    }
    rank', height' := RankPath(parents, rank1, height + 1, front, Some(last));
    assert path == front + [last];
  }

  /** A walk that comes back to a folder it has seen is a cycle. */
  lemma ClimbCloses(parents: Parents, path: seq<string>, current: string)
    requires Climb(parents, path, Some(current)) && current in path
    ensures Cyclic(ParentGraph(parents))
  {
    var k :| 0 <= k < |path| && path[k] == current;
    var cycle := path[k..] + [current];
    var g := ParentGraph(parents);
    forall i | 0 <= i < |cycle| - 1 ensures Edge(g, cycle[i], cycle[i + 1]) {
      assert parents[cycle[i]] == Some(cycle[i + 1]);
    }
    assert Cycle(g, cycle);
  }

  method CheckChain(parents: Parents, checked: set<string>, from: string, ghost rank: map<string, nat>, ghost height: nat)
    returns (raised: bool, seen: set<string>, ghost rank': map<string, nat>, ghost height': nat)
    requires ParentsExist(parents) && from in parents
    requires Ranked(ParentGraph(parents), rank) && Below(rank, height) && rank.Keys == checked
    ensures raised ==> Cyclic(ParentGraph(parents))
    ensures !raised ==> Ranked(ParentGraph(parents), rank') && Below(rank', height') && rank'.Keys == checked + seen
    ensures !raised ==> from in checked + seen
  {
    raised, seen, rank', height' := false, {}, rank, height;
    var current := Some(from);
    ghost var path: seq<string> := [];
    while current.Some? && current.value !in checked
      invariant Climb(parents, path, current) && Members(path) == seen && seen <= parents.Keys
      invariant forall x :: x in path ==> x !in rank
      invariant current.Some? ==> current.value in parents
      invariant path == [] ==> current == Some(from)
      invariant path != [] ==> path[0] == from
      decreases parents.Keys - seen
    {
      if current.value in seen {
        ClimbCloses(parents, path, current.value);
        raised := true;
        return;
      }
      seen := seen + {current.value};
      path := path + [current.value];
      current := parents[current.value];
    }
    rank', height' := RankPath(parents, rank, height, path, current);
  }

  /** The memo of checked folders does not change the answer: it raises exactly when some
    folder is its own ancestor. */
  method ValidateFolderCycles(folders: seq<Folder>) returns (raised: bool)
    requires ParentsExist(ParentsOf(folders))
    ensures raised <==> Cyclic(ParentGraph(ParentsOf(folders)))
  {
    var parents := ParentsOf(folders);
    var checked: set<string> := {};
    ghost var rank: map<string, nat>, height: nat := map[], 0;
    for i := 0 to |folders|
      invariant Ranked(ParentGraph(parents), rank) && Below(rank, height) && rank.Keys == checked
      invariant forall j :: 0 <= j < i ==> folders[j].id in checked
    {
      IdIsKey(folders, i);
      var seen;
      raised, seen, rank, height := CheckChain(parents, checked, folders[i].id, rank, height);
      if raised {
        return;
      }
      checked := checked + seen;
    }
    KeysAreIds(folders);
    RankedIsAcyclic(ParentGraph(parents), rank);
    raised := false;
  }

  lemma {:induction false} IdIsKey(folders: seq<Folder>, i: nat)
    requires i < |folders|
    ensures folders[i].id in ParentsOf(folders)
  {
    if i < |folders| - 1 {
      IdIsKey(folders[..|folders| - 1], i);
    }
  }

  lemma {:induction false} KeysAreIds(folders: seq<Folder>)
    ensures forall id :: id in ParentsOf(folders) ==> exists i :: 0 <= i < |folders| && folders[i].id == id
  {
    if folders != [] {
      var n := |folders| - 1;
      KeysAreIds(folders[..n]);
      forall id | id in ParentsOf(folders) ensures exists i :: 0 <= i < |folders| && folders[i].id == id {
        if id == folders[n].id {
        } else {
          assert id in ParentsOf(folders[..n]);
          var i :| 0 <= i < |folders[..n]| && folders[..n][i].id == id;
          assert folders[i].id == id;
        }
      }
    }
  }

  // ---------- the whole check ----------

  ghost predicate Distinct(folders: seq<Folder>) {
    forall i, j :: 0 <= i < j < |folders| ==> folders[i].id != folders[j].id
  }

  /** Every folder's parent is among the folders. */
  ghost predicate Rooted(folders: seq<Folder>) {
    forall f :: f in folders && f.parentId.Some? ==> exists p :: p in folders && p.id == f.parentId.value
  }

  method FolderIds(folders: seq<Folder>) returns (ids: set<string>, distinct: bool)
    ensures forall id :: id in ids <==> exists f :: f in folders && f.id == id
    ensures distinct <==> Distinct(folders)
  {
    ids, distinct := {}, true;
    for i := 0 to |folders|
      invariant forall id :: id in ids <==> exists f :: f in folders[..i] && f.id == id
      invariant distinct <==> Distinct(folders[..i])
    {
      assert folders[..i + 1] == folders[..i] + [folders[i]];
      if folders[i].id in ids {
        var f :| f in folders[..i] && f.id == folders[i].id;
        var k :| 0 <= k < i && folders[..i][k] == f;
        assert folders[..i + 1][k].id == folders[..i + 1][i].id;
        distinct := false;
      } else {
        StillDistinct(folders[..i], folders[i]);
      }
      ids := ids + {folders[i].id};
    }
    assert folders[..|folders|] == folders;
  }

  lemma StillDistinct(front: seq<Folder>, f: Folder)
    requires forall x :: x in front ==> x.id != f.id
    ensures Distinct(front + [f]) <==> Distinct(front)
  {
    if Distinct(front + [f]) {
      forall i, j | 0 <= i < j < |front| ensures front[i].id != front[j].id {
        assert (front + [f])[i].id != (front + [f])[j].id;
      }
    }
  }

  /** The folder checks of a catalog: distinct ids, existing parents, no cycle, in that order. */
  method ValidateFolders(folders: seq<Folder>) returns (r: Result<(), CatalogError>)
    ensures r == Err(DuplicateFolder) <==> !Distinct(folders)
    ensures r == Err(MissingParent) <==> Distinct(folders) && !Rooted(folders)
    ensures r == Err(FolderCycle) <==> Distinct(folders) && Rooted(folders) && Cyclic(ParentGraph(ParentsOf(folders)))
  {
    var ids, distinct := FolderIds(folders);
    if !distinct {
      return Err(DuplicateFolder);
    }
    for i := 0 to |folders|
      invariant forall j :: 0 <= j < i && folders[j].parentId.Some? ==> folders[j].parentId.value in ids
    {
      if folders[i].parentId.Some? && folders[i].parentId.value !in ids {
        assert folders[i] in folders;
        return Err(MissingParent);
      }
    }
    RootedParentsExist(folders);
    var raised := ValidateFolderCycles(folders);
    r := if raised then Err(FolderCycle) else Ok(());
  }

  lemma {:induction false} ParentIsListed(folders: seq<Folder>, id: string)
    requires id in ParentsOf(folders)
    ensures Folder(id, ParentsOf(folders)[id]) in folders
  {
    var n := |folders| - 1;
    if id != folders[n].id {
      ParentIsListed(folders[..n], id);
    }
  }

  lemma RootedParentsExist(folders: seq<Folder>)
    requires Rooted(folders)
    ensures ParentsExist(ParentsOf(folders))
  {
    var parents := ParentsOf(folders);
    forall id | id in parents && parents[id].Some? ensures parents[id].value in parents {
      ParentIsListed(folders, id);
      var p :| p in folders && p.id == parents[id].value;
      var k :| 0 <= k < |folders| && folders[k] == p;
      IdIsKey(folders, k);
    }
  }
}
