/**
 * The metadata rows of the storage service, a folder table and a file table
 * keyed by id, and the shape of the folder tree they describe.
 */
module Records {
  import opened Wrappers

  /** Row ids are generated UUID strings; user ids are integers. */
  type Id = string
  type UserId = int

  /** A row of the folder table. `parent` is the id of the parent folder, `None` at the owner root. */
  datatype Folder = Folder(
    name: string,
    relativePath: string,
    parent: Option<Id>,
    owner: UserId,
    isPublic: bool,
    shareToken: Option<string>)

  /** A row of the file table. `folder` is the id of the containing folder, `None` at the owner root. */
  datatype File = File(
    name: string,
    relativePath: string,
    owner: UserId,
    folder: Option<Id>,
    isPublic: bool,
    shareToken: Option<string>)

  /**
   * The parent links resolve (a foreign key) and climb strictly down in
   * `rank`, so following them always reaches a root: the folder tree has no cycle.
   */
  ghost predicate Ranked(folders: map<Id, Folder>, rank: map<Id, nat>) {
    forall f :: f in folders ==>
      f in rank &&
      (folders[f].parent.Some? ==>
         folders[f].parent.value in folders && folders[f].parent.value in rank &&
         rank[folders[f].parent.value] < rank[f])
  }

  /** Every file's folder exists (the file table's foreign key). */
  predicate FilesClosed(files: map<Id, File>, folders: map<Id, Folder>) {
    forall g :: g in files && files[g].folder.Some? ==> files[g].folder.value in folders
  }

  /** `small` keeps some of the rows of `big`, unchanged. */
  predicate SubMap<K, V(==)>(small: map<K, V>, big: map<K, V>) {
    forall k :: k in small ==> k in big && small[k] == big[k]
  }

  /** The folders whose parent is `id`. */
  function Children(folders: map<Id, Folder>, id: Id): (r: set<Id>)
    ensures forall c :: c in r <==> c in folders && folders[c].parent == Some(id)
  {
    set c | c in folders && folders[c].parent == Some(id)
  }

  /** The files directly inside folder `id`. */
  function FilesIn(files: map<Id, File>, id: Id): (r: set<Id>)
    ensures forall g :: g in r <==> g in files && files[g].folder == Some(id)
  {
    set g | g in files && files[g].folder == Some(id)
  }

  /** The relative paths held by the files of user `u`. */
  function OwnerPaths(files: map<Id, File>, u: UserId): (r: set<string>)
    ensures forall g :: g in files && files[g].owner == u ==> files[g].relativePath in r
    ensures forall p :: p in r ==> exists g :: g in files && files[g].owner == u && files[g].relativePath == p
  {
    set g | g in files && files[g].owner == u :: files[g].relativePath
  }

  /** Entry `i + 1` of a chain is the parent of entry `i`. */
  predicate LinkedAt(folders: map<Id, Folder>, chain: seq<Folder>, i: nat)
    requires i + 1 < |chain|
  {
    chain[i].parent.Some? && chain[i].parent.value in folders && folders[chain[i].parent.value] == chain[i + 1]
  }

  /**
   * The loaded chain of folder `id`, leaf first: the folder itself, then its
   * parent, and so on up to a root.
   */
  ghost function Lineage(folders: map<Id, Folder>, rank: map<Id, nat>, id: Id): (chain: seq<Folder>)
    requires Ranked(folders, rank) && id in folders
    ensures |chain| >= 1 && chain[0] == folders[id]
    ensures forall i :: 0 <= i < |chain| - 1 ==> LinkedAt(folders, chain, i)
    ensures chain[|chain| - 1].parent.None?
    decreases rank[id]
  {
    match folders[id].parent
    case None => [folders[id]]
    case Some(p) =>
      var rest := Lineage(folders, rank, p);
      var chain := [folders[id]] + rest;
      assert forall i :: 1 <= i < |chain| - 1 ==> LinkedAt(folders, chain, i) by {
        forall i | 1 <= i < |chain| - 1
          ensures LinkedAt(folders, chain, i)
        {
          assert LinkedAt(folders, rest, i - 1);
        }
      }
      assert LinkedAt(folders, chain, 0);
      chain
  }

  /** Climbing one link: the chain gathered so far, extended by the parent, followed by the parent's chain. */
  lemma LineageStep(folders: map<Id, Folder>, rank: map<Id, nat>, id: Id, chain: seq<Folder>)
    requires Ranked(folders, rank) && id in folders && folders[id].parent.Some?
    ensures folders[id].parent.value in folders
    ensures chain + Lineage(folders, rank, id)[1..]
         == (chain + [folders[folders[id].parent.value]]) + Lineage(folders, rank, folders[id].parent.value)[1..]
  {
    var above := Lineage(folders, rank, folders[id].parent.value);
    assert Lineage(folders, rank, id) == [folders[id]] + above;
    assert above == [above[0]] + above[1..];
  }

  /** At a root the chain gathered so far is the whole chain. */
  lemma LineageRoot(folders: map<Id, Folder>, rank: map<Id, nat>, id: Id, chain: seq<Folder>)
    requires Ranked(folders, rank) && id in folders && folders[id].parent.None?
    ensures chain + Lineage(folders, rank, id)[1..] == chain
  {
    assert Lineage(folders, rank, id) == [folders[id]];
  }

  /** `a` is `f` or one of its ancestors. */
  ghost predicate IsAncestorOrSelf(folders: map<Id, Folder>, rank: map<Id, nat>, a: Id, f: Id)
    requires Ranked(folders, rank) && f in folders
    decreases rank[f]
  {
    f == a || (folders[f].parent.Some? && IsAncestorOrSelf(folders, rank, a, folders[f].parent.value))
  }

  /** Removing rows keeps the rank witness valid as long as no remaining row points at a removed one. */
  lemma RankedSubMap(small: map<Id, Folder>, big: map<Id, Folder>, rank: map<Id, nat>)
    requires Ranked(big, rank) && SubMap(small, big)
    requires forall f :: f in small && small[f].parent.Some? ==> small[f].parent.value in small
    ensures Ranked(small, rank)
  {
  }

  /** The same folders with the same parent links: names and paths may differ. */
  predicate SameTree(a: map<Id, Folder>, b: map<Id, Folder>) {
    a.Keys == b.Keys && forall f :: f in a ==> a[f].parent == b[f].parent
  }

  /** Rewriting names and paths keeps the rank witness valid. */
  lemma RankedSameTree(a: map<Id, Folder>, b: map<Id, Folder>, rank: map<Id, nat>)
    requires Ranked(a, rank) && SameTree(a, b)
    ensures Ranked(b, rank)
  {
  }

  /** Adding a folder under an existing parent, one rank deeper, keeps the tree acyclic. */
  lemma RankedAddLeaf(folders: map<Id, Folder>, rank: map<Id, nat>, id: Id, rec: Folder)
    requires Ranked(folders, rank) && id !in folders
    requires rec.parent.Some? ==> rec.parent.value in folders
    ensures Ranked(folders[id := rec],
                   rank[id := if rec.parent.Some? then rank[rec.parent.value] + 1 else 0])
  {
  }

  /**
   * Where `a` has been removed, no remaining folder has `a` among its
   * ancestors: the parent links of the remaining rows stay among the remaining rows.
   */
  lemma {:induction false} AncestorGone(small: map<Id, Folder>, big: map<Id, Folder>, rank: map<Id, nat>, a: Id, f: Id)
    requires Ranked(big, rank) && Ranked(small, rank) && SubMap(small, big)
    requires f in small && a !in small
    ensures !IsAncestorOrSelf(big, rank, a, f)
    decreases rank[f]
  {
    if big[f].parent.Some? {
      AncestorGone(small, big, rank, a, big[f].parent.value);
    }
  }

  /** A subset is no larger than its superset. */
  lemma {:induction false} CardSubset<T>(a: set<T>, b: set<T>)
    requires a <= b
    ensures |a| <= |b|
  {
    if a != {} {
      var x :| x in a;
      CardSubset(a - {x}, b - {x});
    }
  }

  /** The folders ranked above `id`: the measure that shrinks on the way down the tree. */
  function RankedAbove(rank: map<Id, nat>, id: Id): set<Id>
    requires id in rank
  {
    set f | f in rank && rank[f] > rank[id]
  }

  /** Going down to a folder of higher rank shrinks the measure. */
  lemma RankedAboveShrinks(rank: map<Id, nat>, d: Id, c: Id)
    requires d in rank && c in rank && rank[d] < rank[c]
    ensures |RankedAbove(rank, c)| < |RankedAbove(rank, d)|
  {
    CardSubset(RankedAbove(rank, c), RankedAbove(rank, d) - {c});
  }

  /** Ancestry among fewer rows is ancestry among all of them. */
  lemma {:induction false} AncestorInSubMap(small: map<Id, Folder>, big: map<Id, Folder>, rank: map<Id, nat>, a: Id, f: Id)
    requires Ranked(big, rank) && Ranked(small, rank) && SubMap(small, big)
    requires f in small && IsAncestorOrSelf(small, rank, a, f)
    ensures IsAncestorOrSelf(big, rank, a, f)
    decreases rank[f]
  {
    if f != a {
      AncestorInSubMap(small, big, rank, a, small[f].parent.value);
    }
  }

  /** A folder below a child of `a` is below `a`. */
  lemma {:induction false} AncestorThroughChild(folders: map<Id, Folder>, rank: map<Id, nat>, a: Id, c: Id, f: Id)
    requires Ranked(folders, rank) && c in folders && folders[c].parent == Some(a)
    requires f in folders && IsAncestorOrSelf(folders, rank, c, f)
    ensures IsAncestorOrSelf(folders, rank, a, f)
    decreases rank[f]
  {
    if f != c {
      AncestorThroughChild(folders, rank, a, c, folders[f].parent.value);
    }
  }

  /**
   * The stored paths agree with the tree: a root folder's path is its name and
   * every other folder's path is its parent's path, `/`, and its name.
   */
  ghost predicate PathsConsistent(folders: map<Id, Folder>) {
    forall f :: f in folders ==>
      folders[f].name != "" &&
      match folders[f].parent
      case None => folders[f].relativePath == folders[f].name
      case Some(p) => p in folders && folders[f].relativePath == folders[p].relativePath + "/" + folders[f].name
  }

  /**
   * `renameFolder` rewrites the folder's own row only: when that changes the
   * folder's path and the folder has a subfolder, the subfolder's stored path
   * still starts with the old one, so the paths no longer agree with the tree.
   */
  lemma RenameLeavesSubfolderStale(before: map<Id, Folder>, rank: map<Id, nat>, id: Id, c: Id, row: Folder)
    requires Ranked(before, rank) && PathsConsistent(before)
    requires id in before && c in Children(before, id)
    requires row.relativePath != before[id].relativePath
    ensures !PathsConsistent(before[id := row])
  {
    var after := before[id := row];
    assert c != id && after[c] == before[c];
    var n := before[c].name;
    SameSuffix(before[id].relativePath, row.relativePath, "/" + n);
    assert before[id].relativePath + "/" + n == before[id].relativePath + ("/" + n);
    assert row.relativePath + "/" + n == row.relativePath + ("/" + n);
    assert after[c].relativePath != after[id].relativePath + "/" + after[c].name;
  }

  /** Two strings with the same suffix appended are equal only if they were. */
  lemma SameSuffix(x: string, y: string, t: string)
    ensures x + t == y + t ==> x == y
  {
    if x + t == y + t {
      assert x == (x + t)[..|x|];
      assert y == (y + t)[..|y|];
    }
  }
}
