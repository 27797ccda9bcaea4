/**
 * The Path Builder: `buildFolderPath` over a folder whose ancestor chain has
 * been loaded, and the `/`-joined names it amounts to.
 */
module PathBuilder {
  import opened Wrappers
  import opened Records

  /**
   * `buildFolderPath` on a loaded chain, leaf first; the empty chain stands for
   * `undefined`. A folder with a loaded parent contributes parent path, `/`, name.
   */
  function BuildFolderPath(chain: seq<Folder>): string {
    if |chain| == 0 then ""
    else if |chain| == 1 then chain[0].name
    else BuildFolderPath(chain[1..]) + "/" + chain[0].name
  }

  /** The names of a chain, root first. */
  function RootFirstNames(chain: seq<Folder>): (names: seq<string>)
    ensures |names| == |chain|
    ensures forall i :: 0 <= i < |chain| ==> names[i] == chain[|chain| - 1 - i].name
  {
    if |chain| == 0 then [] else RootFirstNames(chain[1..]) + [chain[0].name]
  }

  /** Names joined by `/`, root first. */
  function JoinPath(names: seq<string>): string {
    if |names| == 0 then ""
    else if |names| == 1 then names[0]
    else names[0] + "/" + JoinPath(names[1..])
  }

  /** Joining one more name at the end appends `/` and that name. */
  lemma {:induction false} JoinPathSnoc(names: seq<string>, n: string)
    requires |names| >= 1
    ensures JoinPath(names + [n]) == JoinPath(names) + "/" + n
  {
    if |names| > 1 {
      assert (names + [n])[1..] == names[1..] + [n];
      JoinPathSnoc(names[1..], n);
    }
  }

  /** The path built from a chain with names n0 ... nk, root first, is `n0/.../nk`. */
  lemma {:induction false} BuildFolderPathJoins(chain: seq<Folder>)
    ensures BuildFolderPath(chain) == JoinPath(RootFirstNames(chain))
  {
    if |chain| > 1 {
      BuildFolderPathJoins(chain[1..]);
      JoinPathSnoc(RootFirstNames(chain[1..]), chain[0].name);
    }
  }

  /**
   * Where the stored paths agree with the tree, the path built from a
   * folder's lineage is the folder's stored relative path.
   */
  lemma {:induction false} BuildFolderPathMatchesStored(folders: map<Id, Folder>, rank: map<Id, nat>, id: Id)
    requires Ranked(folders, rank) && PathsConsistent(folders) && id in folders
    ensures BuildFolderPath(Lineage(folders, rank, id)) == folders[id].relativePath
    decreases rank[id]
  {
    match folders[id].parent
    case None =>
    case Some(p) =>
      BuildFolderPathMatchesStored(folders, rank, p);
      var chain := Lineage(folders, rank, id);
      assert chain[1..] == Lineage(folders, rank, p);
  }
}
