/**
 * The storage coordinator: the folder and file tables, the per-owner
 * physical store and the share-token dictionary, kept in step by the
 * service's operations. Each call is one sequential step; a thrown error
 * is an `Err` result, and whatever the call had already written stays written.
 */
module Files {
  import opened Wrappers
  import opened Text
  import opened Paths
  import opened Records
  import opened PathBuilder
  import opened Physical
  import opened ShareTokens

  /** Why a call fails: each thrown message, or the file-system error that escaped. */
  datatype Error =
    | NotAuthorized                 // 'Not authorized'
    | NameRequired                  // 'Folder name is required', 'File name is required'
    | ParentNotFound                // 'Parent folder not found'
    | FolderNotFound                // 'Folder not found'
    | FolderNotFoundOrNotAuthorized // 'Folder not found or not authorized'
    | NoFolderForToken              // 'No folder found for the given share token'
    | Io(cause: IoError)            // a rejected file-system call
    | NonTermination                // the clone-name search never stops

  /** The two lists `search` returns, keyed by id. */
  datatype SearchResult = SearchResult(files: map<Id, File>, folders: map<Id, Folder>)

  /** JavaScript truthiness of an optional id: absent and "" are both false. */
  predicate Given(id: Option<Id>) {
    id.Some? && id.value != ""
  }

  /** `toggleFilePublic`'s change to a row. */
  function Toggled(f: File): (g: File)
    ensures g.isPublic != f.isPublic
    ensures g.(isPublic := f.isPublic) == f
  {
    f.(isPublic := !f.isPublic)
  }

  /** Toggling twice gives back the row. */
  lemma ToggledTwice(f: File)
    ensures Toggled(Toggled(f)) == f
  {
  }

  /** The path `renameFile` gives a file: the first occurrence of its name replaced by the new one. */
  function RenamedFilePath(f: File, newName: string): string {
    ReplaceFirst(f.relativePath, f.name, newName)
  }

  /**
   * When the file's name occurs in its path only as the last segment (the
   * path is `pre + name`), renaming changes just that segment.
   */
  lemma RenamedFileFinalSegment(f: File, pre: string, newName: string)
    requires f.relativePath == pre + f.name && '$' !in newName
    requires forall j: nat :: j < |pre| ==> !OccursAt(pre + f.name, f.name, j)
    ensures RenamedFilePath(f, newName) == pre + newName
  {
    ReplaceFirstTail(pre, f.name, newName);
  }

  /** As written, a folder segment equal to the name is hit first: file `a` in folder `a`, renamed to `b`, gets path `b/a`. */
  lemma RenamedFileHitsFolder(f: File)
    requires f.name == "a" && f.relativePath == "a/a"
    ensures RenamedFilePath(f, "b") == "b/a"
  {
    ReplaceFirstHitsFolderSegment();
  }

  /** The row `renameFolder` writes for a file directly inside the folder. */
  function RepointedAsWritten(f: File, oldRel: string, newRel: string): File {
    f.(relativePath := ReplaceFirst(f.relativePath, oldRel, newRel))
  }

  /** Every changed row of `after` is a direct file of `id` repointed as `renameFolder` does; no row added or lost. */
  ghost predicate RepointedSome(before: map<Id, File>, after: map<Id, File>, id: Id, oldRel: string, newRel: string) {
    after.Keys == before.Keys &&
    forall g :: g in after ==>
      after[g] == before[g] || (g in FilesIn(before, id) && after[g] == RepointedAsWritten(before[g], oldRel, newRel))
  }

  /** Every direct file of `id` has been repointed. */
  ghost predicate RepointedAll(before: map<Id, File>, after: map<Id, File>, id: Id, oldRel: string, newRel: string) {
    forall g :: g in FilesIn(before, id) ==> g in after && after[g] == RepointedAsWritten(before[g], oldRel, newRel)
  }

  /**
   * The progress of the loop in `renameFolder`: the direct files of `id`
   * still `pending` are as they were, the others have been repointed.
   */
  ghost predicate RepointedExcept(before: map<Id, File>, after: map<Id, File>, id: Id, pending: set<Id>,
                                  oldRel: string, newRel: string) {
    RepointedSome(before, after, id, oldRel, newRel) &&
    pending <= FilesIn(before, id) &&
    (forall g :: g in pending ==> after[g] == before[g]) &&
    (forall g :: g in FilesIn(before, id) - pending ==> after[g] == RepointedAsWritten(before[g], oldRel, newRel))
  }

  /** Repointing paths keeps every file's folder, so the foreign key still holds. */
  lemma RepointedSomeClosed(before: map<Id, File>, after: map<Id, File>, folders: map<Id, Folder>, id: Id,
                            oldRel: string, newRel: string)
    requires FilesClosed(before, folders) && RepointedSome(before, after, id, oldRel, newRel)
    ensures FilesClosed(after, folders)
  {
  }

  /** Repointing one pending file makes progress. */
  lemma RepointedExceptStep(before: map<Id, File>, mid: map<Id, File>, id: Id, pending: set<Id>, g: Id,
                            oldRel: string, newRel: string)
    requires RepointedExcept(before, mid, id, pending, oldRel, newRel) && g in pending
    ensures RepointedExcept(before, mid[g := RepointedAsWritten(mid[g], oldRel, newRel)], id, pending - {g}, oldRel, newRel)
  {
  }

  /** With nothing pending, every direct file has been repointed. */
  lemma RepointedExceptDone(before: map<Id, File>, after: map<Id, File>, id: Id, oldRel: string, newRel: string)
    requires RepointedExcept(before, after, id, {}, oldRel, newRel)
    ensures RepointedAll(before, after, id, oldRel, newRel)
  {
    assert FilesIn(before, id) - {} == FilesIn(before, id);
  }

  /** `id` has direct files, and none of their paths is in the store. */
  ghost predicate AllAbsent(files: map<Id, File>, store: Store, id: Id, u: UserId) {
    FilesIn(files, id) != {} &&
    forall g :: g in FilesIn(files, id) ==>
      Key(u, files[g].relativePath) !in store.blobs && Key(u, files[g].relativePath) !in store.dirs
  }

  /** The intended new path of a path below `oldRel` once that directory is renamed to `newRel`. */
  function Repath(p: string, oldRel: string, newRel: string): string {
    if Below(p, oldRel) then newRel + p[|oldRel|..] else p
  }

  /** The caller's file rows, repointed; other rows as they were. */
  function RepointFiles(files: map<Id, File>, u: UserId, oldRel: string, newRel: string): (r: map<Id, File>)
    ensures r.Keys == files.Keys
    ensures forall g :: g in files ==> r[g].(relativePath := files[g].relativePath) == files[g]
    ensures forall g :: g in files && files[g].owner == u ==> r[g].relativePath == Repath(files[g].relativePath, oldRel, newRel)
    ensures forall g :: g in files && files[g].owner != u ==> r[g] == files[g]
  {
    map g | g in files :: if files[g].owner == u then files[g].(relativePath := Repath(files[g].relativePath, oldRel, newRel)) else files[g]
  }

  /** The caller's folder rows, repointed; other rows as they were. */
  function RepointFolders(folders: map<Id, Folder>, u: UserId, oldRel: string, newRel: string): (r: map<Id, Folder>)
    ensures r.Keys == folders.Keys
    ensures forall f :: f in folders ==> r[f].(relativePath := folders[f].relativePath) == folders[f]
    ensures forall f :: f in folders && folders[f].owner == u ==> r[f].relativePath == Repath(folders[f].relativePath, oldRel, newRel)
    ensures forall f :: f in folders && folders[f].owner != u ==> r[f] == folders[f]
  {
    map f | f in folders :: if folders[f].owner == u then folders[f].(relativePath := Repath(folders[f].relativePath, oldRel, newRel)) else folders[f]
  }

  /** A child of a path below `d` lies below `d`, with the child's segment appended to what follows `d`. */
  lemma BelowChild(x: string, d: string, n: string)
    requires Below(x, d)
    ensures Below(x + "/" + n, d) && (x + "/" + n)[|d|..] == x[|d|..] + "/" + n
  {
    var y := x + "/" + n;
    assert y[..|x|] == x;
    if d != "" {
      assert y[..|d|] == x[..|d|];
    }
  }

  /** The parent of a path below `d`, when its last segment has no `/`, is `d` or lies below it. */
  lemma ParentWithin(x: string, d: string, n: string)
    requires d != "" && '/' !in n && Below(x + "/" + n, d)
    ensures Within(x, d)
  {
    var y := x + "/" + n;
    if |x| == |d| {
      assert x == y[..|d|];
    } else if |x| > |d| {
      assert x[..|d|] == y[..|d|];
      assert x[|d|] == y[|d|];
    }
  }

  /**
   * The case the corrected cascade is meant for: the new name and all folder
   * names are free of `/`, and every folder at or below the renamed folder's
   * path is the caller's, only the renamed folder having exactly that path.
   */
  ghost predicate CascadeSafe(folders: map<Id, Folder>, u: UserId, id: Id, newName: string) {
    id in folders && newName != "" && '/' !in newName &&
    (forall f :: f in folders ==> '/' !in folders[f].name) &&
    forall f :: f in folders && Within(folders[f].relativePath, folders[id].relativePath) ==>
      folders[f].owner == u && (folders[f].relativePath == folders[id].relativePath ==> f == id)
  }

  /**
   * The corrected cascade keeps the stored paths in agreement with the tree,
   * in the case it is meant for.
   */
  lemma CascadeKeepsPaths(before: map<Id, Folder>, rank: map<Id, nat>, u: UserId, id: Id, newName: string)
    requires Ranked(before, rank) && PathsConsistent(before) && CascadeSafe(before, u, id, newName)
    ensures PathsConsistent(RepointFolders(before, u, before[id].relativePath, RenamedFolderPath(before[id].relativePath, newName))
                              [id := before[id].(name := newName, relativePath := RenamedFolderPath(before[id].relativePath, newName))])
  {
    var oldRel := before[id].relativePath;
    var newRel := RenamedFolderPath(oldRel, newName);
    var after := RepointFolders(before, u, oldRel, newRel)[id := before[id].(name := newName, relativePath := newRel)];
    forall f | f in after
      ensures after[f].name != "" &&
        match after[f].parent
        case None => after[f].relativePath == after[f].name
        case Some(p) => p in after && after[f].relativePath == after[p].relativePath + "/" + after[f].name
    {
      CascadeRow(before, rank, u, id, newName, oldRel, newRel, after, f);
    }
  }

  /** Re-prefixing a child path whose parent path is not the renamed one re-prefixes the parent path. */
  lemma RepathChild(pp: string, n: string, oldRel: string, newRel: string)
    requires oldRel != "" && '/' !in n && pp != oldRel
    ensures Repath(pp + "/" + n, oldRel, newRel) == Repath(pp, oldRel, newRel) + "/" + n
  {
    if Below(pp, oldRel) {
      BelowChild(pp, oldRel, n);
    } else if Below(pp + "/" + n, oldRel) {
      ParentWithin(pp, oldRel, n);
    }
  }

  /** A direct child of the renamed path moves to a child of the new path. */
  lemma RepathChildOfRenamed(n: string, oldRel: string, newRel: string)
    requires oldRel != ""
    ensures Repath(oldRel + "/" + n, oldRel, newRel) == newRel + "/" + n
  {
    var y := oldRel + "/" + n;
    assert y[..|oldRel|] == oldRel && y[|oldRel|] == '/';
    assert y[|oldRel|..] == "/" + n;
  }

  /** In the corrected cascade every row but the renamed one keeps its fields, with its path re-prefixed. */
  lemma CascadeOther(before: map<Id, Folder>, u: UserId, id: Id, oldRel: string, newRel: string, renamed: Folder,
                     after: map<Id, Folder>, f: Id)
    requires id in before && oldRel == before[id].relativePath
    requires forall f :: f in before && Within(before[f].relativePath, oldRel) ==> before[f].owner == u
    requires after == RepointFolders(before, u, oldRel, newRel)[id := renamed]
    requires f in before && f != id
    ensures after[f] == before[f].(relativePath := Repath(before[f].relativePath, oldRel, newRel))
  {
  }

  /** One row of `CascadeKeepsPaths`. */
  lemma CascadeRow(before: map<Id, Folder>, rank: map<Id, nat>, u: UserId, id: Id, newName: string,
                   oldRel: string, newRel: string, after: map<Id, Folder>, f: Id)
    requires Ranked(before, rank) && PathsConsistent(before) && id in before
    requires newName != "" && '/' !in newName
    requires forall f :: f in before ==> '/' !in before[f].name
    requires forall f :: f in before && Within(before[f].relativePath, before[id].relativePath) ==>
      before[f].owner == u && (before[f].relativePath == before[id].relativePath ==> f == id)
    requires oldRel == before[id].relativePath && newRel == RenamedFolderPath(oldRel, newName)
    requires after == RepointFolders(before, u, oldRel, newRel)[id := before[id].(name := newName, relativePath := newRel)]
    requires f in after
    ensures after[f].name != "" &&
      match after[f].parent
      case None => after[f].relativePath == after[f].name
      case Some(p) => p in after && after[f].relativePath == after[p].relativePath + "/" + after[f].name
  {
    var row := before[f];
    assert oldRel != "";
    if f == id {
      match row.parent
      case None =>
        ParentPathOfTopLevel(oldRel);
      case Some(p) =>
        ParentPathOfChild(before[p].relativePath, row.name);
        assert p != id;
        CascadeOther(before, u, id, oldRel, newRel, after[id], after, p);
        assert !Below(before[p].relativePath, oldRel);
    } else {
      CascadeOther(before, u, id, oldRel, newRel, after[id], after, f);
      match row.parent
      case None =>
        assert !Below(row.relativePath, oldRel);
      case Some(p) =>
        if p == id {
          RepathChildOfRenamed(row.name, oldRel, newRel);
        } else {
          CascadeOther(before, u, id, oldRel, newRel, after[id], after, p);
          assert before[p].relativePath != oldRel;
          RepathChild(before[p].relativePath, row.name, oldRel, newRel);
        }
    }
  }

  /** Every file row of `u` that named contents before names the same contents after. */
  ghost predicate KeepsContents(files: map<Id, File>, s: Store, files2: map<Id, File>, t: Store, u: UserId) {
    forall g :: g in files && files[g].owner == u && Key(u, files[g].relativePath) in s.blobs ==>
      g in files2 && Key(u, files2[g].relativePath) in t.blobs &&
      t.blobs[Key(u, files2[g].relativePath)] == s.blobs[Key(u, files[g].relativePath)]
  }

  /** After the directory `oldRel` moves to `newRel`, a repathed file names the contents it named. */
  lemma RepathCarries(s: Store, t: Store, u: UserId, oldRel: string, newRel: string, p: string)
    requires Rename(s, u, oldRel, newRel) == Ok(t) && Key(u, oldRel) !in s.blobs
    requires Key(u, p) in s.blobs
    ensures Key(u, Repath(p, oldRel, newRel)) in t.blobs
    ensures t.blobs[Key(u, Repath(p, oldRel, newRel))] == s.blobs[Key(u, p)]
  {
    if oldRel == newRel {
      if Below(p, oldRel) {
        assert p == oldRel + p[|oldRel|..];
      }
    } else if Below(p, oldRel) {
      RenameDirectoryCarries(s, u, oldRel, newRel, p);
    } else {
      RenameDirectoryShape(s, u, oldRel, newRel);
      assert Key(u, p) in s.blobs.Keys + s.dirs;
      RenameDirectoryKeepsOthers(s, u, oldRel, newRel, Key(u, p));
    }
  }

  /** After a directory move, every repointed file row of the owner names the contents it named. */
  lemma RepointFilesCarries(s: Store, t: Store, u: UserId, oldRel: string, newRel: string, files: map<Id, File>)
    requires Rename(s, u, oldRel, newRel) == Ok(t) && Key(u, oldRel) !in s.blobs
    ensures KeepsContents(files, s, RepointFiles(files, u, oldRel, newRel), t, u)
  {
    forall g | g in files && files[g].owner == u && Key(u, files[g].relativePath) in s.blobs
      ensures Key(u, RepointFiles(files, u, oldRel, newRel)[g].relativePath) in t.blobs
      ensures t.blobs[Key(u, RepointFiles(files, u, oldRel, newRel)[g].relativePath)] == s.blobs[Key(u, files[g].relativePath)]
    {
      RepathCarries(s, t, u, oldRel, newRel, files[g].relativePath);
    }
  }

  /** Every file directly inside `id` lies below the directory `dir`, and there is at least one. */
  ghost predicate DirectFilesBelow(files: map<Id, File>, id: Id, dir: string) {
    FilesIn(files, id) != {} && forall g :: g in FilesIn(files, id) ==> Below(files[g].relativePath, dir)
  }

  /** The relative path `createFolder` gives a folder: the parent's path, `/`, the name; or the name alone. */
  function NewFolderPath(folders: map<Id, Folder>, name: string, parentId: Option<Id>): string {
    ChildPath(if Given(parentId) && parentId.value in folders then folders[parentId.value].relativePath else "", name)
  }

  /** When the stored paths agree with the tree, a new subfolder's path is its parent's path, `/`, its name. */
  lemma NewFolderPathUnderParent(folders: map<Id, Folder>, name: string, p: Id)
    requires PathsConsistent(folders) && p in folders && p != ""
    ensures NewFolderPath(folders, name, Some(p)) == folders[p].relativePath + "/" + name
  {
  }

  /** A new folder whose path is its parent's path, `/`, its name (or its name at the root) keeps the paths consistent. */
  lemma PathsConsistentAddFolder(folders: map<Id, Folder>, id: Id, row: Folder)
    requires PathsConsistent(folders) && id !in folders && row.name != ""
    requires match row.parent
      case None => row.relativePath == row.name
      case Some(p) => p in folders && row.relativePath == folders[p].relativePath + "/" + row.name
    ensures PathsConsistent(folders[id := row])
  {
  }

  /** The store keys of the files `ids` of owner `u`. */
  function PathKeys(files: map<Id, File>, ids: set<Id>, u: UserId): (r: set<Key>)
    ensures forall g :: g in ids && g in files ==> Key(u, files[g].relativePath) in r
  {
    set g | g in ids && g in files :: Key(u, files[g].relativePath)
  }

  /** The direct-file loop so far: the rows `done` and their blobs of owner `u` are gone, and nothing else. */
  predicate UnlinkedSoFar(files0: map<Id, File>, store0: Store, files: map<Id, File>, store: Store, done: set<Id>, u: UserId) {
    files == files0 - done && store.dirs == store0.dirs && store.blobs == store0.blobs - PathKeys(files0, done, u)
  }

  /** Unlinking one more pending file of the direct-file loop, and dropping its row. */
  lemma UnlinkedOneMore(files0: map<Id, File>, store0: Store, files1: map<Id, File>, store1: Store,
                        files2: map<Id, File>, store2: Store, direct: set<Id>, pending: set<Id>, g: Id, u: UserId)
    requires g in pending && pending <= direct
    requires UnlinkedSoFar(files0, store0, files1, store1, direct - pending, u) && g in files1
    requires files2 == files1 - {g}
    requires store2 == store1.(blobs := store1.blobs - {Key(u, files1[g].relativePath)})
    ensures UnlinkedSoFar(files0, store0, files2, store2, direct - (pending - {g}), u)
  {
    assert direct - (pending - {g}) == (direct - pending) + {g};
    assert files1[g] == files0[g];
    assert PathKeys(files0, direct - (pending - {g}), u) == PathKeys(files0, direct - pending, u) + {Key(u, files0[g].relativePath)};
  }

  /** Cloning a file whose name does not occur in its path retries its own path for ever. */
  lemma CloneSearchStuck(files: map<Id, File>, fileId: Id, u: UserId, k: nat)
    requires fileId in files && files[fileId].owner == u
    requires IndexOf(files[fileId].relativePath, files[fileId].name).None?
    ensures CandidatePath(files[fileId].relativePath, files[fileId].name, k) in OwnerPaths(files, u)
  {
    CandidatePathStuck(files[fileId].relativePath, files[fileId].name, k);
  }

  /** The contents `createFile` writes: the uploaded buffer, or an empty one. */
  function ContentsOf(buffer: Option<Bytes>): Bytes {
    if buffer.Some? then buffer.value else []
  }

  /**
   * The relative path `createFile` gives a file: the path built from the
   * folder's loaded chain, `/`, the name; or the name alone.
   */
  ghost function NewFilePath(folders: map<Id, Folder>, rank: map<Id, nat>, name: string, folderId: Option<Id>): string
    requires Ranked(folders, rank)
  {
    ChildPath(if Given(folderId) && folderId.value in folders then BuildFolderPath(Lineage(folders, rank, folderId.value)) else "", name)
  }

  /** Where the stored paths agree with the tree, a new file's path is its folder's path, `/`, its name. */
  lemma NewFilePathUnderFolder(folders: map<Id, Folder>, rank: map<Id, nat>, name: string, p: Id)
    requires Ranked(folders, rank) && PathsConsistent(folders) && p in folders && p != ""
    ensures NewFilePath(folders, rank, name, Some(p)) == folders[p].relativePath + "/" + name
  {
    BuildFolderPathMatchesStored(folders, rank, p);
  }

  /**
   * Going from the first state to the second only removed things, and only
   * below folder `a`: folder rows of its subtree, file rows whose folder is in
   * it, and blobs of owner `u` at the path of a removed file. Directories stay.
   */
  ghost predicate DeletedWithin(folders0: map<Id, Folder>, files0: map<Id, File>, store0: Store,
                                folders1: map<Id, Folder>, files1: map<Id, File>, store1: Store,
                                rank: map<Id, nat>, a: Id, u: UserId)
    requires Ranked(folders0, rank)
  {
    SubMap(folders1, folders0) && SubMap(files1, files0) &&
    SubMap(store1.blobs, store0.blobs) && store1.dirs == store0.dirs &&
    (forall f :: f in folders0 && f !in folders1 ==> IsAncestorOrSelf(folders0, rank, a, f)) &&
    (forall g :: g in files0 && g !in files1 ==>
       files0[g].folder.Some? && files0[g].folder.value in folders0 &&
       IsAncestorOrSelf(folders0, rank, a, files0[g].folder.value)) &&
    (forall k :: k in store0.blobs && k !in store1.blobs ==>
       k.owner == u && exists g :: g in files0 && g !in files1 && files0[g].relativePath == k.path)
  }

  /** A removal below `a` followed by a removal below `a` or one of its children is a removal below `a`. */
  lemma DeletedWithinTrans(folders0: map<Id, Folder>, files0: map<Id, File>, store0: Store,
                           folders1: map<Id, Folder>, files1: map<Id, File>, store1: Store,
                           folders2: map<Id, Folder>, files2: map<Id, File>, store2: Store,
                           rank: map<Id, nat>, a: Id, c: Id, u: UserId)
    requires Ranked(folders0, rank) && Ranked(folders1, rank)
    requires c == a || (c in folders0 && folders0[c].parent == Some(a))
    requires DeletedWithin(folders0, files0, store0, folders1, files1, store1, rank, a, u)
    requires DeletedWithin(folders1, files1, store1, folders2, files2, store2, rank, c, u)
    ensures DeletedWithin(folders0, files0, store0, folders2, files2, store2, rank, a, u)
  {
    forall f | f in folders0 && f !in folders2
      ensures IsAncestorOrSelf(folders0, rank, a, f)
    {
      if f in folders1 {
        AncestorInSubMap(folders1, folders0, rank, c, f);
        if c != a {
          AncestorThroughChild(folders0, rank, a, c, f);
        }
      }
    }
    forall g | g in files0 && g !in files2 && g in files1
      ensures files0[g].folder.Some? && files0[g].folder.value in folders0 &&
              IsAncestorOrSelf(folders0, rank, a, files0[g].folder.value)
    {
      var v := files1[g].folder.value;
      AncestorInSubMap(folders1, folders0, rank, c, v);
      if c != a {
        AncestorThroughChild(folders0, rank, a, c, v);
      }
    }
    forall k | k in store0.blobs && k !in store2.blobs
      ensures k.owner == u && exists g :: g in files0 && g !in files2 && files0[g].relativePath == k.path
    {
      if k in store1.blobs {
        var g :| g in files1 && g !in files2 && files1[g].relativePath == k.path;
        assert g in files0 && files0[g] == files1[g];
      } else {
        var g :| g in files0 && g !in files1 && files0[g].relativePath == k.path;
        assert g !in files2;
      }
    }
  }

  /** Unlinking a file directly inside `a` and dropping its row is a removal below `a`. */
  lemma UnlinkWithin(folders: map<Id, Folder>, files: map<Id, File>, store: Store, rank: map<Id, nat>, a: Id, u: UserId, g: Id)
    requires Ranked(folders, rank) && a in folders && g in files && files[g].folder == Some(a)
    requires Unlink(store, u, files[g].relativePath).Ok?
    ensures DeletedWithin(folders, files, store, folders, files - {g}, Unlink(store, u, files[g].relativePath).value, rank, a, u)
  {
    var t := Unlink(store, u, files[g].relativePath).value;
    assert t.blobs == store.blobs - {Key(u, files[g].relativePath)};
    forall k | k in store.blobs && k !in t.blobs
      ensures k.owner == u && exists h :: h in files && h !in files - {g} && files[h].relativePath == k.path
    {
      assert k == Key(u, files[g].relativePath);
    }
  }

  /**
   * The outcome of making the new folder `row`: `mkdir -p` of its path, then
   * its row. A failing `mkdir -p` changes nothing.
   */
  ghost predicate MadeAs(folders0: map<Id, Folder>, store0: Store, folders1: map<Id, Folder>, store1: Store,
                         newId: Id, row: Folder, r: Result<Folder, Error>)
  {
    match MkdirP(store0, row.owner, row.relativePath)
    case Err(e) => r == Err(Io(e)) && folders1 == folders0 && store1 == store0
    case Ok(s) => r == Ok(row) && folders1 == folders0[newId := row] && store1 == s
  }

  /**
   * The outcome of storing the new row `row` of user `u` with its contents:
   * `mkdir -p` of the parent directory, then the write of the blob, then
   * the row. A failing `mkdir -p` changes nothing; a failing write keeps
   * the directories it made.
   */
  ghost predicate StoredAs(files0: map<Id, File>, store0: Store, files1: map<Id, File>, store1: Store,
                           u: UserId, newId: Id, row: File, contents: Bytes, r: Result<File, Error>)
  {
    match MkdirP(store0, u, ParentPath(row.relativePath))
    case Err(e) => r == Err(Io(e)) && files1 == files0 && store1 == store0
    case Ok(s) =>
      match WriteFile(s, u, row.relativePath, contents)
      case Err(e) => r == Err(Io(e)) && files1 == files0 && store1 == s
      case Ok(t) => r == Ok(row) && files1 == files0[newId := row] && store1 == t
  }

  /**
   * The outcome of copying file `f` of user `u` to `newPath` under the name
   * `newName`: a failed copy changes nothing and reports the error; a
   * successful one adds the copied blob and a row for it at the owner root.
   */
  ghost predicate ClonedAs(files0: map<Id, File>, store0: Store, files1: map<Id, File>, store1: Store,
                           f: File, u: UserId, newId: Id, newName: string, newPath: string, r: Result<File, Error>)
  {
    match CopyFile(store0, u, f.relativePath, newPath)
    case Err(e) => r == Err(Io(e)) && files1 == files0 && store1 == store0
    case Ok(s) =>
      r == Ok(File(newName, newPath, u, None, false, None)) && files1 == files0[newId := r.value] && store1 == s
  }

  /**
   * The search loop of `cloneFile`, over the names `names(0), names(1), ...`
   * it tries and the paths `paths(0), paths(1), ...` they give: it moves on
   * to the next name while the current path is taken. It stops because the
   * paths are pairwise distinct and only finitely many are taken.
   */
  method SearchFirstFree(names: nat -> string, paths: nat -> string, taken: set<string>)
    returns (m: nat, newName: string, newPath: string)
    requires forall i: nat, j: nat :: paths(i) == paths(j) ==> i == j
    ensures FirstFree(paths, taken, m)
    ensures newName == names(m) && newPath == paths(m)
  {
    var copyIndex: nat := 1;
    newName := names(0);
    newPath := paths(0);
    while newPath in taken
      invariant copyIndex >= 1
      invariant FirstValues(paths, copyIndex - 1) <= taken
      invariant copyIndex - 1 <= |taken|
      invariant newName == names(copyIndex - 1) && newPath == paths(copyIndex - 1)
      decreases |taken| - copyIndex
    {
      FirstValuesCount(paths, copyIndex);
      CardSubset(FirstValues(paths, copyIndex), taken);
      newName := names(copyIndex);
      newPath := paths(copyIndex);
      copyIndex := copyIndex + 1;
    }
    m := copyIndex - 1;
  }


  /** Once `a` is gone, no remaining folder or file lies in its former subtree. */
  lemma SubtreeGone(folders0: map<Id, Folder>, folders1: map<Id, Folder>, files1: map<Id, File>, rank: map<Id, nat>, a: Id)
    requires Ranked(folders0, rank) && Ranked(folders1, rank) && SubMap(folders1, folders0)
    requires FilesClosed(files1, folders1) && a !in folders1
    ensures forall f :: f in folders1 ==> !IsAncestorOrSelf(folders0, rank, a, f)
    ensures forall g :: g in files1 && files1[g].folder.Some? ==> !IsAncestorOrSelf(folders0, rank, a, files1[g].folder.value)
  {
    forall f | f in folders1
      ensures !IsAncestorOrSelf(folders0, rank, a, f)
    {
      AncestorGone(folders1, folders0, rank, a, f);
    }
  }

  class FilesService {
    /** The folder table. */
    var folders: map<Id, Folder>
    /** The file table. */
    var files: map<Id, File>
    /** `uploads/`, by owner. */
    var store: Store
    /** The share-token dictionary, token to file id. */
    var sharedFiles: map<string, string>
    /** A witness that the parent links form a forest. */
    ghost var rank: map<Id, nat>

    ghost predicate Valid()
      reads this
    {
      Ranked(folders, rank) && FilesClosed(files, folders)
    }

    /** The service over existing tables and store; the token dictionary starts empty. */
    constructor(folders0: map<Id, Folder>, files0: map<Id, File>, store0: Store, ghost rank0: map<Id, nat>)
      requires Ranked(folders0, rank0) && FilesClosed(files0, folders0)
      ensures Valid()
      ensures folders == folders0 && files == files0 && store == store0 && rank == rank0
      ensures sharedFiles == map[]
    {
      folders, files, store, rank := folders0, files0, store0, rank0;
      sharedFiles := map[];
    }

    // -------------------------------------------------------------------------
    // Search and finders.

    /** The caller's files and folders whose name contains `query`, ignoring ASCII case. */
    function Search(query: string, userId: UserId): (r: SearchResult)
      reads this
      requires PlainQuery(query)
      ensures forall g :: g in r.files <==> g in files && files[g].owner == userId && ILikeContains(files[g].name, query)
      ensures forall g :: g in r.files ==> r.files[g] == files[g]
      ensures forall f :: f in r.folders <==> f in folders && folders[f].owner == userId && ILikeContains(folders[f].name, query)
      ensures forall f :: f in r.folders ==> r.folders[f] == folders[f]
    {
      SearchResult(
        map g | g in files && files[g].owner == userId && ILikeContains(files[g].name, query) :: files[g],
        map f | f in folders && folders[f].owner == userId && ILikeContains(folders[f].name, query) :: folders[f])
    }

    /** The caller's files. */
    function FindAllFilesByUser(userId: UserId): (r: map<Id, File>)
      reads this
      ensures forall g :: g in r <==> g in files && files[g].owner == userId
      ensures SubMap(r, files)
    {
      map g | g in files && files[g].owner == userId :: files[g]
    }

    /** The public files of everybody else. */
    function FindAllFilesSharedWithUser(userId: UserId): (r: map<Id, File>)
      reads this
      ensures forall g :: g in r <==> g in files && files[g].isPublic && files[g].owner != userId
      ensures SubMap(r, files)
    {
      map g | g in files && files[g].isPublic && files[g].owner != userId :: files[g]
    }

    /** The caller's folders. */
    function FindAllFoldersByUser(userId: UserId): (r: map<Id, Folder>)
      reads this
      ensures forall f :: f in r <==> f in folders && folders[f].owner == userId
      ensures SubMap(r, folders)
    {
      map f | f in folders && folders[f].owner == userId :: folders[f]
    }

    /** The file row with this id, if any; no owner check. */
    function FindFileById(fileId: Id): (r: Option<File>)
      reads this
      ensures r.Some? <==> fileId in files
      ensures r.Some? ==> r.value == files[fileId]
    {
      if fileId in files then Some(files[fileId]) else None
    }

    /** The folder with this id, if the caller owns it. */
    function FindFolderById(folderId: Id, userId: UserId): (r: Result<Folder, Error>)
      reads this
      ensures r.Ok? <==> folderId in folders && folders[folderId].owner == userId
      ensures r.Ok? ==> r.value == folders[folderId]
      ensures r.Err? ==> r.error == FolderNotFoundOrNotAuthorized
    {
      if folderId in folders && folders[folderId].owner == userId then Ok(folders[folderId])
      else Err(FolderNotFoundOrNotAuthorized)
    }

    /** The files directly in a folder owned by the user whose id `Number(userId)` reads. */
    function FindFilesInFolder(userId: string, folderId: Id): (r: map<Id, File>)
      reads this
      ensures forall g :: g in r <==> g in files && NumberOf(userId) == Some(files[g].owner) && files[g].folder == Some(folderId)
      ensures SubMap(r, files)
    {
      map g | g in files && NumberOf(userId) == Some(files[g].owner) && files[g].folder == Some(folderId) :: files[g]
    }

    /** The empty query lists all of the caller's files and folders. */
    lemma SearchEmptyQuery(userId: UserId)
      ensures Search("", userId).files == FindAllFilesByUser(userId)
      ensures Search("", userId).folders == FindAllFoldersByUser(userId)
    {
      var s, byUser := Search("", userId), FindAllFilesByUser(userId);
      forall g | g in files
        ensures g in s.files <==> g in byUser
      {
        ILikeEmptyQuery(files[g].name);
      }
      assert s.files.Keys == byUser.Keys;
      var foldersByUser := FindAllFoldersByUser(userId);
      forall f | f in folders
        ensures f in s.folders <==> f in foldersByUser
      {
        ILikeEmptyQuery(folders[f].name);
      }
      assert s.folders.Keys == foldersByUser.Keys;
    }

    /** The search ignores the case of the query. */
    lemma SearchIgnoresCase(query: string, userId: UserId)
      requires PlainQuery(query) && PlainQuery(Lower(query))
      ensures Search(Lower(query), userId) == Search(query, userId)
    {
      var lower, plain := Search(Lower(query), userId), Search(query, userId);
      forall g | g in files
        ensures g in lower.files <==> g in plain.files
      {
        ILikeIgnoresCase(files[g].name, query);
      }
      assert lower.files == plain.files;
      forall f | f in folders
        ensures f in lower.folders <==> f in plain.folders
      {
        ILikeIgnoresCase(folders[f].name, query);
      }
      assert lower.folders == plain.folders;
    }

    /** A longer query finds no more: a hit for `query` is a hit for every part of it. */
    lemma SearchNarrows(query: string, part: string, userId: UserId)
      requires PlainQuery(query) && PlainQuery(part) && ILikeContains(query, part)
      ensures SubMap(Search(query, userId).files, Search(part, userId).files)
      ensures SubMap(Search(query, userId).folders, Search(part, userId).folders)
    {
      forall g | g in Search(query, userId).files {
        ILikeNarrows(files[g].name, query, part);
      }
      forall f | f in Search(query, userId).folders {
        ILikeNarrows(folders[f].name, query, part);
      }
    }

    /** Nobody sees a file both as their own and as shared with them; between the two lists they see every public file. */
    lemma OwnAndSharedSplit(userId: UserId, g: Id)
      requires g in files
      ensures !(g in FindAllFilesByUser(userId) && g in FindAllFilesSharedWithUser(userId))
      ensures files[g].isPublic ==> g in FindAllFilesByUser(userId) || g in FindAllFilesSharedWithUser(userId)
    {
    }

    /** A user id rendered as a decimal string finds that user's files. */
    lemma FilesInFolderByDecimalId(u: nat, folderId: Id)
      ensures FindFilesInFolder(Decimal(u), folderId) == map g | g in files && files[g].owner == u && files[g].folder == Some(folderId) :: files[g]
    {
      NumberOfDecimal(u);
    }

    /** Some folder whose share token is `shareToken`. */
    method GetSharedFolderByToken(shareToken: string) returns (r: Result<Folder, Error>)
      ensures r.Err? <==> forall f :: f in folders ==> folders[f].shareToken != Some(shareToken)
      ensures r.Err? ==> r.error == NoFolderForToken
      ensures r.Ok? ==> exists f :: f in folders && folders[f].shareToken == Some(shareToken) && r.value == folders[f]
    {
      if f :| f in folders && folders[f].shareToken == Some(shareToken) {
        r := Ok(folders[f]);
      } else {
        r := Err(NoFolderForToken);
      }
    }

    // -------------------------------------------------------------------------
    // Sharing.

    /**
     * Issues the token `randomBytes(16).toString('hex')` for `fileId`, given
     * the random bytes; the file id is not checked.
     */
    method GenerateFileShareToken(fileId: Id, random: Bytes) returns (token: string)
      requires Valid() && |random| == 16
      modifies this
      ensures Valid()
      ensures token == Hex(random) && IsHexToken(token)
      ensures sharedFiles == old(sharedFiles)[token := fileId]
      ensures GetFileIdByToken(token) == if fileId != "" then FileIdResult(fileId) else NullResult
      ensures forall t :: t != token ==> GetFileIdByToken(t) == old(GetFileIdByToken(t))
      ensures GetFileIdByTokenCorrected(token) == Some(fileId)
      ensures forall t :: t != token ==> GetFileIdByTokenCorrected(t) == old(GetFileIdByTokenCorrected(t))
      ensures folders == old(folders) && files == old(files) && store == old(store) && rank == old(rank)
    {
      token := Hex(random);
      HexOfSixteenBytes(random);
      sharedFiles := sharedFiles[token := fileId];
    }

    /**
     * `getFileIdByToken` as written: `sharedFiles[token] || null` on a plain
     * object. An issued token gives its id unless that id is empty; a name
     * inherited from `Object.prototype` gives that member.
     */
    function GetFileIdByToken(token: string): (r: Lookup)
      reads this
      ensures r.FileIdResult? <==> token in sharedFiles && sharedFiles[token] != ""
      ensures r.FileIdResult? ==> r.id == sharedFiles[token]
      ensures r.InheritedMember? <==> token !in sharedFiles && token in ObjectPrototypeMembers
    {
      LookupAsWritten(sharedFiles, token)
    }

    /** `getFileIdByToken` as intended: the file id a token was issued for; nothing for a token never issued. */
    function GetFileIdByTokenCorrected(token: string): (r: Option<Id>)
      reads this
      ensures r.Some? <==> token in sharedFiles
      ensures r.Some? ==> r.value == sharedFiles[token]
    {
      Resolve(sharedFiles, token)
    }

    // -------------------------------------------------------------------------
    // Owner-checked mutations.

    /** Flips `isPublic` on the caller's file. */
    method ToggleFilePublic(fileId: Id, userId: UserId) returns (r: Result<File, Error>)
      requires Valid()
      modifies this
      ensures Valid()
      ensures folders == old(folders) && store == old(store) && sharedFiles == old(sharedFiles) && rank == old(rank)
      ensures old(fileId !in files || files[fileId].owner != userId) ==> r == Err(NotAuthorized) && files == old(files)
      ensures old(fileId in files && files[fileId].owner == userId) ==>
        r == Ok(Toggled(old(files)[fileId])) && files == old(files)[fileId := r.value]
    {
      if fileId !in files || files[fileId].owner != userId {
        return Err(NotAuthorized);
      }
      var file := Toggled(files[fileId]);
      files := files[fileId := file];
      r := Ok(file);
    }

    /** Toggling twice restores the file table. */
    method ToggleTwice(fileId: Id, userId: UserId)
      requires Valid()
      modifies this
      ensures Valid()
      ensures files == old(files) && folders == old(folders) && store == old(store)
      ensures sharedFiles == old(sharedFiles) && rank == old(rank)
    {
      var r1 := ToggleFilePublic(fileId, userId);
      var r2 := ToggleFilePublic(fileId, userId);
      if fileId in old(files) && old(files)[fileId].owner == userId {
        ToggledTwice(old(files)[fileId]);
      }
    }

    /** Deletes the caller's file: first from the store, then its row. */
    method RemoveFile(fileId: Id, userId: UserId) returns (r: Result<bool, Error>)
      requires Valid()
      modifies this
      ensures Valid()
      ensures folders == old(folders) && sharedFiles == old(sharedFiles) && rank == old(rank)
      ensures old(fileId !in files || files[fileId].owner != userId) ==>
        r == Err(NotAuthorized) && files == old(files) && store == old(store)
      ensures old(fileId in files && files[fileId].owner == userId) ==>
        match Unlink(old(store), userId, old(files)[fileId].relativePath)
        case Err(e) => r == Err(Io(e)) && files == old(files) && store == old(store)
        case Ok(s) => r == Ok(true) && files == old(files) - {fileId} && store == s
    {
      if fileId !in files || files[fileId].owner != userId {
        return Err(NotAuthorized);
      }
      var unlinked := Unlink(store, userId, files[fileId].relativePath);
      if unlinked.Err? {
        return Err(Io(unlinked.error));
      }
      store := unlinked.value;
      files := files - {fileId};
      r := Ok(true);
    }

    /** Renames the caller's file: moves it in the store, then rewrites its name and path. */
    method RenameFile(fileId: Id, newName: string, userId: UserId) returns (r: Result<File, Error>)
      requires Valid()
      modifies this
      ensures Valid()
      ensures folders == old(folders) && sharedFiles == old(sharedFiles) && rank == old(rank)
      ensures old(fileId !in files || files[fileId].owner != userId) ==>
        r == Err(NotAuthorized) && files == old(files) && store == old(store)
      ensures old(fileId in files && files[fileId].owner == userId) ==>
        var f := old(files)[fileId];
        match Rename(old(store), userId, f.relativePath, RenamedFilePath(f, newName))
        case Err(e) => r == Err(Io(e)) && files == old(files) && store == old(store)
        case Ok(s) =>
          r == Ok(f.(name := newName, relativePath := RenamedFilePath(f, newName))) &&
          files == old(files)[fileId := r.value] && store == s
    {
      if fileId !in files || files[fileId].owner != userId {
        return Err(NotAuthorized);
      }
      var file := files[fileId];
      var newPathRelative := ReplaceFirst(file.relativePath, file.name, newName);
      var moved := Rename(store, userId, file.relativePath, newPathRelative);
      if moved.Err? {
        return Err(Io(moved.error));
      }
      store := moved.value;
      file := file.(name := newName, relativePath := newPathRelative);
      files := files[fileId := file];
      r := Ok(file);
    }

    /**
     * Renames the caller's folder as written: moves its directory, rewrites
     * the folder's own row, then repoints and renames each file directly
     * inside it. Subfolders and their files keep their rows. Because the
     * directory has already moved, a file below it is no longer at its old
     * path, so the first per-file rename fails.
     */
    method RenameFolder(folderId: Id, newName: string, userId: UserId) returns (r: Result<Folder, Error>)
      requires Valid()
      modifies this
      ensures Valid()
      ensures sharedFiles == old(sharedFiles) && rank == old(rank)
      ensures old(folderId !in folders || folders[folderId].owner != userId) ==>
        r == Err(NotAuthorized) && folders == old(folders) && files == old(files) && store == old(store)
      ensures old(folderId in folders && folders[folderId].owner == userId) ==>
        var oldRel := old(folders)[folderId].relativePath;
        var newRel := RenamedFolderPath(oldRel, newName);
        match Rename(old(store), userId, oldRel, newRel)
        case Err(e) => r == Err(Io(e)) && folders == old(folders) && files == old(files) && store == old(store)
        case Ok(moved) =>
          folders == old(folders)[folderId := old(folders)[folderId].(name := newName, relativePath := newRel)] &&
          RepointedSome(old(files), files, folderId, oldRel, newRel) &&
          (r.Ok? ==> r.value == folders[folderId] && RepointedAll(old(files), files, folderId, oldRel, newRel)) &&
          (Key(userId, oldRel) in old(store).dirs && Key(userId, oldRel) !in old(store).blobs && newRel != oldRel &&
           DirectFilesBelow(old(files), folderId, oldRel) ==>
             r == Err(Io(NoSuchEntry)) && files == old(files) && store == moved)
      ensures (old(PathsConsistent(folders)) && folderId in old(folders) && Children(old(folders), folderId) != {} &&
               folders[folderId].relativePath != old(folders)[folderId].relativePath) ==> !PathsConsistent(folders)
    {
      if folderId !in folders || folders[folderId].owner != userId {
        return Err(NotAuthorized);
      }
      var folder := folders[folderId];
      var oldRelativePath := folder.relativePath;
      var newRelativePath := RenamedFolderPath(oldRelativePath, newName);
      var moved := Rename(store, userId, oldRelativePath, newRelativePath);
      if moved.Err? {
        return Err(Io(moved.error));
      }
      r := RenameAfterMove(folderId, newName, oldRelativePath, newRelativePath, userId, moved.value);
    }

    /**
     * What `renameFolder` does once the directory has moved: it saves the
     * folder's own row with the new name and path, then runs the per-file loop.
     */
    method RenameAfterMove(folderId: Id, newName: string, oldRelativePath: string, newRelativePath: string,
                           userId: UserId, moved: Store) returns (r: Result<Folder, Error>)
      requires Valid() && folderId in folders && folders[folderId].relativePath == oldRelativePath
      requires Rename(store, userId, oldRelativePath, newRelativePath) == Ok(moved)
      modifies this
      ensures Valid()
      ensures sharedFiles == old(sharedFiles) && rank == old(rank)
      ensures folders == old(folders)[folderId := old(folders)[folderId].(name := newName, relativePath := newRelativePath)]
      ensures RepointedSome(old(files), files, folderId, oldRelativePath, newRelativePath)
      ensures r.Ok? ==> r.value == folders[folderId] && RepointedAll(old(files), files, folderId, oldRelativePath, newRelativePath)
      ensures (Key(userId, oldRelativePath) in old(store).dirs && Key(userId, oldRelativePath) !in old(store).blobs &&
               newRelativePath != oldRelativePath && DirectFilesBelow(old(files), folderId, oldRelativePath)) ==>
                r == Err(Io(NoSuchEntry)) && files == old(files) && store == moved
      ensures (old(PathsConsistent(folders)) && Children(old(folders), folderId) != {} &&
               newRelativePath != oldRelativePath) ==> !PathsConsistent(folders)
    {
      store := moved;
      var folder := folders[folderId].(name := newName, relativePath := newRelativePath);
      SaveFolderRow(folderId, folder);
      if Key(userId, oldRelativePath) in old(store).dirs && Key(userId, oldRelativePath) !in old(store).blobs &&
         newRelativePath != oldRelativePath && DirectFilesBelow(old(files), folderId, oldRelativePath) {
        forall g | g in FilesIn(files, folderId)
          ensures Key(userId, files[g].relativePath) !in store.blobs && Key(userId, files[g].relativePath) !in store.dirs
        {
          RenameDirectoryVacates(old(store), userId, oldRelativePath, newRelativePath, files[g].relativePath);
        }
        assert AllAbsent(files, store, folderId, userId);
      }
      var done := RepointFilesAsWritten(folderId, oldRelativePath, newRelativePath, userId);
      if done.Err? {
        return Err(done.error);
      }
      r := Ok(folder);
    }

    /**
     * `folder.save(folder)` for an existing row whose parent is kept. When the
     * path changes under a folder that has subfolders, the paths stop agreeing
     * with the tree, since the subfolders keep their stored paths.
     */
    method SaveFolderRow(folderId: Id, folder: Folder)
      requires Valid() && folderId in folders && folder.parent == folders[folderId].parent
      modifies this
      ensures Valid()
      ensures files == old(files) && store == old(store) && sharedFiles == old(sharedFiles) && rank == old(rank)
      ensures folders == old(folders)[folderId := folder]
      ensures (old(PathsConsistent(folders)) && Children(old(folders), folderId) != {} &&
               folder.relativePath != old(folders)[folderId].relativePath) ==> !PathsConsistent(folders)
    {
      if PathsConsistent(folders) && Children(folders, folderId) != {} && folder.relativePath != folders[folderId].relativePath {
        var c :| c in Children(folders, folderId);
        RenameLeavesSubfolderStale(folders, rank, folderId, c, folder);
      }
      RankedSameTree(folders, folders[folderId := folder], rank);
      folders := folders[folderId := folder];
    }

    /**
     * The per-file loop of `renameFolder`: for each file directly inside
     * the folder, the first occurrence of the old folder path in its path is
     * replaced by the new one, the file is renamed in the store, and its
     * row saved. The first failing rename stops the loop.
     */
    method RepointFilesAsWritten(folderId: Id, oldRel: string, newRel: string, userId: UserId) returns (r: Result<(), Error>)
      requires FilesClosed(files, folders)
      modifies this
      ensures FilesClosed(files, folders)
      ensures folders == old(folders) && sharedFiles == old(sharedFiles) && rank == old(rank)
      ensures RepointedSome(old(files), files, folderId, oldRel, newRel)
      ensures r.Ok? ==> RepointedAll(old(files), files, folderId, oldRel, newRel)
      ensures AllAbsent(old(files), old(store), folderId, userId) ==>
        r == Err(Io(NoSuchEntry)) && files == old(files) && store == old(store)
    {
      var pending := FilesIn(files, folderId);
      while pending != {}
        invariant folders == old(folders) && sharedFiles == old(sharedFiles) && rank == old(rank)
        invariant RepointedExcept(old(files), files, folderId, pending, oldRel, newRel)
        invariant AllAbsent(old(files), old(store), folderId, userId) ==> pending == FilesIn(old(files), folderId)
        invariant pending == FilesIn(old(files), folderId) ==> files == old(files) && store == old(store)
        decreases |pending|
      {
        var g :| g in pending;
        ghost var before := files;
        r := RepointOneAsWritten(g, oldRel, newRel, userId);
        if r.Err? {
          RepointedSomeClosed(old(files), files, folders, folderId, oldRel, newRel);
          return;
        }
        RepointedExceptStep(old(files), before, folderId, pending, g, oldRel, newRel);
        pending := pending - {g};
      }
      RepointedExceptDone(old(files), files, folderId, oldRel, newRel);
      RepointedSomeClosed(old(files), files, folders, folderId, oldRel, newRel);
      r := Ok(());
    }

    /**
     * One turn of the loop in `renameFolder`: the file's blob is renamed to
     * the path with the first occurrence of `oldRel` replaced, then its row
     * is saved with that path. A failed rename changes nothing.
     */
    method RepointOneAsWritten(g: Id, oldRel: string, newRel: string, userId: UserId) returns (r: Result<(), Error>)
      requires g in files
      modifies this
      ensures folders == old(folders) && sharedFiles == old(sharedFiles) && rank == old(rank)
      ensures r.Ok? ==> files == old(files)[g := RepointedAsWritten(old(files)[g], oldRel, newRel)]
      ensures r.Err? ==> r.error.Io? && files == old(files) && store == old(store)
      ensures (Key(userId, old(files)[g].relativePath) !in old(store).blobs &&
               Key(userId, old(files)[g].relativePath) !in old(store).dirs) ==> r == Err(Io(NoSuchEntry))
      ensures var moved := Rename(old(store), userId, old(files)[g].relativePath, ReplaceFirst(old(files)[g].relativePath, oldRel, newRel));
        (r.Ok? ==> moved == Ok(store)) && (r.Err? ==> moved == Err(r.error.cause))
    {
      var file := files[g];
      var newFileRelativePath := ReplaceFirst(file.relativePath, oldRel, newRel);
      var step := Rename(store, userId, file.relativePath, newFileRelativePath);
      if step.Err? {
        return Err(Io(step.error));
      }
      store := step.value;
      files := files[g := file.(relativePath := newFileRelativePath)];
      r := Ok(());
    }

    /**
     * `renameFolder` as evidently intended: the directory move already
     * carries everything below the folder, so the rows of the caller's files
     * and folders below it are only repointed, by swapping the old folder
     * path prefix for the new one, and no per-file rename is attempted.
     */
    method RenameFolderCorrected(folderId: Id, newName: string, userId: UserId) returns (r: Result<Folder, Error>)
      requires Valid()
      modifies this
      ensures Valid()
      ensures sharedFiles == old(sharedFiles) && rank == old(rank)
      ensures old(folderId !in folders || folders[folderId].owner != userId) ==>
        r == Err(NotAuthorized) && folders == old(folders) && files == old(files) && store == old(store)
      ensures old(folderId in folders && folders[folderId].owner == userId) ==>
        var oldRel := old(folders)[folderId].relativePath;
        var newRel := RenamedFolderPath(oldRel, newName);
        match Rename(old(store), userId, oldRel, newRel)
        case Err(e) => r == Err(Io(e)) && folders == old(folders) && files == old(files) && store == old(store)
        case Ok(moved) =>
          folders == RepointFolders(old(folders), userId, oldRel, newRel)[folderId := old(folders)[folderId].(name := newName, relativePath := newRel)] &&
          r == Ok(folders[folderId]) && store == moved &&
          files == RepointFiles(old(files), userId, oldRel, newRel)
      ensures r.Ok? && folderId in old(folders) && Key(userId, old(folders)[folderId].relativePath) !in old(store).blobs ==>
        KeepsContents(old(files), old(store), files, store, userId)
      ensures r.Ok? && old(PathsConsistent(folders)) && old(CascadeSafe(folders, userId, folderId, newName)) ==>
        PathsConsistent(folders)
    {
      if folderId !in folders || folders[folderId].owner != userId {
        return Err(NotAuthorized);
      }
      var folder := folders[folderId];
      var oldRelativePath := folder.relativePath;
      var newRelativePath := RenamedFolderPath(oldRelativePath, newName);
      var moved := Rename(store, userId, oldRelativePath, newRelativePath);
      if moved.Err? {
        return Err(Io(moved.error));
      }
      if Key(userId, oldRelativePath) !in store.blobs {
        RepointFilesCarries(old(store), moved.value, userId, oldRelativePath, newRelativePath, files);
      }
      if PathsConsistent(folders) && CascadeSafe(folders, userId, folderId, newName) {
        CascadeKeepsPaths(folders, rank, userId, folderId, newName);
      }
      r := CommitRename(folderId, newName, oldRelativePath, newRelativePath, userId, moved.value);
    }

    /**
     * The row updates of `renameFolder` once the directory has moved: the
     * store becomes the moved one, the folder gets its new name and path,
     * and the caller's folders and files below the old path are repointed.
     */
    method CommitRename(folderId: Id, newName: string, oldRel: string, newRel: string, userId: UserId, moved: Store)
      returns (r: Result<Folder, Error>)
      requires Valid() && folderId in folders
      modifies this
      ensures Valid()
      ensures sharedFiles == old(sharedFiles) && rank == old(rank) && store == moved
      ensures folders == RepointFolders(old(folders), userId, oldRel, newRel)[folderId := old(folders)[folderId].(name := newName, relativePath := newRel)]
      ensures files == RepointFiles(old(files), userId, oldRel, newRel)
      ensures r == Ok(folders[folderId])
    {
      store := moved;
      var folder := folders[folderId].(name := newName, relativePath := newRel);
      folders := RepointFolders(folders, userId, oldRel, newRel)[folderId := folder];
      RankedSameTree(old(folders), folders, rank);
      files := RepointFiles(files, userId, oldRel, newRel);
      r := Ok(folder);
    }

    /**
     * Copies the caller's file under the first free name of `base (copy)ext`,
     * `base (copy 1)ext`, `base (copy 2)ext`, ..., where a name is free when
     * no file of the caller has the resulting path. The copy is recorded at
     * the owner root level: its row has no folder. When the file's name does
     * not occur in its path every candidate is the file's own path, and the
     * search never stops.
     */
    method CloneFile(fileId: Id, userId: UserId, newId: Id) returns (r: Result<File, Error>)
      requires Valid() && newId !in files
      modifies this
      ensures Valid()
      ensures folders == old(folders) && sharedFiles == old(sharedFiles) && rank == old(rank)
      ensures old(fileId !in files || files[fileId].owner != userId) ==>
        r == Err(NotAuthorized) && files == old(files) && store == old(store)
      ensures old(fileId in files && files[fileId].owner == userId) ==>
        var f := old(files)[fileId];
        if IndexOf(f.relativePath, f.name).None? then
          r == Err(NonTermination) && files == old(files) && store == old(store)
        else
          exists m: nat :: IsFirstFree(f.relativePath, f.name, OwnerPaths(old(files), userId), m) &&
            ClonedAs(old(files), old(store), files, store, f, userId, newId,
                     CopyName(f.name, m), CandidatePath(f.relativePath, f.name, m), r)
    {
      if fileId !in files || files[fileId].owner != userId {
        return Err(NotAuthorized);
      }
      var file := files[fileId];
      if IndexOf(file.relativePath, file.name).None? {
        return Err(NonTermination);
      }
      var m, newName, newPathRelative := FindCopyName(file, userId);
      r := CopyAs(file, userId, newId, newName, newPathRelative);
      assert IsFirstFree(file.relativePath, file.name, OwnerPaths(old(files), userId), m);
    }

    /**
     * The last steps of `cloneFile`: copy the file's blob to `newPath` and,
     * when that succeeds, record the copy at the owner root.
     */
    method CopyAs(file: File, userId: UserId, newId: Id, newName: string, newPath: string) returns (r: Result<File, Error>)
      requires Valid() && newId !in files
      modifies this
      ensures Valid()
      ensures folders == old(folders) && sharedFiles == old(sharedFiles) && rank == old(rank)
      ensures ClonedAs(old(files), old(store), files, store, file, userId, newId, newName, newPath, r)
    {
      var copied := CopyFile(store, userId, file.relativePath, newPath);
      if copied.Err? {
        r := Err(Io(copied.error));
      } else {
        store := copied.value;
        var clone := File(newName, newPath, userId, None, false, None);
        files := files[newId := clone];
        r := Ok(clone);
      }
    }

    /**
     * The search loop of `cloneFile`: tries `base (copy)ext`, then
     * `base (copy 1)ext`, ... until the resulting path is not one of the
     * caller's. It stops because the candidate paths are pairwise distinct
     * and the caller has finitely many files.
     */
    method FindCopyName(file: File, userId: UserId) returns (m: nat, newName: string, newPathRelative: string)
      requires IndexOf(file.relativePath, file.name).Some?
      ensures IsFirstFree(file.relativePath, file.name, OwnerPaths(files, userId), m)
      ensures newName == CopyName(file.name, m)
      ensures newPathRelative == CandidatePath(file.relativePath, file.name, m)
    {
      CandidatePathsInjective(file.relativePath, file.name);
      m, newName, newPathRelative :=
        SearchFirstFree(CopyNames(file.name), CandidatePaths(file.relativePath, file.name), OwnerPaths(files, userId));
    }
    // -------------------------------------------------------------------------
    // Creation.

    /**
     * Creates a folder of `ownerId`, under the folder `parentId` when one is
     * given (of any owner: the parent's owner is not checked), making its
     * directory and every missing one above it.
     */
    method CreateFolder(name: string, parentId: Option<Id>, ownerId: UserId, newId: Id) returns (r: Result<Folder, Error>)
      requires Valid() && newId !in folders
      modifies this
      ensures Valid()
      ensures files == old(files) && sharedFiles == old(sharedFiles)
      ensures r.Err? ==> rank == old(rank)
      ensures name == "" ==>
        r == Err(NameRequired) && folders == old(folders) && store == old(store)
      ensures name != "" && Given(parentId) && parentId.value !in old(folders) ==>
        r == Err(ParentNotFound) && folders == old(folders) && store == old(store)
      ensures name != "" && !(Given(parentId) && parentId.value !in old(folders)) ==>
        MadeAs(old(folders), old(store), folders, store, newId,
               Folder(name, NewFolderPath(old(folders), name, parentId), if Given(parentId) then parentId else None,
                      ownerId, false, None), r)
      ensures r.Ok? ==> Key(ownerId, r.value.relativePath) in store.dirs
      ensures r.Ok? && old(PathsConsistent(folders)) ==> PathsConsistent(folders)
    {
      if name == "" {
        return Err(NameRequired);
      }
      var parent: Option<Id> := None;
      var parentPath := "";
      if Given(parentId) {
        if parentId.value !in folders {
          return Err(ParentNotFound);
        }
        parent := parentId;
        parentPath := folders[parentId.value].relativePath;
      }
      var folderPath := ChildPath(parentPath, name);
      var folder := Folder(name, folderPath, parent, ownerId, false, None);
      if PathsConsistent(folders) {
        if parent.Some? {
          NewFolderPathUnderParent(folders, name, parent.value);
        }
        PathsConsistentAddFolder(folders, newId, folder);
      }
      r := StoreNewFolder(folder, newId);
    }

    /**
     * The writing steps of `createFolder`: `mkdir -p` of the folder's path,
     * then its row, one level below its parent's.
     */
    method StoreNewFolder(folder: Folder, newId: Id) returns (r: Result<Folder, Error>)
      requires Valid() && newId !in folders
      requires folder.parent.Some? ==> folder.parent.value in folders
      modifies this
      ensures Valid()
      ensures files == old(files) && sharedFiles == old(sharedFiles)
      ensures r.Err? ==> rank == old(rank)
      ensures MadeAs(old(folders), old(store), folders, store, newId, folder, r)
      ensures r.Ok? ==> Key(folder.owner, folder.relativePath) in store.dirs
    {
      var made := MkdirP(store, folder.owner, folder.relativePath);
      if made.Err? {
        return Err(Io(made.error));
      }
      MkdirPCreates(store, folder.owner, folder.relativePath, |folder.relativePath|);
      store := made.value;
      RankedAddLeaf(folders, rank, newId, folder);
      rank := rank[newId := if folder.parent.Some? then rank[folder.parent.value] + 1 else 0];
      folders := folders[newId := folder];
      r := Ok(folder);
    }

    /**
     * Loads a folder with its ancestors: the chain, leaf first, from the folder
     * up to a root, or nothing when there is no folder with this id.
     */
    method LoadFolderWithParents(folderId: Id) returns (r: Option<seq<Folder>>)
      requires Valid()
      ensures folderId !in folders ==> r.None?
      ensures folderId in folders ==> r == Some(Lineage(folders, rank, folderId))
    {
      if folderId !in folders {
        return None;
      }
      var chain := [folders[folderId]];
      var current := folderId;
      while folders[current].parent.Some? && folders[current].parent.value in folders
        invariant current in folders
        invariant chain + Lineage(folders, rank, current)[1..] == Lineage(folders, rank, folderId)
        decreases rank[current]
      {
        var parentFolder := folders[current].parent.value;
        LineageStep(folders, rank, current, chain);
        chain := chain + [folders[parentFolder]];
        current := parentFolder;
      }
      LineageRoot(folders, rank, current, chain);
      r := Some(chain);
    }

    /**
     * Creates a file of `ownerId` in the folder `folderId` when one is given
     * (of any owner), at the path built from the folder's chain: makes the
     * parent directory, writes the contents, then records the row.
     */
    method CreateFile(name: string, folderId: Option<Id>, buffer: Option<Bytes>, ownerId: UserId, newId: Id) returns (r: Result<File, Error>)
      requires Valid() && newId !in files
      modifies this
      ensures Valid()
      ensures folders == old(folders) && sharedFiles == old(sharedFiles) && rank == old(rank)
      ensures name == "" ==> r == Err(NameRequired) && files == old(files) && store == old(store)
      ensures name != "" && Given(folderId) && folderId.value !in old(folders) ==>
        r == Err(FolderNotFound) && files == old(files) && store == old(store)
      ensures name != "" && !(Given(folderId) && folderId.value !in old(folders)) ==>
        StoredAs(old(files), old(store), files, store, ownerId, newId,
                 File(name, NewFilePath(old(folders), rank, name, folderId), ownerId,
                      if Given(folderId) then folderId else None, false, None),
                 ContentsOf(buffer), r)
      ensures r.Ok? ==> Key(ownerId, r.value.relativePath) in store.blobs && store.blobs[Key(ownerId, r.value.relativePath)] == ContentsOf(buffer)
      ensures r.Ok? && PathsConsistent(folders) ==>
        r.value.relativePath == if Given(folderId) then folders[folderId.value].relativePath + "/" + name else name
    {
      if name == "" {
        return Err(NameRequired);
      }
      var folder: Option<Id> := None;
      var folderPath := "";
      if Given(folderId) {
        var loaded := LoadFolderWithParents(folderId.value);
        if loaded.None? {
          return Err(FolderNotFound);
        }
        folder := folderId;
        folderPath := BuildFolderPath(loaded.value);
      }
      var relativePath := ChildPath(folderPath, name);
      if PathsConsistent(folders) && folder.Some? {
        NewFilePathUnderFolder(folders, rank, name, folder.value);
      }
      r := StoreNewFile(File(name, relativePath, ownerId, folder, false, None), ContentsOf(buffer), newId);
    }

    /**
     * The writing steps of `createFile`: `mkdir -p` of the parent directory,
     * then the blob, then the row. A failing `mkdir -p` changes nothing; a
     * failing write keeps the directories it made.
     */
    method StoreNewFile(file: File, contents: Bytes, newId: Id) returns (r: Result<File, Error>)
      requires Valid() && newId !in files
      requires file.folder.Some? ==> file.folder.value in folders
      modifies this
      ensures Valid()
      ensures folders == old(folders) && sharedFiles == old(sharedFiles) && rank == old(rank)
      ensures StoredAs(old(files), old(store), files, store, file.owner, newId, file, contents, r)
      ensures r.Ok? ==> Key(file.owner, file.relativePath) in store.blobs && store.blobs[Key(file.owner, file.relativePath)] == contents
    {
      var made := MkdirP(store, file.owner, ParentPath(file.relativePath));
      if made.Err? {
        return Err(Io(made.error));
      }
      store := made.value;
      var written := WriteFile(store, file.owner, file.relativePath, contents);
      if written.Err? {
        return Err(Io(written.error));
      }
      WriteFileStores(store, file.owner, file.relativePath, contents, Key(file.owner, file.relativePath));
      store := written.value;
      files := files[newId := file];
      r := Ok(file);
    }

    // -------------------------------------------------------------------------
    // Deletion.

    /**
     * Deletes the caller's folder with everything below it, as rows: first
     * the files directly inside it (each unlinked, then its row removed),
     * then each child folder by the same procedure, then the folder's own
     * row. No directory is removed from the store. A failure stops the
     * deletion where it is.
     */
    method DeleteFolder(folderId: Id, ownerId: UserId) returns (r: Result<(), Error>)
      requires Valid()
      modifies this
      ensures Valid()
      ensures rank == old(rank) && sharedFiles == old(sharedFiles)
      ensures old(folderId !in folders || folders[folderId].owner != ownerId) ==>
        r == Err(FolderNotFound) && folders == old(folders) && files == old(files) && store == old(store)
      ensures DeletedWithin(old(folders), old(files), old(store), folders, files, store, rank, folderId, ownerId)
      ensures folders != old(folders) ==> forall g :: g in FilesIn(old(files), folderId) ==> g !in files
      ensures r.Ok? ==> folderId in old(folders) && folderId !in folders
      ensures r.Ok? ==> forall f :: f in folders ==> !IsAncestorOrSelf(old(folders), rank, folderId, f)
      ensures r.Ok? ==> forall g :: g in files && files[g].folder.Some? ==>
        !IsAncestorOrSelf(old(folders), rank, folderId, files[g].folder.value)
      decreases if folderId in rank then |RankedAbove(rank, folderId)| else 0, 1
    {
      if folderId !in folders || folders[folderId].owner != ownerId {
        return Err(FolderNotFound);
      }
      var children := Children(folders, folderId);
      r := DeleteDirectFiles(folderId, ownerId);
      if r.Err? {
        return;
      }
      ghost var folders1, files1, store1 := folders, files, store;
      r := DeleteChildren(folderId, children, ownerId);
      DeletedWithinTrans(old(folders), old(files), old(store), folders1, files1, store1, folders, files, store, rank, folderId, folderId, ownerId);
      if r.Err? {
        return;
      }
      ghost var folders2 := folders;
      RankedSubMap(folders - {folderId}, folders, rank);
      folders := folders - {folderId};
      assert DeletedWithin(folders2, files, store, folders, files, store, rank, folderId, ownerId);
      DeletedWithinTrans(old(folders), old(files), old(store), folders2, files, store, folders, files, store, rank, folderId, folderId, ownerId);
      SubtreeGone(old(folders), folders, files, rank, folderId);
    }

    /** The file loop of `deleteFolder`: unlinks and removes each file directly inside `a`. */
    method DeleteDirectFiles(a: Id, ownerId: UserId) returns (r: Result<(), Error>)
      requires Valid() && a in folders
      modifies this
      ensures Valid()
      ensures folders == old(folders) && rank == old(rank) && sharedFiles == old(sharedFiles)
      ensures DeletedWithin(old(folders), old(files), old(store), folders, files, store, rank, a, ownerId)
      ensures forall g :: g in old(files) && g !in files ==> g in FilesIn(old(files), a)
      ensures r.Ok? ==> files == old(files) - FilesIn(old(files), a)
      ensures r.Ok? ==> store.dirs == old(store).dirs &&
                        store.blobs == old(store).blobs - PathKeys(old(files), FilesIn(old(files), a), ownerId)
    {
      var pending := FilesIn(files, a);
      ghost var direct := pending;
      while pending != {}
        invariant Valid() && folders == old(folders) && rank == old(rank) && sharedFiles == old(sharedFiles)
        invariant pending <= direct
        invariant UnlinkedSoFar(old(files), old(store), files, store, direct - pending, ownerId)
        invariant DeletedWithin(old(folders), old(files), old(store), folders, files, store, rank, a, ownerId)
        decreases |pending|
      {
        var g :| g in pending;
        ghost var files1, store1 := files, store;
        r := UnlinkFile(g, a, ownerId);
        if r.Err? {
          return;
        }
        UnlinkedOneMore(old(files), old(store), files1, store1, files, store, direct, pending, g, ownerId);
        pending := pending - {g};
        DeletedWithinTrans(old(folders), old(files), old(store), folders, files1, store1, folders, files, store, rank, a, a, ownerId);
      }
      r := Ok(());
    }

    /** Removes the blob of file `g`, a direct file of `a`, then its row; a failed unlink changes nothing. */
    method UnlinkFile(g: Id, a: Id, ownerId: UserId) returns (r: Result<(), Error>)
      requires Valid() && a in folders && g in files && files[g].folder == Some(a)
      modifies this
      ensures Valid()
      ensures folders == old(folders) && rank == old(rank) && sharedFiles == old(sharedFiles)
      ensures r.Err? ==> r.error.Io? && files == old(files) && store == old(store)
      ensures r.Ok? ==> files == old(files) - {g}
      ensures r.Ok? ==> Unlink(old(store), ownerId, old(files)[g].relativePath) == Ok(store)
      ensures r.Ok? ==> store == old(store).(blobs := old(store).blobs - {Key(ownerId, old(files)[g].relativePath)})
      ensures r.Ok? ==> DeletedWithin(old(folders), old(files), old(store), folders, files, store, rank, a, ownerId)
    {
      var unlinked := Unlink(store, ownerId, files[g].relativePath);
      if unlinked.Err? {
        return Err(Io(unlinked.error));
      }
      UnlinkWithin(folders, files, store, rank, a, ownerId, g);
      store := unlinked.value;
      files := files - {g};
      r := Ok(());
    }

    /** The child loop of `deleteFolder`: deletes each of the listed children of `a` in turn. */
    method DeleteChildren(a: Id, kids: set<Id>, ownerId: UserId) returns (r: Result<(), Error>)
      requires Valid() && a in folders
      requires forall c :: c in kids ==> c in folders && folders[c].parent == Some(a)
      modifies this
      ensures Valid()
      ensures rank == old(rank) && sharedFiles == old(sharedFiles)
      ensures DeletedWithin(old(folders), old(files), old(store), folders, files, store, rank, a, ownerId)
      ensures r.Ok? ==> forall c :: c in kids ==> c !in folders
      decreases |RankedAbove(rank, a)|, 0
    {
      var pending := kids;
      while pending != {}
        invariant Valid() && rank == old(rank) && sharedFiles == old(sharedFiles)
        invariant pending <= kids
        invariant DeletedWithin(old(folders), old(files), old(store), folders, files, store, rank, a, ownerId)
        invariant forall c :: c in kids - pending ==> c !in folders
        decreases |pending|
      {
        var c :| c in pending;
        RankedAboveShrinks(rank, a, c);
        ghost var folders1, files1, store1 := folders, files, store;
        r := DeleteFolder(c, ownerId);
        DeletedWithinTrans(old(folders), old(files), old(store), folders1, files1, store1, folders, files, store, rank, a, c, ownerId);
        if r.Err? {
          return;
        }
        pending := pending - {c};
      }
      r := Ok(());
    }
  }
}
