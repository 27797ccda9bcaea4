/**
 * The physical store `uploads/{ownerId}/{relativePath}`: per-owner file
 * contents and directories, with the error codes of the file-system calls
 * the service makes (mkdir -p, writeFile, unlink, copyFile, rename).
 * The path "" stands for the owner's own directory `uploads/{ownerId}`.
 */
module Physical {
  import opened Wrappers
  import opened Paths

  type Bytes = seq<bv8>

  /** `path` inside the directory of owner `owner`. */
  datatype Key = Key(owner: int, path: string)

  /** The error codes the file-system calls can fail with. */
  datatype IoError =
    | NoSuchEntry        // ENOENT
    | IsADirectory       // EISDIR
    | NotADirectory      // ENOTDIR
    | AlreadyExists      // EEXIST
    | InvalidMove        // EINVAL: a directory moved into itself
    | DirectoryNotEmpty  // ENOTEMPTY

  datatype Store = Store(blobs: map<Key, Bytes>, dirs: set<Key>)

  /** `p` lies strictly below directory `d`; every non-empty path lies below the owner root "". */
  predicate Below(p: string, d: string) {
    if d == "" then p != "" else |d| < |p| && p[..|d|] == d && p[|d|] == '/'
  }

  /** `p` is `d` or lies below it. */
  predicate Within(p: string, d: string) {
    p == d || Below(p, d)
  }

  /** Something (a file or a directory) of owner `u` lies strictly below `d`. */
  predicate HasEntryBelow(s: Store, u: int, d: string) {
    exists k :: k in s.blobs.Keys + s.dirs && k.owner == u && Below(k.path, d)
  }

  /** Where `k` lands when the directory `from` is renamed to `to`. */
  function Move(k: Key, from: string, to: string): (r: Key)
    requires Within(k.path, from)
    ensures r.owner == k.owner && |r.path| + |from| == |to| + |k.path|
  {
    Key(k.owner, to + k.path[|from|..])
  }

  lemma MoveInjective(from: string, to: string)
    ensures forall k1: Key, k2: Key | Within(k1.path, from) && Within(k2.path, from) ::
      Move(k1, from, to) == Move(k2, from, to) ==> k1 == k2
  {
    forall k1: Key, k2: Key | Within(k1.path, from) && Within(k2.path, from) && Move(k1, from, to) == Move(k2, from, to)
      ensures k1 == k2
    {
      var s1, s2 := k1.path[|from|..], k2.path[|from|..];
      assert s1 == (to + s1)[|to|..];
      assert s2 == (to + s2)[|to|..];
      assert k1.path == from + s1;
      assert k2.path == from + s2;
    }
  }

  /** Whether `k` is `from` of owner `u` or lies below it. */
  predicate Inside(k: Key, u: int, from: string) {
    k.owner == u && Within(k.path, from)
  }

  /** Every entry at or below `from` re-rooted at `to`; everything else stays. */
  function MoveTree(s: Store, u: int, from: string, to: string): Store {
    MoveInjective(from, to);
    Store(
      (map k | k in s.blobs && !Inside(k, u, from) :: s.blobs[k])
        + (map k | k in s.blobs && Inside(k, u, from) :: Move(k, from, to) := s.blobs[k]),
      (set k | k in s.dirs && !Inside(k, u, from))
        + (set k | k in s.dirs && Inside(k, u, from) :: Move(k, from, to)))
  }

  /** The directories `mkdir -p` ensures: the owner root, each `/`-prefix of `p`, and `p`. */
  function DirChain(u: int, p: string): set<Key> {
    set i | 0 <= i <= |p| && (i == 0 || i == |p| || p[i] == '/') :: Key(u, p[..i])
  }

  /** `fs.mkdir(p, { recursive: true })`. */
  function MkdirP(s: Store, u: int, p: string): Result<Store, IoError> {
    if Key(u, p) in s.blobs then Err(AlreadyExists)
    else if exists k :: k in DirChain(u, p) && k in s.blobs then Err(NotADirectory)
    else Ok(s.(dirs := s.dirs + DirChain(u, p)))
  }

  /** `fs.writeFile(p, data)`: creates or overwrites a file in an existing directory. */
  function WriteFile(s: Store, u: int, p: string, data: Bytes): Result<Store, IoError> {
    if Key(u, p) in s.dirs then Err(IsADirectory)
    else if Key(u, ParentPath(p)) !in s.dirs then Err(NoSuchEntry)
    else Ok(s.(blobs := s.blobs[Key(u, p) := data]))
  }

  /** `fs.unlink(p)`: removes a file. */
  function Unlink(s: Store, u: int, p: string): Result<Store, IoError> {
    if Key(u, p) in s.blobs then Ok(s.(blobs := s.blobs - {Key(u, p)}))
    else if Key(u, p) in s.dirs then Err(IsADirectory)
    else Err(NoSuchEntry)
  }

  /** `copyFileSync(from, to)`: copies the contents of a file. */
  function CopyFile(s: Store, u: int, from: string, to: string): Result<Store, IoError> {
    if Key(u, from) !in s.blobs then (if Key(u, from) in s.dirs then Err(IsADirectory) else Err(NoSuchEntry))
    else if Key(u, to) in s.dirs then Err(IsADirectory)
    else if Key(u, ParentPath(to)) !in s.dirs then Err(NoSuchEntry)
    else Ok(s.(blobs := s.blobs[Key(u, to) := s.blobs[Key(u, from)]]))
  }

  /**
   * `fs.rename(from, to)`. A file replaces whatever file is at `to`; a
   * directory moves with everything below it, onto an empty directory or a
   * free name, and never into itself.
   */
  function Rename(s: Store, u: int, from: string, to: string): Result<Store, IoError> {
    var src, dst := Key(u, from), Key(u, to);
    if src !in s.blobs && src !in s.dirs then Err(NoSuchEntry)
    else if Key(u, ParentPath(to)) !in s.dirs then Err(NoSuchEntry)
    else if from == to then Ok(s)
    else if src in s.blobs then
      (if dst in s.dirs then Err(IsADirectory)
       else Ok(s.(blobs := (s.blobs - {src})[dst := s.blobs[src]])))
    else if Below(to, from) then Err(InvalidMove)
    else if dst in s.blobs then Err(NotADirectory)
    else if HasEntryBelow(s, u, to) then Err(DirectoryNotEmpty)
    else Ok(MoveTree(s, u, from, to))
  }

  // ---------------------------------------------------------------------------
  // What each call does to the store.

  /** After `mkdir -p p`, `p` and each directory above it exist and no file changed. */
  lemma MkdirPCreates(s: Store, u: int, p: string, i: nat)
    requires MkdirP(s, u, p).Ok?
    requires i <= |p| && (i == 0 || i == |p| || p[i] == '/')
    ensures Key(u, p[..i]) in MkdirP(s, u, p).value.dirs
    ensures Key(u, p) in MkdirP(s, u, p).value.dirs
    ensures MkdirP(s, u, p).value.blobs == s.blobs && s.dirs <= MkdirP(s, u, p).value.dirs
  {
    assert p[..|p|] == p;
  }

  /** `mkdir -p` fails exactly when `p` or a directory on the way to it is a file. */
  lemma MkdirPFails(s: Store, u: int, p: string)
    ensures MkdirP(s, u, p).Err? <==> exists i :: 0 <= i <= |p| && (i == 0 || i == |p| || p[i] == '/') && Key(u, p[..i]) in s.blobs
  {
    if MkdirP(s, u, p).Err? {
      if Key(u, p) in s.blobs {
        assert p[..|p|] == p;
      } else {
        var k :| k in DirChain(u, p) && k in s.blobs;
      }
    }
  }

  /** A written file holds the data; only that key changed. */
  lemma WriteFileStores(s: Store, u: int, p: string, data: Bytes, k: Key)
    requires WriteFile(s, u, p, data).Ok?
    ensures WriteFile(s, u, p, data).value.blobs[Key(u, p)] == data
    ensures k != Key(u, p) ==> (k in WriteFile(s, u, p, data).value.blobs <==> k in s.blobs)
    ensures k != Key(u, p) && k in s.blobs ==> WriteFile(s, u, p, data).value.blobs[k] == s.blobs[k]
    ensures WriteFile(s, u, p, data).value.dirs == s.dirs
  {
  }

  /** Unlinking succeeds exactly on a file and removes that file alone. */
  lemma UnlinkRemoves(s: Store, u: int, p: string)
    ensures Unlink(s, u, p).Ok? <==> Key(u, p) in s.blobs
    ensures Unlink(s, u, p).Ok? ==>
      Unlink(s, u, p).value.blobs.Keys == s.blobs.Keys - {Key(u, p)} &&
      Unlink(s, u, p).value.dirs == s.dirs &&
      forall k :: k in Unlink(s, u, p).value.blobs ==> Unlink(s, u, p).value.blobs[k] == s.blobs[k]
  {
  }

  /**
   * `copyFileSync` succeeds exactly when the source is a file, the target is
   * not a directory and the target's directory exists; the target then holds
   * the source's contents and nothing else changes.
   */
  lemma CopyFileCopies(s: Store, u: int, from: string, to: string, k: Key)
    ensures CopyFile(s, u, from, to).Ok? <==>
      Key(u, from) in s.blobs && Key(u, to) !in s.dirs && Key(u, ParentPath(to)) in s.dirs
    ensures CopyFile(s, u, from, to).Ok? ==>
      var t := CopyFile(s, u, from, to).value;
      t.dirs == s.dirs && Key(u, to) in t.blobs && t.blobs[Key(u, to)] == s.blobs[Key(u, from)] &&
      (k != Key(u, to) ==> (k in t.blobs <==> k in s.blobs) && (k in s.blobs ==> t.blobs[k] == s.blobs[k]))
  {
  }

  /** A renamed file keeps its contents under the new name and is gone from the old one. */
  lemma RenameFileMoves(s: Store, u: int, from: string, to: string)
    requires Key(u, from) in s.blobs && Rename(s, u, from, to).Ok? && from != to
    ensures Rename(s, u, from, to).value.blobs[Key(u, to)] == s.blobs[Key(u, from)]
    ensures Key(u, from) !in Rename(s, u, from, to).value.blobs
    ensures Rename(s, u, from, to).value.dirs == s.dirs
  {
  }

  /** Renaming needs the source to exist and the target's directory to exist. */
  lemma RenameNeedsEntries(s: Store, u: int, from: string, to: string)
    requires Rename(s, u, from, to).Ok?
    ensures Key(u, from) in s.blobs || Key(u, from) in s.dirs
    ensures Key(u, ParentPath(to)) in s.dirs
  {
  }

  /** Two directories holding the same path are nested one in the other. */
  lemma {:induction false} WithinComparable(p: string, a: string, b: string)
    requires Within(p, a) && Within(p, b)
    ensures Within(a, b) || Within(b, a)
  {
    if a != "" && b != "" && a != b {
      if |a| < |b| {
        assert b[..|a|] == p[..|a|];
        assert b[|a|] == p[|a|];
      } else if |b| < |a| {
        assert a[..|b|] == p[..|b|];
        assert a[|b|] == p[|b|];
      }
    }
  }

  /** A moved entry lands at or below the new directory name. */
  lemma MoveWithin(k: Key, from: string, to: string)
    requires Within(k.path, from) && from != ""
    ensures Within(Move(k, from, to).path, to)
  {
    var q := Move(k, from, to).path;
    if k.path != from && to != "" {
      assert q[..|to|] == to;
      assert q[|to|] == k.path[|from|];
    }
  }

  /** The shape a successful directory rename must have had. */
  lemma RenameDirectoryShape(s: Store, u: int, from: string, to: string)
    requires Key(u, from) in s.dirs && Key(u, from) !in s.blobs
    requires from != to && Rename(s, u, from, to).Ok?
    ensures from != "" && !Within(to, from) && !Below(from, to)
    ensures Rename(s, u, from, to) == Ok(MoveTree(s, u, from, to))
  {
  }

  /**
   * After a directory is renamed, nothing is left strictly below its old
   * name: every path there is neither a file nor a directory.
   */
  lemma RenameDirectoryVacates(s: Store, u: int, from: string, to: string, p: string)
    requires Key(u, from) in s.dirs && Key(u, from) !in s.blobs
    requires from != to && Rename(s, u, from, to).Ok?
    requires Below(p, from)
    ensures Key(u, p) !in Rename(s, u, from, to).value.blobs
    ensures Key(u, p) !in Rename(s, u, from, to).value.dirs
  {
    RenameDirectoryShape(s, u, from, to);
    var t := MoveTree(s, u, from, to);
    forall k: Key | Within(k.path, from) && Move(k, from, to) == Key(u, p)
      ensures false
    {
      MoveWithin(k, from, to);
      WithinComparable(p, from, to);
    }
  }

  /** Consequently a later rename of a path that was below the moved directory fails with ENOENT. */
  lemma RenameAfterDirectoryMoveFails(s: Store, u: int, from: string, to: string, p: string, q: string)
    requires Key(u, from) in s.dirs && Key(u, from) !in s.blobs
    requires from != to && Rename(s, u, from, to).Ok?
    requires Below(p, from)
    ensures Rename(Rename(s, u, from, to).value, u, p, q) == Err(NoSuchEntry)
  {
    RenameDirectoryVacates(s, u, from, to, p);
  }

  /** The contents of a file below a renamed directory sit at the corresponding new path. */
  lemma RenameDirectoryCarries(s: Store, u: int, from: string, to: string, p: string)
    requires Key(u, from) in s.dirs && Key(u, from) !in s.blobs
    requires from != to && Rename(s, u, from, to).Ok?
    requires Key(u, p) in s.blobs && Below(p, from)
    ensures Key(u, to + p[|from|..]) in Rename(s, u, from, to).value.blobs
    ensures Rename(s, u, from, to).value.blobs[Key(u, to + p[|from|..])] == s.blobs[Key(u, p)]
  {
    RenameDirectoryShape(s, u, from, to);
    MoveInjective(from, to);
    assert Move(Key(u, p), from, to) == Key(u, to + p[|from|..]);
  }

  /** Entries outside the renamed directory are untouched. */
  lemma RenameDirectoryKeepsOthers(s: Store, u: int, from: string, to: string, k: Key)
    requires Key(u, from) in s.dirs && Key(u, from) !in s.blobs
    requires from != to && Rename(s, u, from, to).Ok?
    requires k in s.blobs && !Inside(k, u, from) && !Inside(k, u, to)
    ensures k in Rename(s, u, from, to).value.blobs
    ensures Rename(s, u, from, to).value.blobs[k] == s.blobs[k]
  {
    RenameDirectoryShape(s, u, from, to);
    forall k2: Key | Within(k2.path, from) && Move(k2, from, to) == k && k.owner == u
      ensures false
    {
      MoveWithin(k2, from, to);
    }
  }
}
