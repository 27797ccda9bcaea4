/**
 * The path-string rules of the storage service: how a child path is formed,
 * how a folder rename rewrites the last segment, how a file name splits into
 * base and extension, and which names a clone tries.
 */
module Paths {
  import opened Wrappers
  import opened Text

  /** `parentPath ? `${parentPath}/${name}` : name`: an empty parent path means the owner root. */
  function ChildPath(parentPath: string, name: string): string {
    if parentPath != "" then parentPath + "/" + name else name
  }

  /** `p.substring(0, p.lastIndexOf('/'))`: everything before the last `/`, or "" when there is none. */
  function ParentPath(p: string): string {
    var i := LastIndexOf(p, '/');
    if i < 0 then "" else p[..i]
  }

  /** The path a folder at `oldPath` gets when renamed to `newName`. */
  function RenamedFolderPath(oldPath: string, newName: string): string {
    ChildPath(ParentPath(oldPath), newName)
  }

  /** The parent path of `pre/seg`, for a last segment without `/`, is `pre`. */
  lemma ParentPathOfChild(pre: string, seg: string)
    requires '/' !in seg
    ensures ParentPath(pre + "/" + seg) == pre
  {
    LastIndexOfAppend(pre, '/', seg);
    assert pre + "/" + seg == pre + ['/'] + seg;
    assert (pre + ['/'] + seg)[..|pre|] == pre;
  }

  /** A path without `/` has the owner root as its parent. */
  lemma ParentPathOfTopLevel(p: string)
    requires '/' !in p
    ensures ParentPath(p) == ""
  {
  }

  /**
   * Renaming keeps everything up to the last `/` and replaces only the final
   * segment; a top-level folder's path becomes the new name.
   */
  lemma RenamedFolderPathReplacesLastSegment(pre: string, seg: string, newName: string)
    requires '/' !in seg
    ensures pre != "" ==> RenamedFolderPath(pre + "/" + seg, newName) == pre + "/" + newName
    ensures pre == "" ==> RenamedFolderPath(pre + "/" + seg, newName) == newName
    ensures RenamedFolderPath(seg, newName) == newName
  {
    ParentPathOfChild(pre, seg);
    ParentPathOfTopLevel(seg);
  }

  /** Renaming a folder that was created as `name` under `parentPath` keeps it under `parentPath`. */
  lemma RenameAfterCreate(parentPath: string, oldName: string, newName: string)
    requires '/' !in oldName
    ensures RenamedFolderPath(ChildPath(parentPath, oldName), newName) == ChildPath(parentPath, newName)
  {
    if parentPath != "" {
      ParentPathOfChild(parentPath, oldName);
    } else {
      ParentPathOfTopLevel(oldName);
    }
  }

  /**
   * `/(\.[^/.]+)$/` matches at `i`: a dot followed by at least one character,
   * none of which is a dot or a slash, up to the end of the name.
   */
  predicate ExtensionAt(name: string, i: nat) {
    i + 1 < |name| && name[i] == '.' &&
    forall j :: i < j < |name| ==> name[j] != '.' && name[j] != '/'
  }

  /** The extension `cloneFile` keeps: the regex match, or "" when there is none. */
  function Extension(name: string): (ext: string)
    ensures |ext| <= |name| && ext == name[|name| - |ext|..]
  {
    var i := LastIndexOf(name, '.');
    if i < 0 || i + 1 == |name| || '/' in name[i + 1..] then "" else name[i..]
  }

  /** The extension is exactly what `/(\.[^/.]+)$/` matches: empty when the regex does not match. */
  lemma ExtensionIsRegexMatch(name: string)
    ensures Extension(name) == "" <==> forall i: nat :: !ExtensionAt(name, i)
    ensures Extension(name) != "" ==> ExtensionAt(name, |name| - |Extension(name)|)
  {
    var i := LastIndexOf(name, '.');
    if i < 0 || i + 1 == |name| || '/' in name[i + 1..] {
      forall k: nat | k < |name| && name[k] == '.' && (forall j :: k < j < |name| ==> name[j] != '.')
        ensures k == i
      {
      }
      assert '/' in name[i + 1..] ==> exists m :: i < m < |name| && name[m] == '/' by {
        if '/' in name[i + 1..] {
          var m :| 0 <= m < |name[i + 1..]| && name[i + 1..][m] == '/';
          assert name[i + 1 + m] == '/';
        }
      }
    } else {
      forall j | i < j < |name|
        ensures name[j] != '/'
      {
        assert name[j] == name[i + 1..][j - i - 1];
      }
      assert ExtensionAt(name, i);
    }
  }

  /** `file.name.slice(0, -ext.length)` when there is an extension, the whole name otherwise. */
  function BaseName(name: string): (base: string)
    ensures base + Extension(name) == name
  {
    name[..|name| - |Extension(name)|]
  }

  /** The marker of the `k`-th candidate: ` (copy)`, then ` (copy 1)`, ` (copy 2)`, ... */
  function CopyMarker(k: nat): string {
    if k == 0 then " (copy)" else " (copy " + Decimal(k) + ")"
  }

  /** The `k`-th name `cloneFile` tries. */
  function CopyName(name: string, k: nat): string {
    BaseName(name) + CopyMarker(k) + Extension(name)
  }

  /** The names `cloneFile` builds with its template literals are the candidates. */
  lemma CopyNameSpelled(name: string, k: nat)
    ensures k == 0 ==> CopyName(name, k) == BaseName(name) + " (copy)" + Extension(name)
    ensures k > 0 ==> CopyName(name, k) == BaseName(name) + " (copy " + Decimal(k) + ")" + Extension(name)
  {
    var b, d, e := BaseName(name), Decimal(k), Extension(name);
    assert b + (" (copy " + d + ")") + e == b + " (copy " + d + ")" + e;
  }

  /** The path of the `k`-th candidate: the first occurrence of the name in the path, replaced. */
  function CandidatePath(relativePath: string, name: string, k: nat): string {
    ReplaceFirst(relativePath, name, CopyName(name, k))
  }

  /**
   * The search for a free name, for any sequence of candidates `f`: the
   * values `f(0)`, ..., `f(n - 1)` tried first.
   */
  function FirstValues(f: nat -> string, n: nat): set<string> {
    if n == 0 then {} else FirstValues(f, n - 1) + {f(n - 1)}
  }

  /** `m` is the first candidate not already taken: all earlier ones are. */
  predicate FirstFree(f: nat -> string, taken: set<string>, m: nat) {
    f(m) !in taken && FirstValues(f, m) <= taken
  }

  /** Each of the first `n` candidates is among them. */
  lemma {:induction false} FirstValuesHas(f: nat -> string, n: nat, j: nat)
    requires j < n
    ensures f(j) in FirstValues(f, n)
  {
    if j < n - 1 {
      FirstValuesHas(f, n - 1, j);
    }
  }

  /** A value among the first `n` candidates is one of them. */
  lemma {:induction false} FirstValuesMember(f: nat -> string, n: nat, p: string)
    requires p in FirstValues(f, n)
    ensures exists j: nat :: j < n && p == f(j)
  {
    if p != f(n - 1) {
      FirstValuesMember(f, n - 1, p);
    }
  }

  /** Pairwise distinct candidates: the first `n` of them are `n` values. */
  lemma {:induction false} FirstValuesCount(f: nat -> string, n: nat)
    requires forall i: nat, j: nat :: f(i) == f(j) ==> i == j
    ensures |FirstValues(f, n)| == n
  {
    if n > 0 {
      FirstValuesCount(f, n - 1);
      if f(n - 1) in FirstValues(f, n - 1) {
        FirstValuesMember(f, n - 1, f(n - 1));
      }
    }
  }

  /** Every candidate before the first free one is taken. */
  lemma FirstFreeEarlierTaken(f: nat -> string, taken: set<string>, m: nat, j: nat)
    requires FirstFree(f, taken, m) && j < m
    ensures f(j) in taken
  {
    FirstValuesHas(f, m, j);
  }

  /** There is at most one first free candidate. */
  lemma FirstFreeUnique(f: nat -> string, taken: set<string>, m1: nat, m2: nat)
    requires FirstFree(f, taken, m1) && FirstFree(f, taken, m2)
    ensures m1 == m2
  {
    if m1 < m2 {
      FirstFreeEarlierTaken(f, taken, m2, m1);
    } else if m2 < m1 {
      FirstFreeEarlierTaken(f, taken, m1, m2);
    }
  }

  /** The names `cloneFile` tries, in order. */
  function CopyNames(name: string): nat -> string {
    (k: nat) => CopyName(name, k)
  }

  /** The candidate paths of a file, in the order `cloneFile` tries them. */
  function CandidatePaths(relativePath: string, name: string): nat -> string {
    (k: nat) => CandidatePath(relativePath, name, k)
  }

  /** The `m`-th candidate is the first whose path is not already taken. */
  predicate IsFirstFree(relativePath: string, name: string, taken: set<string>, m: nat) {
    FirstFree(CandidatePaths(relativePath, name), taken, m)
  }

  /** When the name occurs in the path, the candidate paths are pairwise distinct. */
  lemma CandidatePathsInjective(relativePath: string, name: string)
    requires IndexOf(relativePath, name).Some?
    ensures var f := CandidatePaths(relativePath, name); forall i: nat, j: nat :: f(i) == f(j) ==> i == j
  {
    forall i: nat, j: nat | CandidatePath(relativePath, name, i) == CandidatePath(relativePath, name, j)
      ensures i == j
    {
      CandidatePathsDistinct(relativePath, name, i, j);
    }
  }


  /** The markers are pairwise distinct. */
  lemma CopyMarkerInjective(j: nat, k: nat)
    requires CopyMarker(j) == CopyMarker(k)
    ensures j == k
  {
    if j != 0 && k != 0 {
      var mj, mk := CopyMarker(j), CopyMarker(k);
      assert mj[7..|mj| - 1] == Decimal(j);
      assert mk[7..|mk| - 1] == Decimal(k);
      DecimalInjective(j, k);
    }
  }

  /** No marker contains `$`, so it survives the replacement literally. */
  lemma CopyMarkerLiteral(k: nat)
    ensures '$' !in CopyMarker(k)
    ensures CopyMarker(k)[0] == ' '
  {
    if k != 0 {
      var d := Decimal(k);
      DecimalDigits(k);
      var m := CopyMarker(k);
      assert m == " (copy " + d + ")";
      forall i | 0 <= i < |m|
        ensures m[i] != '$'
      {
        if 7 <= i < 7 + |d| {
          assert m[i] == d[i - 7];
        }
      }
    }
  }

  /** Cancelling a common prefix and suffix. */
  lemma CancelSides(p: string, x: string, m1: string, m2: string, y: string, q: string)
    requires p + x + m1 + y + q == p + x + m2 + y + q
    ensures m1 == m2
  {
    var s1, s2 := p + x + m1 + y + q, p + x + m2 + y + q;
    assert |m1| == |m2|;
    assert m1 == s1[|p| + |x|..|p| + |x| + |m1|];
    assert m2 == s2[|p| + |x|..|p| + |x| + |m2|];
  }

  /** The `k`-th candidate path, with the marker shown. */
  lemma {:induction false} CandidatePathShape(relativePath: string, name: string, k: nat, i: nat)
    requires IndexOf(relativePath, name) == Some(i)
    ensures var pre, post := relativePath[..i], relativePath[i + |name|..];
      CandidatePath(relativePath, name, k)
      == pre + Substitute(BaseName(name), name, pre, post) + CopyMarker(k)
             + Substitute(Extension(name), name, pre, post) + post
  {
    var base, mark, ext := BaseName(name), CopyMarker(k), Extension(name);
    assert CopyName(name, k) == base + mark + ext;
    CopyMarkerLiteral(k);
    ReplaceFirstMiddle(relativePath, name, base, mark, ext, i);
  }

  /**
   * When the name occurs in the path, different candidates give different
   * paths; so the search meets each taken path at most once and stops.
   */
  lemma {:induction false} CandidatePathsDistinct(relativePath: string, name: string, j: nat, k: nat)
    requires IndexOf(relativePath, name).Some?
    requires CandidatePath(relativePath, name, j) == CandidatePath(relativePath, name, k)
    ensures j == k
  {
    var i := IndexOf(relativePath, name).value;
    var pre, post := relativePath[..i], relativePath[i + |name|..];
    var sb, se := Substitute(BaseName(name), name, pre, post), Substitute(Extension(name), name, pre, post);
    CandidatePathShape(relativePath, name, j, i);
    CandidatePathShape(relativePath, name, k, i);
    CancelSides(pre, sb, CopyMarker(j), CopyMarker(k), se, post);
    CopyMarkerInjective(j, k);
  }

  /** When the name does not occur in the path, every candidate is the path itself. */
  lemma CandidatePathStuck(relativePath: string, name: string, k: nat)
    requires IndexOf(relativePath, name).None?
    ensures CandidatePath(relativePath, name, k) == relativePath
  {
  }

  /** For a name that appears only as the last segment, the candidate renames just that segment. */
  lemma CandidatePathAtTail(pre: string, name: string, k: nat)
    requires '$' !in name
    requires forall j: nat :: j < |pre| ==> !OccursAt(pre + name, name, j)
    ensures CandidatePath(pre + name, name, k) == pre + CopyName(name, k)
  {
    var base, mark, ext := BaseName(name), CopyMarker(k), Extension(name);
    CopyMarkerLiteral(k);
    assert '$' !in base && '$' !in ext by {
      assert base + ext == name;
      assert forall c :: c in base ==> c in name;
      assert forall c :: c in ext ==> c in name;
    }
    assert '$' !in base + mark + ext;
    ReplaceFirstTail(pre, name, base + mark + ext);
  }

  /** A name `base.e`, with `e` non-empty and free of `.` and `/`, has extension `.e` and base `base`. */
  lemma ExtensionOfDotted(base: string, e: string)
    requires e != "" && '.' !in e && '/' !in e
    ensures Extension(base + "." + e) == "." + e
    ensures BaseName(base + "." + e) == base
  {
    var name := base + "." + e;
    assert name == base + ['.'] + e;
    LastIndexOfAppend(base, '.', e);
    assert name[|base| + 1..] == e;
    assert name[|base|..] == "." + e;
  }

  /** A file `base.e` at the owner root: its `k`-th candidate is `base` + marker + `.e`. */
  lemma {:induction false} RootCandidate(base: string, e: string, k: nat)
    requires e != "" && '.' !in e && '/' !in e && '$' !in base && '$' !in e
    ensures CandidatePath(base + "." + e, base + "." + e, k) == base + CopyMarker(k) + "." + e
  {
    var name := base + "." + e;
    var mark := CopyMarker(k);
    ExtensionOfDotted(base, e);
    assert '$' !in name;
    assert "" + name == name;
    CandidatePathAtTail("", name, k);
    Regroup(base, mark, ".", e);
  }

  /** Concatenation regrouped. */
  lemma Regroup(a: string, b: string, c: string, d: string)
    ensures a + b + (c + d) == a + b + c + d == a + (b + c) + d
  {
  }

  /** The first three markers, spelled out. */
  lemma CopyMarkersSpelled()
    ensures CopyMarker(0) == " (copy)" && CopyMarker(1) == " (copy 1)" && CopyMarker(2) == " (copy 2)"
  {
    assert Decimal(1) == "1" && Decimal(2) == "2";
  }

  /** The `k`-th candidate of `base.e` at the owner root, for a known marker. */
  lemma RootCandidateWith(base: string, e: string, k: nat, mark: string)
    requires e != "" && '.' !in e && '/' !in e && '$' !in base && '$' !in e
    requires CopyMarker(k) == mark
    ensures CandidatePath(base + "." + e, base + "." + e, k) == base + (mark + ".") + e
  {
    RootCandidate(base, e, k);
    Regroup(base, mark, ".", e);
  }

  /** The first three candidates for `base.e` at the owner root, spelled out. */
  lemma RootCandidatesSpelled(base: string, e: string)
    requires e != "" && '.' !in e && '/' !in e && '$' !in base && '$' !in e
    ensures CandidatePath(base + "." + e, base + "." + e, 0) == base + " (copy)." + e
    ensures CandidatePath(base + "." + e, base + "." + e, 1) == base + " (copy 1)." + e
    ensures CandidatePath(base + "." + e, base + "." + e, 2) == base + " (copy 2)." + e
  {
    CopyMarkersSpelled();
    RootCandidateWith(base, e, 0, " (copy)");
    assert " (copy)" + "." == " (copy).";
    RootCandidateWith(base, e, 1, " (copy 1)");
    assert " (copy 1)" + "." == " (copy 1).";
    RootCandidateWith(base, e, 2, " (copy 2)");
    assert " (copy 2)" + "." == " (copy 2).";
  }

  /**
   * Cloning `base.e` (for instance `report.pdf`) while `base (copy).e` exists
   * and `base (copy 1).e` does not picks `base (copy 1).e`.
   */
  lemma CloneAfterOneCopy(base: string, e: string, taken: set<string>, m: nat)
    requires e != "" && '.' !in e && '/' !in e && '$' !in base && '$' !in e
    requires base + " (copy)." + e in taken && base + " (copy 1)." + e !in taken
    requires IsFirstFree(base + "." + e, base + "." + e, taken, m)
    ensures m == 1 && CandidatePath(base + "." + e, base + "." + e, m) == base + " (copy 1)." + e
  {
    var name := base + "." + e;
    var f := CandidatePaths(name, name);
    RootCandidatesSpelled(base, e);
    assert FirstValues(f, 1) == {f(0)};
    FirstFreeUnique(f, taken, m, 1);
  }

  /** ... and once `base (copy 1).e` exists too, the next clone picks `base (copy 2).e`. */
  lemma CloneAfterTwoCopies(base: string, e: string, taken: set<string>, m: nat)
    requires e != "" && '.' !in e && '/' !in e && '$' !in base && '$' !in e
    requires base + " (copy)." + e in taken && base + " (copy 1)." + e in taken
    requires base + " (copy 2)." + e !in taken
    requires IsFirstFree(base + "." + e, base + "." + e, taken, m)
    ensures m == 2 && CandidatePath(base + "." + e, base + "." + e, m) == base + " (copy 2)." + e
  {
    var name := base + "." + e;
    var f := CandidatePaths(name, name);
    RootCandidatesSpelled(base, e);
    assert FirstValues(f, 2) == {f(0), f(1)};
    FirstFreeUnique(f, taken, m, 2);
  }
}
