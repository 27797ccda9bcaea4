# File and folder storage service — a Dafny model

This project models the storage coordinator of a small cloud-drive server: the
`FilesService` of `server/src/modules/files/files.service.ts`, together with the
folder and file records it manages (`server/src/database/entities/folder.entity.ts`,
`file.entity.ts`). The service keeps three things in step:

- the metadata tables. These are folder rows (name, relative path, parent, owner,
  public flag, share token) and file rows (name, relative path, owner, containing
  folder, public flag, share token).
- the physical store `uploads/{ownerId}/{relativePath}`.
- an in-memory dictionary from share tokens to file ids.

Modules, one file each:

- `wrappers.dfy`: `Option` and `Result`.
- `text.dfy`: the JavaScript string operations the service relies on, with their
  edge cases:
  - `indexOf` and `lastIndexOf`;
  - `replace` with a string pattern, which rewrites only the first occurrence and
    interprets `$$`, `$&`, `` $` `` and `$'` in the replacement;
  - the decimal rendering in template literals;
  - `Number()` on the id strings it meets;
  - PostgreSQL `ILIKE '%q%'` with ASCII case folding.
- `paths.dfy`: the path rules. These are `parent/name`, renaming the last
  segment, the extension split of `cloneFile`, and the candidate names the clone
  search tries.
- `records.dfy`: the folder and file rows.
  - A ghost rank map witnesses that parent links form a forest.
  - It also defines ancestry and lineage (the loaded parent chain).
- `path_builder.dfy`: `buildFolderPath` over a loaded chain.
- `physical.dfy`: the store, as per-owner file contents plus a set of
  directories. It covers `mkdir -p`, `writeFile`, `unlink`, `copyFileSync` and
  `rename` with their error codes. A directory rename moves everything below it.
- `share_tokens.dfy`: hex tokens, and the lookup as written and as intended.
- `files.dfy`: the class `FilesService`, as described next.

`FilesService` keeps its state in mutable fields:

- folder and file tables as maps;
- the store;
- the token map;
- a ghost rank.

Each service call is a method, or a `reads` function for the pure finders. A
thrown error becomes an `Err` result. What a call had already written before
throwing stays written: the directory move in `renameFolder`, the rows
`deleteFolder` had already removed, the directory `createFile` had already made.

New row ids, the 16 random bytes of a share token and the uploaded buffer are
parameters. The tables are maps keyed by id. The current directory, `path.join`
and the file-system calls are replaced by the abstract store.

## Model

| member | source | states |
|---|---|---|
| Files.FilesService.constructor | server/src/modules/files/files.service.ts:11-12 | the service starts with an empty token dictionary over valid tables |
| Files.FilesService.Search | server/src/modules/files/files.service.ts:14-30 | a file or folder is listed exactly when the user owns it and its name contains the query, ignoring ASCII case; each listed row is the stored row |
| Files.FilesService.SearchEmptyQuery | server/src/modules/files/files.service.ts:14-30 | the empty query lists all of the user's files and folders |
| Files.FilesService.SearchIgnoresCase | server/src/modules/files/files.service.ts:18-25 | a lower-cased query finds the same rows as the original |
| Files.FilesService.SearchNarrows | server/src/modules/files/files.service.ts:18-25 | every hit for a query is a hit for each part of that query |
| Files.FilesService.FindAllFilesByUser | server/src/modules/files/files.service.ts:32-37 | exactly the user's files, unchanged |
| Files.FilesService.FindAllFilesSharedWithUser | server/src/modules/files/files.service.ts:39-44 | exactly the public files of other owners, unchanged |
| Files.FilesService.OwnAndSharedSplit | server/src/modules/files/files.service.ts:32-44 | no file is in both lists; between them the two lists hold every public file |
| Files.FilesService.FindAllFoldersByUser | server/src/modules/files/files.service.ts:46-51 | exactly the user's folders, unchanged |
| Files.FilesService.FindFileById | server/src/modules/files/files.service.ts:53-58 | the row with that id if there is one, with no owner check |
| Files.Toggled | server/src/modules/files/files.service.ts:63 | the toggled row differs in `isPublic` and in nothing else |
| Files.ToggledTwice | server/src/modules/files/files.service.ts:63 | toggling twice gives back the row |
| Files.FilesService.ToggleFilePublic | server/src/modules/files/files.service.ts:60-65 | an absent file or another owner's file gives `Not authorized` and changes nothing; otherwise only that row changes, with `isPublic` negated |
| Files.FilesService.ToggleTwice | server/src/modules/files/files.service.ts:60-65 | two toggles leave the file table as it was |
| Files.FilesService.RemoveFile | server/src/modules/files/files.service.ts:67-83 | `Not authorized` changes nothing; an unlink failure leaves the row and the store as they were; on success both the blob and the row are gone |
| Physical.UnlinkRemoves | server/src/modules/files/files.service.ts:77-79 | unlink succeeds exactly on a file and removes only that file |
| Physical.Unlink | server/src/modules/files/files.service.ts:77-79 | no contract of its own: `fs.unlink`, EISDIR on a directory, ENOENT on nothing; stated by `Physical.UnlinkRemoves` |
| Files.FilesService.RenameFile | server/src/modules/files/files.service.ts:85-116 | `Not authorized` changes nothing; the store rename moves the file to the old path with the first occurrence of the name replaced; on success the row gets the new name and that path; a rename failure changes nothing |
| Files.RenamedFileFinalSegment | server/src/modules/files/files.service.ts:102 | for a new name without `$`, when the name occurs only as the last segment, only that segment changes |
| Files.RenamedFileHitsFolder | server/src/modules/files/files.service.ts:102 | file `a` in folder `a` renamed to `b` gets path `b/a`, because only the first occurrence is replaced |
| Files.RenamedFilePath | server/src/modules/files/files.service.ts:102 | no contract of its own: the old path with the first occurrence of the old name replaced by the new one; stated by `Files.RenamedFileFinalSegment` and `Files.RenamedFileHitsFolder` |
| Text.IndexFrom | server/src/modules/files/files.service.ts:102 | the first occurrence at or after a position, or none |
| Text.IndexOf | server/src/modules/files/files.service.ts:102 | no contract of its own: `indexOf` from position 0, the search `String.prototype.replace` runs; stated by `Text.IndexFrom` and `Text.IndexOfFinds` |
| Text.ReplaceFirstAt | server/src/modules/files/files.service.ts:102 | a `$`-free replacement takes the place of the first occurrence, and nothing else changes |
| Text.ReplaceFirstAbsent | server/src/modules/files/files.service.ts:102 | with no occurrence the string is returned unchanged |
| Text.ReplaceFirstTail | server/src/modules/files/files.service.ts:102 | when the pattern occurs only at the end, only the end is replaced |
| Text.ReplaceFirstPrefix | server/src/modules/files/files.service.ts:166-169 | a leading occurrence is replaced and the rest kept |
| Text.ReplaceFirstEmptyPattern | server/src/modules/files/files.service.ts:102 | an empty pattern puts the replacement in front |
| Text.ReplaceFirstHitsFolderSegment | server/src/modules/files/files.service.ts:102 | `"a/a".replace("a", "b")` is `"b/a"` |
| Text.ReplaceFirstDollarPattern | server/src/modules/files/files.service.ts:102 | `$&` in the replacement brings back the matched text |
| Text.SubstituteLiteral | server/src/modules/files/files.service.ts:102 | a replacement without `$` is inserted literally |
| Text.Substitute | server/src/modules/files/files.service.ts:102 | no contract of its own: the GetSubstitution rule of `String.prototype.replace` for a string pattern, `$$`, `$&`, `` $` `` and `$'`, every other `$` literal; stated by `Text.SubstituteLiteral`, `Text.ReplaceFirstDollarPattern` and `Text.ReplaceFirstMiddle` |
| Text.ReplaceFirst | server/src/modules/files/files.service.ts:102 | no contract of its own: `s.replace(pat, rep)` for a string pattern, rewriting only the first occurrence; stated by `Text.ReplaceFirstAt`, `ReplaceFirstAbsent`, `ReplaceFirstTail`, `ReplaceFirstPrefix` and `ReplaceFirstEmptyPattern` |
| Text.LastIndexOf | server/src/modules/files/files.service.ts:139 | -1 exactly when the character is absent; otherwise its last position |
| Paths.RenamedFolderPathReplacesLastSegment | server/src/modules/files/files.service.ts:137-141 | a folder rename keeps everything up to the last `/` and replaces only the final segment; a top-level path becomes the new name |
| Paths.RenameAfterCreate | server/src/modules/files/files.service.ts:137-141 | renaming a folder created under a parent path keeps it under that parent path |
| Paths.ParentPathOfChild | server/src/modules/files/files.service.ts:137-140 | the parent path of `pre/seg` is `pre` |
| Paths.ParentPathOfTopLevel | server/src/modules/files/files.service.ts:137-140 | a path without `/` has parent path "", as `substring(0, -1)` gives |
| Paths.ChildPath | server/src/modules/files/files.service.ts:271-273 | no contract of its own: `parent/name`, or the name alone under an empty parent path; stated by `Paths.RenameAfterCreate` and `Files.NewFolderPathUnderParent` |
| Paths.ParentPath | server/src/modules/files/files.service.ts:137-140 | no contract of its own: everything before the last `/`, or "" without one; stated by `Paths.ParentPathOfChild` |
| Paths.RenamedFolderPath | server/src/modules/files/files.service.ts:137-141 | no contract of its own: the parent path joined with the new name; stated by `Paths.RenamedFolderPathReplacesLastSegment` and `Paths.RenameAfterCreate` |
| Files.FilesService.RenameFolder | server/src/modules/files/files.service.ts:118-184 | as written. `Not authorized` and a failed directory move change nothing. After the move, only the folder's own row gets the new name and path, and no other folder row changes. Only rows of files directly in the folder are rewritten, each by first-occurrence replacement. When the folder's files lay below its moved directory, the call fails with ENOENT after the move and no file row changes. When the folder has a subfolder and its path changes, paths that agreed with the tree no longer do |
| Files.FilesService.RepointFilesAsWritten | server/src/modules/files/files.service.ts:155-181 | each changed row is a direct file of the folder, repointed by replacing the first occurrence of the old path; on success all of them are; when none of their old paths is in the store, the first rename fails and nothing changes |
| Records.RenameLeavesSubfolderStale | server/src/modules/files/files.service.ts:151-153 | under paths that agree with the tree, changing only a folder's own path while it has a subfolder makes them disagree: the subfolder keeps the old prefix |
| Files.FilesService.SaveFolderRow | server/src/modules/files/files.service.ts:151-153 | only the folder's own row changes; when its path changes and it has a subfolder, paths that agreed with the tree no longer do |
| Files.FilesService.RenameAfterMove | server/src/modules/files/files.service.ts:151-183 | as written, after the directory move: the folder's own row gets the new name and path and no other folder row changes; only direct files are rewritten, all of them on success; when they lay below the moved directory the call fails with ENOENT and no file row changes |
| Physical.RenameDirectoryVacates | server/src/modules/files/files.service.ts:149 | after a directory move, nothing remains at any path below the old directory |
| Physical.RenameAfterDirectoryMoveFails | server/src/modules/files/files.service.ts:149-177 | a later rename from a path below the moved directory fails with ENOENT |
| Physical.RenameDirectoryCarries | server/src/modules/files/files.service.ts:149 | a file below a moved directory keeps its contents at the corresponding new path |
| Physical.RenameDirectoryKeepsOthers | server/src/modules/files/files.service.ts:149 | entries outside the old and new directory are untouched |
| Physical.MoveTree | server/src/modules/files/files.service.ts:149 | no contract of its own: every entry at or below the old directory re-rooted at the new one, everything else kept; stated by `Physical.RenameDirectoryVacates`, `RenameDirectoryCarries` and `RenameDirectoryKeepsOthers` |
| Physical.RenameDirectoryShape | server/src/modules/files/files.service.ts:149 | a successful directory rename moved the tree to a place outside itself |
| Physical.RenameFileMoves | server/src/modules/files/files.service.ts:110 | a renamed file keeps its contents at the new name and is gone from the old one; directories are unchanged |
| Physical.RenameNeedsEntries | server/src/modules/files/files.service.ts:110 | a rename succeeds only when the source exists and the target's directory exists |
| Physical.Rename | server/src/modules/files/files.service.ts:110 | no contract of its own: `fs.rename` of a file or of a directory with everything below it, with its error codes; stated by `Physical.RenameFileMoves`, `RenameNeedsEntries` and the `RenameDirectory` lemmas |
| Files.FilesService.RepointOneAsWritten | server/src/modules/files/files.service.ts:158-179 | the store is the result of the rename from the old path to the first-occurrence-replaced path, or that rename's error with nothing changed; on success only that row changes, repointed the same way; when the old path is absent from the store the rename fails with ENOENT |
| Files.RepointedAsWritten | server/src/modules/files/files.service.ts:166-169 | no contract of its own: the row with the first occurrence of the old folder path in its path replaced by the new one; used by `Files.FilesService.RepointOneAsWritten` and `RenameFolder` |
| Files.RepointedExceptStep | server/src/modules/files/files.service.ts:155-181 | repointing one pending direct file keeps the loop's account of done and pending files |
| Files.RepointedExceptDone | server/src/modules/files/files.service.ts:155-181 | with nothing pending, every direct file has been repointed |
| Files.RepointedSomeClosed | server/src/modules/files/files.service.ts:155-181 | repointing paths keeps every file's folder, so the file table's foreign key still holds |
| Files.RepointFiles | server/src/modules/files/files.service.ts:155-181 | corrected. Unlike the loop as written, which rewrites the folder's direct files by first-occurrence replacement, every file row of the caller below the old path gets that prefix replaced by the new path and nothing else changes |
| Files.RepointFolders | server/src/modules/files/files.service.ts:151-152 | corrected. Unlike the source, which saves only the renamed folder's own row, every folder row of the caller below the old path gets that prefix replaced by the new path and nothing else changes |
| Files.RepathCarries | server/src/modules/files/files.service.ts:149 | corrected. After the directory move, a re-prefixed path names the contents the old path named |
| Files.RepointFilesCarries | server/src/modules/files/files.service.ts:149-181 | corrected. After the directory move, every re-prefixed file row of the caller names the contents it named |
| Files.FilesService.CommitRename | server/src/modules/files/files.service.ts:151-183 | corrected. The folder rows become the re-prefixed ones with the renamed row, the file rows the re-prefixed ones, and the result is the renamed row |
| Files.FilesService.RenameFolderCorrected | server/src/modules/files/files.service.ts:118-184 | corrected. The directory move carries the subtree. The rows of the caller's folders and files below it are re-prefixed, and nothing is renamed a second time. Every file row keeps naming its contents. Paths that agreed with the tree still do when the folder's subtree is the caller's and no name holds `/` |
| Files.CascadeKeepsPaths | server/src/modules/files/files.service.ts:149-183 | corrected. When the new name and all names are free of `/` and every folder at or below the path is the caller's, the re-prefixed folder table with the renamed row keeps paths in agreement with the tree |
| Files.CascadeRow | server/src/modules/files/files.service.ts:149-183 | corrected. One row of that table: its name is not empty and its path is its parent's path, `/`, its name, or its name at the root |
| Files.CascadeOther | server/src/modules/files/files.service.ts:151-152 | corrected. Every row but the renamed one keeps its fields, with its path re-prefixed |
| Files.RepathChild | server/src/modules/files/files.service.ts:149 | re-prefixing `parent/name` re-prefixes the parent path, when the parent is not the renamed folder itself |
| Files.RepathChildOfRenamed | server/src/modules/files/files.service.ts:149 | a direct child of the old path becomes a direct child of the new path |
| Files.BelowChild | server/src/modules/files/files.service.ts:149 | a child of a path below a directory lies below it, with its segment appended |
| Files.ParentWithin | server/src/modules/files/files.service.ts:149 | the parent of a path below a directory is that directory or below it, for a `/`-free last segment |
| Paths.ExtensionIsRegexMatch | server/src/modules/files/files.service.ts:199-200 | empty exactly when the name has no trailing `.xxx` free of `.` and `/`; otherwise that maximal suffix |
| Paths.Extension | server/src/modules/files/files.service.ts:199-200 | the extension is a suffix of the name; that it is exactly the regex match is `Paths.ExtensionIsRegexMatch` |
| Paths.BaseName | server/src/modules/files/files.service.ts:201 | the base followed by the extension is the name |
| Paths.ExtensionOfDotted | server/src/modules/files/files.service.ts:199-201 | `base.e` splits into `base` and `.e` |
| Paths.CopyNameSpelled | server/src/modules/files/files.service.ts:204-212 | the first candidate is `base (copy)ext` and the k-th one after it is `base (copy k)ext` |
| Paths.CopyMarker | server/src/modules/files/files.service.ts:204-212 | no contract of its own: ` (copy)` for the first candidate and ` (copy k)` for the later ones; stated by `Paths.CopyNameSpelled` and `Paths.CopyMarkerInjective` |
| Paths.CopyName | server/src/modules/files/files.service.ts:204-212 | no contract of its own: base, marker, extension; stated by `Paths.CopyNameSpelled` |
| Paths.CandidatePath | server/src/modules/files/files.service.ts:205-213 | no contract of its own: the file's path with the first occurrence of its name replaced by the candidate name; stated by `Paths.CandidatePathShape`, `CandidatePathsDistinct`, `CandidatePathStuck` and `CandidatePathAtTail` |
| Text.Decimal | server/src/modules/files/files.service.ts:212 | at least one character, two from 10 up, and the last one is the digit `n % 10` |
| Text.DecimalDigits | server/src/modules/files/files.service.ts:212 | every character of the rendering is a digit |
| Text.DecimalInjective | server/src/modules/files/files.service.ts:212 | different numbers render differently |
| Paths.CopyMarkerInjective | server/src/modules/files/files.service.ts:204-212 | different candidates carry different markers |
| Paths.CandidatePathShape | server/src/modules/files/files.service.ts:205-213 | a candidate path is the old path with the marker put in place of the name's first occurrence |
| Paths.CandidatePathsDistinct | server/src/modules/files/files.service.ts:205-213 | when the name occurs in the path, different candidates give different paths |
| Paths.CandidatePathsInjective | server/src/modules/files/files.service.ts:205-213 | when the name occurs in the path, the candidate paths never repeat |
| Paths.FirstValuesCount | server/src/modules/files/files.service.ts:207-215 | the first n of pairwise distinct candidate paths are n different paths |
| Paths.FirstValuesHas | server/src/modules/files/files.service.ts:207-215 | each of the first n candidates is among them |
| Paths.FirstFreeEarlierTaken | server/src/modules/files/files.service.ts:207-215 | every candidate before the chosen one has a taken path |
| Paths.FirstValuesMember | server/src/modules/files/files.service.ts:207-215 | a path among the first n candidates is one of them |
| Paths.FirstFreeUnique | server/src/modules/files/files.service.ts:207-215 | there is only one first free candidate |
| Paths.CandidatePathStuck | server/src/modules/files/files.service.ts:205-213 | when the name does not occur in the path, every candidate is the path itself |
| Paths.CandidatePathAtTail | server/src/modules/files/files.service.ts:205-213 | for a name without `$`, when the name occurs only as the last segment, a candidate renames just that segment |
| Paths.RootCandidate | server/src/modules/files/files.service.ts:203-215 | the k-th candidate of `base.e` at the owner root is `base` + marker + `.e` |
| Paths.RootCandidatesSpelled | server/src/modules/files/files.service.ts:203-215 | at the owner root the first three candidates of `base.e` are `base (copy).e`, `base (copy 1).e`, `base (copy 2).e` |
| Text.ReplaceFirstMiddle | server/src/modules/files/files.service.ts:204-213 | a replacement with a literal middle part keeps that part, and only its two sides can carry `$` patterns |
| Paths.CloneAfterOneCopy | server/src/modules/files/files.service.ts:203-215 | with `report (copy).pdf` taken and `report (copy 1).pdf` free, the clone of `report.pdf` is `report (copy 1).pdf` |
| Paths.CloneAfterTwoCopies | server/src/modules/files/files.service.ts:203-215 | with both of those taken and `report (copy 2).pdf` free, the clone is `report (copy 2).pdf` |
| Files.SearchFirstFree | server/src/modules/files/files.service.ts:207-215 | over pairwise distinct candidate paths, the loop ends and returns the first candidate whose path is not taken, with its name and path |
| Files.FilesService.FindCopyName | server/src/modules/files/files.service.ts:203-215 | the loop ends: it returns the first candidate whose path none of the caller's files holds, with its name and path |
| Files.CloneSearchStuck | server/src/modules/files/files.service.ts:205-213 | when the name does not occur in the path, every candidate is a taken path, so the loop never ends |
| Records.OwnerPaths | server/src/modules/files/files.service.ts:207-211 | exactly the paths held by the user's files |
| Files.FilesService.CloneFile | server/src/modules/files/files.service.ts:186-232 | `Not authorized` changes nothing; a name absent from its path is the endless search; otherwise the copy goes to the first free candidate; the new row is owned by the caller with no folder, is not public and has no token; a failed copy changes nothing |
| Files.FilesService.CopyAs | server/src/modules/files/files.service.ts:217-231 | a failed copy changes nothing; otherwise the store is the copied one and the only new row is the caller's copy at the root, not public, with no token |
| Physical.CopyFile | server/src/modules/files/files.service.ts:223 | no contract of its own: `copyFileSync`; stated by `Physical.CopyFileCopies` |
| Physical.CopyFileCopies | server/src/modules/files/files.service.ts:223 | the copy succeeds exactly when the source is a file, the target is not a directory and the target's directory exists; then the target holds the source's contents and nothing else changes |
| Files.FilesService.FindFolderById | server/src/modules/files/files.service.ts:234-243 | the folder exactly when it exists and the user owns it; otherwise `Folder not found or not authorized` |
| Files.FilesService.FindFilesInFolder | server/src/modules/files/files.service.ts:245-250 | the files directly in the folder whose owner is `Number(userId)` |
| Text.NumberOf | server/src/modules/files/files.service.ts:247 | `Number("")` is 0; only digit strings, optionally negated, give a number |
| Text.NumberOfDecimal | server/src/modules/files/files.service.ts:247 | `Number` of a rendered number gives that number |
| Text.NumberOfNonNumeric | server/src/modules/files/files.service.ts:247 | a string with a non-digit after the first character is NaN |
| Files.FilesService.FilesInFolderByDecimalId | server/src/modules/files/files.service.ts:245-250 | a decimal user id finds exactly that user's files in the folder |
| Files.FilesService.CreateFolder | server/src/modules/files/files.service.ts:252-292 | an empty name and then a given parent that does not exist are rejected before any write. The path is the parent's path, `/`, the name, or the name alone. A `mkdir -p` failure changes nothing. On success the new row is owned by `ownerId`, with the parent's owner not checked; its directory exists and consistent paths stay consistent |
| Files.FilesService.StoreNewFolder | server/src/modules/files/files.service.ts:282-291 | a failing `mkdir -p` changes nothing; otherwise the store is the one `mkdir -p` made, the only new row is the folder and its directory exists |
| Files.NewFolderPathUnderParent | server/src/modules/files/files.service.ts:271-273 | under consistent paths, a subfolder's path is its parent's path, `/`, its name |
| Files.NewFolderPath | server/src/modules/files/files.service.ts:258-273 | no contract of its own: the given parent's stored path joined with the name, or the name alone; stated by `Files.NewFolderPathUnderParent` |
| Files.Given | server/src/modules/files/files.service.ts:261 | no contract of its own: JavaScript truthiness of an optional id, present and not empty; both `createFolder` (line 261) and `createFile` (line 303) test it |
| Records.RankedAddLeaf | server/src/modules/files/files.service.ts:284-291 | a new folder under an existing parent keeps the tree acyclic |
| Physical.MkdirPCreates | server/src/modules/files/files.service.ts:282 | after `mkdir -p` the directory and each one above it exist, and no file changed |
| Physical.MkdirPFails | server/src/modules/files/files.service.ts:282 | `mkdir -p` fails exactly when the path or a directory on the way is a file |
| Physical.MkdirP | server/src/modules/files/files.service.ts:282 | no contract of its own: `fs.mkdir` with `recursive: true`, EEXIST on a file at the path, ENOTDIR on a file on the way; stated by `Physical.MkdirPCreates` and `Physical.MkdirPFails` |
| Records.Lineage | server/src/modules/files/files.service.ts:334-356 | the chain starts at the folder, each entry's parent is the next one, and it ends at a root |
| Files.FilesService.LoadFolderWithParents | server/src/modules/files/files.service.ts:334-356 | nothing for an unknown id; otherwise the folder's full chain of parents, leaf first |
| PathBuilder.RootFirstNames | server/src/modules/files/files.service.ts:327-332 | the chain's names in reverse order |
| PathBuilder.JoinPathSnoc | server/src/modules/files/files.service.ts:327-332 | joining one more name appends `/` and that name |
| PathBuilder.BuildFolderPathJoins | server/src/modules/files/files.service.ts:327-332 | `buildFolderPath` of a chain with names n0…nk, root first, is `n0/…/nk`; of no folder it is "" |
| PathBuilder.BuildFolderPathMatchesStored | server/src/modules/files/files.service.ts:327-332 | under consistent paths, the path built from a folder's chain is its stored path |
| PathBuilder.BuildFolderPath | server/src/modules/files/files.service.ts:327-332 | no contract of its own: the parent's built path, `/`, the name, over the loaded chain; stated by `PathBuilder.BuildFolderPathJoins` and `PathBuilder.BuildFolderPathMatchesStored` |
| Files.NewFilePathUnderFolder | server/src/modules/files/files.service.ts:306-311 | under consistent paths, a new file's path is its folder's path, `/`, its name |
| Files.NewFilePath | server/src/modules/files/files.service.ts:300-311 | no contract of its own: the path built from the folder's chain joined with the name, or the name alone; stated by `Files.NewFilePathUnderFolder` |
| Files.FilesService.CreateFile | server/src/modules/files/files.service.ts:294-325 | an empty name and then a given folder that does not exist are rejected before any write. The path is the built folder path, `/`, the name, or the name alone. A failing `mkdir -p` changes nothing; a failing write keeps the made directories. On success the row is owned by `ownerId` and the blob holds the buffer, or is empty when none is given |
| Files.FilesService.StoreNewFile | server/src/modules/files/files.service.ts:313-324 | `mkdir -p` of the parent directory and then the write: a failing `mkdir -p` changes nothing, a failing write keeps the made directories, and on success the only new row is the file and the blob holds the contents passed in, which `CreateFile` gives as the buffer, or zero bytes when none is given |
| Files.ContentsOf | server/src/modules/files/files.service.ts:315 | no contract of its own: the uploaded buffer, or zero bytes when none is given; stated by `Files.FilesService.CreateFile` and `StoreNewFile` |
| Physical.WriteFileStores | server/src/modules/files/files.service.ts:315 | the written file holds the data, and only that entry changed |
| Physical.WriteFile | server/src/modules/files/files.service.ts:315 | no contract of its own: `fs.writeFile`, EISDIR onto a directory, ENOENT without the parent directory; stated by `Physical.WriteFileStores` |
| Files.FilesService.DeleteFolder | server/src/modules/files/files.service.ts:358-377 | an absent folder or another owner's folder gives `Folder not found` and changes nothing. Only rows of the folder's subtree, and files inside it, are removed, and every other row is untouched. Only blobs of `ownerId` at removed files' paths go, and every directory stays. No folder row goes before all direct files are gone. On success nothing of the subtree remains |
| Files.FilesService.DeleteDirectFiles | server/src/modules/files/files.service.ts:365-370 | only direct files of the folder are removed, each through its unlink; on success all their rows are gone, the blobs at their paths of `ownerId` are gone, and no other blob or directory changed |
| Files.UnlinkedOneMore | server/src/modules/files/files.service.ts:365-370 | one more unlinked direct file: its row and its blob join those already gone |
| Files.PathKeys | server/src/modules/files/files.service.ts:366-367 | every listed file's path of the owner is among the keys |
| Files.FilesService.DeleteChildren | server/src/modules/files/files.service.ts:372-374 | each child is deleted in turn and nothing outside the folder's subtree goes; on success every listed child is gone |
| Files.DeletedWithinTrans | server/src/modules/files/files.service.ts:372-374 | a deletion below a child, after a deletion below the folder, is a deletion below the folder |
| Files.FilesService.UnlinkFile | server/src/modules/files/files.service.ts:366-369 | a failing unlink changes nothing; otherwise the store is the result of unlinking the file's path, so exactly its blob is gone, exactly its row is gone, and only things below the folder were removed |
| Files.UnlinkWithin | server/src/modules/files/files.service.ts:366-369 | unlinking a direct file and dropping its row removes only things below the folder |
| Files.SubtreeGone | server/src/modules/files/files.service.ts:376 | once the folder row is gone, no remaining folder or file lies in its former subtree |
| Records.AncestorGone | server/src/modules/files/files.service.ts:376 | with an ancestor removed and parent links closed, no remaining folder lies below it |
| Records.RankedSubMap | server/src/modules/files/files.service.ts:376 | removing rows that no remaining row points at keeps the tree acyclic |
| Records.RankedAboveShrinks | server/src/modules/files/files.service.ts:372-374 | the recursion goes to a folder with fewer folders ranked above it, so it ends |
| Files.FilesService.GetSharedFolderByToken | server/src/modules/files/files.service.ts:379-388 | some folder carrying the token; `No folder found for the given share token` exactly when none does |
| Files.FilesService.GenerateFileShareToken | server/src/modules/files/files.service.ts:390-394 | the token is the hex form of the 16 bytes, 32 hex digits; the dictionary changes at that key only; afterwards the token resolves to the file id (as written, to null when the id is empty), and every other token resolves as before under both lookups |
| ShareTokens.Hex | server/src/modules/files/files.service.ts:391 | two lowercase hex digits per byte |
| ShareTokens.HexOfSixteenBytes | server/src/modules/files/files.service.ts:391 | 16 bytes give a 32-character hex token |
| ShareTokens.HexInjective | server/src/modules/files/files.service.ts:391 | different bytes give different tokens |
| ShareTokens.HexPairInjective | server/src/modules/files/files.service.ts:391 | a byte is determined by its two hex digits |
| ShareTokens.HexValue | server/src/modules/files/files.service.ts:391 | the inverse of the hex digit of a nibble |
| Files.FilesService.GetFileIdByToken | server/src/modules/files/files.service.ts:396-398 | as written: an issued token gives its id unless that id is empty; a token that is a name inherited from `Object.prototype` gives that member; anything else gives null |
| Files.FilesService.GetFileIdByTokenCorrected | server/src/modules/files/files.service.ts:396-398 | corrected: an id exactly for an issued token, the one it was issued for |
| ShareTokens.LookupAsWritten | server/src/modules/files/files.service.ts:397 | as written: an own non-empty entry gives its id; a name inherited from `Object.prototype` gives that member; anything else gives null |
| ShareTokens.Resolve | server/src/modules/files/files.service.ts:397 | corrected: an id exactly for an issued token |
| ShareTokens.PrototypeNameResolves | server/src/modules/files/files.service.ts:397 | with only hex tokens issued, `"constructor"` resolves as written to an inherited member and as corrected to nothing |
| ShareTokens.LookupsAgree | server/src/modules/files/files.service.ts:397 | away from inherited names and empty ids the two lookups agree |
| ShareTokens.HexTokenNotInherited | server/src/modules/files/files.service.ts:391-397 | no hex token is an inherited member name, so the issued tokens themselves never hit the quirk |
| ShareTokens.IssueThenResolve | server/src/modules/files/files.service.ts:390-398 | an issued token resolves to its id, and other tokens are unaffected |
| ShareTokens.NeverIssuedResolvesToNothing | server/src/modules/files/files.service.ts:396-398 | a token never issued resolves to nothing |
| Text.Lower | server/src/modules/files/files.service.ts:18 | the same length, with each character ASCII lower-cased |
| Text.ILikeEmptyQuery | server/src/modules/files/files.service.ts:18 | the empty query matches every name |
| Text.ILikeNarrows | server/src/modules/files/files.service.ts:18 | a name matching a query matches every part of it |
| Text.ILikeIgnoresCase | server/src/modules/files/files.service.ts:18 | matching ignores the case of the query |
| Text.LowerIdempotent | server/src/modules/files/files.service.ts:18 | lower-casing twice is lower-casing once |
| Text.ILikeContains | server/src/modules/files/files.service.ts:18-25 | no contract of its own: the lower-cased query occurs in the lower-cased name; stated by `Text.ILikeEmptyQuery`, `ILikeNarrows` and `ILikeIgnoresCase` |
| Records.Children | server/src/database/entities/folder.entity.ts:21-25 | exactly the folders whose parent is the given one |
| Records.FilesIn | server/src/database/entities/folder.entity.ts:30-31 | exactly the files whose folder is the given one |
| Records.RankedSameTree | server/src/database/entities/folder.entity.ts:21-22 | rewriting names and paths keeps the tree acyclic |

## Left out

- The real file system is not modelled: `fs.mkdir`, `writeFile`, `rename`, `unlink` and `copyFileSync`, and `process.cwd()`. The abstract store's paths are the relative paths as given, so `path.join` normalisation (`..`, `.`, repeated `/`) is not modelled.
- TypeORM and PostgreSQL are tables as maps:
  - relation loading and `save` return values are not modelled;
  - the database's id generation becomes a fresh `newId` parameter;
  - a malformed uuid column value, or a user id that is not a number (so `Number(userId)` is NaN in `findFilesInFolder`), makes PostgreSQL reject the query; the model treats it as an ordinary missed lookup.
- SQL `LIKE` wildcards and escapes in a search query are excluded by the `PlainQuery` precondition. Case folding covers ASCII only.
- `crypto.randomBytes` becomes a 16-byte parameter. Token collisions overwrite, as the source's assignment does.
- Concurrent requests and async interleaving are left out: each call is one sequential step.
- `shareExpiresAt` is left out of both rows. The service never reads or writes it.
- The plain `folderId` column of a file row (server/src/database/entities/file.entity.ts:25-26) is left out: the service never reads or writes it, and `Records.File` models only the `folder` relation, whose join column is `folder_id`.
- The HTTP controller, authentication, the client and the logging interceptor are outside the storage service and are not part of this model.
- Text.NumberOf: covers the empty string, digit strings and negated digit strings. Every other string is NaN. Whitespace, `+`, decimal points, exponents and hex literals are not modelled.
- Files.FilesService.RenameFolder: the store after per-file renames that all succeed is not stated. Only the rows are stated, plus the ENOENT failure when the files lay below the moved directory.
- Files.FilesService.RenameAfterMove: the same gap as `RenameFolder`, whose second half it is: the store after per-file renames that all succeed is not stated.
- Files.FilesService.RepointFilesAsWritten: the store after renames that succeed is not stated, for the same reason. Each single rename is stated exactly, by `Files.FilesService.RepointOneAsWritten`; the loop visits the files in no fixed order, so their combined effect is not written out.
- Files.FilesService.DeleteFolder: it states which blobs may disappear (owner `ownerId`, the path of a removed file row). It does not state one-for-one that each removed row's blob is gone.
- Files.FilesService.LoadFolderWithParents: it requires the tables to be valid: an acyclic parent relation with resolving parent ids. Then the source's `break` on a missing parent cannot happen. The mutated `current.parent` object graph is modelled as the leaf-first sequence of loaded rows.
- Files.FilesService.CloneFile: the endless search, when the name does not occur in the path, is reported as `Err(NonTermination)` with no state change. The source never returns in that case.
- Files.FilesService.GetSharedFolderByToken: which of several matching folders `findOne` returns is left unspecified.
- The constructor's database service is the initial tables and store.

## Findings

| source | as written | input that shows it | evidently intended | confidence | as-written member | corrected member |
|---|---|---|---|---|---|---|
| server/src/modules/files/files.service.ts:397 | `this.sharedFiles[token] \|\| null` reads a plain `{}` object, so names inherited from `Object.prototype` are found | `getFileIdByToken("constructor")` with only hex tokens issued returns the `Object` constructor, not null | a token never issued gives null | not executed | Files.FilesService.GetFileIdByToken, ShareTokens.LookupAsWritten, ShareTokens.PrototypeNameResolves | Files.FilesService.GetFileIdByTokenCorrected, ShareTokens.Resolve |
| server/src/modules/files/files.service.ts:149-181 | the folder's directory is renamed, then each direct file is renamed again from its old full path | folder `A` (a directory) with direct file `A/x`, renamed to `B`: once `A` has moved to `B`, renaming `A/x` to `B/x` fails with ENOENT | the directory move carries the files; each row gets only its path re-prefixed | not executed | Files.FilesService.RenameFolder, Physical.RenameAfterDirectoryMoveFails | Files.FilesService.RenameFolderCorrected |
