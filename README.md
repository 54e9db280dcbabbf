# Audio library organiser and file-renaming scripts, modelled in Dafny

The main model is the music-folder organiser `organize_music_folders`.
It works in four phases:

1. It walks a root folder. It flattens or skips "container" folders (folders whose sub-folders hold audio). It reads the tags of each album folder's audio files.
2. It chooses a final folder name for every album. It computes the album's warnings, such as missing covers, track gaps, duplicate tracks and disc-tag inconsistencies. It plans the file renames inside each album (`NN Artist - Title.ext`, shortened to fit a 230-byte path limit and disambiguated with ` (k)`) and the folder renames.
3. It executes the plan: file renames first, then folder renames, deepest path first.
4. It reports the warnings.

Beside it are the smaller scripts of the same repository:

- a GUI that moves listed files or folders, or moves a folder group selectively;
- a renamer that names `.zip`/`.7z` archives after their single top-level folder;
- two scanners that turn an artist's album folders into a JSON item or a forum-markup list;
- a renamer for split-MP3 parts (`x.mp3.001` becomes `x.001.mp3`);
- the tile-size arithmetic of a pattern generator;
- a renamer that removes a substring from file names.

The model is pure functions and lemmas where the source computes values. Where the source runs a loop, the model is a method with a loop, and the method's `ensures` ties its result to a reference function. The filesystem and the tag reader are never touched. They are parameters:

- a listing (`map`/`set` of names);
- a `probe`/`read` function standing for mutagen;
- sets of paths whose rename or tag write raises;
- Python's `os.walk` output, given as a sequence of `(dir, files)` pairs.

Text functions follow CPython: whitespace (`\s`, `str.strip()`) is the `str.isspace` set over all of Unicode, and the blanks `int()` skips are that set minus the separators U+001C–U+001F; case mapping (`str.lower`/`str.upper`) and digits (`\d`, the digits of `int()`) are ASCII; `zfill`, `posixpath.join`/`dirname`/`basename`/`splitext` and UTF-8 byte length are as CPython computes them.

### Module layout

| file | module | models |
|---|---|---|
| `wrappers.dfy` | `Wrappers` | `Option`, `Result` |
| `text.dfy` | `Text` | the string and path built-ins the scripts use |
| `suffix.dfy` | `Suffix` | the `name (k)ext` collision names and the bound on collision loops |
| `folds.dfy` | `Folds` | a loop that writes one output per element and threads a state through the elements |
| `sorting.dfy` | `Sorting` | `list.sort` by a string key (stable), and sorting by length in reverse |
| `vote.dfy` | `Vote` | `Counter(...).most_common(1)` |
| `audio_sanitize.dfy` | `Sanitize` | `sanitize_filename` |
| `audio_meta.dfy` | `AudioMeta` | `get_audio_metadata`, `get_cover_art_info`, `analyze_album_folder` |
| `audio_warnings.dfy` | `AudioWarnings` | every `check_*` function and the inline warning rules of Phase 2 |
| `audio_files.dfy` | `AudioFiles` | `plan_file_renames` |
| `audio_flatten.dfy` | `AudioFlatten` | container detection, the flatten prompt, `flatten_container_folder` |
| `audio_organize.dfy` | `AudioOrganize` | the naming, checks and plans of `organize_music_folders` |
| `move_by_list.dfy` | `MoveByList` | `Python/MoveFilesByList.py` |
| `archive_rename.dfy` | `ArchiveRename` | `Python/RenameZip.py`, and `RenameZip.py`, which is the same code |
| `album_scan.dfy` | `AlbumScan` | the parts shared by the two album scanners |
| `json_string.dfy` | `JsonString` | `json.dumps` of a string |
| `json_from_files.dfy` | `JsonFromFiles` | `Python/JSONFromFiles.py` |
| `rym_from_files.dfy` | `RymFromFiles` | `RYMFromFiles.py` |
| `split_mp3.dfy` | `SplitMp3` | `Python/SplitMP3Renamer.py` |
| `pattern_generator.dfy` | `PatternGenerator` | the input checks, the tile size and the tile layout of `Python/PatternGenerator.py` |
| `remove_string.dfy` | `RemoveString` | `Python/RemoveStringFromFilename.py` |

### Behaviour of the code worth knowing

- **Final folder names are not always distinct.** The organiser numbers repeated base names as ` (1)`, ` (2)`, and so on. An album whose base name is literally `X (1)` can then get the same final name as the first of two albums named `X`. `AudioOrganize.FinalNamesCanClash` exhibits this. The folder plan does not overwrite anything even so: the conflict check at `Python/AudioOrganizer.py:434` skips the second rename, and `AudioOrganize.ProposeFolderRenames` proves that the planned targets are distinct.
- **Warnings are keyed by final name.** `warnings_by_album` uses the final name as its key. When two albums share a final name, the later album's warnings replace the earlier one's. `AudioOrganize.RecordedLast` states exactly which album's set survives.
- **Whitespace-only dates.** The organiser's tag normalisation turns an empty tag into "absent". A date made only of whitespace yields an empty `invalid_year_tag`, and that does not raise `[Invalid Year]`. The model keeps this.
- **Container folders in check-only mode.** With `-c`, every container folder is skipped. Its warning is recorded, and its albums are not analysed (`AudioFlatten.CheckOnlyVisit`).
- **Split-MP3 renames can collide.** The split-MP3 pattern ignores case, so `a.mp3.001` and `a.MP3.001` are both renamed to `a.001.mp3`. The second rename then targets the name the first one produced (`SplitMp3.RewriteIgnoresCase`).
- **Substring removal is a single pass.** `str.replace(target, '')` scans only once, so `aabb` minus `ab` leaves `ab` (`RemoveString.RemoveAllOnePass`).
- **The tile size can leave a strip.** When the clamp replaces the divisor, the tile can fail to divide the image, and a strip of the image then stays unpainted: a 257-pixel image with a requested tile of 1 gets 64-pixel tiles and a one-pixel strip (`PatternGenerator.ClampLeavesStrip`).
- **The scanners test the extension, not the suffix.** The two album scanners test `os.path.splitext(f)[1].lower()`. A hidden file named `.mp3` therefore has no extension and is not audio to them. The organiser tests `f.lower().endswith(...)`, so the same file is audio to it.
- **The two `RenameZip.py` copies are one program.** Apart from comments and docstrings, the root `RenameZip.py` is `Python/RenameZip.py` without the "Include Subfolders" option. Its `process_folder` is the non-recursive branch. `ArchiveRename.ProcessFolder` with `recursive` false models the root copy.

## Model

| member | source | states |
|---|---|---|
| `Sanitize.ReplaceSeparators` | Python/AudioOrganizer.py:25-28 | no path separator survives the replacement, and a name without separators is unchanged |
| `Sanitize.RemoveForbidden` | Python/AudioOrganizer.py:30 | none of `<>:"\|?*` remains, no new character appears, and a name without them is unchanged |
| `Sanitize.CollapseWhitespaceSingle` | Python/AudioOrganizer.py:31 | after `\s+` becomes one blank, only single plain blanks remain, and a leading blank means the input led with whitespace |
| `Sanitize.CollapseNoop` | Python/AudioOrganizer.py:31 | collapsing a string that already has only single blanks changes nothing |
| `Sanitize.TrimMakesClean` | Python/AudioOrganizer.py:32 | stripping `' .'` from a separator-free, single-blank string yields a clean name |
| `Sanitize.SanitizeIsClean` | Python/AudioOrganizer.py:23-33 | every sanitized name is clean: it has no forbidden or separator character and no double or non-blank whitespace, and it does not start or end with a blank or dot |
| `Sanitize.SanitizeClean` | Python/AudioOrganizer.py:23-33 | a clean name is a fixed point, whichever separator mode is used |
| `Sanitize.SanitizeIdempotent` | Python/AudioOrganizer.py:23-33 | sanitizing twice equals sanitizing once, in any combination of modes |
| `AudioMeta.Truthy` | Python/AudioOrganizer.py:62-68 | a tag is kept exactly when it is present and non-empty |
| `AudioMeta.ParseDate` | Python/AudioOrganizer.py:53-59 | a stripped four-digit date is the year; any other non-empty date is the invalid-year tag and never both; no date gives neither |
| `AudioMeta.ReadFile` | Python/AudioOrganizer.py:44-68 | the record keeps the file name; title, track, disc, album, artist and album artist are each the truthy tag or absent; the cover count and hash are the probe's; year and invalid year come from the date rule; no kept tag is empty |
| `AudioMeta.ReadFileRoundTrip` | Python/AudioOrganizer.py:44-68 | a record with no empty tag and no invalid year is rebuilt exactly from its own tags, cover count and hash |
| `AudioMeta.AudioNames` | Python/AudioOrganizer.py:139 | exactly the listed names ending, case-insensitively, in a supported audio extension |
| `AudioMeta.AlbumTags` | Python/AudioOrganizer.py:158 | exactly the album tags that the files carry |
| `AudioMeta.YearsFor` | Python/AudioOrganizer.py:161 | exactly the years of the files tagged with the given album |
| `AudioMeta.AnyImage` | Python/AudioOrganizer.py:172 | true iff some listed name has an image extension |
| `AudioMeta.ReadAll` | Python/AudioOrganizer.py:144-153 | the records of the readable audio files, in listing order; unreadable files are dropped |
| `AudioMeta.Elect` | Python/AudioOrganizer.py:158-165 | the album is the first-seen most common album tag, or the folder's base name when no file has one; the year is the first-seen most common year among that album's files |
| `AudioMeta.AnalyzeAlbumFolder` | Python/AudioOrganizer.py:137-173 | no summary iff no audio file is readable; otherwise path, records, elected album and year, and whether an image is present |
| `Vote.FirstModeUnique` | Python/AudioOrganizer.py:160 | the most common value, with ties going to the first seen, is unique |
| `Vote.Tally` | Python/AudioOrganizer.py:160 | counts equal occurrences, and the keys are the distinct values in first-occurrence order |
| `Vote.FirstMax` | Python/AudioOrganizer.py:160 | the index of the first key with the greatest count |
| `Vote.MostCommon` | Python/AudioOrganizer.py:160 | the result occurs most often, and every value first seen before it occurs strictly fewer times |
| `Vote.ModeEarlier` | Python/AudioOrganizer.py:160 | the first maximal key beats every value that occurs earlier in the input |
| `Vote.ModeGreatest` | Python/AudioOrganizer.py:160 | the chosen key's count is at least every value's count |
| `AudioWarnings.TagInjective` | Python/AudioOrganizer.py:187-418 | distinct warnings have distinct printed tags, so a set of warnings and a set of tags say the same |
| `AudioWarnings.CheckCoverArt` | Python/AudioOrganizer.py:175-199 | `[Multiple Covers]` iff a file has more than one picture; `[Inconsistent Covers]` iff more than one distinct hash; `[Missing Cover]` iff some file has no hash |
| `AudioWarnings.WithArtAll` | Python/AudioOrganizer.py:196 | the count of files with art equals the number of files iff every file has art |
| `AudioWarnings.CheckTrackGaps` | Python/AudioOrganizer.py:201-237 | `[Track Numbering Start]` iff some disc's track set lacks 1 or has a number below 1; `[Track Gap]` iff some disc's set misses a number between two present ones |
| `AudioWarnings.GroupByDisc` | Python/AudioOrganizer.py:206-220 | each disc key maps to exactly its track numbers; unparsable tracks are skipped; an absent disc counts as `1` |
| `AudioWarnings.DiscVerdict` | Python/AudioOrganizer.py:226-235 | the sorted-range test equals the set-level start and gap rules |
| `AudioWarnings.EntriesMembers` | Python/AudioOrganizer.py:207-218 | a (disc, track) entry exists iff some file has that disc key and a track that parses to that number |
| `AudioWarnings.CheckMissingTags` | Python/AudioOrganizer.py:239-251 | each `[Missing X]` iff some file lacks tag X |
| `AudioWarnings.InconsistentAlbumIff` | Python/AudioOrganizer.py:253-259 | `[Inconsistent Album]` iff two files carry different album tags |
| `AudioWarnings.StripDiscTags` | Python/AudioOrganizer.py:97-110 | every file loses its disc tag except those whose tag write fails |
| `AudioWarnings.HasDuplicateTrack` | Python/AudioOrganizer.py:416-418 | true iff two files with a track share both track and disc |
| `AudioWarnings.InlineWarnings` | Python/AudioOrganizer.py:390-398 | `[No Image]`, `[Zero Metadata]` and `[Invalid Year]`, each iff its condition holds |
| `AudioWarnings.DiscWarnings` | Python/AudioOrganizer.py:405-418 | mixed discs give `[Inconsistent Disc #]`; one shared disc gives `[Redundant Disc #]` in check-only mode, and otherwise its tags are stripped; duplicates are judged after the strip |
| `AudioWarnings.FolderWarnings` | Python/AudioOrganizer.py:400-418 | the folder's warning set is exactly the union of the check rules and the disc rules, and the records are updated by the strip |
| `AudioFiles.ZFill2` | Python/AudioOrganizer.py:278 | pads to two characters with zeros after a sign, and leaves longer strings alone |
| `AudioFiles.ChooseBase` | Python/AudioOrganizer.py:290-296 | the full name if it fits, else the short name if it fits, else the number |
| `AudioFiles.ChooseBaseFits` | Python/AudioOrganizer.py:290-296 | the chosen base fits the path limit unless it is the bare number |
| `AudioFiles.FitsBytes` | Python/AudioOrganizer.py:291 | fitting means the UTF-8 length of `final/name` is at most 230 bytes |
| `AudioFiles.Disambiguate` | Python/AudioOrganizer.py:298-304 | the name is the base, or the first ` (k)` variant whose lower-case form is untaken, and every earlier variant is taken |
| `AudioFiles.DisambiguatedFirstFree` | Python/AudioOrganizer.py:298-304 | the disambiguated name is the base if its lower-case form is untaken, else the first ` (k)` variant whose lower-case form is untaken |
| `AudioFiles.FirstFreeUnique` | Python/AudioOrganizer.py:298-304 | there is only one first free name, so the collision loop has one answer |
| `AudioFiles.CandidatesMembers` | Python/AudioOrganizer.py:271-296 | candidates are exactly the files with track and title, each with its preferred base and extension |
| `AudioFiles.ChosenFirstFree` | Python/AudioOrganizer.py:298-306 | each candidate gets the first free name against the lower-cased names chosen for the candidates before it, kept or renamed |
| `AudioFiles.ChosenDistinct` | Python/AudioOrganizer.py:298-306 | the names chosen for two candidates differ ignoring case |
| `AudioFiles.RenamesMembers` | Python/AudioOrganizer.py:305-306 | a pair is planned iff it is some candidate with its chosen name and that name differs from its current one |
| `AudioFiles.NoClashWithKept` | Python/AudioOrganizer.py:304-306 | no planned new name equals, ignoring case, the name of a file that keeps its name |
| `AudioFiles.RenamesDistinct` | Python/AudioOrganizer.py:298-306 | the planned new names are pairwise distinct ignoring case |
| `AudioFiles.RenamesPlanned` | Python/AudioOrganizer.py:305-306 | every planned pair renames a candidate to one of its own names, different from its current one |
| `AudioFiles.RenamesComplete` | Python/AudioOrganizer.py:305-306 | a file whose name is none of its candidate names is renamed |
| `AudioFiles.ResolveSpecFacts` | Python/AudioOrganizer.py:298-309 | the specified plan has distinct new names ignoring case, planned pairs only, and every file needing a new name |
| `AudioFiles.Resolve` | Python/AudioOrganizer.py:298-309 | the loop computes exactly `ResolveSpec`: the candidates in order, each renamed to the name chosen for it when that differs from its current one |
| `AudioFiles.PlanFileRenames` | Python/AudioOrganizer.py:261-311 | the plan is exactly `FilePlan`: mixed disc tags give no plan; otherwise the renames of `ResolveSpec` over the eligible files, in order, with case-insensitively distinct new names |
| `AudioFiles.InFolder` | Python/AudioOrganizer.py:307-309 | the plan entries joined onto the folder path, in order |
| `Suffix.SuffixedInjective` | Python/AudioOrganizer.py:126 | different counters give different ` (k)` names |
| `Suffix.LowerSuffixed` | Python/AudioOrganizer.py:302 | lower-casing a ` (k)` name lower-cases its stem and extension |
| `Suffix.TriedCardinality` | Python/AudioOrganizer.py:125-127 | after counter `c`, `c - 1` distinct names have been tried |
| `Suffix.TriesBounded` | Python/AudioOrganizer.py:125-127 | every tried name is taken, so the counter stays within the number of taken names and the collision loop stops |
| `AudioFlatten.AnyAudio` | Python/AudioOrganizer.py:335 | true iff some listed name is an audio file |
| `AudioFlatten.IsTrueContainer` | Python/AudioOrganizer.py:330-337 | true iff some listable sub-folder holds an audio file |
| `AudioFlatten.FlattenIff` | Python/AudioOrganizer.py:341-344 | flattening is chosen iff not check-only, not forced no, and either forced yes or the lower-cased answer is `y` |
| `AudioFlatten.ContainerAction` | Python/AudioOrganizer.py:339-355 | a container is flattened iff the choice is `y`, and skipped otherwise |
| `AudioFlatten.ContainerWarning` | Python/AudioOrganizer.py:353 | the general warning names the skipped container |
| `AudioFlatten.VisitFolder` | Python/AudioOrganizer.py:339-358 | non-containers are analysed as listed; a flattened container is analysed with its new listing iff flattening succeeded; a skipped one only warns |
| `AudioFlatten.CheckOnlyVisit` | Python/AudioOrganizer.py:341 | in check-only mode every container is skipped with its warning |
| `AudioFlatten.FreeName` | Python/AudioOrganizer.py:120-127 | the destination is the file name if free, else the first free ` (k)` variant |
| `AudioFlatten.FreeForFree` | Python/AudioOrganizer.py:122 | a free name is used as is |
| `AudioFlatten.FreeForTaken` | Python/AudioOrganizer.py:122-127 | a taken name is replaced by a ` (k)` variant of its stem and extension |
| `AudioFlatten.MoveEntry` | Python/AudioOrganizer.py:118-129 | one file moves to a free destination, recorded in order; every recorded move keeps the name it was given against the parent at its moment |
| `AudioFlatten.FlatStateSnoc` | Python/AudioOrganizer.py:127-129 | a move to a name the parent does not hold keeps the destinations distinct and the parent's listing exact |
| `AudioFlatten.FirstFreeDestsSnoc` | Python/AudioOrganizer.py:120-129 | a new move chosen against the current parent keeps every earlier move's first-free choice, and records its own |
| `AudioFlatten.SubIndexAt` | Python/AudioOrganizer.py:116 | each walked sub-folder is found at its own position |
| `AudioFlatten.EmptyStep` | Python/AudioOrganizer.py:118-129 | one successful rename extends the recorded moves by that entry |
| `AudioFlatten.OriginsSnoc` | Python/AudioOrganizer.py:118-129 | the move of the next entry extends the origins by that entry |
| `AudioFlatten.RemoveSub` | Python/AudioOrganizer.py:130 | removing an emptied sub-folder keeps the flattening invariant |
| `AudioFlatten.EmptySub` | Python/AudioOrganizer.py:117-129 | the moves of one sub-folder succeed iff no move raises, and then record its files in listing order after the earlier moves; each move gets the first free name |
| `AudioFlatten.OriginsFrom` | Python/AudioOrganizer.py:117-129 | the moves added for a sub-folder are its files, in listing order |
| `AudioFlatten.FlattenSub` | Python/AudioOrganizer.py:116-135 | one sub-folder succeeds iff it is listable, no move raises and its removal does not raise, and the flattening invariant then holds one sub-folder further |
| `AudioFlatten.FlattenContainer` | Python/AudioOrganizer.py:112-135 | succeeds iff every sub-folder is listable, none of its file moves raises and its removal does not raise; no raising move is recorded; on success every file is moved once in walk order, destinations are pairwise distinct and overwrite no file of the parent, and the parent holds its old entries minus the sub-folders plus the moved files; on success and on failure, each recorded destination is the file's own name if the parent does not hold it, else the first ` (k)` variant it does not hold, the parent being its old entries minus the sub-folders already removed plus the earlier destinations |
| `AudioOrganize.AlbumTitles` | Python/AudioOrganizer.py:364 | the album of every folder, in order |
| `AudioOrganize.CleanedAt` | Python/AudioOrganizer.py:361-362 | each base name starts as the sanitized album title |
| `AudioOrganize.YearSeparates` | Python/AudioOrganizer.py:367-369 | two albums of the same title with different years get different base names |
| `AudioOrganize.BaseNamedAt` | Python/AudioOrganizer.py:361-369 | a unique title keeps its sanitized name; a repeated title with a year gets ` (year)` |
| `AudioOrganize.CleanTitles` | Python/AudioOrganizer.py:361-362 | the loop computes exactly the sanitized titles |
| `AudioOrganize.Repeated` | Python/AudioOrganizer.py:364-365 | flags exactly the titles that occur more than once |
| `AudioOrganize.SharedTitles` | Python/AudioOrganizer.py:364-368 | flags exactly the folders whose title is shared |
| `AudioOrganize.AssignBaseNames` | Python/AudioOrganizer.py:361-369 | the loop assigns exactly the specified base names |
| `AudioOrganize.CountPrefix` | Python/AudioOrganizer.py:384-385 | a later album with the same base name has a strictly higher running count |
| `AudioOrganize.CountPrefixBounds` | Python/AudioOrganizer.py:384-385 | the running number lies between 1 and the total count |
| `AudioOrganize.NumberInRange` | Python/AudioOrganizer.py:384 | a repeated base name gets ` (k)` with `1 <= k <=` its count |
| `AudioOrganize.NumberedDistinct` | Python/AudioOrganizer.py:382-385 | two albums with the same base name get different final names |
| `AudioOrganize.UniqueBaseKept` | Python/AudioOrganizer.py:384 | a base name that occurs once is the final name |
| `AudioOrganize.FinalNamesCanClash` | Python/AudioOrganizer.py:371-385 | base names `X`, `X`, `X (1)` give two albums the final name `X (1)` |
| `AudioOrganize.NextName` | Python/AudioOrganizer.py:383-385 | one step of the counter loop yields the specified final name and keeps the counters equal to the running counts |
| `AudioOrganize.NumberNames` | Python/AudioOrganizer.py:379-385 | the loop computes the specified final name of every album |
| `AudioOrganize.BaseNames` | Python/AudioOrganizer.py:371 | the base names in folder order |
| `AudioOrganize.Paths` | Python/AudioOrganizer.py:380 | the folder paths in order |
| `AudioOrganize.AllWarningsListed` | Python/AudioOrganizer.py:390-418 | every warning kind is among those the organiser emits |
| `AudioOrganize.FolderCheck` | Python/AudioOrganizer.py:390-430 | the folder's warnings and stripped records; file renames are skipped iff `[Track Gap]` or `[Duplicate Track]` is raised |
| `AudioOrganize.CheckAll` | Python/AudioOrganizer.py:382-430 | every album is checked as `FolderCheck` specifies |
| `AudioOrganize.PlanFilesAll` | Python/AudioOrganizer.py:423-428 | a skipped album plans nothing; every other album plans exactly `FilePlan` of its stripped records |
| `AudioOrganize.PlansSpec` | Python/AudioOrganizer.py:423-428 | one plan per album: empty for a skipped album, otherwise `FilePlan` of its records |
| `AudioOrganize.RecordedLast` | Python/AudioOrganizer.py:420-421 | a final name is recorded iff some album with that name has warnings, and the recorded set is that of the last such album |
| `AudioOrganize.RecordWarnings` | Python/AudioOrganizer.py:420-421 | the loop builds exactly the recorded map |
| `AudioOrganize.FilePathsFrom` | Python/AudioOrganizer.py:426-428 | every planned file rename comes from one album's plan, joined onto that album's path |
| `AudioOrganize.Targets` | Python/AudioOrganizer.py:387-388 | each album's target is its final name beside its current folder |
| `AudioOrganize.Blocked` | Python/AudioOrganizer.py:434 | an album is blocked exactly when its final name already exists in its parent |
| `AudioOrganize.PlannedTargetsSnoc` | Python/AudioOrganizer.py:436 | planning one more rename adds exactly its target to the proposed targets |
| `AudioOrganize.ProposeFolderRenames` | Python/AudioOrganizer.py:432-441 | the plan is exactly `FolderPlanOf`: folders in order, each planned iff it moves, its final name is not listed in its parent, and no earlier planned rename has its target; planned targets are pairwise distinct and every album that could be renamed without conflict is |
| `AudioOrganize.ExecutionOrder` | Python/AudioOrganizer.py:443-466 | check-only mode executes nothing; otherwise file renames run first in plan order, then the folder renames as a permutation in non-increasing length of the old path, keeping the plan order among paths of equal length |
| `AudioOrganize.DescendantsFirst` | Python/AudioOrganizer.py:461 | a folder nested inside another is renamed before it |
| `AudioOrganize.NameAlbums` | Python/AudioOrganizer.py:360-385 | the albums are a permutation of the base-named folders sorted by path, with the specified final names |
| `AudioOrganize.PlanFolders` | Python/AudioOrganizer.py:382-430 | every album's warning set, the recorded map keyed by final name, and every album's file plan, exactly `FilePlan` of its stripped records unless the album is skipped |
| `AudioOrganize.Organize` | Python/AudioOrganizer.py:313-468 | Phases 2 and 3 together: the albums in path order with their final names, their warnings and exact file plans, the executed file renames as the joined plans, the folder plan exactly as `FolderPlanOf`, and the executed order |
| `Sorting.StrLeTotal` | Python/AudioOrganizer.py:380 | string order is total |
| `Sorting.StrLeAntisymmetric` | Python/AudioOrganizer.py:380 | string order is antisymmetric |
| `Sorting.StrLeTransitive` | Python/AudioOrganizer.py:380 | string order is transitive |
| `Sorting.InsertByKeySorted` | Python/AudioOrganizer.py:380 | inserting into a sorted list keeps it sorted |
| `Sorting.SortByKey` | Python/AudioOrganizer.py:380 | a permutation sorted by the key |
| `Sorting.InsertByKeyStable` | Python/AudioOrganizer.py:380 | inserting into a sorted list keeps, for every key, the order of the elements with that key, the new one coming after them |
| `Sorting.SortByKeyStable` | Python/AudioOrganizer.py:380 | the sort is stable, as `list.sort` is: the elements of each key keep their input order |
| `Sorting.InsertDescendingSorted` | Python/AudioOrganizer.py:461 | inserting into a list sorted in reverse keeps it sorted in reverse |
| `Sorting.SortDescending` | Python/AudioOrganizer.py:461 | a permutation in non-increasing key order |
| `Sorting.InsertDescendingStable` | Python/AudioOrganizer.py:461 | inserting into a list keeps, for every key, the order of the elements with that key, the new one coming after them |
| `Sorting.SortDescendingStable` | Python/AudioOrganizer.py:461 | the sort is stable: the elements of each key keep their input order |
| `Text.LowerAppend` | Python/AudioOrganizer.py:139 | `lower` distributes over concatenation |
| `Text.LowerIdempotent` | Python/AudioOrganizer.py:301 | `lower` is idempotent |
| `Text.JoinSplit` | Python/SplitMP3Renamer.py:76 | joining the parts of a split with the separator gives back the string |
| `Text.NatToStringInjective` | Python/AudioOrganizer.py:384 | distinct counters print differently |
| `Text.ParseIntOfNat` | Python/AudioOrganizer.py:214 | `int()` of a printed number gives it back |
| `Text.ParseIntRejectsSeparator` | Python/AudioOrganizer.py:214 | `int()` skips surrounding blanks but, unlike `strip()`, rejects a leading U+001C separator |
| `Text.Utf8LengthAppend` | Python/AudioOrganizer.py:291 | the UTF-8 length of a concatenation is the sum of the lengths |
| `Text.TrimKeeps` | Python/AudioOrganizer.py:32 | stripping a string that has nothing to strip leaves it unchanged |
| `Text.SplitExt` | Python/AudioOrganizer.py:123 | stem and extension concatenate to the name; the extension is empty or a single dot-suffix without a slash |
| `Text.PathJoin` | Python/AudioOrganizer.py:102 | joining a relative name onto a folder inserts one slash |
| `MoveByList.StrippedLines` | Python/MoveFilesByList.py:37 | exactly the non-empty stripped lines |
| `MoveByList.RequestedNamesStripped` | Python/MoveFilesByList.py:37 | every requested name is non-empty and has no surrounding whitespace |
| `MoveByList.MoveNames` | Python/MoveFilesByList.py:52-67 | the loop computes exactly `Moves`; each name is either moved or failed; a moved name was present with the wanted kind and did not raise; a present name that does not raise is moved; the moved entries leave the source |
| `MoveByList.MovesKeepState` | Python/MoveFilesByList.py:52-67 | the names taken in turn by `Moves` keep every name on exactly one side, move each present name once, and remove the moved entries from the source |
| `MoveByList.MoveStateNext` | Python/MoveFilesByList.py:56-67 | one more name moves when it is still present with the wanted kind and its move does not raise, and is failed otherwise |
| `MoveByList.SummaryAddsUp` | Python/MoveFilesByList.py:69-73 | moved plus failed equals requested |
| `MoveByList.AbsentFails` | Python/MoveFilesByList.py:56-59 | a name that is not present is counted as failed, never as moved |
| `MoveByList.MoveItemsSimple` | Python/MoveFilesByList.py:22-78 | a missing source folder moves nothing; otherwise the requested names are the stripped lines, and the moved, failed and remaining names are exactly `Moves` of them, with each name on exactly one side |
| `MoveByList.FolderName` | Python/MoveFilesByList.py:101 | a folder name has no leading or trailing slash |
| `MoveByList.ParseNoHeader` | Python/MoveFilesByList.py:94-107 | file lines before any folder line are dropped, and no group is formed |
| `MoveByList.ParseBlock` | Python/MoveFilesByList.py:94-110 | a folder line and the file lines after it form one group, appended after the earlier groups |
| `MoveByList.GroupFilesAreNames` | Python/MoveFilesByList.py:97-107 | no folder-looking line is ever listed as a file |
| `MoveByList.ParseGroups` | Python/MoveFilesByList.py:88-110 | the parsing loop computes the specified groups |
| `MoveByList.RegularFiles` | Python/MoveFilesByList.py:130-133 | exactly the regular files of the sub-folder |
| `MoveByList.Decide` | Python/MoveFilesByList.py:136-145 | the whole folder moves iff the listed files are exactly its files; otherwise the missing and extra sets are reported, and at least one of them is non-empty |
| `MoveByList.ProcessGroup` | Python/MoveFilesByList.py:121-174 | the report and tree are exactly `GroupOutcome`: a missing sub-folder is skipped; a whole move removes it unless it raises; otherwise the listed files that are present move out of it as `Moves` states, a file failing when its (sub-folder, file) pair raises, and nothing else changes |
| `MoveByList.FailsIn` | Python/MoveFilesByList.py:164-172 | a listed file of a sub-folder fails to move exactly when its (sub-folder, file) pair raises |
| `MoveByList.ProcessedShrinks` | Python/MoveFilesByList.py:121-174 | a group adds no sub-folder and leaves the other sub-folders alone |
| `MoveByList.NextUntouched` | Python/MoveFilesByList.py:121-174 | with distinct folder names, each group is judged against the source as it was at the start |
| `MoveByList.MoveStep` | Python/MoveFilesByList.py:121-174 | one group step keeps the loop's reports and shrinking-tree invariant |
| `MoveByList.SelectiveMove` | Python/MoveFilesByList.py:81-176 | parses the groups; a missing source does nothing; otherwise the reports and the final tree are exactly `Selected` over all groups, one report per group, missing sub-folders reported, and with distinct names every report as the start state dictates |
| `MoveByList.SelectedAt` | Python/MoveFilesByList.py:121-174 | the report of each group is what that group gives against the tree the groups before it leave |
| `ArchiveRename.FirstNonEmpty` | Python/RenameZip.py:36-38 | the first non-empty part, or none iff all parts are empty |
| `ArchiveRename.TopLevelIsLeadingComponent` | Python/RenameZip.py:36-38 | the top level of a name is its first non-empty `/`-component |
| `ArchiveRename.PlainNameIsTopLevel` | Python/RenameZip.py:36-38 | a slash-free name is its own top level |
| `ArchiveRename.SlashesHaveNoTopLevel` | Python/RenameZip.py:36-38 | a name of slashes only has no top level |
| `ArchiveRename.CollectTopLevels` | Python/RenameZip.py:34-38 | the loop collects exactly the set of top levels |
| `ArchiveRename.OneFolder` | Python/RenameZip.py:34-38 | names under one folder, plus slash-only names, give that folder alone |
| `ArchiveRename.KindOf` | Python/RenameZip.py:15-32 | `.zip` and `.7z` are recognised case-insensitively, and everything else is unsupported |
| `ArchiveRename.Verdict` | Python/RenameZip.py:40-46 | success iff exactly one top level, which is returned; the error tells "no folder" from "more than one" |
| `ArchiveRename.ProcessArchive` | Python/RenameZip.py:13-46 | the archive scan as specified, with the reader's error passed through |
| `ArchiveRename.ArchiveScanOk` | Python/RenameZip.py:13-46 | a scan succeeds iff the type is supported (7z only with py7zr), the listing was read, and there is exactly one top level |
| `ArchiveRename.ArchiveScanEmpty` | Python/RenameZip.py:40-42 | a zip reports "no folder" iff none of its names has a top level |
| `ArchiveRename.Target` | Python/RenameZip.py:50-52 | the target ends with the folder name plus the original extension |
| `ArchiveRename.TargetBasename` | Python/RenameZip.py:50-52 | the target sits in the archive's folder, and its base name is `folder + ext` |
| `ArchiveRename.RenameArchive` | Python/RenameZip.py:48-59 | an existing target is refused and nothing moves; a raising rename is reported; otherwise the archive is replaced by the target |
| `ArchiveRename.RenameKeepsOthers` | Python/RenameZip.py:53-56 | a rename loses no other archive and keeps the number of paths |
| `ArchiveRename.AlreadyNamed` | Python/RenameZip.py:53-54 | an archive already named after its folder is reported as existing |
| `ArchiveRename.DirectArchives` | Python/RenameZip.py:85-88 | exactly the regular files of the folder whose path ends in `.zip` or `.7z`, case-insensitively |
| `ArchiveRename.WalkedArchives` | Python/RenameZip.py:79-83 | exactly the walked files whose name ends in an archive extension |
| `ArchiveRename.PathTestIsNameTest` | Python/RenameZip.py:87 | testing the joined path for the suffix equals testing the entry name |
| `ArchiveRename.ProcessSingle` | Python/RenameZip.py:61-74 | one archive is logged with the scan error, the rename error or its new name, and the filesystem changes only by its rename |
| `ArchiveRename.ProcessAll` | Python/RenameZip.py:78-88 | the log and final paths are exactly the fold of `ProcessSingle` over the archives in order; one fitting log entry per archive; distinct archives keep the number of paths |
| `ArchiveRename.ProcessedEntry` | Python/RenameZip.py:61-74 | an archive is logged as renamed iff its scan succeeds, its target is absent after the archives before it, and the rename does not raise; a renamed entry names the folder plus extension, and a failed scan logs its error |
| `ArchiveRename.ProcessFolder` | Python/RenameZip.py:76-89 | the recursive or the flat selection, processed in order: the log and final paths are exactly the fold of `ProcessSingle` over it |
| `AlbumScan.FirstWhere` | Python/JSONFromFiles.py:90-99 | the index of the first element satisfying the test, or the length |
| `AlbumScan.FormatOf` | Python/JSONFromFiles.py:97 | the format of an audio file is `FLAC` or `MP3` |
| `AlbumScan.Metadata` | Python/JSONFromFiles.py:10-30 | a read error gives empty tags; the album is the stripped album tag, or empty; the artist is the stripped first album artist, falling back to the first artist, and empty when neither list exists or the chosen list is empty |
| `AlbumScan.MetadataStripped` | RYMFromFiles.py:9-28 | the album and artist returned carry no surrounding whitespace |
| `AlbumScan.Dedup` | Python/JSONFromFiles.py:102-106 | the same elements, each once |
| `AlbumScan.DedupOrder` | Python/JSONFromFiles.py:118 | deduplication keeps the order of first occurrence |
| `AlbumScan.AlbumsOf` | RYMFromFiles.py:71-73 | exactly the albums recorded for the artist |
| `AlbumScan.AddEntry` | Python/JSONFromFiles.py:101-106 | adding one album keeps the grouping by artist in first-seen order, deduplicated when asked |
| `JsonString.ParseHexOfHex` | Python/JSONFromFiles.py:37 | the four-digit hex of a `\u` escape reads back as the code unit |
| `JsonString.EscapeChar` | Python/JSONFromFiles.py:37 | every escape is printable ASCII, and a plain printable character stays itself |
| `JsonString.Quote` | Python/JSONFromFiles.py:37 | a quoted, printable-ASCII JSON string literal |
| `JsonString.EscapePlain` | Python/JSONFromFiles.py:37 | printable text without quote or backslash is left unescaped |
| `JsonString.UnescapeEscape` | Python/JSONFromFiles.py:37 | decoding the escape returns the original string |
| `JsonString.DecodeEscapeChar` | Python/JSONFromFiles.py:37 | the text of one escaped character decodes to that character, whatever follows |
| `JsonString.ReadBodyEscape` | Python/JSONFromFiles.py:37 | an escaped string followed by a quote reads back as the string, and reading stops at that quote |
| `JsonString.ReadStringQuote` | Python/JSONFromFiles.py:37 | a string literal written by `json.dumps` reads back as its string, with the rest of the text after it |
| `JsonString.QuoteInjective` | Python/JSONFromFiles.py:56 | different titles give different literals |
| `JsonFromFiles.Links` | Python/JSONFromFiles.py:39-62 | the folder link first, then one link per album in order |
| `JsonFromFiles.BuildString` | Python/JSONFromFiles.py:32-77 | the item opens with `{` and a newline, and ends with `},`; its content is stated by `BuildStringReadsBack` |
| `JsonFromFiles.ReadItemOf` | Python/JSONFromFiles.py:67-74 | an item assembled from a category and a link block reads back as that category and block |
| `JsonFromFiles.BuildStringReadsBack` | Python/JSONFromFiles.py:32-77 | the item reads back as the artist, written by `json.dumps`, and the Folder link followed by one link per album, joined by `,\n` |
| `JsonFromFiles.BuildStringInjective` | Python/JSONFromFiles.py:32-77 | different artists give different items, and so do album lists with different link blocks |
| `JsonFromFiles.LinksSnoc` | Python/JSONFromFiles.py:65 | adding an album appends `,\n` and its link to the joined block |
| `JsonFromFiles.DirEntry` | Python/JSONFromFiles.py:88-106 | a folder contributes only with an audio file and non-empty album and artist, and its format is `FLAC` or `MP3` |
| `JsonFromFiles.DirEntryFirstOnly` | Python/JSONFromFiles.py:90-99 | only the first audio file is read; later files change nothing |
| `JsonFromFiles.ScanDirectory` | Python/JSONFromFiles.py:88-99 | the file loop with `break` computes the folder's entry |
| `JsonFromFiles.EntriesOf` | Python/JSONFromFiles.py:86-106 | at most one entry per walked folder, each with album and artist |
| `JsonFromFiles.CollectAlbums` | Python/JSONFromFiles.py:85-106 | the walk groups every entry by artist, with albums deduplicated |
| `JsonFromFiles.ProcessDirectory` | Python/JSONFromFiles.py:80-122 | no entries gives "none found"; several artists gives the error with the artists in first-seen order; one artist gives the item over its deduplicated albums |
| `JsonFromFiles.SingleArtist` | Python/JSONFromFiles.py:117-119 | with one artist, every entry belongs to the first entry's artist |
| `RymFromFiles.AudioFilesMembers` | RYMFromFiles.py:33-37 | exactly the audio files, in order |
| `RymFromFiles.AudioFilesNone` | RYMFromFiles.py:39-40 | no audio files iff no listed file is audio |
| `RymFromFiles.FilterAudio` | RYMFromFiles.py:33-37 | the loop computes the audio files |
| `RymFromFiles.Info` | RYMFromFiles.py:48-51 | an audio file's record carries its format |
| `RymFromFiles.Mismatch` | RYMFromFiles.py:58-66 | format is compared first, then album, then artist, and the first difference is named |
| `RymFromFiles.FirstMismatch` | RYMFromFiles.py:47-66 | no error iff every later file agrees with the first |
| `RymFromFiles.FirstMismatchAt` | RYMFromFiles.py:47-66 | an error is the mismatch of the first disagreeing file |
| `RymFromFiles.ConsistencyOk` | RYMFromFiles.py:47-66 | a folder is accepted iff all its files agree, and then it carries the first file's tags |
| `RymFromFiles.DirResultOk` | RYMFromFiles.py:42-73 | a folder is accepted iff all its files agree |
| `RymFromFiles.CheckDirectory` | RYMFromFiles.py:42-73 | the breaking loop computes the folder's result |
| `RymFromFiles.ScanTags` | RYMFromFiles.py:47-66 | the loop stops at the first disagreement and reports it |
| `RymFromFiles.WalkAccounted` | RYMFromFiles.py:32-73 | every folder with audio gives either one entry or one error |
| `RymFromFiles.Block` | RYMFromFiles.py:79-86 | an artist's block is a header, one line per album, and a blank line |
| `RymFromFiles.ReportLength` | RYMFromFiles.py:76-89 | the report has two lines per artist plus one per album |
| `RymFromFiles.BuildReport` | RYMFromFiles.py:76-89 | the output loop builds the report text in first-seen artist order |
| `RymFromFiles.CollectAlbums` | RYMFromFiles.py:31-73 | the walk yields the errors in order and every accepted album grouped by artist, without deduplication |
| `RymFromFiles.ProcessDirectory` | RYMFromFiles.py:30-89 | the errors are those of the folders whose files disagree, in walk order; the clipboard text is the report over the accepted albums, grouped by artist in first-seen order |
| `SplitMp3.TailShape` | Python/SplitMP3Renamer.py:63 | an accepted tail is `.mp3` in any case, followed by one or two groups of three digits |
| `SplitMp3.MatchShortest` | Python/SplitMP3Renamer.py:63-71 | the match takes the shortest base, which is lazy `.*?`, and no match means no base fits |
| `SplitMp3.RewriteMovesExtension` | Python/SplitMP3Renamer.py:71-76 | a matched name is rewritten to `base.NNN[.NNN].mp3`, of the same length |
| `SplitMp3.NoDigitEndNoMatch` | Python/SplitMP3Renamer.py:63 | a name not ending in three digits does not match |
| `SplitMp3.RewriteIdempotent` | Python/SplitMP3Renamer.py:71-76 | a rewritten name ends in `.mp3` and does not match again |
| `SplitMp3.RewriteIgnoresCase` | Python/SplitMP3Renamer.py:63 | `a.mp3.001` and `a.MP3.001` have the same target |
| `SplitMp3.Line` | Python/SplitMP3Renamer.py:68-84 | a regular file that matches is logged as renamed, or as an error when the rename raises |
| `SplitMp3.Visit` | Python/SplitMP3Renamer.py:68-84 | one listing entry as `Line` states, and whether the counter goes up |
| `SplitMp3.ProcessFiles` | Python/SplitMP3Renamer.py:57-89 | no folder gives the error box; a failing listing gives the error; otherwise the log of every entry and the count of renames |
| `SplitMp3.LogFollowsAttempts` | Python/SplitMP3Renamer.py:67-84 | the log follows the matched regular files in order |
| `SplitMp3.ProcessedCount` | Python/SplitMP3Renamer.py:82-86 | renames plus errors equal the number of attempts |
| `SplitMp3.SecondRunIdle` | Python/SplitMP3Renamer.py:71-76 | a second pass over renamed names attempts nothing |
| `PatternGenerator.IsqrtBounds` | Python/PatternGenerator.py:9 | the integer square root bound of the divisor loop |
| `PatternGenerator.FirstClosest` | Python/PatternGenerator.py:16 | the first element at minimal distance from the target, as `min` with a key picks it |
| `PatternGenerator.FindClosestDivisor` | Python/PatternGenerator.py:6-16 | none iff the list is empty, i.e. `n == 0`; otherwise the first closest in the loop's order |
| `PatternGenerator.DivisorsExact` | Python/PatternGenerator.py:8-13 | the loop collects exactly the divisors of `n` |
| `PatternGenerator.ClosestDivisorOptimal` | Python/PatternGenerator.py:6-16 | the chosen divisor divides `n` and is at least as close as any divisor |
| `PatternGenerator.FinalTile` | Python/PatternGenerator.py:143-146 | the tile lies in `[64, size/4]` and is the point of that range nearest to the divisor found, so a divisor already in range is kept; no divisor, or 0, gives 64 |
| `PatternGenerator.Configure` | Python/PatternGenerator.py:124-146 | non-integers, sizes under 256 and negative colour counts are rejected in source order; any input passing the three checks, in whatever form `int()` reads it, is accepted with its size, the clamped closest divisor as tile, and the colour count or the drawn count for 0 |
| `PatternGenerator.ConfigureAccepts` | Python/PatternGenerator.py:124-146 | valid numeric input is accepted with the closest-divisor tile, and 0 colours become the drawn count |
| `PatternGenerator.GridFits` | Python/PatternGenerator.py:156 | at least 4 tiles per side, covering the image up to less than one tile |
| `PatternGenerator.NeighboursDiffer` | Python/PatternGenerator.py:176 | neighbouring cells use different tile variations |
| `PatternGenerator.Layout` | Python/PatternGenerator.py:174-177 | the grid holds `(x + y) % 4` in every cell |
| `PatternGenerator.ClampLeavesStrip` | Python/PatternGenerator.py:143-146 | size 257 with target 1 yields tile 64, which does not divide 257 |
| `RemoveString.RemoveAllLength` | Python/RemoveStringFromFilename.py:61 | removal shortens the name by the target length times the number of occurrences found |
| `RemoveString.CountPositive` | Python/RemoveStringFromFilename.py:61 | some occurrence is found iff the target occurs |
| `RemoveString.RemoveAllChanges` | Python/RemoveStringFromFilename.py:61-63 | the name changes iff the target occurs in it |
| `RemoveString.RemoveAllAbsent` | Python/RemoveStringFromFilename.py:61 | no occurrence leaves the name unchanged |
| `RemoveString.RemoveAllOnePass` | Python/RemoveStringFromFilename.py:61 | `aabb` minus `ab` is `ab` |
| `RemoveString.Attempts` | Python/RemoveStringFromFilename.py:57-64 | attempts are regular listed files whose name the removal changes |
| `RemoveString.AttemptsAreOccurrences` | Python/RemoveStringFromFilename.py:57-64 | a file is attempted iff it is regular, listed, and contains the target |
| `RemoveString.Expected` | Python/RemoveStringFromFilename.py:41-75 | missing input, an invalid folder and a listing error each end the run with their status |
| `RemoveString.ExpectedComplete` | Python/RemoveStringFromFilename.py:53-72 | a completed run counts its successes as the renames that went through, and successes plus errors equal the attempts |
| `RemoveString.RenameAll` | Python/RemoveStringFromFilename.py:53-72 | the loop computes the expected outcome |
| `RemoveString.RenameFiles` | Python/RemoveStringFromFilename.py:41-75 | the whole handler, with the target stripped first |
| `RemoveString.NewNameLength` | Python/RemoveStringFromFilename.py:61-64 | an attempted rename removes at least one occurrence, and the length drops accordingly |

## Left out

- **Tag and cover reading.** Mutagen's tag reading (`MutagenFile`, `FLAC`, `EasyID3`) and the MD5 of cover pictures are parameters. A `probe`/`read` function returns the tags, the picture count and a hash string, or "unreadable".
- **Tag writes.** Which disc-tag writes fail is a parameter: the set of file names whose disc tag stays.
- **Filesystem listings and errors.** These are given as values:
  - `os.walk`, `os.listdir`, `os.path.isdir`/`isfile` and `os.path.exists`;
  - the OS errors of `os.rename`, `shutil.move` and `os.rmdir` that the scripts catch, given as sets of failing names or (sub-folder, file) pairs;
  - a raising listing, given as `None`.
- **The walk itself.** The walk's order and its pruning (`dirnames[:] = []`) are not modelled. Phase 2 receives the list of analysed folders.
- **The flatten prompt.** `input()` and its `EOFError`/`KeyboardInterrupt` handling are the parameter `answer`; a cancelled prompt is the answer `None`.
- **Printing and GUIs.** Console output, the tkinter GUIs, message boxes, the log window, `sys.stdout` redirection and `pyperclip` are not modelled. The model keeps the texts the scripts compute, not the printing of them.
- **The text of exceptions.** The text inside error messages (`{e}`) is a parameter, or is left out.
- **Phase 4 printing.** Sorting the warnings for printing is not modelled; warnings are sets.
- **Phase 3 execution.** The renames themselves are not modelled. `AudioOrganize.ExecutionOrder` gives the sequence of renames, not their effect on the filesystem.
- **Text built-ins.** Whitespace (`\s`, `str.strip()`) follows `str.isspace` on all of Unicode, and the blanks `int()` skips are the `str.isspace` set minus U+001C–U+001F. Only case mapping (`str.lower`/`str.upper`) and digits (`\d`, the digits `int()` reads) are ASCII-only: Unicode case mapping and non-ASCII decimal digits are not modelled.
- **The square root.** `PatternGenerator.IsqrtBounds`: `int(math.sqrt(n))` is modelled as the exact integer square root; floating-point rounding for very large `n` is not modelled.
- **Pattern drawing.** The PIL drawing in `Python/PatternGenerator.py` is not modelled: `generate_irregular_shape`, `draw_tile`, the random palette, the `used_colors` warning and saving the image. The random colour count is the parameter `randomCount`, in 5..12.
- MoveByList.MoveItemsSimple, MoveByList.SelectiveMove, MoveByList.ProcessGroup: exceptions the script does not catch end the run, and are not modelled. These are an `os.makedirs` that raises (Python/MoveFilesByList.py:46, 118 and 163) and an `os.listdir` of a sub-folder that raises (line 131). The caller at lines 319-330 has only a `finally`, so such an error aborts the whole operation. The model assumes they succeed.
- AlbumScan.Metadata, JsonFromFiles.DirEntry, RymFromFiles.Info: a FLAC file without a tag block makes `audio.tags.get` raise `AttributeError` (Python/JSONFromFiles.py:17, RYMFromFiles.py:15). That is outside `except MutagenError`, so it aborts the scan. The model only knows a readable file or a read error, and does not model the abort.
- MoveByList.SelectiveMove: sub-folders are independent keys of the tree, while the script joins header names as paths (Python/MoveFilesByList.py:122-123). A header `a/b` names a folder inside `a`, so moving `a` whole also takes `a/b`, and a later group for `a/b` then finds it missing. A header made only of slashes strips to the empty name, which the script joins to the source folder itself. Neither nesting nor the empty name is modelled.
- MoveByList.MoveItemsSimple, MoveByList.MoveNames: requested names are modelled as entry names of the source folder, while the script joins each one onto the source folder as a path (Python/MoveFilesByList.py:53-56). A listed `disc1/01.flac` finds the nested file there and moves it when the destination has a `disc1` folder, and an absolute name makes `os.path.join` drop the source folder altogether; the model reports both as absent and failed. Names that are paths are not modelled.
- **Moving into an existing destination.** `MoveByList.MoveNames`, `MoveByList.ProcessGroup`: the contents of the destination folder are not tracked, and `shutil.move` into an existing destination is one of the failing moves.
- **Lone surrogates in JSON.** `JsonString.Quote`: a Python `str` may hold a lone surrogate code point, which `json.dumps` writes as one `\u` escape. Dafny's `char` is a Unicode scalar value, so such strings are not modelled.
- **Overwriting renames.** `ArchiveRename.RenameArchive`, `SplitMp3.Line`, `RemoveString.Attempts`: `os.rename` onto an existing file either succeeds or raises according to the failure parameter. The platform's overwrite behaviour is not modelled.
- **Listing order while flattening.** `AudioFlatten.FlattenContainer` tracks the moves as names in the parent folder. The order of `os.listdir` is the given listing order. A raising `os.rename` is a (sub-folder, file) pair in `moveFails`, and a raising `os.rmdir` is a sub-folder in `rmdirFails`. After a failure no later sub-folder is flattened, and the files moved before it stay moved; the model states this as the failure itself and does not describe the partial parent.
