# HM_06 file sorter: a Dafny model of its naming and category rules

The sorter walks a folder tree. It moves every file into a category folder
under the folder being sorted, chosen by the file's extension. It transliterates
Ukrainian Cyrillic names into Latin letters, is meant to extract `.zip` and
`.tar` archives into `root/archives/<stem>`, and finally reports which extensions
it found that no category covers. This project models the rules that drive
that walk:

- **Transliteration** (`transliteration.dfy`): the table `cyrillic_to_latin` and
  `normalize`. `Normalize` is the accumulator loop. `Normalized` is the recursive
  function that specifies it.
- **Classifier** (`classifier.dfy`): the ordered table `CATEGORIES`. `Classify`
  is the first-match scan. `GetCategories` is `get_categories`, and `ScanCategories` its loop with the
  early return.
  The archive test of line 71 is here too.
- **Names** (`names.dfy`): the stem/suffix split of a file name, by pathlib's
  rule. The suffix starts at the last dot, unless that dot is the first or
  the last character.
- **File system** (`filesystem.dfy`): a class with the map `files` (path to
  content) and the set `dirs`. Its methods are `move_file`, the destination
  logic and the failures of `unpack_archives`, the per-file step of the walk, and the rescan
  that collects extensions. A path is a sequence of components.
- **Report** (`report.dfy`): the union of all table extensions and the set of
  unknown extensions.
- **Chars** (`chars.dfy`): `str.lower`, `str.upper`, `str.isupper` and
  `str.isalnum`. They are written out for ASCII and for the Cyrillic letters
  U+0400..U+045F and U+0490..U+0491. For every other character they defer
  to a `Unicode` value, which is a parameter of every operation. So each
  property holds whatever Python answers for those characters.
- **Scenarios** (`scenarios.dfy`): facts proved about the model on small
  concrete trees.

Four behaviours of the code worth knowing:

- An upper-case letter whose lower case is a table key gets its whole value
  upper-cased ('Щ' becomes "SHCH"), not only the first letter.
- The output is not ASCII-only. Alphanumeric characters that are not in the
  table, such as 'ы' or 'ё', pass through unchanged.
- In this table the "Archives" category lists only `.zip` and `.tar`. So the
  extraction trigger matches exactly that category; it is not narrower.
- Category folders are not only created directly under the original root.
  `sort_folder` calls itself on each subfolder (script.py:74), and inside
  that call the subfolder is the root of the per-file step. So
  `/root/sub/a.mp3` is first moved to `/root/sub/Audio/a.mp3`. The model's
  `root` parameter stands for whichever folder is being sorted.

## Model

| member | source | states |
|---|---|---|
| `Chars.Lower` | script.py:54 | ASCII capitals go to the small letter 32 code points higher, Cyrillic capitals to a Cyrillic small letter, and other charted characters stay the same |
| `Chars.LowerOfUpper` | script.py:15 | lower-casing undoes `upper()`: `LowerStr(UpperStr(s)) == LowerStr(s)` for every string |
| `Chars.CyrillicUpper` | script.py:54-55 | for each Cyrillic small letter, a capital whose `lower()` is that letter and which `isupper()` |
| `Transliteration.TableShape` | script.py:42-48 | every key is a Cyrillic small letter and every value consists of ASCII small letters |
| `Transliteration.Normalize` | script.py:51-63 | the loop that grows `result` returns exactly `Normalized(s)` |
| `Transliteration.SmallKey` | script.py:57-58 | a small-letter key becomes exactly its table value |
| `Transliteration.UpperRoundTrip` | script.py:56 | the upper-cased value of a key lower-cases back to the value itself |
| `Transliteration.CapitalKey` | script.py:55-56 | the capital of a key becomes the whole value upper-cased |
| `Transliteration.CapitalExamples` | script.py:43-58 | 'Ж' gives "ZH", 'Щ' gives "SHCH" and 'Є' gives "IE"; 'ь' and 'Ь' give nothing |
| `Transliteration.TranslateWidth` | script.py:54-62 | one character contributes its table value's length, or 1 |
| `Transliteration.NormalizedEmpty` | script.py:52 | the empty string normalizes to the empty string |
| `Transliteration.NormalizedSingle` | script.py:53-63 | a one-character string normalizes to that character's translation |
| `Transliteration.Compose` | script.py:52-63 | `Normalized(a + b) == Normalized(a) + Normalized(b)` |
| `Transliteration.InContext` | script.py:53-63 | a character's translation lands between the normalized left and right parts |
| `Transliteration.PlainCharacter` | script.py:59-62 | a character that is not a key after lower-casing is copied when alphanumeric, and otherwise becomes exactly one `_` |
| `Transliteration.NormalizedLength` | script.py:52-63 | the output length is the sum of the per-character widths |
| `Transliteration.TranslateAlphabet` | script.py:54-62 | each character of one translation is an ASCII letter, `_`, or the alphanumeric non-key character itself |
| `Transliteration.NormalizedAlphabet` | script.py:52-63 | each output character is an ASCII letter, `_`, or an alphanumeric non-key character of the input |
| `Transliteration.OutputCharFixed` | script.py:54-62 | every character `normalize` can output translates to itself |
| `Transliteration.AllFixed` | script.py:52-63 | a string made of such characters normalizes to itself |
| `Transliteration.Idempotent` | script.py:51-63 | `Normalized(Normalized(s)) == Normalized(s)` |
| `Transliteration.AsciiAlnumUnchanged` | script.py:59-60 | a name made only of ASCII letters and digits is its own normal form |
| `Transliteration.NotAsciiOnly` | script.py:59-60 | "ы" and "ё" normalize to themselves, so the output need not be ASCII |
| `Transliteration.Example` | script.py:42-63 | "Привіт" normalizes to "Privit" (built up one character at a time by `ExampleCapital` … `ExamplePrivi`) |
| `Transliteration.Step` | script.py:57-58 | appending a small-letter key to a normalized prefix appends its value |
| `Names.LastDot` | script.py:15 | the position of the last dot, with no dot after it, or -1 |
| `Names.Split` | script.py:26 | `stem + suffix == name`; the suffix is empty exactly when no dot strictly inside the name is the last dot; otherwise it starts with a dot, has no other dot, and the stem is not empty |
| `Names.LastDotAt` | script.py:15 | a dot with no dot after it is the last dot |
| `Names.SplitAt` | script.py:26 | a last dot strictly inside the name splits it there |
| `Classifier.LabelsAreNotOther` | script.py:5-11 | no category label is "Other" |
| `Classifier.ClassifyFrom` | script.py:16-19 | scanning from position `i` gives "Other" exactly when no later category lists the extension, and otherwise the label of the first one that does |
| `Classifier.Classify` | script.py:16-19 | "Other" exactly when no category lists the extension; otherwise the label of the first category, in table order, that lists it |
| `Classifier.GetCategories` | script.py:14-19 | the function `get_categories` gives `Classify` of the lower-cased suffix |
| `Classifier.ScanCategories` | script.py:16-19 | the loop over the table with its early return gives exactly `Classify(ext)` |
| `Classifier.ListsDisjoint` | script.py:5-11 | no extension is listed by two categories |
| `Classifier.FirstIsUnique` | script.py:16-18 | the first category listing an extension is the result |
| `Classifier.ClassifyListed` | script.py:16-18 | an extension listed by a category gets that category |
| `Classifier.ClassifyRange` | script.py:16-19 | the result is a table label or "Other" |
| `Classifier.LastDotUpToCase` | script.py:15 | names equal up to case, dot for dot, have their last dot at the same place |
| `Classifier.LowerTailsUpToCase` | script.py:15 | such names agree once lower-cased from any position |
| `Classifier.LowerSuffixUpToCase` | script.py:15 | such names have the same lower-cased suffix |
| `Classifier.CaseInsensitive` | script.py:15-19 | names that differ only in case get the same category |
| `Classifier.SuffixCaseInsensitive` | script.py:15-19 | names whose suffixes differ only in case get the same category, whatever their stems |
| `Classifier.UpperCaseName` | script.py:15-19 | upper-casing a name's ASCII letters keeps its category |
| `Classifier.AudioExample` | script.py:6-18 | "song.MP3" is Audio |
| `Classifier.OtherExample` | script.py:15-19 | "notes.xyz" is Other |
| `Classifier.NoSuffixExample` | script.py:15-19 | "README", which has no suffix, is Other |
| `Classifier.ArchiveTriggerIsArchives` | script.py:71 | the `.zip`/`.tar` trigger fires exactly for names classified as "Archives" |
| `Classifier.ArchivesListsTriggers` | script.py:10 | a lower-cased extension is `.zip` or `.tar` exactly when it classifies as "Archives" |
| `Report.KnownFrom` | script.py:98 | the union of the lists from position `i` on holds exactly the extensions those categories list |
| `Report.KnownExtensions` | script.py:98 | `known_extensions` holds exactly the extensions some category lists |
| `Report.KnownIffClassified` | script.py:98 | an extension is known exactly when it does not classify as "Other" |
| `Report.Summarize` | script.py:98-99 | the unknown set is a subset of the found set and disjoint from the known set; a found extension is unknown exactly when it classifies as "Other"; the known line is the whole table union |
| `Report.KnownLineFixed` | script.py:102 | the known line does not depend on what was found |
| `Report.UnknownMonotone` | script.py:99 | finding more extensions never removes an unknown one |
| `Report.UnknownExample` | script.py:93-99 | finding `.xyz` and `.mp3` reports only `.xyz` as unknown |
| `FileSystem.NoDotInNormalized` | script.py:59-62 | `normalize` never emits a dot |
| `FileSystem.TargetNameSplits` | script.py:26 | the new name splits back into the normalized stem and the lower-cased suffix, provided the stem does not normalize to nothing |
| `FileSystem.NoDotNoSuffix` | script.py:26 | a dotless name has no suffix |
| `FileSystem.SplitAfterStem` | script.py:26 | a dotless stem followed by a suffix splits at the suffix |
| `FileSystem.TargetPath` | script.py:23-27 | the target lies under `root/category`; it is `root/category` itself exactly when the new name is empty (pathlib drops an empty component), and otherwise the entry of that folder with the new name |
| `FileSystem.ArchiveDestination` | script.py:33-34 | the destination is the entry `<stem>` of the folder `root/archives` |
| `FileSystem.AddDir` | script.py:24-25 | `mkdir` inside an existing directory keeps the tree well formed |
| `FileSystem.Rename` | script.py:29 | renaming a file to a free place inside an existing directory keeps the tree well formed |
| `FileSystem.CategoryIsNotArchivesDir` | script.py:34 | no category folder is the `archives` folder extraction uses |
| `FileSystem.MoveAvoidsExtraction` | script.py:23-34 | the category folder and the move target are never the extraction folders |
| `FileSystem.VerdictAfterExtraction` | script.py:34-37 | creating the extraction folders does not change what a move does |
| `FileSystem.FormatBeforeDestination` | script.py:36-39 | unless `mkdir` fails, a name `shutil` does not recognize is refused as of unknown format, whatever stands at the destination |
| `FileSystem.MissingBeforeDestination` | script.py:36-39 | unless `mkdir` fails, a recognized but missing archive is reported missing, whatever stands at the destination |
| `FileSystem.UnpackVerdictWhenPresent` | script.py:36-39 | with the archive in place, extraction fails on a file at `root/archives`, then on an unknown ending, then on a file at the destination, and otherwise succeeds |
| `FileSystem.ExtractionAfterMove` | script.py:29-39 | once the archive has been renamed away, extraction from its old path finds the archive missing, however free the destination is |
| `FileSystem.FileSystem.MoveFile` | script.py:22-29 | the target is `root/category/normalize(stem)+lower(suffix)`, or `root/category` itself when that name is empty; the category folder is created unless a file stands there; an empty new name or an occupied target skips the move; a category path that is a file fails; in both cases the file map is unchanged; otherwise exactly the source entry is removed and the target added with its content |
| `FileSystem.FileSystem.MakeDirIfMissing` | script.py:24-25 | the folder is added unless a file stands at that path; the file map is unchanged |
| `FileSystem.FileSystem.RenameIfFree` | script.py:28-29 | a taken target skips the rename; a target below a file fails; otherwise exactly the source entry is removed and the target added with its content; the directory set is unchanged |
| `FileSystem.FileSystem.UnpackArchive` | script.py:32-39 | the destination is `root/archives/<stem>` and is created with its parent when missing; a file at `root/archives` makes `mkdir` fail; after that a name `shutil` does not recognize by its exact ending fails, then a missing archive, then a file at the destination; the file map is unchanged |
| `FileSystem.FileSystem.SortFileAsWritten` | script.py:68-72 | classify, move, then extract from the pre-move path; the new file map and directory set follow the move and then the extraction; after a successful move of an archive extraction never succeeds, and finds the archive missing unless `mkdir` fails or the format is unknown; after a skipped move extraction succeeds unless blocked or of unknown format |
| `FileSystem.FileSystem.SortFile` | script.py:68-72 | extract while the archive is still in place, then move; the new file map and directory set follow the extraction and then the move; extraction never finds the archive missing, and succeeds when nothing blocks it and the format is known; the move happens after a successful extraction, and a successful extraction leaves its folder in place |
| `FileSystem.FileSystem.ExtensionsFound` | script.py:93-96 | the rescan collects exactly the lower-cased suffixes of the listed paths that are files |
| `Scenarios.SongTarget` | script.py:26 | "song.MP3" is renamed "song.mp3" |
| `Scenarios.DataArchive` | script.py:71 | "data.zip" triggers extraction, keeps its name, has stem "data", and has an ending `shutil` recognizes |
| `Scenarios.SoftSignStem` | script.py:26 | "ь.mp3" is renamed ".mp3", a name whose suffix is empty |
| `Scenarios.SoftSignName` | script.py:26 | "ь" is renamed to the empty name |
| `Scenarios.SoftSignOnly` | script.py:22-29 | `/root/ь` stays where it is: the move is skipped and the file map is unchanged |
| `Scenarios.DataTargets` | script.py:23-27 | `/root/data.zip` is Archives and its target is `/root/Archives/data.zip` |
| `Scenarios.ArchiveMoves` | script.py:22-29 | an archive whose target in a free `root/Archives` is not taken is moved |
| `Scenarios.DataVerdict` | script.py:22-29 | in the tree holding only `/root/data.zip`, the move succeeds |
| `Scenarios.DataExtraction` | script.py:33-37 | `/root/data.zip` is extracted into `/root/archives/data`, which is created whether or not the archive has moved |
| `Scenarios.DataMoved` | script.py:29 | after the move the file map holds only `/root/Archives/data.zip` |
| `Scenarios.MoveSong` | script.py:22-29 | `/root/song.MP3` moves to `/root/Audio/song.mp3` and is gone from its old place |
| `Scenarios.SongCollision` | script.py:27-29 | with `/root/Audio/song.mp3` present, the move is skipped and the tree is unchanged |
| `Scenarios.ArchiveAsWritten` | script.py:69-72 | for `/root/data.zip` the move succeeds, the extraction folder `/root/archives/data` is created, and the extraction finds the archive missing; the archive ends up at `/root/Archives/data.zip` |
| `Scenarios.ArchiveCorrected` | script.py:69-72 | with extraction first, both the extraction and the move succeed; the archive ends up at `/root/Archives/data.zip` and `/root/archives/data` exists |

## Left out

- The tree walk `sort_folder` (script.py:66-78) is not modelled. It renames entries while a lazy `glob("**/*")` is still listing the same tree. So its order and the set of entries it visits depend on how pathlib iterates. The model provides the per-file step (`SortFileAsWritten`) and leaves the walk out. Its recursive call on a subfolder (script.py:74) runs that step with the subfolder as the root.
- Directory renaming (script.py:75-78) is part of that walk and is left out with it. Renaming a directory would move every entry below it.
- UnpackArchive: does not add the extracted entries to `files`, and does not model a corrupt archive. It reports a file at the destination as blocking even for an archive with no entries, which `shutil` would extract into nothing without an error. `shutil.unpack_archive` is a foreign archive library. The model keeps only its choice of unpacker by the exact, case-sensitive ending of the name: `DATA.ZIP` triggers extraction at script.py:71 but is then refused as an unknown archive format. Of the endings `shutil` knows, only `.zip` and `.tar` are modelled, since script.py:71 lets no other suffix through.
- Command-line handling (script.py:81-88) is left out: reading `sys.argv`, the two error strings, and `print`. The text formatting of the report lines (script.py:101-103) is left out too, since Python does not fix a set's printed order.
- File-system failures other than a file standing where a directory is needed are not modelled: permissions, full disks, moves across devices, symbolic links. The model's paths are case-sensitive. On a case-insensitive file system `Archives` and `archives` are one folder, and the model does not capture that.
- MoveFile and UnpackArchive: require the root to be an existing directory. At script.py:87 `main` checks only that the path exists. A root that is a file passes that check, but it is harmless: pathlib's `glob` lists nothing below a file, so the walk never calls either function.
- Python's Unicode tables are represented only by the `Unicode` parameter for characters outside ASCII and the charted Cyrillic block. Lower-casing is taken to map one character to one character. Python's multi-character lower-casings, such as that of 'İ', are not modelled. Lower-casing is also taken to be context-free. Python's `str.lower` lowers a capital sigma at the end of a word to the final form ('ΑΣ'.lower() is 'ας'), and `LowerStr` does not.
- `Names.Split` follows pathlib's classic suffix rule. A dot that is the first or last character of the name does not start a suffix. Newer Python versions may treat a trailing dot differently.

## Findings

| source | as written | input that shows it | evidently intended | confidence | as-written member | corrected member |
|---|---|---|---|---|---|---|
| script.py:70-72 | `move_file` renames the archive, and then `unpack_archives` is given the path the archive had before the move, which no longer exists | a tree holding only `/root/data.zip`: it moves to `/root/Archives/data.zip`, and extraction then reads `/root/data.zip`, which is missing | the archive is extracted into `/root/archives/data`, and the archive itself ends up in `/root/Archives/data.zip` | high, not executed | `FileSystem.FileSystem.SortFileAsWritten` (shown by `Scenarios.ArchiveAsWritten`) | `FileSystem.FileSystem.SortFile` (shown by `Scenarios.ArchiveCorrected`) |
