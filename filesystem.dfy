/**
 * The moves the sorter makes, over an abstract file system: a map from
 * the path of each file to its content, and the set of directory paths.
 * A path is the sequence of its components; `[]` is the file-system root.
 */
module FileSystem {
  import opened Chars
  import opened Names
  import opened Transliteration
  import opened Classifier

  type Path = seq<string>
  type Bytes = seq<bv8>

  datatype Option<T> = None | Some(value: T)

  function Parent(p: Path): (parent: Path)
    requires p != []
  {
    p[..|p| - 1]
  }

  /** The last component of a path (`Path.name`). */
  function Name(p: Path): (name: string)
  {
    if p == [] then "" else p[|p| - 1]
  }

  /** The name `move_file` gives a file: its stem normalized, its suffix lower-cased. */
  function TargetName(name: string, u: Unicode): (newName: string)
  {
    Normalized(Stem(name), u) + LowerStr(Suffix(name), u)
  }

  /** `normalize` never emits a dot. */
  lemma NoDotInNormalized(s: string, u: Unicode)
    ensures forall j :: 0 <= j < |Normalized(s, u)| ==> Normalized(s, u)[j] != '.'
  {
    NormalizedAlphabet(s, u);
  }

  /**
   * The new name splits back into the normalized stem and the lower-cased
   * suffix: dots inside the stem became `_`, so the suffix is never
   * ambiguous, provided the stem does not normalize to nothing and
   * lower-casing keeps dots and only dots as dots.
   */
  lemma TargetNameSplits(name: string, u: Unicode)
    requires Normalized(Stem(name), u) != ""
    requires forall k :: 0 <= k < |Suffix(name)| ==> (Lower(Suffix(name)[k], u) == '.' <==> Suffix(name)[k] == '.')
    ensures Split(TargetName(name, u)) == (Normalized(Stem(name), u), LowerStr(Suffix(name), u))
  {
    var n, x := Normalized(Stem(name), u), LowerStr(Suffix(name), u);
    NoDotInNormalized(Stem(name), u);
    if Suffix(name) == "" {
      assert x == "";
      NoDotNoSuffix(n);
      assert n + x == n;
    } else {
      assert forall k :: 1 <= k < |x| ==> x[k] != '.';
      SplitAfterStem(n, x);
    }
  }

  lemma NoDotNoSuffix(t: string)
    requires forall j :: 0 <= j < |t| ==> t[j] != '.'
    ensures Split(t) == (t, "")
  {
    assert !HasSuffix(t);
    assert t + "" == t;
  }

  /** A dotless nonempty stem followed by a suffix splits at the suffix's dot. */
  lemma SplitAfterStem(n: string, x: string)
    requires n != [] && forall j :: 0 <= j < |n| ==> n[j] != '.'
    requires |x| >= 2 && x[0] == '.' && forall k :: 1 <= k < |x| ==> x[k] != '.'
    ensures Split(n + x) == (n, x)
  {
    var t := n + x;
    var i := |n|;
    assert NoDotAfter(t, i) by {
      forall k | i < k < |t|
        ensures t[k] != '.'
      {
        assert t[k] == x[k - i];
      }
    }
    SplitAt(t, i);
    assert t[..i] == n && t[i..] == x;
  }

  /**
   * Where `move_file` puts a file of category `category` under `root`.
   * pathlib drops an empty component, so when the new name is empty the
   * target is the category folder itself.
   */
  function TargetPath(root: Path, category: string, name: string, u: Unicode): (target: Path)
    ensures |root| < |target| && target[..|root| + 1] == root + [category]
    ensures TargetName(name, u) == "" <==> target == root + [category]
    ensures TargetName(name, u) != "" ==> Parent(target) == root + [category] && Name(target) == TargetName(name, u)
  {
    var n := TargetName(name, u);
    if n == "" then root + [category]
    else
      assert (root + [category, n])[..|root| + 1] == root + [category];
      root + [category, n]
  }

  /** Where `unpack_archives` extracts an archive: `root/archives/<stem>`. */
  function ArchiveDestination(root: Path, archive: Path): (dest: Path)
    ensures |dest| == |root| + 2 && dest[..|root|] == root
    ensures Parent(dest) == root + ["archives"] && Name(dest) == Stem(Name(archive))
  {
    root + ["archives", Stem(Name(archive))]
  }

  /** Every entry lies in an existing directory, and no path is both a file and a directory. */
  ghost predicate WellFormed(files: map<Path, Bytes>, dirs: set<Path>)
  {
    && [] in dirs
    && files.Keys !! dirs
    && (forall p :: p in files ==> p != [] && Parent(p) in dirs)
    && (forall p :: p in dirs && p != [] ==> Parent(p) in dirs)
  }

  lemma AddDir(files: map<Path, Bytes>, dirs: set<Path>, d: Path)
    requires WellFormed(files, dirs)
    requires d != [] && d !in files && Parent(d) in dirs
    ensures WellFormed(files, dirs + {d})
  {
  }

  lemma Rename(files: map<Path, Bytes>, dirs: set<Path>, src: Path, dst: Path)
    requires WellFormed(files, dirs)
    requires src in files
    requires dst != [] && dst !in files && dst !in dirs && Parent(dst) in dirs
    ensures WellFormed((files - {src})[dst := files[src]], dirs)
  {
  }

  /** What `move_file` did: moved the file, skipped it, or failed because the category path is a file. */
  datatype MoveOutcome = Moved | Skipped | NotADirectory

  /**
   * What `unpack_archives` did; the extracted entries themselves are not
   * modelled.  `DestinationBlocked` is a file standing where a folder is
   * needed, `UnknownFormat` is `shutil.unpack_archive` refusing a name that
   * does not end in exactly `.zip` or `.tar`.
   */
  datatype UnpackOutcome = Unpacked | ArchiveMissing | DestinationBlocked | UnknownFormat

  /** What `move_file` does to `file` with category `category` in the given state. */
  function MoveVerdictFor(files: map<Path, Bytes>, dirs: set<Path>, file: Path, category: string, root: Path, u: Unicode): (outcome: MoveOutcome)
  {
    var target := TargetPath(root, category, Name(file), u);
    // an empty new name makes the target the category folder, which exists by now
    if TargetName(Name(file), u) == "" then Skipped
    else if root + [category] in files then NotADirectory
    else if target in files || target in dirs then Skipped
    else Moved
  }

  /** What `move_file` does to `file` under the category the classifier gives it. */
  function MoveVerdict(files: map<Path, Bytes>, dirs: set<Path>, file: Path, root: Path, u: Unicode): (outcome: MoveOutcome)
  {
    MoveVerdictFor(files, dirs, file, Category(Name(file), u), root, u)
  }

  /** The directories once `move_file` has made sure `root/category` exists. */
  function MoveDirs(files: map<Path, Bytes>, dirs: set<Path>, root: Path, category: string): (dirs': set<Path>)
  {
    if root + [category] in files then dirs else dirs + {root + [category]}
  }

  /** The file map once `move_file` has renamed `file` to `target`. */
  function Renamed(files: map<Path, Bytes>, file: Path, target: Path): (files': map<Path, Bytes>)
    requires file in files
  {
    (files - {file})[target := files[file]]
  }

  /** `shutil.unpack_archive` picks its unpacker by the literal, case-sensitive end of the name. */
  predicate KnownArchiveFormat(name: string)
  {
    |name| >= 4 && name[|name| - 4..] in [".zip", ".tar"]
  }

  /** The directories once `unpack_archives` has created `root/archives/<stem>` with its parents. */
  function ExtractDirs(files: map<Path, Bytes>, dirs: set<Path>, root: Path, archive: Path): (dirs': set<Path>)
  {
    var dest := ArchiveDestination(root, archive);
    // `mkdir(parents=True)` fails below a file
    if dest in files || dest in dirs || root + ["archives"] in files then dirs
    else dirs + {root + ["archives"], dest}
  }

  /**
   * What `unpack_archives` does with `archive` in the given state: `mkdir`
   * fails first; then `shutil.unpack_archive` picks the format by name,
   * opens the archive, and only then writes below the destination.
   */
  function UnpackVerdict(files: map<Path, Bytes>, dirs: set<Path>, archive: Path, root: Path): (outcome: UnpackOutcome)
  {
    var dest := ArchiveDestination(root, archive);
    if dest !in files && dest !in dirs && root + ["archives"] in files then DestinationBlocked
    else if !KnownArchiveFormat(Name(archive)) then UnknownFormat
    else if archive !in files then ArchiveMissing
    else if dest in files then DestinationBlocked
    else Unpacked
  }

  /** `shutil` refuses an unknown ending before it looks at the archive or the destination. */
  lemma FormatBeforeDestination(files: map<Path, Bytes>, dirs: set<Path>, archive: Path, root: Path)
    requires root + ["archives"] !in files
    requires !KnownArchiveFormat(Name(archive))
    ensures UnpackVerdict(files, dirs, archive, root) == UnknownFormat
  {
  }

  /** A missing archive is reported before a file standing at the destination. */
  lemma MissingBeforeDestination(files: map<Path, Bytes>, dirs: set<Path>, archive: Path, root: Path)
    requires root + ["archives"] !in files
    requires KnownArchiveFormat(Name(archive)) && archive !in files
    ensures UnpackVerdict(files, dirs, archive, root) == ArchiveMissing
  {
  }

  /** Creating the extraction folders does not change what a move does. */
  lemma VerdictAfterExtraction(files: map<Path, Bytes>, dirs: set<Path>, dirs': set<Path>, file: Path, root: Path, u: Unicode)
    requires dirs <= dirs' <= dirs + {root + ["archives"], ArchiveDestination(root, file)}
    ensures MoveVerdict(files, dirs', file, root, u) == MoveVerdict(files, dirs, file, root, u)
  {
    CategoryIsNotArchivesDir(Name(file), u);
    MoveAvoidsExtraction(root, Category(Name(file), u), Name(file), file, u);
  }

  /** A file sits where `unpack_archives` needs a directory. */
  predicate ExtractionBlocked(files: map<Path, Bytes>, root: Path, archive: Path)
  {
    root + ["archives"] in files || ArchiveDestination(root, archive) in files
  }

  /** No category folder is the folder `archives` that extraction uses. */
  lemma CategoryIsNotArchivesDir(name: string, u: Unicode)
    ensures Category(name, u) != "archives"
  {
  }

  /** The paths a move touches are never the paths extraction touches. */
  lemma MoveAvoidsExtraction(root: Path, category: string, name: string, archive: Path, u: Unicode)
    requires category != "archives"
    ensures var target := TargetPath(root, category, name, u);
      && target != ArchiveDestination(root, archive) && target != root + ["archives"]
      && root + [category] != ArchiveDestination(root, archive) && root + [category] != root + ["archives"]
  {
    var target := TargetPath(root, category, name, u);
    var dest := ArchiveDestination(root, archive);
    assert target[|root|] == target[..|root| + 1][|root|] == category;
    assert dest[|root|] == Parent(dest)[|root|] == "archives";
    assert (root + [category])[|root|] == category;
    assert (root + ["archives"])[|root|] == "archives";
  }

  /**
   * Under a well-formed tree the extraction verdict reads the file at
   * `root/archives`, the format, and then the file at the destination.
   */
  lemma UnpackVerdictWhenPresent(files: map<Path, Bytes>, dirs: set<Path>, archive: Path, root: Path)
    requires WellFormed(files, dirs)
    requires archive in files
    ensures UnpackVerdict(files, dirs, archive, root) ==
      if root + ["archives"] in files then DestinationBlocked
      else if !KnownArchiveFormat(Name(archive)) then UnknownFormat
      else if ArchiveDestination(root, archive) in files then DestinationBlocked
      else Unpacked
  {
    var dest := ArchiveDestination(root, archive);
    if root + ["archives"] in files {
      assert Parent(dest) == root + ["archives"];
      assert dest !in files && dest !in dirs;
    }
  }

  /** Once the archive has moved, extraction from its old path finds nothing there. */
  lemma ExtractionAfterMove(files: map<Path, Bytes>, dirs: set<Path>, file: Path, target: Path, root: Path)
    requires file in files && target !in files
    requires target != ArchiveDestination(root, file) && target != root + ["archives"]
    requires root + ["archives"] !in files && KnownArchiveFormat(Name(file))
    ensures UnpackVerdict(Renamed(files, file, target), dirs, file, root) == ArchiveMissing
  {
  }

  class FileSystem {
    var files: map<Path, Bytes>
    var dirs: set<Path>

    ghost predicate Valid()
      reads this
    {
      WellFormed(files, dirs)
    }

    /** `Path.exists()`. */
    predicate Exists(p: Path)
      reads this
    {
      p in files || p in dirs
    }

    constructor (files: map<Path, Bytes>, dirs: set<Path>)
      requires WellFormed(files, dirs)
      ensures Valid()
      ensures this.files == files && this.dirs == dirs
    {
      this.files := files;
      this.dirs := dirs;
    }

    /**
     * `move_file(file, category, root)`: create `root/category` when it does
     * not exist, then rename the file to `TargetPath` unless something is
     * already there.
     */
    method MoveFile(file: Path, category: string, root: Path, u: Unicode) returns (target: Path, outcome: MoveOutcome)
      requires Valid()
      requires file in files
      requires root in dirs
      modifies this
      ensures Valid()
      ensures target == TargetPath(root, category, Name(file), u)
      ensures dirs == MoveDirs(old(files), old(dirs), root, category)
      ensures outcome == NotADirectory <==> root + [category] in old(files) && TargetName(Name(file), u) != ""
      ensures outcome == Skipped <==>
        TargetName(Name(file), u) == "" || (root + [category] !in old(files) && old(Exists(target)))
      ensures outcome == Moved ==> files == Renamed(old(files), file, target)
      ensures outcome != Moved ==> files == old(files)
      ensures outcome == MoveVerdictFor(old(files), old(dirs), file, category, root, u)
    {
      var targetDir := root + [category];
      assert Parent(targetDir) == root;
      MakeDirIfMissing(targetDir);
      target := TargetPath(root, category, Name(file), u);
      if TargetName(Name(file), u) != "" {
        assert Parent(target) == targetDir;
      }
      outcome := RenameIfFree(file, target);
    }

    /** `if not d.exists(): d.mkdir()`, for a folder whose parent exists. */
    method MakeDirIfMissing(d: Path)
      requires Valid()
      requires d != [] && Parent(d) in dirs
      modifies this
      ensures Valid()
      ensures files == old(files)
      ensures dirs == if d in old(files) then old(dirs) else old(dirs) + {d}
    {
      if !Exists(d) {
        AddDir(files, dirs, d);
        dirs := dirs + {d};
      }
    }

    /**
     * `if not new_path.exists(): file.rename(new_path)`.  Below a file
     * `exists()` is false and the rename fails.
     */
    method RenameIfFree(file: Path, target: Path) returns (outcome: MoveOutcome)
      requires Valid()
      requires file in files
      requires target != [] && (Parent(target) in dirs || Parent(target) in files)
      modifies this
      ensures Valid()
      ensures dirs == old(dirs)
      ensures outcome == if old(Exists(target)) then Skipped else if Parent(target) in old(files) then NotADirectory else Moved
      ensures outcome == Moved ==> files == Renamed(old(files), file, target)
      ensures outcome != Moved ==> files == old(files)
    {
      if Exists(target) {
        outcome := Skipped;
      } else if Parent(target) in files {
        outcome := NotADirectory;
      } else {
        Rename(files, dirs, file, target);
        files := Renamed(files, file, target);
        outcome := Moved;
      }
    }

    /**
     * `unpack_archives(archive, root)`: create `root/archives/<stem>` with
     * its missing parents, then extract the archive into it.
     */
    method UnpackArchive(archive: Path, root: Path) returns (dest: Path, outcome: UnpackOutcome)
      requires Valid()
      requires root in dirs
      modifies this
      ensures Valid()
      ensures dest == ArchiveDestination(root, archive)
      ensures files == old(files)
      ensures dirs == ExtractDirs(old(files), old(dirs), root, archive)
      ensures outcome == UnpackVerdict(old(files), old(dirs), archive, root)
      ensures outcome == Unpacked ==> archive in files && dest in dirs
    {
      var parent := root + ["archives"];
      dest := parent + [Stem(Name(archive))];
      assert Parent(dest) == parent && Parent(parent) == root;
      if !Exists(dest) {
        if parent in files {
          // `mkdir(parents=True)` fails below a file
          return dest, DestinationBlocked;
        }
        dirs := dirs + {parent, dest};
      }
      if !KnownArchiveFormat(Name(archive)) {
        outcome := UnknownFormat;
      } else if archive !in files {
        outcome := ArchiveMissing;
      } else if dest in files {
        // the entries cannot be written below a file
        outcome := DestinationBlocked;
      } else {
        outcome := Unpacked;
      }
    }

    /**
     * The walk's treatment of one file, as written: classify, move, and for
     * a `.zip` or `.tar` extract from the path the file had BEFORE the move.
     * A failed move raises, so nothing is extracted after it.
     */
    method SortFileAsWritten(file: Path, root: Path, u: Unicode) returns (moved: MoveOutcome, unpacked: Option<UnpackOutcome>)
      requires Valid()
      requires file in files
      requires root in dirs
      modifies this
      ensures Valid()
      ensures moved == MoveVerdict(old(files), old(dirs), file, root, u)
      ensures files == if moved == Moved then Renamed(old(files), file, TargetPath(root, Category(Name(file), u), Name(file), u)) else old(files)
      ensures unpacked.Some? <==> moved != NotADirectory && IsArchiveTrigger(Name(file), u)
      ensures var dirs1 := MoveDirs(old(files), old(dirs), root, Category(Name(file), u));
        && dirs == (if unpacked.Some? then ExtractDirs(files, dirs1, root, file) else dirs1)
        && (unpacked.Some? ==> unpacked.value == UnpackVerdict(files, dirs1, file, root))
      ensures moved == Moved && IsArchiveTrigger(Name(file), u) ==> unpacked.Some? && unpacked.value != Unpacked
      ensures moved == Moved && IsArchiveTrigger(Name(file), u) && KnownArchiveFormat(Name(file)) && root + ["archives"] !in old(files) ==>
        unpacked == Some(ArchiveMissing)
      ensures moved == Skipped && IsArchiveTrigger(Name(file), u) ==>
        unpacked == Some(if root + ["archives"] in old(files) then DestinationBlocked
                         else if !KnownArchiveFormat(Name(file)) then UnknownFormat
                         else if ArchiveDestination(root, file) in old(files) then DestinationBlocked
                         else Unpacked)
    {
      var category := GetCategories(Name(file), u);
      CategoryIsNotArchivesDir(Name(file), u);
      MoveAvoidsExtraction(root, category, Name(file), file, u);
      var target;
      target, moved := MoveFile(file, category, root, u);
      unpacked := None;
      if moved != NotADirectory && IsArchiveTrigger(Name(file), u) {
        assert moved == Moved ==> file !in files;
        if moved == Moved && KnownArchiveFormat(Name(file)) && root + ["archives"] !in old(files) {
          ExtractionAfterMove(old(files), dirs, file, target, root);
        }
        if moved == Skipped {
          UnpackVerdictWhenPresent(files, dirs, file, root);
        }
        var dest, outcome := UnpackArchive(file, root);
        unpacked := Some(outcome);
      }
    }

    /**
     * The walk's treatment of one file with the extraction done while the
     * archive is still where the walk found it, and the move after it.  A
     * failed extraction raises, so the file is then not moved.
     */
    method SortFile(file: Path, root: Path, u: Unicode) returns (unpacked: Option<UnpackOutcome>, moved: Option<MoveOutcome>)
      requires Valid()
      requires file in files
      requires root in dirs
      modifies this
      ensures Valid()
      ensures unpacked.Some? <==> IsArchiveTrigger(Name(file), u)
      ensures unpacked.Some? ==> unpacked.value == UnpackVerdict(old(files), old(dirs), file, root)
      ensures unpacked != Some(ArchiveMissing)
      ensures IsArchiveTrigger(Name(file), u) && KnownArchiveFormat(Name(file)) && !ExtractionBlocked(old(files), root, file) ==>
        unpacked == Some(Unpacked)
      ensures moved.Some? <==> unpacked == None || unpacked == Some(Unpacked)
      ensures moved.Some? ==> moved.value == MoveVerdict(old(files), old(dirs), file, root, u)
      ensures files == if moved == Some(Moved) then Renamed(old(files), file, TargetPath(root, Category(Name(file), u), Name(file), u)) else old(files)
      ensures var dirs1 := if unpacked.Some? then ExtractDirs(old(files), old(dirs), root, file) else old(dirs);
        dirs == if moved.Some? then MoveDirs(old(files), dirs1, root, Category(Name(file), u)) else dirs1
      ensures unpacked == Some(Unpacked) ==> ArchiveDestination(root, file) in dirs
    {
      unpacked := None;
      ghost var files0, dirs0 := files, dirs;
      if IsArchiveTrigger(Name(file), u) {
        UnpackVerdictWhenPresent(files, dirs, file, root);
        var dest, outcome := UnpackArchive(file, root);
        unpacked := Some(outcome);
        if outcome != Unpacked {
          return unpacked, None;
        }
      }
      VerdictAfterExtraction(files0, dirs0, dirs, file, root, u);
      var category := GetCategories(Name(file), u);
      var target, outcome := MoveFile(file, category, root, u);
      moved := Some(outcome);
    }

    /** The rescan in `main`: the lower-cased suffix of every file the listing holds. */
    method ExtensionsFound(listing: seq<Path>, u: Unicode) returns (found: set<string>)
      ensures found == set p | p in listing && p in files :: LowerStr(Suffix(Name(p)), u)
    {
      found := {};
      for i := 0 to |listing|
        invariant found == set p | p in listing[..i] && p in files :: LowerStr(Suffix(Name(p)), u)
      {
        assert listing[..i + 1] == listing[..i] + [listing[i]];
        if listing[i] in files {
          found := found + {LowerStr(Suffix(Name(listing[i])), u)};
        }
      }
      assert listing[..|listing|] == listing;
    }
  }
}
