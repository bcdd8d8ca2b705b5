/**
 * Facts proved about the sorter's per-file step on small trees under
 * `/root`: a move, a collision, a name that normalizes to nothing, and an
 * archive.
 */
module Scenarios {
  import opened Chars
  import opened Names
  import opened Transliteration
  import opened Classifier
  import opened FileSystem

  /** "song.MP3" keeps its stem and gets its suffix in small letters. */
  lemma SongTarget(u: Unicode)
    ensures TargetName("song.MP3", u) == "song.mp3"
  {
    SplitAt("song.MP3", 4);
    assert "song.MP3"[..4] == "song" && "song.MP3"[4..] == ".MP3";
    assert Stem("song.MP3") == "song" && Suffix("song.MP3") == ".MP3";
    AsciiAlnumUnchanged("song", u);
    assert LowerStr(".MP3", u) == ".mp3";
    assert "song" + ".mp3" == "song.mp3";
  }

  /** "data.zip" triggers extraction, keeps its name, and `shutil` recognizes it as a zip archive. */
  lemma DataArchive(u: Unicode)
    ensures IsArchiveTrigger("data.zip", u)
    ensures TargetName("data.zip", u) == "data.zip"
    ensures Stem("data.zip") == "data"
    ensures KnownArchiveFormat("data.zip")
  {
    SplitAt("data.zip", 4);
    assert "data.zip"[..4] == "data" && "data.zip"[4..] == ".zip";
    assert Stem("data.zip") == "data" && Suffix("data.zip") == ".zip";
    assert LowerStr(".zip", u) == ".zip";
    AsciiAlnumUnchanged("data", u);
    assert "data" + ".zip" == "data.zip";
  }

  /** A stem made only of soft signs normalizes to nothing, and the moved file loses its suffix. */
  lemma SoftSignStem(u: Unicode)
    ensures TargetName("ь.mp3", u) == ".mp3"
    ensures Suffix(".mp3") == ""
  {
    SplitAt("ь.mp3", 1);
    NormalizedSingle('ь', u);
    SmallKey('ь', u);
    assert LowerStr(".mp3", u) == ".mp3";
    assert LastDot(".mp3") == 0 by { LastDotAt(".mp3", 0); }
  }

  /** A tree holding one file directly under `/root`. */
  lemma TreeUnderRoot(files: map<Path, Bytes>, name: string)
    requires files.Keys == {["root", name]}
    ensures WellFormed(files, {[], ["root"]})
  {
    assert Parent(["root", name]) == ["root"];
    assert Parent(["root"]) == [];
  }

  lemma SongPaths(u: Unicode, files: map<Path, Bytes>, dirs: set<Path>)
    requires ["root", "Audio"] !in files
    ensures var song: Path := ["root", "song.MP3"];
      && TargetPath(["root"], Category(Name(song), u), Name(song), u) == ["root", "Audio", "song.mp3"]
      && MoveVerdictFor(files, dirs, song, Category(Name(song), u), ["root"], u) ==
         (if ["root", "Audio", "song.mp3"] in files || ["root", "Audio", "song.mp3"] in dirs then Skipped else Moved)
  {
    var song: Path := ["root", "song.MP3"];
    AudioExample(u);
    SongTarget(u);
    assert Name(song) == "song.MP3";
    assert ["root"] + ["Audio"] == ["root", "Audio"];
  }

  /** `/root/song.MP3` moves to `/root/Audio/song.mp3`. */
  method MoveSong(u: Unicode) returns (outcome: MoveOutcome, files: map<Path, Bytes>)
    ensures outcome == Moved
    ensures ["root", "Audio", "song.mp3"] in files && ["root", "song.MP3"] !in files
  {
    var song: Path := ["root", "song.MP3"];
    var before := map[song := [1]];
    TreeUnderRoot(before, "song.MP3");
    assert ["root", "Audio"] != song;
    var fs := new FileSystem(before, {[], ["root"]});
    SongPaths(u, before, {[], ["root"]});
    var category := GetCategories(Name(song), u);
    var target;
    target, outcome := fs.MoveFile(song, category, ["root"], u);
    files := fs.files;
  }

  /** With `/root/Audio/song.mp3` already present, `/root/song.MP3` stays where it is. */
  method SongCollision(u: Unicode) returns (outcome: MoveOutcome, files: map<Path, Bytes>)
    ensures outcome == Skipped
    ensures files == map[["root", "song.MP3"] := [1], ["root", "Audio", "song.mp3"] := [2]]
  {
    var song: Path := ["root", "song.MP3"];
    var there: Path := ["root", "Audio", "song.mp3"];
    var before := map[song := [1], there := [2]];
    assert Parent(there) == ["root", "Audio"];
    assert Parent(["root", "Audio"]) == ["root"];
    assert Parent(song) == ["root"];
    assert Parent(["root"]) == [];
    assert ["root", "Audio"] != song && ["root", "Audio"] != there;
    var fs := new FileSystem(before, {[], ["root"], ["root", "Audio"]});
    SongPaths(u, before, {[], ["root"], ["root", "Audio"]});
    var category := GetCategories(Name(song), u);
    var target;
    target, outcome := fs.MoveFile(song, category, ["root"], u);
    files := fs.files;
  }

  /**
   * `/root/data.zip` as the walk treats it: the move succeeds, the
   * extraction folder is created, and the extraction then looks for the
   * archive at the path it has just left.
   */
  method ArchiveAsWritten(u: Unicode) returns (moved: MoveOutcome, unpacked: Option<UnpackOutcome>, files: map<Path, Bytes>, dirs: set<Path>)
    ensures moved == Moved && unpacked == Some(ArchiveMissing)
    ensures files == map[["root", "Archives", "data.zip"] := [1]]
    ensures ["root", "archives", "data"] in dirs
  {
    var data: Path := ["root", "data.zip"];
    TreeUnderRoot(map[data := [1]], "data.zip");
    var fs := new FileSystem(map[data := [1]], {[], ["root"]});
    DataArchive(u);
    DataTargets(u, data);
    DataVerdict(u, data, map[data := [1]], {[], ["root"]});
    DataExtraction();
    DataMoved();
    moved, unpacked := fs.SortFileAsWritten(data, ["root"], u);
    files, dirs := fs.files, fs.dirs;
  }

  /**
   * The same tree with the extraction done first: the archive is extracted
   * into `/root/archives/data` and then moved to `/root/Archives/data.zip`.
   */
  method ArchiveCorrected(u: Unicode) returns (unpacked: Option<UnpackOutcome>, moved: Option<MoveOutcome>, files: map<Path, Bytes>, dirs: set<Path>)
    ensures unpacked == Some(Unpacked) && moved == Some(Moved)
    ensures files == map[["root", "Archives", "data.zip"] := [1]]
    ensures ["root", "archives", "data"] in dirs
  {
    var data: Path := ["root", "data.zip"];
    TreeUnderRoot(map[data := [1]], "data.zip");
    var fs := new FileSystem(map[data := [1]], {[], ["root"]});
    DataArchive(u);
    DataTargets(u, data);
    DataVerdict(u, data, map[data := [1]], {[], ["root"]});
    DataExtraction();
    DataMoved();
    unpacked, moved := fs.SortFile(data, ["root"], u);
    files, dirs := fs.files, fs.dirs;
  }

  /** A name made only of soft signs normalizes to nothing at all. */
  lemma SoftSignName(u: Unicode)
    ensures TargetName("ь", u) == ""
  {
    NoDotNoSuffix("ь");
    NormalizedSingle('ь', u);
    SmallKey('ь', u);
  }

  /**
   * `/root/ь`: the new name is empty, so the target is the folder
   * `/root/Other` itself, which exists once it is created; the file stays.
   */
  method SoftSignOnly(u: Unicode) returns (outcome: MoveOutcome, files: map<Path, Bytes>)
    ensures outcome == Skipped
    ensures files == map[["root", "ь"] := [1]]
  {
    var file: Path := ["root", "ь"];
    var before := map[file := [1]];
    TreeUnderRoot(before, "ь");
    var fs := new FileSystem(before, {[], ["root"]});
    var category := GetCategories(Name(file), u);
    SoftSignName(u);
    var target;
    target, outcome := fs.MoveFile(file, category, ["root"], u);
    files := fs.files;
  }

  /** Where `/root/data.zip` moves: the category and the move target. */
  lemma DataTargets(u: Unicode, data: Path)
    requires data == ["root", "data.zip"]
    ensures Category(Name(data), u) == "Archives"
    ensures TargetPath(["root"], "Archives", Name(data), u) == ["root", "Archives", "data.zip"]
  {
    DataArchive(u);
    var name := Name(data);
    assert name == "data.zip";
    ArchiveTriggerIsArchives(name, u);
  }

  /** An archive moves into `root/Archives` when that folder holds nothing under its new name. */
  lemma ArchiveMoves(files: map<Path, Bytes>, dirs: set<Path>, file: Path, root: Path, u: Unicode)
    requires IsArchiveTrigger(Name(file), u)
    requires TargetName(Name(file), u) != ""
    requires root + ["Archives"] !in files
    requires root + ["Archives", TargetName(Name(file), u)] !in files
    requires root + ["Archives", TargetName(Name(file), u)] !in dirs
    ensures MoveVerdict(files, dirs, file, root, u) == Moved
  {
    ArchiveTriggerIsArchives(Name(file), u);
  }

  /** In the tree holding only `/root/data.zip`, the move succeeds. */
  lemma DataVerdict(u: Unicode, data: Path, files: map<Path, Bytes>, dirs: set<Path>)
    requires data == ["root", "data.zip"] && files == map[data := [1]] && dirs == {[], ["root"]}
    ensures MoveVerdict(files, dirs, data, ["root"], u) == Moved
  {
    DataArchive(u);
    DataFree(data);
    assert Name(data) == "data.zip";
    assert ["root"] + ["Archives", "data.zip"] == ["root", "Archives", "data.zip"];
    ArchiveMoves(files, dirs, data, ["root"], u);
  }

  /** Neither the folder `/root/Archives` nor its entry `data.zip` exists yet. */
  lemma DataFree(data: Path)
    requires data == ["root", "data.zip"]
    ensures ["root"] + ["Archives"] !in map[data := [1]]
    ensures ["root", "Archives", "data.zip"] !in map[data := [1]]
    ensures ["root", "Archives", "data.zip"] !in {[], ["root"]}
    ensures ["root", "Archives", "data.zip"] != ["root"] + ["Archives"]
  {
    assert (["root"] + ["Archives"])[1] != data[1];
  }

  /**
   * `/root/data.zip` is extracted into `/root/archives/data`; nothing blocks
   * it, and the folder is created whether the archive has moved or not.
   */
  lemma DataExtraction()
    ensures var data: Path := ["root", "data.zip"];
      && ArchiveDestination(["root"], data) == ["root", "archives", "data"]
      && !ExtractionBlocked(map[data := [1]], ["root"], data)
      && ["root", "archives", "data"] in ExtractDirs(map[data := [1]], {[], ["root"]}, ["root"], data)
      && ["root", "archives", "data"] in ExtractDirs(map[["root", "Archives", "data.zip"] := [1]], {[], ["root"], ["root", "Archives"]}, ["root"], data)
  {
    var data: Path := ["root", "data.zip"];
    SplitAt("data.zip", 4);
    assert "data.zip"[..4] == "data";
    assert Stem("data.zip") == "data";
    assert Name(data) == "data.zip";
    assert ArchiveDestination(["root"], data) == ["root", "archives", "data"];
    assert (["root"] + ["archives"])[1] != data[1];
  }

  /** The file map after `/root/data.zip` has moved. */
  lemma DataMoved()
    ensures var data: Path := ["root", "data.zip"];
      Renamed(map[data := [1]], data, ["root", "Archives", "data.zip"]) == map[["root", "Archives", "data.zip"] := [1]]
  {
    var data: Path := ["root", "data.zip"];
    assert map[data := [1]] - {data} == map[];
  }
}
