/**
 * The classifier `get_categories`: the first category, in table order,
 * whose extension list holds the lower-cased suffix, or "Other".
 */
module Classifier {
  import opened Chars
  import opened Names

  /** `CATEGORIES`, in its insertion order. */
  const Categories: seq<(string, seq<string>)> := [
    ("Audio", [".mp3", ".wav", ".flac", ".wma"]),
    ("Docs", [".docx", ".txt", ".pdf"]),
    ("Pictures", [".png", ".jpg", ".jpeg", ".svg"]),
    ("Video", [".avi", ".mp4", ".mov", ".mkv"]),
    ("Archives", [".zip", ".tar"])
  ]

  const Other: string := "Other"

  /** The extensions that trigger archive extraction. */
  const ArchiveTriggers: seq<string> := [".zip", ".tar"]

  /** The category at position `j` lists `ext`. */
  predicate Lists(j: int, ext: string)
  {
    0 <= j < |Categories| && ext in Categories[j].1
  }

  /** `j` is the first category that lists `ext`. */
  predicate FirstListing(j: int, ext: string)
  {
    Lists(j, ext) && forall k :: 0 <= k < j ==> !Lists(k, ext)
  }

  lemma LabelsAreNotOther(j: int)
    requires 0 <= j < |Categories|
    ensures Categories[j].0 != Other
  {
  }

  /** The scan of the table from position `i` on. */
  function ClassifyFrom(ext: string, i: nat): (r: string)
    requires i <= |Categories|
    requires forall k :: 0 <= k < i ==> !Lists(k, ext)
    ensures r == Other <==> forall j :: i <= j < |Categories| ==> !Lists(j, ext)
    ensures r != Other ==> exists j :: FirstListing(j, ext) && r == Categories[j].0
    decreases |Categories| - i
  {
    if i == |Categories| then Other
    else if ext in Categories[i].1 then
      assert Lists(i, ext);
      LabelsAreNotOther(i);
      Categories[i].0
    else ClassifyFrom(ext, i + 1)
  }

  /** The category of an already lower-cased extension. */
  function Classify(ext: string): (r: string)
    ensures r == Other <==> forall j :: 0 <= j < |Categories| ==> !Lists(j, ext)
    ensures r != Other ==> exists j :: FirstListing(j, ext) && r == Categories[j].0
  {
    ClassifyFrom(ext, 0)
  }

  /** The category of a file name: its suffix, lower-cased, classified. */
  function Category(name: string, u: Unicode): (category: string)
  {
    Classify(LowerStr(Suffix(name), u))
  }

  /** `get_categories`: the loop over the table with its early return. */
  method GetCategories(name: string, u: Unicode) returns (category: string)
    ensures category == Category(name, u)
  {
    var ext := LowerStr(Suffix(name), u);
    category := ScanCategories(ext);
  }

  /** The loop of `get_categories` over an extension already lower-cased. */
  method ScanCategories(ext: string) returns (category: string)
    ensures category == Classify(ext)
  {
    for i := 0 to |Categories|
      invariant forall k :: 0 <= k < i ==> !Lists(k, ext)
    {
      if ext in Categories[i].1 {
        FirstIsUnique(i, ext);
        return Categories[i].0;
      }
    }
    return Other;
  }

  // ---------------------------------------------------------------------
  // Properties of the table and of classification

  /** No extension is listed by two categories. */
  lemma ListsDisjoint(j: int, k: int, ext: string)
    requires Lists(j, ext) && Lists(k, ext)
    ensures j == k
  {
  }

  lemma FirstIsUnique(j: int, ext: string)
    requires FirstListing(j, ext)
    ensures Classify(ext) == Categories[j].0
  {
    LabelsAreNotOther(j);
  }

  /** A listed extension gets the category that lists it. */
  lemma ClassifyListed(j: int, ext: string)
    requires Lists(j, ext)
    ensures Classify(ext) == Categories[j].0
  {
    forall k | 0 <= k < j
      ensures !Lists(k, ext)
    {
      if Lists(k, ext) { ListsDisjoint(j, k, ext); }
    }
    FirstIsUnique(j, ext);
  }

  /** The result is always one of the table's labels or "Other". */
  lemma ClassifyRange(ext: string)
    ensures Classify(ext) == Other || exists j :: 0 <= j < |Categories| && Classify(ext) == Categories[j].0
  {
  }

  /** Two names that agree up to letter case, dot for dot. */
  predicate SameUpToCase(a: string, b: string, u: Unicode)
  {
    && |a| == |b|
    && forall i :: 0 <= i < |a| ==> Lower(a[i], u) == Lower(b[i], u) && (a[i] == '.' <==> b[i] == '.')
  }

  lemma {:induction false} LastDotUpToCase(a: string, b: string, u: Unicode)
    requires SameUpToCase(a, b, u)
    ensures LastDot(a) == LastDot(b)
    decreases |a|
  {
    if a != [] {
      LastDotUpToCase(a[..|a| - 1], b[..|b| - 1], u);
    }
  }

  lemma LowerTailsUpToCase(a: string, b: string, u: Unicode, i: int)
    requires SameUpToCase(a, b, u) && 0 <= i <= |a|
    ensures LowerStr(a[i..], u) == LowerStr(b[i..], u)
  {
  }

  /** Names that agree up to case have the same lower-cased suffix. */
  lemma LowerSuffixUpToCase(a: string, b: string, u: Unicode)
    requires SameUpToCase(a, b, u)
    ensures LowerStr(Suffix(a), u) == LowerStr(Suffix(b), u)
  {
    LastDotUpToCase(a, b, u);
    SuffixAtLastDot(a);
    SuffixAtLastDot(b);
    var i := LastDot(a);
    if 0 < i < |a| - 1 {
      LowerTailsUpToCase(a, b, u, i);
    }
  }

  /** Classification ignores case: names that differ only in case get one category. */
  lemma CaseInsensitive(a: string, b: string, u: Unicode)
    requires SameUpToCase(a, b, u)
    ensures Category(a, u) == Category(b, u)
  {
    LowerSuffixUpToCase(a, b, u);
  }

  /** Only the suffix counts: names whose suffixes differ only in case get one category. */
  lemma SuffixCaseInsensitive(a: string, b: string, u: Unicode)
    requires SameUpToCase(Suffix(a), Suffix(b), u)
    ensures Category(a, u) == Category(b, u)
  {
    LowerTailsUpToCase(Suffix(a), Suffix(b), u, 0);
    assert Suffix(a)[0..] == Suffix(a) && Suffix(b)[0..] == Suffix(b);
  }

  /** Upper-casing the ASCII letters of a name does not change its category. */
  lemma UpperCaseName(name: string, u: Unicode)
    ensures Category(UpperStr(name), u) == Category(name, u)
  {
    CaseInsensitive(UpperStr(name), name, u);
  }

  lemma AudioExample(u: Unicode)
    ensures Category("song.MP3", u) == "Audio"
  {
    SplitAt("song.MP3", 4);
    assert LowerStr(".MP3", u) == ".mp3";
    ClassifyListed(0, ".mp3");
  }

  lemma OtherExample(u: Unicode)
    ensures Category("notes.xyz", u) == Other
  {
    SplitAt("notes.xyz", 5);
    assert Suffix("notes.xyz") == ".xyz";
    assert LowerStr(".xyz", u) == ".xyz";
    forall j | 0 <= j < |Categories|
      ensures !Lists(j, ".xyz")
    {
    }
  }

  /** A name without a suffix is "Other". */
  lemma NoSuffixExample(u: Unicode)
    ensures Category("README", u) == Other
  {
    assert Suffix("README") == "";
  }

  // ---------------------------------------------------------------------
  // The archive-extraction trigger

  /** The test `element.suffix.lower() in [".zip", ".tar"]`. */
  predicate IsArchiveTrigger(name: string, u: Unicode)
  {
    LowerStr(Suffix(name), u) in ArchiveTriggers
  }

  /**
   * The trigger fires exactly for the names classified as "Archives": in
   * this table that category lists just `.zip` and `.tar`.
   */
  lemma ArchiveTriggerIsArchives(name: string, u: Unicode)
    ensures IsArchiveTrigger(name, u) <==> Category(name, u) == "Archives"
  {
    ArchivesListsTriggers(LowerStr(Suffix(name), u));
  }

  /** The same fact for an extension already lower-cased. */
  lemma ArchivesListsTriggers(ext: string)
    ensures ext in ArchiveTriggers <==> Classify(ext) == "Archives"
  {
    assert Categories[4].1 == ArchiveTriggers;
    if ext in ArchiveTriggers {
      ClassifyListed(4, ext);
    } else if Classify(ext) != Other {
      var j :| FirstListing(j, ext) && Classify(ext) == Categories[j].0;
      assert j < 4;
    }
  }
}
