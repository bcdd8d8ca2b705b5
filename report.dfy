/**
 * The extension report printed at the end of a run: the union of every
 * extension the category table lists, and the extensions found in the
 * tree that none of them covers.
 */
module Report {
  import opened Classifier

  /** The extensions listed by the categories at positions `i` and later. */
  function KnownFrom(i: nat): (r: set<string>)
    requires i <= |Categories|
    ensures forall e :: e in r <==> exists j :: i <= j < |Categories| && Lists(j, e)
    decreases |Categories| - i
  {
    if i == |Categories| then {}
    else
      assert forall e :: e in Categories[i].1 ==> Lists(i, e);
      (set e | e in Categories[i].1) + KnownFrom(i + 1)
  }

  /** `known_extensions`: every extension of every category. */
  function KnownExtensions(): (r: set<string>)
    ensures forall e :: e in r <==> exists j :: Lists(j, e)
  {
    KnownFrom(0)
  }

  /** An extension is known exactly when it does not classify as "Other". */
  lemma KnownIffClassified(e: string)
    ensures e in KnownExtensions() <==> Classify(e) != Other
  {
  }

  datatype Summary = Summary(known: set<string>, unknown: set<string>)

  /** The two report lines computed from the set of extensions found. */
  function Summarize(found: set<string>): (r: Summary)
    ensures r.known == KnownExtensions()
    ensures r.unknown <= found
    ensures r.unknown !! r.known
    ensures forall e :: e in found ==> (e in r.unknown <==> Classify(e) == Other)
  {
    Summary(KnownExtensions(), found - KnownExtensions())
  }

  /** The known line does not depend on what was found. */
  lemma KnownLineFixed(found1: set<string>, found2: set<string>)
    ensures Summarize(found1).known == Summarize(found2).known
  {
  }

  /** Finding more extensions never makes the unknown line shorter. */
  lemma UnknownMonotone(found1: set<string>, found2: set<string>)
    requires found1 <= found2
    ensures Summarize(found1).unknown <= Summarize(found2).unknown
  {
  }

  lemma UnknownExample()
    ensures Summarize({".xyz", ".mp3"}).unknown == {".xyz"}
  {
    ClassifyListed(0, ".mp3");
    assert Classify(".xyz") == Other by {
      forall j | 0 <= j < |Categories|
        ensures !Lists(j, ".xyz")
      {
      }
    }
  }
}
