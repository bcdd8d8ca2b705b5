/**
 * Splitting a file name into the stem and the suffix the sorter reads from
 * `Path.stem` and `Path.suffix`: the suffix starts at the last `.`, unless
 * that dot is the first or the last character of the name.
 */
module Names {

  /** The position of the last `.` in `name`, or -1 when there is none. */
  function LastDot(name: string): (i: int)
    ensures -1 <= i < |name|
    ensures i >= 0 ==> name[i] == '.'
    ensures forall k :: i < k < |name| ==> name[k] != '.'
  {
    if name == [] then -1
    else if name[|name| - 1] == '.' then |name| - 1
    else LastDot(name[..|name| - 1])
  }

  /** `name` has a dot strictly inside it, with no dot after it. */
  predicate HasSuffix(name: string)
  {
    exists i :: 0 < i < |name| - 1 && name[i] == '.' && NoDotAfter(name, i)
  }

  predicate NoDotAfter(name: string, i: int)
    requires 0 <= i < |name|
  {
    forall k :: i < k < |name| ==> name[k] != '.'
  }

  /** `(stem, suffix)` of a name. */
  function Split(name: string): (parts: (string, string))
    ensures parts.0 + parts.1 == name
    ensures parts.1 == "" <==> !HasSuffix(name)
    ensures parts.1 != "" ==>
      && |parts.1| >= 2 && parts.1[0] == '.'
      && (forall k :: 1 <= k < |parts.1| ==> parts.1[k] != '.')
      && parts.0 != ""
  {
    var i := LastDot(name);
    if 0 < i < |name| - 1 then
      (name[..i], name[i..])
    else
      assert name + "" == name;
      (name, "")
  }

  /** The last dot is wherever a dot has no dot after it. */
  lemma {:induction false} LastDotAt(name: string, i: int)
    requires 0 <= i < |name| && name[i] == '.' && NoDotAfter(name, i)
    ensures LastDot(name) == i
    decreases |name|
  {
    if i < |name| - 1 {
      LastDotAt(name[..|name| - 1], i);
    }
  }

  lemma SplitAt(name: string, i: int)
    requires 0 < i < |name| - 1 && name[i] == '.' && NoDotAfter(name, i)
    ensures Split(name) == (name[..i], name[i..])
  {
    LastDotAt(name, i);
  }

  /** The suffix is read off at the last dot. */
  lemma SuffixAtLastDot(name: string)
    ensures var i := LastDot(name); Suffix(name) == if 0 < i < |name| - 1 then name[i..] else ""
  {
  }

  function Stem(name: string): (stem: string) { Split(name).0 }

  function Suffix(name: string): (suffix: string) { Split(name).1 }
}
