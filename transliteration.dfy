/**
 * The transliterator `normalize`: Ukrainian Cyrillic letters become Latin
 * letters through a fixed table, other alphanumeric characters pass
 * through, everything else becomes `_`.
 */
module Transliteration {
  import opened Chars

  /** The table `cyrillic_to_latin`, keyed by small letters. */
  const Table: map<char, string> := map[
    'а' := "a", 'б' := "b", 'в' := "v", 'г' := "g", 'д' := "d", 'е' := "e", 'є' := "ie",
    'ж' := "zh", 'з' := "z", 'и' := "i", 'і' := "i", 'ї' := "i", 'й' := "i", 'к' := "k",
    'л' := "l", 'м' := "m", 'н' := "n", 'о' := "o", 'п' := "p", 'р' := "r", 'с' := "s",
    'т' := "t", 'у' := "u", 'ф' := "f", 'х' := "kh", 'ц' := "ts", 'ч' := "ch", 'ш' := "sh",
    'щ' := "shch", 'ь' := "", 'ю' := "iu", 'я' := "ia"
  ]

  predicate AllAsciiLower(s: string)
  {
    forall j :: 0 <= j < |s| ==> IsAsciiLower(s[j])
  }

  /** Every key is a Cyrillic small letter and every value is made of ASCII small letters. */
  lemma TableShape(k: char)
    requires k in Table
    ensures IsCyrillicLower(k)
    ensures AllAsciiLower(Table[k])
  {
  }

  /** What one character contributes to the output of `normalize`. */
  function Translate(c: char, u: Unicode): (r: string)
  {
    var l := Lower(c, u);
    if l in Table then
      (if IsUpper(c, u) then UpperStr(Table[l]) else Table[l])
    else if IsAlnum(c, u) then [c]
    else "_"
  }

  /** `normalize(s)`: the translations of the characters of `s`, left to right. */
  function Normalized(s: string, u: Unicode): (r: string)
  {
    if s == [] then "" else Normalized(s[..|s| - 1], u) + Translate(s[|s| - 1], u)
  }

  /** The loop of `normalize`, growing the accumulator one character at a time. */
  method Normalize(s: string, u: Unicode) returns (result: string)
    ensures result == Normalized(s, u)
  {
    result := "";
    var i := 0;
    while i < |s|
      invariant 0 <= i <= |s|
      invariant result == Normalized(s[..i], u)
    {
      assert s[..i + 1][..i] == s[..i];
      result := result + Translate(s[i], u);
      i := i + 1;
    }
    assert s[..|s|] == s;
  }

  // ---------------------------------------------------------------------
  // What single characters become

  /** A small-letter key becomes exactly its table value. */
  lemma SmallKey(k: char, u: Unicode)
    requires k in Table
    ensures Translate(k, u) == Table[k]
  {
    TableShape(k);
  }

  /** The upper-cased value of a key lower-cases back to the value itself. */
  lemma UpperRoundTrip(k: char, u: Unicode)
    requires k in Table
    ensures LowerStr(UpperStr(Table[k]), u) == Table[k]
  {
    TableShape(k);
    LowerOfUpper(Table[k], u);
  }

  /** The capital of a key becomes the whole value in capitals. */
  lemma CapitalKey(k: char, u: Unicode)
    requires k in Table
    ensures Translate(CyrillicUpper(k), u) == UpperStr(Table[k])
  {
    TableShape(k);
  }

  lemma CapitalExamples(u: Unicode)
    ensures Translate('Ж', u) == "ZH"
    ensures Translate('Щ', u) == "SHCH"
    ensures Translate('Є', u) == "IE"
    ensures Translate('ь', u) == "" && Translate('Ь', u) == ""
  {
    CapitalKey('ж', u);
    CapitalKey('щ', u);
    CapitalKey('є', u);
    CapitalKey('ь', u);
    SmallKey('ь', u);
  }

  /** The length each character contributes: its table value's, or one. */
  function Width(c: char, u: Unicode): (n: nat)
  {
    if Lower(c, u) in Table then |Table[Lower(c, u)]| else 1
  }

  /** The summed widths of the characters of `s`, left to right. */
  function TotalWidth(s: string, u: Unicode): (n: nat)
  {
    if s == [] then 0 else Width(s[0], u) + TotalWidth(s[1..], u)
  }

  lemma TranslateWidth(c: char, u: Unicode)
    ensures |Translate(c, u)| == Width(c, u)
  {
  }

  // ---------------------------------------------------------------------
  // normalize works character by character

  lemma NormalizedEmpty(u: Unicode)
    ensures Normalized("", u) == ""
  {
  }

  lemma NormalizedSingle(c: char, u: Unicode)
    ensures Normalized([c], u) == Translate(c, u)
  {
    assert [c][..0] == [];
  }

  lemma {:induction false} Compose(a: string, b: string, u: Unicode)
    ensures Normalized(a + b, u) == Normalized(a, u) + Normalized(b, u)
    decreases |b|
  {
    if b == [] {
      assert a + b == a;
    } else {
      var b' := b[..|b| - 1];
      assert (a + b)[..|a + b| - 1] == a + b';
      assert (a + b)[|a + b| - 1] == b[|b| - 1];
      Compose(a, b', u);
    }
  }

  /** Normalizing a character in context: its translation lands between the two sides. */
  lemma InContext(a: string, c: char, b: string, u: Unicode)
    ensures Normalized(a + [c] + b, u) == Normalized(a, u) + Translate(c, u) + Normalized(b, u)
  {
    Compose(a + [c], b, u);
    Compose(a, [c], u);
    NormalizedSingle(c, u);
  }

  /**
   * A character that is not a key (after lowering) is copied when it is
   * alphanumeric and becomes exactly one `_` otherwise.
   */
  lemma PlainCharacter(a: string, c: char, b: string, u: Unicode)
    requires Lower(c, u) !in Table
    ensures IsAlnum(c, u) ==> Normalized(a + [c] + b, u) == Normalized(a, u) + [c] + Normalized(b, u)
    ensures !IsAlnum(c, u) ==> Normalized(a + [c] + b, u) == Normalized(a, u) + "_" + Normalized(b, u)
  {
    InContext(a, c, b, u);
  }

  lemma {:induction false} NormalizedLength(s: string, u: Unicode)
    ensures |Normalized(s, u)| == TotalWidth(s, u)
    decreases |s|
  {
    if s != [] {
      assert s == [s[0]] + s[1..];
      Compose([s[0]], s[1..], u);
      NormalizedSingle(s[0], u);
      TranslateWidth(s[0], u);
      NormalizedLength(s[1..], u);
    }
  }

  // ---------------------------------------------------------------------
  // The output alphabet and idempotence

  /** A character `normalize` leaves exactly as it is. */
  predicate Fixed(c: char, u: Unicode)
  {
    Translate(c, u) == [c]
  }

  /**
   * Every output character is an ASCII letter produced by the table, `_`,
   * or an alphanumeric character of the input that is not a key.
   */
  predicate OutputChar(c: char, s: string, u: Unicode)
  {
    IsAsciiLetter(c) || c == '_' || (c in s && IsAlnum(c, u) && Lower(c, u) !in Table)
  }

  lemma TranslateAlphabet(c: char, u: Unicode)
    ensures forall j :: 0 <= j < |Translate(c, u)| ==> OutputChar(Translate(c, u)[j], [c], u)
  {
    var l := Lower(c, u);
    if l in Table {
      TableShape(l);
    }
  }

  lemma {:induction false} NormalizedAlphabet(s: string, u: Unicode)
    ensures forall j :: 0 <= j < |Normalized(s, u)| ==> OutputChar(Normalized(s, u)[j], s, u)
    decreases |s|
  {
    if s != [] {
      var init := s[..|s| - 1];
      var last := s[|s| - 1];
      NormalizedAlphabet(init, u);
      TranslateAlphabet(last, u);
      var r := Normalized(s, u);
      forall j | 0 <= j < |r|
        ensures OutputChar(r[j], s, u)
      {
        if j < |Normalized(init, u)| {
          assert r[j] == Normalized(init, u)[j];
          assert OutputChar(r[j], init, u);
        } else {
          assert r[j] == Translate(last, u)[j - |Normalized(init, u)|];
          assert OutputChar(r[j], [last], u);
        }
      }
    }
  }

  lemma OutputCharFixed(c: char, s: string, u: Unicode)
    requires OutputChar(c, s, u)
    ensures Fixed(c, u)
  {
  }

  lemma {:induction false} AllFixed(t: string, u: Unicode)
    requires forall j :: 0 <= j < |t| ==> Fixed(t[j], u)
    ensures Normalized(t, u) == t
    decreases |t|
  {
    if t != [] {
      AllFixed(t[..|t| - 1], u);
      assert t[..|t| - 1] + [t[|t| - 1]] == t;
    }
  }

  lemma Idempotent(s: string, u: Unicode)
    ensures Normalized(Normalized(s, u), u) == Normalized(s, u)
  {
    var r := Normalized(s, u);
    NormalizedAlphabet(s, u);
    forall j | 0 <= j < |r|
      ensures Fixed(r[j], u)
    {
      OutputCharFixed(r[j], s, u);
    }
    AllFixed(r, u);
  }

  /** A name made only of ASCII letters and digits is its own normal form. */
  lemma AsciiAlnumUnchanged(s: string, u: Unicode)
    requires forall j :: 0 <= j < |s| ==> IsAsciiAlnum(s[j])
    ensures Normalized(s, u) == s
  {
    AllFixed(s, u);
  }

  /** Non-table letters such as 'ы' and 'ё' pass through, so the output need not be ASCII. */
  lemma NotAsciiOnly(u: Unicode)
    ensures Normalized("ы", u) == "ы"
    ensures Normalized("ё", u) == "ё"
  {
    NormalizedSingle('ы', u);
    NormalizedSingle('ё', u);
  }

  /** `normalize("Привіт")`, built up one character at a time. */
  lemma ExampleCapital(u: Unicode)
    ensures Normalized("П", u) == "P"
  {
    assert CyrillicUpper('п') == 'П';
    CapitalKey('п', u);
    NormalizedSingle('П', u);
  }

  lemma ExamplePr(u: Unicode)
    ensures Normalized("Пр", u) == "Pr"
  {
    ExampleCapital(u);
    Step("П", 'р', "P", u);
    assert "П" + ['р'] == "Пр";
  }

  lemma ExamplePri(u: Unicode)
    ensures Normalized("При", u) == "Pri"
  {
    ExamplePr(u);
    Step("Пр", 'и', "Pr", u);
    assert "Пр" + ['и'] == "При";
  }

  lemma ExamplePriv(u: Unicode)
    ensures Normalized("Прив", u) == "Priv"
  {
    ExamplePri(u);
    Step("При", 'в', "Pri", u);
    assert "При" + ['в'] == "Прив";
  }

  lemma ExamplePrivi(u: Unicode)
    ensures Normalized("Приві", u) == "Privi"
  {
    ExamplePriv(u);
    Step("Прив", 'і', "Priv", u);
    assert "Прив" + ['і'] == "Приві";
  }

  lemma Example(u: Unicode)
    ensures Normalized("Привіт", u) == "Privit"
  {
    ExamplePrivi(u);
    Step("Приві", 'т', "Privi", u);
    assert "Приві" + ['т'] == "Привіт";
  }

  /** One step of the example: a small key appended to a name already normalized. */
  lemma Step(a: string, k: char, na: string, u: Unicode)
    requires k in Table
    requires Normalized(a, u) == na
    ensures Normalized(a + [k], u) == na + Table[k]
  {
    assert (a + [k])[..|a|] == a;
    SmallKey(k, u);
  }
}
