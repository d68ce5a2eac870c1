/** The pure part of vahan/data_ingestion.py: the category normalisation that
    load_local_csv applies to the parsed CSV, and get_data's choice of source. */
module Ingestion {
  import opened Wrappers
  import opened Strings
  import opened Tables

  /** Upper-case the value, then replace every "TWO WHEELER" by "2W", then
      every "THREE WHEELER" by "3W". */
  function NormalizeCategory(s: string): string
  {
    Replace(Replace(Upper(s), "TWO WHEELER", "2W"), "THREE WHEELER", "3W")
  }

  /** A normalised category has no lower-case letter and no alias left in it. */
  lemma NormalizedCategoryIsCanonical(s: string)
    ensures NoLower(NormalizeCategory(s))
    ensures !Occurs(NormalizeCategory(s), "TWO WHEELER")
    ensures !Occurs(NormalizeCategory(s), "THREE WHEELER")
  {
    var u := Upper(s);
    var v := Replace(u, "TWO WHEELER", "2W");
    UpperHasNoLower(s);
    ReplaceKeepsNoLower(u, "TWO WHEELER", "2W");
    ReplaceKeepsNoLower(v, "THREE WHEELER", "3W");
    ReplaceNoOccurrence(u, "TWO WHEELER", "2W", "TWO WHEELER");
    ReplaceNoOccurrence(v, "THREE WHEELER", "3W", "TWO WHEELER");
    ReplaceNoOccurrence(v, "THREE WHEELER", "3W", "THREE WHEELER");
  }

  /** Normalising an already normalised category is a no-op. */
  lemma NormalizeCategoryIdempotent(s: string)
    ensures NormalizeCategory(NormalizeCategory(s)) == NormalizeCategory(s)
  {
    var n := NormalizeCategory(s);
    NormalizedCategoryIsCanonical(s);
    UpperOfNoLower(n);
    ReplaceAbsent(n, "TWO WHEELER", "2W");
    ReplaceAbsent(n, "THREE WHEELER", "3W");
  }

  /** The canonical categories pass through unchanged. */
  lemma CanonicalCategoriesUnchanged()
    ensures NormalizeCategory("2W") == "2W"
    ensures NormalizeCategory("3W") == "3W"
    ensures NormalizeCategory("4W") == "4W"
  {
    assert Upper("2W") == "2W" && Upper("3W") == "3W" && Upper("4W") == "4W";
  }

  lemma ReplaceWholeTwoWheeler()
    ensures Replace("TWO WHEELER", "TWO WHEELER", "2W") == "2W"
  {
    var s := "TWO WHEELER";
    assert s[..11] == "TWO WHEELER";
    assert s[11..] == [];
  }

  /** Alias matching ignores case: whatever upper-cases to "TWO WHEELER"
      ("two wheeler", "Two Wheeler", ...) becomes "2W". */
  lemma AliasMatchesInAnyCase(s: string)
    requires Upper(s) == "TWO WHEELER"
    ensures NormalizeCategory(s) == "2W"
  {
    ReplaceWholeTwoWheeler();
    assert Replace("2W", "THREE WHEELER", "3W") == "2W";
  }

  lemma NoTwoWheelerIn(s: string)
    requires forall i :: 0 <= i < |s| - 1 ==> !(s[i] == 'T' && s[i + 1] == 'W')
    ensures !Occurs(s, "TWO WHEELER")
  {
    forall i | 0 <= i && i + 11 <= |s| ensures !At(s, i, "TWO WHEELER") {
      assert s[i..i + 11][0] == s[i] && s[i..i + 11][1] == s[i + 1];
    }
  }

  lemma KeepTwoWheelerFree(s: string)
    requires forall i :: 0 <= i < |s| - 1 ==> !(s[i] == 'T' && s[i + 1] == 'W')
    requires NoLower(s)
    ensures Replace(Upper(s), "TWO WHEELER", "2W") == s
  {
    UpperOfNoLower(s);
    NoTwoWheelerIn(s);
    ReplaceAbsent(s, "TWO WHEELER", "2W");
  }

  lemma ReplaceWholeThreeWheeler()
    ensures Replace("THREE WHEELER", "THREE WHEELER", "3W") == "3W"
  {
    var s := "THREE WHEELER";
    assert s[..13] == "THREE WHEELER";
    assert s[13..] == [];
  }

  /** Neither alias occurs in `s`. */
  ghost predicate NoAlias(s: string)
  {
    !Occurs(s, "TWO WHEELER") && !Occurs(s, "THREE WHEELER")
  }

  lemma AliasesSeparated()
    ensures Separated("TWO WHEELER", "TWO WHEELER") && Separated("2W", "THREE WHEELER")
    ensures Separated("THREE WHEELER", "TWO WHEELER") && Separated("THREE WHEELER", "THREE WHEELER")
  {
  }

  lemma TwoWheelerInside(a: string, x: string, b: string)
    requires NoAlias(Upper(a)) && NoAlias(Upper(b)) && Upper(x) == "TWO WHEELER"
    ensures NormalizeCategory(a + x + b) == Upper(a) + "2W" + Upper(b)
  {
    var ua, ub := Upper(a), Upper(b);
    UpperAppend(a + x, b);
    UpperAppend(a, x);
    assert Upper(a + x + b) == ua + "TWO WHEELER" + ub;
    AliasesSeparated();
    ReplaceAbsent(ua, "TWO WHEELER", "2W");
    ReplaceAbsent(ub, "TWO WHEELER", "2W");
    ReplaceAround(ua, "TWO WHEELER", ub, "TWO WHEELER", "2W");
    ReplaceWholeTwoWheeler();
    assert Replace(ua + "TWO WHEELER" + ub, "TWO WHEELER", "2W") == ua + "2W" + ub;
    ReplaceAbsent(ua, "THREE WHEELER", "3W");
    ReplaceAbsent(ub, "THREE WHEELER", "3W");
    ReplaceAround(ua, "2W", ub, "THREE WHEELER", "3W");
    assert Replace("2W", "THREE WHEELER", "3W") == "2W";
  }

  lemma ThreeWheelerInside(a: string, x: string, b: string)
    requires NoAlias(Upper(a)) && NoAlias(Upper(b)) && Upper(x) == "THREE WHEELER"
    ensures NormalizeCategory(a + x + b) == Upper(a) + "3W" + Upper(b)
  {
    var ua, ub := Upper(a), Upper(b);
    UpperAppend(a + x, b);
    UpperAppend(a, x);
    assert Upper(a + x + b) == ua + "THREE WHEELER" + ub;
    AliasesSeparated();
    ReplaceAbsent(ua, "TWO WHEELER", "2W");
    ReplaceAbsent(ub, "TWO WHEELER", "2W");
    NoTwoWheelerIn("THREE WHEELER");
    ReplaceAbsent("THREE WHEELER", "TWO WHEELER", "2W");
    ReplaceAround(ua, "THREE WHEELER", ub, "TWO WHEELER", "2W");
    assert Replace(ua + "THREE WHEELER" + ub, "TWO WHEELER", "2W") == ua + "THREE WHEELER" + ub;
    ReplaceAbsent(ua, "THREE WHEELER", "3W");
    ReplaceAbsent(ub, "THREE WHEELER", "3W");
    ReplaceAround(ua, "THREE WHEELER", ub, "THREE WHEELER", "3W");
    ReplaceWholeThreeWheeler();
  }

  /** Replacement is by substring and ignores case: an alias, in any spelling,
      between two pieces without aliases becomes its code, and the pieces are
      only upper-cased. */
  lemma AliasInsideLongerValue(a: string, x: string, b: string)
    requires NoAlias(Upper(a)) && NoAlias(Upper(b))
    ensures Upper(x) == "TWO WHEELER" ==> NormalizeCategory(a + x + b) == Upper(a) + "2W" + Upper(b)
    ensures Upper(x) == "THREE WHEELER" ==> NormalizeCategory(a + x + b) == Upper(a) + "3W" + Upper(b)
  {
    if Upper(x) == "TWO WHEELER" {
      TwoWheelerInside(a, x, b);
    } else if Upper(x) == "THREE WHEELER" {
      ThreeWheelerInside(a, x, b);
    }
  }

  /** No other alias is recognised: a value whose upper case holds neither
      alias is only upper-cased. */
  lemma NoOtherAlias(s: string)
    requires NoAlias(Upper(s))
    ensures NormalizeCategory(s) == Upper(s)
  {
    ReplaceAbsent(Upper(s), "TWO WHEELER", "2W");
    ReplaceAbsent(Upper(s), "THREE WHEELER", "3W");
  }

  /** "FOUR WHEELER" is only upper-cased. */
  lemma FourWheelerUnchanged()
    ensures NormalizeCategory("FOUR WHEELER") == "FOUR WHEELER"
  {
    var s := "FOUR WHEELER";
    KeepTwoWheelerFree(s);
    assert |s| < 13;
  }

  /** load_local_csv after parsing: only the category column changes. */
  function LoadLocalCsv(parsed: seq<Record>): (r: seq<Record>)
    ensures |r| == |parsed|
    ensures forall i :: 0 <= i < |r| ==>
      r[i] == parsed[i].(category := NormalizeCategory(parsed[i].category))
  {
    if parsed == [] then []
    else [parsed[0].(category := NormalizeCategory(parsed[0].category))] + LoadLocalCsv(parsed[1..])
  }

  /** Loading a file that was written from loaded data gives the same table. */
  lemma LoadLocalCsvIdempotent(parsed: seq<Record>)
    ensures LoadLocalCsv(LoadLocalCsv(parsed)) == LoadLocalCsv(parsed)
  {
    var once := LoadLocalCsv(parsed);
    forall i | 0 <= i < |parsed| ensures LoadLocalCsv(once)[i] == once[i] {
      NormalizeCategoryIdempotent(parsed[i].category);
    }
  }

  /** get_data: "local" reads the CSV; "selenium" needs the selenium package
      to import and the browser session to start (the launch and the first
      page load are outside any handler, so their failure propagates) and,
      since live scraping is not implemented, then falls back to the CSV;
      any other source name is a ValueError. */
  function GetData(source: string, parsed: seq<Record>, seleniumImports: bool, browserStarts: bool): (r: Result<seq<Record>, Error>)
    ensures r.Failure? && r.error.ValueError? <==> source != "local" && source != "selenium"
    ensures r.Failure? && r.error.RuntimeError? <==> source == "selenium" && !seleniumImports
    ensures r.Failure? && r.error.BrowserError? <==> source == "selenium" && seleniumImports && !browserStarts
    ensures r.Success? ==> r.value == LoadLocalCsv(parsed)
    ensures source == "local" ==> r.Success?
    ensures source == "selenium" ==> (r.Success? <==> seleniumImports && browserStarts)
  {
    if source == "local" then Success(LoadLocalCsv(parsed))
    else if source == "selenium" then
      if !seleniumImports then
        Failure(RuntimeError("Install selenium and a Chrome/Chromium driver to use live scraping."))
      else if !browserStarts then Failure(BrowserError)
      else Success(LoadLocalCsv(parsed))
    else Failure(ValueError("source must be 'local' or 'selenium'"))
  }
}
