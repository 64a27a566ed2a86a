/**
 * The upload filter of src/app/routes.py: a file is accepted when it has
 * a name containing a dot and the text after its last dot, lower-cased,
 * is one of the spreadsheet extensions.
 */
module Uploads {
  import opened Wrappers
  import opened Strings

  /** `ALLOWED_EXTENSIONS`. */
  const ALLOWED_EXTENSIONS: set<string> := {"xls", "xlsx"}

  /** `s.rsplit(".", 1)[1]`: the text after the last dot of `s`. */
  function AfterLastDot(s: string): (r: string)
    requires '.' in s
    ensures |r| < |s| && s[|s| - |r| - 1] == '.' && s[|s| - |r|..] == r && '.' !in r
  {
    if s[|s| - 1] == '.' then []
    else
      var init := s[..|s| - 1];
      assert '.' in init by {
        var i :| 0 <= i < |s| && s[i] == '.';
        assert init[i] == '.';
      }
      var r := AfterLastDot(init);
      assert s[|init| - |r|..] == init[|init| - |r|..] + [s[|s| - 1]];
      r + [s[|s| - 1]]
  }

  /** `_allowed`: a name, with a dot, whose extension in lower case is allowed. */
  function Allowed(filename: Option<string>): (r: bool)
    ensures r ==> filename.Some? && '.' in filename.value && |filename.value| >= 4
  {
    match filename
    case None => false
    case Some(f) => f != "" && '.' in f && Lower(AfterLastDot(f)) in ALLOWED_EXTENSIONS
  }

  /** `f` ends with a dot followed by `ext` in any letter case. */
  predicate EndsWithExtension(f: string, ext: string)
  {
    |f| > |ext| && f[|f| - |ext| - 1] == '.' && Lower(f[|f| - |ext|..]) == ext
  }

  /** Lower-casing neither adds nor removes a dot. */
  lemma LowerKeepsDots(s: string)
    ensures '.' in s <==> '.' in Lower(s)
  {
    if '.' in s {
      var i :| 0 <= i < |s| && s[i] == '.';
      assert Lower(s)[i] == '.';
    }
    if '.' in Lower(s) {
      var i :| 0 <= i < |s| && Lower(s)[i] == '.';
      assert s[i] == '.';
    }
  }

  /** The text after a dot that has no dot after it is the extension. */
  lemma AfterLastDotOf(f: string, n: nat)
    requires n < |f| && f[|f| - n - 1] == '.' && '.' !in f[|f| - n..]
    ensures '.' in f && AfterLastDot(f) == f[|f| - n..]
  {
    assert '.' in f;
  }

  /** A file is accepted exactly when its name ends in ".xls" or ".xlsx", in any letter case. */
  lemma AllowedIffExtension(f: string)
    ensures Allowed(Some(f)) <==> EndsWithExtension(f, "xls") || EndsWithExtension(f, "xlsx")
  {
    if Allowed(Some(f)) {
      var r := AfterLastDot(f);
      assert f[|f| - |r|..] == r;
    }
    if EndsWithExtension(f, "xls") {
      ExtensionIsLast(f, "xls");
    }
    if EndsWithExtension(f, "xlsx") {
      ExtensionIsLast(f, "xlsx");
    }
  }

  lemma ExtensionIsLast(f: string, ext: string)
    requires '.' !in ext && EndsWithExtension(f, ext)
    ensures '.' in f && Lower(AfterLastDot(f)) == ext
  {
    LowerKeepsDots(f[|f| - |ext|..]);
    AfterLastDotOf(f, |ext|);
  }

  /** No name, an empty name and a name without a dot are all refused. */
  lemma RefusedWithoutDot(f: string)
    requires '.' !in f
    ensures !Allowed(None) && !Allowed(Some(f))
  {
  }

  /** A name ending in a dot has an empty extension and is refused. */
  lemma RefusedTrailingDot(f: string)
    ensures !Allowed(Some(f + "."))
  {
    assert (f + ".")[|f + "."| - 1] == '.';
  }

  /** "Report.XLSX" is accepted: the extension is compared in lower case. */
  lemma AcceptsUpperCase()
    ensures Allowed(Some("Report.XLSX"))
  {
    ExtensionOf("Report", "XLSX");
    assert Lower("XLSX") == "xlsx";
  }

  /** "a.b.xls" is accepted: only the text after the last dot counts. */
  lemma AcceptsLastExtension()
    ensures Allowed(Some("a.b.xls"))
  {
    ExtensionOf("a.b", "xls");
    assert Lower("xls") == "xls";
  }

  /** "data.xlsx.csv" is refused: an earlier ".xlsx" does not count. */
  lemma RefusesOtherLastExtension()
    ensures !Allowed(Some("data.xlsx.csv"))
  {
    ExtensionOf("data.xlsx", "csv");
    assert Lower("csv") == "csv";
  }

  /** ".xls" is accepted: a name that is only a dot and an extension passes. */
  lemma AcceptsBareExtension()
    ensures Allowed(Some(".xls"))
  {
    ExtensionOf("", "xls");
    assert Lower("xls") == "xls";
  }

  /** The extension of `stem + "." + ext` when `ext` has no dot. */
  lemma ExtensionOf(stem: string, ext: string)
    requires '.' !in ext
    ensures '.' in stem + "." + ext && AfterLastDot(stem + "." + ext) == ext
  {
    var f := stem + "." + ext;
    assert f[|f| - |ext| - 1] == '.' && f[|f| - |ext|..] == ext;
    AfterLastDotOf(f, |ext|);
  }
}
