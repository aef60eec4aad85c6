/** The parts of Python's `pathlib` the scripts use on file names: `suffix`, `stem`,
    `with_suffix`, and the case-insensitive ".pdf" test of the batch converter. A path is a
    sequence of components; only the last one (the file name) is ever rewritten. */
module Paths {
  import opened Outcomes
  import opened Text

  type Path = seq<string>

  /** A file found by a recursive walk: its directory relative to the walked root, its name,
      and its contents as read, or the reason reading it failed. */
  datatype TextFile = TextFile(dir: Path, name: string, content: Result<string>)

  /** `name.rfind(c)`: the last position holding `c`, or -1. */
  function RFind(name: string, c: char): (i: int)
    ensures -1 <= i < |name|
    ensures i >= 0 ==> name[i] == c && forall k :: i < k < |name| ==> name[k] != c
    ensures i == -1 ==> forall k :: 0 <= k < |name| ==> name[k] != c
  {
    if name == [] then -1
    else if name[|name| - 1] == c then |name| - 1
    else RFind(name[..|name| - 1], c)
  }

  lemma RFindIs(name: string, c: char, i: nat)
    requires i < |name| && name[i] == c && forall k :: i < k < |name| ==> name[k] != c
    ensures RFind(name, c) == i
  {
  }

  /** `PurePath(name).suffix`: from the last dot on, unless that dot is the first or the
      last character of the name, in which case there is no suffix. */
  function Suffix(name: string): (r: string)
    ensures r == [] || (2 <= |r| < |name| && r[0] == '.' && r == name[|name| - |r|..])
    ensures r != [] ==> '.' !in r[1..]
    ensures r != [] <==> 0 < RFind(name, '.') < |name| - 1
    ensures r != [] ==> r == name[RFind(name, '.')..]
  {
    var i := RFind(name, '.');
    if 0 < i < |name| - 1 then
      assert forall k :: 0 <= k < |name[i..][1..]| ==> name[i..][1..][k] == name[i + 1 + k];
      name[i..]
    else []
  }

  /** `PurePath(name).with_suffix(s)` on a non-empty file name: the suffix, if any, is
      replaced by `s`; without a suffix, `s` is appended. */
  function WithSuffix(name: string, s: string): (r: string)
    requires name != []
    ensures r == name[..|name| - |Suffix(name)|] + s
  {
    name[..|name| - |Suffix(name)|] + s
  }

  /** Replacing the suffix with a valid one (a dot, at least one more character, no further
      dot) makes that the suffix, and keeps the stem. */
  lemma WithSuffixRoundTrip(name: string, s: string)
    requires name != [] && |s| >= 2 && s[0] == '.' && '.' !in s[1..]
    ensures Suffix(WithSuffix(name, s)) == s
    ensures Stem(WithSuffix(name, s)) == Stem(name)
  {
    var p := name[..|name| - |Suffix(name)|];
    var r := WithSuffix(name, s);
    assert r == p + s;
    forall k | |p| < k < |r| ensures r[k] != '.' {
      assert r[k] == s[1..][k - |p| - 1];
    }
    RFindIs(r, '.', |p|);
    assert r[..|r| - |s|] == p;
  }

  /** `PurePath(name).stem`: the name without its suffix. */
  function Stem(name: string): string
    requires name != []
  {
    WithSuffix(name, "")
  }

  /** `path.with_suffix(s)`: rewrites the last component of a path. */
  function PathWithSuffix(p: Path, s: string): (q: Path)
    requires p != [] && p[|p| - 1] != []
    ensures |q| == |p| && q[..|p| - 1] == p[..|p| - 1] && q[|p| - 1] == WithSuffix(p[|p| - 1], s)
  {
    p[..|p| - 1] + [WithSuffix(p[|p| - 1], s)]
  }

  /** `name.lower().endswith(".pdf")`. */
  predicate IsPdfName(name: string) {
    var l := Lower(name);
    |l| >= 4 && l[|l| - 4..] == ".pdf"
  }

  /** The name of the text file written for a PDF called `name`: the script first drops the
      suffix (`rel_path.with_suffix("")`) and later replaces whatever suffix is left with
      ".txt" (`output_path.with_suffix(".txt")`). The result is a non-empty prefix of
      `name` followed by ".txt". */
  function TxtName(name: string): (r: string)
    requires name != []
    ensures |r| >= 5 && r[|r| - 4..] == ".txt"
    ensures r[..|r| - 4] <= name
  {
    var stem := WithSuffix(name, "");
    assert stem != [] && stem <= name;
    var r := WithSuffix(stem, ".txt");
    assert r[..|r| - 4] == stem[..|stem| - |Suffix(stem)|];
    r
  }

  /** A plain "<stem>.pdf" name gives "<stem>.txt". */
  lemma {:induction false} TxtNameOfPlainPdf(stem: string)
    requires stem != [] && '.' !in stem
    ensures TxtName(stem + ".pdf") == stem + ".txt"
  {
    var name := stem + ".pdf";
    assert RFind(name, '.') == |stem| by {
      assert name[|stem|] == '.';
      assert forall k :: |stem| < k < |name| ==> name[k] != '.';
    }
    assert Suffix(name) == ".pdf";
    assert WithSuffix(name, "") == stem;
    assert forall k :: 0 <= k < |stem| ==> stem[k] != '.' by {
      forall k | 0 <= k < |stem| ensures stem[k] != '.' { assert stem[k] in stem; }
    }
    assert Suffix(stem) == [];
  }

  /** Both suffixes of a doubly-suffixed name are dropped: "a.b.pdf" is written as "a.txt". */
  lemma DoubleSuffixExample()
    ensures TxtName("a.b.pdf") == "a.txt"
  {
    RFindIs("a.b.pdf", '.', 3);
    assert Suffix("a.b.pdf") == ".pdf";
    assert WithSuffix("a.b.pdf", "") == "a.b";
    RFindIs("a.b", '.', 1);
    assert Suffix("a.b") == ".b";
  }

  /** The upper-case extension of "x.PDF" still selects the file and is dropped too. */
  lemma UpperCaseExample()
    ensures IsPdfName("x.PDF") && TxtName("x.PDF") == "x.txt"
  {
    RFindIs("x.PDF", '.', 1);
    assert Suffix("x.PDF") == ".PDF";
    assert WithSuffix("x.PDF", "") == "x";
    assert Suffix("x") == [];
    assert Lower("x.PDF") == "x.pdf";
  }

  /** A file called ".pdf" has no suffix at all (its only dot is its first character), so
      its text goes to ".pdf.txt". */
  lemma DotPdfExample()
    ensures IsPdfName(".pdf") && TxtName(".pdf") == ".pdf.txt"
  {
    RFindIs(".pdf", '.', 0);
    assert Suffix(".pdf") == [];
    assert WithSuffix(".pdf", "") == ".pdf";
    assert Lower(".pdf") == ".pdf";
  }
}
