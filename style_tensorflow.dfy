/**
 * The TensorFlow documentation style lints: a copyright notice in some
 * markdown cell, the Apache license title in some code cell, and no
 * translated notebook under `site/` outside `site/en`.
 */
module TensorflowStyle {
  import opened Text
  import opened Notebook
  import opened Lints

  /** The style module every lint here is registered under. */
  const Style := "tensorflow"

  // ---------------------------------------------------------------------------
  // copyright_re: `Copyright 20[1-9][0-9] The TensorFlow\s.*?\s?Authors`

  /** Length of the fixed head `Copyright 20[1-9][0-9] The TensorFlow\s`. */
  const HeadLength := 30

  /** The fixed head of the pattern matches at `p`. */
  predicate HeadAt(s: string, p: nat)
  {
    p + HeadLength <= |s|
    && s[p..p + 12] == "Copyright 20"
    && '1' <= s[p + 12] <= '9'
    && '0' <= s[p + 13] <= '9'
    && s[p + 14..p + 29] == " The TensorFlow"
    && IsSpace(s[p + 29])
  }

  /** `\s?Authors` matches at `q`. */
  predicate AuthorsAt(s: string, q: nat)
    requires q <= |s|
  {
    StartsWith(s[q..], "Authors") || (q < |s| && IsSpace(s[q]) && StartsWith(s[q + 1..], "Authors"))
  }

  /** `s[i..j]` holds no newline, so `.*?` can consume it. */
  predicate NoNewline(s: string, i: nat, j: nat)
    requires i <= j <= |s|
  {
    forall k | i <= k < j :: s[k] != '\n'
  }

  /** The whole pattern matches at `p`: the head, a newline-free run, then `\s?Authors`. */
  ghost predicate MatchAt(s: string, p: nat)
  {
    HeadAt(s, p) && exists q | p + HeadLength <= q <= |s| :: NoNewline(s, p + HeadLength, q) && AuthorsAt(s, q)
  }

  /** `copyright_re.search(s)` finds a match. */
  ghost predicate CopyrightMatches(s: string)
  {
    exists p | 0 <= p <= |s| :: MatchAt(s, p)
  }

  /** The lazy `.*?` scan: extend the run one character at a time until `\s?Authors` follows. */
  function TailFrom(s: string, q: nat): bool
    requires q <= |s|
    decreases |s| - q
  {
    if AuthorsAt(s, q) then true
    else if q == |s| || s[q] == '\n' then false
    else TailFrom(s, q + 1)
  }

  /** The scan from `q` succeeds iff some newline-free run from `q` is followed by `\s?Authors`. */
  lemma {:induction false} TailFromMeaning(s: string, q: nat)
    requires q <= |s|
    ensures TailFrom(s, q) <==> exists q' | q <= q' <= |s| :: NoNewline(s, q, q') && AuthorsAt(s, q')
    decreases |s| - q
  {
    if AuthorsAt(s, q) {
      assert NoNewline(s, q, q);
    } else if q == |s| || s[q] == '\n' {
      forall q' | q <= q' <= |s| ensures !(NoNewline(s, q, q') && AuthorsAt(s, q')) {
        if q' > q {
          assert q < |s| && s[q] == '\n';
        }
      }
    } else {
      TailFromMeaning(s, q + 1);
      if exists q' | q <= q' <= |s| :: NoNewline(s, q, q') && AuthorsAt(s, q') {
        var q' :| q <= q' <= |s| && NoNewline(s, q, q') && AuthorsAt(s, q');
        assert q' != q;
        assert NoNewline(s, q + 1, q');
      }
      if TailFrom(s, q + 1) {
        var q' :| q + 1 <= q' <= |s| && NoNewline(s, q + 1, q') && AuthorsAt(s, q');
        assert NoNewline(s, q, q');
      }
    }
  }

  /** `search`: try each start position from `p` on. */
  function SearchFrom(s: string, p: nat): bool
    requires p <= |s|
    decreases |s| - p
  {
    (HeadAt(s, p) && TailFrom(s, p + HeadLength)) || (p < |s| && SearchFrom(s, p + 1))
  }

  lemma {:induction false} SearchFromMeaning(s: string, p: nat)
    requires p <= |s|
    ensures SearchFrom(s, p) <==> exists p' | p <= p' <= |s| :: MatchAt(s, p')
    decreases |s| - p
  {
    if HeadAt(s, p) {
      TailFromMeaning(s, p + HeadLength);
      if TailFrom(s, p + HeadLength) {
        assert MatchAt(s, p);
      }
    }
    if p < |s| {
      SearchFromMeaning(s, p + 1);
      if exists p' | p <= p' <= |s| :: MatchAt(s, p') {
        var p' :| p <= p' <= |s| && MatchAt(s, p');
        if p' == p {
          TailFromMeaning(s, p + HeadLength);
        }
      }
    }
  }

  /** `copyright_check`: true iff the copyright pattern matches somewhere in the source. */
  function CopyrightCheck(source: string): (r: bool)
    ensures r <==> CopyrightMatches(source)
  {
    SearchFromMeaning(source, 0);
    SearchFrom(source, 0)
  }

  /** The usual notice, with any year from 2010 to 2099, is accepted wherever it appears. */
  lemma CopyrightNoticeAccepted(pre: string, d1: char, d2: char, post: string)
    requires '1' <= d1 <= '9' && '0' <= d2 <= '9'
    ensures CopyrightCheck(pre + "Copyright 20" + [d1, d2] + " The TensorFlow Authors" + post)
  {
    var head := "Copyright 20" + [d1, d2] + " The TensorFlow ";
    var s := pre + "Copyright 20" + [d1, d2] + " The TensorFlow Authors" + post;
    assert s == pre + head + ("Authors" + post);
    var p := |pre|;
    assert |head| == HeadLength;
    assert s[p..p + HeadLength] == head;
    assert s[p..p + 12] == "Copyright 20";
    assert s[p + 12] == d1 && s[p + 13] == d2;
    assert s[p + 14..p + 29] == " The TensorFlow";
    assert s[p + 29] == ' ';
    assert s[p + HeadLength..][..7] == "Authors";
    assert NoNewline(s, p + HeadLength, p + HeadLength);
    assert HeadAt(s, p);
    assert AuthorsAt(s, p + HeadLength);
    assert MatchAt(s, p);
  }

  /** Every match ends in `Authors`. */
  lemma MatchHasAuthors(source: string)
    requires CopyrightMatches(source)
    ensures Contains(source, "Authors")
  {
    var p :| 0 <= p <= |source| && MatchAt(source, p);
    var q :| p + HeadLength <= q <= |source| && NoNewline(source, p + HeadLength, q) && AuthorsAt(source, q);
    var i := if StartsWith(source[q..], "Authors") then q else q + 1;
    assert OccursAt(source, "Authors", i);
  }

  /** A source without `Authors` fails the copyright lint. */
  lemma NoAuthorsNoCopyright(source: string)
    requires !Contains(source, "Authors")
    ensures !CopyrightCheck(source)
  {
    if CopyrightMatches(source) {
      MatchHasAuthors(source);
    }
  }

  /** Every match starts with `Copyright 20`. */
  lemma MatchHasCopyrightWord(source: string)
    requires CopyrightMatches(source)
    ensures Contains(source, "Copyright 20")
  {
    var p :| 0 <= p <= |source| && MatchAt(source, p);
    assert OccursAt(source, "Copyright 20", p);
  }

  /** A source without `Copyright 20` fails the copyright lint. */
  lemma NoCopyrightWordNoCopyright(source: string)
    requires !Contains(source, "Copyright 20")
    ensures !CopyrightCheck(source)
  {
    if CopyrightMatches(source) {
      MatchHasCopyrightWord(source);
    }
  }

  // ---------------------------------------------------------------------------
  // license_re: a literal with no pattern metacharacters

  const LicenseTitle := "#@title Licensed under the Apache License"

  /** `license_check`: true iff the license title occurs somewhere in the source. */
  function LicenseCheck(source: string): (r: bool)
    ensures r <==> exists i :: OccursAt(source, LicenseTitle, i)
  {
    Contains(source, LicenseTitle)
  }

  /** A source shorter than the title cannot hold it. */
  lemma ShortSourceHasNoLicense(source: string)
    requires |source| < |LicenseTitle|
    ensures !LicenseCheck(source)
  {
  }

  // ---------------------------------------------------------------------------
  // not_translation

  /** The Python values `not_translation` compares: a `str`, or a `pathlib` path. */
  datatype PyObject = PyStr(s: string) | PyPath(p: string)

  /** Python `==` on these values: a string never equals a path object. */
  predicate PyEquals(a: PyObject, b: PyObject)
  {
    match (a, b)
    case (PyStr(x), PyStr(y)) => x == y
    case (PyPath(x), PyPath(y)) => x == y
    case _ => false
  }

  /** Python `x in xs` over a sequence. */
  function PyIn(x: PyObject, xs: seq<PyObject>): (r: bool)
    ensures r <==> exists i | 0 <= i < |xs| :: PyEquals(x, xs[i])
  {
    if xs == [] then false else PyEquals(x, xs[|xs| - 1]) || PyIn(x, xs[..|xs| - 1])
  }

  /** Path objects for the given directory texts. */
  function PathObjects(dirs: seq<string>): (r: seq<PyObject>)
    ensures |r| == |dirs|
    ensures forall i | 0 <= i < |r| :: r[i] == PyPath(dirs[i])
  {
    if dirs == [] then [] else PathObjects(dirs[..|dirs| - 1]) + [PyPath(dirs[|dirs| - 1])]
  }

  /** `filepath.parents`: the parent directories as path objects. */
  function ParentObjects(path: FilePath): seq<PyObject>
  {
    PathObjects(path.parents)
  }

  /** `not_translation` as written: it tests `str` values for membership among path objects. */
  function NotTranslationAsWritten(path: FilePath): bool
  {
    if !PyIn(PyStr("site"), ParentObjects(path)) then true
    else PyIn(PyStr("site/en"), ParentObjects(path))
  }

  /** As written the lint can never fail: no `str` is ever among the parents. */
  lemma NotTranslationAsWrittenAlwaysPasses(path: FilePath)
    ensures NotTranslationAsWritten(path)
  {
    var ps := ParentObjects(path);
    assert !PyIn(PyStr("site"), ps) by {
      forall i | 0 <= i < |ps| ensures !PyEquals(PyStr("site"), ps[i]) {
        assert ps[i].PyPath?;
      }
    }
  }

  /** `not_translation` comparing the parents' text: a notebook under `site/` must be under `site/en`. */
  function NotTranslation(path: FilePath): (r: bool)
    ensures !r <==> "site" in path.parents && "site/en" !in path.parents
  {
    if "site" !in path.parents then true else "site/en" in path.parents
  }

  /** A Japanese translation: the intended check rejects it, the written one lets it through. */
  lemma TranslationSlipsThrough()
    ensures var path := FilePath("site/ja/guide.ipynb", ["site/ja", "site", "."]);
      NotTranslationAsWritten(path) && !NotTranslation(path)
  {
    NotTranslationAsWrittenAlwaysPasses(FilePath("site/ja/guide.ipynb", ["site/ja", "site", "."]));
  }

  // ---------------------------------------------------------------------------
  // The registered lints

  const CopyrightLint := Lint(
    "copyright_check", Style, "TensorFlow copyright is required", TEXT, ANY,
    (source: string, target: Target, path: FilePath) => BoolVerdict(CopyrightCheck(source)))

  const LicenseLint := Lint(
    "license_check", Style, "Apache license is required", CODE, ANY,
    (source: string, target: Target, path: FilePath) => BoolVerdict(LicenseCheck(source)))

  const NotTranslationLint := Lint(
    "not_translation", Style, "", FILE, ANY,
    (source: string, target: Target, path: FilePath) => BoolVerdict(NotTranslation(path)))

  /** The table the three decorators build, in definition order. */
  const Registry: LintTable := Register(Register(Register(map[], CopyrightLint), LicenseLint), NotTranslationLint)

  /** `not_translation` exactly as written, which never fails. */
  const NotTranslationAsWrittenLint := Lint(
    "not_translation", Style, "", FILE, ANY,
    (source: string, target: Target, path: FilePath) => BoolVerdict(NotTranslationAsWritten(path)))

  /** The table the three decorators build with `not_translation` as written. */
  const RegistryAsWritten: LintTable :=
    Register(Register(Register(map[], CopyrightLint), LicenseLint), NotTranslationAsWrittenLint)

  /** Each lint sits alone under its declared key; every other key is empty. */
  lemma RegistryContents()
    ensures Lookup(Registry, TEXT, ANY) == [CopyrightLint]
    ensures Lookup(Registry, CODE, ANY) == [LicenseLint]
    ensures Lookup(Registry, FILE, ANY) == [NotTranslationLint]
    ensures forall scope, cond | (scope, cond) !in {(TEXT, ANY), (CODE, ANY), (FILE, ANY)} :: Lookup(Registry, scope, cond) == []
  {
  }

  /** The same keys hold the same lints in the table built with `not_translation` as written. */
  lemma RegistryAsWrittenContents()
    ensures Lookup(RegistryAsWritten, TEXT, ANY) == [CopyrightLint]
    ensures Lookup(RegistryAsWritten, CODE, ANY) == [LicenseLint]
    ensures Lookup(RegistryAsWritten, FILE, ANY) == [NotTranslationAsWrittenLint]
    ensures forall scope, cond | (scope, cond) !in {(TEXT, ANY), (CODE, ANY), (FILE, ANY)} :: Lookup(RegistryAsWritten, scope, cond) == []
  {
  }
}
