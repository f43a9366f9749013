/**
 * The TensorFlow style lints run by the engine: which lints run where, that
 * the run always finishes, when a notebook passes, and one notebook worked
 * through entry by entry.
 */
module StyleRun {
  import opened Wrappers
  import opened Text
  import opened Notebook
  import opened Lints
  import opened Linter
  import opened LinterFacts
  import opened TensorflowStyle

  /** The one file lint, and the cell lints in visiting order: license (CODE) before copyright (TEXT). */
  lemma RegistryOrder()
    ensures FileLints(Registry) == [NotTranslationLint]
    ensures CellLints(Registry) == [LicenseLint, CopyrightLint]
  {
    RegistryContents();
    assert Lookup(Registry, CELLS, ANY) == [] && Lookup(Registry, CELLS, ALL) == [];
    assert Lookup(Registry, CODE, ALL) == [] && Lookup(Registry, TEXT, ALL) == [];
    ScopeLintsOrder(Registry, CELLS);
    ScopeLintsOrder(Registry, CODE);
    ScopeLintsOrder(Registry, TEXT);
    CellLintsOrder(Registry);
  }

  /** Every callback of the style returns a bool, so `run` never raises. */
  lemma RegistryWellTyped(cells: seq<Cell>, source: string, path: FilePath)
    ensures WellTyped(Registry, cells, source, path)
  {
    RegistryOrder();
    GroupsWellTypedMeaning([LicenseLint, CopyrightLint], cells, path);
    WellTypedUpToMeaning(LicenseLint, cells, path, |cells|);
    WellTypedUpToMeaning(CopyrightLint, cells, path, |cells|);
  }

  /**
   * A parsed notebook passes the TensorFlow style iff it is not a translation,
   * some code cell carries the license title and some markdown cell the
   * copyright notice.
   */
  lemma RegistryVerdict(cells: seq<Cell>, source: string, path: FilePath)
    ensures RootsPass(RunEntries(Registry, cells, source, path))
      <==> (NotTranslation(path)
        && (exists i | 0 <= i < |cells| :: cells[i].cellType == "code" && LicenseCheck(SourceText(cells[i])))
        && (exists i | 0 <= i < |cells| :: cells[i].cellType == "markdown" && CopyrightCheck(SourceText(cells[i]))))
  {
    RegistryPasses(cells, source, path);
    LicenseGroupMeaning(cells, path);
    CopyrightGroupMeaning(cells, path);
  }

  /** The license group passes iff some code cell carries the license title. */
  lemma LicenseGroupMeaning(cells: seq<Cell>, path: FilePath)
    ensures GroupVerdict(LicenseLint, cells, path)
      <==> exists i | 0 <= i < |cells| :: cells[i].cellType == "code" && LicenseCheck(SourceText(cells[i]))
  {
    GroupVerdictMeaning(LicenseLint, cells, path);
    assert forall i | 0 <= i < |cells| ::
      CellPasses(LicenseLint, cells, path, i) <==> cells[i].cellType == "code" && LicenseCheck(SourceText(cells[i]));
  }

  /** The copyright group passes iff some markdown cell carries the copyright notice. */
  lemma CopyrightGroupMeaning(cells: seq<Cell>, path: FilePath)
    ensures GroupVerdict(CopyrightLint, cells, path)
      <==> exists i | 0 <= i < |cells| :: cells[i].cellType == "markdown" && CopyrightCheck(SourceText(cells[i]))
  {
    GroupVerdictMeaning(CopyrightLint, cells, path);
    assert forall i | 0 <= i < |cells| ::
      CellPasses(CopyrightLint, cells, path, i) <==> cells[i].cellType == "markdown" && CopyrightCheck(SourceText(cells[i]));
  }


  /** A run of the style passes iff its file lint and both cell-lint groups pass. */
  lemma RegistryPasses(cells: seq<Cell>, source: string, path: FilePath)
    ensures RootsPass(RunEntries(Registry, cells, source, path))
      <==> NotTranslation(path) && GroupVerdict(LicenseLint, cells, path) && GroupVerdict(CopyrightLint, cells, path)
  {
    RegistryOrder();
    RunPassMeaning(Registry, cells, source, path);
    var cellLints := CellLints(Registry);
    assert cellLints[0] == LicenseLint && cellLints[1] == CopyrightLint;
    assert FileLints(Registry)[0] == NotTranslationLint;
  }

  /** A notebook without markdown cells always fails the copyright lint: `any([])` is False. */
  lemma NoMarkdownNoCopyright(cells: seq<Cell>, path: FilePath)
    requires forall i | 0 <= i < |cells| :: cells[i].cellType != "markdown"
    ensures !GroupVerdict(CopyrightLint, cells, path)
  {
    EmptyScopeVerdict(CopyrightLint, cells, path);
  }

  /**
   * The entries of any run of the style: the file lint's entry, then the
   * license group (its members and aggregate), then the copyright group.
   */
  lemma RegistryEntries(cells: seq<Cell>, source: string, path: FilePath)
    ensures RunEntries(Registry, cells, source, path)
      == [FileEntry(NotTranslationLint, source, cells, path)]
        + GroupEntries(LicenseLint, cells, path) + GroupEntries(CopyrightLint, cells, path)
  {
    RegistryOrder();
    RunEntriesShape(Registry, cells, source, path, NotTranslationLint, LicenseLint, CopyrightLint);
  }

  /** With `not_translation` as written, the file lint and the cell lints are the same as in `Registry`. */
  lemma RegistryAsWrittenOrder()
    ensures FileLints(RegistryAsWritten) == [NotTranslationAsWrittenLint]
    ensures CellLints(RegistryAsWritten) == [LicenseLint, CopyrightLint]
  {
    RegistryAsWrittenContents();
    assert Lookup(RegistryAsWritten, CELLS, ANY) == [] && Lookup(RegistryAsWritten, CELLS, ALL) == [];
    assert Lookup(RegistryAsWritten, CODE, ALL) == [] && Lookup(RegistryAsWritten, TEXT, ALL) == [];
    ScopeLintsOrder(RegistryAsWritten, CELLS);
    ScopeLintsOrder(RegistryAsWritten, CODE);
    ScopeLintsOrder(RegistryAsWritten, TEXT);
    CellLintsOrder(RegistryAsWritten);
  }

  /**
   * The style module as written: since its `not_translation` never fails, a
   * parsed notebook passes iff some code cell carries the license title and
   * some markdown cell the copyright notice, whatever its path.
   */
  lemma RegistryVerdictAsWritten(cells: seq<Cell>, source: string, path: FilePath)
    ensures RootsPass(RunEntries(RegistryAsWritten, cells, source, path))
      <==> ((exists i | 0 <= i < |cells| :: cells[i].cellType == "code" && LicenseCheck(SourceText(cells[i])))
        && (exists i | 0 <= i < |cells| :: cells[i].cellType == "markdown" && CopyrightCheck(SourceText(cells[i]))))
  {
    RegistryAsWrittenOrder();
    RunPassMeaning(RegistryAsWritten, cells, source, path);
    var cellLints := CellLints(RegistryAsWritten);
    assert cellLints[0] == LicenseLint && cellLints[1] == CopyrightLint;
    assert FileLints(RegistryAsWritten)[0] == NotTranslationAsWrittenLint;
    NotTranslationAsWrittenAlwaysPasses(path);
    LicenseGroupMeaning(cells, path);
    CopyrightGroupMeaning(cells, path);
  }

  /**
   * A translated notebook (under `site/` but not `site/en/`, such as
   * `site/ja/guide.ipynb`) with the license and the copyright notice passes
   * the style as written and fails it as intended.
   */
  lemma TranslationRunsDiffer(cells: seq<Cell>, source: string, path: FilePath)
    requires "site" in path.parents && "site/en" !in path.parents
    requires exists i | 0 <= i < |cells| :: cells[i].cellType == "code" && LicenseCheck(SourceText(cells[i]))
    requires exists i | 0 <= i < |cells| :: cells[i].cellType == "markdown" && CopyrightCheck(SourceText(cells[i]))
    ensures RootsPass(RunEntries(RegistryAsWritten, cells, source, path))
    ensures !RootsPass(RunEntries(Registry, cells, source, path))
  {
    RegistryVerdictAsWritten(cells, source, path);
    RegistryVerdict(cells, source, path);
  }

  function CodeCell(line: string): Cell
  {
    Cell("code", [line], None, None, None)
  }

  function MarkdownCell(line: string): Cell
  {
    Cell("markdown", [line], None, None, None)
  }

  /** `Copyright 2024 The TensorFlow Authors`. */
  const NoticeLine: string := "Copyright 20" + ['2', '4'] + " The TensorFlow Authors"

  /** A notebook with one code cell `x=1` and one markdown cell holding the copyright notice. */
  const Example: seq<Cell> := [CodeCell("x=1"), MarkdownCell(NoticeLine)]

  const ExamplePath := FilePath("guide/intro.ipynb", ["guide", "."])

  lemma ExampleLicenseFails()
    ensures !AsBool(CellVerdict(LicenseLint, Example[0], ExamplePath))
  {
    assert Example[0].source == ["x=1"];
    ConcatSingle("x=1");
    ShortSourceHasNoLicense("x=1");
  }

  lemma ExampleCopyrightPasses()
    ensures AsBool(CellVerdict(CopyrightLint, Example[1], ExamplePath))
  {
    assert Example[1].source == [NoticeLine];
    ConcatSingle(NoticeLine);
    CopyrightNoticeAccepted("", '2', '4', "");
    assert "" + "Copyright 20" + ['2', '4'] + " The TensorFlow Authors" + "" == NoticeLine;
  }

  lemma ExampleFileEntry(source: string)
    ensures FileEntry(NotTranslationLint, source, Example, ExamplePath) == Entry(NotTranslationLint, true, "not_translation", None, false)
  {
    assert NotTranslation(ExamplePath);
  }

  lemma ExampleLicenseMember()
    ensures MemberEntry(LicenseLint, Example, ExamplePath, 0)
      == Entry(LicenseLint, false, "license_check__cell_0", Some("license_check"), true)
  {
    ExampleLicenseFails();
    assert DecimalString(0) == "0";
  }

  lemma ExampleCopyrightMember()
    ensures MemberEntry(CopyrightLint, Example, ExamplePath, 1)
      == Entry(CopyrightLint, true, "copyright_check__cell_1", Some("copyright_check"), true)
  {
    ExampleCopyrightPasses();
    assert DecimalString(1) == "1";
  }

  lemma ExampleLicenseGroup()
    ensures GroupEntries(LicenseLint, Example, ExamplePath) == [
      Entry(LicenseLint, false, "license_check__cell_0", Some("license_check"), true),
      Entry(LicenseLint, false, "license_check", Some("license_check"), false)]
  {
    SingleMemberGroup(LicenseLint, Example, ExamplePath, 0);
    ExampleLicenseMember();
    ExampleLicenseFails();
  }

  lemma ExampleCopyrightGroup()
    ensures GroupEntries(CopyrightLint, Example, ExamplePath) == [
      Entry(CopyrightLint, true, "copyright_check__cell_1", Some("copyright_check"), true),
      Entry(CopyrightLint, true, "copyright_check", Some("copyright_check"), false)]
  {
    SingleMemberGroup(CopyrightLint, Example, ExamplePath, 1);
    ExampleCopyrightMember();
    ExampleCopyrightPasses();
  }

  /**
   * The entries of that run: the file lint passes; the license member for
   * cell 0 and its aggregate fail; the copyright member for cell 1 and its
   * aggregate pass; so the notebook fails.
   */
  lemma ExampleRun(source: string)
    ensures RunEntries(Registry, Example, source, ExamplePath) == [
      Entry(NotTranslationLint, true, "not_translation", None, false),
      Entry(LicenseLint, false, "license_check__cell_0", Some("license_check"), true),
      Entry(LicenseLint, false, "license_check", Some("license_check"), false),
      Entry(CopyrightLint, true, "copyright_check__cell_1", Some("copyright_check"), true),
      Entry(CopyrightLint, true, "copyright_check", Some("copyright_check"), false)]
    ensures !RootsPass(RunEntries(Registry, Example, source, ExamplePath))
  {
    RegistryEntries(Example, source, ExamplePath);
    ExampleFileEntry(source);
    ExampleLicenseGroup();
    ExampleCopyrightGroup();
    assert RunEntries(Registry, Example, source, ExamplePath)[2] == Entry(LicenseLint, false, "license_check", Some("license_check"), false);
  }
}
