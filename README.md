# Notebook tools and API page builder of tensorflow/docs, in Dafny

This project models four pieces of the TensorFlow documentation tooling and
proves what each of them promises.

- **nblint engine** (`linter.py`): `Linter.run` loads a notebook. It runs
  every file-scope lint once on the raw text. Then, for each of the CELLS,
  CODE and TEXT scopes and the ANY and ALL conditions, it runs every cell
  lint on the cells in its scope. Each cell result is recorded as a group
  member entry, and the any/all fold as the group's aggregate entry, in a
  `LinterStatus`. The status derives the overall verdict (`is_success`) and
  renders the console report (`__str__`). `LinterStatus` and `Linter` are
  Dafny classes. The append-only entry list is a `seq` field that the
  methods extend. Each loop is a method proved against a specification
  function (`RunEntries`, `Roots`, `Report`).
- **TensorFlow style** (`style/tensorflow.py`): the `copyright_check`,
  `license_check` and `not_translation` lints. The copyright regular
  expression is written out as a matcher and proved equal to a
  declarative description of the match.
- **nbfmt** (`tools/nbfmt.py`): the notebook formatter.
  - `delete_cells`, `update_metadata`, `has_license_and_update` and
    `has_required_regexps` are methods of a `NotebookData` class. Its
    fields are the parsed notebook's key order, cells and metadata.
  - `sort_notebook` reorders the top-level keys.
  - `main` formats each file argument in order and computes the exit status.
- **pretty_docs** (`api_generator/pretty_docs.py`): `build_md_page` and the
  class, function and module page layouts. Also modelled are:
  - the method split (`_split_methods`);
  - the in-place merge of a constructor's Args/Raises blocks into a class
    docstring (a `ClassDocstring` class whose `parts` list the merge changes);
  - aliases, signatures, compatibility notes and source links.

Modules: `Wrappers` (Option/Result), `Text` (strings, decimal rendering,
sorting), `Notebook` (JSON values and cells), `Lints` (lint descriptors and
the registration table), `Linter`, `LinterFacts`, `TensorflowStyle`,
`StyleRun` (the TensorFlow registry run through the engine), `Nbfmt`,
`PrettyDocs`.

## Model

| member | source | states |
|---|---|---|
| Linter.Linter.constructor | tools/tensorflow_docs/tools/nblint/linter.py:47-48 | the linter keeps the verbose flag it is given |
| Linter.Linter.Run | tools/tensorflow_docs/tools/nblint/linter.py:123-158 | unparsable JSON gives `False`; a JSON without a cell list exits with status 1; otherwise the run finishes iff every callback returned a bool, else it raises; a finished run returns a fresh status whose entries are exactly `RunEntries`: the file lints' entries, then each cell lint's members and aggregate in scope/condition order |
| Linter.Linter.RunLintGroup | tools/tensorflow_docs/tools/nblint/linter.py:79-121 | `_run_lint_group` raises iff some in-scope callback returned a non-bool; otherwise it returns the any/all fold of the in-scope cells' results and appends exactly one member entry per in-scope cell |
| Linter.Linter.RunMember | tools/tensorflow_docs/tools/nblint/linter.py:97-113 | one iteration: a cell outside the scope is skipped with no entry; an in-scope cell's result is recorded as a member entry named `<lint>__cell_<idx>` under group `<lint>` |
| Linter.Linter.RunFileLints | tools/tensorflow_docs/tools/nblint/linter.py:139-144 | each (FILE, ANY) lint runs once on the notebook text and adds one top-level entry, in order; an error iff some file callback returned a non-bool |
| Linter.Linter.RunGroups | tools/tensorflow_docs/tools/nblint/linter.py:154-156 | every lint of one table key adds its members then its aggregate, in order; an error iff some member callback returned a non-bool |
| Linter.Linter.RunScope | tools/tensorflow_docs/tools/nblint/linter.py:152-156 | one scope visits its lints condition by condition, in `Cond`'s iteration order (taken to be ANY, then ALL) |
| Linter.Linter.RunCellLints | tools/tensorflow_docs/tools/nblint/linter.py:148-156 | the cell-level loops visit CELLS, CODE and TEXT in that order and append `GroupsEntries` of the cell lints |
| Linter.LinterStatus.constructor | tools/tensorflow_docs/tools/nblint/linter.py:211-214 | a new status holds its path and verbose flag and no entries |
| Linter.LinterStatus.AddEntry | tools/tensorflow_docs/tools/nblint/linter.py:216-236 | a non-bool verdict raises the TypeError and leaves the list unchanged; a bool appends exactly one entry, whose name defaults to the lint's name when none or "" is given |
| Linter.LinterStatus.IsSuccess | tools/tensorflow_docs/tools/nblint/linter.py:238-250 | true iff every non-member entry succeeded |
| Linter.LinterStatus.GroupMembers | tools/tensorflow_docs/tools/nblint/linter.py:280-289 | verbose: a key per group that has members, mapped to those members in order; not verbose: empty |
| Linter.LinterStatus.RootEntries | tools/tensorflow_docs/tools/nblint/linter.py:291-292 | the top-level entries, in order |
| Linter.LinterStatus.ToString | tools/tensorflow_docs/tools/nblint/linter.py:270-310 | the report equals `Report(entries, verbose)`: one line per top-level entry, then (verbose) its group's member lines |
| Linter.LinterStatus.BlockText | tools/tensorflow_docs/tools/nblint/linter.py:295-308 | the lines for one top-level entry, with the `[All results]` block only when verbose and the group has members |
| Linter.MemberLines | tools/tensorflow_docs/tools/nblint/linter.py:305-306 | the `- <status> \| <name>` lines of a group's members, in order |
| Linter.GroupsEntriesAppend | tools/tensorflow_docs/tools/nblint/linter.py:154-156 | running two lists of lints records the first list's entries, then the second's |
| Linter.GroupsWellTypedMeaning | tools/tensorflow_docs/tools/nblint/linter.py:107-113 | no error from a lint list iff every lint's callbacks on its in-scope cells all returned bools |
| Linter.WellTypedUpToMeaning | tools/tensorflow_docs/tools/nblint/linter.py:97-113 | a group raises iff some in-scope cell's callback returned a non-bool |
| Linter.CombineMeaning | tools/tensorflow_docs/tools/nblint/linter.py:116-119 | ANY is `True in results`, ALL is `False not in results` |
| Linter.RunEntriesShape | tools/tensorflow_docs/tools/nblint/linter.py:139-156 | with one file lint and two cell lints, the run records the file entry, then each group in order |
| LinterFacts.MembersUpToSpec | tools/tensorflow_docs/tools/nblint/linter.py:97-113 | the members of a group are exactly the entries of the in-scope cells |
| LinterFacts.MembersCount | tools/tensorflow_docs/tools/nblint/linter.py:97-113 | a group has exactly one member per in-scope cell |
| LinterFacts.MembersAreGroupEntries | tools/tensorflow_docs/tools/nblint/linter.py:111-113 | every member entry belongs to its lint, is a member and is grouped under the lint's name |
| LinterFacts.MemberNameInjective | tools/tensorflow_docs/tools/nblint/linter.py:111 | two cell indices give the same member name only if they are equal |
| LinterFacts.MemberNamesDistinct | tools/tensorflow_docs/tools/nblint/linter.py:111-113 | the member entries of a group have pairwise distinct names |
| LinterFacts.SomeMemberPasses | tools/tensorflow_docs/tools/nblint/linter.py:116-117 | some member succeeded iff some in-scope cell's callback returned True |
| LinterFacts.EveryMemberPasses | tools/tensorflow_docs/tools/nblint/linter.py:118-119 | no member failed iff no in-scope cell's callback returned False |
| LinterFacts.GroupVerdictMeaning | tools/tensorflow_docs/tools/nblint/linter.py:115-119 | an ANY group passes iff some in-scope cell passes; an ALL group passes iff no in-scope cell fails |
| LinterFacts.SingleMemberGroup | tools/tensorflow_docs/tools/nblint/linter.py:105-113 | with exactly one in-scope cell, a group records that cell's member, then an aggregate with the same verdict |
| LinterFacts.EmptyScopeVerdict | tools/tensorflow_docs/tools/nblint/linter.py:115-119 | with no cell in scope, ANY fails and ALL passes |
| LinterFacts.ScopeLintsOrder | tools/tensorflow_docs/tools/nblint/linter.py:152-154 | within a scope, the lints run condition by condition in `Cond`'s iteration order, taken to be ANY before ALL |
| LinterFacts.CellLintsOrder | tools/tensorflow_docs/tools/nblint/linter.py:148-154 | the cell lints run in scope order CELLS, CODE, TEXT |
| LinterFacts.RootsMembership | tools/tensorflow_docs/tools/nblint/linter.py:292 | an entry is a top-level entry iff it is recorded and is not a member |
| LinterFacts.RootsPassMeaning | tools/tensorflow_docs/tools/nblint/linter.py:238-250 | the status passes iff every top-level entry succeeded |
| LinterFacts.FileEntriesAt | tools/tensorflow_docs/tools/nblint/linter.py:141-144 | the i-th file entry is the i-th file lint's result |
| LinterFacts.RootsOfGroups | tools/tensorflow_docs/tools/nblint/linter.py:154-156 | the top-level entries of the cell lints are exactly their aggregates, in order |
| LinterFacts.RootsOfRun | tools/tensorflow_docs/tools/nblint/linter.py:139-156 | the top-level entries of a run are its file entries followed by the aggregates |
| LinterFacts.EntriesPassMeaning | tools/tensorflow_docs/tools/nblint/linter.py:238-250 | a run's entries pass iff every file lint returned True and every cell lint's group verdict holds |
| LinterFacts.RunPassMeaning | tools/tensorflow_docs/tools/nblint/linter.py:238-250 | `is_success` of a finished run holds iff every (FILE, ANY) lint passed and every cell lint's group passed |
| LinterFacts.QuietReport | tools/tensorflow_docs/tools/nblint/linter.py:283-306 | a non-verbose report holds exactly one line per top-level entry |
| LinterFacts.VerboseReportWithoutMembers | tools/tensorflow_docs/tools/nblint/linter.py:283-308 | when no entry was collected by a group, the verbose report adds no `[All results]` section and equals the quiet one |
| TensorflowStyle.TailFromMeaning | tools/tensorflow_docs/tools/nblint/style/tensorflow.py:32-33 | the lazy `.*?\s?Authors` tail matches iff "Authors", optionally preceded by one whitespace, follows a newline-free stretch |
| TensorflowStyle.SearchFromMeaning | tools/tensorflow_docs/tools/nblint/style/tensorflow.py:32-33 | the search succeeds iff the pattern matches at some position |
| TensorflowStyle.CopyrightCheck | tools/tensorflow_docs/tools/nblint/style/tensorflow.py:36-42 | `copyright_check` holds iff the copyright pattern matches somewhere in the cell |
| TensorflowStyle.CopyrightNoticeAccepted | tools/tensorflow_docs/tools/nblint/style/tensorflow.py:32-42 | any text containing `Copyright 20YY The TensorFlow Authors` (year 2010-2099) passes |
| TensorflowStyle.MatchHasAuthors | tools/tensorflow_docs/tools/nblint/style/tensorflow.py:32-33 | a match contains "Authors" |
| TensorflowStyle.NoAuthorsNoCopyright | tools/tensorflow_docs/tools/nblint/style/tensorflow.py:36-42 | a cell without "Authors" fails the check |
| TensorflowStyle.MatchHasCopyrightWord | tools/tensorflow_docs/tools/nblint/style/tensorflow.py:32-33 | a match contains "Copyright 20" |
| TensorflowStyle.NoCopyrightWordNoCopyright | tools/tensorflow_docs/tools/nblint/style/tensorflow.py:36-42 | a cell without "Copyright 20" fails the check |
| TensorflowStyle.LicenseCheck | tools/tensorflow_docs/tools/nblint/style/tensorflow.py:45-57 | `license_check` holds iff the license title occurs in the cell |
| TensorflowStyle.PyIn | tools/tensorflow_docs/tools/nblint/style/tensorflow.py:63 | Python `in` on a list: some element compares equal |
| TensorflowStyle.PathObjects | tools/tensorflow_docs/tools/nblint/style/tensorflow.py:63 | `filepath.parents` holds one path object per parent directory |
| TensorflowStyle.NotTranslationAsWrittenAlwaysPasses | tools/tensorflow_docs/tools/nblint/style/tensorflow.py:60-66 | as written, `not_translation` returns True for every path |
| TensorflowStyle.NotTranslation | tools/tensorflow_docs/tools/nblint/style/tensorflow.py:60-66 | corrected: fails iff the notebook is under `site` but not under `site/en` |
| TensorflowStyle.TranslationSlipsThrough | tools/tensorflow_docs/tools/nblint/style/tensorflow.py:63-66 | `site/ja/guide.ipynb` passes as written and fails when corrected |
| TensorflowStyle.RegistryContents | tools/tensorflow_docs/tools/nblint/style/tensorflow.py:36-60 | the three decorators register copyright under (TEXT, ANY), license under (CODE, ANY) and the corrected not_translation under (FILE, ANY), and nothing else |
| TensorflowStyle.RegistryAsWrittenContents | tools/tensorflow_docs/tools/nblint/style/tensorflow.py:36-66 | with not_translation as written, the same three keys hold the same three lints, and no other key holds any |
| StyleRun.RegistryOrder | tools/tensorflow_docs/tools/nblint/linter.py:139-156 | with the TensorFlow style (corrected not_translation), not_translation is the file lint; license then copyright are the cell lints |
| StyleRun.RegistryAsWrittenOrder | tools/tensorflow_docs/tools/nblint/linter.py:139-156 | with the TensorFlow style as written, not_translation is the file lint; license then copyright are the cell lints |
| StyleRun.RegistryWellTyped | tools/tensorflow_docs/tools/nblint/style/tensorflow.py:36-66 | every TensorFlow callback returns a bool, so a run on any parsed notebook finishes |
| StyleRun.LicenseGroupMeaning | tools/tensorflow_docs/tools/nblint/style/tensorflow.py:48-57 | the license group passes iff some code cell holds the license title |
| StyleRun.CopyrightGroupMeaning | tools/tensorflow_docs/tools/nblint/style/tensorflow.py:36-42 | the copyright group passes iff some markdown cell matches the copyright pattern |
| StyleRun.RegistryPasses | tools/tensorflow_docs/tools/nblint/linter.py:238-250 | a TensorFlow run with the corrected not_translation passes iff not_translation, the license group and the copyright group all pass |
| StyleRun.RegistryVerdict | tools/tensorflow_docs/tools/nblint/linter.py:238-250 | a TensorFlow run with the corrected not_translation passes iff the path is not a translation, some code cell has the license and some markdown cell has the copyright |
| StyleRun.RegistryVerdictAsWritten | tools/tensorflow_docs/tools/nblint/linter.py:238-250 | a TensorFlow run as written passes, on every path, iff some code cell has the license and some markdown cell has the copyright |
| StyleRun.TranslationRunsDiffer | tools/tensorflow_docs/tools/nblint/style/tensorflow.py:63-66 | on any path under `site/` but not `site/en/` (such as `site/ja/guide.ipynb`) with a license cell and a copyright cell, the run as written passes and the corrected run fails |
| StyleRun.NoMarkdownNoCopyright | tools/tensorflow_docs/tools/nblint/linter.py:100-101 | without markdown cells, the copyright group fails |
| StyleRun.RegistryEntries | tools/tensorflow_docs/tools/nblint/linter.py:139-156 | a TensorFlow run records the not_translation entry, then the license group, then the copyright group |
| StyleRun.ExampleRun | tools/tensorflow_docs/tools/nblint/linter.py:123-158 | a notebook with one code cell without license and one markdown copyright cell records five entries, and the run fails |
| Text.DecimalStringInjective | tools/tensorflow_docs/tools/nblint/linter.py:111 | distinct cell indices render as distinct decimal strings |
| Text.SortedKeysSpec | tools/tensorflow_docs/api_generator/pretty_docs.py:496 | `sorted(d.keys())` is sorted and lists each key exactly once |
| Nbfmt.BaseName | tools/nbfmt.py:93 | the base name is the longest slash-free suffix of the path: the whole path, or what follows its last `/` |
| Nbfmt.NotebookSuffixMeaning | tools/nbfmt.py:190 | `Path.suffix == ".ipynb"` iff the name ends in `.ipynb` with something before it |
| Nbfmt.KeptCellsMembership | tools/nbfmt.py:65 | the kept cells are exactly the cells with some non-empty source line |
| Nbfmt.KeptCellsIdempotent | tools/nbfmt.py:65 | removing empty cells twice is removing them once |
| Nbfmt.CleanedCells | tools/nbfmt.py:58-76 | after `delete_cells` every cell has text, and without preserve_outputs no code cell keeps outputs |
| Nbfmt.CleanedIdempotent | tools/nbfmt.py:58-76 | `delete_cells` is idempotent |
| Nbfmt.StripOutputs | tools/nbfmt.py:68-76 | each code cell with outputs gets count 0 and no outputs; the flag says whether any had outputs |
| Nbfmt.NotebookData.constructor | tools/nbfmt.py:197 | the object holds the loaded notebook |
| Nbfmt.NotebookData.DeleteCells | tools/nbfmt.py:58-79 | the cells become `Cleaned` of the old cells, nothing else changes, and the warning is given iff outputs were removed |
| Nbfmt.UpdatedColabSpec | tools/nbfmt.py:92-100 | the colab entries get name (when a path is given), private_outputs = not preserve_outputs, empty provenance and toc_visible; no other key is added or changed |
| Nbfmt.UpdatedMetadataSpec | tools/nbfmt.py:82-101 | the metadata keeps every other key and gains or updates `colab` as stated above |
| Nbfmt.UpdatedMetadataIdempotent | tools/nbfmt.py:82-101 | updating metadata twice is updating it once |
| Nbfmt.NotebookData.UpdateMetadata | tools/nbfmt.py:82-101 | an error iff `colab` is present but not a dict; otherwise the metadata becomes `UpdatedMetadata` and the key `metadata` is added when missing; the cells are unchanged |
| Nbfmt.KeysWithMetadataValid | tools/nbfmt.py:101 | after the update the keys are distinct and hold both `metadata` and `cells` |
| Nbfmt.LicenseTaggedCell | tools/nbfmt.py:116-124 | tagging keeps the source, is idempotent, and gives a license cell `cellView: form` |
| Nbfmt.LicenseTaggedSpec | tools/nbfmt.py:104-129 | tagging keeps every source and the license verdict, marks every license cell as a form, and is idempotent |
| Nbfmt.NotebookData.HasLicenseAndUpdate | tools/nbfmt.py:104-129 | the cells become their tagged versions, and the result is true iff some cell holds the license title |
| Nbfmt.DotSearchLiteral | tools/nbfmt.py:44 | a pattern without `.` is searched as a plain substring |
| Nbfmt.ColabMagicAccepted | tools/nbfmt.py:44 | `%tensorflow_version 2` then any non-newline character then `x` is found |
| Nbfmt.FirstMissingMeaning | tools/nbfmt.py:143-158 | no pattern is missing iff all are found; a missing one is the first, in order, that no cell matches |
| Nbfmt.NotebookData.HasRequiredRegexps | tools/nbfmt.py:132-158 | reports the first missing pattern, and true iff none is missing |
| Nbfmt.NotebookData.HasPattern | tools/nbfmt.py:145-151 | true iff some cell's text matches the pattern |
| Nbfmt.Remove | tools/nbfmt.py:170-172 | removing a key keeps exactly the other keys |
| Nbfmt.MoveBothOrder | tools/nbfmt.py:170-172 | moving `first` to the front and `last` to the end gives first, the rest in order, last |
| Nbfmt.MoveBothPermutes | tools/nbfmt.py:170-172 | that reordering is a permutation with distinct keys |
| Nbfmt.SortNotebookSpec | tools/nbfmt.py:161-173 | `metadata` first, `cells` last, the other keys in their order; a permutation without duplicates |
| Nbfmt.SortNotebookMissing | tools/nbfmt.py:171-172 | a missing `metadata` or `cells` key raises KeyError |
| Nbfmt.FormatFile | tools/nbfmt.py:185-222 | the outcome of one argument is `FileResult`: skipped for a suffix, skipped for bad JSON, an exception, skipped for warnings, or the written notebook |
| Nbfmt.WrittenMeaning | tools/nbfmt.py:185-222 | a file is written iff it is named `*.ipynb`, parses as a notebook with a dict `colab`, and either ignore_warn is set or it has the license and every required pattern |
| Nbfmt.WrittenNotebook | tools/nbfmt.py:204-221 | the written notebook has the sorted keys, the cleaned and tagged cells, and the updated metadata |
| Nbfmt.WrittenShape | tools/nbfmt.py:204-221 | the written keys start with `metadata`, end with `cells` and permute the input's keys; every written cell has text and, without preserve_outputs, no outputs |
| Nbfmt.ExitCodeMeaning | tools/nbfmt.py:183-225 | the exit status is 0 iff every file was written |
| Nbfmt.FormatFiles | tools/nbfmt.py:176-225 | without file arguments: status 1; otherwise each argument's outcome in order, stopping at an exception, and the exit status follows the outcomes |
| Nbfmt.FormatArgs | tools/nbfmt.py:185-225 | the loop gives each argument's outcome in order, stops only after an exception, and exits with 1 iff a file was skipped or an exception was raised |
| Nbfmt.Record | tools/nbfmt.py:185-215 | recording one outcome keeps `did_skip` and the crash flag equal to their definitions over all outcomes so far |
| PrettyDocs.ByShortNameSpec | tools/tensorflow_docs/api_generator/pretty_docs.py:122 | the dictionary's keys are the short names present; each value is the last method with that name |
| PrettyDocs.OtherMethods | tools/tensorflow_docs/api_generator/pretty_docs.py:122-126 | after the pops, the keys are the short names present other than `__init__` and `__new__` |
| PrettyDocs.ConstructorChoice | tools/tensorflow_docs/api_generator/pretty_docs.py:124-133 | `__init__` is preferred over `__new__`; no constructor iff neither exists; the chosen one is the last method with its name |
| PrettyDocs.SplitMethods | tools/tensorflow_docs/api_generator/pretty_docs.py:107-135 | the loop and the pops give `OtherMethods` and `Constructor` |
| PrettyDocs.LastWhereSpec | tools/tensorflow_docs/api_generator/pretty_docs.py:182-187 | no block is kept iff none matches; otherwise the kept block is the last match |
| PrettyDocs.FirstAttributes | tools/tensorflow_docs/api_generator/pretty_docs.py:193-198 | the insertion point is the first Attributes block, or the end when there is none |
| PrettyDocs.MergeSpec | tools/tensorflow_docs/api_generator/pretty_docs.py:138-210 | without a constructor the docstring is unchanged; otherwise the blocks are the class's plus the constructor's last Args and last Raises block, with the prefix before Attributes kept, Args just before Attributes (or at the end), and Raises last |
| PrettyDocs.ClassDocstring.constructor | tools/tensorflow_docs/api_generator/pretty_docs.py:168 | the object wraps the class's docstring list |
| PrettyDocs.ClassDocstring.Merge | tools/tensorflow_docs/api_generator/pretty_docs.py:138-210 | the list is changed in place to `MergedBlocks` of the old list, and the strings of the new list are returned |
| PrettyDocs.MergeAgainGrows | tools/tensorflow_docs/api_generator/pretty_docs.py:191-207 | the merge is not idempotent: merging a second time into the changed list adds the blocks again |
| PrettyDocs.AliasPartition | tools/tensorflow_docs/api_generator/pretty_docs.py:570-579 | aliases with `__` are dropped; of the rest, those with `compat.v` are compat aliases and the others are main aliases; order is kept |
| PrettyDocs.AliasesEmpty | tools/tensorflow_docs/api_generator/pretty_docs.py:581-592 | the aliases section is empty iff every alias contains `__` |
| PrettyDocs.DecoratorLinesMembers | tools/tensorflow_docs/api_generator/pretty_docs.py:485-486 | a decorator line is `@d` for a whitelisted decorator `d` of the object |
| PrettyDocs.DecoratorLinesAppend | tools/tensorflow_docs/api_generator/pretty_docs.py:485-486 | decorator lines keep the decorators' order |
| PrettyDocs.SignatureShape | tools/tensorflow_docs/api_generator/pretty_docs.py:453-490 | `tf.range` gets its fixed two-line signature; any other object gets the python fence, its whitelisted decorators, `name + signature` and the closing fence |
| PrettyDocs.SignatureIgnoresDecorator | tools/tensorflow_docs/api_generator/pretty_docs.py:443-490 | a decorator outside the whitelist does not change the signature |
| PrettyDocs.TitleFrom | tools/tensorflow_docs/api_generator/pretty_docs.py:502 | `str.title` keeps the length and which characters are letters |
| PrettyDocs.TitleFromSpec | tools/tensorflow_docs/api_generator/pretty_docs.py:502 | `str.title` upper-cases a lower-case letter that follows no letter, lower-cases an upper-case letter that follows a letter, and keeps every other character |
| PrettyDocs.TitleFromIdempotent | tools/tensorflow_docs/api_generator/pretty_docs.py:502 | `title` applied twice equals `title` applied once |
| PrettyDocs.CompatibilitySpec | tools/tensorflow_docs/api_generator/pretty_docs.py:493-504 | one section per key, in sorted key order, each key once; no keys give "" |
| PrettyDocs.SmallSourceLink | tools/tensorflow_docs/api_generator/pretty_docs.py:534-541 | the small link is empty iff the url is empty |
| PrettyDocs.TopSourceLinkCases | tools/tensorflow_docs/api_generator/pretty_docs.py:507-531 | no location or url gives the empty table; a non-GitHub url gives the empty table plus the small link; a GitHub url gives the button; a non-empty url always appears in the result |
| PrettyDocs.BuildMdPageSpec | tools/tensorflow_docs/api_generator/pretty_docs.py:36-58 | an error iff the page info is of another type, with message `Unknown Page Info Type: <class '...'>`; class and function pages start with `# name`, module pages with `# Module: name` |
| PrettyDocs.CustomContentEndsPage | tools/tensorflow_docs/api_generator/pretty_docs.py:273-276 | with custom content, the page ends with that content (class, function and module pages alike) |
| PrettyDocs.ClassCustomHidesMembers | tools/tensorflow_docs/api_generator/pretty_docs.py:273-303 | with custom content, child classes and class variables do not affect the class page |
| PrettyDocs.ModuleCustomHidesMembers | tools/tensorflow_docs/api_generator/pretty_docs.py:392-440 | with custom content, the module page does not depend on its modules, classes, functions or other members |

## Left out

- Reading and writing files, JSON parsing and serialisation (`json.load`,
  `json.dumps` with indent 2), and every message printed to stderr. A
  notebook arrives already parsed, as a `LoadResult` (linter) or a
  `JsonFile` (nbfmt). `Nbfmt.FormatFiles` takes the reading step as a
  parameter `read`.
- The absl flags `preserve_outputs` and `ignore_warn`. They are method
  parameters.
- `pathlib` path handling is not modelled. `Path.suffix` is modelled on the
  last path segment (`BaseName`). `filepath.parents` is given as a list of
  directory strings (`FilePath.parents`).
- The order of keys inside `metadata`, `colab` and cell metadata. These are
  modelled as maps. The order of the notebook's top-level keys is modelled,
  since `sort_notebook` changes it.
- Cell `metadata` that is present but not a dict, and top-level `metadata`
  that is not a dict. The source would raise on both. Cell metadata is
  modelled as an optional dict, and top-level `metadata` likewise.
- Malformed cells. A `Cell` always has a `cell_type` string and a `source`
  list of strings, so `Parsed`, `NotebookFile`, `Raised` and `Crashed`
  never arise from a cell's shape. The source fails on such cells:
  - a cell that is not a JSON object makes `cell.get` raise
    AttributeError in the linter (linter.py:98);
  - a cell without `source` raises KeyError in the linter (linter.py:106)
    and in nbfmt's `delete_cells` (nbfmt.py:65), which `main` does not catch;
  - a cell without `cell_type` raises KeyError in nbfmt (nbfmt.py:71)
    when outputs are stripped. The linter reads it with `.get`
    (linter.py:98), so there it is only out of scope for CODE and TEXT
    lints;
  - a `source` item that is not a string makes `"".join` raise TypeError
    (linter.py:106, nbfmt.py:117).
- The regular-expression engine. Only the three patterns the code uses are
  modelled: the copyright pattern, the license title and the TF2 magic.
- The ANSI colour codes are kept as constants. Terminal rendering is not
  modelled.
- The registration decorator (`decorator.py`) is not part of this model.
  - `Cond` is a closed two-valued datatype, so the "Unsupported lint
    condition" exception of `_run_lint_group` cannot arise.
  - A lint that declares no condition is registered under ANY.
  - The (scope, condition) table answers an empty list for a key that
    nobody registered under, where the source's dictionary holds every key.
  - `for cond in decorator.Options.Cond` iterates the enum in its
    declaration order in `decorator.py`; the model takes that order to be
    ANY, then ALL (`Linter.Conds`).
- A CODE/ANY group over zero code cells could be read as vacuously true.
  The code computes `any([])`, which is False, and the model follows the
  code (`LinterFacts.EmptyScopeVerdict`).
- `PrettyDocs.CompatibilitySpec`: `textwrap.dedent` of each compatibility
  note is not applied. The value is inserted as given.
- `PrettyDocs.TitleFrom`: `str.title` is modelled for ASCII letters only.
- `StyleRun.RegistryVerdict`: `Registry` runs the corrected not_translation lint, so this verdict and `StyleRun.RegistryPasses` describe the corrected program; the run as written is `RegistryAsWritten`, whose verdict is `StyleRun.RegistryVerdictAsWritten`.
- The multi-line templates of `pretty_docs.py` are written out as constant
  strings, with the text `textwrap.dedent` leaves.
- `PrettyDocs.BuildMdPage`: the pure page builder does not carry the
  in-place change of `page_info.doc.docstring_parts`.
  `PrettyDocs.ClassDocstring.Merge` models that change, and
  `PrettyDocs.MergeAgainGrows` states its consequence.
- The `parser` module and the docstring parser are not part of this model.
  `str` of a `TitleBlock` is carried by the block.
  `doc_controls.get_custom_page_content` is the page's `custom` field.
  `doc_generator_visitor.maybe_singleton` with `repr` is an other member's
  optional `singleton` text.
- A notebook whose top-level JSON value is not an object makes
  `_load_notebook` raise AttributeError. The model treats it like a JSON
  object without a cell list, which exits with status 1.
- `type(page_info)` in the error message is rendered from the type's name.

## Findings

| source | as written | input that shows it | evidently intended | confidence | as-written member | corrected member |
|---|---|---|---|---|---|---|
| tools/tensorflow_docs/tools/nblint/style/tensorflow.py:63-66 | `"site" not in filepath.parents` compares a `str` with the `PurePath` objects of `parents`. These never compare equal, so the lint always returns True | the notebook `site/ja/guide.ipynb`, whose parents are `site/ja`, `site` and `.` | a notebook under `site/` but not under `site/en/` fails the lint | not executed | TensorflowStyle.TranslationSlipsThrough | TensorflowStyle.NotTranslation |
