/**
 * The notebook formatter: drop empty cells, strip outputs, set the Colab
 * metadata, tag license cells as forms, check the required patterns, and
 * write the notebook back with `metadata` first and `cells` last.
 */
module Nbfmt {
  import opened Wrappers
  import opened Text
  import opened Notebook
  import opened TensorflowStyle

  // ---------------------------------------------------------------------------
  // Paths

  /** The position of the last `c` in `s`, as `str.rfind`. */
  function LastIndexOf(s: string, c: char): (r: Option<nat>)
    ensures r.Some? ==> r.value < |s| && s[r.value] == c && forall j | r.value < j < |s| :: s[j] != c
    ensures r.None? ==> forall j | 0 <= j < |s| :: s[j] != c
  {
    if s == [] then None
    else if s[|s| - 1] == c then Some(|s| - 1)
    else LastIndexOf(s[..|s| - 1], c)
  }

  /**
   * The last component of a path: `os.path.basename`, and `Path.name`. It is
   * the longest slash-free suffix: the whole path, or what follows its last `/`.
   */
  function BaseName(path: string): (r: string)
    ensures forall j | 0 <= j < |r| :: r[j] != '/'
    ensures |r| <= |path| && r == path[|path| - |r|..]
    ensures |r| < |path| ==> path[|path| - |r| - 1] == '/'
  {
    match LastIndexOf(path, '/')
    case None => path
    case Some(i) => path[i + 1..]
  }

  /** `PurePath.suffix`: from the last dot of the name on, unless that dot is the name's first or last character. */
  function Suffix(name: string): string
  {
    match LastIndexOf(name, '.')
    case None => ""
    case Some(i) => if 0 < i < |name| - 1 then name[i..] else ""
  }

  const NotebookSuffix := ".ipynb"

  /** The name ends in `.ipynb` with something before it. */
  predicate IsNotebookName(name: string)
  {
    |name| > |NotebookSuffix| && name[|name| - |NotebookSuffix|..] == NotebookSuffix
  }

  /** A name has the notebook suffix iff it ends in `.ipynb` with something before it. */
  lemma NotebookSuffixMeaning(name: string)
    ensures Suffix(name) == NotebookSuffix <==> IsNotebookName(name)
  {
    var n := |name|;
    if n > 6 && name[n - 6..] == NotebookSuffix {
      assert name[n - 6] == '.';
      forall j | n - 6 < j < n ensures name[j] != '.' {
        assert name[j] == NotebookSuffix[j - (n - 6)];
      }
      var r := LastIndexOf(name, '.');
      assert r.Some? && r.value == n - 6;
    }
  }

  // ---------------------------------------------------------------------------
  // The notebook

  /** No key occurs twice, as in a parsed JSON object. */
  predicate Distinct(keys: seq<string>)
  {
    forall i, j | 0 <= i < j < |keys| :: keys[i] != keys[j]
  }

  /**
   * A parsed notebook: its top-level keys in file order, the `cells` list and
   * the `metadata` object (None when the file has no `metadata` key).
   */
  datatype NotebookValue = NotebookValue(keys: seq<string>, cells: seq<Cell>, metadata: Option<map<string, Json>>)

  /** The keys are those of a JSON object, `cells` is one of them, and `metadata` is one iff it has a value. */
  predicate ValidValue(v: NotebookValue)
  {
    Distinct(v.keys) && "cells" in v.keys && ("metadata" in v.keys <==> v.metadata.Some?)
  }

  /** A notebook as `json.load` returns it. */
  type ParsedNotebook = v: NotebookValue | ValidValue(v) witness NotebookValue(["cells"], [], None)

  /** `f` applied to every cell, in place. */
  function MapCells(f: Cell -> Cell, cells: seq<Cell>): (r: seq<Cell>)
    ensures |r| == |cells|
    ensures forall i | 0 <= i < |r| :: r[i] == f(cells[i])
  {
    if cells == [] then [] else MapCells(f, cells[..|cells| - 1]) + [f(cells[|cells| - 1])]
  }

  // ---------------------------------------------------------------------------
  // delete_cells

  /** `any(cell["source"])`: some line of the cell is non-empty. */
  predicate HasText(cell: Cell)
  {
    exists i | 0 <= i < |cell.source| :: cell.source[i] != ""
  }

  /** The cells `delete_cells` keeps, in their order. */
  function KeptCells(cells: seq<Cell>): seq<Cell>
  {
    if cells == [] then []
    else KeptCells(cells[..|cells| - 1]) + (if HasText(cells[|cells| - 1]) then [cells[|cells| - 1]] else [])
  }

  /** `cell.get("outputs")` is truthy: the cell holds a non-empty output list. */
  predicate HasOutputs(cell: Cell)
  {
    cell.outputs.Some? && cell.outputs.value != []
  }

  /** A code cell with outputs, which `delete_cells` clears. */
  predicate NeedsStripping(cell: Cell)
  {
    cell.cellType == "code" && HasOutputs(cell)
  }

  /** A cell after output stripping: execution count 0 and no outputs. */
  function Stripped(cell: Cell): Cell
  {
    if NeedsStripping(cell) then cell.(executionCount := Some(JNum(0)), outputs := Some([])) else cell
  }

  /** The cells after `delete_cells`. */
  function Cleaned(cells: seq<Cell>, preserveOutputs: bool): seq<Cell>
  {
    if preserveOutputs then KeptCells(cells) else MapCells(Stripped, KeptCells(cells))
  }

  /** A cell is kept iff it is in the notebook and has text. */
  lemma {:induction false} KeptCellsMembership(cells: seq<Cell>)
    ensures forall c :: c in KeptCells(cells) <==> (c in cells && HasText(c))
  {
    if cells != [] {
      KeptCellsMembership(cells[..|cells| - 1]);
      assert cells == cells[..|cells| - 1] + [cells[|cells| - 1]];
    }
  }

  /** Keeping commutes with concatenation, so kept cells stay in their relative order. */
  lemma {:induction false} KeptCellsAppend(a: seq<Cell>, b: seq<Cell>)
    ensures KeptCells(a + b) == KeptCells(a) + KeptCells(b)
    decreases |b|
  {
    if b == [] {
      assert a + b == a;
    } else {
      var b' := b[..|b| - 1];
      assert (a + b)[..|a + b| - 1] == a + b';
      KeptCellsAppend(a, b');
    }
  }

  /** Deleting twice deletes nothing more. */
  lemma {:induction false} KeptCellsIdempotent(cells: seq<Cell>)
    ensures KeptCells(KeptCells(cells)) == KeptCells(cells)
  {
    if cells != [] {
      var init := cells[..|cells| - 1];
      var last := cells[|cells| - 1];
      KeptCellsIdempotent(init);
      KeptCellsAppend(KeptCells(init), if HasText(last) then [last] else []);
    }
  }

  /** Every cell left after `delete_cells` has text; none left has outputs to clear unless outputs are preserved. */
  lemma CleanedCells(cells: seq<Cell>, preserveOutputs: bool)
    ensures forall i | 0 <= i < |Cleaned(cells, preserveOutputs)| :: HasText(Cleaned(cells, preserveOutputs)[i])
    ensures !preserveOutputs ==> forall i | 0 <= i < |Cleaned(cells, false)| :: !NeedsStripping(Cleaned(cells, false)[i])
  {
    KeptCellsMembership(cells);
    var kept := KeptCells(cells);
    forall i | 0 <= i < |kept| ensures HasText(kept[i]) {
      assert kept[i] in kept;
    }
  }

  /** `delete_cells` is idempotent. */
  lemma CleanedIdempotent(cells: seq<Cell>, preserveOutputs: bool)
    ensures Cleaned(Cleaned(cells, preserveOutputs), preserveOutputs) == Cleaned(cells, preserveOutputs)
  {
    KeptCellsIdempotent(cells);
    if !preserveOutputs {
      var s := MapCells(Stripped, KeptCells(cells));
      StrippedKeepText(cells);
      KeptCellsAll(s);
      StrippedTwice(KeptCells(cells));
    }
  }

  /** Clearing outputs leaves the text alone, so every stripped kept cell still has text. */
  lemma StrippedKeepText(cells: seq<Cell>)
    ensures forall c | c in MapCells(Stripped, KeptCells(cells)) :: HasText(c)
  {
    KeptCellsMembership(cells);
    var kept := KeptCells(cells);
    var s := MapCells(Stripped, kept);
    forall c | c in s ensures HasText(c) {
      var i :| 0 <= i < |s| && s[i] == c;
      assert kept[i] in kept;
      assert c.source == kept[i].source;
    }
  }

  /** Clearing outputs twice clears nothing more. */
  lemma StrippedTwice(cells: seq<Cell>)
    ensures MapCells(Stripped, MapCells(Stripped, cells)) == MapCells(Stripped, cells)
  {
    MapCellsTwice(Stripped, cells);
  }

  /** A list whose every cell has text is kept whole. */
  lemma {:induction false} KeptCellsAll(cells: seq<Cell>)
    requires forall c | c in cells :: HasText(c)
    ensures KeptCells(cells) == cells
  {
    if cells != [] {
      var init := cells[..|cells| - 1];
      var last := cells[|cells| - 1];
      assert cells == init + [last];
      KeptCellsAll(init);
      assert HasText(last);
    }
  }

  // ---------------------------------------------------------------------------
  // update_metadata

  /** `metadata.get("colab", {})` is a dict, so `update_metadata` can set its entries. */
  predicate ColabWritable(metadata: Option<map<string, Json>>)
  {
    metadata.None? || "colab" !in metadata.value || metadata.value["colab"].JObj?
  }

  /** The `colab` entries before the update. */
  function ColabFields(metadata: Option<map<string, Json>>): map<string, Json>
    requires ColabWritable(metadata)
  {
    if metadata.Some? && "colab" in metadata.value then metadata.value["colab"].fields else map[]
  }

  /** The `colab` entries after `update_metadata`. */
  function UpdatedColab(colab: map<string, Json>, filepath: Option<string>, preserveOutputs: bool): map<string, Json>
  {
    var named := if filepath.Some? then colab["name" := JStr(BaseName(filepath.value))] else colab;
    named["private_outputs" := JBool(!preserveOutputs)]["provenance" := JArr([])]["toc_visible" := JBool(true)]
  }

  /** The metadata after `update_metadata`. */
  function UpdatedMetadata(metadata: Option<map<string, Json>>, filepath: Option<string>, preserveOutputs: bool): map<string, Json>
    requires ColabWritable(metadata)
  {
    metadata.GetOr(map[])["colab" := JObj(UpdatedColab(ColabFields(metadata), filepath, preserveOutputs))]
  }

  /** The `colab` entries after the update: the four set by `update_metadata`, and the others kept. */
  lemma UpdatedColabSpec(colab: map<string, Json>, filepath: Option<string>, preserveOutputs: bool)
    ensures var c := UpdatedColab(colab, filepath, preserveOutputs);
      && c["private_outputs"] == JBool(!preserveOutputs)
      && c["provenance"] == JArr([])
      && c["toc_visible"] == JBool(true)
      && (filepath.Some? ==> c["name"] == JStr(BaseName(filepath.value)))
      && (filepath.None? && "name" in colab ==> c["name"] == colab["name"])
      && c.Keys == colab.Keys + {"private_outputs", "provenance", "toc_visible"} + (if filepath.Some? then {"name"} else {})
      && (forall k | k in colab && k !in {"name", "private_outputs", "provenance", "toc_visible"} :: c[k] == colab[k])
  {
    var named := if filepath.Some? then colab["name" := JStr(BaseName(filepath.value))] else colab;
    assert named.Keys == colab.Keys + (if filepath.Some? then {"name"} else {});
  }

  /**
   * What `update_metadata` sets: the notebook name (when a path is given),
   * private outputs unless outputs are preserved, an empty provenance and a
   * visible table of contents; every other entry, in `colab` or beside it,
   * is kept.
   */
  lemma UpdatedMetadataSpec(metadata: Option<map<string, Json>>, filepath: Option<string>, preserveOutputs: bool)
    requires ColabWritable(metadata)
    ensures var m := UpdatedMetadata(metadata, filepath, preserveOutputs);
      && m.Keys == metadata.GetOr(map[]).Keys + {"colab"}
      && (forall k | k in metadata.GetOr(map[]) && k != "colab" :: m[k] == metadata.GetOr(map[])[k])
      && m["colab"].JObj?
      && m["colab"].fields["private_outputs"] == JBool(!preserveOutputs)
      && m["colab"].fields["provenance"] == JArr([])
      && m["colab"].fields["toc_visible"] == JBool(true)
      && (filepath.Some? ==> m["colab"].fields["name"] == JStr(BaseName(filepath.value)))
      && (filepath.None? && "name" in ColabFields(metadata) ==> m["colab"].fields["name"] == ColabFields(metadata)["name"])
      && m["colab"].fields.Keys == ColabFields(metadata).Keys + {"private_outputs", "provenance", "toc_visible"}
        + (if filepath.Some? then {"name"} else {})
      && (forall k | k in ColabFields(metadata) && k !in {"name", "private_outputs", "provenance", "toc_visible"} ::
            m["colab"].fields[k] == ColabFields(metadata)[k])
  {
    var m := UpdatedMetadata(metadata, filepath, preserveOutputs);
    var c := UpdatedColab(ColabFields(metadata), filepath, preserveOutputs);
    UpdatedColabSpec(ColabFields(metadata), filepath, preserveOutputs);
    assert m == metadata.GetOr(map[])["colab" := JObj(c)];
    assert m["colab"].fields == c;
  }

  /** Updating twice with the same arguments changes nothing more. */
  lemma UpdatedMetadataIdempotent(metadata: Option<map<string, Json>>, filepath: Option<string>, preserveOutputs: bool)
    requires ColabWritable(metadata)
    ensures ColabWritable(Some(UpdatedMetadata(metadata, filepath, preserveOutputs)))
    ensures UpdatedMetadata(Some(UpdatedMetadata(metadata, filepath, preserveOutputs)), filepath, preserveOutputs)
      == UpdatedMetadata(metadata, filepath, preserveOutputs)
  {
    var c := UpdatedColab(ColabFields(metadata), filepath, preserveOutputs);
    var m := metadata.GetOr(map[])["colab" := JObj(c)];
    assert UpdatedMetadata(metadata, filepath, preserveOutputs) == m;
    assert ColabFields(Some(m)) == c;
    UpdatedColabTwice(ColabFields(metadata), filepath, preserveOutputs);
    assert UpdatedMetadata(Some(m), filepath, preserveOutputs) == m["colab" := JObj(c)];
    assert m["colab" := JObj(c)] == m;
  }

  /** Setting the Colab entries twice sets nothing more. */
  lemma UpdatedColabTwice(colab: map<string, Json>, filepath: Option<string>, preserveOutputs: bool)
    ensures UpdatedColab(UpdatedColab(colab, filepath, preserveOutputs), filepath, preserveOutputs)
         == UpdatedColab(colab, filepath, preserveOutputs)
  {
  }

  /** The top-level keys after `update_metadata`: a missing `metadata` key is added last. */
  function KeysWithMetadata(keys: seq<string>): seq<string>
  {
    if "metadata" in keys then keys else keys + ["metadata"]
  }

  /** After `update_metadata` a notebook's keys are still distinct and hold both `metadata` and `cells`. */
  lemma KeysWithMetadataValid(v: ParsedNotebook)
    ensures var keys := KeysWithMetadata(v.keys);
      Distinct(keys) && "metadata" in keys && "cells" in keys
  {
    if "metadata" !in v.keys {
      var keys := v.keys + ["metadata"];
      forall i, j | 0 <= i < j < |keys| ensures keys[i] != keys[j] {
        if j == |v.keys| {
          assert keys[i] == v.keys[i];
        }
      }
    }
  }

  // ---------------------------------------------------------------------------
  // has_license_and_update

  /** A license cell gets `cellView: form` in its metadata; other cells are unchanged. */
  function LicenseTagged(cell: Cell): Cell
  {
    if LicenseCheck(SourceText(cell)) then cell.(metadata := Some(cell.metadata.GetOr(map[])["cellView" := JStr("form")]))
    else cell
  }

  /** Some cell holds the license title. */
  predicate HasLicense(cells: seq<Cell>)
  {
    exists i | 0 <= i < |cells| :: LicenseCheck(SourceText(cells[i]))
  }

  /** Tagging a cell keeps its source and is idempotent. */
  lemma LicenseTaggedCell(cell: Cell)
    ensures LicenseTagged(cell).source == cell.source
    ensures LicenseTagged(LicenseTagged(cell)) == LicenseTagged(cell)
    ensures LicenseCheck(SourceText(cell)) ==>
      LicenseTagged(cell).metadata.Some? && LicenseTagged(cell).metadata.value["cellView"] == JStr("form")
  {
    var t := LicenseTagged(cell);
    assert SourceText(t) == SourceText(cell);
    if LicenseCheck(SourceText(cell)) {
      var m := t.metadata.value;
      assert m["cellView" := JStr("form")] == m;
    }
  }

  /**
   * Tagging keeps every source, so it keeps which cells hold the license;
   * every license cell becomes a form; and tagging twice changes nothing more.
   */
  lemma LicenseTaggedSpec(cells: seq<Cell>)
    ensures forall i | 0 <= i < |cells| :: MapCells(LicenseTagged, cells)[i].source == cells[i].source
    ensures HasLicense(MapCells(LicenseTagged, cells)) <==> HasLicense(cells)
    ensures forall i | 0 <= i < |cells| && LicenseCheck(SourceText(cells[i])) ::
      MapCells(LicenseTagged, cells)[i].metadata.Some?
      && MapCells(LicenseTagged, cells)[i].metadata.value["cellView"] == JStr("form")
    ensures MapCells(LicenseTagged, MapCells(LicenseTagged, cells)) == MapCells(LicenseTagged, cells)
  {
    LicenseTaggedSources(cells);
    LicenseTaggedForms(cells);
    LicenseTaggedTwice(cells);
  }

  /** Tagging leaves every source, and so the presence of a license, as it was. */
  lemma LicenseTaggedSources(cells: seq<Cell>)
    ensures forall i | 0 <= i < |cells| :: MapCells(LicenseTagged, cells)[i].source == cells[i].source
    ensures HasLicense(MapCells(LicenseTagged, cells)) <==> HasLicense(cells)
  {
    var t := MapCells(LicenseTagged, cells);
    forall i | 0 <= i < |cells| ensures t[i].source == cells[i].source {
      LicenseTaggedCell(cells[i]);
    }
    SameSourcesSameLicense(t, cells);
  }

  /** Every license cell comes out as a form. */
  lemma LicenseTaggedForms(cells: seq<Cell>)
    ensures forall i | 0 <= i < |cells| && LicenseCheck(SourceText(cells[i])) ::
      MapCells(LicenseTagged, cells)[i].metadata.Some?
      && MapCells(LicenseTagged, cells)[i].metadata.value["cellView"] == JStr("form")
  {
    var t := MapCells(LicenseTagged, cells);
    forall i | 0 <= i < |cells| && LicenseCheck(SourceText(cells[i]))
      ensures t[i].metadata.Some? && t[i].metadata.value["cellView"] == JStr("form")
    {
      LicenseTaggedCell(cells[i]);
    }
  }

  /** Tagging twice is tagging once. */
  lemma LicenseTaggedTwice(cells: seq<Cell>)
    ensures MapCells(LicenseTagged, MapCells(LicenseTagged, cells)) == MapCells(LicenseTagged, cells)
  {
    forall c ensures LicenseTagged(LicenseTagged(c)) == LicenseTagged(c) {
      LicenseTaggedCell(c);
    }
    MapCellsTwice(LicenseTagged, cells);
  }

  /** Mapping an idempotent cell update twice is mapping it once. */
  lemma MapCellsTwice(f: Cell -> Cell, cells: seq<Cell>)
    requires forall c :: f(f(c)) == f(c)
    ensures MapCells(f, MapCells(f, cells)) == MapCells(f, cells)
  {
    var once := MapCells(f, cells);
    var twice := MapCells(f, once);
    forall i | 0 <= i < |once| ensures twice[i] == once[i] {
      assert once[i] == f(cells[i]);
    }
  }

  /** Whether a notebook holds the license depends on the cells' sources only. */
  lemma SameSourcesSameLicense(a: seq<Cell>, b: seq<Cell>)
    requires |a| == |b| && forall i | 0 <= i < |a| :: a[i].source == b[i].source
    ensures HasLicense(a) <==> HasLicense(b)
  {
    if HasLicense(a) {
      var i :| 0 <= i < |a| && LicenseCheck(SourceText(a[i]));
      assert SourceText(a[i]) == SourceText(b[i]);
    }
    if HasLicense(b) {
      var i :| 0 <= i < |b| && LicenseCheck(SourceText(b[i]));
      assert SourceText(a[i]) == SourceText(b[i]);
    }
  }

  // ---------------------------------------------------------------------------
  // has_required_regexps

  /** The entries of `REQUIRED_REGEXPS`. */
  datatype RequiredPattern = CopyrightPattern | ColabMagicPattern

  /** `REQUIRED_REGEXPS` in its dictionary order. */
  const RequiredPatterns := [CopyrightPattern, ColabMagicPattern]

  /** The description each pattern is reported under. */
  function Description(p: RequiredPattern): string
  {
    match p
    case CopyrightPattern => "copyright"
    case ColabMagicPattern => "TF2 Colab magic"
  }

  /** The Colab magic pattern; its `.` is the only metacharacter. */
  const ColabMagicRegex := "%tensorflow_version 2.x"

  /** One pattern character against one text character: `.` matches anything but a newline. */
  predicate CharMatches(pc: char, c: char)
  {
    if pc == '.' then c != '\n' else c == pc
  }

  /** A pattern of literal characters and dots matches at `i`. */
  predicate DotMatchAt(pattern: string, s: string, i: nat)
  {
    i + |pattern| <= |s| && forall k | 0 <= k < |pattern| :: CharMatches(pattern[k], s[i + k])
  }

  /** `re.search` for a pattern of literal characters and dots. */
  predicate DotSearch(pattern: string, s: string)
  {
    exists i | 0 <= i <= |s| :: DotMatchAt(pattern, s, i)
  }

  /** Without a dot the search is a plain substring search. */
  lemma DotSearchLiteral(pattern: string, s: string)
    requires forall k | 0 <= k < |pattern| :: pattern[k] != '.'
    ensures DotSearch(pattern, s) <==> Contains(s, pattern)
  {
    if DotSearch(pattern, s) {
      var i :| 0 <= i <= |s| && DotMatchAt(pattern, s, i);
      assert s[i..i + |pattern|] == pattern;
      assert OccursAt(s, pattern, i);
    }
    if Contains(s, pattern) {
      var i :| OccursAt(s, pattern, i);
      assert DotMatchAt(pattern, s, i) by {
        forall k | 0 <= k < |pattern| ensures CharMatches(pattern[k], s[i + k]) {
          assert s[i..i + |pattern|][k] == s[i + k];
        }
      }
    }
  }

  /** The magic line is found anywhere, and so is any line differing from it only at the dot. */
  lemma ColabMagicAccepted(pre: string, c: char, post: string)
    requires c != '\n'
    ensures DotSearch(ColabMagicRegex, pre + "%tensorflow_version 2" + [c] + "x" + post)
  {
    var s := pre + "%tensorflow_version 2" + [c] + "x" + post;
    var m := "%tensorflow_version 2" + [c] + "x";
    assert s == pre + m + post;
    assert |m| == |ColabMagicRegex|;
    forall k | 0 <= k < |ColabMagicRegex| ensures CharMatches(ColabMagicRegex[k], s[|pre| + k]) {
      assert s[|pre| + k] == m[k];
    }
    assert DotMatchAt(ColabMagicRegex, s, |pre|);
  }

  /** `regexp.search(src_text)` for one required pattern. */
  predicate Matches(p: RequiredPattern, text: string)
  {
    match p
    case CopyrightPattern => CopyrightCheck(text)
    case ColabMagicPattern => DotSearch(ColabMagicRegex, text)
  }

  /** Some cell's text matches the pattern. */
  ghost predicate PatternFound(p: RequiredPattern, cells: seq<Cell>)
  {
    exists i | 0 <= i < |cells| :: Matches(p, SourceText(cells[i]))
  }

  /** The first pattern, in order, that no cell matches. */
  ghost function FirstMissing(patterns: seq<RequiredPattern>, cells: seq<Cell>): Option<RequiredPattern>
  {
    if patterns == [] then None
    else if !PatternFound(patterns[0], cells) then Some(patterns[0])
    else FirstMissing(patterns[1..], cells)
  }

  /** No pattern is missing iff every pattern is found; a missing one is the first not found. */
  lemma {:induction false} FirstMissingMeaning(patterns: seq<RequiredPattern>, cells: seq<Cell>)
    ensures FirstMissing(patterns, cells).None? <==> forall k | 0 <= k < |patterns| :: PatternFound(patterns[k], cells)
    ensures FirstMissing(patterns, cells).Some? ==>
      exists k | 0 <= k < |patterns| ::
        && patterns[k] == FirstMissing(patterns, cells).value
        && !PatternFound(patterns[k], cells)
        && forall j | 0 <= j < k :: PatternFound(patterns[j], cells)
  {
    if patterns != [] && PatternFound(patterns[0], cells) {
      var rest := patterns[1..];
      FirstMissingMeaning(rest, cells);
      if FirstMissing(rest, cells).Some? {
        var k :| 0 <= k < |rest| && rest[k] == FirstMissing(rest, cells).value
          && !PatternFound(rest[k], cells) && forall j | 0 <= j < k :: PatternFound(rest[j], cells);
        assert patterns[k + 1] == rest[k];
        forall j | 0 <= j < k + 1 ensures PatternFound(patterns[j], cells) {
          if j > 0 {
            assert patterns[j] == rest[j - 1];
          }
        }
      }
      if forall k | 0 <= k < |rest| :: PatternFound(rest[k], cells) {
        forall k | 0 <= k < |patterns| ensures PatternFound(patterns[k], cells) {
          if k > 0 {
            assert patterns[k] == rest[k - 1];
          }
        }
      }
    }
  }

  // ---------------------------------------------------------------------------
  // The notebook being formatted

  /**
   * The output-stripping loop of `delete_cells`: each code cell with outputs
   * gets execution count 0 and an empty output list; reports whether any did.
   */
  method StripOutputs(kept: seq<Cell>) returns (cells: seq<Cell>, removedOutputs: bool)
    ensures cells == MapCells(Stripped, kept)
    ensures removedOutputs <==> exists i | 0 <= i < |kept| :: NeedsStripping(kept[i])
  {
    cells := kept;
    removedOutputs := false;
    var idx := 0;
    while idx < |cells|
      invariant 0 <= idx <= |cells| == |kept|
      invariant forall j | 0 <= j < idx :: cells[j] == Stripped(kept[j])
      invariant forall j | idx <= j < |cells| :: cells[j] == kept[j]
      invariant removedOutputs <==> exists j | 0 <= j < idx :: NeedsStripping(kept[j])
    {
      var cell := cells[idx];
      if cell.cellType == "code" && cell.outputs.Some? && cell.outputs.value != [] {
        removedOutputs := true;
        cells := cells[idx := cell.(executionCount := Some(JNum(0)), outputs := Some([]))];
      }
      idx := idx + 1;
    }
  }

  /** Where `update_metadata` raises: the `colab` entry is not a dict. */
  datatype FormatError = ColabNotDict | NoCellList

  class NotebookData {
    var keys: seq<string>
    var cells: seq<Cell>
    var metadata: Option<map<string, Json>>

    /** The notebook as a value. */
    function Value(): NotebookValue
      reads this
    {
      NotebookValue(keys, cells, metadata)
    }

    ghost predicate Valid()
      reads this
    {
      ValidValue(Value())
    }

    constructor (v: NotebookValue)
      requires ValidValue(v)
      ensures Valid() && Value() == v
    {
      keys, cells, metadata := v.keys, v.cells, v.metadata;
    }

    /**
     * `delete_cells`: drop the cells without text and, unless outputs are
     * preserved, clear the outputs of code cells. The result is whether any
     * outputs were removed, which is when the warning is printed.
     */
    method DeleteCells(preserveOutputs: bool) returns (removedOutputs: bool)
      requires Valid()
      modifies this
      ensures Valid()
      ensures keys == old(keys) && metadata == old(metadata)
      ensures cells == Cleaned(old(cells), preserveOutputs)
      ensures removedOutputs <==> !preserveOutputs && exists i | 0 <= i < |KeptCells(old(cells))| :: NeedsStripping(KeptCells(old(cells))[i])
    {
      var kept := KeptCells(cells);
      cells := kept;
      removedOutputs := false;
      if !preserveOutputs {
        cells, removedOutputs := StripOutputs(kept);
      }
      assert kept == KeptCells(old(cells));
    }

    /**
     * `update_metadata`: set the Colab entries of the metadata, adding the
     * `metadata` key when it is missing. A `colab` entry that is not a dict
     * makes the item assignment raise, with nothing changed.
     */
    method UpdateMetadata(filepath: Option<string>, preserveOutputs: bool) returns (err: Option<FormatError>)
      requires Valid()
      modifies this
      ensures Valid()
      ensures err.Some? <==> !ColabWritable(old(metadata))
      ensures err.Some? ==> err.value == ColabNotDict && keys == old(keys) && metadata == old(metadata)
      ensures err.None? ==> metadata == Some(UpdatedMetadata(old(metadata), filepath, preserveOutputs)) && keys == KeysWithMetadata(old(keys))
      ensures cells == old(cells)
    {
      var md := if metadata.Some? then metadata.value else map[];
      var colab := if "colab" in md then md["colab"] else JObj(map[]);
      if !colab.JObj? {
        return Some(ColabNotDict);
      }
      var fields := colab.fields;
      if filepath.Some? {
        fields := fields["name" := JStr(BaseName(filepath.value))];
      }
      if preserveOutputs {
        fields := fields["private_outputs" := JBool(false)];
      } else {
        fields := fields["private_outputs" := JBool(true)];
      }
      fields := fields["provenance" := JArr([])];
      fields := fields["toc_visible" := JBool(true)];
      md := md["colab" := JObj(fields)];
      if "metadata" !in keys {
        keys := keys + ["metadata"];
      }
      metadata := Some(md);
      err := None;
    }

    /**
     * `has_license_and_update`: mark every cell holding the license title as
     * a form, and report whether there was one.
     */
    method HasLicenseAndUpdate() returns (hasLicense: bool)
      requires Valid()
      modifies this
      ensures Valid()
      ensures keys == old(keys) && metadata == old(metadata)
      ensures cells == MapCells(LicenseTagged, old(cells))
      ensures hasLicense <==> HasLicense(old(cells))
    {
      hasLicense := false;
      ghost var before := cells;
      var idx := 0;
      while idx < |cells|
        invariant 0 <= idx <= |cells| == |before|
        invariant keys == old(keys) && metadata == old(metadata)
        invariant forall j | 0 <= j < idx :: cells[j] == LicenseTagged(before[j])
        invariant forall j | idx <= j < |cells| :: cells[j] == before[j]
        invariant hasLicense <==> exists j | 0 <= j < idx :: LicenseCheck(SourceText(before[j]))
      {
        var cell := cells[idx];
        var srcText := Concat(cell.source);
        if Contains(srcText, LicenseTitle) {
          hasLicense := true;
          var md := if cell.metadata.Some? then cell.metadata.value else map[];
          md := md["cellView" := JStr("form")];
          cells := cells[idx := cell.(metadata := Some(md))];
        }
        idx := idx + 1;
      }
      assert cells == MapCells(LicenseTagged, before);
    }

    /**
     * `has_required_regexps`: each pattern in order must match some cell; the
     * first one that matches none is reported and ends the search.
     */
    method HasRequiredRegexps() returns (found: bool, missing: Option<RequiredPattern>)
      ensures missing == FirstMissing(RequiredPatterns, cells)
      ensures found <==> missing.None?
    {
      var k := 0;
      while k < |RequiredPatterns|
        invariant 0 <= k <= |RequiredPatterns|
        invariant FirstMissing(RequiredPatterns, cells) == FirstMissing(RequiredPatterns[k..], cells)
      {
        var pattern := RequiredPatterns[k];
        var hasPattern := HasPattern(pattern);
        assert RequiredPatterns[k..][0] == pattern;
        if !hasPattern {
          return false, Some(pattern);
        }
        assert RequiredPatterns[k..][1..] == RequiredPatterns[k + 1..];
        k := k + 1;
      }
      return true, None;
    }

    /** The inner loop of `has_required_regexps`: does some cell's source match `pattern`? */
    method HasPattern(pattern: RequiredPattern) returns (hasPattern: bool)
      ensures hasPattern <==> PatternFound(pattern, cells)
    {
      hasPattern := false;
      var i := 0;
      while i < |cells|
        invariant 0 <= i <= |cells|
        invariant !hasPattern ==> forall j | 0 <= j < i :: !Matches(pattern, SourceText(cells[j]))
      {
        if Matches(pattern, Concat(cells[i].source)) {
          return true;
        }
        i := i + 1;
      }
    }
  }

  // ---------------------------------------------------------------------------
  // sort_notebook

  /** `keys` without `k`. */
  function Remove(keys: seq<string>, k: string): (r: seq<string>)
    ensures forall x :: x in r <==> x in keys && x != k
  {
    if keys == [] then []
    else Remove(keys[..|keys| - 1], k) + (if keys[|keys| - 1] == k then [] else [keys[|keys| - 1]])
  }

  /** `OrderedDict.move_to_end(k, last=False)`; a missing key raises KeyError, shown by the key. */
  function MoveToFront(keys: seq<string>, k: string): Result<seq<string>, string>
  {
    if k in keys then Ok([k] + Remove(keys, k)) else Err(k)
  }

  /** `OrderedDict.move_to_end(k)`; a missing key raises KeyError. */
  function MoveToEnd(keys: seq<string>, k: string): Result<seq<string>, string>
  {
    if k in keys then Ok(Remove(keys, k) + [k]) else Err(k)
  }

  /** `sort_notebook` on the key order: `metadata` to the front, then `cells` to the end. */
  function SortNotebook(keys: seq<string>): Result<seq<string>, string>
  {
    match MoveToFront(keys, "metadata")
    case Err(e) => Err(e)
    case Ok(front) => MoveToEnd(front, "cells")
  }

  lemma {:induction false} RemoveAppend(a: seq<string>, b: seq<string>, k: string)
    ensures Remove(a + b, k) == Remove(a, k) + Remove(b, k)
    decreases |b|
  {
    if b == [] {
      assert a + b == a;
    } else {
      assert (a + b)[..|a + b| - 1] == a + b[..|b| - 1];
      RemoveAppend(a, b[..|b| - 1], k);
    }
  }

  /** Removing a key from a distinct list leaves a distinct list. */
  lemma {:induction false} RemoveDistinct(keys: seq<string>, k: string)
    requires Distinct(keys)
    ensures Distinct(Remove(keys, k))
  {
    if keys != [] {
      var init := keys[..|keys| - 1];
      var last := keys[|keys| - 1];
      assert Distinct(init);
      RemoveDistinct(init, k);
      assert last !in init;
      var r := Remove(keys, k);
      var ri := Remove(init, k);
      if last != k {
        assert r == ri + [last];
        forall a, b | 0 <= a < b < |r| ensures r[a] != r[b] {
          if b == |r| - 1 {
            assert r[a] in ri;
          } else {
            assert r[a] == ri[a] && r[b] == ri[b];
          }
        }
      }
    }
  }

  /** Removing a key takes away all its occurrences and nothing else. */
  lemma {:induction false} RemoveMultiset(keys: seq<string>, k: string)
    ensures multiset(Remove(keys, k)) == multiset(keys)[k := 0]
  {
    if keys != [] {
      var init := keys[..|keys| - 1];
      var last := keys[|keys| - 1];
      RemoveMultiset(init, k);
      assert multiset(keys) == multiset(init) + multiset{last} by {
        assert keys == init + [last];
      }
    }
  }

  /** A key occurs at most once in a distinct list. */
  lemma {:induction false} DistinctCount(keys: seq<string>, k: string)
    requires Distinct(keys)
    ensures multiset(keys)[k] <= 1
  {
    if keys != [] {
      var init := keys[..|keys| - 1];
      var last := keys[|keys| - 1];
      assert Distinct(init);
      DistinctCount(init, k);
      assert multiset(keys) == multiset(init) + multiset{last} by {
        assert keys == init + [last];
      }
      if last == k {
        assert multiset(init)[k] == 0 by {
          assert last !in init;
        }
      }
    }
  }

  /** A distinct list between two further keys stays distinct. */
  lemma DistinctBetween(first: string, mid: seq<string>, last: string)
    requires Distinct(mid) && first !in mid && last !in mid && first != last
    ensures Distinct([first] + mid + [last])
  {
    var r := [first] + mid + [last];
    assert forall i | 1 <= i < |r| - 1 :: r[i] == mid[i - 1];
    forall i, j | 0 <= i < j < |r| ensures r[i] != r[j] {
      if i == 0 && j < |r| - 1 {
        assert r[j] in mid;
      } else if 0 < i && j == |r| - 1 {
        assert r[i] in mid;
      }
    }
  }

  /** Moving `first` to the front and then `last` to the end of a list holding both. */
  lemma {:induction false} MoveBothOrder(keys: seq<string>, first: string, last: string)
    requires first in keys && last in keys && first != last
    ensures MoveToFront(keys, first).Ok?
    ensures MoveToEnd(MoveToFront(keys, first).value, last)
      == Ok([first] + Remove(Remove(keys, first), last) + [last])
  {
    var rest := Remove(keys, first);
    assert last in rest;
    RemoveAppend([first], rest, last);
    assert [first][..0] == [];
    assert Remove([first], last) == [first];
  }

  /** The same moves on a distinct list: a distinct permutation of it. */
  lemma MoveBothPermutes(keys: seq<string>, first: string, last: string)
    requires Distinct(keys) && first in keys && last in keys && first != last
    ensures multiset([first] + Remove(Remove(keys, first), last) + [last]) == multiset(keys)
    ensures Distinct([first] + Remove(Remove(keys, first), last) + [last])
  {
    var rest := Remove(keys, first);
    var mid := Remove(rest, last);
    RemoveDistinct(keys, first);
    RemoveDistinct(rest, last);
    RemoveMultiset(keys, first);
    RemoveMultiset(rest, last);
    DistinctCount(keys, first);
    DistinctCount(keys, last);
    assert last in rest;
    DistinctBetween(first, mid, last);
    assert multiset([first] + mid + [last]) == multiset{first} + multiset(mid) + multiset{last};
  }

  /**
   * Sorting a notebook that has both keys puts `metadata` first and `cells`
   * last, keeps every other key in its order, and is a permutation of the keys.
   */
  lemma SortNotebookSpec(keys: seq<string>)
    requires Distinct(keys) && "metadata" in keys && "cells" in keys
    ensures SortNotebook(keys) == Ok(["metadata"] + Remove(Remove(keys, "metadata"), "cells") + ["cells"])
    ensures multiset(SortNotebook(keys).value) == multiset(keys)
    ensures Distinct(SortNotebook(keys).value)
  {
    MoveBothOrder(keys, "metadata", "cells");
    MoveBothPermutes(keys, "metadata", "cells");
  }

  /** Without `metadata`, or without `cells`, sorting raises KeyError on that key. */
  lemma SortNotebookMissing(keys: seq<string>)
    ensures "metadata" !in keys ==> SortNotebook(keys) == Err("metadata")
    ensures "metadata" in keys && "cells" !in keys ==> SortNotebook(keys) == Err("cells")
  {
  }

  // ---------------------------------------------------------------------------
  // main

  /** What reading one argument gives: not JSON, JSON that is not a notebook object, or a notebook. */
  datatype JsonFile = NotJson | NotANotebook | NotebookFile(value: ParsedNotebook)

  /** What happened to one file. */
  datatype FileOutcome =
    | SkippedSuffix
    | SkippedJson
    | SkippedWarnings(hasLicense: bool, missing: Option<RequiredPattern>)
    | Written(written: NotebookValue)
    | Crashed(error: FormatError)

  predicate Skipped(o: FileOutcome)
  {
    o.SkippedSuffix? || o.SkippedJson? || o.SkippedWarnings?
  }

  /** The formatting of one file, step by step as `main` does it. */
  ghost function FileResult(arg: string, file: JsonFile, preserveOutputs: bool, ignoreWarn: bool): FileOutcome
  {
    if !IsNotebookName(BaseName(arg)) then SkippedSuffix
    else match file
      case NotJson => SkippedJson
      case NotANotebook => Crashed(NoCellList)
      case NotebookFile(v) =>
        if !ColabWritable(v.metadata) then Crashed(ColabNotDict)
        else
          var cleaned := Cleaned(v.cells, preserveOutputs);
          var tagged := MapCells(LicenseTagged, cleaned);
          var hasLicense := HasLicense(cleaned);
          var missing := FirstMissing(RequiredPatterns, tagged);
          if !ignoreWarn && (!hasLicense || missing.Some?) then SkippedWarnings(hasLicense, missing)
          else match SortNotebook(KeysWithMetadata(v.keys))
            case Ok(sorted) => Written(NotebookValue(sorted, tagged, Some(UpdatedMetadata(v.metadata, Some(arg), preserveOutputs))))
            case Err(_) => Crashed(NoCellList)
  }

  /**
   * The processing of one file in `main`: suffix check, JSON load, the four
   * formatting steps, the warning gate, and the sorted notebook to write.
   */
  method FormatFile(arg: string, file: JsonFile, preserveOutputs: bool, ignoreWarn: bool) returns (outcome: FileOutcome)
    ensures outcome == FileResult(arg, file, preserveOutputs, ignoreWarn)
  {
    NotebookSuffixMeaning(BaseName(arg));
    if Suffix(BaseName(arg)) != NotebookSuffix {
      return SkippedSuffix;
    }
    if file.NotJson? {
      return SkippedJson;
    }
    if file.NotANotebook? {
      return Crashed(NoCellList);
    }
    var data := new NotebookData(file.value);
    var removedOutputs := data.DeleteCells(preserveOutputs);
    ghost var cleaned := data.cells;
    var err := data.UpdateMetadata(Some(arg), preserveOutputs);
    if err.Some? {
      return Crashed(err.value);
    }
    var hasLicense := data.HasLicenseAndUpdate();
    var hasPatterns, missing := data.HasRequiredRegexps();
    if !ignoreWarn && (!hasLicense || !hasPatterns) {
      return SkippedWarnings(hasLicense, missing);
    }
    SortNotebookSpec(data.keys);
    var sorted := SortNotebook(data.keys);
    outcome := Written(NotebookValue(sorted.value, data.cells, data.metadata));
  }

  /** A file is written iff it is a `.ipynb` notebook with a writable `colab` entry that passes the warning gate. */
  lemma WrittenMeaning(arg: string, file: JsonFile, preserveOutputs: bool, ignoreWarn: bool)
    ensures FileResult(arg, file, preserveOutputs, ignoreWarn).Written?
      <==> (&& IsNotebookName(BaseName(arg))
            && file.NotebookFile?
            && ColabWritable(file.value.metadata)
            && (ignoreWarn || (HasLicense(Cleaned(file.value.cells, preserveOutputs))
                               && forall k | 0 <= k < |RequiredPatterns| ::
                                    PatternFound(RequiredPatterns[k], MapCells(LicenseTagged, Cleaned(file.value.cells, preserveOutputs))))))
  {
    if file.NotebookFile? {
      var v := file.value;
      FirstMissingMeaning(RequiredPatterns, MapCells(LicenseTagged, Cleaned(v.cells, preserveOutputs)));
      KeysWithMetadataValid(v);
      SortNotebookSpec(KeysWithMetadata(v.keys));
    }
  }

  /** The notebook `main` writes for a parsed notebook whose `colab` entry is writable. */
  lemma WrittenNotebook(arg: string, v: ParsedNotebook, preserveOutputs: bool, ignoreWarn: bool)
    requires FileResult(arg, NotebookFile(v), preserveOutputs, ignoreWarn).Written?
    ensures ColabWritable(v.metadata)
    ensures SortNotebook(KeysWithMetadata(v.keys)).Ok?
    ensures FileResult(arg, NotebookFile(v), preserveOutputs, ignoreWarn).written == NotebookValue(
      SortNotebook(KeysWithMetadata(v.keys)).value,
      MapCells(LicenseTagged, Cleaned(v.cells, preserveOutputs)),
      Some(UpdatedMetadata(v.metadata, Some(arg), preserveOutputs)))
  {
    assert IsNotebookName(BaseName(arg)) && ColabWritable(v.metadata);
    KeysWithMetadataValid(v);
    SortNotebookSpec(KeysWithMetadata(v.keys));
  }

  /**
   * A written notebook starts with `metadata`, ends with `cells`, holds the
   * same keys, and keeps only cells with text, without outputs unless they
   * are preserved.
   */
  lemma WrittenShape(arg: string, v: ParsedNotebook, preserveOutputs: bool, ignoreWarn: bool)
    requires FileResult(arg, NotebookFile(v), preserveOutputs, ignoreWarn).Written?
    ensures var w := FileResult(arg, NotebookFile(v), preserveOutputs, ignoreWarn).written;
      && |w.keys| >= 2 && w.keys[0] == "metadata" && w.keys[|w.keys| - 1] == "cells"
      && multiset(w.keys) == multiset(KeysWithMetadata(v.keys))
      && (forall i | 0 <= i < |w.cells| :: HasText(w.cells[i]))
      && (!preserveOutputs ==> forall i | 0 <= i < |w.cells| :: !NeedsStripping(w.cells[i]))
  {
    WrittenNotebook(arg, v, preserveOutputs, ignoreWarn);
    SortedKeysShape(v);
    TaggedCleanedCells(v.cells, preserveOutputs);
  }

  /** The sorted top-level keys: `metadata` first, `cells` last, the same keys. */
  lemma SortedKeysShape(v: ParsedNotebook)
    ensures SortNotebook(KeysWithMetadata(v.keys)).Ok?
    ensures var w := SortNotebook(KeysWithMetadata(v.keys)).value;
      && |w| >= 2 && w[0] == "metadata" && w[|w| - 1] == "cells"
      && multiset(w) == multiset(KeysWithMetadata(v.keys))
  {
    KeysWithMetadataValid(v);
    SortNotebookSpec(KeysWithMetadata(v.keys));
  }

  /** The cells written: each has text, and none has outputs unless they are preserved. */
  lemma TaggedCleanedCells(cells: seq<Cell>, preserveOutputs: bool)
    ensures var tagged := MapCells(LicenseTagged, Cleaned(cells, preserveOutputs));
      && (forall i | 0 <= i < |tagged| :: HasText(tagged[i]))
      && (!preserveOutputs ==> forall i | 0 <= i < |tagged| :: !NeedsStripping(tagged[i]))
  {
    CleanedCells(cells, preserveOutputs);
    var cleaned := Cleaned(cells, preserveOutputs);
    LicenseTaggedSpec(cleaned);
    var tagged := MapCells(LicenseTagged, cleaned);
    forall i | 0 <= i < |tagged| ensures HasText(tagged[i]) && (!preserveOutputs ==> !NeedsStripping(tagged[i])) {
      assert tagged[i].source == cleaned[i].source;
    }
  }

  /** Some outcome is a skip. */
  predicate AnySkipped(outcomes: seq<FileOutcome>)
  {
    outcomes != [] && (AnySkipped(outcomes[..|outcomes| - 1]) || Skipped(outcomes[|outcomes| - 1]))
  }

  /** Some outcome is an exception. */
  predicate AnyCrashed(outcomes: seq<FileOutcome>)
  {
    outcomes != [] && (AnyCrashed(outcomes[..|outcomes| - 1]) || outcomes[|outcomes| - 1].Crashed?)
  }

  /** The exit status: 1 when a file was skipped or an exception ended the run, 0 otherwise. */
  function ExitCode(outcomes: seq<FileOutcome>): int
  {
    if AnySkipped(outcomes) || AnyCrashed(outcomes) then 1 else 0
  }

  /** The exit status is 0 iff every file was written. */
  lemma {:induction false} ExitCodeMeaning(outcomes: seq<FileOutcome>)
    ensures ExitCode(outcomes) == 0 <==> forall i | 0 <= i < |outcomes| :: outcomes[i].Written?
  {
    if outcomes != [] {
      var init := outcomes[..|outcomes| - 1];
      ExitCodeMeaning(init);
      assert forall i | 0 <= i < |init| :: outcomes[i] == init[i];
    }
  }

  /** What `main` does with one argument, given what reading it gives. */
  ghost function OutcomeOf(read: string -> JsonFile, preserveOutputs: bool, ignoreWarn: bool): string -> FileOutcome
  {
    arg => FileResult(arg, read(arg), preserveOutputs, ignoreWarn)
  }

  /** `outcomes` are the results of the first `|outcomes|` of `args`, in order. */
  ghost predicate ResultsOf(args: seq<string>, result: string -> FileOutcome, outcomes: seq<FileOutcome>)
  {
    && |outcomes| <= |args|
    && forall j | 0 <= j < |outcomes| :: outcomes[j] == result(args[j])
  }

  /** One more result, of the next argument, extends the results in order. */
  lemma ResultsOfSnoc(args: seq<string>, result: string -> FileOutcome, outcomes: seq<FileOutcome>, o: FileOutcome)
    requires ResultsOf(args, result, outcomes) && |outcomes| < |args|
    requires o == result(args[|outcomes|])
    ensures ResultsOf(args, result, outcomes + [o])
  {
    var extended := outcomes + [o];
    forall j | 0 <= j < |extended|
      ensures extended[j] == result(args[j])
    {
      if j < |outcomes| {
        assert extended[j] == outcomes[j];
      }
    }
  }

  /**
   * `main`: without a file argument print the usage and exit with 1;
   * otherwise format the files.
   */
  method FormatFiles(argv: seq<string>, read: string -> JsonFile, preserveOutputs: bool, ignoreWarn: bool)
    returns (exitCode: int, outcomes: seq<FileOutcome>)
    ensures |argv| <= 1 ==> exitCode == 1 && outcomes == []
    ensures |argv| > 1 ==> ResultsOf(argv[1..], OutcomeOf(read, preserveOutputs, ignoreWarn), outcomes)
    ensures |argv| > 1 ==> StopsAtCrash(argv[1..], outcomes)
    ensures |argv| > 1 ==> exitCode == ExitCode(outcomes)
  {
    if |argv| <= 1 {
      return 1, [];
    }
    exitCode, outcomes := FormatArgs(argv[1..], read, preserveOutputs, ignoreWarn);
  }

  /** Every file is processed, except those after one whose processing raised. */
  predicate StopsAtCrash(args: seq<string>, outcomes: seq<FileOutcome>)
  {
    && |outcomes| <= |args|
    && (outcomes != [] ==> !AnyCrashed(outcomes[..|outcomes| - 1]))
    && (|outcomes| < |args| ==> outcomes != [] && outcomes[|outcomes| - 1].Crashed?)
  }

  /**
   * The loop of `main` over the file arguments: format each in order, stop
   * at an exception, and exit with 1 iff a file was skipped or an exception
   * was raised.
   */
  method FormatArgs(args: seq<string>, read: string -> JsonFile, preserveOutputs: bool, ignoreWarn: bool)
    returns (exitCode: int, outcomes: seq<FileOutcome>)
    ensures ResultsOf(args, OutcomeOf(read, preserveOutputs, ignoreWarn), outcomes)
    ensures StopsAtCrash(args, outcomes)
    ensures exitCode == ExitCode(outcomes)
  {
    var didSkip := false;
    outcomes := [];
    var i := 0;
    while i < |args|
      invariant 0 <= i <= |args| && |outcomes| == i
      invariant ResultsOf(args, OutcomeOf(read, preserveOutputs, ignoreWarn), outcomes)
      invariant !AnyCrashed(outcomes)
      invariant didSkip == AnySkipped(outcomes)
    {
      var o := FormatFile(args[i], read(args[i]), preserveOutputs, ignoreWarn);
      ResultsOfSnoc(args, OutcomeOf(read, preserveOutputs, ignoreWarn), outcomes, o);
      var crashed;
      outcomes, didSkip, crashed := Record(outcomes, o, didSkip);
      if crashed {
        return 1, outcomes;
      }
      i := i + 1;
    }
    exitCode := if didSkip then 1 else 0;
  }

  /** The bookkeeping of `main` for one more file: note a skip, and stop at an exception. */
  method Record(outcomes: seq<FileOutcome>, o: FileOutcome, didSkip: bool) returns (outcomes': seq<FileOutcome>, didSkip': bool, crashed: bool)
    requires !AnyCrashed(outcomes) && didSkip == AnySkipped(outcomes)
    ensures outcomes' == outcomes + [o]
    ensures crashed == o.Crashed? && crashed == AnyCrashed(outcomes')
    ensures didSkip' == AnySkipped(outcomes')
  {
    outcomes' := outcomes + [o];
    assert outcomes'[..|outcomes'| - 1] == outcomes;
    crashed := o.Crashed?;
    didSkip' := didSkip;
    if Skipped(o) {
      didSkip' := true;
    }
  }
}
