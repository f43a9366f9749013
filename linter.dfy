/**
 * The notebook lint engine: `Linter` dispatches every registered lint over
 * the file or over the cells in its scope, folds per-cell results with
 * any/all, and records each outcome in a `LinterStatus`, which derives the
 * overall verdict and renders the console report.
 */
module Linter {
  import opened Wrappers
  import opened Text
  import opened Notebook
  import opened Lints

  /** The exception `add_entry` raises for a verdict that is not a bool (a TypeError). */
  datatype LintError = StatusNotBoolean(repr: string)

  /**
   * `LintStatusEntry`: one recorded outcome. `isGroupEntry` marks a member
   * (one cell's result); the aggregate of a group and a file lint's entry
   * have it false.
   */
  datatype Entry = Entry(lint: Lint, isSuccess: bool, name: string, group: Option<string>, isGroupEntry: bool)

  /**
   * What `_load_notebook` found: its cells and raw text, text that is not
   * JSON, or JSON without a list under "cells".
   */
  datatype LoadResult = Parsed(cells: seq<Cell>, source: string) | Unparsed(source: string) | NoCellList(source: string)

  /**
   * What `Linter.run` gives back: `False`, the process exiting with status 1,
   * an exception, or a status.
   */
  datatype RunOutcome = LoadFailed | Exited(code: int) | Raised(error: LintError) | Finished(status: LinterStatus)

  // ---------------------------------------------------------------------------
  // What one lint group produces

  /** The cells a lint of this scope visits. */
  predicate InScope(scope: Scope, cell: Cell)
  {
    match scope
    case TEXT => cell.cellType == "markdown"
    case CODE => cell.cellType == "code"
    case _ => true
  }

  function CellVerdict(lint: Lint, cell: Cell, path: FilePath): Verdict
  {
    lint.callback(SourceText(cell), CellTarget(cell), path)
  }

  /** The bool recorded for a verdict that passed the type check. */
  function AsBool(v: Verdict): bool
  {
    v.BoolVerdict? && v.b
  }

  /** `f"{lint.name}__cell_{cell_idx}"`. */
  function MemberName(lint: Lint, idx: nat): string
  {
    lint.name + "__cell_" + DecimalString(idx)
  }

  function MemberEntry(lint: Lint, cells: seq<Cell>, path: FilePath, idx: nat): Entry
    requires idx < |cells|
  {
    Entry(lint, AsBool(CellVerdict(lint, cells[idx], path)), MemberName(lint, idx), Some(lint.name), true)
  }

  /** The member entries a lint group adds while visiting `cells[..k]`. */
  function MembersUpTo(lint: Lint, cells: seq<Cell>, path: FilePath, k: nat): seq<Entry>
    requires k <= |cells|
  {
    if k == 0 then []
    else
      MembersUpTo(lint, cells, path, k - 1)
      + (if InScope(lint.scope, cells[k - 1]) then [MemberEntry(lint, cells, path, k - 1)] else [])
  }

  /** Every callback on `cells[..k]` in scope returned a bool. */
  predicate WellTypedUpTo(lint: Lint, cells: seq<Cell>, path: FilePath, k: nat)
    requires k <= |cells|
  {
    k == 0
    || (WellTypedUpTo(lint, cells, path, k - 1)
        && (InScope(lint.scope, cells[k - 1]) ==> CellVerdict(lint, cells[k - 1], path).BoolVerdict?))
  }

  /** The `is_success` fields of some entries, in order. */
  function Successes(entries: seq<Entry>): seq<bool>
  {
    if entries == [] then [] else Successes(entries[..|entries| - 1]) + [entries[|entries| - 1].isSuccess]
  }

  /** Python's `any(results)` for ANY and `all(results)` for ALL. */
  predicate Combine(cond: Cond, results: seq<bool>)
  {
    match cond
    case ANY => exists i | 0 <= i < |results| :: results[i]
    case ALL => forall i | 0 <= i < |results| :: results[i]
  }

  /** The verdict of a lint group over a notebook. */
  function GroupVerdict(lint: Lint, cells: seq<Cell>, path: FilePath): bool
  {
    Combine(lint.cond, Successes(MembersUpTo(lint, cells, path, |cells|)))
  }

  function AggregateEntry(lint: Lint, cells: seq<Cell>, path: FilePath): Entry
  {
    Entry(lint, GroupVerdict(lint, cells, path), lint.name, Some(lint.name), false)
  }

  /** A cell lint's entries: its members, then its aggregate. */
  function GroupEntries(lint: Lint, cells: seq<Cell>, path: FilePath): seq<Entry>
  {
    MembersUpTo(lint, cells, path, |cells|) + [AggregateEntry(lint, cells, path)]
  }

  function GroupsEntries(lints: seq<Lint>, cells: seq<Cell>, path: FilePath): seq<Entry>
  {
    if lints == [] then []
    else GroupsEntries(lints[..|lints| - 1], cells, path) + GroupEntries(lints[|lints| - 1], cells, path)
  }

  // ---------------------------------------------------------------------------
  // What a whole run produces

  function FileVerdict(lint: Lint, source: string, cells: seq<Cell>, path: FilePath): Verdict
  {
    lint.callback(source, DocumentTarget(cells), path)
  }

  function FileEntry(lint: Lint, source: string, cells: seq<Cell>, path: FilePath): Entry
  {
    Entry(lint, AsBool(FileVerdict(lint, source, cells, path)), lint.name, None, false)
  }

  function FileEntries(lints: seq<Lint>, source: string, cells: seq<Cell>, path: FilePath): seq<Entry>
  {
    if lints == [] then []
    else FileEntries(lints[..|lints| - 1], source, cells, path) + [FileEntry(lints[|lints| - 1], source, cells, path)]
  }

  const CellScopes: seq<Scope> := [CELLS, CODE, TEXT]
  const Conds: seq<Cond> := [ANY, ALL]

  /** Only lints registered under (FILE, ANY) run as file lints. */
  function FileLints(table: LintTable): seq<Lint>
  {
    Lookup(table, FILE, ANY)
  }

  /** The lints of `scope` under the first `n` conditions of `Conds`, in visiting order. */
  function ScopeLintsUpTo(table: LintTable, scope: Scope, n: nat): seq<Lint>
    requires n <= |Conds|
  {
    if n == 0 then [] else ScopeLintsUpTo(table, scope, n - 1) + Lookup(table, scope, Conds[n - 1])
  }

  function ScopeLints(table: LintTable, scope: Scope): seq<Lint>
  {
    ScopeLintsUpTo(table, scope, |Conds|)
  }

  /** The cell lints of the first `n` scopes of `CellScopes`, in visiting order. */
  function CellLintsUpTo(table: LintTable, n: nat): seq<Lint>
    requires n <= |CellScopes|
  {
    if n == 0 then [] else CellLintsUpTo(table, n - 1) + ScopeLints(table, CellScopes[n - 1])
  }

  function CellLints(table: LintTable): seq<Lint>
  {
    CellLintsUpTo(table, |CellScopes|)
  }

  /** Every file lint's callback returned a bool. */
  predicate FileLintsWellTyped(lints: seq<Lint>, source: string, cells: seq<Cell>, path: FilePath)
  {
    forall i | 0 <= i < |lints| :: FileVerdict(lints[i], source, cells, path).BoolVerdict?
  }

  /** Every callback of every cell lint, on every cell in its scope, returned a bool. */
  predicate GroupsWellTyped(lints: seq<Lint>, cells: seq<Cell>, path: FilePath)
  {
    lints == []
    || (GroupsWellTyped(lints[..|lints| - 1], cells, path) && WellTypedUpTo(lints[|lints| - 1], cells, path, |cells|))
  }

  /** No callback of the run returns a non-bool. */
  predicate WellTyped(table: LintTable, cells: seq<Cell>, source: string, path: FilePath)
  {
    FileLintsWellTyped(FileLints(table), source, cells, path) && GroupsWellTyped(CellLints(table), cells, path)
  }

  /** The entries of a finished run, in order. */
  function RunEntries(table: LintTable, cells: seq<Cell>, source: string, path: FilePath): seq<Entry>
  {
    FileEntries(FileLints(table), source, cells, path) + GroupsEntries(CellLints(table), cells, path)
  }

  // ---------------------------------------------------------------------------
  // The report

  /** The non-member entries (file lints and group aggregates), in order. */
  function Roots(entries: seq<Entry>): seq<Entry>
  {
    if entries == [] then []
    else
      var e := entries[|entries| - 1];
      Roots(entries[..|entries| - 1]) + (if e.isGroupEntry then [] else [e])
  }

  /** The member entries recorded under group key `g`, in order. */
  function MembersOf(entries: seq<Entry>, g: Option<string>): seq<Entry>
  {
    if entries == [] then []
    else
      var e := entries[|entries| - 1];
      MembersOf(entries[..|entries| - 1], g) + (if e.isGroupEntry && e.group == g then [e] else [])
  }

  /** Every non-member entry succeeded. */
  predicate RootsPass(entries: seq<Entry>)
  {
    forall i | 0 <= i < |entries| :: !entries[i].isGroupEntry ==> entries[i].isSuccess
  }

  const PassTag := "\U{1B}[32mPass\U{1B}[00m"
  const MemberFailTag := "\U{1B}[33mFail\U{1B}[00m"
  const RootFailTag := "\U{1B}[91mFail\U{1B}[00m"

  /** `_format_status`: Pass, or Fail coloured by whether the entry is a member. */
  function FormatStatus(entry: Entry): string
  {
    if entry.isSuccess then PassTag
    else if entry.isGroupEntry then MemberFailTag
    else RootFailTag
  }

  /** The top-level line of an entry: `<status> | <style>::<name>[ | <message>]`. */
  function RootLine(entry: Entry): string
  {
    FormatStatus(entry) + " | " + entry.lint.style + "::" + entry.name
    + (if entry.lint.message != "" then " | " + entry.lint.message else "") + "\n"
  }

  function ChildLine(entry: Entry): string
  {
    "- " + FormatStatus(entry) + " | " + entry.name + "\n"
  }

  function ChildLines(children: seq<Entry>): string
  {
    if children == [] then "" else ChildLines(children[..|children| - 1]) + ChildLine(children[|children| - 1])
  }

  /** A top-level line, followed in verbose mode by the members of its group. */
  function RootBlock(entries: seq<Entry>, root: Entry, verbose: bool): string
  {
    var children := MembersOf(entries, root.group);
    RootLine(root)
    + (if verbose && children != [] then "[All results]\n" + ChildLines(children) + "\n" else "")
  }

  function Blocks(entries: seq<Entry>, roots: seq<Entry>, verbose: bool): string
  {
    if roots == [] then ""
    else Blocks(entries, roots[..|roots| - 1], verbose) + RootBlock(entries, roots[|roots| - 1], verbose)
  }

  /** The report `str(status)` prints. */
  function Report(entries: seq<Entry>, verbose: bool): string
  {
    Blocks(entries, Roots(entries), verbose)
  }

  function RootLines(roots: seq<Entry>): string
  {
    if roots == [] then "" else RootLines(roots[..|roots| - 1]) + RootLine(roots[|roots| - 1])
  }

  // ---------------------------------------------------------------------------
  // The mutable state

  /** `LinterStatus`: the append-only list of entries for one notebook. */
  class LinterStatus {
    const path: FilePath
    const verbose: bool
    var statusList: seq<Entry>

    constructor (path: FilePath, verbose: bool)
      ensures this.path == path && this.verbose == verbose
      ensures statusList == []
    {
      this.path := path;
      this.verbose := verbose;
      statusList := [];
    }

    /**
     * `add_entry`: rejects a non-bool verdict; otherwise appends one entry
     * whose name defaults to the lint's name when none (or "") is given.
     */
    method AddEntry(lint: Lint, isSuccess: Verdict, name: Option<string>, group: Option<string>, isGroupEntry: bool)
      returns (err: Option<LintError>)
      modifies this
      ensures isSuccess.OtherValue? ==> err == Some(StatusNotBoolean(isSuccess.repr)) && statusList == old(statusList)
      ensures isSuccess.BoolVerdict? ==> err == None
      ensures isSuccess.BoolVerdict? ==>
        statusList == old(statusList)
          + [Entry(lint, isSuccess.b, if name.Some? && name.value != "" then name.value else lint.name, group, isGroupEntry)]
    {
      if isSuccess.OtherValue? {
        return Some(StatusNotBoolean(isSuccess.repr));
      }
      var entryName := if name.Some? && name.value != "" then name.value else lint.name;
      statusList := statusList + [Entry(lint, isSuccess.b, entryName, group, isGroupEntry)];
      return None;
    }

    /** `is_success`: true iff no non-member entry failed. */
    method IsSuccess() returns (status: bool)
      ensures status == RootsPass(statusList)
    {
      status := true;
      var i := 0;
      while i < |statusList|
        invariant 0 <= i <= |statusList|
        invariant forall j | 0 <= j < i :: !statusList[j].isGroupEntry ==> statusList[j].isSuccess
      {
        var entry := statusList[i];
        if !entry.isGroupEntry && !entry.isSuccess {
          status := false;
          break;
        }
        i := i + 1;
      }
    }

    /**
     * The first step of `__str__`: in verbose mode, the member entries of
     * each group key, in order; nothing otherwise.
     */
    method GroupMembers() returns (groups: map<Option<string>, seq<Entry>>)
      ensures forall g :: g in groups <==> verbose && MembersOf(statusList, g) != []
      ensures forall g | g in groups :: groups[g] == MembersOf(statusList, g)
    {
      groups := map[];
      if verbose {
        var i := 0;
        while i < |statusList|
          invariant 0 <= i <= |statusList|
          invariant forall g :: g in groups <==> MembersOf(statusList[..i], g) != []
          invariant forall g | g in groups :: groups[g] == MembersOf(statusList[..i], g)
        {
          var entry := statusList[i];
          MembersOfStep(statusList, i);
          if entry.isGroupEntry {
            if entry.group in groups {
              groups := groups[entry.group := groups[entry.group] + [entry]];
            } else {
              groups := groups[entry.group := [entry]];
            }
          }
          i := i + 1;
        }
        assert statusList[..i] == statusList;
      }
    }

    /** The second step of `__str__`: the top-level (non-member) entries, in order. */
    method RootEntries() returns (rootEntries: seq<Entry>)
      ensures rootEntries == Roots(statusList)
    {
      rootEntries := [];
      var j := 0;
      while j < |statusList|
        invariant 0 <= j <= |statusList|
        invariant rootEntries == Roots(statusList[..j])
      {
        RootsStep(statusList, j);
        if !statusList[j].isGroupEntry {
          rootEntries := rootEntries + [statusList[j]];
        }
        j := j + 1;
      }
      assert statusList[..j] == statusList;
    }

    /** `__str__`: the report, with member lines nested under their aggregate when verbose. */
    method ToString() returns (output: string)
      ensures output == Report(statusList, verbose)
    {
      var groups := GroupMembers();

      var rootEntries := RootEntries();

      output := "";
      var k := 0;
      while k < |rootEntries|
        invariant 0 <= k <= |rootEntries|
        invariant output == Blocks(statusList, rootEntries[..k], verbose)
      {
        var block := BlockText(groups, rootEntries[k]);
        BlocksStep(statusList, rootEntries, k, verbose);
        output := output + block;
        k := k + 1;
      }
      assert rootEntries[..k] == rootEntries;
    }

    /** The lines `__str__` writes for one top-level entry and, when verbose, its group's members. */
    method BlockText(groups: map<Option<string>, seq<Entry>>, entry: Entry) returns (block: string)
      requires forall g :: g in groups <==> verbose && MembersOf(statusList, g) != []
      requires forall g | g in groups :: groups[g] == MembersOf(statusList, g)
      ensures block == RootBlock(statusList, entry, verbose)
    {
      block := RootLine(entry);
      if verbose && entry.group in groups {
        var lines := MemberLines(groups[entry.group]);
        block := block + "[All results]\n" + lines + "\n";
      } else {
        assert block == block + "";
      }
    }
  }

  /** The member lines of one group, in order. */
  method MemberLines(children: seq<Entry>) returns (lines: string)
    ensures lines == ChildLines(children)
  {
    lines := "";
    var c := 0;
    while c < |children|
      invariant 0 <= c <= |children|
      invariant lines == ChildLines(children[..c])
    {
      ChildLinesStep(children, c);
      lines := lines + ChildLine(children[c]);
      c := c + 1;
    }
    assert children[..c] == children;
  }

  /** `Linter`: runs a lint table over one notebook at a time. */
  class Linter {
    const verbose: bool

    constructor (verbose: bool)
      ensures this.verbose == verbose
    {
      this.verbose := verbose;
    }

    /**
     * `_run_lint_group`: runs one cell lint over the cells in its scope,
     * adding one member entry per visited cell, and folds the results.
     */
    method RunLintGroup(lint: Lint, cells: seq<Cell>, status: LinterStatus, path: FilePath)
      returns (r: Result<bool, LintError>)
      modifies status
      ensures r.Ok? ==> WellTypedUpTo(lint, cells, path, |cells|)
      ensures r.Err? ==> !WellTypedUpTo(lint, cells, path, |cells|)
      ensures r.Ok? ==> r.value == GroupVerdict(lint, cells, path)
      ensures r.Ok? ==> status.statusList == old(status.statusList) + MembersUpTo(lint, cells, path, |cells|)
    {
      var isSuccessList: seq<bool> := [];
      var idx := 0;
      while idx < |cells|
        invariant 0 <= idx <= |cells|
        invariant WellTypedUpTo(lint, cells, path, idx)
        invariant status.statusList == old(status.statusList) + MembersUpTo(lint, cells, path, idx)
        invariant isSuccessList == Successes(MembersUpTo(lint, cells, path, idx))
      {
        MembersStep(lint, cells, path, idx);
        WellTypedStep(lint, cells, path, idx);
        ghost var before := status.statusList;
        var visited := RunMember(lint, cells, idx, status, path);
        if visited.Err? {
          WellTypedUpToPrefix(lint, cells, path, idx + 1, |cells|);
          return Err(visited.error);
        }
        if visited.value.Some? {
          isSuccessList := isSuccessList + [visited.value.value];
        }
        AppendAssoc3(old(status.statusList), MembersUpTo(lint, cells, path, idx), status.statusList[|before|..]);
        idx := idx + 1;
      }
      assert idx == |cells|;
      CombineMeaning(lint.cond, isSuccessList);
      if lint.cond == ANY {
        r := Ok(true in isSuccessList);
      } else {
        r := Ok(false !in isSuccessList);
      }
    }

    /**
     * One pass of `_run_lint_group`'s loop: a cell out of the lint's scope is
     * skipped (`None`); otherwise the callback's result is recorded as a
     * member entry named after the cell's index and returned.
     */
    method RunMember(lint: Lint, cells: seq<Cell>, idx: nat, status: LinterStatus, path: FilePath)
      returns (r: Result<Option<bool>, LintError>)
      requires idx < |cells|
      modifies status
      ensures r.Ok? <==> (InScope(lint.scope, cells[idx]) ==> CellVerdict(lint, cells[idx], path).BoolVerdict?)
      ensures r.Ok? ==> r.value == if InScope(lint.scope, cells[idx]) then Some(AsBool(CellVerdict(lint, cells[idx], path))) else None
      ensures r.Ok? ==>
        status.statusList == old(status.statusList)
          + (if InScope(lint.scope, cells[idx]) then [MemberEntry(lint, cells, path, idx)] else [])
    {
      var cell := cells[idx];
      if lint.scope == TEXT && cell.cellType != "markdown" {
        return Ok(None);
      } else if lint.scope == CODE && cell.cellType != "code" {
        return Ok(None);
      }
      var source := Concat(cell.source);
      var isSuccess := lint.callback(source, CellTarget(cell), path);
      var err := status.AddEntry(lint, isSuccess, Some(MemberName(lint, idx)), Some(lint.name), true);
      if err.Some? {
        return Err(err.value);
      }
      return Ok(Some(AsBool(isSuccess)));
    }

    /** The file-level loop of `run`: each (FILE, ANY) lint once, on the raw notebook text. */
    method RunFileLints(lints: seq<Lint>, source: string, cells: seq<Cell>, status: LinterStatus, path: FilePath)
      returns (err: Option<LintError>)
      modifies status
      ensures err.None? ==> FileLintsWellTyped(lints, source, cells, path)
      ensures err.Some? ==> !FileLintsWellTyped(lints, source, cells, path)
      ensures err.None? ==> status.statusList == old(status.statusList) + FileEntries(lints, source, cells, path)
    {
      ghost var start := status.statusList;
      var i := 0;
      while i < |lints|
        invariant 0 <= i <= |lints|
        invariant FileLintsWellTyped(lints[..i], source, cells, path)
        invariant status.statusList == start + FileEntries(lints[..i], source, cells, path)
      {
        var lint := lints[i];
        FileStep(start, lints, i, source, cells, path);
        var isSuccess := lint.callback(source, DocumentTarget(cells), path);
        var e := status.AddEntry(lint, isSuccess, None, None, false);
        if e.Some? {
          return e;
        }
        i := i + 1;
      }
      assert i == |lints| && lints[..i] == lints;
      return None;
    }

    /** The innermost loop of `run`: every lint of one (scope, condition) key, each member run then its aggregate. */
    method RunGroups(lints: seq<Lint>, cells: seq<Cell>, status: LinterStatus, path: FilePath)
      returns (err: Option<LintError>)
      modifies status
      ensures err.None? ==> GroupsWellTyped(lints, cells, path)
      ensures err.Some? ==> !GroupsWellTyped(lints, cells, path)
      ensures err.None? ==> status.statusList == old(status.statusList) + GroupsEntries(lints, cells, path)
    {
      ghost var start := status.statusList;
      var li := 0;
      while li < |lints|
        invariant 0 <= li <= |lints|
        invariant GroupsWellTyped(lints[..li], cells, path)
        invariant status.statusList == start + GroupsEntries(lints[..li], cells, path)
      {
        var lint := lints[li];
        LintStep(start, lints, li, cells, path);
        var res := RunLintGroup(lint, cells, status, path);
        if res.Err? {
          return Some(res.error);
        }
        var ignored := status.AddEntry(lint, BoolVerdict(res.value), None, Some(lint.name), false);
        li := li + 1;
      }
      assert li == |lints| && lints[..li] == lints;
      return None;
    }

    /** One scope of the cell-level loops of `run`: its ANY lints, then its ALL lints. */
    method RunScope(table: LintTable, scope: Scope, cells: seq<Cell>, status: LinterStatus, path: FilePath)
      returns (err: Option<LintError>)
      modifies status
      ensures err.None? ==> GroupsWellTyped(ScopeLints(table, scope), cells, path)
      ensures err.Some? ==> !GroupsWellTyped(ScopeLints(table, scope), cells, path)
      ensures err.None? ==> status.statusList == old(status.statusList) + GroupsEntries(ScopeLints(table, scope), cells, path)
    {
      ghost var start := status.statusList;
      var ci := 0;
      while ci < |Conds|
        invariant 0 <= ci <= |Conds|
        invariant GroupsWellTyped(ScopeLintsUpTo(table, scope, ci), cells, path)
        invariant status.statusList == start + GroupsEntries(ScopeLintsUpTo(table, scope, ci), cells, path)
      {
        var lints := Lookup(table, scope, Conds[ci]);
        ScopeStep(start, table, scope, ci, cells, path);
        var e := RunGroups(lints, cells, status, path);
        if e.Some? {
          return e;
        }
        ci := ci + 1;
      }
      assert ci == |Conds|;
      return None;
    }

    /**
     * The cell-level loops of `run` over the first `n` scopes of CELLS,
     * CODE, TEXT, in that order; `run` visits all three.
     */
    method RunCellLints(table: LintTable, n: nat, cells: seq<Cell>, status: LinterStatus, path: FilePath)
      returns (err: Option<LintError>)
      requires n <= |CellScopes|
      modifies status
      ensures err.None? ==> GroupsWellTyped(CellLintsUpTo(table, n), cells, path)
      ensures err.Some? ==> !GroupsWellTyped(CellLintsUpTo(table, n), cells, path)
      ensures err.None? ==> status.statusList == old(status.statusList) + GroupsEntries(CellLintsUpTo(table, n), cells, path)
    {
      ghost var start := status.statusList;
      var si := 0;
      while si < n
        invariant 0 <= si <= n
        invariant GroupsWellTyped(CellLintsUpTo(table, si), cells, path)
        invariant status.statusList == start + GroupsEntries(CellLintsUpTo(table, si), cells, path)
      {
        var e := RunScope(table, CellScopes[si], cells, status, path);
        CellStep(start, table, si, n, cells, path);
        if e.Some? {
          return e;
        }
        si := si + 1;
      }
      assert si == n;
      return None;
    }

    /**
     * `run`: `LoadFailed` when the notebook did not parse; otherwise the file
     * lints, then the cell lints, all recorded in one fresh status.
     */
    method Run(path: FilePath, loaded: LoadResult, table: LintTable) returns (r: RunOutcome)
      ensures loaded.Unparsed? ==> r == LoadFailed
      ensures loaded.NoCellList? ==> r == Exited(1)
      ensures loaded.Parsed? ==> (r.Finished? <==> WellTyped(table, loaded.cells, loaded.source, path))
      ensures loaded.Parsed? && !r.Finished? ==> r.Raised?
      ensures r.Finished? ==> fresh(r.status) && r.status.path == path && r.status.verbose == verbose
      ensures r.Finished? ==> r.status.statusList == RunEntries(table, loaded.cells, loaded.source, path)
    {
      if loaded.Unparsed? {
        return LoadFailed;
      }
      if loaded.NoCellList? {
        return Exited(1);
      }
      var cells, source := loaded.cells, loaded.source;
      var status := new LinterStatus(path, verbose);
      var err := RunFileLints(Lookup(table, FILE, ANY), source, cells, status, path);
      if err.Some? {
        return Raised(err.value);
      }
      assert status.statusList == FileEntries(FileLints(table), source, cells, path);
      err := RunCellLints(table, |CellScopes|, cells, status, path);
      if err.Some? {
        return Raised(err.value);
      }
      assert status.statusList == RunEntries(table, cells, source, path);
      return Finished(status);
    }
  }

  lemma {:induction false} GroupsEntriesAppend(a: seq<Lint>, b: seq<Lint>, cells: seq<Cell>, path: FilePath)
    ensures GroupsEntries(a + b, cells, path) == GroupsEntries(a, cells, path) + GroupsEntries(b, cells, path)
    decreases |b|
  {
    if b == [] {
      assert a + b == a;
    } else {
      var b', last := b[..|b| - 1], b[|b| - 1];
      assert b == b' + [last];
      assert a + b == (a + b') + [last];
      calc {
        GroupsEntries(a + b, cells, path);
        { GroupsEntriesSnoc(a + b', last, cells, path); }
        GroupsEntries(a + b', cells, path) + GroupEntries(last, cells, path);
        { GroupsEntriesAppend(a, b', cells, path); }
        GroupsEntries(a, cells, path) + GroupsEntries(b', cells, path) + GroupEntries(last, cells, path);
        { GroupsEntriesSnoc(b', last, cells, path); }
        GroupsEntries(a, cells, path) + GroupsEntries(b, cells, path);
      }
    }
  }

  lemma GroupsWellTypedSnoc(lints: seq<Lint>, lint: Lint, cells: seq<Cell>, path: FilePath)
    ensures GroupsWellTyped(lints + [lint], cells, path)
      <==> GroupsWellTyped(lints, cells, path) && WellTypedUpTo(lint, cells, path, |cells|)
  {
    assert (lints + [lint])[..|lints|] == lints;
  }

  lemma {:induction false} GroupsWellTypedAppend(a: seq<Lint>, b: seq<Lint>, cells: seq<Cell>, path: FilePath)
    ensures GroupsWellTyped(a + b, cells, path) <==> GroupsWellTyped(a, cells, path) && GroupsWellTyped(b, cells, path)
    decreases |b|
  {
    if b == [] {
      assert a + b == a;
    } else {
      var b', last := b[..|b| - 1], b[|b| - 1];
      assert b == b' + [last];
      assert a + b == (a + b') + [last];
      GroupsWellTypedSnoc(a + b', last, cells, path);
      GroupsWellTypedAppend(a, b', cells, path);
      GroupsWellTypedSnoc(b', last, cells, path);
    }
  }

  lemma {:induction false} GroupsWellTypedPrefix(a: seq<Lint>, b: seq<Lint>, cells: seq<Cell>, path: FilePath)
    requires a <= b && GroupsWellTyped(b, cells, path)
    ensures GroupsWellTyped(a, cells, path)
    decreases |b|
  {
    if |a| < |b| {
      assert a <= b[..|b| - 1];
      GroupsWellTypedPrefix(a, b[..|b| - 1], cells, path);
    } else {
      assert a == b;
    }
  }

  /** A badly typed run of lints inside a longer one makes the longer one badly typed. */
  lemma GroupsBlame(before: seq<Lint>, lints: seq<Lint>, whole: seq<Lint>, cells: seq<Cell>, path: FilePath)
    requires before + lints <= whole
    requires !GroupsWellTyped(lints, cells, path)
    ensures !GroupsWellTyped(whole, cells, path)
  {
    GroupsWellTypedAppend(before, lints, cells, path);
    if GroupsWellTyped(whole, cells, path) {
      GroupsWellTypedPrefix(before + lints, whole, cells, path);
    }
  }

  /**
   * Running the lints `lints` after `done`: the typing and the entries of
   * `done + lints` are those of the two parts, and a badly typed `lints`
   * makes any longer run `whole` that starts with them badly typed.
   */
  lemma GroupsStep(before: seq<Entry>, done: seq<Lint>, lints: seq<Lint>, whole: seq<Lint>, cells: seq<Cell>, path: FilePath)
    requires done + lints <= whole
    ensures GroupsWellTyped(done + lints, cells, path) <==> GroupsWellTyped(done, cells, path) && GroupsWellTyped(lints, cells, path)
    ensures before + GroupsEntries(done + lints, cells, path) == (before + GroupsEntries(done, cells, path)) + GroupsEntries(lints, cells, path)
    ensures !GroupsWellTyped(lints, cells, path) ==> !GroupsWellTyped(whole, cells, path)
  {
    GroupsEntriesAppend(done, lints, cells, path);
    GroupsWellTypedAppend(done, lints, cells, path);
    AppendAssoc3(before, GroupsEntries(done, cells, path), GroupsEntries(lints, cells, path));
    if !GroupsWellTyped(lints, cells, path) {
      GroupsBlame(done, lints, whole, cells, path);
    }
  }

  /** What the file lint `lints[i]` adds to the run of those before it. */
  lemma FileStep(before: seq<Entry>, lints: seq<Lint>, i: nat, source: string, cells: seq<Cell>, path: FilePath)
    requires i < |lints|
    ensures FileLintsWellTyped(lints[..i + 1], source, cells, path)
      <==> FileLintsWellTyped(lints[..i], source, cells, path) && FileVerdict(lints[i], source, cells, path).BoolVerdict?
    ensures before + FileEntries(lints[..i + 1], source, cells, path)
      == (before + FileEntries(lints[..i], source, cells, path)) + [FileEntry(lints[i], source, cells, path)]
    ensures !FileVerdict(lints[i], source, cells, path).BoolVerdict? ==> !FileLintsWellTyped(lints, source, cells, path)
  {
    assert lints[..i + 1][..i] == lints[..i];
    assert lints[..i + 1][i] == lints[i];
  }

  /** What the cell lint `lints[li]`, its members then its aggregate, adds to the run of those before it. */
  lemma LintStep(before: seq<Entry>, lints: seq<Lint>, li: nat, cells: seq<Cell>, path: FilePath)
    requires li < |lints|
    ensures GroupsWellTyped(lints[..li + 1], cells, path)
      <==> GroupsWellTyped(lints[..li], cells, path) && WellTypedUpTo(lints[li], cells, path, |cells|)
    ensures before + GroupsEntries(lints[..li + 1], cells, path)
      == ((before + GroupsEntries(lints[..li], cells, path)) + MembersUpTo(lints[li], cells, path, |cells|))
        + [AggregateEntry(lints[li], cells, path)]
    ensures !WellTypedUpTo(lints[li], cells, path, |cells|) ==> !GroupsWellTyped(lints, cells, path)
  {
    var lint := lints[li];
    assert lints[..li + 1] == lints[..li] + [lint];
    GroupsStep(before, lints[..li], [lint], lints, cells, path);
    GroupsSingle(lint, cells, path);
    AppendAssoc3(before + GroupsEntries(lints[..li], cells, path),
      MembersUpTo(lint, cells, path, |cells|), [AggregateEntry(lint, cells, path)]);
  }

  /** What running the lints of `Conds[ci]` adds to those of the conditions before it. */
  lemma ScopeStep(before: seq<Entry>, table: LintTable, scope: Scope, ci: nat, cells: seq<Cell>, path: FilePath)
    requires ci < |Conds|
    ensures GroupsWellTyped(ScopeLintsUpTo(table, scope, ci + 1), cells, path)
      <==> GroupsWellTyped(ScopeLintsUpTo(table, scope, ci), cells, path) && GroupsWellTyped(Lookup(table, scope, Conds[ci]), cells, path)
    ensures before + GroupsEntries(ScopeLintsUpTo(table, scope, ci + 1), cells, path)
      == (before + GroupsEntries(ScopeLintsUpTo(table, scope, ci), cells, path)) + GroupsEntries(Lookup(table, scope, Conds[ci]), cells, path)
    ensures !GroupsWellTyped(Lookup(table, scope, Conds[ci]), cells, path) ==> !GroupsWellTyped(ScopeLints(table, scope), cells, path)
  {
    ScopeLintsPrefix(table, scope, ci + 1, |Conds|);
    GroupsStep(before, ScopeLintsUpTo(table, scope, ci), Lookup(table, scope, Conds[ci]), ScopeLints(table, scope), cells, path);
  }

  /** What running the lints of scope `CellScopes[si]` adds to those of the scopes before it. */
  lemma CellStep(before: seq<Entry>, table: LintTable, si: nat, n: nat, cells: seq<Cell>, path: FilePath)
    requires si < n <= |CellScopes|
    ensures GroupsWellTyped(CellLintsUpTo(table, si + 1), cells, path)
      <==> GroupsWellTyped(CellLintsUpTo(table, si), cells, path) && GroupsWellTyped(ScopeLints(table, CellScopes[si]), cells, path)
    ensures before + GroupsEntries(CellLintsUpTo(table, si + 1), cells, path)
      == (before + GroupsEntries(CellLintsUpTo(table, si), cells, path)) + GroupsEntries(ScopeLints(table, CellScopes[si]), cells, path)
    ensures !GroupsWellTyped(ScopeLints(table, CellScopes[si]), cells, path) ==> !GroupsWellTyped(CellLintsUpTo(table, n), cells, path)
  {
    CellLintsPrefix(table, si + 1, n);
    GroupsStep(before, CellLintsUpTo(table, si), ScopeLints(table, CellScopes[si]), CellLintsUpTo(table, n), cells, path);
  }

  /** The entries of a table with one file lint and two cell lints. */
  lemma RunEntriesShape(table: LintTable, cells: seq<Cell>, source: string, path: FilePath, fileLint: Lint, first: Lint, second: Lint)
    requires FileLints(table) == [fileLint] && CellLints(table) == [first, second]
    ensures RunEntries(table, cells, source, path)
      == [FileEntry(fileLint, source, cells, path)] + GroupEntries(first, cells, path) + GroupEntries(second, cells, path)
  {
    var fileEntry := FileEntry(fileLint, source, cells, path);
    var one := GroupEntries(first, cells, path);
    var two := GroupEntries(second, cells, path);
    assert FileEntries([fileLint], source, cells, path) == [fileEntry] by {
      assert [fileLint][..0] == [];
    }
    assert GroupsEntries([first, second], cells, path) == one + two by {
      GroupsSingle(first, cells, path);
      assert [first, second][..1] == [first];
    }
    AppendAssoc3([fileEntry], one, two);
  }

  lemma GroupsSingle(lint: Lint, cells: seq<Cell>, path: FilePath)
    ensures GroupsWellTyped([lint], cells, path) <==> WellTypedUpTo(lint, cells, path, |cells|)
    ensures GroupsEntries([lint], cells, path) == MembersUpTo(lint, cells, path, |cells|) + [AggregateEntry(lint, cells, path)]
  {
    assert [lint][..0] == [];
  }

  lemma AppendAssoc3<T>(a: seq<T>, b: seq<T>, c: seq<T>)
    ensures (a + b) + c == a + (b + c)
  {
  }

  lemma MembersStep(lint: Lint, cells: seq<Cell>, path: FilePath, idx: nat)
    requires idx < |cells|
    ensures MembersUpTo(lint, cells, path, idx + 1) == MembersUpTo(lint, cells, path, idx)
      + (if InScope(lint.scope, cells[idx]) then [MemberEntry(lint, cells, path, idx)] else [])
    ensures Successes(MembersUpTo(lint, cells, path, idx + 1)) == Successes(MembersUpTo(lint, cells, path, idx))
      + (if InScope(lint.scope, cells[idx]) then [AsBool(CellVerdict(lint, cells[idx], path))] else [])
  {
    var ms := MembersUpTo(lint, cells, path, idx);
    if InScope(lint.scope, cells[idx]) {
      var e := MemberEntry(lint, cells, path, idx);
      assert (ms + [e])[..|ms|] == ms;
    } else {
      assert ms + [] == ms;
    }
  }

  lemma WellTypedStep(lint: Lint, cells: seq<Cell>, path: FilePath, idx: nat)
    requires idx < |cells|
    ensures WellTypedUpTo(lint, cells, path, idx + 1)
      <==> WellTypedUpTo(lint, cells, path, idx) && (InScope(lint.scope, cells[idx]) ==> CellVerdict(lint, cells[idx], path).BoolVerdict?)
  {
  }

  lemma {:induction false} WellTypedUpToPrefix(lint: Lint, cells: seq<Cell>, path: FilePath, j: nat, k: nat)
    requires j <= k <= |cells|
    ensures WellTypedUpTo(lint, cells, path, k) ==> WellTypedUpTo(lint, cells, path, j)
    decreases k - j
  {
    if j < k {
      WellTypedUpToPrefix(lint, cells, path, j, k - 1);
    }
  }

  /** `WellTypedUpTo` says that every visited cell's callback returned a bool. */
  lemma {:induction false} WellTypedUpToMeaning(lint: Lint, cells: seq<Cell>, path: FilePath, k: nat)
    requires k <= |cells|
    ensures WellTypedUpTo(lint, cells, path, k)
      <==> forall i | 0 <= i < k :: InScope(lint.scope, cells[i]) ==> CellVerdict(lint, cells[i], path).BoolVerdict?
    decreases k
  {
    if k > 0 {
      WellTypedUpToMeaning(lint, cells, path, k - 1);
    }
  }

  /** `GroupsWellTyped` says that every lint of the run is well typed on every cell it visits. */
  lemma {:induction false} GroupsWellTypedMeaning(lints: seq<Lint>, cells: seq<Cell>, path: FilePath)
    ensures GroupsWellTyped(lints, cells, path) <==> forall i | 0 <= i < |lints| :: WellTypedUpTo(lints[i], cells, path, |cells|)
    decreases |lints|
  {
    if lints != [] {
      var init := lints[..|lints| - 1];
      GroupsWellTypedMeaning(init, cells, path);
      assert forall i | 0 <= i < |init| :: init[i] == lints[i];
    }
  }

  lemma CombineMeaning(cond: Cond, results: seq<bool>)
    ensures Combine(cond, results) <==> if cond == ANY then true in results else false !in results
  {
  }

  lemma GroupsEntriesSnoc(lints: seq<Lint>, lint: Lint, cells: seq<Cell>, path: FilePath)
    ensures GroupsEntries(lints + [lint], cells, path) == GroupsEntries(lints, cells, path) + GroupEntries(lint, cells, path)
  {
    assert (lints + [lint])[..|lints|] == lints;
  }

  lemma MembersOfStep(entries: seq<Entry>, i: nat)
    requires i < |entries|
    ensures forall g :: (MembersOf(entries[..i + 1], g)
      == MembersOf(entries[..i], g) + (if entries[i].isGroupEntry && entries[i].group == g then [entries[i]] else []))
  {
    assert entries[..i + 1][..i] == entries[..i];
  }

  lemma RootsStep(entries: seq<Entry>, j: nat)
    requires j < |entries|
    ensures Roots(entries[..j + 1]) == Roots(entries[..j]) + (if entries[j].isGroupEntry then [] else [entries[j]])
  {
    assert entries[..j + 1][..j] == entries[..j];
  }

  lemma BlocksStep(entries: seq<Entry>, roots: seq<Entry>, k: nat, verbose: bool)
    requires k < |roots|
    ensures Blocks(entries, roots[..k + 1], verbose) == Blocks(entries, roots[..k], verbose) + RootBlock(entries, roots[k], verbose)
  {
    assert roots[..k + 1][..k] == roots[..k];
  }

  lemma ChildLinesStep(children: seq<Entry>, c: nat)
    requires c < |children|
    ensures ChildLines(children[..c + 1]) == ChildLines(children[..c]) + ChildLine(children[c])
  {
    assert children[..c + 1][..c] == children[..c];
  }

  lemma {:induction false} ScopeLintsPrefix(table: LintTable, scope: Scope, n: nat, m: nat)
    requires n <= m <= |Conds|
    ensures ScopeLintsUpTo(table, scope, n) <= ScopeLintsUpTo(table, scope, m)
    decreases m - n
  {
    if n < m {
      ScopeLintsPrefix(table, scope, n, m - 1);
    }
  }

  lemma {:induction false} CellLintsPrefix(table: LintTable, n: nat, m: nat)
    requires n <= m <= |CellScopes|
    ensures CellLintsUpTo(table, n) <= CellLintsUpTo(table, m)
    decreases m - n
  {
    if n < m {
      CellLintsPrefix(table, n, m - 1);
    }
  }
}
