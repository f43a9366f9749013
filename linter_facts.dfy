/**
 * What a lint run means: which cells a group visits and how its verdict
 * reads, which entries are top-level, when the whole status passes, and
 * what the quiet report holds.
 */
module LinterFacts {
  import opened Wrappers
  import opened Text
  import opened Notebook
  import opened Lints
  import opened Linter

  // ---------------------------------------------------------------------------
  // One lint group

  /** A group's members are exactly the member entries of the in-scope cells it has visited. */
  lemma {:induction false} MembersUpToSpec(lint: Lint, cells: seq<Cell>, path: FilePath, k: nat)
    requires k <= |cells|
    ensures forall e | e in MembersUpTo(lint, cells, path, k) ::
      exists i | 0 <= i < k :: InScope(lint.scope, cells[i]) && e == MemberEntry(lint, cells, path, i)
    ensures forall i | 0 <= i < k && InScope(lint.scope, cells[i]) ::
      MemberEntry(lint, cells, path, i) in MembersUpTo(lint, cells, path, k)
  {
    if k > 0 {
      MembersUpToSpec(lint, cells, path, k - 1);
      var prev := MembersUpTo(lint, cells, path, k - 1);
      var extra := if InScope(lint.scope, cells[k - 1]) then [MemberEntry(lint, cells, path, k - 1)] else [];
      var members := MembersUpTo(lint, cells, path, k);
      assert members == prev + extra;
      forall e | e in members
        ensures exists i | 0 <= i < k :: InScope(lint.scope, cells[i]) && e == MemberEntry(lint, cells, path, i)
      {
        if e in prev {
          var i :| 0 <= i < k - 1 && InScope(lint.scope, cells[i]) && e == MemberEntry(lint, cells, path, i);
          assert 0 <= i < k;
        } else {
          assert e in extra;
          assert InScope(lint.scope, cells[k - 1]) && e == MemberEntry(lint, cells, path, k - 1);
        }
      }
      forall i | 0 <= i < k && InScope(lint.scope, cells[i])
        ensures MemberEntry(lint, cells, path, i) in members
      {
        if i < k - 1 {
          assert MemberEntry(lint, cells, path, i) in prev;
        } else {
          assert MemberEntry(lint, cells, path, i) in extra;
        }
      }
    }
  }

  /** How many of `cells[..k]` a lint of this scope visits. */
  function InScopeCount(scope: Scope, cells: seq<Cell>, k: nat): nat
    requires k <= |cells|
  {
    if k == 0 then 0 else InScopeCount(scope, cells, k - 1) + (if InScope(scope, cells[k - 1]) then 1 else 0)
  }

  /** A group records exactly one member per in-scope cell, and none for the others. */
  lemma {:induction false} MembersCount(lint: Lint, cells: seq<Cell>, path: FilePath, k: nat)
    requires k <= |cells|
    ensures |MembersUpTo(lint, cells, path, k)| == InScopeCount(lint.scope, cells, k)
  {
    if k > 0 {
      MembersCount(lint, cells, path, k - 1);
    }
  }

  /** Members are marked as such and filed under the lint's name. */
  lemma MembersAreGroupEntries(lint: Lint, cells: seq<Cell>, path: FilePath, k: nat)
    requires k <= |cells|
    ensures forall e | e in MembersUpTo(lint, cells, path, k) ::
      e.lint == lint && e.isGroupEntry && e.group == Some(lint.name)
  {
    MembersUpToSpec(lint, cells, path, k);
  }

  lemma MemberNameInjective(lint: Lint, i: nat, j: nat)
    requires MemberName(lint, i) == MemberName(lint, j)
    ensures i == j
  {
    var prefix := lint.name + "__cell_";
    assert MemberName(lint, i) == prefix + DecimalString(i);
    assert MemberName(lint, j) == prefix + DecimalString(j);
    assert DecimalString(i) == MemberName(lint, i)[|prefix|..];
    DecimalStringInjective(i, j);
  }

  predicate DistinctNames(entries: seq<Entry>)
  {
    forall a, b | 0 <= a < b < |entries| :: entries[a].name != entries[b].name
  }

  /** No two members of a group share a report name. */
  lemma {:induction false} MemberNamesDistinct(lint: Lint, cells: seq<Cell>, path: FilePath, k: nat)
    requires k <= |cells|
    ensures DistinctNames(MembersUpTo(lint, cells, path, k))
  {
    if k > 0 {
      MemberNamesDistinct(lint, cells, path, k - 1);
      var prev := MembersUpTo(lint, cells, path, k - 1);
      var m := MembersUpTo(lint, cells, path, k);
      if InScope(lint.scope, cells[k - 1]) {
        MembersUpToSpec(lint, cells, path, k - 1);
        assert m == prev + [MemberEntry(lint, cells, path, k - 1)];
        forall a, b | 0 <= a < b < |m| ensures m[a].name != m[b].name {
          if b == |prev| {
            assert m[a] == prev[a] && prev[a] in prev;
            var i :| 0 <= i < k - 1 && InScope(lint.scope, cells[i]) && prev[a] == MemberEntry(lint, cells, path, i);
            if m[a].name == m[b].name {
              MemberNameInjective(lint, i, k - 1);
            }
          } else {
            assert m[a] == prev[a] && m[b] == prev[b];
          }
        }
      } else {
        assert m == prev;
      }
    }
  }

  lemma SuccessesSnoc(entries: seq<Entry>, e: Entry)
    ensures Successes(entries + [e]) == Successes(entries) + [e.isSuccess]
  {
    assert (entries + [e])[..|entries|] == entries;
  }

  /** The callback passed on `cells[i]`, which the lint visits. */
  predicate CellPasses(lint: Lint, cells: seq<Cell>, path: FilePath, i: nat)
    requires i < |cells|
  {
    InScope(lint.scope, cells[i]) && AsBool(CellVerdict(lint, cells[i], path))
  }

  /** The callback failed on `cells[i]`, which the lint visits. */
  predicate CellFails(lint: Lint, cells: seq<Cell>, path: FilePath, i: nat)
    requires i < |cells|
  {
    InScope(lint.scope, cells[i]) && !AsBool(CellVerdict(lint, cells[i], path))
  }

  /** Visiting one more cell adds its member's result to the group's results. */
  lemma SuccessesStep(lint: Lint, cells: seq<Cell>, path: FilePath, k: nat)
    requires 0 < k <= |cells|
    ensures (true in Successes(MembersUpTo(lint, cells, path, k)))
      <==> (true in Successes(MembersUpTo(lint, cells, path, k - 1))) || CellPasses(lint, cells, path, k - 1)
    ensures (false in Successes(MembersUpTo(lint, cells, path, k)))
      <==> (false in Successes(MembersUpTo(lint, cells, path, k - 1))) || CellFails(lint, cells, path, k - 1)
  {
    var prev := MembersUpTo(lint, cells, path, k - 1);
    if InScope(lint.scope, cells[k - 1]) {
      SuccessesSnoc(prev, MemberEntry(lint, cells, path, k - 1));
    } else {
      assert MembersUpTo(lint, cells, path, k) == prev;
    }
  }

  /** Some member of the group passed iff some visited in-scope cell's callback returned True. */
  lemma {:induction false} SomeMemberPasses(lint: Lint, cells: seq<Cell>, path: FilePath, k: nat)
    requires k <= |cells|
    ensures (true in Successes(MembersUpTo(lint, cells, path, k)))
      <==> exists i | 0 <= i < k :: CellPasses(lint, cells, path, i)
  {
    if k > 0 {
      SomeMemberPasses(lint, cells, path, k - 1);
      SuccessesStep(lint, cells, path, k);
      if exists i | 0 <= i < k :: CellPasses(lint, cells, path, i) {
        var i :| 0 <= i < k && CellPasses(lint, cells, path, i);
        assert i < k - 1 ==> exists i' | 0 <= i' < k - 1 :: CellPasses(lint, cells, path, i');
      }
    }
  }

  /** Every member of the group passed iff no visited in-scope cell's callback returned False. */
  lemma {:induction false} EveryMemberPasses(lint: Lint, cells: seq<Cell>, path: FilePath, k: nat)
    requires k <= |cells|
    ensures (false !in Successes(MembersUpTo(lint, cells, path, k)))
      <==> forall i | 0 <= i < k :: !CellFails(lint, cells, path, i)
  {
    if k > 0 {
      EveryMemberPasses(lint, cells, path, k - 1);
      SuccessesStep(lint, cells, path, k);
      if exists i | 0 <= i < k :: CellFails(lint, cells, path, i) {
        var i :| 0 <= i < k && CellFails(lint, cells, path, i);
        assert i < k - 1 ==> exists i' | 0 <= i' < k - 1 :: CellFails(lint, cells, path, i');
      }
    }
  }

  /**
   * `_run_lint_group`: an ANY group passes iff some in-scope cell passes; an
   * ALL group passes iff every in-scope cell passes.
   */
  lemma GroupVerdictMeaning(lint: Lint, cells: seq<Cell>, path: FilePath)
    ensures lint.cond == ANY ==> (GroupVerdict(lint, cells, path) <==> exists i | 0 <= i < |cells| :: CellPasses(lint, cells, path, i))
    ensures lint.cond == ALL ==> (GroupVerdict(lint, cells, path) <==> forall i | 0 <= i < |cells| :: !CellFails(lint, cells, path, i))
  {
    CombineMeaning(lint.cond, Successes(MembersUpTo(lint, cells, path, |cells|)));
    if lint.cond == ANY {
      SomeMemberPasses(lint, cells, path, |cells|);
    } else {
      EveryMemberPasses(lint, cells, path, |cells|);
    }
  }

  /** A group that visits only `cells[i]` has recorded nothing before it and that one member from it on. */
  lemma {:induction false} SingleMemberUpTo(lint: Lint, cells: seq<Cell>, path: FilePath, i: nat, k: nat)
    requires i < |cells| && InScope(lint.scope, cells[i])
    requires forall j | 0 <= j < |cells| && j != i :: !InScope(lint.scope, cells[j])
    requires k <= |cells|
    ensures MembersUpTo(lint, cells, path, k) == if k <= i then [] else [MemberEntry(lint, cells, path, i)]
  {
    if k > 0 {
      SingleMemberUpTo(lint, cells, path, i, k - 1);
    }
  }

  /**
   * A group that visits exactly one cell records that cell's member and an
   * aggregate with the same result, whatever its condition.
   */
  lemma SingleMemberGroup(lint: Lint, cells: seq<Cell>, path: FilePath, i: nat)
    requires i < |cells| && InScope(lint.scope, cells[i])
    requires forall j | 0 <= j < |cells| && j != i :: !InScope(lint.scope, cells[j])
    ensures GroupEntries(lint, cells, path) == [
      MemberEntry(lint, cells, path, i),
      Entry(lint, AsBool(CellVerdict(lint, cells[i], path)), lint.name, Some(lint.name), false)]
  {
    var e := MemberEntry(lint, cells, path, i);
    SingleMemberUpTo(lint, cells, path, i, |cells|);
    assert Successes([e]) == [e.isSuccess] by {
      assert [e][..0] == [];
    }
    CombineMeaning(lint.cond, [e.isSuccess]);
  }

  /** With no cell in scope, `any([])` is False and `all([])` is True. */
  lemma EmptyScopeVerdict(lint: Lint, cells: seq<Cell>, path: FilePath)
    requires forall i | 0 <= i < |cells| :: !InScope(lint.scope, cells[i])
    ensures GroupVerdict(lint, cells, path) <==> lint.cond == ALL
  {
    GroupVerdictMeaning(lint, cells, path);
  }

  // ---------------------------------------------------------------------------
  // Visiting order

  /** Within a scope, the ANY lints run before the ALL lints. */
  lemma ScopeLintsOrder(table: LintTable, scope: Scope)
    ensures ScopeLints(table, scope) == Lookup(table, scope, ANY) + Lookup(table, scope, ALL)
  {
    assert Conds[0] == ANY && Conds[1] == ALL;
    assert ScopeLintsUpTo(table, scope, 1) == Lookup(table, scope, ANY);
  }

  /** The cell lints run scope by scope: CELLS, then CODE, then TEXT. */
  lemma CellLintsOrder(table: LintTable)
    ensures CellLints(table) == ScopeLints(table, CELLS) + ScopeLints(table, CODE) + ScopeLints(table, TEXT)
  {
    assert CellScopes[0] == CELLS && CellScopes[1] == CODE && CellScopes[2] == TEXT;
    assert CellLintsUpTo(table, 1) == ScopeLints(table, CELLS);
    assert CellLintsUpTo(table, 2) == ScopeLints(table, CELLS) + ScopeLints(table, CODE);
  }

  // ---------------------------------------------------------------------------
  // Top-level entries

  lemma {:induction false} RootsAppend(a: seq<Entry>, b: seq<Entry>)
    ensures Roots(a + b) == Roots(a) + Roots(b)
    decreases |b|
  {
    if b == [] {
      assert a + b == a;
    } else {
      var b', last := b[..|b| - 1], b[|b| - 1];
      assert (a + b)[..|a + b| - 1] == a + b';
      RootsAppend(a, b');
    }
  }

  /** A top-level entry is exactly a recorded entry that is not a group member. */
  lemma {:induction false} RootsMembership(entries: seq<Entry>)
    ensures forall e :: e in Roots(entries) <==> e in entries && !e.isGroupEntry
  {
    if entries != [] {
      var prev, last := entries[..|entries| - 1], entries[|entries| - 1];
      RootsMembership(prev);
      assert entries == prev + [last];
    }
  }

  /** `is_success`: the status passes iff every top-level entry passed. */
  lemma RootsPassMeaning(entries: seq<Entry>)
    ensures RootsPass(entries) <==> forall e | e in Roots(entries) :: e.isSuccess
  {
    RootsMembership(entries);
    if forall e | e in Roots(entries) :: e.isSuccess {
      forall i | 0 <= i < |entries| && !entries[i].isGroupEntry ensures entries[i].isSuccess {
        assert entries[i] in Roots(entries);
      }
    }
  }

  lemma {:induction false} RootsOfMembers(lint: Lint, cells: seq<Cell>, path: FilePath, k: nat)
    requires k <= |cells|
    ensures Roots(MembersUpTo(lint, cells, path, k)) == []
  {
    if k > 0 {
      var prev := MembersUpTo(lint, cells, path, k - 1);
      var extra := if InScope(lint.scope, cells[k - 1]) then [MemberEntry(lint, cells, path, k - 1)] else [];
      RootsOfMembers(lint, cells, path, k - 1);
      RootsAppend(prev, extra);
      if extra != [] {
        assert extra[..0] == [];
      }
    }
  }

  /** The aggregate entries of some cell lints, in order. */
  function Aggregates(lints: seq<Lint>, cells: seq<Cell>, path: FilePath): (r: seq<Entry>)
    ensures |r| == |lints|
    ensures forall i | 0 <= i < |lints| :: r[i] == AggregateEntry(lints[i], cells, path)
  {
    if lints == [] then []
    else Aggregates(lints[..|lints| - 1], cells, path) + [AggregateEntry(lints[|lints| - 1], cells, path)]
  }

  /** Of a group's entries, only its aggregate is top-level. */
  lemma RootsOfGroup(lint: Lint, cells: seq<Cell>, path: FilePath)
    ensures Roots(GroupEntries(lint, cells, path)) == [AggregateEntry(lint, cells, path)]
  {
    var m := MembersUpTo(lint, cells, path, |cells|);
    RootsAppend(m, [AggregateEntry(lint, cells, path)]);
    RootsOfMembers(lint, cells, path, |cells|);
    assert Roots([AggregateEntry(lint, cells, path)]) == Roots([]) + [AggregateEntry(lint, cells, path)] by {
      assert [AggregateEntry(lint, cells, path)][..0] == [];
    }
  }

  lemma {:induction false} RootsOfGroups(lints: seq<Lint>, cells: seq<Cell>, path: FilePath)
    ensures Roots(GroupsEntries(lints, cells, path)) == Aggregates(lints, cells, path)
  {
    if lints != [] {
      var prev, last := lints[..|lints| - 1], lints[|lints| - 1];
      RootsOfGroups(prev, cells, path);
      RootsAppend(GroupsEntries(prev, cells, path), GroupEntries(last, cells, path));
      RootsOfGroup(last, cells, path);
    }
  }

  lemma {:induction false} FileEntriesAt(lints: seq<Lint>, source: string, cells: seq<Cell>, path: FilePath)
    ensures |FileEntries(lints, source, cells, path)| == |lints|
    ensures forall i | 0 <= i < |lints| :: FileEntries(lints, source, cells, path)[i] == FileEntry(lints[i], source, cells, path)
  {
    if lints != [] {
      FileEntriesAt(lints[..|lints| - 1], source, cells, path);
    }
  }

  /** File lint entries are all top-level. */
  lemma {:induction false} RootsOfFileEntries(lints: seq<Lint>, source: string, cells: seq<Cell>, path: FilePath)
    ensures Roots(FileEntries(lints, source, cells, path)) == FileEntries(lints, source, cells, path)
  {
    if lints != [] {
      var prev := lints[..|lints| - 1];
      var entries := FileEntries(lints, source, cells, path);
      RootsOfFileEntries(prev, source, cells, path);
      assert entries[..|entries| - 1] == FileEntries(prev, source, cells, path);
    }
  }

  /** The top-level entries of a run: the file lints' entries, then each group's aggregate. */
  lemma RootsOfRun(fileLints: seq<Lint>, cellLints: seq<Lint>, cells: seq<Cell>, source: string, path: FilePath)
    ensures Roots(FileEntries(fileLints, source, cells, path) + GroupsEntries(cellLints, cells, path))
      == FileEntries(fileLints, source, cells, path) + Aggregates(cellLints, cells, path)
  {
    RootsAppend(FileEntries(fileLints, source, cells, path), GroupsEntries(cellLints, cells, path));
    RootsOfFileEntries(fileLints, source, cells, path);
    RootsOfGroups(cellLints, cells, path);
  }

  /**
   * The entries of file lints and then cell lints pass iff every file lint
   * returned True and every group verdict is True.
   */
  lemma EntriesPassMeaning(fileLints: seq<Lint>, cellLints: seq<Lint>, cells: seq<Cell>, source: string, path: FilePath)
    ensures RootsPass(FileEntries(fileLints, source, cells, path) + GroupsEntries(cellLints, cells, path))
      <==> ((forall i | 0 <= i < |fileLints| :: AsBool(FileVerdict(fileLints[i], source, cells, path)))
        && (forall i | 0 <= i < |cellLints| :: GroupVerdict(cellLints[i], cells, path)))
  {
    var files := FileEntries(fileLints, source, cells, path);
    var aggs := Aggregates(cellLints, cells, path);
    var entries := files + GroupsEntries(cellLints, cells, path);
    assert RootsPass(entries) <==> AllSucceed(files + aggs) by {
      RootsPassMeaning(entries);
      RootsOfRun(fileLints, cellLints, cells, source, path);
      AllSucceedMeaning(files + aggs);
    }
    AllSucceedAppend(files, aggs);
    assert AllSucceed(files) <==> forall i | 0 <= i < |fileLints| :: AsBool(FileVerdict(fileLints[i], source, cells, path)) by {
      FileEntriesAt(fileLints, source, cells, path);
    }
    assert AllSucceed(aggs) <==> forall i | 0 <= i < |cellLints| :: GroupVerdict(cellLints[i], cells, path) by {
      assert forall i | 0 <= i < |cellLints| :: aggs[i].isSuccess == GroupVerdict(cellLints[i], cells, path);
    }
  }

  /** Every entry passed. */
  predicate AllSucceed(entries: seq<Entry>)
  {
    forall i | 0 <= i < |entries| :: entries[i].isSuccess
  }

  lemma AllSucceedMeaning(entries: seq<Entry>)
    ensures AllSucceed(entries) <==> forall e | e in entries :: e.isSuccess
  {
    if AllSucceed(entries) {
      forall e | e in entries ensures e.isSuccess {
        var i :| 0 <= i < |entries| && entries[i] == e;
      }
    }
  }

  lemma AllSucceedAppend(a: seq<Entry>, b: seq<Entry>)
    ensures AllSucceed(a + b) <==> AllSucceed(a) && AllSucceed(b)
  {
    if AllSucceed(a) && AllSucceed(b) {
      forall i | 0 <= i < |a + b| ensures (a + b)[i].isSuccess {
        if i >= |a| {
          assert (a + b)[i] == b[i - |a|];
        }
      }
    }
    if AllSucceed(a + b) {
      forall i | 0 <= i < |a| ensures a[i].isSuccess {
        assert (a + b)[i] == a[i];
      }
      forall i | 0 <= i < |b| ensures b[i].isSuccess {
        assert (a + b)[|a| + i] == b[i];
      }
    }
  }

  /**
   * A finished run passes iff every file lint returned True and every cell
   * lint's group verdict is True; member failures alone do not fail it.
   */
  lemma RunPassMeaning(table: LintTable, cells: seq<Cell>, source: string, path: FilePath)
    ensures RootsPass(RunEntries(table, cells, source, path))
      <==> ((forall i | 0 <= i < |FileLints(table)| :: AsBool(FileVerdict(FileLints(table)[i], source, cells, path)))
        && (forall i | 0 <= i < |CellLints(table)| :: GroupVerdict(CellLints(table)[i], cells, path)))
  {
    EntriesPassMeaning(FileLints(table), CellLints(table), cells, source, path);
  }

  // ---------------------------------------------------------------------------
  // The report

  lemma {:induction false} QuietBlocks(entries: seq<Entry>, roots: seq<Entry>)
    ensures Blocks(entries, roots, false) == RootLines(roots)
  {
    if roots != [] {
      QuietBlocks(entries, roots[..|roots| - 1]);
    }
  }

  /** Without `verbose`, the report is one line per top-level entry and nothing else. */
  lemma QuietReport(entries: seq<Entry>)
    ensures Report(entries, false) == RootLines(Roots(entries))
  {
    QuietBlocks(entries, Roots(entries));
  }

  /** With no entry that a group collected, no group has members. */
  lemma {:induction false} NoMembersWithoutGroupEntries(entries: seq<Entry>, g: Option<string>)
    requires forall i | 0 <= i < |entries| :: !entries[i].isGroupEntry
    ensures MembersOf(entries, g) == []
  {
    if entries != [] {
      NoMembersWithoutGroupEntries(entries[..|entries| - 1], g);
    }
  }

  /** When no root has members, the verbose blocks are the quiet ones. */
  lemma {:induction false} VerboseBlocksWithoutMembers(entries: seq<Entry>, roots: seq<Entry>)
    requires forall j | 0 <= j < |roots| :: MembersOf(entries, roots[j].group) == []
    ensures Blocks(entries, roots, true) == Blocks(entries, roots, false)
  {
    if roots != [] {
      VerboseBlocksWithoutMembers(entries, roots[..|roots| - 1]);
    }
  }

  /**
   * Without any entry that a group collected, the verbose report adds no
   * `[All results]` section: it is the quiet report.
   */
  lemma VerboseReportWithoutMembers(entries: seq<Entry>)
    requires forall i | 0 <= i < |entries| :: !entries[i].isGroupEntry
    ensures Report(entries, true) == Report(entries, false)
    ensures Report(entries, true) == RootLines(Roots(entries))
  {
    var roots := Roots(entries);
    forall j | 0 <= j < |roots|
      ensures MembersOf(entries, roots[j].group) == []
    {
      NoMembersWithoutGroupEntries(entries, roots[j].group);
    }
    VerboseBlocksWithoutMembers(entries, roots);
    QuietReport(entries);
  }
}
