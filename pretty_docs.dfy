/**
 * The markdown page builder of the API documentation generator
 * (`tensorflow_docs/api_generator/pretty_docs.py`): the dispatch on the kind
 * of page, the class, function and module page layouts, and the helpers that
 * split a class's methods, merge the constructor's docstring into the class's,
 * group aliases, list compatibility notes and render signatures and source
 * links.
 *
 * The `parser` objects are values here; `str` of a docstring title block is
 * carried by the block, `doc_controls.get_custom_page_content` is the page's
 * `custom` field and `doc_generator_visitor.maybe_singleton` with `repr` is an
 * other-member's optional `singleton` text.
 */
module PrettyDocs {
  import opened Wrappers
  import opened Text

  // ---------------------------------------------------------------------------
  // Page information
  // ---------------------------------------------------------------------------

  /** Where a symbol is defined: only the url is read here. */
  datatype Location = Location(url: string)

  /** One part of a docstring: free text, or a titled block with its rendered form. */
  datatype Block = Prose(text: string) | TitleBlock(title: string, rendered: string)

  /** The parsed docstring of a symbol. */
  datatype DocInfo = DocInfo(brief: string, parts: seq<Block>, compatibility: map<string, string>)

  /** A method of a documented class. */
  datatype MethodInfo = MethodInfo(
    shortName: string,
    fullName: string,
    doc: DocInfo,
    definedIn: Option<Location>,
    signature: Option<string>,
    decorators: seq<string>)

  /** A link to another documented symbol, with its one-line docstring. */
  datatype LinkInfo = LinkInfo(shortName: string, url: string, brief: string)

  /**
   * A member that is not a class, function, module or method; `singleton`
   * holds the `repr` of its value when the value is a singleton worth showing.
   */
  datatype OtherMember = OtherMember(shortName: string, singleton: Option<string>)

  /** The page-info objects `build_md_page` accepts, and any other object. */
  datatype PageInfo =
    | ClassPage(
        fullName: string, definedIn: Option<Location>, doc: DocInfo, aliases: seq<string>,
        bases: seq<LinkInfo>, methods: seq<MethodInfo>, classes: seq<LinkInfo>,
        otherMembers: seq<OtherMember>, custom: Option<string>)
    | FunctionPage(
        fullName: string, definedIn: Option<Location>, doc: DocInfo, aliases: seq<string>,
        signature: Option<string>, decorators: seq<string>, custom: Option<string>)
    | ModulePage(
        fullName: string, definedIn: Option<Location>, doc: DocInfo, aliases: seq<string>,
        modules: seq<LinkInfo>, classes: seq<LinkInfo>, functions: seq<LinkInfo>,
        otherMembers: seq<OtherMember>, custom: Option<string>)
    | OtherPage(typeName: string)

  /** `str(block)`. */
  function BlockStr(b: Block): string
  {
    match b
    case Prose(text) => text
    case TitleBlock(_, rendered) => rendered
  }

  /** `[str(item) for item in blocks]`. */
  function BlockStrs(blocks: seq<Block>): seq<string>
  {
    seq(|blocks|, i requires 0 <= i < |blocks| => BlockStr(blocks[i]))
  }

  // ---------------------------------------------------------------------------
  // _split_methods
  // ---------------------------------------------------------------------------

  /** `{method.short_name: method for method in methods}`. */
  function ByShortName(methods: seq<MethodInfo>): map<string, MethodInfo>
  {
    if methods == [] then map[]
    else
      var last := methods[|methods| - 1];
      ByShortName(methods[..|methods| - 1])[last.shortName := last]
  }

  /**
   * The dictionary has a key for every short name, and under it the LAST
   * method with that name: a later method replaces an earlier one.
   */
  lemma ByShortNameSpec(methods: seq<MethodInfo>)
    ensures forall k :: k in ByShortName(methods) <==>
      exists i | 0 <= i < |methods| :: methods[i].shortName == k
    ensures forall k | k in ByShortName(methods) ::
      ByShortName(methods)[k].shortName == k &&
      exists i | 0 <= i < |methods| :: (methods[i] == ByShortName(methods)[k] &&
        forall j | i < j < |methods| :: methods[j].shortName != k)
  {
    ByShortNameKeys(methods);
    ByShortNameLast(methods);
  }

  /** The keys of the dictionary are exactly the short names present. */
  lemma {:induction false} ByShortNameKeys(methods: seq<MethodInfo>)
    ensures forall k :: k in ByShortName(methods) <==>
      exists i | 0 <= i < |methods| :: methods[i].shortName == k
  {
    if methods != [] {
      var init := methods[..|methods| - 1];
      var last := methods[|methods| - 1];
      ByShortNameKeys(init);
      var d := ByShortName(methods);
      forall k | k in d ensures exists i | 0 <= i < |methods| :: methods[i].shortName == k {
        if k == last.shortName {
          assert methods[|methods| - 1].shortName == k;
        } else {
          assert k in ByShortName(init);
          var i :| 0 <= i < |init| && init[i].shortName == k;
          assert methods[i] == init[i];
        }
      }
      forall k | exists i | 0 <= i < |methods| :: methods[i].shortName == k ensures k in d {
        var i :| 0 <= i < |methods| && methods[i].shortName == k;
        if i < |init| {
          assert init[i] == methods[i];
          assert k in ByShortName(init);
        }
      }
    }
  }

  /** Each entry is the last method with its short name. */
  lemma {:induction false} ByShortNameLast(methods: seq<MethodInfo>)
    ensures forall k | k in ByShortName(methods) ::
      ByShortName(methods)[k].shortName == k &&
      exists i | 0 <= i < |methods| :: (methods[i] == ByShortName(methods)[k] &&
        forall j | i < j < |methods| :: methods[j].shortName != k)
  {
    if methods != [] {
      var init := methods[..|methods| - 1];
      var last := methods[|methods| - 1];
      ByShortNameLast(init);
      var d := ByShortName(methods);
      forall k | k in d
        ensures d[k].shortName == k
        ensures exists i | 0 <= i < |methods| :: (methods[i] == d[k] &&
          forall j | i < j < |methods| :: methods[j].shortName != k)
      {
        if k == last.shortName {
          assert methods[|methods| - 1] == d[k];
        } else {
          assert k in ByShortName(init) && d[k] == ByShortName(init)[k];
          var i :| 0 <= i < |init| && init[i] == d[k] &&
            forall j | i < j < |init| :: init[j].shortName != k;
          assert methods[i] == d[k];
          forall j | i < j < |methods| ensures methods[j].shortName != k {
            if j < |init| {
              assert methods[j] == init[j];
            }
          }
        }
      }
    }
  }

  /** The constructor to document: `__init__` if present, else `__new__`, else none. */
  function PreferredConstructor(d: map<string, MethodInfo>): Option<MethodInfo>
  {
    if "__init__" in d then Some(d["__init__"])
    else if "__new__" in d then Some(d["__new__"])
    else None
  }

  /** The methods listed on a class page: every method but the two constructors. */
  function OtherMethods(methods: seq<MethodInfo>): (r: map<string, MethodInfo>)
    ensures forall k :: k in r <==>
      k != "__init__" && k != "__new__" &&
      exists i | 0 <= i < |methods| :: methods[i].shortName == k
  {
    ByShortNameSpec(methods);
    ByShortName(methods) - {"__init__", "__new__"}
  }

  /** The documented constructor of a class with these methods. */
  function Constructor(methods: seq<MethodInfo>): Option<MethodInfo>
  {
    PreferredConstructor(ByShortName(methods))
  }

  /** Some method of the list has this short name. */
  ghost predicate HasMethod(methods: seq<MethodInfo>, name: string)
  {
    exists i | 0 <= i < |methods| :: methods[i].shortName == name
  }

  /**
   * `__init__` is preferred over `__new__`; a class with neither has no
   * constructor; the one chosen is the last method of that name.
   */
  lemma ConstructorChoice(methods: seq<MethodInfo>)
    ensures HasMethod(methods, "__init__") ==>
      Constructor(methods).Some? && Constructor(methods).value.shortName == "__init__"
    ensures !HasMethod(methods, "__init__") && HasMethod(methods, "__new__") ==>
      Constructor(methods).Some? && Constructor(methods).value.shortName == "__new__"
    ensures Constructor(methods).None? <==>
      !HasMethod(methods, "__init__") && !HasMethod(methods, "__new__")
    ensures Constructor(methods).Some? ==>
      exists i | 0 <= i < |methods| :: (methods[i] == Constructor(methods).value &&
        forall j | i < j < |methods| :: methods[j].shortName != methods[i].shortName)
  {
    ByShortNameSpec(methods);
  }

  /**
   * `_split_methods`: builds the name-to-method dictionary, pops `__init__`
   * and `__new__` from it and picks the constructor.
   */
  method SplitMethods(methods: seq<MethodInfo>) returns (infoDict: map<string, MethodInfo>, ctor: Option<MethodInfo>)
    ensures infoDict == OtherMethods(methods)
    ensures ctor == Constructor(methods)
  {
    infoDict := map[];
    for i := 0 to |methods|
      invariant infoDict == ByShortName(methods[..i])
    {
      assert methods[..i + 1][..i] == methods[..i];
      infoDict := infoDict[methods[i].shortName := methods[i]];
    }
    assert methods[..|methods|] == methods;
    var initConstructor: Option<MethodInfo> := None;
    if "__init__" in infoDict {
      initConstructor := Some(infoDict["__init__"]);
      infoDict := infoDict - {"__init__"};
    }
    var newConstructor: Option<MethodInfo> := None;
    if "__new__" in infoDict {
      newConstructor := Some(infoDict["__new__"]);
      infoDict := infoDict - {"__new__"};
    }
    ctor := None;
    if initConstructor.Some? {
      ctor := initConstructor;
    } else if newConstructor.Some? {
      ctor := newConstructor;
    }
  }

  // ---------------------------------------------------------------------------
  // _merge_class_and_constructor_docstring
  // ---------------------------------------------------------------------------

  /** A title block whose title starts with `Args` or `Arguments`. */
  predicate IsArgsBlock(b: Block)
  {
    b.TitleBlock? && (StartsWith(b.title, "Args") || StartsWith(b.title, "Arguments"))
  }

  /** A title block starting with `Raises` (checked only when it is not an Args block). */
  predicate IsRaisesBlock(b: Block)
  {
    b.TitleBlock? && !IsArgsBlock(b) && StartsWith(b.title, "Raises")
  }

  /** A title block starting with `Attributes`. */
  predicate IsAttributesBlock(b: Block)
  {
    b.TitleBlock? && StartsWith(b.title, "Attributes")
  }

  /** The last block satisfying `p`: a forward scan that keeps overwriting its pick. */
  function LastWhere(blocks: seq<Block>, p: Block -> bool): Option<Block>
  {
    if blocks == [] then None
    else if p(blocks[|blocks| - 1]) then Some(blocks[|blocks| - 1])
    else LastWhere(blocks[..|blocks| - 1], p)
  }

  /**
   * The scan picks nothing exactly when no block satisfies `p`, and otherwise
   * a block satisfying `p` with none after it: the last match wins.
   */
  lemma {:induction false} LastWhereSpec(blocks: seq<Block>, p: Block -> bool)
    ensures LastWhere(blocks, p).None? <==> forall i | 0 <= i < |blocks| :: !p(blocks[i])
    ensures LastWhere(blocks, p).Some? ==>
      exists i | 0 <= i < |blocks| :: (blocks[i] == LastWhere(blocks, p).value && p(blocks[i]) &&
        forall j | i < j < |blocks| :: !p(blocks[j]))
  {
    if blocks == [] {
      return;
    }
    var n := |blocks| - 1;
    if p(blocks[n]) {
      assert blocks[n] == LastWhere(blocks, p).value;
      return;
    }
    var init := blocks[..n];
    LastWhereSpec(init, p);
    assert LastWhere(blocks, p) == LastWhere(init, p);
    if LastWhere(init, p).Some? {
      var i :| 0 <= i < |init| && init[i] == LastWhere(init, p).value && p(init[i]) &&
        forall j | i < j < |init| :: !p(init[j]);
      assert blocks[i] == init[i];
      forall j | i < j < |blocks| ensures !p(blocks[j]) {
        if j < n {
          assert blocks[j] == init[j];
        }
      }
    } else {
      forall k | 0 <= k < |blocks| ensures !p(blocks[k]) {
        if k < n {
          assert blocks[k] == init[k];
        }
      }
    }
  }

  /** Where the constructor's Args block goes: before the first Attributes block, else at the end. */
  function FirstAttributes(blocks: seq<Block>): (r: nat)
    ensures r <= |blocks|
    ensures forall j | 0 <= j < r :: !IsAttributesBlock(blocks[j])
    ensures r < |blocks| ==> IsAttributesBlock(blocks[r])
  {
    if blocks == [] then 0
    else if IsAttributesBlock(blocks[0]) then 0
    else 1 + FirstAttributes(blocks[1..])
  }

  /** A block as a list of zero or one elements. */
  function Listed(b: Option<Block>): seq<Block>
  {
    if b.Some? then [b.value] else []
  }

  /** The class's docstring blocks after the constructor's Args and Raises blocks are merged in. */
  function MergedBlocks(cls: seq<Block>, ctor: Option<MethodInfo>): seq<Block>
  {
    if ctor.None? then cls
    else
      var args := LastWhere(ctor.value.doc.parts, IsArgsBlock);
      var raises := LastWhere(ctor.value.doc.parts, IsRaisesBlock);
      var at := FirstAttributes(cls);
      cls[..at] + Listed(args) + cls[at..] + Listed(raises)
  }

  /**
   * Merging adds at most the constructor's last Args block and its last
   * Raises block, and nothing else of the constructor's docstring: the Args
   * block lands right before the first Attributes block (after every earlier
   * class block), the Raises block at the very end, and without a constructor
   * the class docstring is kept as it is.
   */
  lemma MergeSpec(cls: seq<Block>, ctor: Option<MethodInfo>)
    ensures ctor.None? ==> MergedBlocks(cls, ctor) == cls
    ensures ctor.Some? ==>
      var args := LastWhere(ctor.value.doc.parts, IsArgsBlock);
      var raises := LastWhere(ctor.value.doc.parts, IsRaisesBlock);
      var r := MergedBlocks(cls, ctor);
      var at := FirstAttributes(cls);
      && multiset(r) == multiset(cls) + multiset(Listed(args)) + multiset(Listed(raises))
      && r[..at] == cls[..at]
      && (args.Some? ==> r[at] == args.value && (at < |cls| ==> IsAttributesBlock(r[at + 1])))
      && (args.None? && at < |cls| ==> IsAttributesBlock(r[at]))
      && (raises.Some? ==> r[|r| - 1] == raises.value)
  {
    if ctor.Some? {
      Splice(cls, FirstAttributes(cls),
        LastWhere(ctor.value.doc.parts, IsArgsBlock), LastWhere(ctor.value.doc.parts, IsRaisesBlock));
    }
  }

  /** Inserting an optional block at `at` and appending another one. */
  lemma Splice(cls: seq<Block>, at: nat, args: Option<Block>, raises: Option<Block>)
    requires at <= |cls|
    ensures var r := cls[..at] + Listed(args) + cls[at..] + Listed(raises);
      && multiset(r) == multiset(cls) + multiset(Listed(args)) + multiset(Listed(raises))
      && r[..at] == cls[..at]
      && (args.Some? ==> r[at] == args.value && (at < |cls| ==> r[at + 1] == cls[at]))
      && (args.None? && at < |cls| ==> r[at] == cls[at])
      && (raises.Some? ==> r[|r| - 1] == raises.value)
  {
    SpliceCount(cls[..at], cls[at..], Listed(args), Listed(raises));
    assert cls == cls[..at] + cls[at..];
  }

  /** Counting the blocks of a splice. */
  lemma SpliceCount(front: seq<Block>, back: seq<Block>, args: seq<Block>, raises: seq<Block>)
    ensures multiset(front + args + back + raises)
         == multiset(front + back) + multiset(args) + multiset(raises)
  {
  }

  /**
   * The list object `class_page_info.doc.docstring_parts`, which the merge
   * changes in place: the caller's page info holds the merged list afterwards.
   */
  class ClassDocstring {
    var parts: seq<Block>

    constructor (parts: seq<Block>)
      ensures this.parts == parts
    {
      this.parts := parts;
    }

    /** `_merge_class_and_constructor_docstring`. */
    method Merge(ctor: Option<MethodInfo>) returns (strs: seq<string>)
      modifies this
      ensures parts == MergedBlocks(old(parts), ctor)
      ensures strs == BlockStrs(parts)
    {
      if ctor.None? {
        return BlockStrs(parts);
      }
      var constructorDoc := ctor.value.doc.parts;
      var ctorArgsBlock: Option<Block> := None;
      var ctorRaiseBlock: Option<Block> := None;
      for i := 0 to |constructorDoc|
        invariant ctorArgsBlock == LastWhere(constructorDoc[..i], IsArgsBlock)
        invariant ctorRaiseBlock == LastWhere(constructorDoc[..i], IsRaisesBlock)
      {
        var block := constructorDoc[i];
        assert constructorDoc[..i + 1][..i] == constructorDoc[..i];
        if block.TitleBlock? {
          if StartsWith(block.title, "Args") || StartsWith(block.title, "Arguments") {
            ctorArgsBlock := Some(block);
          } else if StartsWith(block.title, "Raises") {
            ctorRaiseBlock := Some(block);
          }
        }
      }
      assert constructorDoc[..|constructorDoc|] == constructorDoc;
      if ctorArgsBlock.Some? {
        var classDoc := parts;
        var addedArgsToClassDoc := false;
        var index := 0;
        while index < |classDoc|
          invariant 0 <= index <= |classDoc|
          invariant forall j | 0 <= j < index :: !IsAttributesBlock(classDoc[j])
        {
          if IsAttributesBlock(classDoc[index]) {
            parts := classDoc[..index] + [ctorArgsBlock.value] + classDoc[index..];
            addedArgsToClassDoc := true;
            break;
          }
          index := index + 1;
        }
        if !addedArgsToClassDoc {
          parts := classDoc + [ctorArgsBlock.value];
          assert classDoc[index..] == [];
        }
        assert index == FirstAttributes(classDoc);
      }
      if ctorRaiseBlock.Some? {
        parts := parts + [ctorRaiseBlock.value];
      }
      strs := BlockStrs(parts);
    }
  }

  /**
   * A constructor with an Args block adds it again on every merge: a class
   * page built twice from the same page info lists the arguments twice.
   */
  lemma MergeAgainGrows(cls: seq<Block>, ctor: Option<MethodInfo>)
    requires ctor.Some? && LastWhere(ctor.value.doc.parts, IsArgsBlock).Some?
    ensures |MergedBlocks(MergedBlocks(cls, ctor), ctor)| > |MergedBlocks(cls, ctor)| > |cls|
  {
  }

  // ---------------------------------------------------------------------------
  // _build_collapsable_aliases
  // ---------------------------------------------------------------------------

  /** The elements of `s` that satisfy `p`, in order. */
  function Filter(s: seq<string>, p: string -> bool): seq<string>
  {
    if s == [] then []
    else Filter(s[..|s| - 1], p) + (if p(s[|s| - 1]) then [s[|s| - 1]] else [])
  }

  /** The filtered list holds exactly the elements that satisfy `p`. */
  lemma {:induction false} FilterMembers(s: seq<string>, p: string -> bool)
    ensures forall x :: x in Filter(s, p) <==> x in s && p(x)
  {
    if s != [] {
      FilterMembers(s[..|s| - 1], p);
      assert s == s[..|s| - 1] + [s[|s| - 1]];
    }
  }

  /** Filtering distributes over concatenation, so the original order is kept. */
  lemma {:induction false} FilterAppend(a: seq<string>, b: seq<string>, p: string -> bool)
    ensures Filter(a + b, p) == Filter(a, p) + Filter(b, p)
    decreases |b|
  {
    if b == [] {
      assert a + b == a;
    } else {
      var ab := a + b;
      assert ab[..|ab| - 1] == a + b[..|b| - 1];
      FilterAppend(a, b[..|b| - 1], p);
    }
  }

  /** Nothing passes the filter when no element satisfies `p`. */
  lemma {:induction false} FilterNone(s: seq<string>, p: string -> bool)
    requires forall x | x in s :: !p(x)
    ensures Filter(s, p) == []
  {
    if s != [] {
      assert forall x | x in s[..|s| - 1] :: x in s;
      FilterNone(s[..|s| - 1], p);
    }
  }

  predicate IsMainAlias(alias: string)
  {
    !Contains(alias, "__") && !Contains(alias, "compat.v")
  }

  predicate IsCompatAlias(alias: string)
  {
    !Contains(alias, "__") && Contains(alias, "compat.v")
  }

  function MainAliases(aliases: seq<string>): seq<string>
  {
    Filter(aliases, IsMainAlias)
  }

  function CompatAliases(aliases: seq<string>): seq<string>
  {
    Filter(aliases, IsCompatAlias)
  }

  /** `', '.join('`{}`'.format(name) for name in aliases)`. */
  function JoinAliases(aliases: seq<string>): string
  {
    Join(", ", seq(|aliases|, i requires 0 <= i < |aliases| => "`" + aliases[i] + "`"))
  }

  const MainHead: string := "\n<b>Main aliases</b>\n<p>"
  const CompatHead: string :=
    "\n<b>Compat aliases for migration</b>\n<p>See\n"
    + "<a href=\"https://www.tensorflow.org/guide/migrate\">Migration guide</a> for\n"
    + "more details.</p>\n<p>"
  const GroupTail: string := "</p>\n"
  const SectionHead: string := "<section class=\"expandable\">\n  <h4 class=\"showalways\">View aliases</h4>\n  <p>"
  const SectionTail: string := "</p>\n</section>\n"

  function MainAliasSection(content: string): string
  {
    MainHead + content + GroupTail
  }

  function CompatAliasSection(content: string): string
  {
    CompatHead + content + GroupTail
  }

  function CollapsableSection(content: string): string
  {
    SectionHead + content + SectionTail
  }

  /** `_build_collapsable_aliases`. */
  function CollapsableAliases(aliases: seq<string>): string
  {
    var main := MainAliases(aliases);
    var compat := CompatAliases(aliases);
    var content :=
      (if main != [] then MainAliasSection(JoinAliases(main)) else "")
      + (if compat != [] then CompatAliasSection(JoinAliases(compat)) else "");
    if content != "" then CollapsableSection(content) + "\n" else content
  }

  /**
   * Every alias without `__` goes to exactly one group, the compat group when
   * it mentions `compat.v`; aliases with `__` go nowhere; both groups keep the
   * order of the input.
   */
  lemma AliasPartition(aliases: seq<string>, more: seq<string>)
    ensures forall a | a in aliases && !Contains(a, "__") ::
      (a in MainAliases(aliases) <==> !Contains(a, "compat.v")) &&
      (a in CompatAliases(aliases) <==> Contains(a, "compat.v"))
    ensures forall a | a in aliases && Contains(a, "__") ::
      a !in MainAliases(aliases) && a !in CompatAliases(aliases)
    ensures MainAliases(aliases + more) == MainAliases(aliases) + MainAliases(more)
    ensures CompatAliases(aliases + more) == CompatAliases(aliases) + CompatAliases(more)
  {
    FilterMembers(aliases, IsMainAlias);
    FilterMembers(aliases, IsCompatAlias);
    FilterAppend(aliases, more, IsMainAlias);
    FilterAppend(aliases, more, IsCompatAlias);
  }

  /** The aliases section is empty exactly when every alias contains `__`. */
  lemma AliasesEmpty(aliases: seq<string>)
    ensures CollapsableAliases(aliases) == "" <==> forall a | a in aliases :: Contains(a, "__")
  {
    var main := MainAliases(aliases);
    var compat := CompatAliases(aliases);
    FilterMembers(aliases, IsMainAlias);
    FilterMembers(aliases, IsCompatAlias);
    if forall a | a in aliases :: Contains(a, "__") {
      FilterNone(aliases, IsMainAlias);
      FilterNone(aliases, IsCompatAlias);
    } else {
      var a :| a in aliases && !Contains(a, "__");
      assert a in main || a in compat;
      assert |CollapsableAliases(aliases)| > 0;
    }
  }

  // ---------------------------------------------------------------------------
  // _build_signature
  // ---------------------------------------------------------------------------

  /** `DECORATOR_WHITELIST`: the decorators a signature shows. */
  const DecoratorWhitelist: set<string> := {
    "classmethod",
    "staticmethod",
    "tf_contextlib.contextmanager",
    "contextlib.contextmanager",
    "tf.function",
    "types.method"
  }

  /** The fixed signature block of `tf.range`, whose first argument is optional. */
  const TfRangeSignature: string :=
    "\n```python\n"
    + "tf.range(limit, delta=1, dtype=None, name='range')\n"
    + "tf.range(start, limit, delta=1, dtype=None, name='range')\n"
    + "```\n"

  /** `['@' + dec for dec in decorators if dec in DECORATOR_WHITELIST]`. */
  function DecoratorLines(decorators: seq<string>): seq<string>
  {
    if decorators == [] then []
    else
      var dec := decorators[|decorators| - 1];
      DecoratorLines(decorators[..|decorators| - 1])
      + (if dec in DecoratorWhitelist then ["@" + dec] else [])
  }

  /** `str(signature)`, which is `None` when there is no signature. */
  function SignatureText(signature: Option<string>): string
  {
    if signature.Some? then signature.value else "None"
  }

  /**
   * `_build_signature(obj_info, obj_name)`, with the object's full name,
   * signature and decorators.
   */
  function BuildSignature(fullName: string, signature: Option<string>, decorators: seq<string>, objName: string): string
  {
    if fullName == "tf.range" then TfRangeSignature
    else
      Join("\n", ["```python"] + DecoratorLines(decorators) + [objName + SignatureText(signature), "```\n\n"])
  }

  /** The decorator lines follow the order of the decorator list. */
  lemma {:induction false} DecoratorLinesAppend(decorators: seq<string>, more: seq<string>)
    ensures DecoratorLines(decorators + more) == DecoratorLines(decorators) + DecoratorLines(more)
    decreases |more|
  {
    if more == [] {
      assert decorators + more == decorators;
    } else {
      var dm := decorators + more;
      assert dm[..|dm| - 1] == decorators + more[..|more| - 1];
      DecoratorLinesAppend(decorators, more[..|more| - 1]);
    }
  }

  /** The decorator lines are exactly the whitelisted decorators, each prefixed with `@`. */
  lemma {:induction false} DecoratorLinesMembers(decorators: seq<string>)
    ensures forall line :: line in DecoratorLines(decorators) <==>
      exists d | d in decorators :: d in DecoratorWhitelist && line == "@" + d
  {
    if decorators != [] {
      var init := decorators[..|decorators| - 1];
      var dec := decorators[|decorators| - 1];
      DecoratorLinesMembers(init);
      assert decorators == init + [dec];
      forall line | exists d | d in decorators :: d in DecoratorWhitelist && line == "@" + d
        ensures line in DecoratorLines(decorators)
      {
        var d :| d in decorators && d in DecoratorWhitelist && line == "@" + d;
        if d != dec {
          assert d in init;
        }
      }
    }
  }

  /**
   * Outside `tf.range`, the block is the code fence, the decorator lines, then
   * `obj_name` and the signature, and the closing fence; `tf.range` always
   * gets its fixed two-line block.
   */
  lemma SignatureShape(fullName: string, signature: Option<string>, decorators: seq<string>, objName: string)
    ensures fullName == "tf.range" ==>
      BuildSignature(fullName, signature, decorators, objName) == TfRangeSignature
    ensures fullName != "tf.range" ==>
      BuildSignature(fullName, signature, decorators, objName)
      == Join("\n", ["```python"] + DecoratorLines(decorators)) + "\n"
         + objName + SignatureText(signature) + "\n```\n\n"
  {
    if fullName != "tf.range" {
      var head := ["```python"] + DecoratorLines(decorators);
      var line := objName + SignatureText(signature);
      var all := head + [line, "```\n\n"];
      assert all[..|all| - 1] == head + [line];
      assert (head + [line])[..|head|] == head;
      assert Join("\n", head + [line]) == Join("\n", head) + "\n" + line;
      assert Join("\n", all) == Join("\n", head + [line]) + "\n" + "```\n\n";
    }
  }

  /** A decorator outside the whitelist never changes the signature block. */
  lemma SignatureIgnoresDecorator(fullName: string, signature: Option<string>, decorators: seq<string>, dec: string, objName: string)
    requires dec !in DecoratorWhitelist
    ensures BuildSignature(fullName, signature, decorators + [dec], objName)
         == BuildSignature(fullName, signature, decorators, objName)
  {
    var ds := decorators + [dec];
    assert ds[..|ds| - 1] == decorators && ds[|ds| - 1] == dec;
    assert DecoratorLines(ds) == DecoratorLines(decorators);
  }

  // ---------------------------------------------------------------------------
  // _build_compatibility
  // ---------------------------------------------------------------------------

  predicate IsAsciiLower(c: char)
  {
    'a' <= c <= 'z'
  }

  predicate IsAsciiUpper(c: char)
  {
    'A' <= c <= 'Z'
  }

  /**
   * `str.title` from a position whose previous character was (`afterCased`)
   * or was not a cased letter: a letter after a letter is lower-cased, any
   * other letter upper-cased.
   */
  function TitleFrom(s: string, afterCased: bool): (r: string)
    ensures |r| == |s|
    ensures forall i | 0 <= i < |s| :: IsAsciiLower(r[i]) || IsAsciiUpper(r[i]) <==> IsAsciiLower(s[i]) || IsAsciiUpper(s[i])
  {
    if s == [] then ""
    else
      var c := s[0];
      var t :=
        if IsAsciiLower(c) && !afterCased then (c as int - 32) as char
        else if IsAsciiUpper(c) && afterCased then (c as int + 32) as char
        else c;
      [t] + TitleFrom(s[1..], IsAsciiLower(c) || IsAsciiUpper(c))
  }

  /** `key.title()`. */
  function Title(s: string): string
  {
    TitleFrom(s, false)
  }

  /** Whether the character before position `i` of `s` is a letter; `afterCased` tells for the one before `s`. */
  predicate CasedBefore(s: string, i: nat, afterCased: bool)
    requires i <= |s|
  {
    if i == 0 then afterCased else IsAsciiLower(s[i - 1]) || IsAsciiUpper(s[i - 1])
  }

  /**
   * The case mapping of `str.title`, position by position: a lower-case
   * letter that follows no letter becomes upper-case, an upper-case letter
   * that follows a letter becomes lower-case, and every other character is kept.
   */
  lemma {:induction false} TitleFromSpec(s: string, afterCased: bool)
    ensures forall i | 0 <= i < |s| ::
      && (IsAsciiLower(s[i]) && !CasedBefore(s, i, afterCased) ==> TitleFrom(s, afterCased)[i] == (s[i] as int - 32) as char)
      && (IsAsciiUpper(s[i]) && CasedBefore(s, i, afterCased) ==> TitleFrom(s, afterCased)[i] == (s[i] as int + 32) as char)
      && (!(IsAsciiLower(s[i]) && !CasedBefore(s, i, afterCased)) && !(IsAsciiUpper(s[i]) && CasedBefore(s, i, afterCased))
          ==> TitleFrom(s, afterCased)[i] == s[i])
  {
    if s != [] {
      var next := IsAsciiLower(s[0]) || IsAsciiUpper(s[0]);
      TitleFromSpec(s[1..], next);
      forall i | 1 <= i < |s|
        ensures TitleFrom(s, afterCased)[i] == TitleFrom(s[1..], next)[i - 1]
        ensures CasedBefore(s, i, afterCased) == CasedBefore(s[1..], i - 1, next)
        ensures s[i] == s[1..][i - 1]
      {
      }
    }
  }

  /** Title-casing a title-cased string changes nothing. */
  lemma {:induction false} TitleFromIdempotent(s: string, afterCased: bool)
    ensures TitleFrom(TitleFrom(s, afterCased), afterCased) == TitleFrom(s, afterCased)
  {
    if s != [] {
      var r := TitleFrom(s, afterCased);
      assert r[1..] == TitleFrom(s[1..], IsAsciiLower(s[0]) || IsAsciiUpper(s[0]));
      TitleFromIdempotent(s[1..], IsAsciiLower(s[0]) || IsAsciiUpper(s[0]));
    }
  }

  /** One compatibility section. */
  function CompatSection(key: string, value: string): string
  {
    "\n\n#### " + Title(key) + " Compatibility\n" + value + "\n"
  }

  /** The sections for the given keys, in the given order. */
  function CompatSections(keys: seq<string>, compatibility: map<string, string>): seq<string>
    requires forall k | k in keys :: k in compatibility
  {
    seq(|keys|, i requires 0 <= i < |keys| => CompatSection(keys[i], compatibility[keys[i]]))
  }

  /** `_build_compatibility`. */
  ghost function BuildCompatibility(compatibility: map<string, string>): string
  {
    SortedKeysSpec(compatibility);
    Concat(CompatSections(SortedKeys(compatibility), compatibility))
  }

  /**
   * One section per key of the dictionary, each key once, in ascending key
   * order; no keys, no text.
   */
  lemma CompatibilitySpec(compatibility: map<string, string>)
    ensures var keys := SortedKeys(compatibility);
      && Sorted(keys)
      && |keys| == |compatibility|
      && (forall k :: k in keys <==> k in compatibility)
      && BuildCompatibility(compatibility) == Concat(CompatSections(keys, compatibility))
    ensures compatibility == map[] ==> BuildCompatibility(compatibility) == ""
  {
    SortedKeysSpec(compatibility);
  }

  // ---------------------------------------------------------------------------
  // _top_source_link and _small_source_link
  // ---------------------------------------------------------------------------

  const TableHead: string := "\n<table class=\"tfo-notebook-buttons tfo-api\" align=\"left\">\n"
  const TableTail: string := "</table>\n\n"
  const ButtonHead: string := "\n<td>\n  <a target=\"_blank\" href=\""
  const ButtonTail: string :=
    "\">\n    <img src=\"https://www.tensorflow.org/images/GitHub-Mark-32px.png\" />\n"
    + "    View source on GitHub\n  </a>\n</td>"
  const SmallHead: string := "<a target=\"_blank\" href=\""
  const SmallTail: string := "\">View source</a>\n\n"

  /** The table of buttons holding `content`. */
  function SourceTable(content: string): string
  {
    TableHead + content + TableTail
  }

  /** The GitHub button pointing at `url`. */
  function GithubButton(url: string): string
  {
    ButtonHead + url + ButtonTail
  }

  /** `_small_source_link`: a plain link, or nothing for an empty url. */
  function SmallSourceLink(location: Location): (r: string)
    ensures r == "" <==> location.url == ""
  {
    if location.url == "" then "" else SmallHead + location.url + SmallTail
  }

  /** `_top_source_link`. */
  function TopSourceLink(location: Option<Location>): string
  {
    if location.None? || location.value.url == "" then SourceTable("")
    else if !Contains(location.value.url, "github.com") then SourceTable("") + SmallSourceLink(location.value)
    else SourceTable(GithubButton(location.value.url))
  }

  /**
   * No location or an empty url gives the empty table; a url off GitHub gives
   * the empty table followed by a small link; a GitHub url gives the table
   * with the GitHub button. A non-empty url always appears in the result.
   */
  lemma TopSourceLinkCases(location: Option<Location>)
    ensures location.None? || location.value.url == "" ==> TopSourceLink(location) == SourceTable("")
    ensures location.Some? && location.value.url != "" && !Contains(location.value.url, "github.com") ==>
      TopSourceLink(location) == SourceTable("") + SmallSourceLink(location.value) &&
      SmallSourceLink(location.value) != ""
    ensures location.Some? && Contains(location.value.url, "github.com") ==>
      TopSourceLink(location) == SourceTable(GithubButton(location.value.url))
    ensures location.Some? && location.value.url != "" ==>
      Contains(TopSourceLink(location), location.value.url)
  {
    if location.Some? && location.value.url != "" {
      var url := location.value.url;
      if !Contains(url, "github.com") {
        ContainsItself(SourceTable("") + SmallHead, url, SmallTail);
        Regroup(SourceTable(""), SmallHead, url, SmallTail, "");
      } else {
        ContainsItself(TableHead + ButtonHead, url, ButtonTail + TableTail);
        Regroup(TableHead, ButtonHead, url, ButtonTail, TableTail);
      }
    }
  }

  // ---------------------------------------------------------------------------
  // Pages
  // ---------------------------------------------------------------------------

  /** The marker where the buttons and the diff are inserted later. */
  const InsertButtons: string := "<!-- Insert buttons and diff -->\n"

  /** The marker later replaced by the notebooks that use the symbol. */
  const UsedIn: string := "<!-- Placeholder for \"Used in\" -->\n"

  /** The heading of a class or function page. */
  function Heading(fullName: string): string
  {
    "# " + fullName + "\n\n"
  }

  /** The heading of a module page. */
  function ModuleHeading(fullName: string): string
  {
    "# Module: " + fullName + "\n\n"
  }

  /** What every page starts with: heading, marker, source link and brief docstring. */
  function PageTop(heading: string, definedIn: Option<Location>, doc: DocInfo): seq<string>
  {
    [heading, InsertButtons, TopSourceLink(definedIn), "\n\n", doc.brief + "\n\n"]
  }

  /** An optional piece of text as a list of zero or one parts. */
  function Optional(text: Option<string>): seq<string>
  {
    if text.Some? then [text.value] else []
  }

  /** A base class on a class page. */
  function BaseLink(base: LinkInfo): string
  {
    "[`" + base.shortName + "`](" + base.url + ")"
  }

  /** A child class on a class page. */
  function ChildClassLink(child: LinkInfo): string
  {
    "[`class " + child.shortName + "`](" + child.url + ")\n\n"
  }

  /** The kinds of entries listed on a module page. */
  datatype ItemKind = ModuleItem | ClassItem | FunctionItem

  /** The link of one entry of a module page. */
  function ItemLink(kind: ItemKind, item: LinkInfo): string
  {
    match kind
    case ModuleItem => "[`" + item.shortName + "`](" + item.url + ") module"
    case ClassItem => "[`class " + item.shortName + "`](" + item.url + ")"
    case FunctionItem => "[`" + item.shortName + "(...)`](" + item.url + ")"
  }

  /** One entry of a module page: the link, `: brief` when there is one, a blank line. */
  function ItemParts(kind: ItemKind, item: LinkInfo): seq<string>
  {
    [ItemLink(kind, item)] + (if item.brief != "" then [": " + item.brief] else []) + ["\n\n"]
  }

  /** The entries of one kind, in order. */
  function ItemsParts(kind: ItemKind, items: seq<LinkInfo>): seq<string>
  {
    if items == [] then []
    else ItemsParts(kind, items[..|items| - 1]) + ItemParts(kind, items[|items| - 1])
  }

  /** One line of `_other_members`. */
  function OtherMemberLine(member: OtherMember): string
  {
    var anchor := " <a id=\"" + member.shortName + "\"></a>\n";
    match member.singleton
    case Some(repr) => "* `" + member.shortName + " = " + repr + "`" + anchor
    case None => "* `" + member.shortName + "`" + anchor
  }

  /** `_other_members`. */
  function OtherMembersText(members: seq<OtherMember>): string
  {
    Concat(seq(|members|, i requires 0 <= i < |members| => OtherMemberLine(members[i])))
  }

  /** `_build_method_section(method_info, heading_level)`. */
  ghost function MethodSection(info: MethodInfo, headingLevel: nat): string
  {
    var level := DecimalString(headingLevel);
    Concat(
      ["<h" + level + " id=\"" + info.shortName + "\"><code>" + info.shortName + "</code></h" + level + ">\n\n"]
      + (if info.definedIn.Some? then [SmallSourceLink(info.definedIn.value)] else [])
      + (if info.signature.Some?
         then [BuildSignature(info.fullName, info.signature, info.decorators, info.shortName)]
         else [])
      + [info.doc.brief + "\n"]
      + BlockStrs(info.doc.parts)
      + [BuildCompatibility(info.doc.compatibility), "\n\n"])
  }

  /** The method sections of a class page, for the given names in order. */
  ghost function MethodSections(names: seq<string>, methods: map<string, MethodInfo>): seq<string>
    requires forall k | k in names :: k in methods
  {
    seq(|names|, i requires 0 <= i < |names| => MethodSection(methods[names[i]], 3))
  }

  /** `_build_function_page`: both of its returns join the same parts. */
  ghost function FunctionPageParts(p: PageInfo): seq<string>
    requires p.FunctionPage?
  {
    PageTop(Heading(p.fullName), p.definedIn, p.doc)
    + [CollapsableAliases(p.aliases)]
    + (if p.signature.Some? then [BuildSignature(p.fullName, p.signature, p.decorators, p.fullName), "\n\n"] else [])
    + [UsedIn]
    + BlockStrs(p.doc.parts)
    + [BuildCompatibility(p.doc.compatibility)]
    + Optional(p.custom)
  }

  /** The part of `_build_class_page` before the custom-content check. */
  ghost function ClassPageHead(p: PageInfo): seq<string>
    requires p.ClassPage?
  {
    var ctor := Constructor(p.methods);
    PageTop(Heading(p.fullName), p.definedIn, p.doc)
    + (if p.bases != [] then
         ["Inherits From: ", Join(", ", seq(|p.bases|, i requires 0 <= i < |p.bases| => BaseLink(p.bases[i]))), "\n\n"]
       else [])
    + [CollapsableAliases(p.aliases)]
    + (if ctor.Some? then
         [BuildSignature(ctor.value.fullName, ctor.value.signature, ctor.value.decorators, p.fullName), "\n\n"]
       else [])
    + [UsedIn]
    + BlockStrs(MergedBlocks(p.doc.parts, ctor))
    + [BuildCompatibility(p.doc.compatibility), "\n\n"]
  }

  /** The member listings of a class page: child classes, methods, class variables. */
  ghost function ClassPageMembers(p: PageInfo): seq<string>
    requires p.ClassPage?
  {
    var methods := OtherMethods(p.methods);
    SortedKeysSpec(methods);
    (if p.classes != [] then
       ["## Child Classes\n"] + Sort(seq(|p.classes|, i requires 0 <= i < |p.classes| => ChildClassLink(p.classes[i])))
     else [])
    + (if methods != map[] then ["## Methods\n\n"] + MethodSections(SortedKeys(methods), methods) + ["\n\n"] else [])
    + (if p.otherMembers != [] then ["## Class Variables\n\n", OtherMembersText(p.otherMembers)] else [])
  }

  /** `_build_class_page`: custom content replaces the member listings. */
  ghost function ClassPageParts(p: PageInfo): seq<string>
    requires p.ClassPage?
  {
    ClassPageHead(p) + (if p.custom.Some? then [p.custom.value] else ClassPageMembers(p))
  }

  /** The part of `_build_module_page` before the custom-content check. */
  ghost function ModulePageHead(p: PageInfo): seq<string>
    requires p.ModulePage?
  {
    PageTop(ModuleHeading(p.fullName), p.definedIn, p.doc)
    + [CollapsableAliases(p.aliases)]
    + BlockStrs(p.doc.parts)
    + [BuildCompatibility(p.doc.compatibility), "\n\n"]
  }

  /** The member listings of a module page: modules, classes, functions, other members. */
  function ModulePageMembers(p: PageInfo): seq<string>
    requires p.ModulePage?
  {
    (if p.modules != [] then ["## Modules\n\n"] + ItemsParts(ModuleItem, p.modules) else [])
    + (if p.classes != [] then ["## Classes\n\n"] + ItemsParts(ClassItem, p.classes) else [])
    + (if p.functions != [] then ["## Functions\n\n"] + ItemsParts(FunctionItem, p.functions) else [])
    + (if p.otherMembers != [] then ["## Other Members\n\n", OtherMembersText(p.otherMembers)] else [])
  }

  /** `_build_module_page`: custom content replaces the member listings. */
  ghost function ModulePageParts(p: PageInfo): seq<string>
    requires p.ModulePage?
  {
    ModulePageHead(p) + (if p.custom.Some? then [p.custom.value] else ModulePageMembers(p))
  }

  /** `build_md_page`: class, function and module pages, in that order; anything else is a ValueError. */
  ghost function BuildMdPage(p: PageInfo): Result<string, string>
  {
    match p
    case ClassPage(_, _, _, _, _, _, _, _, _) => Ok(Concat(ClassPageParts(p)))
    case FunctionPage(_, _, _, _, _, _, _) => Ok(Concat(FunctionPageParts(p)))
    case ModulePage(_, _, _, _, _, _, _, _, _) => Ok(Concat(ModulePageParts(p)))
    case OtherPage(typeName) => Err("Unknown Page Info Type: <class '" + typeName + "'>")
  }

  /** The text of the parts, starting with the first part's text. */
  lemma ConcatStartsWith(parts: seq<string>)
    requires parts != []
    ensures StartsWith(Concat(parts), parts[0])
  {
    assert parts == [parts[0]] + parts[1..];
    ConcatAppend([parts[0]], parts[1..]);
    ConcatSingle(parts[0]);
  }

  /**
   * Only the three page kinds give a page, and each page opens with its
   * heading: `# <full name>` for classes and functions, `# Module: <full name>`
   * for modules; every other object is rejected with its type named.
   */
  lemma BuildMdPageSpec(p: PageInfo)
    ensures BuildMdPage(p).Err? <==> p.OtherPage?
    ensures p.OtherPage? ==> BuildMdPage(p).error == "Unknown Page Info Type: <class '" + p.typeName + "'>"
    ensures p.ClassPage? || p.FunctionPage? ==> StartsWith(BuildMdPage(p).value, Heading(p.fullName))
    ensures p.ModulePage? ==> StartsWith(BuildMdPage(p).value, ModuleHeading(p.fullName))
  {
    match p
    case ClassPage(_, _, _, _, _, _, _, _, _) => ConcatStartsWith(ClassPageParts(p));
    case FunctionPage(_, _, _, _, _, _, _) => ConcatStartsWith(FunctionPageParts(p));
    case ModulePage(_, _, _, _, _, _, _, _, _) => ConcatStartsWith(ModulePageParts(p));
    case OtherPage(_) =>
  }

  /** With custom page content, every page ends with that content. */
  lemma CustomContentEndsPage(p: PageInfo)
    requires !p.OtherPage? && p.custom.Some?
    ensures var page := BuildMdPage(p).value;
      |p.custom.value| <= |page| && page[|page| - |p.custom.value|..] == p.custom.value
  {
    var parts :=
      match p
      case ClassPage(_, _, _, _, _, _, _, _, _) => ClassPageParts(p)
      case FunctionPage(_, _, _, _, _, _, _) => FunctionPageParts(p)
      case ModulePage(_, _, _, _, _, _, _, _, _) => ModulePageParts(p);
    assert parts[|parts| - 1] == p.custom.value;
    assert Concat(parts) == Concat(parts[..|parts| - 1]) + p.custom.value;
  }

  /**
   * A class page with custom content does not list child classes or class
   * variables: two such pages that differ only there are the same page.
   */
  lemma ClassCustomHidesMembers(p: PageInfo, q: PageInfo)
    requires p.ClassPage? && q.ClassPage? && p.custom.Some? && q.custom == p.custom
    requires q.fullName == p.fullName && q.definedIn == p.definedIn && q.doc == p.doc
    requires q.aliases == p.aliases && q.bases == p.bases && q.methods == p.methods
    ensures BuildMdPage(q) == BuildMdPage(p)
  {
    assert ClassPageHead(q) == ClassPageHead(p);
  }

  /**
   * A module page with custom content does not list its modules, classes,
   * functions or other members: two such pages that differ only there are the
   * same page.
   */
  lemma ModuleCustomHidesMembers(p: PageInfo, q: PageInfo)
    requires p.ModulePage? && q.ModulePage? && p.custom.Some? && q.custom == p.custom
    requires q.fullName == p.fullName && q.definedIn == p.definedIn && q.doc == p.doc
    requires q.aliases == p.aliases
    ensures BuildMdPage(q) == BuildMdPage(p)
  {
    assert ModulePageHead(q) == ModulePageHead(p);
  }

  /** Regrouping a concatenation of five strings around the middle one. */
  lemma Regroup(a: string, b: string, c: string, d: string, e: string)
    ensures a + (b + c + d) + e == (a + b) + c + (d + e)
    ensures a + (b + c + d) == (a + b) + c + d
  {
  }
}
