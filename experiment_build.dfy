/**
 * The build orchestrator of the Gosu lab (editor/shipit/ExperimentBuild.java).
 * Between builds it keeps the errant types of the last build, so that an
 * incremental build retries them, and an (empty) list of the classes compiled
 * without errors, which a build fills for the debugger's hot swap and clears
 * when it ends.
 */
module ExperimentBuilds {
  import opened Common
  import opened Strings
  import opened BuildModel

  /** The sources of one build: types for an incremental pass, file trees for a full one. */
  datatype Sources = Types(types: set<TypeName>) | Trees(trees: set<FileTree>)

  /** What make decided to compile. */
  datatype Plan = FullRebuild(root: FileTree) | Incremental(types: set<TypeName>, copies: seq<CopyOp>)

  class ExperimentBuild {
    /** _errantTypes: the types that had errors in the last build. */
    var errantTypes: set<TypeName>
    /** _compiledClassesNoErrors: the clean results of the build in progress. */
    var compiledClassesNoErrors: seq<CompiledClass>
    /** How many times the file change finder has been reset. */
    var changeFinderResets: nat

    /** Between builds the clean list is empty. */
    ghost predicate Valid()
      reads this
    {
      compiledClassesNoErrors == []
    }

    constructor ()
      ensures Valid() && errantTypes == {} && changeFinderResets == 0
    {
      errantTypes := {};
      compiledClassesNoErrors := [];
      changeFinderResets := 0;
    }

    // ------------------------------------------------------- consumer chains

    /** A result handed to a consumer: the chain's lambdas run outermost first, then the caller's consumer answers. */
    method Accept(consumer: Consumer, base: CompiledClass -> bool, cc: CompiledClass) returns (b: bool)
      modifies this
      ensures b == base(cc)
      ensures errantTypes == old(errantTypes) + ErrantRecorded(consumer, cc)
      ensures compiledClassesNoErrors == old(compiledClassesNoErrors) + CleanRecorded(consumer, cc)
      ensures changeFinderResets == old(changeFinderResets)
      decreases consumer, 0
    {
      match consumer
      case Base => b := base(cc);
      case Debugging(inner) => b := ChainForDebugging(inner, base, cc);
      case NotDebugging(inner) => b := ChainForNotDebugging(inner, base, cc);
    }

    /**
     * The lambda of chainForDebugging: a clean result joins the clean list, an
     * errant one adds its type to the errant set; then the wrapped consumer's
     * answer is returned unchanged.
     */
    method ChainForDebugging(inner: Consumer, base: CompiledClass -> bool, cc: CompiledClass) returns (b: bool)
      modifies this
      ensures b == base(cc)
      ensures errantTypes == old(errantTypes) + (if cc.errant then {cc.typ} else {}) + ErrantRecorded(inner, cc)
      ensures compiledClassesNoErrors == old(compiledClassesNoErrors) + (if !cc.errant then [cc] else []) + CleanRecorded(inner, cc)
      ensures changeFinderResets == old(changeFinderResets)
      decreases inner, 1
    {
      if !cc.errant {
        compiledClassesNoErrors := compiledClassesNoErrors + [cc];
      } else {
        errantTypes := errantTypes + {cc.typ};
      }
      b := Accept(inner, base, cc);
    }

    /**
     * The lambda of chainForNotDebugging: an errant result adds its type to the
     * errant set, a clean one is not collected; then the wrapped consumer's
     * answer is returned unchanged.
     */
    method ChainForNotDebugging(inner: Consumer, base: CompiledClass -> bool, cc: CompiledClass) returns (b: bool)
      modifies this
      ensures b == base(cc)
      ensures errantTypes == old(errantTypes) + (if cc.errant then {cc.typ} else {}) + ErrantRecorded(inner, cc)
      ensures compiledClassesNoErrors == old(compiledClassesNoErrors) + CleanRecorded(inner, cc)
      ensures changeFinderResets == old(changeFinderResets)
      decreases inner, 1
    {
      if cc.errant {
        errantTypes := errantTypes + {cc.typ};
      }
      b := Accept(inner, base, cc);
    }

    /** The results one compiler call hands to the consumer, one after the other. */
    method Deliver(consumer: Consumer, base: CompiledClass -> bool, results: seq<CompiledClass>)
      modifies this
      ensures errantTypes == old(errantTypes) + ErrantOf(consumer, results)
      ensures compiledClassesNoErrors == old(compiledClassesNoErrors) + CleanOf(consumer, results)
      ensures changeFinderResets == old(changeFinderResets)
    {
      for i := 0 to |results|
        invariant errantTypes == old(errantTypes) + ErrantOf(consumer, results[..i])
        invariant compiledClassesNoErrors == old(compiledClassesNoErrors) + CleanOf(consumer, results[..i])
        invariant changeFinderResets == old(changeFinderResets)
      {
        StreamStep(consumer, results, i);
        var _ := Accept(consumer, base, results[i]);
        Assoc(old(compiledClassesNoErrors), CleanOf(consumer, results[..i]), CleanRecorded(consumer, results[i]));
      }
      assert results[..|results|] == results;
    }

    // ------------------------------------------------------------- passes

    /** redefineClassInDebugger: the whole clean list goes to an attached debugger, if it is not empty. */
    method RedefineClassInDebugger(debuggerAttached: bool) returns (redefined: Option<seq<CompiledClass>>)
      ensures redefined.Some? <==> debuggerAttached && compiledClassesNoErrors != []
      ensures redefined.Some? ==> redefined.value == compiledClassesNoErrors
    {
      if debuggerAttached && compiledClassesNoErrors != [] {
        redefined := Some(compiledClassesNoErrors);
      } else {
        redefined := None;
      }
    }

    /**
     * The loop both passes share: each unit is compiled once, in the order
     * given, its results routed through the consumer, and the pass's flag,
     * which starts at `start`, is OR-ed with the unit's answer.
     */
    method CompileEach<X>(units: seq<X>, compile: X -> Compilation, consumer: Consumer, base: CompiledClass -> bool, start: bool)
      returns (bRes: bool)
      modifies this
      ensures bRes == (start || AnyOk(units, compile))
      ensures errantTypes == old(errantTypes) + ErrantOf(consumer, AllResults(units, compile))
      ensures compiledClassesNoErrors == old(compiledClassesNoErrors) + CleanOf(consumer, AllResults(units, compile))
      ensures changeFinderResets == old(changeFinderResets)
    {
      bRes := start;
      for i := 0 to |units|
        invariant bRes == (start || AnyOk(units[..i], compile))
        invariant errantTypes == old(errantTypes) + ErrantOf(consumer, AllResults(units[..i], compile))
        invariant compiledClassesNoErrors == old(compiledClassesNoErrors) + CleanOf(consumer, AllResults(units[..i], compile))
        invariant changeFinderResets == old(changeFinderResets)
      {
        var c := compile(units[i]);
        PassStep(units, i, compile, consumer);
        Deliver(consumer, base, c.results);
        Assoc(old(compiledClassesNoErrors), CleanOf(consumer, AllResults(units[..i], compile)), CleanOf(consumer, c.results));
        bRes := bRes || c.ok;
      }
      assert units[..|units|] == units;
    }

    /**
     * incrementalCompileSources: the progress length is the number of types and
     * each type is one tick, named after it; the flag starts true and is only
     * OR-ed into, so the pass reports true.  Then the debugger gets the clean
     * list.
     */
    method IncrementalCompileSources(sources: set<TypeName>, consumer: Consumer, base: CompiledClass -> bool,
                                     compiler: Compiler, debuggerAttached: bool)
      returns (bRes: bool, length: nat, ticks: seq<TypeName>, redefined: Option<seq<CompiledClass>>)
      modifies this
      ensures bRes
      ensures length == |sources| && Distinct(ticks) && Elems(ticks) == sources
      ensures errantTypes == old(errantTypes) + ErrantOf(consumer, AllResults(ticks, compiler.compileType))
      ensures compiledClassesNoErrors == old(compiledClassesNoErrors) + CleanOf(consumer, AllResults(ticks, compiler.compileType))
      ensures redefined == if debuggerAttached && compiledClassesNoErrors != [] then Some(compiledClassesNoErrors) else None
      ensures changeFinderResets == old(changeFinderResets)
    {
      ticks := Enumerate(sources);
      length := |sources|;
      bRes := CompileEach(ticks, compiler.compileType, consumer, base, true);
      redefined := RedefineClassInDebugger(debuggerAttached);
    }

    /**
     * fullCompileSources: the progress length is the trees' file counts added
     * up; the flag starts false and is the OR of the trees' answers.  Then the
     * debugger gets the clean list.
     */
    method FullCompileSources(sources: set<FileTree>, consumer: Consumer, base: CompiledClass -> bool,
                              compiler: Compiler, debuggerAttached: bool)
      returns (bRes: bool, length: nat, ghost order: seq<FileTree>, redefined: Option<seq<CompiledClass>>)
      modifies this
      ensures Distinct(order) && Elems(order) == sources
      ensures length == TotalFiles(order)
      ensures bRes == AnyOk(order, compiler.compileTree)
      ensures errantTypes == old(errantTypes) + ErrantOf(consumer, AllResults(order, compiler.compileTree))
      ensures compiledClassesNoErrors == old(compiledClassesNoErrors) + CleanOf(consumer, AllResults(order, compiler.compileTree))
      ensures redefined == if debuggerAttached && compiledClassesNoErrors != [] then Some(compiledClassesNoErrors) else None
      ensures changeFinderResets == old(changeFinderResets)
    {
      var trees := Enumerate(sources);
      order := trees;
      length := 0;
      for i := 0 to |trees|
        invariant length == TotalFiles(trees[..i])
      {
        assert trees[..i + 1][..i] == trees[..i];
        length := length + trees[i].totalFiles;
      }
      assert trees[..|trees|] == trees;
      bRes := CompileEach(trees, compiler.compileTree, consumer, base, false);
      redefined := RedefineClassInDebugger(debuggerAttached);
    }

    /** The progress job build starts: the incremental pass over types, or the full pass over file trees. */
    method RunPass(consumer: Consumer, base: CompiledClass -> bool, sources: Sources, compiler: Compiler, debuggerAttached: bool)
      returns (ok: bool, length: nat, redefined: Option<seq<CompiledClass>>, ghost results: seq<CompiledClass>,
               ghost order: seq<FileTree>, ghost ticks: seq<TypeName>)
      modifies this
      ensures errantTypes == old(errantTypes) + ErrantOf(consumer, results)
      ensures compiledClassesNoErrors == old(compiledClassesNoErrors) + CleanOf(consumer, results)
      ensures redefined == if debuggerAttached && compiledClassesNoErrors != [] then Some(compiledClassesNoErrors) else None
      ensures changeFinderResets == old(changeFinderResets)
      ensures sources.Types? ==> ok && length == |sources.types| && Distinct(ticks) && Elems(ticks) == sources.types
      ensures sources.Types? ==> results == AllResults(ticks, compiler.compileType)
      ensures sources.Trees? ==> Distinct(order) && Elems(order) == sources.trees && length == TotalFiles(order)
      ensures sources.Trees? ==> ok == AnyOk(order, compiler.compileTree) && results == AllResults(order, compiler.compileTree)
    {
      order, ticks := [], [];
      match sources {
        case Types(types) =>
          var t;
          ok, length, t, redefined := IncrementalCompileSources(types, consumer, base, compiler, debuggerAttached);
          ticks := t;
          results := AllResults(t, compiler.compileType);
        case Trees(trees) =>
          ok, length, order, redefined := FullCompileSources(trees, consumer, base, compiler, debuggerAttached);
          results := AllResults(order, compiler.compileTree);
      }
    }

    /**
     * build: empties the errant set, runs the pass, puts the summary at the top
     * of the messages and returns the pass's flag; when the pass completes, the
     * change finder is reset and the clean list emptied.
     */
    method Build(consumer: Consumer, base: CompiledClass -> bool, sources: Sources, compiler: Compiler, debuggerAttached: bool)
      returns (ok: bool, done: MessageTree, length: nat, redefined: Option<seq<CompiledClass>>, ghost results: seq<CompiledClass>, ghost order: seq<FileTree>, ghost ticks: seq<TypeName>)
      requires Valid()
      modifies this
      ensures Valid()
      ensures changeFinderResets == old(changeFinderResets) + 1
      ensures errantTypes == ErrantOf(consumer, results)
      ensures redefined == if debuggerAttached && CleanOf(consumer, results) != [] then Some(CleanOf(consumer, results)) else None
      ensures done == Summary(ok, compiler.errors, compiler.warnings)
      ensures sources.Types? ==> ok && length == |sources.types| && Distinct(ticks) && Elems(ticks) == sources.types
      ensures sources.Types? ==> results == AllResults(ticks, compiler.compileType)
      ensures sources.Trees? ==> Distinct(order) && Elems(order) == sources.trees && length == TotalFiles(order)
      ensures sources.Trees? ==> ok == AnyOk(order, compiler.compileTree) && results == AllResults(order, compiler.compileTree)
    {
      errantTypes := {};
      ok, length, redefined, results, order, ticks := RunPass(consumer, base, sources, compiler, debuggerAttached);
      assert errantTypes == {} + ErrantOf(consumer, results) == ErrantOf(consumer, results);
      assert compiledClassesNoErrors == [] + CleanOf(consumer, results) == CleanOf(consumer, results);
      done := Summary(ok, compiler.errors, compiler.warnings);
      changeFinderResets := changeFinderResets + 1;
      compiledClassesNoErrors := [];
    }

    // ------------------------------------------------- make and rebuild

    /**
     * findTypesToCompile: the usage-search results of every changed typed file,
     * plus the errant types of the previous build; a changed untyped file is
     * copied to the output directory instead, when there is one.
     */
    method FindTypesToCompile(changed: seq<FileTree>, usages: TypeName -> set<TypeName>, outputPath: Option<string>, sep: char)
      returns (types: set<TypeName>, copies: seq<CopyOp>)
      ensures types == UsageTypes(changed, usages) + errantTypes
      ensures copies == CopiesFor(changed, outputPath, sep)
    {
      types := {};
      copies := [];
      for i := 0 to |changed|
        invariant types == UsageTypes(changed[..i], usages)
        invariant copies == CopiesFor(changed[..i], outputPath, sep)
      {
        var ft := changed[i];
        assert changed[..i + 1][..i] == changed[..i];
        if ft.typ.Some? {
          types := types + usages(ft.typ.value);
        } else if ft.isFile && outputPath.Some? {
          copies := copies + [CopyOp(ft, CopyTarget(outputPath.value, sep, ft.parentFqn, ft.name))];
        }
      }
      assert changed[..|changed|] == changed;
      types := types + errantTypes;
    }

    /**
     * rebuild: the whole tree from the root is compiled, through one more
     * not-debugging lambda around the consumer it is given.
     */
    method Rebuild(consumer: Consumer, base: CompiledClass -> bool, root: FileTree, compiler: Compiler, debuggerAttached: bool)
      returns (ok: bool, done: MessageTree, length: nat, redefined: Option<seq<CompiledClass>>, ghost results: seq<CompiledClass>)
      requires Valid()
      modifies this
      ensures Valid()
      ensures changeFinderResets == old(changeFinderResets) + 1
      ensures results == compiler.compileTree(root).results
      ensures ok == compiler.compileTree(root).ok && length == root.totalFiles
      ensures errantTypes == ErrantTypes(results)
      ensures redefined == if debuggerAttached && CleanOf(consumer, results) != [] then Some(CleanOf(consumer, results)) else None
      ensures done == Summary(ok, compiler.errors, compiler.warnings)
    {
      ghost var order, ticks;
      ok, done, length, redefined, results, order, ticks := Build(NotDebugging(consumer), base, Trees({root}), compiler, debuggerAttached);
      SingleTree(order, root, compiler.compileTree);
      ErrantOfChain(NotDebugging(consumer), results);
      CleanOfNotDebugging(consumer, results);
    }

    /**
     * make: wraps the caller's consumer for the debugger's presence, then
     * rebuilds everything when the change finder says so, and otherwise
     * compiles what findTypesToCompile gives.  `changed` and `refreshAll` are
     * what the change finder reports, `usages` what the usage search finds.
     */
    method Make(base: CompiledClass -> bool, debuggerAttached: bool, refreshAll: bool, changed: seq<FileTree>,
                usages: TypeName -> set<TypeName>, outputPath: Option<string>, sep: char, root: FileTree, compiler: Compiler)
      returns (ok: bool, done: MessageTree, plan: Plan, length: nat, redefined: Option<seq<CompiledClass>>,
               ghost results: seq<CompiledClass>, ghost ticks: seq<TypeName>)
      requires Valid()
      modifies this
      ensures Valid()
      ensures changeFinderResets == old(changeFinderResets) + 1
      ensures plan.FullRebuild? <==> refreshAll
      ensures plan.FullRebuild? ==> plan.root == root && results == compiler.compileTree(root).results
      ensures plan.FullRebuild? ==> ok == compiler.compileTree(root).ok && length == root.totalFiles
      ensures plan.Incremental? ==> plan.types == UsageTypes(changed, usages) + old(errantTypes)
      ensures plan.Incremental? ==> plan.copies == CopiesFor(changed, outputPath, sep)
      ensures plan.Incremental? ==> ok && length == |plan.types| && Distinct(ticks) && Elems(ticks) == plan.types
      ensures plan.Incremental? ==> results == AllResults(ticks, compiler.compileType)
      ensures errantTypes == ErrantTypes(results)
      ensures redefined == if debuggerAttached && NonErrant(results) != [] then Some(NonErrant(results)) else None
      ensures done == Summary(ok, compiler.errors, compiler.warnings)
    {
      var consumer := if debuggerAttached then Debugging(Base) else NotDebugging(Base);
      if refreshAll {
        ticks := [];
        ok, done, length, redefined, results := Rebuild(consumer, base, root, compiler, debuggerAttached);
        plan := FullRebuild(root);
        CleanOfChain(consumer, results);
      } else {
        var types, copies := FindTypesToCompile(changed, usages, outputPath, sep);
        plan := Incremental(types, copies);
        ghost var order;
        ok, done, length, redefined, results, order, ticks := Build(consumer, base, Types(types), compiler, debuggerAttached);
        ErrantOfChain(consumer, results);
        CleanOfChain(consumer, results);
      }
    }
  }

  /** One more unit of a pass: its results follow the earlier ones', and so do their records. */
  lemma PassStep<X>(units: seq<X>, i: int, compile: X -> Compilation, consumer: Consumer)
    requires 0 <= i < |units|
    ensures AllResults(units[..i + 1], compile) == AllResults(units[..i], compile) + compile(units[i]).results
    ensures ErrantOf(consumer, AllResults(units[..i + 1], compile)) ==
      ErrantOf(consumer, AllResults(units[..i], compile)) + ErrantOf(consumer, compile(units[i]).results)
    ensures CleanOf(consumer, AllResults(units[..i + 1], compile)) ==
      CleanOf(consumer, AllResults(units[..i], compile)) + CleanOf(consumer, compile(units[i]).results)
    ensures AnyOk(units[..i + 1], compile) == (AnyOk(units[..i], compile) || compile(units[i]).ok)
  {
    ResultsStep(units, i, compile);
    var earlier, latest := AllResults(units[..i], compile), compile(units[i]).results;
    ErrantOfAppend(consumer, earlier, latest);
    CleanOfAppend(consumer, earlier, latest);
  }

  /**
   * The results and the flag of a pass over one more unit: the part of
   * PassStep that does not involve a consumer, kept apart so that callers
   * needing only this do not pay for the records.
   */
  lemma ResultsStep<X>(units: seq<X>, i: int, compile: X -> Compilation)
    requires 0 <= i < |units|
    ensures AllResults(units[..i + 1], compile) == AllResults(units[..i], compile) + compile(units[i]).results
    ensures AnyOk(units[..i + 1], compile) == (AnyOk(units[..i], compile) || compile(units[i]).ok)
  {
    assert units[..i + 1][..i] == units[..i];
    assert units[..i + 1][i] == units[i];
  }

  /** The records of a stream's first i + 1 results: those of its first i, then those of result i. */
  lemma StreamStep(c: Consumer, results: seq<CompiledClass>, i: int)
    requires 0 <= i < |results|
    ensures ErrantOf(c, results[..i + 1]) == ErrantOf(c, results[..i]) + ErrantRecorded(c, results[i])
    ensures CleanOf(c, results[..i + 1]) == CleanOf(c, results[..i]) + CleanRecorded(c, results[i])
  {
    assert results[..i + 1][..i] == results[..i];
  }

  /**
   * One more result: its records follow those of the stream before it.  The
   * same fact as StreamStep, stated on `s + [x]` instead of a prefix, for the
   * proofs that build a stream at its end; converting one form into the other
   * at each use costs the solver more than the second lemma.
   */
  lemma StreamSnoc(c: Consumer, s: seq<CompiledClass>, x: CompiledClass)
    ensures ErrantOf(c, s + [x]) == ErrantOf(c, s) + ErrantRecorded(c, x)
    ensures CleanOf(c, s + [x]) == CleanOf(c, s) + CleanRecorded(c, x)
  {
    assert (s + [x])[..|s|] == s;
  }

  /** Recording two streams one after the other records each. */
  lemma {:induction false} ErrantOfAppend(c: Consumer, xs: seq<CompiledClass>, ys: seq<CompiledClass>)
    ensures ErrantOf(c, xs + ys) == ErrantOf(c, xs) + ErrantOf(c, ys)
    decreases |ys|
  {
    if ys == [] {
      assert xs + ys == xs;
    } else {
      var init, x := ys[..|ys| - 1], ys[|ys| - 1];
      SplitLast(ys);
      Assoc(xs, init, [x]);
      StreamSnoc(c, xs + init, x);
      StreamSnoc(c, init, x);
      ErrantOfAppend(c, xs, init);
    }
  }

  lemma {:induction false} CleanOfAppend(c: Consumer, xs: seq<CompiledClass>, ys: seq<CompiledClass>)
    ensures CleanOf(c, xs + ys) == CleanOf(c, xs) + CleanOf(c, ys)
    decreases |ys|
  {
    if ys == [] {
      assert xs + ys == xs;
    } else {
      var init, x := ys[..|ys| - 1], ys[|ys| - 1];
      SplitLast(ys);
      Assoc(xs, init, [x]);
      StreamSnoc(c, xs + init, x);
      StreamSnoc(c, init, x);
      CleanOfAppend(c, xs, init);
      Assoc(CleanOf(c, xs), CleanOf(c, init), CleanRecorded(c, x));
    }
  }

  /** A not-debugging lambda collects no clean classes: wrapping a consumer in one leaves the clean list as it was. */
  lemma {:induction false} CleanOfNotDebugging(c: Consumer, results: seq<CompiledClass>)
    ensures CleanOf(NotDebugging(c), results) == CleanOf(c, results)
    decreases |results|
  {
    if results != [] {
      CleanOfNotDebugging(c, results[..|results| - 1]);
    }
  }

  /** Enumerating a one-tree set gives that tree alone. */
  lemma SingleTree(order: seq<FileTree>, root: FileTree, compile: FileTree -> Compilation)
    requires Distinct(order) && Elems(order) == {root}
    ensures order == [root]
    ensures AllResults(order, compile) == compile(root).results
    ensures AnyOk(order, compile) == compile(root).ok
    ensures TotalFiles(order) == root.totalFiles
  {
    DistinctCard(order);
    assert order[0] in Elems(order);
    assert order[..0] == [];
  }
}
