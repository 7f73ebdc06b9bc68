/**
 * Values the incremental build of the Gosu lab works with
 * (editor/shipit/ExperimentBuild.java), and the functions that say what a
 * build computes from them.  The compiler, the usage searcher, the file
 * change finder and the debugger are not modelled: what they report is
 * given as data.
 */
module BuildModel {
  import opened Common
  import opened Strings

  /** A Gosu type, identified by its name. */
  type TypeName = string

  /** A compile result as the consumers see it: its type and whether it has errors (CompiledClass). */
  datatype CompiledClass = CompiledClass(typ: TypeName, errant: bool)

  /**
   * A node of the experiment's file tree (FileTree): its type, if it is a
   * typed source; whether it is a file; the fully qualified name of its parent
   * directory, which may be null (None); its file name; and the number of
   * files below it.
   */
  datatype FileTree = FileTree(typ: Option<TypeName>, isFile: bool, parentFqn: Option<string>, name: string, totalFiles: nat)

  /**
   * One call into the compiler: the results it handed to the consumer, in
   * order, and the value it returned.
   */
  datatype Compilation = Compilation(results: seq<CompiledClass>, ok: bool)

  /**
   * The compiler of one build: what compiling a type (Compiler.compile) and a
   * tree (Compiler.compileTree) produce, and its error and warning counts
   * once the pass is over.
   */
  datatype Compiler = Compiler(
    compileType: TypeName -> Compilation,
    compileTree: FileTree -> Compilation,
    errors: nat,
    warnings: nat)

  /**
   * A compile consumer: the caller's own consumer, wrapped by the lambdas of
   * chainForDebugging and chainForNotDebugging, outermost first.
   */
  datatype Consumer = Base | Debugging(inner: Consumer) | NotDebugging(inner: Consumer)

  /** How many chainForDebugging lambdas a consumer goes through. */
  function DebugLayers(c: Consumer): nat
  {
    match c
    case Base => 0
    case Debugging(inner) => 1 + DebugLayers(inner)
    case NotDebugging(inner) => DebugLayers(inner)
  }

  // ------------------------------------------------- what the chains record

  /** The types one result adds to the errant set on its way through `c`. */
  function ErrantRecorded(c: Consumer, cc: CompiledClass): set<TypeName>
  {
    match c
    case Base => {}
    case Debugging(inner) => (if cc.errant then {cc.typ} else {}) + ErrantRecorded(inner, cc)
    case NotDebugging(inner) => (if cc.errant then {cc.typ} else {}) + ErrantRecorded(inner, cc)
  }

  /** What one result appends to the clean list on its way through `c` (outer lambdas run first). */
  function CleanRecorded(c: Consumer, cc: CompiledClass): seq<CompiledClass>
  {
    match c
    case Base => []
    case Debugging(inner) => (if !cc.errant then [cc] else []) + CleanRecorded(inner, cc)
    case NotDebugging(inner) => CleanRecorded(inner, cc)
  }

  /** The errant types recorded for a stream of results. */
  function ErrantOf(c: Consumer, results: seq<CompiledClass>): set<TypeName>
  {
    if results == [] then {}
    else ErrantOf(c, results[..|results| - 1]) + ErrantRecorded(c, results[|results| - 1])
  }

  /** The clean list recorded for a stream of results. */
  function CleanOf(c: Consumer, results: seq<CompiledClass>): seq<CompiledClass>
  {
    if results == [] then []
    else CleanOf(c, results[..|results| - 1]) + CleanRecorded(c, results[|results| - 1])
  }

  /** The types of the errant results. */
  function ErrantTypes(results: seq<CompiledClass>): set<TypeName>
  {
    set i | 0 <= i < |results| && results[i].errant :: results[i].typ
  }

  /** The results without errors, in order. */
  function NonErrant(results: seq<CompiledClass>): (r: seq<CompiledClass>)
    ensures forall x :: x in r <==> x in results && !x.errant
  {
    if results == [] then []
    else
      var last := results[|results| - 1];
      NonErrant(results[..|results| - 1]) + (if !last.errant then [last] else [])
  }

  /** Any wrapped consumer records exactly the types of the errant results, however deep the wrapping. */
  lemma {:induction false} ErrantRecordedByChain(c: Consumer, cc: CompiledClass)
    requires c != Base
    ensures ErrantRecorded(c, cc) == if cc.errant then {cc.typ} else {}
    decreases c
  {
    match c
    case Debugging(inner) =>
      if inner != Base { ErrantRecordedByChain(inner, cc); }
    case NotDebugging(inner) =>
      if inner != Base { ErrantRecordedByChain(inner, cc); }
  }

  /** So a wrapped consumer leaves the errant set holding the errant results' types: nothing more, nothing less. */
  lemma {:induction false} ErrantOfChain(c: Consumer, results: seq<CompiledClass>)
    requires c != Base
    ensures ErrantOf(c, results) == ErrantTypes(results)
    decreases |results|
  {
    if results != [] {
      var n := |results| - 1;
      ErrantOfChain(c, results[..n]);
      ErrantRecordedByChain(c, results[n]);
      assert ErrantTypes(results) == ErrantTypes(results[..n]) + (if results[n].errant then {results[n].typ} else {});
    }
  }

  /** A consumer with one debugging lambda collects the clean results in order; one without collects nothing. */
  lemma {:induction false} CleanRecordedByChain(c: Consumer, cc: CompiledClass)
    requires DebugLayers(c) <= 1
    ensures CleanRecorded(c, cc) == if DebugLayers(c) == 1 && !cc.errant then [cc] else []
    decreases c
  {
    match c
    case Base =>
    case Debugging(inner) => CleanRecordedByChain(inner, cc);
    case NotDebugging(inner) => CleanRecordedByChain(inner, cc);
  }

  /** The clean list of a build: all the clean results with one debugging lambda, none without. */
  lemma {:induction false} CleanOfChain(c: Consumer, results: seq<CompiledClass>)
    requires DebugLayers(c) <= 1
    ensures CleanOf(c, results) == if DebugLayers(c) == 1 then NonErrant(results) else []
    decreases |results|
  {
    if results != [] {
      var n := |results| - 1;
      CleanOfChain(c, results[..n]);
      CleanRecordedByChain(c, results[n]);
    }
  }

  // ------------------------------------------------------- compile passes

  /** The results of compiling the units in the order given. */
  function AllResults<X>(units: seq<X>, compile: X -> Compilation): seq<CompiledClass>
  {
    if units == [] then []
    else AllResults(units[..|units| - 1], compile) + compile(units[|units| - 1]).results
  }

  /** Whether some compilation of the units returned true. */
  function AnyOk<X>(units: seq<X>, compile: X -> Compilation): bool
  {
    exists i :: 0 <= i < |units| && compile(units[i]).ok
  }

  /** The progress length of a full pass: the trees' file counts added up. */
  function TotalFiles(trees: seq<FileTree>): nat
  {
    if trees == [] then 0 else TotalFiles(trees[..|trees| - 1]) + trees[|trees| - 1].totalFiles
  }

  // ------------------------------------------------- findTypesToCompile

  /** The usage-search results of every changed file that has a type. */
  function UsageTypes(changed: seq<FileTree>, usages: TypeName -> set<TypeName>): set<TypeName>
  {
    if changed == [] then {}
    else
      var ft := changed[|changed| - 1];
      UsageTypes(changed[..|changed| - 1], usages) + (if ft.typ.Some? then usages(ft.typ.value) else {})
  }

  /** A type is compiled when the usage search of some changed typed file found it. */
  lemma {:induction false} UsageTypesMembership(changed: seq<FileTree>, usages: TypeName -> set<TypeName>, t: TypeName)
    ensures t in UsageTypes(changed, usages) <==>
      exists i :: 0 <= i < |changed| && changed[i].typ.Some? && t in usages(changed[i].typ.value)
    decreases |changed|
  {
    if changed != [] {
      var n := |changed| - 1;
      UsageTypesMembership(changed[..n], usages, t);
      if t in UsageTypes(changed, usages) && t !in UsageTypes(changed[..n], usages) {
        assert changed[n].typ.Some? && t in usages(changed[n].typ.value);
      }
      if exists i :: 0 <= i < |changed| && changed[i].typ.Some? && t in usages(changed[i].typ.value) {
        var i :| 0 <= i < |changed| && changed[i].typ.Some? && t in usages(changed[i].typ.value);
        if i < n {
          assert changed[..n][i] == changed[i];
        }
      }
    }
  }

  /** Changed files without a type add no type, wherever they appear. */
  lemma {:induction false} UntypedFilesAddNoTypes(before: seq<FileTree>, ft: FileTree, after: seq<FileTree>, usages: TypeName -> set<TypeName>)
    requires ft.typ.None?
    ensures UsageTypes(before + [ft] + after, usages) == UsageTypes(before + after, usages)
  {
    UsageTypesAppend(before + [ft], after, usages);
    UsageTypesAppend(before, after, usages);
    assert (before + [ft])[..|before|] == before;
  }

  /** The types of two runs of changes are those of each. */
  lemma {:induction false} UsageTypesAppend(xs: seq<FileTree>, ys: seq<FileTree>, usages: TypeName -> set<TypeName>)
    ensures UsageTypes(xs + ys, usages) == UsageTypes(xs, usages) + UsageTypes(ys, usages)
    decreases |ys|
  {
    if ys == [] {
      assert xs + ys == xs;
    } else {
      var n := |ys| - 1;
      var zs := xs + ys;
      assert zs[..|zs| - 1] == xs + ys[..n];
      assert zs[|zs| - 1] == ys[n];
      UsageTypesAppend(xs, ys[..n], usages);
    }
  }

  // ------------------------------------------------- copySourceFileToOutputDir

  /** PathUtil.create(dir, child): the child below the directory. */
  function Resolve(dir: string, sep: char, child: string): string
  {
    dir + [sep] + child
  }

  /**
   * Where copySourceFileToOutputDir puts a file: below the output directory,
   * in the directory its parent's qualified name gives with '.' turned into
   * the separator, or directly in the output directory for a null name.
   */
  function CopyTarget(outputPath: string, sep: char, parentFqn: Option<string>, name: string): (p: string)
    ensures StartsWith(p, outputPath + [sep]) && EndsWith(p, [sep] + name)
    ensures parentFqn.None? ==> p == outputPath + [sep] + name
  {
    var dir := match parentFqn
      case None => outputPath
      case Some(fqn) => Resolve(outputPath, sep, Replace(fqn, '.', sep));
    var p := Resolve(dir, sep, name);
    assert p[..|outputPath| + 1] == outputPath + [sep];
    assert p[|p| - |name| - 1..] == [sep] + name;
    p
  }

  /**
   * The package directory of a copied file has no '.' left, and turning its
   * separators back into dots gives the package name, when the separator is
   * not a dot and does not occur in the name.
   */
  lemma {:induction false} PackageDirRecoversFqn(outputPath: string, sep: char, fqn: string, name: string)
    requires sep != '.' && sep !in fqn
    ensures var p := CopyTarget(outputPath, sep, Some(fqn), name);
      var dir := p[|outputPath| + 1..|p| - |name| - 1];
      '.' !in dir && Replace(dir, sep, '.') == fqn
  {
    var p := CopyTarget(outputPath, sep, Some(fqn), name);
    var d := Replace(fqn, '.', sep);
    assert p == outputPath + [sep] + d + [sep] + name;
    assert p[|outputPath| + 1..|p| - |name| - 1] == d;
    ReplaceRoundTrip(fqn, '.', sep);
  }

  /** A copy of a changed untyped file to the output directory. */
  datatype CopyOp = CopyOp(source: FileTree, target: string)

  /** The copies findTypesToCompile makes: the changed untyped files, when an output path is set. */
  function CopiesFor(changed: seq<FileTree>, outputPath: Option<string>, sep: char): seq<CopyOp>
  {
    if changed == [] then []
    else
      var ft := changed[|changed| - 1];
      CopiesFor(changed[..|changed| - 1], outputPath, sep) +
        (if ft.typ.None? && ft.isFile && outputPath.Some?
         then [CopyOp(ft, CopyTarget(outputPath.value, sep, ft.parentFqn, ft.name))]
         else [])
  }

  /** Only untyped files are copied, only with an output path, and to the place CopyTarget gives. */
  lemma {:induction false} CopiesAreUntypedFiles(changed: seq<FileTree>, outputPath: Option<string>, sep: char)
    ensures outputPath.None? ==> CopiesFor(changed, outputPath, sep) == []
    ensures forall op :: op in CopiesFor(changed, outputPath, sep) ==>
      op.source in changed && op.source.typ.None? && op.source.isFile && outputPath.Some? &&
      op.target == CopyTarget(outputPath.value, sep, op.source.parentFqn, op.source.name)
    ensures outputPath.Some? ==> forall ft :: ft in changed && ft.typ.None? && ft.isFile ==>
      CopyOp(ft, CopyTarget(outputPath.value, sep, ft.parentFqn, ft.name)) in CopiesFor(changed, outputPath, sep)
    decreases |changed|
  {
    if changed != [] {
      var init := changed[..|changed| - 1];
      CopiesAreUntypedFiles(init, outputPath, sep);
      assert forall ft :: ft in changed ==> ft in init || ft == changed[|changed| - 1];
    }
  }

  // ------------------------------------------------------- the summary line

  /** The severity of a node of the messages tree (NodeKind). */
  datatype NodeKind = Error | Warning | Info | Failure

  /** A top-level node of the messages tree: its text and kind. */
  datatype MessageTree = MessageTree(message: string, kind: NodeKind)

  predicate IsDigit(c: char) { '0' <= c <= '9' }

  function DigitChar(d: nat): (c: char)
    requires d < 10
    ensures IsDigit(c)
  {
    ('0' as int + d) as char
  }

  /** The decimal text Java's string concatenation gives for a non-negative int. */
  function NatToString(n: nat): (r: string)
    ensures |r| >= 1 && forall i :: 0 <= i < |r| ==> IsDigit(r[i])
    decreases n
  {
    if n < 10 then [DigitChar(n)] else NatToString(n / 10) + [DigitChar(n % 10)]
  }

  /** The number a string of decimal digits stands for. */
  function DigitsValue(s: string): nat
    requires forall i :: 0 <= i < |s| ==> IsDigit(s[i])
  {
    if s == [] then 0
    else
      assert IsDigit(s[|s| - 1]);
      DigitsValue(s[..|s| - 1]) * 10 + (s[|s| - 1] as int - '0' as int)
  }

  lemma {:induction false} NatToStringValue(n: nat)
    ensures DigitsValue(NatToString(n)) == n
    decreases n
  {
    if n >= 10 {
      NatToStringValue(n / 10);
      var s := NatToString(n);
      assert s[..|s| - 1] == NatToString(n / 10);
    }
  }

  /** The length of the run of digits a string starts with. */
  function LeadingDigits(s: string): (k: nat)
    ensures k <= |s|
    ensures forall i :: 0 <= i < k ==> IsDigit(s[i])
  {
    if s == [] || !IsDigit(s[0]) then 0 else 1 + LeadingDigits(s[1..])
  }

  lemma {:induction false} LeadingDigitsOf(digits: string, rest: string)
    requires forall i :: 0 <= i < |digits| ==> IsDigit(digits[i])
    requires rest == [] || !IsDigit(rest[0])
    ensures LeadingDigits(digits + rest) == |digits|
    decreases |digits|
  {
    if digits != [] {
      assert (digits + rest)[1..] == digits[1..] + rest;
      LeadingDigitsOf(digits[1..], rest);
    } else {
      assert digits + rest == rest;
    }
  }

  const CompletedPrefix := "Compilation completed with "

  /** The text of the summary line of a completed pass. */
  function CompletedText(errors: nat, warnings: nat): string
  {
    CompletedPrefix +
      NatToString(errors) + (if errors == 1 then " error " else " errors ") + " and " +
      NatToString(warnings) + (if warnings == 1 then " warning " else " warnings ")
  }

  /**
   * The summary node build puts at the top of the messages: the error and
   * warning counts when the pass completed (with the double space before
   * "and" and the trailing space of the source), a failure otherwise.
   */
  function Summary(completed: bool, errors: nat, warnings: nat): (m: MessageTree)
    ensures m.kind == Failure <==> !completed
    ensures completed ==> (m.kind == Error <==> errors > 0)
    ensures completed ==> (m.kind == Warning <==> errors == 0 && warnings > 0)
    ensures completed ==> (m.kind == Info <==> errors == 0 && warnings == 0)
    ensures completed ==> m.message == CompletedText(errors, warnings)
    ensures !completed ==> m.message == "Compilation failed to complete"
  {
    if completed then
      MessageTree(CompletedText(errors, warnings), if errors > 0 then Error else if warnings > 0 then Warning else Info)
    else
      MessageTree("Compilation failed to complete", Failure)
  }

  /** A leading decimal number and what follows it; None when the text does not start with a digit. */
  function ParseCount(s: string): Option<(nat, string)>
  {
    var k := LeadingDigits(s);
    if k == 0 then None else Some((DigitsValue(s[..k]), s[k..]))
  }

  lemma {:induction false} ParseCountOf(n: nat, rest: string)
    requires rest == [] || !IsDigit(rest[0])
    ensures ParseCount(NatToString(n) + rest) == Some((n, rest))
  {
    var d := NatToString(n);
    LeadingDigitsOf(d, rest);
    assert (d + rest)[..|d|] == d && (d + rest)[|d|..] == rest;
    NatToStringValue(n);
  }

  /** The text after the error count, up to the warning count. */
  function AfterErrors(r: string): Option<string>
  {
    if StartsWith(r, " error  and ") then Some(r[12..])
    else if StartsWith(r, " errors  and ") then Some(r[13..])
    else None
  }

  /** Reads the two counts back out of a summary line; None for anything else. */
  function ParseSummary(msg: string): Option<(nat, nat)>
  {
    if !StartsWith(msg, CompletedPrefix) then None
    else
      match ParseCount(msg[|CompletedPrefix|..])
      case None => None
      case Some((errors, r1)) =>
        match AfterErrors(r1)
        case None => None
        case Some(r2) =>
          match ParseCount(r2)
          case None => None
          case Some((warnings, tail)) =>
            if tail == " warning " || tail == " warnings " then Some((errors, warnings)) else None
  }

  lemma AfterErrorsOf(errors: nat, rest: string)
    ensures AfterErrors((if errors == 1 then " error " else " errors ") + " and " + rest) == Some(rest)
  {
    var t := (if errors == 1 then " error " else " errors ") + " and " + rest;
    if errors == 1 {
      assert t[..12] == " error  and ";
      assert t[12..] == rest;
    } else {
      assert t[6] == 's';
      assert t[..13] == " errors  and ";
      assert t[13..] == rest;
    }
  }

  /** The summary line carries both counts exactly; the failure line carries none. */
  lemma {:induction false} SummaryRoundTrip(errors: nat, warnings: nat)
    ensures ParseSummary(Summary(true, errors, warnings).message) == Some((errors, warnings))
    ensures ParseSummary(Summary(false, errors, warnings).message) == None
  {
    var ew := if errors == 1 then " error " else " errors ";
    var tail := if warnings == 1 then " warning " else " warnings ";
    var r2 := NatToString(warnings) + tail;
    var r1 := ew + " and " + r2;
    var msg := CompletedText(errors, warnings);
    SummaryShape(errors, warnings);
    assert msg[|CompletedPrefix|..] == NatToString(errors) + r1;
    ParseCountOf(errors, r1);
    AfterErrorsOf(errors, r2);
    ParseCountOf(warnings, tail);
    ParseSteps(msg, errors, r1, r2, warnings, tail);
    FailureLineHasNoCounts();
  }

  lemma ParseSteps(msg: string, errors: nat, r1: string, r2: string, warnings: nat, tail: string)
    requires StartsWith(msg, CompletedPrefix)
    requires ParseCount(msg[|CompletedPrefix|..]) == Some((errors, r1))
    requires AfterErrors(r1) == Some(r2)
    requires ParseCount(r2) == Some((warnings, tail))
    requires tail == " warning " || tail == " warnings "
    ensures ParseSummary(msg) == Some((errors, warnings))
  {
  }

  lemma FailureLineHasNoCounts()
    ensures ParseSummary("Compilation failed to complete") == None
  {
    assert !StartsWith("Compilation failed to complete", CompletedPrefix) by {
      assert "Compilation failed to complete"[12] != CompletedPrefix[12];
    }
  }

  lemma SummaryShape(errors: nat, warnings: nat)
    ensures var msg := CompletedText(errors, warnings);
      var ew := if errors == 1 then " error " else " errors ";
      var tail := if warnings == 1 then " warning " else " warnings ";
      StartsWith(msg, CompletedPrefix) &&
      msg[|CompletedPrefix|..] == NatToString(errors) + (ew + " and " + (NatToString(warnings) + tail))
  {
    var ew := if errors == 1 then " error " else " errors ";
    var tail := if warnings == 1 then " warning " else " warnings ";
    Reassociate(CompletedPrefix, NatToString(errors), ew, NatToString(warnings), tail);
  }

  lemma Reassociate(p: string, de: string, ew: string, dw: string, tail: string)
    ensures var msg := p + de + ew + " and " + dw + tail;
      StartsWith(msg, p) && msg[|p|..] == de + (ew + " and " + (dw + tail))
  {
    var msg := p + de + ew + " and " + dw + tail;
    assert msg == p + (de + (ew + " and " + (dw + tail)));
  }

  /** The text as the source builds it, spaces included: one error, no warning. */
  lemma SummaryTextSingular()
    ensures Summary(true, 1, 0).message == CompletedPrefix + "1 error  and 0 warnings "
  {
  }

  /** The text as the source builds it, spaces included: two errors, one warning. */
  lemma SummaryTextPlural()
    ensures Summary(true, 2, 1).message == CompletedPrefix + "2 errors  and 1 warning "
  {
  }
}
