/**
 * The code lenses shown above each function of an analysed file: a
 * history lens that summarises the function's compilation state, and for a
 * compiled function a second lens that opens its optimized code.
 */
module Annotate {
  import opened Optional
  import opened JsStrings
  import opened Util
  import opened Analyze

  /** A value handed to a lens command. */
  datatype Argument = FileArg(file: FileInsights) | FunctionArg(insights: FunctionInsights)

  /** The command a lens runs; its title is kept as the segments `formatTime` builds it from. */
  datatype Command = Command(command: string, title: seq<Segment>, arguments: seq<Argument>)

  datatype CodeLens = CodeLens(range: Range, isResolved: bool, command: Command)

  const HISTORY_COMMAND := "v8-insights.compilation-history"
  const COMPILED_CODE_COMMAND := "v8-insights.show-compiled-code"
  const DEOPTIMIZED_NOTE := " - was deoptimized"

  /** The key `getLenses` looks insights up by: the document URI with its first "file://" removed. */
  function LookupKey(uri: string): (key: string)
    ensures StartsWith(uri, "file://") ==> uri == "file://" + key
    ensures (forall k: nat :: !OccursAt(uri, "file://", k)) ==> key == uri
    ensures forall k: nat :: OccursAt(uri, "file://", k) && (forall k': nat :: k' < k ==> !OccursAt(uri, "file://", k'))
              ==> key == uri[..k] + uri[k + 7..]
  {
    ReplaceFirstAt(uri, "file://", "");
    ReplaceFirst(uri, "file://", "")
  }

  /** The title of the history lens. */
  function Summary(f: FunctionInsights): seq<Segment> {
    (if f.isCompiled then [Lit("compiled in ")] + FormatTime(f.compileTime) else [Lit("interpreted")])
    + (if f.wasDeoptimized then [Lit(DEOPTIMIZED_NOTE)] else [])
  }

  /** The lens that opens the compilation history of `f`. */
  function HistoryLens(file: FileInsights, f: FunctionInsights): CodeLens {
    CodeLens(f.nameLocation, false, Command(HISTORY_COMMAND, Summary(f), [FileArg(file), FunctionArg(f)]))
  }

  /** The lens that opens the optimized code of `f`. */
  function CompiledLens(f: FunctionInsights): CodeLens {
    CodeLens(f.nameLocation, false, Command(COMPILED_CODE_COMMAND, [Lit("compiled code")], [FunctionArg(f)]))
  }

  /** The lenses of one function. */
  function LensesOf(file: FileInsights, f: FunctionInsights): seq<CodeLens> {
    [HistoryLens(file, f)] + (if f.isCompiled then [CompiledLens(f)] else [])
  }

  /** The lenses of the functions, in order. */
  function LensesAll(file: FileInsights, fs: seq<FunctionInsights>): seq<CodeLens>
    decreases |fs|
  {
    if fs == [] then [] else LensesAll(file, fs[..|fs| - 1]) + LensesOf(file, fs[|fs| - 1])
  }

  /** The lenses for what the file lookup found: none when nothing was found. */
  function Lenses(insights: Option<FileInsights>): seq<CodeLens> {
    match insights
    case None => []
    case Some(file) => LensesAll(file, file.functions)
  }

  /** The number of compiled functions. */
  function CompiledCount(fs: seq<FunctionInsights>): (n: nat)
    ensures n <= |fs|
    decreases |fs|
  {
    if fs == [] then 0 else CompiledCount(fs[..|fs| - 1]) + (if fs[|fs| - 1].isCompiled then 1 else 0)
  }

  /** One lens per function and one more per compiled function. */
  lemma {:induction false} LensCount(file: FileInsights, fs: seq<FunctionInsights>)
    ensures |LensesAll(file, fs)| == |fs| + CompiledCount(fs)
    decreases |fs|
  {
    if fs != [] {
      LensCount(file, fs[..|fs| - 1]);
    }
  }

  /**
   * Where the lenses of the `j`-th function sit: its history lens comes
   * after the lenses of the functions before it, and its compiled-code lens,
   * when it is compiled, right after that.
   */
  lemma {:induction false} LensesAt(file: FileInsights, fs: seq<FunctionInsights>, j: nat)
    requires j < |fs|
    ensures var at := j + CompiledCount(fs[..j]);
            at < |LensesAll(file, fs)| && LensesAll(file, fs)[at] == HistoryLens(file, fs[j])
            && (fs[j].isCompiled ==> at + 1 < |LensesAll(file, fs)| && LensesAll(file, fs)[at + 1] == CompiledLens(fs[j]))
            && (!fs[j].isCompiled && j + 1 < |fs| ==> at + 1 == j + 1 + CompiledCount(fs[..j + 1]))
    decreases |fs|
  {
    var init := fs[..|fs| - 1];
    LensCount(file, init);
    assert fs[..j + 1][..j] == fs[..j];
    assert CompiledCount(fs[..j + 1]) == CompiledCount(fs[..j]) + (if fs[j].isCompiled then 1 else 0);
    var at := j + CompiledCount(fs[..j]);
    if j < |fs| - 1 {
      LensesAt(file, init, j);
      assert init[..j] == fs[..j];
      assert init[j] == fs[j];
      LensesKeepPrefix(file, fs, at);
      if fs[j].isCompiled {
        LensesKeepPrefix(file, fs, at + 1);
      }
    } else {
      assert init == fs[..j];
      LensesOfLast(file, fs, 0);
      if fs[j].isCompiled {
        LensesOfLast(file, fs, 1);
      }
    }
  }

  /** The lenses of all functions but the last are a prefix of the lenses of all. */
  lemma LensesKeepPrefix(file: FileInsights, fs: seq<FunctionInsights>, k: nat)
    requires fs != [] && k < |LensesAll(file, fs[..|fs| - 1])|
    ensures k < |LensesAll(file, fs)| && LensesAll(file, fs)[k] == LensesAll(file, fs[..|fs| - 1])[k]
  {
  }

  /** The lenses of the last function close the lenses of all. */
  lemma LensesOfLast(file: FileInsights, fs: seq<FunctionInsights>, o: nat)
    requires fs != [] && o < |LensesOf(file, fs[|fs| - 1])|
    ensures var k := |LensesAll(file, fs[..|fs| - 1])| + o;
      k < |LensesAll(file, fs)| && LensesAll(file, fs)[k] == LensesOf(file, fs[|fs| - 1])[o]
  {
  }

  /** Every lens is the history lens of a function or the compiled-code lens of a compiled one. */
  lemma {:induction false} LensesOnlyFrom(file: FileInsights, fs: seq<FunctionInsights>, k: nat)
    requires k < |LensesAll(file, fs)|
    ensures exists j :: 0 <= j < |fs| && (LensesAll(file, fs)[k] == HistoryLens(file, fs[j])
                                          || (fs[j].isCompiled && LensesAll(file, fs)[k] == CompiledLens(fs[j])))
    decreases |fs|
  {
    var init := fs[..|fs| - 1];
    var last := |fs| - 1;
    if k < |LensesAll(file, init)| {
      LensesOnlyFrom(file, init, k);
      var j :| 0 <= j < |init| && (LensesAll(file, init)[k] == HistoryLens(file, init[j])
                                   || (init[j].isCompiled && LensesAll(file, init)[k] == CompiledLens(init[j])));
      assert init[j] == fs[j];
    } else {
      var o := k - |LensesAll(file, init)|;
      assert LensesAll(file, fs)[k] == LensesOf(file, fs[last])[o];
      assert LensesAll(file, fs)[k] == HistoryLens(file, fs[last]) || (fs[last].isCompiled && LensesAll(file, fs)[k] == CompiledLens(fs[last]));
    }
  }

  /** Both lenses of a function sit on its name. */
  lemma {:induction false} LensRanges(file: FileInsights, fs: seq<FunctionInsights>, k: nat)
    requires k < |LensesAll(file, fs)|
    ensures exists j :: 0 <= j < |fs| && LensesAll(file, fs)[k].range == fs[j].nameLocation
  {
    LensesOnlyFrom(file, fs, k);
    var j :| 0 <= j < |fs| && (LensesAll(file, fs)[k] == HistoryLens(file, fs[j])
                               || (fs[j].isCompiled && LensesAll(file, fs)[k] == CompiledLens(fs[j])));
    assert LensesAll(file, fs)[k].range == fs[j].nameLocation;
  }

  /**
   * The summary starts with "compiled in " and the formatted compile time
   * exactly when the function is compiled, and is "interpreted" otherwise;
   * it ends with the deoptimization note exactly when the function was
   * deoptimized.
   */
  lemma SummaryShape(f: FunctionInsights)
    ensures |Summary(f)| >= 1
    ensures f.isCompiled <==> Summary(f)[0] == Lit("compiled in ")
    ensures f.isCompiled ==> Summary(f)[1..1 + |FormatTime(f.compileTime)|] == FormatTime(f.compileTime)
    ensures !f.isCompiled ==> Summary(f)[0] == Lit("interpreted")
    ensures f.wasDeoptimized <==> Summary(f)[|Summary(f)| - 1] == Lit(DEOPTIMIZED_NOTE)
  {
    var head := if f.isCompiled then [Lit("compiled in ")] + FormatTime(f.compileTime) else [Lit("interpreted")];
    assert Summary(f)[..|head|] == head;
    if !f.wasDeoptimized {
      assert Summary(f) == head;
      assert head[|head| - 1] != Lit(DEOPTIMIZED_NOTE);
    }
  }

  /**
   * `getLenses`: looks up the insights of the document's file and pushes,
   * function by function, its history lens and, for a compiled function,
   * its compiled-code lens.
   */
  method GetLenses(store: InsightStore, uri: string) returns (lenses: seq<CodeLens>)
    requires store.Valid()
    ensures LookupKey(uri) !in store.files ==> lenses == []
    ensures lenses == Lenses(store.GetInsights(LookupKey(uri)))
  {
    lenses := [];
    var insights := store.GetInsights(ReplaceFirst(uri, "file://", ""));
    if insights.None? {
      return [];
    }
    var file := insights.value;
    for i := 0 to |file.functions|
      invariant lenses == LensesAll(file, file.functions[..i])
    {
      assert file.functions[..i + 1][..i] == file.functions[..i];
      assert file.functions[..i + 1][i] == file.functions[i];
      lenses := PushLenses(lenses, file, file.functions[i]);
    }
    assert file.functions[..|file.functions|] == file.functions;
  }

  /** The body of the loop of `getLenses`: pushes the lenses of one function. */
  method PushLenses(lenses: seq<CodeLens>, file: FileInsights, functionInsight: FunctionInsights)
    returns (lenses': seq<CodeLens>)
    ensures lenses' == lenses + LensesOf(file, functionInsight)
  {
    var summary := if functionInsight.isCompiled then [Lit("compiled in ")] + FormatTime(functionInsight.compileTime)
                   else [Lit("interpreted")];
    if functionInsight.wasDeoptimized {
      summary := summary + [Lit(DEOPTIMIZED_NOTE)];
    }
    assert summary == Summary(functionInsight);
    lenses' := lenses + [CodeLens(functionInsight.nameLocation, false,
                                  Command(HISTORY_COMMAND, summary, [FileArg(file), FunctionArg(functionInsight)]))];
    if functionInsight.isCompiled {
      lenses' := lenses' + [CodeLens(functionInsight.nameLocation, false,
                                     Command(COMPILED_CODE_COMMAND, [Lit("compiled code")], [FunctionArg(functionInsight)]))];
      assert lenses' == lenses + [HistoryLens(file, functionInsight)] + [CompiledLens(functionInsight)];
    }
  }
}
