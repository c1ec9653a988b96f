/**
 * The V8 trace analyser of src/analyze.ts: a state machine over the lines of
 * the `--logfile` output that builds one record per function declaration
 * site, indexes the records by file, by declaration site and by the start
 * address of their optimized code, and keeps each record's event history
 * and compilation flags up to date.
 *
 * The records are objects shared between the three indices in the source.
 * Here they live in one sequence, `records`, and every index holds
 * positions into it, so an update of `records[i]` is seen through all of
 * them.
 */
module Analyze {
  import opened Optional
  import opened JsStrings
  import opened Util

  // ----- data model -----

  datatype MemoryArea = MemoryArea(start: string, size: int)

  datatype FunctionEvent =
    | Parse(at: int, memory: MemoryArea)
    | CompileStart(at: int)
    | CompileEnd(at: int, memory: MemoryArea)
    | Deoptimize(at: int, reason: Option<string>, from: string)

  /** A VS Code position; either coordinate can be NaN, which its constructor lets through. */
  datatype Position = Position(line: Numeric, character: Numeric)

  datatype Range = Range(start: Position, end: Position)

  datatype FunctionInsights = FunctionInsights(
    name: string,
    nameLocation: Range,
    events: seq<FunctionEvent>,
    isCompiled: bool,
    wasDeoptimized: bool,
    compileTime: Option<int>)

  datatype FileInsights = FileInsights(filename: string, functions: seq<FunctionInsights>)

  /** What `parseFullLocation` extracts from a source field. */
  datatype Location = Location(name: string, filename: string, line: Numeric, column: Numeric, fullLocation: string)

  // ----- parseFullLocation -----

  /** Element `k` of a split, or the empty text where JavaScript reads `undefined`. */
  function Field(parts: seq<string>, k: nat): string {
    if k < |parts| then parts[k] else ""
  }

  /** Element `k` of a split, or nothing where JavaScript reads `undefined`. */
  function OptionalField(parts: seq<string>, k: nat): Option<string> {
    if k < |parts| then Some(parts[k]) else None
  }

  /** `+parts[k]`: NaN when the element is missing (`+undefined`). */
  function NumberField(parts: seq<string>, k: nat): Numeric {
    if k < |parts| then ParseNumber(parts[k]) else NaN
  }

  /**
   * `parseFullLocation`. Named: the name is the text before the first space
   * and the location the token after it. Unnamed: the location is the text
   * without its first and last character and the name is "unknown". The
   * line number is made zero-based, the column is kept as it is.
   */
  function ParseFullLocation(path: string, unnamed: bool): Location
    requires unnamed || ' ' in path
  {
    if unnamed then LocationOf("unknown", Slice(path, 1, -1))
    else
      SplitSpace(path);
      var words := Split(path, ' ');
      LocationOf(words[0], words[1])
  }

  /**
   * Named: the name is the text before the first space and the location the
   * space-free token right after it. Unnamed: the name is "unknown" and the
   * location the text without its first and last character. Either way the
   * file name is all of the location, once its first "file://" is removed,
   * up to its first colon or its end.
   */
  lemma ParseFullLocationShape(path: string, unnamed: bool)
    requires unnamed || ' ' in path
    ensures var loc := ParseFullLocation(path, unnamed);
      && (unnamed ==> loc.name == "unknown" && loc.fullLocation == Slice(path, 1, -1))
      && (!unnamed ==>
            && ' ' !in loc.name && ' ' !in loc.fullLocation
            && StartsWith(path, loc.name + " " + loc.fullLocation)
            && (|path| == |loc.name| + 1 + |loc.fullLocation| || path[|loc.name| + 1 + |loc.fullLocation|] == ' '))
      && FileNameCut(loc)
  {
    if unnamed {
      LocationOfFile("unknown", Slice(path, 1, -1));
    } else {
      FirstTwoWords(path);
      var words := Split(path, ' ');
      LocationOfFile(words[0], words[1]);
    }
  }

  /** The file name, line and column of a location, split at its colons once the scheme is removed. */
  function LocationOf(name: string, fullLocation: string): (loc: Location)
    ensures loc.name == name && loc.fullLocation == fullLocation
  {
    var parts := Split(ReplaceFirst(fullLocation, "file://", ""), ':');
    Location(name, parts[0], AddInt(NumberField(parts, 1), -1), NumberField(parts, 2), fullLocation)
  }

  /**
   * The file name is the location, once its first "file://" is removed, up
   * to its first colon or its end.
   */
  ghost predicate FileNameCut(loc: Location) {
    var rest := ReplaceFirst(loc.fullLocation, "file://", "");
    ':' !in loc.filename && StartsWith(rest, loc.filename)
    && (|rest| == |loc.filename| || rest[|loc.filename|] == ':')
  }

  /** The file name is the first colon-free piece of the location once its first "file://" is removed. */
  lemma LocationOfFile(name: string, fullLocation: string)
    ensures var loc := LocationOf(name, fullLocation);
      FileNameCut(loc)
  {
    FirstPiece(ReplaceFirst(fullLocation, "file://", ""), ':');
  }

  lemma FirstPiece(s: string, sep: char)
    ensures var p := Split(s, sep);
      sep !in p[0] && StartsWith(s, p[0]) && (|s| == |p[0]| || s[|p[0]|] == sep)
  {
    var p := Split(s, sep);
    SplitJoin(s, sep);
    if |p| > 1 {
      assert Join(p, sep) == p[0] + ([sep] + Join(p[1..], sep));
    }
  }

  /**
   * A source field written the way V8 writes it, `<name> file://<path>:<line>:<column>`
   * with a one-based line, is parsed back into its parts.
   */
  lemma ParseFullLocationRoundTrip(name: string, path: string, line: int, column: int)
    requires ' ' !in name && ' ' !in path && ':' !in path
    requires !StartsWith(path, "file://") && line + 1 >= 0 && column >= 0
    ensures var full := "file://" + path + ":" + IntToString(line + 1) + ":" + IntToString(column);
      ParseFullLocation(name + " " + full, false) == Location(name, path, Finite(line), Finite(column), full)
  {
    var full := "file://" + path + ":" + IntToString(line + 1) + ":" + IntToString(column);
    LocationOfRoundTrip(name, path, line, column);
    assert ' ' !in full by { SchemeFree(path, line, column); }
    JoinSplit([name, full], ' ');
    assert Join([name, full], ' ') == name + " " + full;
  }

  lemma SchemeFree(path: string, line: int, column: int)
    requires ' ' !in path && line + 1 >= 0 && column >= 0
    ensures ' ' !in "file://" + path + ":" + IntToString(line + 1) + ":" + IntToString(column)
  {
    NumberFree(line + 1);
    NumberFree(column);
    assert ' ' !in "file://";
  }

  /** A number written out holds neither a space nor a colon. */
  lemma NumberFree(n: int)
    requires n >= 0
    ensures ' ' !in IntToString(n) && ':' !in IntToString(n)
  {
    var s := IntToString(n);
    NatToStringDecimal(n);
    forall i | 0 <= i < |s| ensures IsDigit(s[i]) { }
  }

  lemma LocationOfRoundTrip(name: string, path: string, line: int, column: int)
    requires ':' !in path && !StartsWith(path, "file://") && line + 1 >= 0 && column >= 0
    ensures var full := "file://" + path + ":" + IntToString(line + 1) + ":" + IntToString(column);
      LocationOf(name, full) == Location(name, path, Finite(line), Finite(column), full)
  {
    var l, c := IntToString(line + 1), IntToString(column);
    NumberFree(line + 1);
    NumberFree(column);
    var stripped := path + ":" + l + ":" + c;
    var full := "file://" + path + ":" + l + ":" + c;
    assert full == "file://" + stripped;
    assert StartsWith(full, "file://");
    assert ReplaceFirst(full, "file://", "") == stripped;
    JoinSplit([path, l, c], ':');
    JoinThree(path, l, c);
    IntToStringRoundTrip(line + 1);
    IntToStringRoundTrip(column);
  }

  /**
   * A Windows source, `<name> file://<drive>:<path>:<line>:<column>` such as
   * `f file:///C:/x/a.js:10:11`, is cut at the drive colon: the file name is
   * the drive, the line is read from the path and is NaN, and the column is
   * read from the line number. As a new site it is accepted all the same,
   * since NaN is not below zero.
   */
  lemma DriveLetterSite(st: Store, name: string, drive: string, path: string, line: int, column: int)
    requires ' ' !in name && ' ' !in drive && ' ' !in path && ':' !in drive && ':' !in path
    requires !StartsWith(drive, "file://") && path != [] && path[0] == '/' && line >= 0 && column >= 0
    ensures var full := "file://" + drive + ":" + path + ":" + IntToString(line) + ":" + IntToString(column);
      var source := name + " " + full;
      var loc := ParseFullLocation(source, false);
      && loc.filename == drive && loc.line == NaN && loc.column == Finite(line)
      && SiteOk(st, source)
  {
    var l, c := IntToString(line), IntToString(column);
    var full := "file://" + drive + ":" + path + ":" + l + ":" + c;
    DriveLocation(name, drive, path, line, column);
    DriveFree(drive, path, line, column);
    JoinSplit([name, full], ' ');
    assert Join([name, full], ' ') == name + " " + full;
  }

  lemma DriveFree(drive: string, path: string, line: int, column: int)
    requires ' ' !in drive && ' ' !in path && line >= 0 && column >= 0
    ensures ' ' !in "file://" + drive + ":" + path + ":" + IntToString(line) + ":" + IntToString(column)
  {
    NumberFree(line);
    NumberFree(column);
    assert ' ' !in "file://";
  }

  lemma DriveLocation(name: string, drive: string, path: string, line: int, column: int)
    requires ':' !in drive && ':' !in path && path != [] && path[0] == '/' && line >= 0 && column >= 0
    ensures var full := "file://" + drive + ":" + path + ":" + IntToString(line) + ":" + IntToString(column);
      var loc := LocationOf(name, full);
      loc.filename == drive && loc.line == NaN && loc.column == Finite(line)
  {
    var l, c := IntToString(line), IntToString(column);
    NumberFree(line);
    NumberFree(column);
    var stripped := drive + ":" + path + ":" + l + ":" + c;
    var full := "file://" + drive + ":" + path + ":" + l + ":" + c;
    assert full == "file://" + stripped;
    PrefixedBy("file://", "file://", stripped);
    assert ReplaceFirst(full, "file://", "") == stripped;
    JoinSplit([drive, path, l, c], ':');
    JoinFour(drive, path, l, c);
    assert !IsDigit(path[0]) && path[0] != '-';
    IntToStringRoundTrip(line);
  }

  lemma JoinFour(a: string, b: string, c: string, d: string)
    ensures Join([a, b, c, d], ':') == a + ":" + b + ":" + c + ":" + d
  {
    JoinCons(a, [b, c, d], ':');
    JoinThree(b, c, d);
    assert [a] + [b, c, d] == [a, b, c, d];
    assert a + [':'] + (b + ":" + c + ":" + d) == a + ":" + b + ":" + c + ":" + d;
  }

  lemma JoinThree(a: string, b: string, c: string)
    ensures Join([a, b, c], ':') == a + ":" + b + ":" + c
  {
    JoinCons(a, [b, c], ':');
    JoinCons(b, [c], ':');
    assert [a] + [b, c] == [a, b, c] && [b] + [c] == [b, c];
    assert ":" == [':'];
    assert a + [':'] + (b + [':'] + c) == a + [':'] + b + [':'] + c;
  }

  // ----- the state of a run -----

  /**
   * Everything a run builds: the records, the file index (`insights`), the
   * declaration-site index (`functionsByLocation`) and the code-address
   * index (`functionsByCompiledLocation`).
   */
  datatype Store = Store(
    records: seq<FunctionInsights>,
    files: map<string, seq<nat>>,
    byLocation: map<string, nat>,
    byCompiled: map<string, nat>)

  /** The state every run starts from. */
  function Empty(): Store {
    Store([], map[], map[], map[])
  }

  /** The two maps of a run point at existing records. */
  predicate Indexed(st: Store) {
    && (forall k :: k in st.byLocation ==> st.byLocation[k] < |st.records|)
    && (forall k :: k in st.byCompiled ==> st.byCompiled[k] < |st.records|)
  }

  /**
   * The shape of the indices: every record is in exactly one file's list,
   * exactly once, and has exactly one declaration site.
   */
  ghost predicate Consistent(st: Store) {
    && Indexed(st)
    && (forall f, j :: f in st.files && 0 <= j < |st.files[f]| ==> st.files[f][j] < |st.records|)
    && (forall f, j, g, k ::
          f in st.files && g in st.files && 0 <= j < |st.files[f]| && 0 <= k < |st.files[g]|
          && st.files[f][j] == st.files[g][k]
          ==> f == g && j == k)
    && (forall i :: 0 <= i < |st.records| ==> Filed(st.files, i))
    && (forall k1, k2 :: k1 in st.byLocation && k2 in st.byLocation && st.byLocation[k1] == st.byLocation[k2]
          ==> k1 == k2)
    && (forall i :: 0 <= i < |st.records| ==> Sited(st.byLocation, i))
  }

  /** Record `i` is in some file's list. */
  ghost predicate Filed(files: map<string, seq<nat>>, i: nat) {
    exists f, j :: f in files && 0 <= j < |files[f]| && files[f][j] == i
  }

  /** Record `i` has a declaration site. */
  ghost predicate Sited(byLocation: map<string, nat>, i: nat) {
    exists k :: k in byLocation && byLocation[k] == i
  }

  // ----- the record flags as functions of the event history -----

  predicate IsCompileStart(e: FunctionEvent) {
    e.CompileStart?
  }

  /** The last compile-start of a history. */
  function LastCompileStart(events: seq<FunctionEvent>): (r: Option<FunctionEvent>)
    ensures r.Some? ==> r.value.CompileStart?
    decreases |events|
  {
    if events == [] then None
    else if events[|events| - 1].CompileStart? then Some(events[|events| - 1])
    else LastCompileStart(events[..|events| - 1])
  }

  /** `findLast` with the compile-start test finds the last compile-start. */
  lemma {:induction false} FindLastCompileStart(events: seq<FunctionEvent>)
    ensures FindLast(events, IsCompileStart) == LastCompileStart(events)
    decreases |events|
  {
    if events != [] {
      FindLastCompileStart(events[..|events| - 1]);
    }
  }

  /** Compiled: the last compile-end is not followed by a deoptimization. */
  function CompiledAfter(events: seq<FunctionEvent>): bool
    decreases |events|
  {
    if events == [] then false
    else
      var e := events[|events| - 1];
      if e.CompileEnd? then true
      else if e.Deoptimize? then false
      else CompiledAfter(events[..|events| - 1])
  }

  /**
   * The compile time: at the latest compile-end that has a compile-start
   * before it, its time minus that of the last such compile-start.
   */
  function CompileTimeOf(events: seq<FunctionEvent>): Option<int>
    decreases |events|
  {
    if events == [] then None
    else
      var prev, e := events[..|events| - 1], events[|events| - 1];
      if !e.CompileEnd? then CompileTimeOf(prev)
      else
        match LastCompileStart(prev)
        case Some(s) => Some(e.at - s.at)
        case None => CompileTimeOf(prev)
  }

  /** A record's flags say what its own event history says. */
  ghost predicate Summarizes(r: FunctionInsights) {
    && r.isCompiled == CompiledAfter(r.events)
    && (r.wasDeoptimized <==> exists i :: 0 <= i < |r.events| && r.events[i].Deoptimize?)
    && r.compileTime == CompileTimeOf(r.events)
  }

  ghost predicate AllSummarized(st: Store) {
    forall i :: 0 <= i < |st.records| ==> Summarizes(st.records[i])
  }

  // ----- one line -----

  datatype LineKind = ScriptLine | LazyCompileLine | OptimizedLine | DeoptLine | OtherLine

  /** The four record kinds, told apart by prefix in the order the source tests them. */
  function KindOf(line: string): LineKind {
    if StartsWith(line, "code-creation,Script,11") then ScriptLine
    else if StartsWith(line, "code-creation,LazyCompile,11") then LazyCompileLine
    else if StartsWith(line, "code-creation,LazyCompile,0") then OptimizedLine
    else if StartsWith(line, "code-deopt") then DeoptLine
    else OtherLine
  }

  /**
   * The source does not throw on this line: a code-creation line has a
   * seventh field with a space in it, and when that field names a new site,
   * neither its line nor its column is below zero (a VS Code `Position`
   * throws then; NaN passes); a code-deopt line whose address is known has
   * at least eight fields.
   */
  predicate LineOk(st: Store, line: string) {
    var f := Split(line, ',');
    match KindOf(line)
    case OtherLine => true
    case DeoptLine => |f| >= 4 && f[3] in st.byCompiled ==> |f| >= 8
    case _ => |f| >= 7 && ' ' in f[6] && SiteOk(st, f[6])
  }

  /** A site seen before is reused; a new one must not have a line or a column below zero. */
  predicate SiteOk(st: Store, source: string)
    requires ' ' in source
  {
    var loc := ParseFullLocation(source, false);
    loc.fullLocation !in st.byLocation ==> !BelowZero(loc.line) && !BelowZero(loc.column)
  }

  /** The new record for a location: no events, not compiled, not deoptimized. */
  function NewRecord(loc: Location): FunctionInsights {
    FunctionInsights(loc.name, Range(Position(loc.line, loc.column), Position(loc.line, AddInt(loc.column, |loc.name|))),
                     [], false, false, None)
  }

  /**
   * `createFunctionInsights`: the record for the source's declaration site,
   * created, filed under its file name and indexed by its location when the
   * site is new. Returns the store and the record's position.
   */
  function Create(st: Store, source: string): (res: (Store, nat))
    requires Indexed(st) && ' ' in source
    ensures Indexed(res.0) && res.1 < |res.0.records|
    ensures var loc := ParseFullLocation(source, false);
      && res.0.byCompiled == st.byCompiled
      && (loc.fullLocation in st.byLocation ==> res == (st, st.byLocation[loc.fullLocation]))
      && (loc.fullLocation !in st.byLocation ==>
            && res.1 == |st.records|
            && res.0.records == st.records + [NewRecord(loc)]
            && res.0.byLocation == st.byLocation[loc.fullLocation := res.1]
            && res.0.files == st.files[loc.filename := (if loc.filename in st.files then st.files[loc.filename] else []) + [res.1]])
  {
    var loc := ParseFullLocation(source, false);
    if loc.fullLocation in st.byLocation then (st, st.byLocation[loc.fullLocation])
    else
      var n := |st.records|;
      var list := if loc.filename in st.files then st.files[loc.filename] else [];
      (Store(st.records + [NewRecord(loc)], st.files[loc.filename := list + [n]],
             st.byLocation[loc.fullLocation := n], st.byCompiled), n)
  }

  /** Appends an event to a record. */
  function AddEvent(st: Store, i: nat, e: FunctionEvent): (r: Store)
    requires i < |st.records|
    ensures |r.records| == |st.records| && r.files == st.files
    ensures r.byLocation == st.byLocation && r.byCompiled == st.byCompiled
  {
    st.(records := st.records[i := st.records[i].(events := st.records[i].events + [e])])
  }

  /** The event a line records: each kind reads its own fields. */
  function EventOf(line: string): FunctionEvent {
    var f := Split(line, ',');
    match KindOf(line)
    case ScriptLine => Parse(ToNumber(Field(f, 3)), MemoryArea(Field(f, 4), ToNumber(Field(f, 5))))
    case LazyCompileLine => CompileStart(ToNumber(Field(f, 3)))
    case OptimizedLine => CompileEnd(ToNumber(Field(f, 3)), MemoryArea(Field(f, 4), ToNumber(Field(f, 5))))
    case _ => Deoptimize(ToNumber(Field(f, 1)), OptionalField(f, 8), Slice(Field(f, 7), 1, -1))
  }

  /** The record a code-creation line is about, before the line is applied. */
  function TargetOf(st: Store, line: string): nat
    requires Indexed(st) && LineOk(st, line)
    requires KindOf(line) in {ScriptLine, LazyCompileLine, OptimizedLine}
  {
    Create(st, Split(line, ',')[6]).1
  }

  /**
   * The optimized-code update of record `i`: compile time from the last
   * compile-start, compiled, the compile-end appended, and the code address
   * leading to the record.
   */
  function MarkCompiled(st: Store, i: nat, time: int, address: string, e: FunctionEvent): (r: Store)
    requires Indexed(st) && i < |st.records|
    ensures Indexed(r) && |r.records| == |st.records|
  {
    var rec := st.records[i];
    var compileTime :=
      match LastCompileStart(rec.events)
      case Some(start) => Some(time - start.at)
      case None => rec.compileTime;
    var rec' := rec.(compileTime := compileTime, isCompiled := true, events := rec.events + [e]);
    st.(records := st.records[i := rec'], byCompiled := st.byCompiled[address := i])
  }

  /** One line of the log applied to the state of the run. */
  function Step(st: Store, line: string): (r: Store)
    requires Indexed(st) && LineOk(st, line)
    ensures Indexed(r)
    ensures |r.records| >= |st.records|
    ensures KindOf(line) == OtherLine ==> r == st
  {
    var f := Split(line, ',');
    match KindOf(line)
    case OtherLine => st
    case ScriptLine =>
      var c := Create(st, f[6]);
      AddEvent(c.0, c.1, EventOf(line))
    case LazyCompileLine =>
      var c := Create(st, f[6]);
      AddEvent(c.0, c.1, EventOf(line))
    case OptimizedLine =>
      var c := Create(st, f[6]);
      MarkCompiled(c.0, c.1, ToNumber(f[3]), f[4], EventOf(line))
    case DeoptLine =>
      if |f| < 4 || f[3] !in st.byCompiled then st
      else
        var i := st.byCompiled[f[3]];
        var rec := st.records[i];
        st.(records := st.records[i := rec.(isCompiled := false, wasDeoptimized := true,
                                            events := rec.events + [EventOf(line)])])
  }

  // ----- a whole run -----

  /** The source throws on none of the lines. */
  predicate RunOk(st: Store, lines: seq<string>)
    requires Indexed(st)
    decreases |lines|, 0
  {
    lines == [] ||
    (RunOk(st, lines[..|lines| - 1]) && LineOk(Run(st, lines[..|lines| - 1]), lines[|lines| - 1]))
  }

  /** The lines applied one after the other, in log order. */
  function Run(st: Store, lines: seq<string>): (r: Store)
    requires Indexed(st) && RunOk(st, lines)
    ensures Indexed(r)
    decreases |lines|, 1
  {
    if lines == [] then st else Step(Run(st, lines[..|lines| - 1]), lines[|lines| - 1])
  }

  lemma RunOkPrefix(st: Store, lines: seq<string>, i: nat)
    requires Indexed(st) && RunOk(st, lines) && i < |lines|
    ensures RunOk(st, lines[..i]) && LineOk(Run(st, lines[..i]), lines[i])
    ensures lines[..i + 1][..i] == lines[..i] && RunOk(st, lines[..i + 1])
    ensures Run(st, lines[..i + 1]) == Step(Run(st, lines[..i]), lines[i])
    decreases |lines|
  {
    assert lines[..i + 1][..i] == lines[..i];
    if i + 1 < |lines| {
      var pre := lines[..|lines| - 1];
      assert pre[..i] == lines[..i] && pre[..i + 1] == lines[..i + 1];
      RunOkPrefix(st, pre, i);
    } else {
      assert lines[..i + 1] == lines;
    }
  }

  // ----- properties of one line -----

  /** A new record has consistent flags. */
  lemma NewRecordSummarized(loc: Location)
    ensures Summarizes(NewRecord(loc))
  {
  }

  /** Creating a record keeps every index in shape. */
  lemma CreateConsistent(st: Store, source: string)
    requires Consistent(st) && ' ' in source
    ensures Consistent(Create(st, source).0)
  {
    var loc := ParseFullLocation(source, false);
    if loc.fullLocation !in st.byLocation {
      AddRecordConsistent(st, NewRecord(loc), loc.filename, loc.fullLocation);
    }
  }

  /** Filing a new record under a file name and a new location keeps every index in shape. */
  lemma AddRecordConsistent(st: Store, r: FunctionInsights, fn: string, key: string)
    requires Consistent(st) && key !in st.byLocation
    ensures var n := |st.records|;
      Consistent(Store(st.records + [r], st.files[fn := (if fn in st.files then st.files[fn] else []) + [n]],
                       st.byLocation[key := n], st.byCompiled))
  {
    AddRecordFiles(st, fn);
    AddRecordSited(st, key);
  }

  /** Appending index `n` to a file's list keeps every index in exactly one place and files `n`. */
  lemma AddRecordFiles(st: Store, fn: string)
    requires Consistent(st)
    ensures var n := |st.records|;
      var files := st.files[fn := (if fn in st.files then st.files[fn] else []) + [n]];
      && (forall f, j :: f in files && 0 <= j < |files[f]| ==> files[f][j] < n + 1)
      && (forall f, j, g, k ::
            f in files && g in files && 0 <= j < |files[f]| && 0 <= k < |files[g]| && files[f][j] == files[g][k]
            ==> f == g && j == k)
      && (forall i :: 0 <= i < n + 1 ==> Filed(files, i))
  {
    var n := |st.records|;
    var list := if fn in st.files then st.files[fn] else [];
    var files := st.files[fn := list + [n]];
    assert files[fn] == list + [n];
    assert forall j :: 0 <= j < |list| ==> list[j] == st.files[fn][j];
    forall f, j | f in files && 0 <= j < |files[f]|
      ensures files[f][j] < n + 1
      ensures files[f][j] == n <==> f == fn && j == |list|
    {
      if f != fn || j < |list| {
        assert files[f][j] == st.files[f][j];
      }
    }
    forall i | 0 <= i < n + 1
      ensures Filed(files, i)
    {
      if i == n {
        assert files[fn][|list|] == n;
      } else {
        assert Filed(st.files, i);
        var f, j :| f in st.files && 0 <= j < |st.files[f]| && st.files[f][j] == i;
        if f == fn { assert files[fn][j] == list[j]; } else { assert files[f][j] == i; }
      }
    }
  }

  /** Indexing the new record under a new location keeps every record sited, once. */
  lemma AddRecordSited(st: Store, key: string)
    requires Consistent(st) && key !in st.byLocation
    ensures var n := |st.records|;
      var byLocation := st.byLocation[key := n];
      && (forall k :: k in byLocation ==> byLocation[k] < n + 1)
      && (forall k1, k2 :: k1 in byLocation && k2 in byLocation && byLocation[k1] == byLocation[k2] ==> k1 == k2)
      && (forall i :: 0 <= i < n + 1 ==> Sited(byLocation, i))
  {
    var n := |st.records|;
    var byLocation := st.byLocation[key := n];
    forall i | 0 <= i < n + 1
      ensures Sited(byLocation, i)
    {
      if i == n {
        assert byLocation[key] == n;
      } else {
        assert Sited(st.byLocation, i);
        var k :| k in st.byLocation && st.byLocation[k] == i;
        assert byLocation[k] == i;
      }
    }
  }

  /** Every kind of line keeps the indices in shape: the records and the file lists stay in one-to-one correspondence. */
  lemma StepConsistent(st: Store, line: string)
    requires Consistent(st) && LineOk(st, line)
    ensures Consistent(Step(st, line))
  {
    if KindOf(line) in {ScriptLine, LazyCompileLine, OptimizedLine} {
      CreateConsistent(st, Split(line, ',')[6]);
      var c := Create(st, Split(line, ',')[6]);
      var st' := Step(st, line);
      assert |st'.records| == |c.0.records| && st'.files == c.0.files && st'.byLocation == c.0.byLocation;
    }
  }

  lemma CompiledAfterPlain(events: seq<FunctionEvent>, e: FunctionEvent)
    requires !e.CompileEnd? && !e.Deoptimize?
    ensures CompiledAfter(events + [e]) == CompiledAfter(events)
    ensures CompileTimeOf(events + [e]) == CompileTimeOf(events)
  {
    assert (events + [e])[..|events|] == events;
  }

  /** Appending an event keeps a summarized record summarized when the flags follow the code's update rule. */
  lemma SummarizedAppend(r: FunctionInsights, e: FunctionEvent, r': FunctionInsights)
    requires Summarizes(r)
    requires r'.events == r.events + [e]
    requires !e.CompileEnd? && !e.Deoptimize? ==> r'.isCompiled == r.isCompiled && r'.wasDeoptimized == r.wasDeoptimized && r'.compileTime == r.compileTime
    requires e.Deoptimize? ==> !r'.isCompiled && r'.wasDeoptimized && r'.compileTime == r.compileTime
    requires e.CompileEnd? ==> r'.isCompiled && r'.wasDeoptimized == r.wasDeoptimized
    requires e.CompileEnd? ==> r'.compileTime == match LastCompileStart(r.events)
                                                  case Some(s) => Some(e.at - s.at)
                                                  case None => r.compileTime
    ensures Summarizes(r')
  {
    var ev := r.events + [e];
    assert ev[..|r.events|] == r.events;
    assert forall i :: 0 <= i < |r.events| ==> ev[i] == r.events[i];
    if !e.CompileEnd? && !e.Deoptimize? {
      CompiledAfterPlain(r.events, e);
    }
  }

  /** Every kind of line keeps every record's flags in line with its event history. */
  lemma StepSummarized(st: Store, line: string)
    requires Indexed(st) && AllSummarized(st) && LineOk(st, line)
    ensures AllSummarized(Step(st, line))
  {
    var f := Split(line, ',');
    match KindOf(line)
    case OtherLine =>
    case DeoptLine =>
      if |f| >= 4 && f[3] in st.byCompiled {
        var st' := Step(st, line);
        var i := st.byCompiled[f[3]];
        SummarizedAppend(st.records[i], EventOf(line), st'.records[i]);
        assert st'.records == st.records[i := st'.records[i]];
        UpdateOneSummarized(st, i, st'.records[i]);
      }
    case OptimizedLine =>
      var c := Create(st, f[6]);
      CreateSummarized(st, f[6]);
      StepOptimizedIs(st, line);
      var time := ToNumber(f[3]);
      MarkCompiledSummarized(c.0, c.1, time, f[4], CompileEnd(time, MemoryArea(f[4], ToNumber(f[5]))));
    case _ =>
      var c := Create(st, f[6]);
      CreateSummarized(st, f[6]);
      AddEventSummarized(c.0, c.1, EventOf(line));
  }

  /** Appending a parse or compile-start event keeps every record summarized. */
  lemma AddEventSummarized(st: Store, i: nat, e: FunctionEvent)
    requires AllSummarized(st) && i < |st.records| && !e.CompileEnd? && !e.Deoptimize?
    ensures AllSummarized(AddEvent(st, i, e))
  {
    var r := AddEvent(st, i, e).records[i];
    SummarizedAppend(st.records[i], e, r);
    UpdateOneSummarized(st, i, r);
  }

  /** Marking a record compiled with its compile-end event keeps every record summarized. */
  lemma MarkCompiledSummarized(st: Store, i: nat, time: int, address: string, e: FunctionEvent)
    requires Indexed(st) && AllSummarized(st) && i < |st.records| && e.CompileEnd? && e.at == time
    ensures AllSummarized(MarkCompiled(st, i, time, address, e))
  {
    var st' := MarkCompiled(st, i, time, address, e);
    SummarizedAppend(st.records[i], e, st'.records[i]);
    assert st'.records == st.records[i := st'.records[i]];
    UpdateOneSummarized(st, i, st'.records[i]);
    assert st' == st.(records := st.records[i := st'.records[i]], byCompiled := st'.byCompiled);
  }

  /** A new record starts summarized, and old records are untouched by creation. */
  lemma CreateSummarized(st: Store, source: string)
    requires Indexed(st) && AllSummarized(st) && ' ' in source
    ensures AllSummarized(Create(st, source).0)
  {
    var loc := ParseFullLocation(source, false);
    if loc.fullLocation !in st.byLocation {
      NewRecordSummarized(loc);
    }
  }

  /** Replacing one record by a summarized one keeps every record summarized. */
  lemma UpdateOneSummarized(st: Store, i: nat, r: FunctionInsights)
    requires AllSummarized(st) && i < |st.records| && Summarizes(r)
    ensures AllSummarized(st.(records := st.records[i := r]))
  {
  }

  /**
   * A code-creation line appends exactly one event, stamped with the line's
   * timestamp, to exactly one record: the existing record of its declaration
   * site, or a new one. Records that existed keep their name and name range.
   */
  lemma StepAppendsOneEvent(st: Store, line: string)
    requires Indexed(st) && LineOk(st, line)
    requires KindOf(line) in {ScriptLine, LazyCompileLine, OptimizedLine}
    ensures var st', i := Step(st, line), TargetOf(st, line);
      var loc := ParseFullLocation(Split(line, ',')[6], false);
      && i < |st'.records|
      && EventOf(line).at == ToNumber(Split(line, ',')[3])
      && (loc.fullLocation in st.byLocation ==> i == st.byLocation[loc.fullLocation] && |st'.records| == |st.records|)
      && (loc.fullLocation !in st.byLocation ==>
            i == |st.records| && |st'.records| == |st.records| + 1
            && st'.records[i].name == loc.name && st'.records[i].nameLocation == NewRecord(loc).nameLocation)
      && st'.records[i].events == (if i < |st.records| then st.records[i].events else []) + [EventOf(line)]
      && (forall j :: 0 <= j < |st.records| && j != i ==> st'.records[j] == st.records[j])
      && (forall j :: 0 <= j < |st.records| ==>
            st'.records[j].name == st.records[j].name && st'.records[j].nameLocation == st.records[j].nameLocation)
      && st'.byLocation[loc.fullLocation] == i
      && (forall k :: k in st.byLocation ==> k in st'.byLocation && st'.byLocation[k] == st.byLocation[k])
  {
    var f := Split(line, ',');
    var c := Create(st, f[6]);
    var st' := Step(st, line);
    if KindOf(line) == OptimizedLine {
      StepOptimizedIs(st, line);
    }
    assert st'.records == c.0.records[c.1 := st'.records[c.1]];
    CreateThenAppend(st, f[6], st', EventOf(line));
  }

  /**
   * Creating (or finding) the record of a declaration site and then
   * appending an event to it, whatever else changes in that record.
   */
  lemma CreateThenAppend(st: Store, source: string, st': Store, e: FunctionEvent)
    requires Indexed(st) && ' ' in source
    requires var c := Create(st, source);
      && |st'.records| == |c.0.records| && st'.byLocation == c.0.byLocation
      && st'.records == c.0.records[c.1 := st'.records[c.1]]
      && st'.records[c.1].events == c.0.records[c.1].events + [e]
      && st'.records[c.1].name == c.0.records[c.1].name
      && st'.records[c.1].nameLocation == c.0.records[c.1].nameLocation
    ensures var i, loc := Create(st, source).1, ParseFullLocation(source, false);
      && i < |st'.records|
      && (loc.fullLocation in st.byLocation ==> i == st.byLocation[loc.fullLocation] && |st'.records| == |st.records|)
      && (loc.fullLocation !in st.byLocation ==>
            i == |st.records| && |st'.records| == |st.records| + 1
            && st'.records[i].name == loc.name && st'.records[i].nameLocation == NewRecord(loc).nameLocation)
      && st'.records[i].events == (if i < |st.records| then st.records[i].events else []) + [e]
      && (forall j :: 0 <= j < |st.records| && j != i ==> st'.records[j] == st.records[j])
      && (forall j :: 0 <= j < |st.records| ==>
            st'.records[j].name == st.records[j].name && st'.records[j].nameLocation == st.records[j].nameLocation)
      && st'.byLocation[loc.fullLocation] == i
      && (forall k :: k in st.byLocation ==> k in st'.byLocation && st'.byLocation[k] == st.byLocation[k])
  {
  }

  /**
   * The record `after` is `before` marked compiled by a compile-end at
   * `time`: compiled, deoptimized as before, and with the compile time
   * measured from the last compile-start when there is one (kept otherwise).
   */
  ghost predicate CompiledFrom(after: FunctionInsights, before: FunctionInsights, time: int) {
    && after.isCompiled
    && after.wasDeoptimized == before.wasDeoptimized
    && (LastCompileStart(before.events).Some? ==>
          after.compileTime == Some(time - LastCompileStart(before.events).value.at))
    && (LastCompileStart(before.events).None? ==> after.compileTime == before.compileTime)
  }

  /**
   * An optimized-code line: the compile time becomes the line's timestamp
   * minus that of the last compile-start already recorded (unchanged if there
   * is none), the record is compiled, and the code address now leads to it.
   */
  lemma StepCompileEnd(st: Store, line: string)
    requires Indexed(st) && LineOk(st, line) && KindOf(line) == OptimizedLine
    ensures var st', i, f := Step(st, line), TargetOf(st, line), Split(line, ',');
      && i < |st'.records|
      && CompiledFrom(st'.records[i], Create(st, f[6]).0.records[i], ToNumber(f[3]))
      && f[4] in st'.byCompiled && st'.byCompiled[f[4]] == i
      && (forall a :: a in st.byCompiled && a != f[4] ==> a in st'.byCompiled && st'.byCompiled[a] == st.byCompiled[a])
  {
    var f := Split(line, ',');
    var created := Create(st, f[6]).0;
    StepOptimizedIs(st, line);
    MarkCompiledEffect(st, Step(st, line), created, TargetOf(st, line), ToNumber(f[3]), f[4],
                       CompileEnd(ToNumber(f[3]), MemoryArea(f[4], ToNumber(f[5]))));
  }

  /** What `MarkCompiled` does to the record it marks and to the code-address index. */
  lemma MarkCompiledEffect(st: Store, st': Store, created: Store, i: nat, time: int, address: string, e: FunctionEvent)
    requires Indexed(created) && i < |created.records| && created.byCompiled == st.byCompiled
    requires st' == MarkCompiled(created, i, time, address, e)
    ensures && i < |st'.records|
            && CompiledFrom(st'.records[i], created.records[i], time)
            && address in st'.byCompiled && st'.byCompiled[address] == i
            && (forall a :: a in st.byCompiled && a != address ==> a in st'.byCompiled && st'.byCompiled[a] == st.byCompiled[a])
  {
  }

  /** An optimized-code line is `MarkCompiled` on the record `createFunctionInsights` returns. */
  lemma StepOptimizedIs(st: Store, line: string)
    requires Indexed(st) && LineOk(st, line) && KindOf(line) == OptimizedLine
    ensures var f := Split(line, ',');
      var c := Create(st, f[6]);
      Step(st, line) == MarkCompiled(c.0, c.1, ToNumber(f[3]), f[4], CompileEnd(ToNumber(f[3]), MemoryArea(f[4], ToNumber(f[5]))))
  {
  }

  /**
   * A code-deopt line whose address leads to no record changes nothing; one
   * whose address is known marks that record deoptimized and no longer
   * compiled, and appends a deoptimization from the source position without
   * its enclosing brackets, with the ninth field as its reason, or no reason
   * when the line has only eight fields.
   */
  lemma StepDeopt(st: Store, line: string)
    requires Indexed(st) && LineOk(st, line) && KindOf(line) == DeoptLine
    ensures var st', f := Step(st, line), Split(line, ',');
      && (|f| < 4 || f[3] !in st.byCompiled ==> st' == st)
      && (|f| >= 4 && f[3] in st.byCompiled ==>
            var i := st.byCompiled[f[3]];
            && !st'.records[i].isCompiled && st'.records[i].wasDeoptimized
            && st'.records[i].compileTime == st.records[i].compileTime
            && st'.records[i].events == st.records[i].events + [Deoptimize(ToNumber(f[1]), if |f| > 8 then Some(f[8]) else None, Slice(f[7], 1, -1))]
            && (forall j :: 0 <= j < |st.records| && j != i ==> st'.records[j] == st.records[j])
            && st'.files == st.files && st'.byLocation == st.byLocation && st'.byCompiled == st.byCompiled)
  {
  }

  // ----- properties of a whole run -----

  /** The empty state is in shape. */
  lemma EmptyConsistent()
    ensures Consistent(Empty()) && AllSummarized(Empty())
  {
  }

  /**
   * After any run from an empty state, records and file lists correspond one
   * to one, every record has one declaration site, and every record's flags
   * follow from its event history.
   */
  lemma {:induction false} RunInvariants(lines: seq<string>)
    requires RunOk(Empty(), lines)
    ensures Consistent(Run(Empty(), lines)) && AllSummarized(Run(Empty(), lines))
    decreases |lines|
  {
    if lines == [] {
      EmptyConsistent();
    } else {
      var pre := lines[..|lines| - 1];
      RunInvariants(pre);
      StepConsistent(Run(Empty(), pre), lines[|lines| - 1]);
      StepSummarized(Run(Empty(), pre), lines[|lines| - 1]);
    }
  }

  /** The records of the run, in the order of a file's list. */
  function Resolve(records: seq<FunctionInsights>, indices: seq<nat>): (r: seq<FunctionInsights>)
    requires forall j :: 0 <= j < |indices| ==> indices[j] < |records|
    ensures |r| == |indices| && forall j :: 0 <= j < |indices| ==> r[j] == records[indices[j]]
    decreases |indices|
  {
    if indices == [] then [] else Resolve(records, indices[..|indices| - 1]) + [records[indices[|indices| - 1]]]
  }

  /** The insight store shared by the extension: the file index and the records it leads to. */
  class InsightStore {
    var records: seq<FunctionInsights>
    var files: map<string, seq<nat>>

    /** Every file list leads to existing records. */
    ghost predicate Valid()
      reads this
    {
      forall f, j :: f in files && 0 <= j < |files[f]| ==> files[f][j] < |records|
    }

    constructor ()
      ensures Valid() && records == [] && files == map[]
    {
      records, files := [], map[];
    }

    /**
     * `analyze`, over the lines of the log. It starts from an empty file
     * index and from fresh location and address maps, so nothing of an
     * earlier run is left; what it builds is the run of the lines from the
     * empty state.
     */
    method Analyze(lines: seq<string>)
      requires RunOk(Empty(), lines)
      modifies this
      ensures Valid()
      ensures records == Run(Empty(), lines).records && files == Run(Empty(), lines).files
    {
      files := map[];
      records := [];
      var byLocation: map<string, nat> := map[];
      var byCompiled: map<string, nat> := map[];
      var i := 0;
      while i < |lines|
        invariant 0 <= i <= |lines|
        invariant RunOk(Empty(), lines[..i])
        invariant Store(records, files, byLocation, byCompiled) == Run(Empty(), lines[..i])
      {
        RunOkPrefix(Empty(), lines, i);
        byLocation, byCompiled := ApplyLine(lines[i], byLocation, byCompiled);
        i := i + 1;
      }
      assert lines[..i] == lines;
      RunInvariants(lines);
    }

    /** One pass of the loop of `analyze`: the line applied to the records and the three indices. */
    method ApplyLine(line: string, byLocation: map<string, nat>, byCompiled: map<string, nat>)
      returns (byLocation': map<string, nat>, byCompiled': map<string, nat>)
      requires Indexed(Store(records, files, byLocation, byCompiled))
      requires LineOk(Store(records, files, byLocation, byCompiled), line)
      modifies this
      ensures Store(records, files, byLocation', byCompiled')
              == Step(Store(old(records), old(files), byLocation, byCompiled), line)
    {
      byLocation', byCompiled' := byLocation, byCompiled;
      if StartsWith(line, "code-creation,Script,11") || StartsWith(line, "code-creation,LazyCompile,11") {
        byLocation' := RecordCreation(line, byLocation, byCompiled);
      } else if StartsWith(line, "code-creation,LazyCompile,0") {
        byLocation', byCompiled' := RecordCompileEnd(Split(line, ','), byLocation, byCompiled);
        StepOptimizedIs(Store(old(records), old(files), byLocation, byCompiled), line);
      } else if StartsWith(line, "code-deopt") {
        RecordDeopt(line, byLocation, byCompiled);
      }
    }

    /** The parse and compile-start branches of `analyze`. */
    method RecordCreation(line: string, byLocation: map<string, nat>, byCompiled: map<string, nat>)
      returns (byLocation': map<string, nat>)
      requires Indexed(Store(records, files, byLocation, byCompiled))
      requires LineOk(Store(records, files, byLocation, byCompiled), line)
      requires KindOf(line) == ScriptLine || KindOf(line) == LazyCompileLine
      modifies this
      ensures Store(records, files, byLocation', byCompiled)
              == Step(Store(old(records), old(files), byLocation, byCompiled), line)
    {
      var f := Split(line, ',');
      var idx;
      byLocation', idx := CreateFunctionInsights(f[6], byLocation, byCompiled);
      var rec := records[idx];
      if StartsWith(line, "code-creation,Script,11") {
        records := records[idx := rec.(events := rec.events + [Parse(ToNumber(f[3]), MemoryArea(f[4], ToNumber(f[5])))])];
      } else {
        records := records[idx := rec.(events := rec.events + [CompileStart(ToNumber(f[3]))])];
      }
    }

    /**
     * The optimized-code branch of `analyze`, on the fields of the line: the
     * record of the source, updated as `MarkCompiled` says.
     */
    method RecordCompileEnd(f: seq<string>, byLocation: map<string, nat>, byCompiled: map<string, nat>)
      returns (byLocation': map<string, nat>, byCompiled': map<string, nat>)
      requires Indexed(Store(records, files, byLocation, byCompiled))
      requires |f| >= 7 && ' ' in f[6]
      modifies this
      ensures var c := Create(Store(old(records), old(files), byLocation, byCompiled), f[6]);
              Store(records, files, byLocation', byCompiled')
              == MarkCompiled(c.0, c.1, ToNumber(f[3]), f[4], CompileEnd(ToNumber(f[3]), MemoryArea(f[4], ToNumber(f[5]))))
    {
      var idx;
      byLocation', idx := CreateFunctionInsights(f[6], byLocation, byCompiled);
      ghost var created := Store(records, files, byLocation', byCompiled);
      var rec := records[idx];
      var time, address := ToNumber(f[3]), f[4];
      var compileTime := rec.compileTime;
      var compileStart := FindLastScan(rec.events, IsCompileStart);
      FindLastCompileStart(rec.events);
      if compileStart.Some? {
        compileTime := Some(time - compileStart.value.at);
      }
      var event := CompileEnd(time, MemoryArea(address, ToNumber(f[5])));
      records := records[idx := rec.(compileTime := compileTime, isCompiled := true, events := rec.events + [event])];
      byCompiled' := byCompiled[address := idx];
      assert Store(records, files, byLocation', byCompiled') == MarkCompiled(created, idx, time, address, event);
    }

    /** The code-deopt branch of `analyze`. */
    method RecordDeopt(line: string, byLocation: map<string, nat>, byCompiled: map<string, nat>)
      requires Indexed(Store(records, files, byLocation, byCompiled))
      requires LineOk(Store(records, files, byLocation, byCompiled), line)
      requires KindOf(line) == DeoptLine
      modifies this
      ensures Store(records, files, byLocation, byCompiled)
              == Step(Store(old(records), old(files), byLocation, byCompiled), line)
    {
      var f := Split(line, ',');
      if |f| >= 4 && f[3] in byCompiled {
        var idx := byCompiled[f[3]];
        records := records[idx := records[idx].(isCompiled := false)];
        records := records[idx := records[idx].(wasDeoptimized := true)];
        var rec := records[idx];
        records := records[idx := rec.(events := rec.events + [Deoptimize(ToNumber(f[1]), OptionalField(f, 8), Slice(f[7], 1, -1))])];
      }
    }

    /**
     * `createFunctionInsights`: finds the record of the source's declaration
     * site, or creates it, files it under its file name and indexes it.
     */
    method CreateFunctionInsights(source: string, byLocation: map<string, nat>, byCompiled: map<string, nat>)
      returns (byLocation': map<string, nat>, index: nat)
      requires ' ' in source && Indexed(Store(records, files, byLocation, byCompiled))
      modifies this
      ensures (Store(records, files, byLocation', byCompiled), index)
              == Create(Store(old(records), old(files), byLocation, byCompiled), source)
    {
      var loc := ParseFullLocation(source, false);
      byLocation' := byLocation;
      if loc.fullLocation in byLocation {
        index := byLocation[loc.fullLocation];
      } else {
        index := |records|;
        var fileInsights := if loc.filename in files then files[loc.filename] else [];
        records := records + [NewRecord(loc)];
        files := files[loc.filename := fileInsights + [index]];
        byLocation' := byLocation[loc.fullLocation := index];
      }
    }

    /** `getInsights`: the file's records in first-seen order, or nothing for a file never seen. */
    function GetInsights(file: string): (r: Option<FileInsights>)
      reads this
      requires Valid()
      ensures r.Some? <==> file in files
      ensures r.Some? ==> r.value.filename == file && |r.value.functions| == |files[file]|
                          && forall j :: 0 <= j < |files[file]| ==> r.value.functions[j] == records[files[file][j]]
    {
      if file in files then Some(FileInsights(file, Resolve(records, files[file]))) else None
    }
  }

  // ----- getOptimizedCode -----

  /**
   * What the scan of the optimized-code log collects from `lines` on, given
   * whether it is inside a block: outside, a line starting with the address
   * opens a block and is dropped, other lines are dropped; inside, every
   * line is kept and the empty line closes the block after being kept.
   */
  function Collect(lines: seq<string>, address: string, scanning: bool): seq<string>
    decreases |lines|
  {
    if lines == [] then []
    else if !scanning then Collect(lines[1..], address, StartsWith(lines[0], address))
    else [lines[0]] + Collect(lines[1..], address, lines[0] != "")
  }

  /** `getOptimizedCode`, over the lines of the optimized-code log. */
  method GetOptimizedCode(memoryLocation: string, lines: seq<string>) returns (result: seq<string>)
    ensures result == Collect(lines, memoryLocation, false)
  {
    result := [];
    var scan := false;
    var i := 0;
    while i < |lines|
      invariant 0 <= i <= |lines|
      invariant result + Collect(lines[i..], memoryLocation, scan) == Collect(lines, memoryLocation, false)
    {
      var optLine := lines[i];
      assert lines[i..][1..] == lines[i + 1..];
      if !scan {
        if !StartsWith(optLine, memoryLocation) {
          i := i + 1;
          continue;
        }
        scan := true;
        i := i + 1;
        continue;
      }
      if scan {
        if optLine == "" { scan := false; }
      }
      result := result + [optLine];
      i := i + 1;
    }
  }

  /** `xs` is `ys` with some of its elements left out, the rest kept in order. */
  ghost predicate Subsequence<T>(xs: seq<T>, ys: seq<T>)
    decreases |ys|
  {
    if ys == [] then xs == []
    else Subsequence(xs, ys[1..]) || (xs != [] && xs[0] == ys[0] && Subsequence(xs[1..], ys[1..]))
  }

  /** Everything collected comes from the log, in log order, and no line is copied twice. */
  lemma {:induction false} CollectSubsequence(lines: seq<string>, address: string, scanning: bool)
    ensures Subsequence(Collect(lines, address, scanning), lines)
    ensures |Collect(lines, address, scanning)| <= |lines|
    ensures forall x :: x in Collect(lines, address, scanning) ==> x in lines
    decreases |lines|
  {
    if lines != [] {
      CollectSubsequence(lines[1..], address, if scanning then lines[0] != "" else StartsWith(lines[0], address));
    }
  }

  /** When no line starts with the address, nothing is collected. */
  lemma {:induction false} CollectNoMatch(lines: seq<string>, address: string)
    requires forall i :: 0 <= i < |lines| ==> !StartsWith(lines[i], address)
    ensures Collect(lines, address, false) == []
    decreases |lines|
  {
    if lines != [] {
      CollectNoMatch(lines[1..], address);
    }
  }

  /**
   * A block is its header line, dropped, then its lines up to and including
   * the empty line that ends it, all kept in order; the scan then looks for
   * the next header.
   */
  lemma {:induction false} CollectBlock(header: string, block: seq<string>, rest: seq<string>, address: string)
    requires StartsWith(header, address)
    requires forall i :: 0 <= i < |block| ==> block[i] != ""
    ensures Collect([header] + block + [""] + rest, address, false) == block + [""] + Collect(rest, address, false)
  {
    var all := [header] + block + [""] + rest;
    assert all[1..] == block + [""] + rest;
    CollectInside(block, rest, address);
  }

  lemma {:induction false} CollectInside(block: seq<string>, rest: seq<string>, address: string)
    requires forall i :: 0 <= i < |block| ==> block[i] != ""
    ensures Collect(block + [""] + rest, address, true) == block + [""] + Collect(rest, address, false)
    decreases |block|
  {
    var all := block + [""] + rest;
    if block == [] {
      assert all == [""] + rest;
      assert all[1..] == rest;
    } else {
      assert all[0] == block[0] && all[1..] == block[1..] + [""] + rest;
      CollectInside(block[1..], rest, address);
      assert [block[0]] + (block[1..] + [""] + Collect(rest, address, false)) == block + [""] + Collect(rest, address, false);
    }
  }
}
