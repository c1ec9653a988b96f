/**
 * The helpers of src/util.ts: the line reader over a chunked stream, the
 * duration formatter and the backward search.
 */
module Util {
  import opened Optional
  import opened JsStrings

  // ----- byLine -----

  /** All chunks of a stream, one after the other. */
  function Concat(chunks: seq<string>): string
    decreases |chunks|
  {
    if chunks == [] then "" else Concat(chunks[..|chunks| - 1]) + chunks[|chunks| - 1]
  }

  /** Each line followed by a newline, one after the other. */
  function Terminated(lines: seq<string>): string
    decreases |lines|
  {
    if lines == [] then "" else Terminated(lines[..|lines| - 1]) + lines[|lines| - 1] + "\n"
  }

  /** The lines the reader yields for a text: every piece that a newline ends. */
  function Lines(text: string): seq<string> {
    Done(Split(text, '\n'))
  }

  /**
   * The line reader. The stream is the finite sequence of its chunks; the
   * yielded lines are returned in order, together with the carry-over text
   * that the reader holds when the stream ends and never yields.
   */
  method ByLine(chunks: seq<string>) returns (lines: seq<string>, carry: string)
    ensures lines + [carry] == Split(Concat(chunks), '\n')
  {
    lines, carry := [], "";
    var i := 0;
    while i < |chunks|
      invariant 0 <= i <= |chunks|
      invariant lines + [carry] == Split(Concat(chunks[..i]), '\n')
    {
      var pieces := Split(carry + chunks[i], '\n');
      ConcatStep(chunks, i);
      CarryStep(Concat(chunks[..i]), chunks[i], lines, carry);
      carry := pieces[|pieces| - 1];
      lines := lines + pieces[..|pieces| - 1];
      i := i + 1;
    }
    assert chunks[..i] == chunks;
  }

  lemma ConcatStep(chunks: seq<string>, i: nat)
    requires i < |chunks|
    ensures Concat(chunks[..i + 1]) == Concat(chunks[..i]) + chunks[i]
  {
    assert chunks[..i + 1][..i] == chunks[..i];
  }

  /** One chunk of the line reader: the carry absorbs the new chunk and is split again. */
  lemma CarryStep(before: string, chunk: string, lines: seq<string>, carry: string)
    requires lines + [carry] == Split(before, '\n')
    ensures var pieces := Split(carry + chunk, '\n');
      lines + pieces[..|pieces| - 1] + [pieces[|pieces| - 1]] == Split(before + chunk, '\n')
  {
    SplitAppend(before, chunk, '\n');
    LastOf(Split(before, '\n'), lines, carry, Split(carry + chunk, '\n'));
  }

  lemma LastOf(p: seq<string>, lines: seq<string>, carry: string, pieces: seq<string>)
    requires p == lines + [carry] && |pieces| >= 1
    ensures Done(p) == lines && Last(p) == carry
    ensures lines + pieces[..|pieces| - 1] + [pieces[|pieces| - 1]] == lines + pieces
  {
  }

  /** A split, read as lines each ended by the separator followed by the last piece. */
  lemma {:induction false} JoinAsTerminated(p: seq<string>)
    requires |p| >= 1
    ensures Join(p, '\n') == Terminated(Done(p)) + Last(p)
    decreases |p|
  {
    if |p| > 1 {
      JoinAsTerminated(p[1..]);
      TerminatedCons(p[0], Done(p[1..]));
      assert Done(p) == [p[0]] + Done(p[1..]);
    }
  }

  lemma {:induction false} TerminatedCons(x: string, rest: seq<string>)
    ensures Terminated([x] + rest) == x + "\n" + Terminated(rest)
    decreases |rest|
  {
    if rest != [] {
      var r := rest[..|rest| - 1];
      TerminatedCons(x, r);
      assert ([x] + rest)[..|rest|] == [x] + r;
    } else {
      assert [x] + rest == [x];
    }
  }

  /**
   * What the reader yields: no line holds a newline, the lines each ended by
   * a newline followed by the carry give back the whole stream, and the
   * lines depend on the concatenated text only, not on where the chunks
   * were cut.
   */
  lemma ByLineSpec(chunks: seq<string>, lines: seq<string>, carry: string)
    requires lines + [carry] == Split(Concat(chunks), '\n')
    ensures forall i :: 0 <= i < |lines| ==> '\n' !in lines[i]
    ensures '\n' !in carry
    ensures Terminated(lines) + carry == Concat(chunks)
    ensures lines == Lines(Concat(chunks))
  {
    var p := Split(Concat(chunks), '\n');
    SplitJoin(Concat(chunks), '\n');
    JoinAsTerminated(p);
    assert Done(p) == lines && Last(p) == carry;
    forall i | 0 <= i < |lines| ensures '\n' !in lines[i] {
      assert lines[i] == p[i];
    }
  }

  /** Text with no newline yields no line: the unterminated rest is never yielded. */
  lemma NoNewlineNoLines(text: string)
    requires '\n' !in text
    ensures Lines(text) == []
  {
    SplitNoSep(text, '\n');
  }

  /** Text ending in a newline yields every line of it. */
  lemma TerminatedLines(lines: seq<string>)
    requires forall i :: 0 <= i < |lines| ==> '\n' !in lines[i]
    ensures Lines(Terminated(lines)) == lines
  {
    var p := lines + [""];
    forall i | 0 <= i < |p| ensures '\n' !in p[i] {
      if i < |lines| { assert p[i] == lines[i]; }
    }
    JoinSplit(p, '\n');
    JoinAsTerminated(p);
    assert Done(p) == lines;
    assert Terminated(lines) + "" == Terminated(lines);
  }

  // ----- formatTime -----

  /** A piece of a template literal: literal text or an interpolated number. */
  datatype Segment = Lit(text: string) | Num(value: real)

  /** The `%` of JavaScript on integers: the remainder takes the sign of the dividend. */
  function JsRem(a: int, n: int): (r: int)
    requires n > 0
    ensures -n < r < n
    ensures a >= 0 ==> r == a % n
  {
    if a >= 0 then a % n else -((-a) % n)
  }

  /** The millisecond part `(time / 1000) % 1000`, which is not rounded down. */
  function Millis(time: int): real
    requires time > 1000
  {
    var x := time as real / 1000.0;
    x - 1000.0 * ((x / 1000.0).Floor as real)
  }

  /** The seconds part `Math.floor(time / 1000 / 1000)`. */
  function Seconds(time: int): int {
    ((time as real / 1000.0) / 1000.0).Floor
  }

  /**
   * `formatTime`, as the segments of the text it builds: "?s" without a
   * time, otherwise the microsecond remainder, after a millisecond part when
   * the time exceeds 1000 and after a seconds part when it exceeds 1000000.
   */
  function FormatTime(time: Option<int>): (r: seq<Segment>)
  {
    match time
    case None => [Lit("?s")]
    case Some(t) =>
      (if t > 1000 * 1000 then [Num(Seconds(t) as real), Lit("s ")] else [])
      + (if t > 1000 then [Num(Millis(t)), Lit("ms ")] else [])
      + [Num(JsRem(t, 1000) as real), Lit("\U{03BC}s")]
  }

  /** The text of the segments, when every number in them is whole. */
  function Render(segments: seq<Segment>): Option<string>
    decreases |segments|
  {
    if segments == [] then Some("")
    else
      match Render(segments[1..])
      case None => None
      case Some(rest) =>
        match segments[0]
        case Lit(s) => Some(s + rest)
        case Num(x) => if x == x.Floor as real then Some(IntToString(x.Floor) + rest) else None
  }

  lemma RenderLit(s: string, rest: seq<Segment>)
    ensures Render([Lit(s)] + rest) == if Render(rest).Some? then Some(s + Render(rest).value) else None
  {
    assert ([Lit(s)] + rest)[1..] == rest;
  }

  lemma RenderNum(n: nat, rest: seq<Segment>)
    ensures Render([Num(n as real)] + rest) == if Render(rest).Some? then Some(NatToString(n) + Render(rest).value) else None
  {
    assert ([Num(n as real)] + rest)[1..] == rest;
    assert (n as real).Floor == n;
  }

  /**
   * The three tiers of formatTime and when each appears. This only spells
   * out the case split of `FormatTime`; what the values in each tier are is
   * proved by `JsRem`, `MillisValue` and `SecondsAndMillis`.
   */
  lemma FormatTimeTiers(t: int)
    ensures var r := FormatTime(Some(t));
      && r[|r| - 2..] == [Num(JsRem(t, 1000) as real), Lit("\U{03BC}s")]
      && (t <= 1000 ==> |r| == 2)
      && (1000 < t <= 1000000 ==> r == [Num(Millis(t)), Lit("ms ")] + r[|r| - 2..])
      && (t > 1000000 ==> r == [Num(Seconds(t) as real), Lit("s "), Num(Millis(t)), Lit("ms ")] + r[|r| - 2..])
  {
  }

  /**
   * The millisecond part is the time modulo one second, in milliseconds,
   * with its fraction kept: it is whole exactly when the time is a multiple
   * of 1000.
   */
  lemma MillisValue(t: int)
    requires t > 1000
    ensures Millis(t) == (t % 1000000) as real / 1000.0
    ensures Millis(t) == Millis(t).Floor as real <==> t % 1000 == 0
  {
    var x := t as real / 1000.0;
    var q := t / 1000000;
    var m := t % 1000000;
    assert t == q * 1000000 + m;
    assert x / 1000.0 == q as real + m as real / 1000000.0;
    assert (x / 1000.0).Floor == q;
    var ms := m as real / 1000.0;
    assert Millis(t) == ms;
    if t % 1000 == 0 {
      assert m % 1000 == 0;
      assert ms == (m / 1000) as real;
    } else {
      assert m % 1000 != 0;
      var k := m / 1000;
      assert ms == k as real + (m % 1000) as real / 1000.0;
      assert ms.Floor == k;
    }
  }

  /** For times over a second, seconds and milliseconds together give the time back. */
  lemma SecondsAndMillis(t: int)
    requires t > 1000000
    ensures Seconds(t) == t / 1000000
    ensures Seconds(t) as real * 1000000.0 + Millis(t) * 1000.0 == t as real
  {
    MillisValue(t);
    var q := t / 1000000;
    var m := t % 1000000;
    assert (t as real / 1000.0) / 1000.0 == q as real + m as real / 1000000.0;
  }

  /** Without a time the text is "?s"; 500 and 1000 show the microsecond part alone. */
  lemma FormatTimeSmall()
    ensures Render(FormatTime(None)) == Some("?s")
    ensures Render(FormatTime(Some(500))) == Some("500\U{03BC}s")
    ensures Render(FormatTime(Some(1000))) == Some("0\U{03BC}s")
  {
    assert Render([]) == Some("");
    RenderLit("?s", []);
    assert [Lit("?s")] + [] == [Lit("?s")];
    assert "?s" + "" == "?s";
    assert NatToString(500) == "500" by {
      assert NatToString(50) == "50" by { assert NatToString(5) == "5"; }
    }
    assert NatToString(0) == "0";
    RenderLit("\U{03BC}s", []);
    var mu := [Lit("\U{03BC}s")];
    assert mu == [Lit("\U{03BC}s")] + [];
    assert "\U{03BC}s" + "" == "\U{03BC}s";
    assert Render(mu) == Some("\U{03BC}s");
    assert "500" + "\U{03BC}s" == "500\U{03BC}s";
    assert "0" + "\U{03BC}s" == "0\U{03BC}s";
    assert FormatTime(Some(500)) == [Num(500 as real)] + mu;
    RenderNum(500, mu);
    assert FormatTime(Some(1000)) == [Num(0 as real)] + mu;
    RenderNum(0, mu);
  }

  /** 1500 gives a millisecond part of 1.5, not 1: the text is not "1ms 500μs". */
  lemma FormatTimeFraction()
    ensures FormatTime(Some(1500)) == [Num(1.5), Lit("ms "), Num(500.0), Lit("\U{03BC}s")]
    ensures Render(FormatTime(Some(1500))) == None
  {
    MillisValue(1500);
    assert Millis(1500) == 1.5;
    assert JsRem(1500, 1000) == 500;
    var r := FormatTime(Some(1500));
    assert (1.5).Floor == 1;
    assert r == [Num(1.5)] + r[1..];
    assert Render(r) == None;
  }

  /** 2500000 shows all three tiers. */
  lemma FormatTimeSeconds()
    ensures Render(FormatTime(Some(2500000))) == Some("2s 500ms 0\U{03BC}s")
  {
    ThreeTierSegments();
    RenderThreeTiers();
  }

  lemma ThreeTierSegments()
    ensures FormatTime(Some(2500000)) == [Num(2 as real), Lit("s "), Num(500 as real), Lit("ms "), Num(0 as real), Lit("\U{03BC}s")]
  {
    MillisValue(2500000);
    SecondsAndMillis(2500000);
  }

  lemma RenderThreeTiers()
    ensures Render([Num(2 as real), Lit("s "), Num(500 as real), Lit("ms "), Num(0 as real), Lit("\U{03BC}s")])
            == Some("2s 500ms 0\U{03BC}s")
  {
    var s2 := [Num(500 as real), Lit("ms "), Num(0 as real), Lit("\U{03BC}s")];
    RenderMillis();
    RenderPrefix(2, "s ", s2);
    assert NatToString(2) == "2";
    assert "2" + ("s " + "500ms 0\U{03BC}s") == "2s 500ms 0\U{03BC}s";
  }

  /** A number and a literal in front of segments that render. */
  lemma RenderPrefix(n: nat, s: string, rest: seq<Segment>)
    requires Render(rest).Some?
    ensures Render([Num(n as real), Lit(s)] + rest) == Some(NatToString(n) + (s + Render(rest).value))
  {
    var tail := [Lit(s)] + rest;
    RenderLit(s, rest);
    RenderNum(n, tail);
    assert [Num(n as real), Lit(s)] + rest == [Num(n as real)] + tail;
  }

  lemma RenderMillis()
    ensures Render([Num(500 as real), Lit("ms "), Num(0 as real), Lit("\U{03BC}s")]) == Some("500ms 0\U{03BC}s")
  {
    var micros := [Num(0 as real), Lit("\U{03BC}s")];
    assert Render([]) == Some("");
    RenderPrefix(0, "\U{03BC}s", []);
    assert micros + [] == micros;
    assert NatToString(0) == "0";
    assert "0" + ("\U{03BC}s" + "") == "0\U{03BC}s";
    RenderPrefix(500, "ms ", micros);
    assert NatToString(500) == "500" by {
      assert NatToString(50) == "50" by { assert NatToString(5) == "5"; }
    }
    assert "500" + ("ms " + "0\U{03BC}s") == "500ms 0\U{03BC}s";
  }

  // ----- findLast -----

  /** Position `i` holds an element satisfying the predicate, and no later element does. */
  ghost predicate LastSatisfying<T>(a: seq<T>, p: T -> bool, i: int) {
    0 <= i < |a| && p(a[i]) && forall j :: i < j < |a| ==> !p(a[j])
  }

  /**
   * `findLast`: the last element of the sequence that satisfies the
   * predicate, or nothing when none does.
   */
  function FindLast<T>(a: seq<T>, p: T -> bool): (r: Option<T>)
    ensures r.None? <==> forall i :: 0 <= i < |a| ==> !p(a[i])
    ensures r.Some? ==> exists i :: LastSatisfying(a, p, i) && a[i] == r.value
    decreases |a|
  {
    if a == [] then None
    else if p(a[|a| - 1]) then
      assert LastSatisfying(a, p, |a| - 1);
      Some(a[|a| - 1])
    else
      var init := a[..|a| - 1];
      var r := FindLast(init, p);
      assert forall i :: 0 <= i < |init| ==> init[i] == a[i];
      assert forall i :: LastSatisfying(init, p, i) ==> LastSatisfying(a, p, i);
      r
  }

  /** `findLast` as a scan from the end that stops at the first element satisfying the predicate. */
  method FindLastScan<T>(a: seq<T>, p: T -> bool) returns (r: Option<T>)
    ensures r == FindLast(a, p)
  {
    var i := |a| - 1;
    while i >= 0
      invariant -1 <= i < |a|
      invariant FindLast(a[..i + 1], p) == FindLast(a, p)
    {
      assert a[..i + 1][..i] == a[..i];
      if p(a[i]) {
        return Some(a[i]);
      }
      i := i - 1;
    }
    return None;
  }
}
