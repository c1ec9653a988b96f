/**
 * The JavaScript string operations the extension relies on, with the
 * semantics of the ECMAScript built-ins: `split` on one character, `join`,
 * `startsWith`, `indexOf`, `slice` with negative indices, `trimStart`,
 * `replace` of a string pattern, the relational `<` on strings, number
 * to string conversion and the unary `+` on decimal text.
 */
module JsStrings {

  /** `s.startsWith(p)` */
  predicate StartsWith(s: string, p: string) {
    |p| <= |s| && s[..|p|] == p
  }

  /** `s.split(sep)` for a one-character separator: never empty, keeps empty pieces. */
  function Split(s: string, sep: char): (parts: seq<string>)
    ensures |parts| >= 1
    decreases |s|
  {
    if s == [] then [""]
    else
      var rest := Split(s[1..], sep);
      if s[0] == sep then [""] + rest else [[s[0]] + rest[0]] + rest[1..]
  }

  /** `parts.join(sep)` */
  function Join(parts: seq<string>, sep: char): string {
    if |parts| == 0 then ""
    else if |parts| == 1 then parts[0]
    else parts[0] + [sep] + Join(parts[1..], sep)
  }

  /** No piece of a split holds the separator, and joining the pieces gives the text back. */
  lemma {:induction false} SplitJoin(s: string, sep: char)
    ensures forall i :: 0 <= i < |Split(s, sep)| ==> sep !in Split(s, sep)[i]
    ensures Join(Split(s, sep), sep) == s
    decreases |s|
  {
    if s != [] {
      var rest := Split(s[1..], sep);
      SplitJoin(s[1..], sep);
      if s[0] == sep {
        assert Split(s, sep) == [""] + rest;
        assert ([""] + rest)[1..] == rest;
      } else {
        var parts := Split(s, sep);
        assert parts == [[s[0]] + rest[0]] + rest[1..];
        if |rest| == 1 {
          assert s == [s[0]] + s[1..];
        } else {
          assert Join(rest, sep) == rest[0] + [sep] + Join(rest[1..], sep);
          assert parts[1..] == rest[1..];
          assert s == [s[0]] + s[1..];
        }
        forall i | 0 <= i < |parts| ensures sep !in parts[i] {
          if i > 0 { assert parts[i] == rest[i]; }
        }
      }
    }
  }

  /** Text without the separator is a single piece. */
  lemma {:induction false} SplitNoSep(s: string, sep: char)
    requires sep !in s
    ensures Split(s, sep) == [s]
    decreases |s|
  {
    if s != [] {
      SplitNoSep(s[1..], sep);
      assert [s[0]] + s[1..] == s;
    }
  }

  /** Splitting after a first separator-free piece. */
  lemma {:induction false} SplitCons(a: string, sep: char, b: string)
    requires sep !in a
    ensures Split(a + [sep] + b, sep) == [a] + Split(b, sep)
    decreases |a|
  {
    if a == [] {
      assert a + [sep] + b == [sep] + b;
      assert ([sep] + b)[1..] == b;
    } else {
      var s := a + [sep] + b;
      assert s[0] == a[0] && s[1..] == a[1..] + [sep] + b;
      SplitCons(a[1..], sep, b);
      assert [a[0]] + a[1..] == a;
    }
  }

  /** Joining separator-free pieces and splitting again gives the pieces back. */
  lemma {:induction false} JoinSplit(parts: seq<string>, sep: char)
    requires |parts| >= 1
    requires forall i :: 0 <= i < |parts| ==> sep !in parts[i]
    ensures Split(Join(parts, sep), sep) == parts
    decreases |parts|
  {
    if |parts| == 1 {
      SplitNoSep(parts[0], sep);
    } else {
      JoinSplit(parts[1..], sep);
      SplitCons(parts[0], sep, Join(parts[1..], sep));
      assert [parts[0]] + parts[1..] == parts;
    }
  }

  /** Joining after a first piece. */
  lemma JoinCons(x: string, parts: seq<string>, sep: char)
    requires |parts| >= 1
    ensures Join([x] + parts, sep) == x + [sep] + Join(parts, sep)
  {
    assert ([x] + parts)[1..] == parts;
  }

  /** Joining with a last piece added. */
  lemma {:induction false} JoinSnoc(parts: seq<string>, x: string, sep: char)
    requires |parts| >= 1
    ensures Join(parts + [x], sep) == Join(parts, sep) + [sep] + x
    decreases |parts|
  {
    if |parts| == 1 {
      assert (parts + [x])[1..] == [x];
    } else {
      JoinSnoc(parts[1..], x, sep);
      assert (parts + [x])[1..] == parts[1..] + [x];
    }
  }

  /** Joining with a first and a last piece added around at least one piece. */
  lemma JoinAround(head: string, parts: seq<string>, last: string, sep: char)
    requires |parts| >= 1
    ensures Join([head] + parts + [last], sep) == head + [sep] + Join(parts, sep) + [sep] + last
  {
    var joined := Join(parts, sep);
    JoinSnoc(parts, last, sep);
    JoinCons(head, parts + [last], sep);
    assert [head] + parts + [last] == [head] + (parts + [last]);
    assert head + [sep] + (joined + [sep] + last) == head + [sep] + joined + [sep] + last;
  }

  /** The pieces of a split before its last one. */
  function Done(p: seq<string>): seq<string>
    requires |p| >= 1
  {
    p[..|p| - 1]
  }

  /** The last piece of a split. */
  function Last(p: seq<string>): string
    requires |p| >= 1
  {
    p[|p| - 1]
  }

  /** Splitting text that starts with an ordinary character extends the first piece. */
  lemma SplitHead(c: char, t: string, sep: char)
    requires c != sep
    ensures Split([c] + t, sep) == [[c] + Split(t, sep)[0]] + Split(t, sep)[1..]
  {
    assert ([c] + t)[1..] == t;
  }

  /** The inductive step of SplitAppend for a first character that is not the separator. */
  lemma SplitAppendStep(c: char, a: string, b: string, sep: char)
    requires c != sep
    requires Split(a + b, sep) == Done(Split(a, sep)) + Split(Last(Split(a, sep)) + b, sep)
    ensures Split([c] + a + b, sep) == Done(Split([c] + a, sep)) + Split(Last(Split([c] + a, sep)) + b, sep)
  {
    var q := Split(a, sep);
    assert [c] + a + b == [c] + (a + b);
    SplitHead(c, a + b, sep);
    SplitHead(c, a, sep);
    if |q| == 1 {
      SplitAppendOne(c, a, b, sep);
    } else {
      SplitAppendMany(c, a, b, sep);
    }
  }

  lemma SplitAppendOne(c: char, a: string, b: string, sep: char)
    requires c != sep && |Split(a, sep)| == 1
    requires Split(a + b, sep) == Split(Last(Split(a, sep)) + b, sep)
    requires Split([c] + (a + b), sep) == [[c] + Split(a + b, sep)[0]] + Split(a + b, sep)[1..]
    requires Split([c] + a, sep) == [[c] + Split(a, sep)[0]]
    ensures Split([c] + (a + b), sep) == Split(Last(Split([c] + a, sep)) + b, sep)
  {
    var q0 := Split(a, sep)[0];
    SplitHead(c, q0 + b, sep);
    assert [c] + q0 + b == [c] + (q0 + b);
  }

  lemma SplitAppendMany(c: char, a: string, b: string, sep: char)
    requires c != sep && |Split(a, sep)| >= 2
    requires Split(a + b, sep) == Done(Split(a, sep)) + Split(Last(Split(a, sep)) + b, sep)
    requires Split([c] + (a + b), sep) == [[c] + Split(a + b, sep)[0]] + Split(a + b, sep)[1..]
    requires Split([c] + a, sep) == [[c] + Split(a, sep)[0]] + Split(a, sep)[1..]
    ensures Split([c] + (a + b), sep) == Done(Split([c] + a, sep)) + Split(Last(Split([c] + a, sep)) + b, sep)
  {
    ExtendFirstPiece([c], Split(a, sep), Split(Last(Split(a, sep)) + b, sep));
  }

  /** Sequence bookkeeping behind SplitAppendMany, stated without Split. */
  lemma ExtendFirstPiece(c: string, q: seq<string>, t: seq<string>)
    requires |q| >= 2
    ensures var p := [c + q[0]] + q[1..];
      [c + (Done(q) + t)[0]] + (Done(q) + t)[1..] == Done(p) + t && Last(p) == Last(q)
  {
    var r := Done(q) + t;
    assert r[0] == q[0];
    assert r[1..] == q[1..|q| - 1] + t;
  }

  /**
   * Appending text only re-splits the last piece: the pieces before it are
   * final. This is what lets a line reader carry the last piece over.
   */
  lemma {:induction false} SplitAppend(a: string, b: string, sep: char)
    ensures Split(a + b, sep) == Done(Split(a, sep)) + Split(Last(Split(a, sep)) + b, sep)
    decreases |a|
  {
    if a == [] {
      assert a + b == b;
    } else {
      var c, t := a[0], a[1..];
      SplitAppend(t, b, sep);
      assert a == [c] + t && a + b == [c] + t + b;
      if c == sep {
        SplitAppendSepStep(t, b, sep);
      } else {
        SplitAppendStep(c, t, b, sep);
      }
    }
  }

  /** The inductive step of SplitAppend for a first character that is the separator. */
  lemma SplitAppendSepStep(t: string, b: string, sep: char)
    requires Split(t + b, sep) == Done(Split(t, sep)) + Split(Last(Split(t, sep)) + b, sep)
    ensures Split([sep] + t + b, sep) == Done(Split([sep] + t, sep)) + Split(Last(Split([sep] + t, sep)) + b, sep)
  {
    SplitSepFirst(t + b, sep);
    SplitSepFirst(t, sep);
    assert [sep] + t + b == [sep] + (t + b);
    PrependPiece(Split(t, sep), Split(Last(Split(t, sep)) + b, sep));
  }

  /** Sequence bookkeeping behind SplitAppendSepStep, stated without Split. */
  lemma PrependPiece(q: seq<string>, r: seq<string>)
    requires |q| >= 1
    ensures Done([""] + q) + r == [""] + (Done(q) + r) && Last([""] + q) == Last(q)
  {
    assert Done([""] + q) == [""] + Done(q);
  }

  /** Text starting with the separator splits into an empty piece and the pieces of the rest. */
  lemma SplitSepFirst(t: string, sep: char)
    ensures Split([sep] + t, sep) == [""] + Split(t, sep)
  {
    assert ([sep] + t)[1..] == t;
  }

  lemma SplitSpace(path: string)
    requires ' ' in path
    ensures |Split(path, ' ')| >= 2
  {
    SplitJoin(path, ' ');
  }

  /** The first two words of a text that holds a space, and what follows them. */
  lemma FirstTwoWords(path: string)
    requires ' ' in path
    ensures var w := Split(path, ' ');
      && |w| >= 2 && ' ' !in w[0] && ' ' !in w[1]
      && StartsWith(path, w[0] + " " + w[1])
      && (|path| == |w[0]| + 1 + |w[1]| || path[|w[0]| + 1 + |w[1]|] == ' ')
  {
    SplitSpace(path);
    var w := Split(path, ' ');
    SplitJoin(path, ' ');
    JoinFirstTwo(w, ' ');
  }

  lemma JoinFirstTwo(w: seq<string>, sep: char)
    requires |w| >= 2
    ensures var j := Join(w, sep);
      && StartsWith(j, w[0] + [sep] + w[1])
      && (|j| == |w[0]| + 1 + |w[1]| || j[|w[0]| + 1 + |w[1]|] == sep)
  {
    if |w| > 2 {
      assert Join(w[1..], sep) == w[1] + [sep] + Join(w[2..], sep);
      assert Join(w, sep) == (w[0] + [sep] + w[1]) + ([sep] + Join(w[2..], sep));
    }
  }

  /** A text that starts with `q` still does with more after it, and the extra part follows it. */
  lemma PrefixedBy(p: string, q: string, rest: string)
    requires StartsWith(p, q)
    ensures StartsWith(p + rest, q) && (p + rest)[|p|..] == rest
  {
    assert (p + rest)[..|q|] == p[..|q|];
  }

  /** `s.indexOf(c, from)`: the first position at or after `from` holding `c`, or -1. */
  function IndexOf(s: string, c: char, from: nat): (i: int)
    ensures -1 <= i < |s|
    ensures i >= 0 ==> from <= i && s[i] == c && forall j :: from <= j < i ==> s[j] != c
    ensures i == -1 ==> forall j :: from <= j < |s| ==> s[j] != c
    decreases |s| - from
  {
    if from >= |s| then -1
    else if s[from] == c then from
    else IndexOf(s, c, from + 1)
  }

  /** How `slice` turns a possibly negative index into a position. */
  function ClampIndex(i: int, n: nat): (r: nat)
    ensures r <= n
    ensures 0 <= i <= n ==> r == i
    ensures i < 0 && n + i >= 0 ==> r == n + i
  {
    if i < 0 then (if n + i < 0 then 0 else n + i)
    else if i > n then n
    else i
  }

  /** `s.slice(start, end)`; a negative index counts from the end. */
  function Slice(s: string, start: int, end: int): (r: string)
    ensures |r| <= |s|
  {
    var from, to := ClampIndex(start, |s|), ClampIndex(end, |s|);
    if from < to then s[from..to] else ""
  }

  /** `s.slice(start)` */
  function SliceFrom(s: string, start: int): (r: string)
    ensures 0 <= start <= |s| ==> r == s[start..]
    ensures start < 0 && |s| + start >= 0 ==> r == s[|s| + start..]
  {
    Slice(s, start, |s|)
  }

  /** White space and line terminators as `trimStart` removes them. */
  predicate IsWhiteSpace(c: char) {
    c == '\t' || c == '\n' || c == '\U{000B}' || c == '\U{000C}' || c == '\r' || c == ' '
    || c == '\U{00A0}' || c == '\U{1680}' || ('\U{2000}' <= c <= '\U{200A}')
    || c == '\U{2028}' || c == '\U{2029}' || c == '\U{202F}' || c == '\U{205F}'
    || c == '\U{3000}' || c == '\U{FEFF}'
  }

  /** `s.trimStart()`: the longest suffix that does not begin with white space. */
  function TrimStart(s: string): (r: string)
    ensures |r| <= |s| && r == s[|s| - |r|..]
    ensures r == [] || !IsWhiteSpace(r[0])
    ensures forall j :: 0 <= j < |s| - |r| ==> IsWhiteSpace(s[j])
    decreases |s|
  {
    if s != [] && IsWhiteSpace(s[0]) then TrimStart(s[1..]) else s
  }

  /** `trimStart` removes leading white space up to the first other character. */
  lemma {:induction false} TrimStartWhite(ws: string, rest: string)
    requires forall i :: 0 <= i < |ws| ==> IsWhiteSpace(ws[i])
    requires rest == [] || !IsWhiteSpace(rest[0])
    ensures TrimStart(ws + rest) == rest
    decreases |ws|
  {
    if ws == [] {
      assert ws + rest == rest;
    } else {
      assert (ws + rest)[0] == ws[0];
      assert (ws + rest)[1..] == ws[1..] + rest;
      TrimStartWhite(ws[1..], rest);
    }
  }

  /** `pat` occurs in `s` at position `k`. */
  predicate OccursAt(s: string, pat: string, k: nat) {
    k + |pat| <= |s| && s[k..k + |pat|] == pat
  }

  /** `s.replace(pat, rep)` for a non-empty string pattern: only the first occurrence is replaced. */
  function ReplaceFirst(s: string, pat: string, rep: string): (r: string)
    requires pat != []
    ensures StartsWith(s, pat) ==> r == rep + s[|pat|..]
    ensures (forall k: nat :: !OccursAt(s, pat, k)) ==> r == s
    decreases |s|
  {
    if |s| < |pat| then s
    else if s[..|pat|] == pat then assert OccursAt(s, pat, 0); rep + s[|pat|..]
    else
      var tail := ReplaceFirst(s[1..], pat, rep);
      assert forall k: nat :: OccursAt(s[1..], pat, k) ==> OccursAt(s, pat, k + 1) by {
        forall k: nat | OccursAt(s[1..], pat, k) ensures OccursAt(s, pat, k + 1) {
          assert s[1..][k..k + |pat|] == s[k + 1..k + 1 + |pat|];
        }
      }
      [s[0]] + tail
  }

  /** `replace` swaps the first occurrence of the pattern, wherever it is, and keeps the rest. */
  lemma ReplaceFirstAt(s: string, pat: string, rep: string)
    requires pat != []
    ensures forall k: nat :: OccursAt(s, pat, k) && (forall k': nat :: k' < k ==> !OccursAt(s, pat, k'))
              ==> ReplaceFirst(s, pat, rep) == s[..k] + rep + s[k + |pat|..]
  {
    forall k: nat | OccursAt(s, pat, k) && (forall k': nat :: k' < k ==> !OccursAt(s, pat, k'))
      ensures ReplaceFirst(s, pat, rep) == s[..k] + rep + s[k + |pat|..]
    {
      ReplaceFirstOccurrence(s, pat, rep, k);
    }
  }

  lemma {:induction false} ReplaceFirstOccurrence(s: string, pat: string, rep: string, k: nat)
    requires pat != [] && OccursAt(s, pat, k)
    requires forall k': nat :: k' < k ==> !OccursAt(s, pat, k')
    ensures ReplaceFirst(s, pat, rep) == s[..k] + rep + s[k + |pat|..]
    decreases k
  {
    if k == 0 {
      assert StartsWith(s, pat) && s[..k] == [];
    } else {
      var t := s[1..];
      ReplaceFirstSkip(s, pat, rep);
      FirstOccurrenceShift(s, pat, k);
      ReplaceFirstOccurrence(t, pat, rep, k - 1);
      SlicesOfTail(s, k, k + |pat|);
      ConsAssoc(s[0], t[..k - 1], rep, t[k - 1 + |pat|..]);
    }
  }

  /** A first occurrence at `k > 0` is a first occurrence at `k - 1` in the text without its first character. */
  lemma FirstOccurrenceShift(s: string, pat: string, k: nat)
    requires 0 < k && OccursAt(s, pat, k)
    requires forall k': nat :: k' < k ==> !OccursAt(s, pat, k')
    ensures OccursAt(s[1..], pat, k - 1) && forall k': nat :: k' < k - 1 ==> !OccursAt(s[1..], pat, k')
  {
    OccursShift(s, pat, k - 1);
    forall k': nat | k' < k - 1 ensures !OccursAt(s[1..], pat, k') {
      OccursShift(s, pat, k');
    }
  }

  lemma ConsAssoc(c: char, a: string, r: string, b: string)
    ensures [c] + (a + r + b) == ([c] + a) + r + b
  {
  }

  /** Slices of a text in terms of the same text without its first character. */
  lemma SlicesOfTail(s: string, k: nat, m: nat)
    requires 0 < k <= m <= |s|
    ensures s[..k] == [s[0]] + s[1..][..k - 1] && s[m..] == s[1..][m - 1..]
  {
  }

  /** Where the pattern does not start the text, `replace` keeps the first character. */
  lemma ReplaceFirstSkip(s: string, pat: string, rep: string)
    requires pat != [] && |s| >= |pat| && !OccursAt(s, pat, 0)
    ensures ReplaceFirst(s, pat, rep) == [s[0]] + ReplaceFirst(s[1..], pat, rep)
  {
  }

  /** An occurrence in the text without its first character is one place further in the text. */
  lemma OccursShift(s: string, pat: string, k: nat)
    requires s != []
    ensures OccursAt(s[1..], pat, k) <==> OccursAt(s, pat, k + 1)
  {
    if k + 1 + |pat| <= |s| {
      assert s[1..][k..k + |pat|] == s[k + 1..k + 1 + |pat|];
    }
  }

  /** The relational `a < b` on strings: lexicographic by character, a proper prefix first. */
  predicate LexLess(a: string, b: string)
    decreases |a|
  {
    if a == [] then b != []
    else if b == [] then false
    else if a[0] != b[0] then a[0] < b[0]
    else LexLess(a[1..], b[1..])
  }

  lemma {:induction false} LexLessIrreflexive(a: string)
    ensures !LexLess(a, a)
    decreases |a|
  {
    if a != [] { LexLessIrreflexive(a[1..]); }
  }

  lemma {:induction false} LexLessAsymmetric(a: string, b: string)
    requires LexLess(a, b)
    ensures !LexLess(b, a)
    decreases |a|
  {
    if a != [] && b != [] && a[0] == b[0] { LexLessAsymmetric(a[1..], b[1..]); }
  }

  /** Two different strings are always ordered one way or the other. */
  lemma {:induction false} LexLessTotal(a: string, b: string)
    requires a != b
    ensures LexLess(a, b) || LexLess(b, a)
    decreases |a|
  {
    if a != [] && b != [] && a[0] == b[0] {
      assert a == [a[0]] + a[1..] && b == [b[0]] + b[1..];
      LexLessTotal(a[1..], b[1..]);
    }
  }

  predicate IsDigit(c: char) {
    '0' <= c <= '9'
  }

  predicate IsDecimal(s: string) {
    |s| > 0 && forall i :: 0 <= i < |s| ==> IsDigit(s[i])
  }

  function DigitChar(d: nat): (c: char)
    requires d < 10
    ensures IsDigit(c)
  {
    (48 + d) as char
  }

  /** Decimal text of a natural number, as template literals print it. */
  function NatToString(n: nat): (s: string)
    decreases n
  {
    if n < 10 then [DigitChar(n)] else NatToString(n / 10) + [DigitChar(n % 10)]
  }

  /** Decimal text of an integer, with a leading '-' when negative. */
  function IntToString(i: int): string {
    if i < 0 then "-" + NatToString(-i) else NatToString(i)
  }

  /** The value of a string of decimal digits. */
  function DigitsValue(s: string): nat
    requires forall i :: 0 <= i < |s| ==> IsDigit(s[i])
    decreases |s|
  {
    if s == [] then 0
    else
      assert IsDigit(s[|s| - 1]);
      DigitsValue(s[..|s| - 1]) * 10 + (s[|s| - 1] as int - 48)
  }

  /** A JavaScript number as the logs produce them: an integer, or NaN. */
  datatype Numeric = Finite(n: int) | NaN

  /**
   * The unary `+` on the numeric fields of the logs: decimal text with an
   * optional minus sign gives its value, the empty text gives 0, and any
   * other text gives NaN.
   */
  function ParseNumber(s: string): Numeric {
    if s == [] then Finite(0)
    else if IsDecimal(s) then Finite(DigitsValue(s))
    else if |s| > 1 && s[0] == '-' && IsDecimal(s[1..]) then Finite(-(DigitsValue(s[1..]) as int))
    else NaN
  }

  /** `x + k`: NaN stays NaN. */
  function AddInt(x: Numeric, k: int): Numeric {
    match x
    case Finite(n) => Finite(n + k)
    case NaN => NaN
  }

  /** `x < 0`, which is false for NaN. */
  predicate BelowZero(x: Numeric) {
    x.Finite? && x.n < 0
  }

  /** A numeric field read as an integer, with NaN read as 0. */
  function ToNumber(s: string): int {
    match ParseNumber(s)
    case Finite(n) => n
    case NaN => 0
  }

  lemma {:induction false} NatToStringDecimal(n: nat)
    ensures IsDecimal(NatToString(n)) && DigitsValue(NatToString(n)) == n
    decreases n
  {
    if n >= 10 {
      NatToStringDecimal(n / 10);
      var s := NatToString(n);
      assert s[..|s| - 1] == NatToString(n / 10);
    }
  }

  /** Printing a number and reading it back gives the number. */
  lemma IntToStringRoundTrip(i: int)
    ensures ParseNumber(IntToString(i)) == Finite(i) && ToNumber(IntToString(i)) == i
  {
    if i < 0 {
      NatToStringDecimal(-i);
      assert IntToString(i)[1..] == NatToString(-i);
    } else {
      NatToStringDecimal(i);
    }
  }

  /** Different naturals print differently. */
  lemma NatToStringInjective(m: nat, n: nat)
    requires NatToString(m) == NatToString(n)
    ensures m == n
  {
    NatToStringDecimal(m);
    NatToStringDecimal(n);
  }

  /** In a digit-free word followed by a number, the first digit is where the number starts. */
  lemma FirstDigitAt(p: string, d: string)
    requires forall i :: 0 <= i < |p| ==> !IsDigit(p[i])
    requires IsDecimal(d)
    ensures forall i :: 0 <= i < |p| ==> !IsDigit((p + d)[i])
    ensures IsDigit((p + d)[|p|])
  {
  }

  /**
   * A digit-free word followed by a decimal number can be taken apart in
   * only one way.
   */
  lemma WordNumberUnique(p1: string, d1: string, p2: string, d2: string)
    requires forall i :: 0 <= i < |p1| ==> !IsDigit(p1[i])
    requires forall i :: 0 <= i < |p2| ==> !IsDigit(p2[i])
    requires IsDecimal(d1) && IsDecimal(d2)
    requires p1 + d1 == p2 + d2
    ensures p1 == p2 && d1 == d2
  {
    FirstDigitAt(p1, d1);
    FirstDigitAt(p2, d2);
    assert |p1| == |p2|;
    assert p1 == (p1 + d1)[..|p1|] == (p2 + d2)[..|p2|] == p2;
    assert d1 == (p1 + d1)[|p1|..] == (p2 + d2)[|p2|..] == d2;
  }
}
