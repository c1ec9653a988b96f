/**
 * The disassembly rewriter of src/decompile.ts: it turns the lines of an
 * optimized-code dump into a listing where jump targets are replaced by
 * labels, keeping the labels in a table shared by every call.
 *
 * Each line is first taken apart by `destructLine` into an `Instr`; the two
 * passes of `decompile` are specified over those.
 */
module Decompile {
  import opened Optional
  import opened JsStrings

  // ----- data model -----

  /** A jump target. `line` and `referencedAt` are positions in a rendered listing. */
  datatype Label = Label(
    id: nat,
    line: Option<int>,
    jumpCount: nat,
    referencedAt: seq<int>,
    userLabel: Option<string>,
    editor: string,
    backward: bool,
    forward: bool)

  /** The label map: its keys in insertion order (the order `values()` walks), and the labels. */
  datatype Table = Table(order: seq<string>, labels: map<string, Label>)

  /** The keys are listed once each, and the list holds exactly the keys. */
  ghost predicate TableOk(t: Table) {
    && (forall i, j :: 0 <= i < j < |t.order| ==> t.order[i] != t.order[j])
    && (forall k :: k in t.labels <==> k in t.order)
  }

  /** A label as the discovery pass creates it. */
  function NewLabel(id: nat, editor: string): Label {
    Label(id, None, 0, [], None, editor, false, false)
  }

  // ----- getLabelName -----

  /** The user's label counts only when it is a non-empty text. */
  predicate HasUserLabel(l: Label) {
    l.userLabel.Some? && l.userLabel.value != ""
  }

  /**
   * The kind of a label without a user label: "loop" for a single backward
   * jump, "reentry" when reached only backward, "skip" when reached only
   * forward, "label" otherwise, in that order of precedence.
   */
  function NameWord(l: Label): (w: string)
    ensures |w| > 0 && forall i :: 0 <= i < |w| ==> !IsDigit(w[i])
  {
    if l.jumpCount == 1 && l.backward then "loop"
    else if l.backward && !l.forward then "reentry"
    else if l.forward && !l.backward then "skip"
    else "label"
  }

  /** `getLabelName`: the user's label, or the deduced word followed by the label's id. */
  function LabelName(l: Label): (name: string)
    ensures !HasUserLabel(l) ==> |name| > |NameWord(l)| && ToNumber(name[|NameWord(l)|..]) == l.id
  {
    if HasUserLabel(l) then l.userLabel.value
    else
      var name := NameWord(l) + NatToString(l.id);
      NatToStringDecimal(l.id);
      IntToStringRoundTrip(l.id);
      assert name[|NameWord(l)|..] == NatToString(l.id);
      name
  }

  /** Two labels without a user label and with different ids never get the same name. */
  lemma LabelNamesDistinct(a: Label, b: Label)
    requires !HasUserLabel(a) && !HasUserLabel(b) && a.id != b.id
    ensures LabelName(a) != LabelName(b)
  {
    NatToStringDecimal(a.id);
    NatToStringDecimal(b.id);
    if LabelName(a) == LabelName(b) {
      WordNumberUnique(NameWord(a), NatToString(a.id), NameWord(b), NatToString(b.id));
      NatToStringInjective(a.id, b.id);
    }
  }

  /** A deduced name is a "skip" name exactly when the label is reached forward and never backward. */
  lemma SkipNameIff(l: Label)
    requires !HasUserLabel(l)
    ensures StartsWith(LabelName(l), "skip") <==> l.forward && !l.backward
  {
    var name := LabelName(l);
    assert name == NameWord(l) + NatToString(l.id);
    assert name[0] == NameWord(l)[0];
    if l.forward && !l.backward {
      assert name[..4] == "skip";
    }
  }

  // ----- destructLine -----

  /** The text before the first space, or all but the last character when there is no space. */
  function LocationOf(line: string): (location: string)
    ensures ' ' in line ==> ' ' !in location && StartsWith(line, location + " ")
    ensures ' ' !in line ==> location == Slice(line, 0, -1)
  {
    var space := IndexOf(line, ' ', 0);
    assert ' ' in line ==> Slice(line, 0, space) == line[..space];
    Slice(line, 0, space)
  }

  /**
   * What follows the first space at or after column 30 (the last character
   * when there is none), without its leading white space and without a
   * "REX.W" prefix and the character after it.
   */
  function InstructionOf(line: string): string {
    var trimmed := TrimStart(SliceFrom(line, IndexOf(line, ' ', 30)));
    if StartsWith(trimmed, "REX.W") then SliceFrom(trimmed, 6) else trimmed
  }

  /**
   * A dump line whose first space at or after column 30 is followed by white
   * space and then the instruction, with or without a "REX.W " prefix,
   * yields that instruction.
   */
  lemma InstructionOfRoundTrip(head: string, ws: string, rex: bool, ins: string)
    requires |head| >= 30 && ' ' !in head[30..]
    requires forall i :: 0 <= i < |ws| ==> IsWhiteSpace(ws[i])
    requires ins == [] || !IsWhiteSpace(ins[0])
    requires !rex ==> !StartsWith(ins, "REX.W")
    ensures InstructionOf(head + " " + ws + (if rex then "REX.W " else "") + ins) == ins
  {
    var mid := if rex then "REX.W " else "";
    var line := head + " " + ws + mid + ins;
    var rest := (" " + ws) + (mid + ins);
    Regroup(head, " ", ws, mid, ins);
    FirstSpaceFrom(head, ws + mid + ins, 30);
    var p := IndexOf(line, ' ', 30);
    assert p == |head|;
    assert SliceFrom(line, p) == rest;
    TrimStartWhite(" " + ws, mid + ins);
    var trimmed := mid + ins;
    InstructionOfTrimmed(line, trimmed);
    if rex {
      RexPrefixed(ins);
    }
  }

  lemma RexPrefixed(ins: string)
    ensures StartsWith("REX.W " + ins, "REX.W") && SliceFrom("REX.W " + ins, 6) == ins
  {
    PrefixedBy("REX.W ", "REX.W", ins);
  }

  lemma Regroup(a: string, b: string, c: string, d: string, e: string)
    ensures a + b + c + d + e == a + ((b + c) + (d + e))
    ensures a + b + c + d + e == a + b + (c + d + e)
  {
  }

  lemma InstructionOfTrimmed(line: string, trimmed: string)
    requires TrimStart(SliceFrom(line, IndexOf(line, ' ', 30))) == trimmed
    ensures InstructionOf(line) == if StartsWith(trimmed, "REX.W") then SliceFrom(trimmed, 6) else trimmed
  {
  }

  /** The first space at or after `from` in `head + " " + tail`, when `head` has none there, ends `head`. */
  lemma FirstSpaceFrom(head: string, tail: string, from: nat)
    requires from <= |head| && ' ' !in head[from..]
    ensures IndexOf(head + " " + tail, ' ', from) == |head|
  {
    var line := head + " " + tail;
    assert line[|head|] == ' ';
    forall j | from <= j < |head| ensures line[j] != ' ' {
      assert head[from..][j - from] == head[j];
    }
  }

  datatype Jump = Jump(kind: string, target: string)

  /** A line taken apart: its location, its instruction, and the jump it makes. */
  datatype Instr = Instr(location: string, instruction: string, jump: Option<Jump>)

  /** A jump instruction has a second word (the source reads it unchecked). */
  predicate JumpOk(line: string) {
    var ins := InstructionOf(line);
    StartsWith(ins, "j") ==> ' ' in ins
  }

  predicate AllJumpsOk(lines: seq<string>) {
    forall i :: 0 <= i < |lines| ==> JumpOk(lines[i])
  }

  /** The jump of an instruction that starts with "j": its first two words. */
  function JumpIn(instruction: string): (j: Option<Jump>)
    requires StartsWith(instruction, "j") ==> ' ' in instruction
    ensures j.Some? <==> StartsWith(instruction, "j")
    ensures j.Some? ==> ' ' !in j.value.kind && ' ' !in j.value.target
  {
    if !StartsWith(instruction, "j") then None
    else
      var words := Split(instruction, ' ');
      SplitSpace(instruction);
      SplitJoin(instruction, ' ');
      Some(Jump(words[0], words[1]))
  }

  /**
   * A parsed jump is made of the instruction's first two words: the kind,
   * one space and the target, followed by the end of the text or a space.
   */
  lemma JumpWords(instruction: string)
    requires StartsWith(instruction, "j") && ' ' in instruction
    ensures var j := JumpIn(instruction).value;
      && StartsWith(instruction, j.kind + " " + j.target)
      && (|instruction| == |j.kind| + 1 + |j.target| || instruction[|j.kind| + 1 + |j.target|] == ' ')
  {
    FirstTwoWords(instruction);
  }

  /** `destructLine`, with the jump of the instruction. */
  function ParseLine(line: string): Instr
    requires JumpOk(line)
  {
    Instr(LocationOf(line), InstructionOf(line), JumpIn(InstructionOf(line)))
  }

  function ParseLines(lines: seq<string>): (code: seq<Instr>)
    requires AllJumpsOk(lines)
    ensures |code| == |lines| && forall i :: 0 <= i < |lines| ==> code[i] == ParseLine(lines[i])
  {
    seq(|lines|, i requires 0 <= i < |lines| && JumpOk(lines[i]) => ParseLine(lines[i]))
  }

  /** The address an instruction jumps to, when it is a jump to an address and not to a register. */
  function Target(ins: Instr): Option<string> {
    match ins.jump
    case Some(j) => if StartsWith(j.target, "0x") then Some(j.target) else None
    case None => None
  }

  // ----- the discovery pass -----

  /** One line of the discovery pass; returns the table and the next id. */
  function DiscoverStep(t: Table, count: nat, ins: Instr, editor: string): (r: (Table, nat))
  {
    match Target(ins)
    case None => (t, count)
    case Some(target) =>
      var registered :=
        if target in t.labels then (t, count)
        else (Table(t.order + [target], t.labels[target := NewLabel(count, editor)]), count + 1);
      var t1 := registered.0;
      var l := t1.labels[target];
      (t1.(labels := t1.labels[target := l.(backward := l.backward || LexLess(target, ins.location),
                                            forward := l.forward || LexLess(ins.location, target),
                                            jumpCount := l.jumpCount + 1)]), registered.1)
  }

  /** The discovery pass over the lines, in order. */
  function DiscoverAll(t: Table, count: nat, code: seq<Instr>, editor: string): (r: (Table, nat))
    decreases |code|
  {
    if code == [] then (t, count)
    else
      var prev := DiscoverAll(t, count, code[..|code| - 1], editor);
      DiscoverStep(prev.0, prev.1, code[|code| - 1], editor)
  }

  /** The discovery pass over one more line is one more step. */
  lemma DiscoverAllStep(t: Table, count: nat, code: seq<Instr>, k: nat, editor: string)
    requires k < |code|
    ensures var prev := DiscoverAll(t, count, code[..k], editor);
            DiscoverAll(t, count, code[..k + 1], editor) == DiscoverStep(prev.0, prev.1, code[k], editor)
  {
    assert code[..k + 1][..k] == code[..k];
  }

  /** Some line jumps to `k`. */
  ghost predicate JumpsTo(code: seq<Instr>, k: string) {
    exists i :: 0 <= i < |code| && Target(code[i]) == Some(k)
  }

  /** Some line jumps to `k` from a location after it. */
  ghost predicate JumpsBackTo(code: seq<Instr>, k: string) {
    exists i :: 0 <= i < |code| && Target(code[i]) == Some(k) && LexLess(k, code[i].location)
  }

  /** Some line jumps to `k` from a location before it. */
  ghost predicate JumpsForwardTo(code: seq<Instr>, k: string) {
    exists i :: 0 <= i < |code| && Target(code[i]) == Some(k) && LexLess(code[i].location, k)
  }

  /** The number of lines that jump to `k`. */
  function JumpCount(code: seq<Instr>, k: string): nat
    decreases |code|
  {
    if code == [] then 0
    else JumpCount(code[..|code| - 1], k) + (if Target(code[|code| - 1]) == Some(k) then 1 else 0)
  }

  /** What a label was before a pass: the label, or a fresh one for a key not yet in the table. */
  function Before(t: Table, k: string): Label {
    if k in t.labels then t.labels[k] else NewLabel(0, "")
  }

  /** The jumps of a list are those of its prefix and those of its last line. */
  lemma JumpsSplit(code: seq<Instr>, k: string)
    requires |code| > 0
    ensures var pre, x := code[..|code| - 1], code[|code| - 1];
      && (JumpsTo(code, k) <==> JumpsTo(pre, k) || Target(x) == Some(k))
      && (JumpsBackTo(code, k) <==> JumpsBackTo(pre, k) || (Target(x) == Some(k) && LexLess(k, x.location)))
      && (JumpsForwardTo(code, k) <==> JumpsForwardTo(pre, k) || (Target(x) == Some(k) && LexLess(x.location, k)))
  {
    JumpsToSplit(code, k);
    JumpsBackSplit(code, k);
    JumpsForwardSplit(code, k);
  }

  lemma JumpsToSplit(code: seq<Instr>, k: string)
    requires |code| > 0
    ensures JumpsTo(code, k) <==> JumpsTo(code[..|code| - 1], k) || Target(code[|code| - 1]) == Some(k)
  {
    var pre := code[..|code| - 1];
    if JumpsTo(code, k) {
      var i :| 0 <= i < |code| && Target(code[i]) == Some(k);
      if i < |pre| { assert Target(pre[i]) == Some(k); }
    }
    if JumpsTo(pre, k) {
      var i :| 0 <= i < |pre| && Target(pre[i]) == Some(k);
      assert Target(code[i]) == Some(k);
    }
  }

  lemma JumpsBackSplit(code: seq<Instr>, k: string)
    requires |code| > 0
    ensures var x := code[|code| - 1];
      JumpsBackTo(code, k) <==> JumpsBackTo(code[..|code| - 1], k) || (Target(x) == Some(k) && LexLess(k, x.location))
  {
    var pre := code[..|code| - 1];
    if JumpsBackTo(code, k) {
      var i :| 0 <= i < |code| && Target(code[i]) == Some(k) && LexLess(k, code[i].location);
      if i < |pre| { assert Target(pre[i]) == Some(k) && LexLess(k, pre[i].location); }
    }
    if JumpsBackTo(pre, k) {
      var i :| 0 <= i < |pre| && Target(pre[i]) == Some(k) && LexLess(k, pre[i].location);
      assert Target(code[i]) == Some(k) && LexLess(k, code[i].location);
    }
  }

  lemma JumpsForwardSplit(code: seq<Instr>, k: string)
    requires |code| > 0
    ensures var x := code[|code| - 1];
      JumpsForwardTo(code, k) <==> JumpsForwardTo(code[..|code| - 1], k) || (Target(x) == Some(k) && LexLess(x.location, k))
  {
    var pre := code[..|code| - 1];
    if JumpsForwardTo(code, k) {
      var i :| 0 <= i < |code| && Target(code[i]) == Some(k) && LexLess(code[i].location, k);
      if i < |pre| { assert Target(pre[i]) == Some(k) && LexLess(pre[i].location, k); }
    }
    if JumpsForwardTo(pre, k) {
      var i :| 0 <= i < |pre| && Target(pre[i]) == Some(k) && LexLess(pre[i].location, k);
      assert Target(code[i]) == Some(k) && LexLess(code[i].location, k);
    }
  }

  /** The label kept its id, user label, editor and placement. */
  predicate Placed(now: Label, was: Label) {
    now.id == was.id && now.userLabel == was.userLabel && now.editor == was.editor
    && now.line == was.line && now.referencedAt == was.referencedAt
  }

  /**
   * Discovery keeps the table well formed and only appends to it: the new
   * keys come after the old ones and get the ids `count`, `count + 1`, ...
   * in the order they are first jumped to; the next id is `count` plus the
   * number of new keys. Afterwards the keys are the old keys and every
   * address some line jumps to; the old labels keep their id, user label,
   * editor and placement.
   */
  lemma {:induction false} DiscoverTable(t: Table, count: nat, code: seq<Instr>, editor: string)
    requires TableOk(t)
    ensures var r := DiscoverAll(t, count, code, editor);
      && TableOk(r.0)
      && |r.0.order| >= |t.order| && r.0.order[..|t.order|] == t.order
      && r.1 == count + (|r.0.order| - |t.order|)
      && (forall j :: |t.order| <= j < |r.0.order| ==>
            && r.0.labels[r.0.order[j]].id == count + (j - |t.order|)
            && r.0.labels[r.0.order[j]].editor == editor
            && !HasUserLabel(r.0.labels[r.0.order[j]]))
      && (forall k :: k in r.0.labels <==> k in t.labels || JumpsTo(code, k))
      && (forall k :: k in t.labels ==> Placed(r.0.labels[k], t.labels[k]))
    decreases |code|
  {
    if code != [] {
      var pre, x := code[..|code| - 1], code[|code| - 1];
      DiscoverTable(t, count, pre, editor);
      forall k { JumpsSplit(code, k); }
      var p := DiscoverAll(t, count, pre, editor);
      var r := DiscoverAll(t, count, code, editor);
      DiscoverStepTable(p.0, p.1, x, editor);
      assert r.0.order[..|t.order|] == p.0.order[..|t.order|];
      forall j | |t.order| <= j < |r.0.order|
        ensures && r.0.labels[r.0.order[j]].id == count + (j - |t.order|)
                && r.0.labels[r.0.order[j]].editor == editor
                && !HasUserLabel(r.0.labels[r.0.order[j]])
      {
        if j < |p.0.order| {
          assert r.0.order[j] == p.0.order[j];
        }
      }
    }
  }

  /**
   * One discovery step keeps the table well formed; it adds the target of
   * the line, if new, at the end of the order with the next id; every
   * label already there keeps its id, user label, editor and placement.
   */
  lemma DiscoverStepTable(t: Table, count: nat, ins: Instr, editor: string)
    requires TableOk(t)
    ensures var r := DiscoverStep(t, count, ins, editor);
      && TableOk(r.0)
      && (Target(ins).Some? && Target(ins).value !in t.labels ==>
            && r.0.order == t.order + [Target(ins).value] && r.1 == count + 1
            && r.0.labels[Target(ins).value].id == count
            && r.0.labels[Target(ins).value].editor == editor
            && !HasUserLabel(r.0.labels[Target(ins).value]))
      && (Target(ins).None? || Target(ins).value in t.labels ==> r.0.order == t.order && r.1 == count)
      && (forall k :: k in r.0.labels <==> k in t.labels || Target(ins) == Some(k))
      && (forall k :: k in t.labels ==> Placed(r.0.labels[k], t.labels[k]))
  {
    match Target(ins)
    case None =>
    case Some(target) =>
      if target !in t.labels {
        var order := t.order + [target];
        assert forall i :: 0 <= i < |t.order| ==> order[i] == t.order[i];
      }
  }

  /**
   * Discovery adds the new keys in the order they are first jumped to:
   * before any line that jumps to a new key, some line already jumps to
   * every new key listed ahead of it. (So ids, which count up along the
   * order, follow first-jump order too.)
   */
  lemma {:induction false} DiscoverOrder(t: Table, count: nat, code: seq<Instr>, editor: string)
    requires TableOk(t)
    ensures var order := DiscoverAll(t, count, code, editor).0.order;
      forall j, j', i :: |t.order| <= j < j' < |order| && 0 <= i < |code| && Target(code[i]) == Some(order[j'])
        ==> JumpsTo(code[..i], order[j])
    decreases |code|
  {
    if code != [] {
      var pre, x := code[..|code| - 1], code[|code| - 1];
      DiscoverOrder(t, count, pre, editor);
      DiscoverRegisters(t, count, pre, editor);
      var p := DiscoverAll(t, count, pre, editor);
      DiscoverStepOrder(p.0, p.1, x, editor);
      var order := DiscoverAll(t, count, code, editor).0.order;
      forall j, j', i | |t.order| <= j < j' < |order| && 0 <= i < |code| && Target(code[i]) == Some(order[j'])
        ensures JumpsTo(code[..i], order[j])
      {
        assert order[j] == p.0.order[j];
        NewKeyJumped(t, count, pre, editor, j);
        if i < |pre| {
          assert Target(pre[i]) == Some(order[j']);
          assert code[..i] == pre[..i];
        } else {
          assert code[..i] == pre;
        }
      }
    }
  }

  /** One discovery step appends the line's target to the order exactly when it was not a key yet. */
  lemma DiscoverStepOrder(t: Table, count: nat, ins: Instr, editor: string)
    ensures var order := DiscoverStep(t, count, ins, editor).0.order;
      || order == t.order
      || (Target(ins).Some? && Target(ins).value !in t.labels && order == t.order + [Target(ins).value])
  {
  }

  /** A key discovery added was not in the table before, so some line jumps to it. */
  lemma NewKeyJumped(t: Table, count: nat, code: seq<Instr>, editor: string, j: nat)
    requires TableOk(t)
    requires var order := DiscoverAll(t, count, code, editor).0.order;
      |t.order| <= j < |order|
    ensures JumpsTo(code, DiscoverAll(t, count, code, editor).0.order[j])
  {
    DiscoverTable(t, count, code, editor);
  }

  /**
   * After discovery, every label's jump count has grown by the number of
   * lines that jump to it, and its backward (forward) flag is set exactly
   * when it was set before or some line jumps to it from a later (earlier)
   * location.
   */
  lemma {:induction false} DiscoverFlags(t: Table, count: nat, code: seq<Instr>, editor: string)
    ensures var r := DiscoverAll(t, count, code, editor);
      forall k :: k in r.0.labels ==>
        var l, l' := Before(t, k), r.0.labels[k];
        && l'.jumpCount == l.jumpCount + JumpCount(code, k)
        && (l'.backward <==> l.backward || JumpsBackTo(code, k))
        && (l'.forward <==> l.forward || JumpsForwardTo(code, k))
    decreases |code|
  {
    if code != [] {
      var pre, x := code[..|code| - 1], code[|code| - 1];
      DiscoverFlags(t, count, pre, editor);
      var p := DiscoverAll(t, count, pre, editor);
      var r := DiscoverAll(t, count, code, editor);
      forall k | k in r.0.labels
        ensures var l, l' := Before(t, k), r.0.labels[k];
          && l'.jumpCount == l.jumpCount + JumpCount(code, k)
          && (l'.backward <==> l.backward || JumpsBackTo(code, k))
          && (l'.forward <==> l.forward || JumpsForwardTo(code, k))
      {
        JumpsSplit(code, k);
        if k !in p.0.labels {
          NotYetJumped(t, count, pre, editor, k);
        }
      }
    }
  }

  /** Discovery keeps the old keys and adds every address jumped to. */
  lemma {:induction false} DiscoverKeys(t: Table, count: nat, code: seq<Instr>, editor: string)
    ensures forall k :: k in t.labels ==> k in DiscoverAll(t, count, code, editor).0.labels
    ensures forall k :: JumpsTo(code, k) ==> k in DiscoverAll(t, count, code, editor).0.labels
    decreases |code|
  {
    if code != [] {
      DiscoverKeys(t, count, code[..|code| - 1], editor);
      forall k { JumpsSplit(code, k); }
    }
  }

  /** A key that is not in the table after some lines was never jumped to by them. */
  lemma NotYetJumped(t: Table, count: nat, code: seq<Instr>, editor: string, k: string)
    requires k !in DiscoverAll(t, count, code, editor).0.labels
    ensures k !in t.labels && JumpCount(code, k) == 0
    ensures !JumpsBackTo(code, k) && !JumpsForwardTo(code, k)
  {
    DiscoverKeys(t, count, code, editor);
    NoJumpNoCount(code, k);
  }

  lemma {:induction false} NoJumpNoCount(code: seq<Instr>, k: string)
    requires !JumpsTo(code, k)
    ensures JumpCount(code, k) == 0
    decreases |code|
  {
    if code != [] {
      JumpsSplit(code, k);
      NoJumpNoCount(code[..|code| - 1], k);
    }
  }

  /** A jump to its own location creates a label marked neither backward nor forward. */
  lemma SelfJump(t: Table, count: nat, ins: Instr, editor: string)
    requires Target(ins) == Some(ins.location) && ins.location !in t.labels
    ensures var l := DiscoverStep(t, count, ins, editor).0.labels[ins.location];
      !l.backward && !l.forward && l.jumpCount == 1 && l.id == count
  {
    LexLessIrreflexive(ins.location);
  }

  /** A first jump from another location creates a label marked either backward or forward, not both. */
  lemma DistinctJump(t: Table, count: nat, ins: Instr, editor: string)
    requires Target(ins).Some? && Target(ins).value != ins.location && Target(ins).value !in t.labels
    ensures var l := DiscoverStep(t, count, ins, editor).0.labels[Target(ins).value];
      l.backward != l.forward && l.jumpCount == 1 && l.id == count
  {
    var target := Target(ins).value;
    LexLessTotal(target, ins.location);
    if LexLess(target, ins.location) {
      LexLessAsymmetric(target, ins.location);
    }
  }

  /** After discovery, every address the lines jump to has a label. */
  lemma DiscoverRegisters(t: Table, count: nat, code: seq<Instr>, editor: string)
    ensures Registered(DiscoverAll(t, count, code, editor).0, code)
  {
    DiscoverKeys(t, count, code, editor);
    forall i | 0 <= i < |code| && Target(code[i]).Some?
      ensures Target(code[i]).value in DiscoverAll(t, count, code, editor).0.labels
    {
      assert JumpsTo(code, Target(code[i]).value);
    }
  }

  // ----- the render pass -----

  /** Every address the lines jump to has a label. */
  predicate Registered(t: Table, code: seq<Instr>) {
    forall i :: 0 <= i < |code| && Target(code[i]).Some? ==> Target(code[i]).value in t.labels
  }

  lemma RegisteredPrefix(t: Table, code: seq<Instr>, n: nat)
    requires Registered(t, code) && n <= |code|
    ensures Registered(t, code[..n])
  {
    assert forall i :: 0 <= i < n ==> code[..n][i] == code[i];
  }

  /** The label line written before a line whose location has a label, which records its position. */
  function PlaceLabel(t: Table, result: seq<string>, location: string): (r: (Table, seq<string>))
    ensures r.0.order == t.order && r.0.labels.Keys == t.labels.Keys
  {
    if location in t.labels then
      var l := t.labels[location];
      (t.(labels := t.labels[location := l.(line := Some(|result|))]), result + [LabelName(l) + ":"])
    else (t, result)
  }

  /** The range check of the render pass: the target lies outside [start, end]. */
  predicate Outside(target: string, start: string, end: string) {
    LexLess(end, target) || LexLess(target, start)
  }

  /** One line of the render pass. */
  function RenderStep(t: Table, result: seq<string>, ins: Instr, start: string, end: string): (r: (Table, seq<string>))
    requires Target(ins).Some? ==> Target(ins).value in t.labels
    ensures r.0.order == t.order && r.0.labels.Keys == t.labels.Keys
  {
    var placed := PlaceLabel(t, result, ins.location);
    var t1, r1 := placed.0, placed.1;
    match ins.jump
    case None => (t1, r1 + ["  " + ins.instruction])
    case Some(j) =>
      if !StartsWith(j.target, "0x") then (t1, r1 + ["  " + j.kind + " " + j.target])
      else if Outside(j.target, start, end) then (t1, r1 + ["  " + j.kind + " " + j.target + " (outside)"])
      else
        var l := t1.labels[j.target];
        (t1.(labels := t1.labels[j.target := l.(referencedAt := l.referencedAt + [|r1|])]),
         r1 + ["  " + j.kind + " " + LabelName(l)])
  }

  /** The render pass over the lines, in order. */
  function RenderAll(t: Table, result: seq<string>, code: seq<Instr>, start: string, end: string): (r: (Table, seq<string>))
    requires Registered(t, code)
    ensures r.0.order == t.order && r.0.labels.Keys == t.labels.Keys
    decreases |code|
  {
    if code == [] then (t, result)
    else
      RegisteredPrefix(t, code, |code| - 1);
      var prev := RenderAll(t, result, code[..|code| - 1], start, end);
      RenderStep(prev.0, prev.1, code[|code| - 1], start, end)
  }

  /** The render pass over one more line is one more step. */
  lemma RenderAllStep(t: Table, code: seq<Instr>, k: nat, start: string, end: string)
    requires Registered(t, code) && k < |code|
    ensures Registered(t, code[..k]) && Registered(t, code[..k + 1])
    ensures var prev := RenderAll(t, [], code[..k], start, end);
            Target(code[k]).Some? ==> Target(code[k]).value in prev.0.labels
    ensures var prev := RenderAll(t, [], code[..k], start, end);
            RenderAll(t, [], code[..k + 1], start, end) == RenderStep(prev.0, prev.1, code[k], start, end)
  {
    RegisteredPrefix(t, code, k);
    RegisteredPrefix(t, code, k + 1);
    assert code[..k + 1][..k] == code[..k];
    assert code[..k + 1][k] == code[k];
  }

  /** Two versions of a label that differ at most in where they are placed. */
  predicate SameIdentity(a: Label, b: Label) {
    a.id == b.id && a.jumpCount == b.jumpCount && a.userLabel == b.userLabel && a.editor == b.editor
    && a.backward == b.backward && a.forward == b.forward
  }

  /** Rendering changes no label's id, jump count or flags: only its line and its references. */
  lemma {:induction false} RenderKeepsNames(t: Table, result: seq<string>, code: seq<Instr>, start: string, end: string)
    requires Registered(t, code)
    ensures var r := RenderAll(t, result, code, start, end);
      forall k :: k in t.labels ==> SameIdentity(r.0.labels[k], t.labels[k])
    decreases |code|
  {
    if code != [] {
      RegisteredPrefix(t, code, |code| - 1);
      RenderKeepsNames(t, result, code[..|code| - 1], start, end);
      var prev := RenderAll(t, result, code[..|code| - 1], start, end);
      RenderStepKeeps(prev.0, prev.1, code[|code| - 1], start, end);
    }
  }

  lemma RenderStepKeeps(t: Table, result: seq<string>, ins: Instr, start: string, end: string)
    requires Target(ins).Some? ==> Target(ins).value in t.labels
    ensures var r := RenderStep(t, result, ins, start, end);
      forall k :: k in t.labels ==> SameIdentity(r.0.labels[k], t.labels[k])
  {
  }

  /** A label's name is fixed by its identity: placing it does not rename it. */
  lemma SameIdentityName(a: Label, b: Label)
    requires SameIdentity(a, b)
    ensures LabelName(a) == LabelName(b)
  {
  }

  /** The number of lines whose location has a label. */
  function LabelledLines(keys: set<string>, code: seq<Instr>): nat
    decreases |code|
  {
    if code == [] then 0
    else LabelledLines(keys, code[..|code| - 1]) + (if code[|code| - 1].location in keys then 1 else 0)
  }

  /**
   * The render pass keeps what was rendered before and writes one line per
   * input line, plus one label line before each line whose location has a
   * label.
   */
  lemma {:induction false} RenderLength(t: Table, result: seq<string>, code: seq<Instr>, start: string, end: string)
    requires Registered(t, code)
    ensures var r := RenderAll(t, result, code, start, end);
      |r.1| == |result| + |code| + LabelledLines(t.labels.Keys, code) && r.1[..|result|] == result
    decreases |code|
  {
    if code != [] {
      RegisteredPrefix(t, code, |code| - 1);
      RenderLength(t, result, code[..|code| - 1], start, end);
      var prev := RenderAll(t, result, code[..|code| - 1], start, end);
      RenderStepLength(prev.0, prev.1, code[|code| - 1], start, end);
      var r := RenderAll(t, result, code, start, end);
      PrefixOfPrefix(r.1, prev.1, result);
    }
  }

  /** One render step writes the line, after its label line when its location has a label. */
  lemma RenderStepLength(t: Table, result: seq<string>, ins: Instr, start: string, end: string)
    requires Target(ins).Some? ==> Target(ins).value in t.labels
    ensures var r := RenderStep(t, result, ins, start, end);
      |r.1| == |result| + 1 + (if ins.location in t.labels then 1 else 0) && r.1[..|result|] == result
  {
  }

  lemma PrefixOfPrefix(a: seq<string>, b: seq<string>, c: seq<string>)
    requires |c| <= |b| <= |a| && a[..|b|] == b && b[..|c|] == c
    ensures a[..|c|] == c
  {
    assert a[..|c|] == b[..|c|];
  }

  /** Some line has the location `k`. */
  ghost predicate LocatedAt(code: seq<Instr>, k: string) {
    exists i :: 0 <= i < |code| && code[i].location == k
  }

  /**
   * After the render pass, every label whose location is one of the lines
   * records the position of its label line, and that line is the label's
   * name followed by a colon.
   */
  lemma RenderPlacesLabels(t: Table, result: seq<string>, code: seq<Instr>, start: string, end: string)
    requires Registered(t, code)
    ensures var r := RenderAll(t, result, code, start, end);
      forall k :: k in t.labels && LocatedAt(code, k) ==>
        var p := r.0.labels[k].line;
        p.Some? && |result| <= p.value < |r.1| && r.1[p.value] == LabelName(t.labels[k]) + ":"
  {
    forall k | k in t.labels && LocatedAt(code, k) {
      RenderPlacesLabel(t, result, code, start, end, k);
    }
  }

  /** A location of the lines other than the last one's is a location of the lines before it. */
  lemma EarlierLocated(code: seq<Instr>, k: string)
    requires LocatedAt(code, k) && k != code[|code| - 1].location
    ensures LocatedAt(code[..|code| - 1], k)
  {
    var i :| 0 <= i < |code| && code[i].location == k;
    assert code[..|code| - 1][i] == code[i];
  }

  /** `RenderPlacesLabels` for one label. */
  lemma {:induction false} RenderPlacesLabel(t: Table, result: seq<string>, code: seq<Instr>, start: string, end: string, k: string)
    requires Registered(t, code) && k in t.labels && LocatedAt(code, k)
    ensures var r := RenderAll(t, result, code, start, end);
      var p := r.0.labels[k].line;
      p.Some? && |result| <= p.value < |r.1| && r.1[p.value] == LabelName(t.labels[k]) + ":"
    decreases |code|
  {
    var pre, x := code[..|code| - 1], code[|code| - 1];
    if k != x.location {
      EarlierLocated(code, k);
    }
    RegisteredPrefix(t, code, |code| - 1);
    RenderLength(t, result, pre, start, end);
    RenderKeepsNames(t, result, pre, start, end);
    var prev := RenderAll(t, result, pre, start, end);
    var r := RenderAll(t, result, code, start, end);
    assert r == RenderStep(prev.0, prev.1, x, start, end);
    RenderStepPlaces(prev.0, prev.1, x, start, end);
    if k == x.location {
      SameIdentityName(prev.0.labels[k], t.labels[k]);
    } else {
      RenderPlacesLabel(t, result, pre, start, end, k);
      var p := prev.0.labels[k].line;
      assert r.0.labels[k].line == p;
      assert r.1[p.value] == prev.1[p.value];
    }
  }

  /**
   * One render step keeps the lines written so far and adds at least one;
   * the label of the line's location, if any, now sits on the first added
   * line, which is its name and a colon; every other label keeps its line.
   */
  lemma RenderStepPlaces(t: Table, result: seq<string>, ins: Instr, start: string, end: string)
    requires Target(ins).Some? ==> Target(ins).value in t.labels
    ensures var r := RenderStep(t, result, ins, start, end);
      && |r.1| > |result| && r.1[..|result|] == result
      && (ins.location in t.labels ==>
            r.0.labels[ins.location].line == Some(|result|) && r.1[|result|] == LabelName(t.labels[ins.location]) + ":")
      && (forall k :: k in t.labels && k != ins.location ==> r.0.labels[k].line == t.labels[k].line)
  {
    var placed := PlaceLabel(t, result, ins.location);
    var r := RenderStep(t, result, ins, start, end);
    assert |r.1| == |placed.1| + 1 && r.1[..|placed.1|] == placed.1;
    assert placed.1[..|result|] == result;
  }

  /**
   * A jump to an address is written with " (outside)" exactly when the
   * address lies outside the listing's range; otherwise it is written with
   * the target's label name, and the label records the line's position.
   */
  lemma RenderJump(t: Table, result: seq<string>, ins: Instr, start: string, end: string)
    requires Target(ins).Some? && Target(ins).value in t.labels
    ensures var r, j := RenderStep(t, result, ins, start, end), ins.jump.value;
      var p := |r.1| - 1;
      && p >= |result|
      && (Outside(j.target, start, end) ==>
            r.1[p] == "  " + j.kind + " " + j.target + " (outside)"
            && r.0.labels[j.target].referencedAt == t.labels[j.target].referencedAt)
      && (!Outside(j.target, start, end) ==>
            r.1[p] == "  " + j.kind + " " + LabelName(t.labels[j.target])
            && r.0.labels[j.target].referencedAt == t.labels[j.target].referencedAt + [p])
  {
    PlaceLabelKeeps(t, result, ins.location, ins.jump.value.target);
  }

  /** Placing a label keeps the lines so far, and every label's references and name. */
  lemma PlaceLabelKeeps(t: Table, result: seq<string>, location: string, k: string)
    requires k in t.labels
    ensures var r := PlaceLabel(t, result, location);
      && |r.1| >= |result|
      && k in r.0.labels
      && r.0.labels[k].referencedAt == t.labels[k].referencedAt
      && LabelName(r.0.labels[k]) == LabelName(t.labels[k])
  {
    var r := PlaceLabel(t, result, location);
    if location in t.labels && k == location {
      SameIdentityName(r.0.labels[k], t.labels[k]);
    }
  }

  /**
   * What `decompile` does to the table and what it returns: the discovery
   * pass from the table with ids from 0, then the render pass over the
   * range from the first line's location to that of the line before the
   * last, the rendered lines joined with newlines.
   */
  function Decompiled(t: Table, lines: seq<string>, editor: string): (r: (Table, string))
    requires |lines| >= 2 && AllJumpsOk(lines)
  {
    var code := ParseLines(lines);
    var found := DiscoverAll(t, 0, code, editor).0;
    DiscoverRegisters(t, 0, code, editor);
    var rendered := RenderAll(found, [], code, LocationOf(lines[0]), LocationOf(lines[|lines| - 2]));
    (rendered.0, Join(rendered.1, '\n'))
  }

  // ----- the shared label table -----

  /** Whether a label sits on an editor line or is jumped to from it. */
  predicate AtLine(l: Label, line: int) {
    l.line == Some(line) || line in l.referencedAt
  }

  /** The label map shared by every call of `decompile`. */
  class LabelTable {
    var order: seq<string>
    var labels: map<string, Label>

    ghost function Snapshot(): Table
      reads this
    {
      Table(order, labels)
    }

    ghost predicate Valid()
      reads this
    {
      TableOk(Table(order, labels))
    }

    constructor ()
      ensures Valid() && order == [] && labels == map[]
    {
      order, labels := [], map[];
    }

    /**
     * `getLabel`: the first label, in insertion order, that sits on the line
     * or is jumped to from it, or nothing when there is none.
     */
    method GetLabel(line: int) returns (r: Option<Label>)
      requires Valid()
      ensures r.Some? ==> exists i :: 0 <= i < |order| && labels[order[i]] == r.value && AtLine(r.value, line)
                                     && forall j :: 0 <= j < i ==> !AtLine(labels[order[j]], line)
      ensures r.None? ==> forall k :: k in labels ==> !AtLine(labels[k], line)
    {
      var i := 0;
      while i < |order|
        invariant 0 <= i <= |order|
        invariant forall j :: 0 <= j < i ==> !AtLine(labels[order[j]], line)
      {
        var candidate := labels[order[i]];
        if candidate.line == Some(line) || line in candidate.referencedAt {
          return Some(candidate);
        }
        i := i + 1;
      }
      forall k | k in labels
        ensures !AtLine(labels[k], line)
      {
        var j :| 0 <= j < |order| && order[j] == k;
      }
      return None;
    }

    /**
     * `decompile`: the discovery pass registers every address jumped to,
     * the render pass writes the listing, and the listing is returned
     * joined with newlines.
     */
    method Decompile(lines: seq<string>, editor: string) returns (text: string)
      requires |lines| >= 2 && AllJumpsOk(lines)
      requires Valid()
      modifies this
      ensures Valid()
      ensures (Snapshot(), text) == Decompiled(old(Snapshot()), lines, editor)
    {
      var startLocation := LocationOf(lines[0]);
      var endLocation := LocationOf(lines[|lines| - 2]);
      ghost var initial := Snapshot();
      ghost var code := ParseLines(lines);
      DiscoverTable(initial, 0, code, editor);
      DiscoverRegisters(initial, 0, code, editor);
      DiscoverPass(lines, editor);
      var result := RenderPass(lines, startLocation, endLocation);
      text := Join(result, '\n');
    }

    /** The first loop of `decompile`: the discovery pass, with ids from 0. */
    method DiscoverPass(lines: seq<string>, editor: string)
      requires AllJumpsOk(lines)
      modifies this
      ensures Snapshot() == DiscoverAll(old(Snapshot()), 0, ParseLines(lines), editor).0
    {
      var labelCount: nat := 0;
      ghost var initial := Snapshot();
      ghost var code := ParseLines(lines);
      for index := 0 to |lines|
        invariant (Snapshot(), labelCount) == DiscoverAll(initial, 0, code[..index], editor)
      {
        DiscoverAllStep(initial, 0, code, index, editor);
        var location, instruction := LocationOf(lines[index]), InstructionOf(lines[index]);
        assert code[index] == Instr(location, instruction, JumpIn(instruction));
        labelCount := DiscoverLine(location, instruction, labelCount, editor);
      }
      assert code[..|lines|] == code;
    }

    /** The second loop of `decompile`: the render pass over the range [start, end]. */
    method RenderPass(lines: seq<string>, startLocation: string, endLocation: string) returns (result: seq<string>)
      requires AllJumpsOk(lines) && Registered(Snapshot(), ParseLines(lines))
      modifies this
      ensures (Snapshot(), result) == RenderAll(old(Snapshot()), [], ParseLines(lines), startLocation, endLocation)
    {
      result := [];
      ghost var found := Snapshot();
      ghost var code := ParseLines(lines);
      for index := 0 to |lines|
        invariant Registered(found, code[..index])
        invariant (Snapshot(), result) == RenderAll(found, [], code[..index], startLocation, endLocation)
      {
        RenderAllStep(found, code, index, startLocation, endLocation);
        var location, instruction := LocationOf(lines[index]), InstructionOf(lines[index]);
        assert code[index] == Instr(location, instruction, JumpIn(instruction));
        result := RenderLine(location, instruction, result, startLocation, endLocation);
      }
      assert code[..|lines|] == code;
    }

    /** One pass of the discovery loop of `decompile`, on a line taken apart; returns the next id. */
    method DiscoverLine(location: string, instruction: string, labelCount: nat, editor: string) returns (next: nat)
      requires StartsWith(instruction, "j") ==> ' ' in instruction
      modifies this
      ensures (Snapshot(), next) == DiscoverStep(old(Snapshot()), labelCount, Instr(location, instruction, JumpIn(instruction)), editor)
    {
      next := labelCount;
      var jump := JumpIn(instruction);
      if jump.Some? {
        var target := jump.value.target;
        if !StartsWith(target, "0x") {
          return;
        }
        if target !in labels {
          order := order + [target];
          labels := labels[target := NewLabel(labelCount, editor)];
          next := labelCount + 1;
        }
        var entry := labels[target];
        labels := labels[target := entry.(backward := entry.backward || LexLess(target, location),
                                          forward := entry.forward || LexLess(location, target),
                                          jumpCount := entry.jumpCount + 1)];
      }
    }

    /** One pass of the render loop of `decompile`, on a line taken apart; returns the listing so far. */
    method RenderLine(location: string, instruction: string, result: seq<string>, startLocation: string, endLocation: string)
      returns (result': seq<string>)
      requires StartsWith(instruction, "j") ==> ' ' in instruction
      requires var ins := Instr(location, instruction, JumpIn(instruction)); Target(ins).Some? ==> Target(ins).value in labels
      modifies this
      ensures (Snapshot(), result') == RenderStep(old(Snapshot()), result, Instr(location, instruction, JumpIn(instruction)), startLocation, endLocation)
    {
      result' := result;
      var jump := JumpIn(instruction);
      if location in labels {
        var entry := labels[location];
        labels := labels[location := entry.(line := Some(|result'|))];
        result' := result' + [LabelName(entry) + ":"];
      }
      if jump.Some? {
        var jumpType, target := jump.value.kind, jump.value.target;
        if !StartsWith(target, "0x") {
          result' := result' + ["  " + jumpType + " " + target];
        } else if LexLess(endLocation, target) || LexLess(target, startLocation) {
          result' := result' + ["  " + jumpType + " " + target + " (outside)"];
        } else {
          var targetLabel := labels[target];
          labels := labels[target := targetLabel.(referencedAt := targetLabel.referencedAt + [|result'|])];
          result' := result' + ["  " + jumpType + " " + LabelName(targetLabel)];
        }
      } else {
        result' := result' + ["  " + instruction];
      }
    }
  }
}
