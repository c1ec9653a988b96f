/**
 * Rewriting a `node …` command so that V8 writes the logs the analysis
 * reads: the flags below are added after the command's own arguments and
 * before the script it runs.
 */
module Instrument {
  import opened JsStrings

  /** The flags passed on to V8, in the order they are added. */
  const INSTRUMENTATION_ARGS: seq<string> := [
    "--no-logfile-per-isolate",
    "--allow-natives-syntax",
    "--trace-ic",
    "--print-opt-code",
    "--redirect-code-traces",
    "--redirect-code-traces-to=.v8-insights/opt-code",
    "--logfile=.v8-insights/log"
  ]

  /** The tokens between the first and the last: what is left after dropping both. */
  function Middle(tokens: seq<string>): (r: seq<string>)
    requires |tokens| >= 1
    ensures |tokens| >= 2 ==> r == tokens[1..|tokens| - 1]
    ensures |tokens| == 1 ==> r == []
  {
    var args := tokens[1..];
    if |args| > 0 then args[..|args| - 1] else []
  }

  /** The last token, or "undefined" (as a template literal writes a missing value) when there is only one. */
  function CommandFile(tokens: seq<string>): (r: string)
    requires |tokens| >= 1
    ensures |tokens| >= 2 ==> r == tokens[|tokens| - 1]
    ensures |tokens| == 1 ==> r == "undefined"
  {
    var args := tokens[1..];
    if |args| > 0 then args[|args| - 1] else "undefined"
  }

  /** The enriched command for `command`. */
  function Enriched(command: string): (r: string)
    ensures StartsWith(r, "node ")
  {
    var tokens := Split(command, ' ');
    "node " + Join(Middle(tokens) + INSTRUMENTATION_ARGS, ' ') + " " + CommandFile(tokens)
  }

  /**
   * `instrumentCommand`: splits the command on single spaces, drops the
   * first token ("node"), takes off the last (the script), pushes the
   * flags and joins everything behind a fresh "node".
   */
  method InstrumentCommand(command: string) returns (enrichedCommand: string)
    ensures enrichedCommand == Enriched(command)
  {
    var commandArgs := Split(command, ' ');
    commandArgs := commandArgs[1..];
    var commandFile: string;
    if |commandArgs| > 0 {
      commandFile := commandArgs[|commandArgs| - 1];
      commandArgs := commandArgs[..|commandArgs| - 1];
    } else {
      commandFile := "undefined";
    }
    commandArgs := commandArgs + INSTRUMENTATION_ARGS;
    enrichedCommand := "node " + Join(commandArgs, ' ') + " " + commandFile;
  }

  /** None of the flags holds a space. */
  lemma ArgsHaveNoSpace()
    ensures forall i :: 0 <= i < |INSTRUMENTATION_ARGS| ==> ' ' !in INSTRUMENTATION_ARGS[i]
  {
    forall i | 0 <= i < |INSTRUMENTATION_ARGS| ensures ' ' !in INSTRUMENTATION_ARGS[i] {
      FlagHasNoSpace(i);
    }
  }

  lemma FlagHasNoSpace(i: nat)
    requires i < |INSTRUMENTATION_ARGS|
    ensures ' ' !in INSTRUMENTATION_ARGS[i]
  {
    var flag := INSTRUMENTATION_ARGS[i];
    if i == 0 {
      assert flag == "--no-logfile-per-isolate";
    } else if i == 1 {
      assert flag == "--allow-natives-syntax";
    } else if i == 2 {
      assert flag == "--trace-ic";
    } else if i == 3 {
      assert flag == "--print-opt-code";
    } else if i == 4 {
      assert flag == "--redirect-code-traces";
    } else if i == 5 {
      assert flag == "--redirect-code-traces-to=.v8-insights/opt-code";
    } else {
      assert flag == "--logfile=.v8-insights/log";
    }
  }

  /** The enriched command is the join of its tokens. */
  lemma EnrichedJoin(command: string)
    ensures var tokens := Split(command, ' ');
            Enriched(command) == Join(["node"] + Middle(tokens) + INSTRUMENTATION_ARGS + [CommandFile(tokens)], ' ')
  {
    var tokens := Split(command, ' ');
    var middle, file := Middle(tokens), CommandFile(tokens);
    var args := middle + INSTRUMENTATION_ARGS;
    JoinAround("node", args, file, ' ');
    assert "node " == "node" + [' '] && " " == [' '];
    assert ["node"] + args + [file] == ["node"] + middle + INSTRUMENTATION_ARGS + [file];
  }

  /** No token of the enriched command holds a space. */
  lemma TokensHaveNoSpace(command: string)
    ensures var tokens := Split(command, ' ');
            var all := ["node"] + Middle(tokens) + INSTRUMENTATION_ARGS + [CommandFile(tokens)];
            forall i :: 0 <= i < |all| ==> ' ' !in all[i]
  {
    var tokens := Split(command, ' ');
    var all := ["node"] + Middle(tokens) + INSTRUMENTATION_ARGS + [CommandFile(tokens)];
    SplitJoin(command, ' ');
    ArgsHaveNoSpace();
    forall i | 0 <= i < |all| ensures ' ' !in all[i] {
      if 1 <= i <= |Middle(tokens)| {
        assert all[i] == tokens[i];
      } else if |Middle(tokens)| < i < |all| - 1 {
        assert all[i] == INSTRUMENTATION_ARGS[i - 1 - |Middle(tokens)|];
      }
    }
  }

  /**
   * The tokens of the enriched command: "node", the middle tokens of the
   * input in order, the seven flags in order, and the input's last token
   * (or "undefined" for a one-token input). Empty tokens from doubled
   * spaces are kept.
   */
  lemma EnrichedTokens(command: string)
    ensures var tokens := Split(command, ' ');
            Split(Enriched(command), ' ') == ["node"] + Middle(tokens) + INSTRUMENTATION_ARGS + [CommandFile(tokens)]
  {
    EnrichedJoin(command);
    TokensHaveNoSpace(command);
    var tokens := Split(command, ' ');
    JoinSplit(["node"] + Middle(tokens) + INSTRUMENTATION_ARGS + [CommandFile(tokens)], ' ');
  }

  /** The first token of the input is dropped without being looked at. */
  lemma FirstTokenIgnored(a: string, b: string, rest: string)
    requires ' ' !in a && ' ' !in b
    ensures Enriched(a + " " + rest) == Enriched(b + " " + rest)
  {
    SplitCons(a, ' ', rest);
    SplitCons(b, ' ', rest);
    var tail := Split(rest, ' ');
    assert ([a] + tail)[1..] == tail == ([b] + tail)[1..];
  }

  /** The last token of the input, when there is more than one, is the last token of the output. */
  lemma ScriptKeptLast(command: string)
    requires |Split(command, ' ')| >= 2
    ensures var tokens := Split(Enriched(command), ' ');
            tokens[|tokens| - 1] == Split(command, ' ')[|Split(command, ' ')| - 1]
  {
    EnrichedTokens(command);
  }
}
