/**
 * The "client" command: a read-dispatch loop over console lines. Each pass
 * is an input step: the line ReadLine returned (None for null, at the end
 * of input) and how the dispatched command ended, with the lines it wrote
 * or the exception it threw. Running out of steps reads as null. The "> "
 * prompt is left out.
 */
module ClientStartCommands {
  import opened Wrappers
  import opened Text
  import opened Console

  const Banner := "Client was started.\nPress <Enter> to exit..."
  /** The names of the five registered subcommands. */
  const CommandNames: seq<string> := ["list", "create-archive", "status", "download", "complete-archive"]
  /** The IndexOutOfRangeException a line without tokens raises outside the try block. */
  const IndexOutOfRangeMessage := "Index was outside the bounds of the array."

  datatype Step = Step(line: Option<string>, execution: Outcome<seq<string>>)

  /** A subcommand was executed with these arguments. */
  datatype Invocation = Invocation(name: string, args: seq<string>)

  function UnknownCommandLine(name: string): string {
    "Unknown command: " + name
  }

  /** A null or empty line ends the session. */
  predicate EndsSession(line: Option<string>) {
    line.None? || line.value == ""
  }

  /** The tokens of a pass's line; none for a line that ends the session. */
  function Words(step: Step): seq<string> {
    if EndsSession(step.line) then [] else Tokens(step.line.value)
  }

  /** A pass that goes round the loop again: a line with at least one token. */
  predicate Continues(step: Step) {
    Words(step) != []
  }

  /** The lines a continuing pass writes: an unknown name, or what the command wrote or threw. */
  function StepOutput(step: Step): (r: seq<string>)
    ensures !Continues(step) ==> r == []
    ensures Continues(step) && StepInvocations(step) == [] ==> r == [UnknownCommandLine(Words(step)[0])]
    ensures StepInvocations(step) != [] && step.execution.Returned? ==> r == step.execution.value
    ensures StepInvocations(step) != [] && step.execution.Threw? ==> r == [ExceptionLine(step.execution.message)]
  {
    var words := Words(step);
    if words == [] then []
    else if words[0] !in CommandNames then [UnknownCommandLine(words[0])]
    else match step.execution
      case Returned(lines) => lines
      case Threw(message) => [ExceptionLine(message)]
  }

  /** The command a continuing pass executes, with the tokens after the name as its arguments. */
  function StepInvocations(step: Step): (r: seq<Invocation>)
    ensures |r| <= 1
    ensures r != [] <==> Continues(step) && Words(step)[0] in CommandNames
    ensures r != [] ==> r[0].name in CommandNames && [r[0].name] + r[0].args == Words(step)
  {
    var words := Words(step);
    if words != [] && words[0] in CommandNames then [Invocation(words[0], words[1..])] else []
  }

  function SessionOutput(steps: seq<Step>): seq<string>
    decreases |steps|
  {
    if steps == [] then [] else SessionOutput(steps[..|steps| - 1]) + StepOutput(steps[|steps| - 1])
  }

  function SessionInvocations(steps: seq<Step>): seq<Invocation>
    decreases |steps|
  {
    if steps == [] then [] else SessionInvocations(steps[..|steps| - 1]) + StepInvocations(steps[|steps| - 1])
  }

  /** Only registered command names are ever executed, at most one per pass. */
  lemma {:induction false} OnlyRegisteredCommandsRun(steps: seq<Step>)
    ensures |SessionInvocations(steps)| <= |steps|
    ensures forall k | 0 <= k < |SessionInvocations(steps)| :: SessionInvocations(steps)[k].name in CommandNames
    decreases |steps|
  {
    if steps != [] {
      var init := steps[..|steps| - 1];
      OnlyRegisteredCommandsRun(init);
      var r := SessionInvocations(steps);
      var before := SessionInvocations(init);
      var last := StepInvocations(steps[|steps| - 1]);
      assert r == before + last;
      forall k | 0 <= k < |r| ensures r[k].name in CommandNames {
        if k >= |before| { assert r[k] == last[k - |before|]; }
        else { assert r[k] == before[k]; }
      }
    }
  }

  /**
   * The position of the pass that leaves the loop, or |steps| when the input
   * runs out first. FirstStopLeaves states what characterises it.
   */
  function FirstStop(steps: seq<Step>): (r: nat)
    ensures r <= |steps|
    decreases |steps|
  {
    if steps == [] || !Continues(steps[0]) then 0 else 1 + FirstStop(steps[1..])
  }

  /** The pass that leaves the loop is the first that does not continue it. */
  lemma {:induction false} FirstStopLeaves(steps: seq<Step>)
    ensures forall k | 0 <= k < FirstStop(steps) :: Continues(steps[k])
    ensures FirstStop(steps) < |steps| ==> !Continues(steps[FirstStop(steps)])
    decreases |steps|
  {
    if steps != [] && Continues(steps[0]) {
      FirstStopLeaves(steps[1..]);
      forall k | 0 <= k < FirstStop(steps) ensures Continues(steps[k]) {
        if k > 0 { assert steps[k] == steps[1..][k - 1]; }
      }
    }
  }

  /**
   * OnExecuteAsync. The session returns 0 when it reads a null or empty line;
   * a line of spaces only throws out of the loop. Unknown names and
   * exceptions from commands are reported and the loop goes on.
   */
  method Execute(steps: seq<Step>) returns (result: Outcome<int>, output: seq<string>, invoked: seq<Invocation>)
    ensures var k := FirstStop(steps);
      && output == [Banner] + SessionOutput(steps[..k])
      && invoked == SessionInvocations(steps[..k])
      && (k < |steps| && !EndsSession(steps[k].line) ==> result == Threw(IndexOutOfRangeMessage))
      && (k == |steps| || EndsSession(steps[k].line) ==> result == Returned(0))
  {
    output := [Banner];
    invoked := [];
    var i := 0;
    while i < |steps|
      invariant i <= FirstStop(steps)
      invariant output == [Banner] + SessionOutput(steps[..i])
      invariant invoked == SessionInvocations(steps[..i])
    {
      var end, lines, executed := Pass(steps[i]);
      StopBound(steps, i);
      if end == Exit {
        break;
      }
      if end == Crash {
        return Threw(IndexOutOfRangeMessage), output, invoked;
      }
      SessionGrows(steps, i);
      AppendAfterBanner(SessionOutput(steps[..i]), lines);
      output := output + lines;
      invoked := invoked + executed;
      i := i + 1;
    }
    result := Returned(0);
  }

  /** How one pass of the loop ends. */
  datatype PassEnd = Exit | Crash | Next

  /**
   * One pass: a null or empty line exits; otherwise the line is split, and a
   * line without tokens crashes on inputArgs[0]. Then, inside the try block,
   * the first token is looked up among the command names and the command is
   * run with the other tokens, or the unknown name is reported.
   */
  method Pass(step: Step) returns (end: PassEnd, lines: seq<string>, executed: seq<Invocation>)
    ensures end == Exit <==> EndsSession(step.line)
    ensures end == Next <==> Continues(step)
    ensures end == Next ==> lines == StepOutput(step) && executed == StepInvocations(step)
  {
    var input := step.line;
    if input.None? || input.value == "" {
      return Exit, [], [];
    }
    var inputArgs := Tokens(input.value);
    if |inputArgs| == 0 {
      return Crash, [], [];
    }
    var commandName := inputArgs[0];
    var commandArgs := inputArgs[1..];
    if commandName !in CommandNames {
      return Next, [UnknownCommandLine(commandName)], [];
    }
    match step.execution {
      case Returned(written) =>
        lines := written;
      case Threw(message) =>
        lines := [ExceptionLine(message)];
    }
    return Next, lines, [Invocation(commandName, commandArgs)];
  }

  /** One more continuing pass adds its own output and invocations to the session's. */
  lemma SessionGrows(steps: seq<Step>, i: nat)
    requires i < |steps|
    ensures SessionOutput(steps[..i + 1]) == SessionOutput(steps[..i]) + StepOutput(steps[i])
    ensures SessionInvocations(steps[..i + 1]) == SessionInvocations(steps[..i]) + StepInvocations(steps[i])
  {
    assert steps[..i + 1][..i] == steps[..i];
  }

  /** Before the stop, a pass is the stop exactly when it does not continue the loop. */
  lemma StopBound(steps: seq<Step>, i: nat)
    requires i <= FirstStop(steps) && i < |steps|
    ensures Continues(steps[i]) <==> i < FirstStop(steps)
  {
    FirstStopLeaves(steps);
  }

  /** A proof step for Execute, kept apart so that its proof does not see the loop's facts. */
  lemma AppendAfterBanner(written: seq<string>, lines: seq<string>)
    ensures [Banner] + written + lines == [Banner] + (written + lines)
  {
  }

  /** A line that is a name and its arguments joined by spaces executes that command with exactly those arguments. */
  lemma DispatchesJoinedLine(name: string, args: seq<string>, execution: Outcome<seq<string>>)
    requires name in CommandNames
    requires AllTokens(args)
    ensures var step := Step(Some(Join(" ", [name] + args)), execution);
      Continues(step) && StepInvocations(step) == [Invocation(name, args)]
  {
    assert IsToken(name);
    NameAndArgsReadBack(name, args);
    DispatchesWords(Step(Some(Join(" ", [name] + args)), execution), name, args);
  }

  /** A pass whose tokens are a registered name and its arguments continues and executes exactly that. */
  lemma DispatchesWords(step: Step, name: string, args: seq<string>)
    requires name in CommandNames
    requires Words(step) == [name] + args
    ensures Continues(step) && StepInvocations(step) == [Invocation(name, args)]
  {
    assert ([name] + args)[1..] == args;
  }

  /** A token followed by tokens, joined by spaces, splits back into the same words. */
  lemma NameAndArgsReadBack(name: string, args: seq<string>)
    requires IsToken(name)
    requires AllTokens(args)
    ensures Join(" ", [name] + args) != ""
    ensures Tokens(Join(" ", [name] + args)) == [name] + args
  {
    assert ([name] + args)[1..] == args;
    TokensOfJoin([name] + args);
  }

  /** A non-empty line leaves the loop exactly when it consists of spaces only. */
  lemma BlankLineLeavesLoop(line: string, execution: Outcome<seq<string>>)
    requires line != ""
    ensures !Continues(Step(Some(line), execution)) <==> IsBlank(line)
  {
    TokensEmptyIffBlank(line);
  }
}
