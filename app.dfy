/** The run loop: two pre-checks, then a welcome, then read/dispatch until
    `\bye` or end of input, then a goodbye. A run is observed through the
    trace of what it shows and hands on, and the number of reads it makes.
    The input is finite; running out of it is read as end of input. */
module App {
  import opened Wrappers
  import opened Configuration
  import Client
  import opened Ui

  const ConfigErrorMessage: string := "Error: OPENAI_API_KEY environment variable is not set."
  const HelpMessage: string := "Available commands: \\chat, \\bye, \\help"
  const ByeCommand: string := "\\bye"
  const HelpCommand: string := "\\help"

  /** One observable step of a run. `Query(s)`: `client.get_completion(s)`
      is called; `DisplayResponse(s)`: the result of that call is handed to
      `ui.display_response`. */
  datatype Output =
    | Printed(text: string)
    | Welcome
    | Query(text: string)
    | DisplayResponse(text: string)
    | Goodbye

  /** What the loop shows, and how many reads it makes. */
  datatype Session = Session(outputs: seq<Output>, readCount: nat)

  /** Whether a read ends the loop. */
  predicate Ends(e: ReadEvent)
  {
    e == Eof || e == Line(ByeCommand)
  }

  /** What one read that does not end the loop shows. */
  function Turn(e: ReadEvent): seq<Output>
  {
    match e
    case Interrupt => []
    case Eof => []
    case Line(s) =>
      if s == HelpCommand then [Printed(HelpMessage)] else [Query(s), DisplayResponse(s)]
  }

  /** The meaning of the read/dispatch loop on the remaining reads. */
  function Loop(inputs: seq<ReadEvent>): (r: Session)
    ensures 1 <= r.readCount <= |inputs| + 1
    ensures |r.outputs| <= 2 * (r.readCount - 1)
  {
    if inputs == [] then Session([], 1)
    else
      match inputs[0]
      case Eof => Session([], 1)
      case Interrupt =>
        var rest := Loop(inputs[1..]);
        Session(rest.outputs, rest.readCount + 1)
      case Line(s) =>
        if s == ByeCommand then Session([], 1)
        else
          var rest := Loop(inputs[1..]);
          Session(Turn(inputs[0]) + rest.outputs, rest.readCount + 1)
  }

  /** `run()` against a configuration and the outcomes of successive
      `ui.get_user_input()` calls. */
  method Run(config: Config, inputs: seq<ReadEvent>) returns (trace: seq<Output>, readCount: nat)
    ensures !Validate(config) ==> trace == [Printed(ConfigErrorMessage)] && readCount == 0
    ensures Validate(config) ==> trace == [Welcome] + Loop(inputs).outputs + [Goodbye]
    ensures Validate(config) ==> readCount == Loop(inputs).readCount
  {
    if !Validate(config) {
      return [Printed(ConfigErrorMessage)], 0;
    }
    var client := Client.NewLLMClient(config);
    if client.Failure? {
      // The client re-checks the configuration validated just above, so
      // the "Error initializing client" branch cannot be taken.
      assert false;
    }
    trace := [Welcome];
    readCount := 0;
    var i := 0;
    while true
      invariant 0 <= i <= |inputs|
      invariant trace + Loop(inputs[i..]).outputs == [Welcome] + Loop(inputs).outputs
      invariant readCount + Loop(inputs[i..]).readCount == Loop(inputs).readCount
      decreases |inputs| - i
    {
      readCount := readCount + 1;
      if i == |inputs| {
        break;
      }
      var e := inputs[i];
      assert inputs[i..][1..] == inputs[i + 1..];
      i := i + 1;
      match e {
        case Interrupt =>
          continue;
        case Eof =>
          break;
        case Line(text) =>
          if text == ByeCommand {
            break;
          } else if text == HelpCommand {
            trace := trace + [Printed(HelpMessage)];
            continue;
          }
          trace := trace + [Query(text), DisplayResponse(text)];
      }
    }
    trace := trace + [Goodbye];
  }

  /** The outputs of a run of reads, none of which ends the loop, turn by
      turn: the reference the loop is compared with. */
  function Turns(es: seq<ReadEvent>): seq<Output>
  {
    if es == [] then [] else Turn(es[0]) + Turns(es[1..])
  }

  /** Reads that do not end the loop each contribute their own turn, in
      order, and one read each. */
  lemma {:induction false} LoopByTurns(prefix: seq<ReadEvent>, rest: seq<ReadEvent>)
    requires forall j :: 0 <= j < |prefix| ==> !Ends(prefix[j])
    ensures Loop(prefix + rest) == Session(Turns(prefix) + Loop(rest).outputs, |prefix| + Loop(rest).readCount)
  {
    if prefix == [] {
      assert prefix + rest == rest;
    } else {
      assert (prefix + rest)[0] == prefix[0];
      assert (prefix + rest)[1..] == prefix[1..] + rest;
      assert !Ends(prefix[0]);
      LoopByTurns(prefix[1..], rest);
      assert Turns(prefix) + Loop(rest).outputs == Turn(prefix[0]) + (Turns(prefix[1..]) + Loop(rest).outputs);
    }
  }

  /** `\bye` or end of input ends the loop right after that read: later
      inputs are never read. */
  lemma LoopEndsAt(prefix: seq<ReadEvent>, e: ReadEvent, rest: seq<ReadEvent>)
    requires forall j :: 0 <= j < |prefix| ==> !Ends(prefix[j])
    requires Ends(e)
    ensures Loop(prefix + [e] + rest) == Session(Turns(prefix), |prefix| + 1)
  {
    assert prefix + [e] + rest == prefix + ([e] + rest);
    LoopByTurns(prefix, [e] + rest);
  }

  /** The loop itself never shows the welcome or the goodbye. */
  lemma {:induction false} LoopHasNoFrame(inputs: seq<ReadEvent>)
    ensures Welcome !in Loop(inputs).outputs && Goodbye !in Loop(inputs).outputs
  {
    if inputs != [] && !Ends(inputs[0]) {
      LoopHasNoFrame(inputs[1..]);
    }
  }

  /** Once the loop is entered, the welcome is shown exactly once, first,
      and the goodbye exactly once, last, whatever ends the loop. */
  lemma WelcomeAndGoodbyeOnce(inputs: seq<ReadEvent>)
    ensures var t := [Welcome] + Loop(inputs).outputs + [Goodbye];
      t[0] == Welcome && t[|t| - 1] == Goodbye &&
      (forall i :: 0 < i < |t| ==> t[i] != Welcome) &&
      (forall i :: 0 <= i < |t| - 1 ==> t[i] != Goodbye)
  {
    LoopHasNoFrame(inputs);
    var o := Loop(inputs).outputs;
    var t := [Welcome] + o + [Goodbye];
    forall i | 0 < i < |t| - 1 ensures t[i] == o[i - 1] && t[i] != Welcome && t[i] != Goodbye {
      assert o[i - 1] in o;
    }
  }

  /** Every model call is followed at once by handing its result to the
      display, and every display is preceded by its call. */
  predicate Paired(o: seq<Output>)
  {
    && (forall i :: 0 <= i < |o| && o[i].Query? ==> i + 1 < |o| && o[i + 1] == DisplayResponse(o[i].text))
    && (forall i :: 0 <= i < |o| && o[i].DisplayResponse? ==> 0 < i && o[i - 1] == Query(o[i].text))
  }

  /** Joining two paired traces keeps them paired: neither can end in a
      call waiting for its display, nor begin with a display waiting for
      its call. */
  lemma PairedAppend(a: seq<Output>, b: seq<Output>)
    requires Paired(a) && Paired(b)
    ensures Paired(a + b)
  {
    var o := a + b;
    forall i | 0 <= i < |o| && o[i].Query? ensures i + 1 < |o| && o[i + 1] == DisplayResponse(o[i].text) {
      if i < |a| {
        assert a[i] == o[i];
        assert o[i + 1] == a[i + 1];
      } else {
        assert b[i - |a|] == o[i];
      }
    }
    forall i | 0 <= i < |o| && o[i].DisplayResponse? ensures 0 < i && o[i - 1] == Query(o[i].text) {
      if i < |a| {
        assert a[i] == o[i];
      } else {
        assert b[i - |a|] == o[i];
        if i > |a| {
          assert o[i - 1] == b[i - 1 - |a|];
        }
      }
    }
  }

  /** The loop pairs each model call with one display of its result. */
  lemma {:induction false} QueriesPaired(inputs: seq<ReadEvent>)
    ensures Paired(Loop(inputs).outputs)
  {
    if inputs != [] && !Ends(inputs[0]) {
      QueriesPaired(inputs[1..]);
      var t := Turn(inputs[0]);
      assert Paired(t);
      PairedAppend(t, Loop(inputs[1..]).outputs);
      assert Loop(inputs).outputs == t + Loop(inputs[1..]).outputs;
    }
  }

  /** Only ordinary lines reach the model, verbatim: never `\bye` or
      `\help`, and nothing that was not read. */
  lemma {:induction false} QueriesAreForwardedLines(inputs: seq<ReadEvent>)
    ensures forall q :: Query(q) in Loop(inputs).outputs ==> Line(q) in inputs && q != ByeCommand && q != HelpCommand
  {
    if inputs != [] && !Ends(inputs[0]) {
      QueriesAreForwardedLines(inputs[1..]);
      assert Loop(inputs).outputs == Turn(inputs[0]) + Loop(inputs[1..]).outputs;
      forall q | Query(q) in Loop(inputs).outputs ensures Line(q) in inputs && q != ByeCommand && q != HelpCommand {
        if Query(q) !in Turn(inputs[0]) {
          assert Line(q) in inputs[1..];
        }
      }
    }
  }

  /** `\bye` first: one read, nothing shown in between, no model call. */
  lemma ByeFirst(rest: seq<ReadEvent>)
    ensures Loop([Line(ByeCommand)] + rest) == Session([], 1)
  {
  }

  /** `\help` then `\bye`: two reads, the help text once, no model call. */
  lemma HelpThenBye(rest: seq<ReadEvent>)
    ensures Loop([Line(HelpCommand), Line(ByeCommand)] + rest) == Session([Printed(HelpMessage)], 2)
  {
  }

  /** An ordinary line then `\bye`: one model call with that line, its
      result displayed once, two reads. */
  lemma LineThenBye(s: string, rest: seq<ReadEvent>)
    requires s != ByeCommand && s != HelpCommand
    ensures Loop([Line(s), Line(ByeCommand)] + rest) == Session([Query(s), DisplayResponse(s)], 2)
  {
  }

  /** End of input at the first read ends the loop without `\bye`. */
  lemma EofFirst(rest: seq<ReadEvent>)
    ensures Loop([Eof] + rest) == Session([], 1)
  {
  }

  /** A KeyboardInterrupt raised by the read leads to another read and no
      model call. */
  lemma InterruptRereads(rest: seq<ReadEvent>)
    ensures Loop([Interrupt] + rest) == Session(Loop(rest).outputs, Loop(rest).readCount + 1)
  {
  }

  /** Ctrl+C at the prompt does not reach the loop as an interrupt:
      `get_user_input` turns it into "", which is sent to the model. */
  lemma CtrlCQueriesEmpty(rest: seq<ReadEvent>)
    ensures Loop([GetUserInput(CtrlC)] + rest)
         == Session([Query(""), DisplayResponse("")] + Loop(rest).outputs, Loop(rest).readCount + 1)
  {
  }

  /** Reading through the terminal UI, the loop's own interrupt branch is
      never taken: no read outcome is an interrupt. */
  lemma UiNeverInterrupts(prompts: seq<PromptOutcome>)
    ensures forall i :: 0 <= i < |prompts| ==> GetUserInput(prompts[i]) != Interrupt
  {
  }
}
