# MindTerm core, modelled in Dafny

MindTerm is a terminal chat client. It reads a line and passes it to a
client for an OpenAI-compatible chat-completion provider, which streams the
reply as text fragments. The run loop hands that fragment stream to a
display routine (whether the display as written shows it is outside this
model; see "## Left out"). It also knows two built-in commands (`\help`, `\bye`) and offers
autocompletion for command tokens. This project models the logic behind that
and proves properties of the model:

- **Configuration** (`configuration.dfy`, module `Configuration`). The API
  key, base URL and model name are read from an environment, which is given
  as a `map<string, string>`. The two optional settings fall back to
  `https://dashscope.aliyuncs.com/compatible-mode/v1` and `qwen-plus`.
  `Validate` holds exactly when the key is set and non-empty.
- **Command registry** (`commands.dfy`, module `Commands`). A class holding
  the name → action map. It also keeps a log of the actions invoked, so that
  "runs exactly once" can be stated.
- **Completion client** (`client.dfy`, module `Client`). `NewLLMClient`
  refuses an invalid configuration before any provider client exists.
  `LLMClient.GetCompletion` returns the one request it issues and the
  fragments it yields. A fragment is the content of a chunk whose delta is
  not `None`, kept in arrival order. It also returns what it prints when the
  provider fails. The provider's response is an input of type `Gen<Chunk>`
  (module `Generators`). That is a finite list of chunks plus, optionally, an
  exception raised in place of chunk number k.
- **Terminal UI** (`ui.dfy`, module `Ui`). `GetCompletions` is the
  backslash-gated prefix filter over `\chat`, `\bye` and `\help`.
  `DisplayStreamedResponse` is the buffer-accumulating display loop. Each
  live update is recorded as a snapshot of the buffer, together with whether
  the trailing blank line is printed. `GetUserInput` maps what the line
  editor does (a line, Ctrl+C, Ctrl+D) to what its caller sees.
- **Run loop** (`app.dfy`, module `App`). `Run` takes the configuration and
  a finite sequence of read outcomes (`Line(s)`, `Interrupt`, `Eof`). It
  returns the trace of what is shown and handed on (`Printed`, `Welcome`,
  `Query`, `DisplayResponse`, `Goodbye`) and the number of reads. The real
  loop is `while True`; in the model, **running out of inputs is read as
  end of input** (one last read that raises EOFError).

Each method with a loop (`GetCompletion`, `DisplayStreamedResponse`, `Run`)
is proved equal to a specification function (`Completion`, `Render`,
`Loop`). The properties are proved as lemmas about those functions.

### Where the model follows the code rather than the tests or the intended behaviour

- `\help`: `run` prints the one line
  `Available commands: \chat, \bye, \help` (src/mindterm/main.py:39-41).
  The test at tests/test_main.py:70 expects `ui.display_help()` instead.
  The model emits `Printed(HelpMessage)`.
- Model replies: `run` hands the result of `get_completion` to
  `ui.display_response` (src/mindterm/main.py:44-45). The test at
  tests/test_main.py:139 expects `display_streamed_response`. The model's
  trace records `DisplayResponse`.
- Ctrl+C at the prompt: `get_user_input` turns it into `""`
  (src/mindterm/ui.py:117-118), and `run` sends `""` to the model like any
  other line, although an empty line after an interrupt reads as intended
  to be a no-op turn that simply prompts again. The loop's own `KeyboardInterrupt` branch
  (src/mindterm/main.py:31-32) runs only when the read itself raises, which
  the terminal UI never does (`App.CtrlCQueriesEmpty`,
  `App.UiNeverInterrupts`).
- Completion of an exact command: the completer also offers a command the
  line already equals (`Ui.ExactMatchOffersItself`), not only commands the
  line is a proper prefix of.
- Stream failure in the client: `get_completion` prints a diagnostic and
  ends the sequence. It does not yield an error fragment.
- The `Error initializing client` branch of `run`
  (src/mindterm/main.py:19-21) cannot be taken. `LLMClient()` re-checks the
  same immutable configuration that `run` has just validated, and it raises
  ValueError only for an invalid configuration. `Run` proves this with
  `assert false` in that branch.
- A chunk whose `choices` list is empty makes `choices[0]` raise IndexError
  inside the `try` of `get_completion`. This is modelled as the `NoChoices`
  chunk, which prints `Error getting completion: list index out of range`
  and ends the sequence.

## Model

| member | source | states |
|---|---|---|
| `Configuration.GetEnv` | src/mindterm/config.py:10 | the API key is the variable's value when it is set, and absent when it is unset |
| `Configuration.GetEnvOr` | src/mindterm/config.py:11-14 | a getenv default applies only to an unset variable; a variable set to "" yields "" |
| `Configuration.FromEnv` | src/mindterm/config.py:8-14 | each field comes from its variable when set; otherwise the key is absent, the base URL is the dashscope URL and the model is `qwen-plus` |
| `Configuration.Validate` | src/mindterm/config.py:16-18 | an absent key and an empty key are invalid; any non-empty key is valid |
| `Configuration.ValidateFromEnv` | src/mindterm/config.py:16-18 | a configuration is valid iff `OPENAI_API_KEY` is set to a non-empty string; an empty key is invalid |
| `Configuration.DefaultsNonEmpty` | src/mindterm/config.py:11-14 | with both optional variables unset, the base URL and the model are non-empty |
| `Configuration.ValidateOnlyReadsApiKey` | src/mindterm/config.py:16-18 | validity depends on the API key variable alone |
| `Commands.CommandHandler.constructor` | src/mindterm/commands.py:9-11 | a fresh handler has an empty map and has run nothing |
| `Commands.CommandHandler.Register` | src/mindterm/commands.py:13-15 | the name maps to the new action, replacing any earlier binding; every other binding is unchanged |
| `Commands.CommandHandler.Execute` | src/mindterm/commands.py:17-22 | returns true iff the name is registered; then exactly that action is appended to the log, otherwise nothing is; the map is unchanged |
| `Commands.CommandHandler.GetCommands` | src/mindterm/commands.py:24-26 | returns the current bindings (as a value; see "## Left out") |
| `Commands.OccurrencesAppend` | src/mindterm/commands.py:19-21 | a logged execution counts one more run of its action and of no other |
| `Commands.RegisterThenExecute` | src/mindterm/commands.py:13-22 | registering then executing a name handles it and runs its action exactly once; an unregistered name is refused and runs nothing |
| `Client.NewLLMClient` | src/mindterm/client.py:12-23 | fails with the "Invalid configuration…" message iff the configuration is invalid, with no client created; otherwise a fresh client built from the key, base URL and model |
| `Client.LLMClient.constructor` | src/mindterm/client.py:19-23 | the provider client gets the configuration's key and base URL, and `model` is the configuration's model |
| `Client.LLMClient.GetCompletion` | src/mindterm/client.py:25-41 | the request is the client's model, the system preamble and then the user's text, with streaming on; fragments and printed lines are those of `Completion` on the response |
| `Client.Consume` | src/mindterm/client.py:36-41 | the meaning of the loop on the received chunks: at most one fragment per chunk and at most one diagnostic |
| `Client.Completion` | src/mindterm/client.py:27-41 | the meaning of `get_completion` on a response: no more fragments than chunks sent; nothing printed iff every received chunk has choices and the provider did not raise |
| `Client.ConsumeIsFilter` | src/mindterm/client.py:36-38 | when every chunk has choices, the fragments are exactly the non-None delta contents, in arrival order, whatever exception follows |
| `Client.ConsumePrints` | src/mindterm/client.py:39-41 | a diagnostic is printed iff a chunk lacks choices or the provider raised; a provider failure prints "Error getting completion: " followed by its text |
| `Client.ConsumeAppend` | src/mindterm/client.py:36-38 | fragments keep arrival order: consuming a followed by b yields a's fragments and then b's |
| `Client.ConsumeContents` | src/mindterm/client.py:36-38 | every fragment is a non-None delta content received; without a fault, every non-None content (the empty string included) is yielded |
| `Client.FailureEndsStream` | src/mindterm/client.py:39-41 | nothing the provider would send after the failure point is yielded or printed |
| `Client.HelloWorld` | src/mindterm/client.py:36-38 | deltas "Hello", " World" and None yield exactly ["Hello", " World"] and print nothing |
| `Client.FailureAtRequest` | src/mindterm/client.py:27-41 | a failure of the request itself yields nothing and prints one diagnostic |
| `Ui.Matching` | src/mindterm/ui.py:29-31 | every offer is a candidate that starts with the text and replaces all of it; every such candidate is offered |
| `Ui.GetCompletions` | src/mindterm/ui.py:21-31 | nothing is offered unless the text starts with a backslash and the cursor is at its end; then the offers are exactly the commands the text is a prefix of, each with start position -len(text) |
| `Ui.MatchingAppend` | src/mindterm/ui.py:29-31 | offers follow the order of the command list |
| `Ui.BackslashOffersAll` | src/mindterm/ui.py:19-31 | a lone backslash at the cursor offers `\chat`, `\bye` and `\help`, in that order |
| `Ui.PartialOffersOne` | src/mindterm/ui.py:19-31 | `\ch` offers only `\chat` |
| `Ui.ExactMatchOffersItself` | src/mindterm/ui.py:29-31 | a complete command offers itself |
| `Ui.RenderFrom` | src/mindterm/ui.py:92-103 | the meaning of the display loop from a given buffer: at most one snapshot per chunk plus one; when the blank line is skipped, a last snapshot was pushed |
| `Ui.Render` | src/mindterm/ui.py:85-106 | the meaning of `display_streamed_response` on a generator: at most one snapshot per item plus one; a skipped blank line follows a pushed snapshot |
| `Ui.DisplayStreamedResponse` | src/mindterm/ui.py:80-106 | the snapshots pushed and the trailing blank line are those of `Render` on the generator |
| `Ui.RenderAccumulates` | src/mindterm/ui.py:85-96 | after the k-th chunk, when no None came before, the buffer is the concatenation of the first k chunks |
| `Ui.RenderStopsAtNone` | src/mindterm/ui.py:97-100 | the first None chunk adds one last snapshot with "\nError occurred during streaming." appended, stops the display and suppresses the blank line |
| `Ui.RenderCompletes` | src/mindterm/ui.py:101-106 | without a None chunk there is one snapshot per chunk, plus one with "\nError displaying streamed response: " and the exception's text when the generator raised; the blank line is printed |
| `Ui.TrailingBlankIff` | src/mindterm/ui.py:97-106 | the trailing blank line is printed iff no None chunk arrives |
| `Ui.SnapshotsGrow` | src/mindterm/ui.py:92-103 | each live update shows an extension of the previous one |
| `Ui.GetUserInput` | src/mindterm/ui.py:108-118 | a typed line is returned unchanged, Ctrl+C gives "", end of input passes through as EOF, and no KeyboardInterrupt escapes |
| `App.Run` | src/mindterm/main.py:9-47 | invalid configuration: one error line, no reads and nothing else; otherwise the welcome, the loop's outputs and the goodbye, with the loop's read count |
| `App.Loop` | src/mindterm/main.py:28-45 | the meaning of the read/dispatch loop: at least one read and at most one more than the inputs (exhaustion reads as EOF); at most two outputs per read that does not end the loop |
| `App.LoopByTurns` | src/mindterm/main.py:28-45 | reads that do not end the loop each add their own turn, in order, and one read each |
| `App.LoopEndsAt` | src/mindterm/main.py:33-38 | `\bye` or EOF ends the loop right after that read; later inputs are never read |
| `App.LoopHasNoFrame` | src/mindterm/main.py:28-45 | the loop itself never shows the welcome or the goodbye |
| `App.WelcomeAndGoodbyeOnce` | src/mindterm/main.py:23-47 | the welcome is shown exactly once and first, the goodbye exactly once and last |
| `App.QueriesPaired` | src/mindterm/main.py:44-45 | each model call is followed at once by one display of its result, and each display is preceded by its call |
| `App.QueriesAreForwardedLines` | src/mindterm/main.py:36-45 | only lines that were read reach the model, verbatim, and never `\bye` or `\help` |
| `App.ByeFirst` | src/mindterm/main.py:37-38 | `\bye` first: one read, nothing shown between welcome and goodbye |
| `App.HelpThenBye` | src/mindterm/main.py:39-41 | `\help` then `\bye`: two reads, the help line once, no model call |
| `App.LineThenBye` | src/mindterm/main.py:44-45 | an ordinary line then `\bye`: two reads, one model call with that line and one display of its result |
| `App.EofFirst` | src/mindterm/main.py:33-34 | EOF at the first read ends the loop without `\bye` |
| `App.InterruptRereads` | src/mindterm/main.py:31-32 | a KeyboardInterrupt from the read leads to another read and no model call |
| `App.CtrlCQueriesEmpty` | src/mindterm/ui.py:117-118 | Ctrl+C at the prompt sends "" to the model and displays the result |
| `App.UiNeverInterrupts` | src/mindterm/ui.py:111-118 | through the terminal UI, no read outcome is an interrupt |

## Left out

- The OpenAI SDK (`OpenAI(...)`, `chat.completions.create`) is a network call. The response is an input, a `Gen<Chunk>`, and the client only records the provider client's arguments.
- `get_completion` is a lazy generator: the request is issued only once iteration starts. `GetCompletion` models one full consumption of the generator.
- `run` never consumes the generator itself. It hands it to `display_response`, whose truthiness test and Markdown rendering are library behaviour. So `Run` records the handoff (`Query`, `DisplayResponse`) and not what is displayed.
- Rich rendering (`Console`, `Markdown`, `Live`, `Rule`, styles, the 15-per-second refresh) is left out. Only the buffer snapshots and the trailing blank line are recorded. The "Assistant:" header is left out too, and so is any exception raised by `live.update` itself.
- prompt_toolkit (`PromptSession`, `Style`, `HTML` prompt) is treated as an input source (`PromptOutcome`).
- The banners of `display_welcome`, `display_goodbye` and `display_help` are left out; the trace records only that the first two were shown. `display_response` is left out.
- `loguru` logging, `os.getenv` itself (the environment is a parameter), the module-level `config` singleton (`Run` takes the configuration as a parameter) and the `main()` entry point are left out.
- The arguments `*args, **kwargs` that `execute` forwards are left out. The log records which action ran, not what it was given.
- `Config.validate` changing no field needs no statement, because a configuration is an immutable value here.
- `App.Run`: the `Error initializing client: {e}` branch (src/mindterm/main.py:19-21) is proved unreachable, not modelled as output. The tests reach it only by replacing `LLMClient` with a mock.
- App.Run: `ui.display_response` is assumed to return normally. As written it receives the unconsumed generator from `get_completion` (src/mindterm/main.py:44-45); a generator always passes its `if response:` test, so `Markdown(response)` is built from a generator (src/mindterm/ui.py:69-73). If the rendering library raises on that, `run` does not catch it, and the first ordinary line would end the run without a goodbye and without a request sent. An exception raised by `display_response` is not modelled, so the goodbye-last and read-again properties hold only under that assumption.
- Commands.CommandHandler.GetCommands: Python returns the registry's own dictionary, so a caller writing through the result changes the handler. The model returns the bindings as a value, so that aliasing is not captured.
- Commands.CommandHandler.Execute: an action that raises propagates out of `execute` (src/mindterm/commands.py:20), and then nothing is returned. The model's actions always return, so `Execute` always reports true for a bound name.
