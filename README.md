# Lililia agent core, modelled in Dafny

Lililia is a chat agent. It sends the user's messages to a remote bot and finds the directives the bot embeds in its replies (`[[FILE:…]]`, `[[DIR:…]]`, `[[RUN:…]]`, `[[GIT:…]]`, `[[INSTALL:…]]`, or any other text in double brackets). It executes them on the host and reports the results back to the bot for review, and the review may contain further directives.

The model covers four pieces:

- **Directive grammar and output formatter** (`Utils`, `utils.dfy`). `extract_commands` is a recursive scanner, together with a declarative "leftmost-first matches" definition it is proved to compute. `format_command_output` renders a record.
- **Dispatcher and handlers** (`CommandExecutor`, `executor.dfy`).
  - Prefix classification, the FILE payload split, the shell-or-tokenise decision, package-manager detection and the uniform `{stdout, stderr, returncode, message}` record (`CommandResult`, `result.dfy`).
  - The handlers are functions of an `Env` oracle: the platform, path expansion, `dirname`, path probes, `makedirs`, file writes and process runs. Each returns its record and the host actions it performed.
  - The module-global `git_credentials_configured` is the field of class `Executor`. A ghost event trace records when the credential setup happened.
- **Execute/report/review rounds** (`CommandManager`, `manager.dfy`).
  - Class `ReviewLoop` runs each batch through the real `Executor`.
  - It keeps `command_outputs` as an insertion-ordered association list with Python dictionary semantics, and writes the report files into a `files` map.
  - It delivers each report over a `Chat.Client` (`chat.dfy`), whose remote side is an oracle that answers each request given the history. Delivery is an attachment first, then the review message, the 1500-character parts and the closing question.
  - It recurses on the directives of the reply up to the depth bound, and keeps a ghost log of the rounds.
- **The conversation loop** (`MainLoop`, `main_loop.dfy`).
  - `send_message_with_fallback` is a method proved against `TryInOrder`, which tries the permitted ways of sending in order.
  - The `while True` loop of `main` is a method over the lines the user types. One loop state holds `successful_method` and `last_commands`, and a ghost record shows what each turn did.

Two behaviours of the code a reader might not expect:

- **Directives cannot span lines.** `re.findall` applies the pattern `\[\[(.*?)\]\]` (config.py:18, utils.py:9) without `re.DOTALL`, so `.` does not match a newline. An opener whose first closer comes after a newline therefore matches nothing at that position (`Utils.BlockedOpenerSkipped`).
- **A reply that always contains a directive leads to five rounds, not four.** The guard `depth > 3` (command_manager.py:95) admits follow-up rounds at depths 0 to 3, and the top-level round comes before them (`CommandManager.ReviewRoundsShape`).

Other consequences of the code as written that the model makes explicit:

- **A FILE directive the bot sends inside a reply is always rejected.** An extracted body can never contain the `]]` that the FILE handler needs as its separator (`CommandExecutor.ExtractedFileDirectivesRejected`).
- **Duplicate directives run every time but leave a single report entry.** The entry sits where the directive first appeared and holds the result of its last run (`CommandManager.BatchEntriesCollapse`).
- **The top-level preview replaces every stored record.** `output[:100]` slices a dictionary, which raises, so each stored record becomes `"Error executing command: …"` (`CommandManager.ReviewLoop.ExecuteOne`).
- **`response` can be left unbound.** This happens when both the attachment send and the review send raise. The extraction that follows then raises instead of recursing (`CommandManager.ResponseUnboundIff`, `Finish.Unbound`), and the error ends `main` (`MainLoop.Ending.ReviewCrashed`).

## Model

| member | source | states |
|---|---|---|
| Utils.ExtractCommands | utils.py:5-9 | `None` and the empty string yield no directives |
| Utils.FindCloser | config.py:18 | the lazy `(.*?)` search finds the first closer from the given position, with no newline before it; it finds none exactly when a newline comes before every later closer |
| Utils.Scan | utils.py:9 | every match found from a position starts at or after it and lies inside the text, its opener and closer not overlapping |
| Utils.Spans | utils.py:9 | every span `findall` reports over a text has its body between opener and closer, inside the text |
| Utils.ScanIsLeftmost | utils.py:9 | the scanner returns exactly the leftmost-first, non-overlapping matches of `\[\[(.*?)\]\]` from a position on |
| Utils.LeftmostUnique | config.py:18 | there is only one leftmost-first match sequence, so the scanner's result is determined by the text |
| Utils.SpansAreLeftmost | utils.py:9 | the spans of the matches are in increasing order and do not overlap, each one ending at the first closer after its opener |
| Utils.ExtractedCount | utils.py:9 | there is one directive per match, so a text the pattern matches nowhere yields no directive, and only such a text |
| Utils.ExtractedAtSpans | utils.py:9 | there is one body per match, duplicates included; body k is the text strictly inside span k, and `"[[" + body + "]]"` occurs at that span |
| Utils.FindCloserMeansMatch | config.py:18 | finding a closer means a match at that opener, and finding none means no match starts there |
| Utils.BodyOfMatch | config.py:18 | the body of a match contains neither `]]` nor a newline |
| Utils.ExtractedBodiesAreFlat | utils.py:9 | no extracted body contains `]]` or a newline |
| Utils.BlockedOpenerSkipped | utils.py:9 | an opener whose first closer comes after a newline yields no match, and scanning continues one character later |
| Utils.FormatCommandOutput | utils.py:17-35 | the output starts with the `Command: [[cmd]]` header and ends with the closing fence; text output is followed by one newline; a record shows message, STDOUT, STDERR and exit code in that order |
| Utils.MessageSection | utils.py:23-24 | the message line is there exactly when the message is non-empty |
| Utils.StdoutSection | utils.py:25-26 | the STDOUT section is there exactly when stdout is non-empty |
| Utils.StderrSection | utils.py:27-28 | the STDERR section is there exactly when stderr is non-empty |
| Utils.ExitSection | utils.py:29-30 | the exit-code line is there exactly when the exit code is not `None` |
| Utils.FormatShowsExitCodeZero | utils.py:29-30 | exit code 0 is printed, because the test is `is not None` |
| Utils.FormatBlankRecord | utils.py:17-34 | a blank record renders as header and footer only |
| Text.Strip | command_executor.py:138-140 | `strip()` gives a slice of the input with only whitespace outside it, and a non-empty result neither starts nor ends with whitespace |
| Text.Lower | main.py:28 | `lower()` keeps the length and lower-cases each character on its own |
| Text.LowerIsKeyword | main.py:28-33 | `lower() == w` for a lower-case keyword holds exactly when the input spells `w` in any mixture of cases |
| Text.NatToStringInjective | command_manager.py:114 | different depths render as different decimal strings |
| CommandExecutor.PrefixesExclusive | config.py:21-25 | the five prefixes begin with five different characters, so at most one matches |
| CommandExecutor.Classify | command_executor.py:23-44 | each handler is chosen exactly when its prefix matches, and the generic handler exactly when none does |
| CommandExecutor.Dispatch | command_executor.py:22-44 | the chosen handler starts at most one process; a completed process's output and exit code are the record's, a start that raised leaves its text as stderr and no exit code, and with no process there is no exit code and no stdout |
| CommandExecutor.FileSplit | command_executor.py:132-133 | there is no split exactly when the directive has no `]]`; otherwise the directive is the part before, `]]` and the part after, and no `]]` starts before the cut, so the cut is at the first `]]` |
| CommandExecutor.HandleFile | command_executor.py:128-140 | without `]]` the result is the invalid-format message with no action; otherwise the stripped, expanded path and the stripped content are written |
| CommandExecutor.WriteFileAt | command_executor.py:143-166 | a failed parent-directory creation returns early with its error and no write; otherwise the message is the directory notice, if a directory was created, then the write outcome; the exit code is never set |
| CommandExecutor.HandleDir | command_executor.py:168-184 | one `makedirs(path, exist_ok=True)` is done, then the created message or the error as stderr and message |
| CommandExecutor.ShellOrSplit | command_executor.py:195-197 | the command line is kept, and off Windows it is always tokenised |
| CommandExecutor.ShellDecision | command_executor.py:186-320 | RUN, GIT and generic directives start one process; they use the shell exactly when on Windows the tested text has `&&`, `%` or `$`; for GIT that is the tested remainder, the run line is `git ` plus it, and the prompt-suppressing variables depend on the platform; a start that raises leaves `Error executing command: ` (for GIT, `Error executing git command: `) and the exception's text as the message |
| CommandExecutor.HandleRun | command_executor.py:186-219 | exactly one process is started, the run invocation of the stripped remainder, and the record reports it; when starting it raises, the message is `Error executing command: ` and the exception's text |
| CommandExecutor.HandleGit | command_executor.py:221-264 | exactly one process is started, `git ` plus the stripped remainder with the prompt-suppressing variables, and the record reports it; when starting it raises, the message is `Error executing git command: ` and the exception's text |
| CommandExecutor.HandleGeneric | command_executor.py:306-338 | exactly one process is started, the whole directive as a command line, and the record reports it; when starting it raises, the message is `Error executing command: ` and the exception's text |
| CommandExecutor.ProcessResult | command_executor.py:203-217 | a completed process's output and exit code are copied verbatim; an exception gives its text as stderr and message, with no exit code |
| CommandExecutor.HandleInstall | command_executor.py:266-277 | when no package manager is found, the result is the message and nothing runs |
| CommandExecutor.FirstPresent | command_executor.py:340-368 | the result is the first candidate present in priority order, or `None` exactly when none is present |
| CommandExecutor.DetectPackageManager | command_executor.py:340-368 | `None` only when no candidate manager of the platform is present |
| CommandExecutor.DetectIsFirstPresent | command_executor.py:340-368 | detection gives the install command of the first present candidate in priority order, and `None` when none is present |
| CommandExecutor.WindowsChain | command_executor.py:342-354 | on Windows the if/elif chain picks pip, then npm, then choco, whichever is present first |
| CommandExecutor.UnixChain | command_executor.py:355-368 | elsewhere the if/elif chain picks apt, yum, dnf, brew, pip, then npm, whichever is present first |
| CommandExecutor.DetectFollowsPriority | command_executor.py:340-368 | the if/elif chain gives the install command of the first present manager (Windows: pip, npm, choco; otherwise apt, yum, dnf, brew, pip, npm), and `None` exactly when none is present |
| CommandExecutor.InstallHandlerUsesFirstPresent | command_executor.py:266-304 | the INSTALL handler gives the not-detected record and starts nothing when no manager is present; otherwise it starts exactly the first present manager's command, and a failed start is reported as `Error installing package: …` |
| CommandExecutor.InstallUsesFirstPresent | command_executor.py:266-304 | INSTALL runs the first present manager's command, or nothing with the not-detected message; a failure to start is reported as `Error installing package: …` |
| CommandExecutor.ExitCodeOnlyFromProcess | command_executor.py:22-44 | for every directive and host, dispatch starts at most one process, and the record has an exit code only when that process ran to completion; then its stdout, stderr and exit code are the record's and the message is empty |
| CommandExecutor.ShellOnlyOnWindows | command_executor.py:280-286 | off Windows every process starts from a token list; on Windows INSTALL always goes through the shell |
| CommandExecutor.ExtractedFileDirectivesRejected | command_executor.py:132-136 | every FILE directive obtained by extraction is rejected as invalid without any filesystem action |
| CommandExecutor.CommandKeepsTraceOk | command_executor.py:18-20 | each call keeps the setup discipline: set at most once, only for GIT, right before a GIT dispatch, never reset |
| CommandExecutor.GitSetupOnce | command_executor.py:18-20 | two GIT directives in a fresh process: the setup happens first, right before the first GIT dispatch, and never again |
| CommandExecutor.CommandDispatchedOnce | command_executor.py:10-46 | each call dispatches its directive exactly once |
| CommandExecutor.Executor.constructor | command_executor.py:8 | the flag starts false with an empty trace |
| CommandExecutor.Executor.ExecuteCommand | command_executor.py:10-46 | the result is the dispatched handler's record; the flag becomes set by any GIT directive, whatever the setup returned, and is never reset; the setup discipline holds |
| Chat.Client.Send | poe_client.py:16-74 | a send is logged and answered by the service given the earlier requests |
| CommandManager.Lookup | command_manager.py:27-31 | a key has a value exactly when it is among the keys |
| CommandManager.Put | command_manager.py:31 | an assignment adds at most one entry and never removes one |
| CommandManager.PutSemantics | command_manager.py:31 | assigning an existing key keeps its position; a new key goes last; other values are unchanged |
| CommandManager.PutTwice | command_manager.py:31-41 | two assignments to one key leave only the second |
| CommandManager.BatchEntries | command_manager.py:27-42 | the dictionary built from a batch has no more entries than the batch has directives |
| CommandManager.BatchEntriesCollapse | command_manager.py:27-42 | the dictionary has one entry per distinct directive, at the position of its first occurrence, holding the value of its last occurrence |
| CommandManager.FileName | command_manager.py:114 | every report file name, the top-level one included, ends in `.txt` |
| CommandManager.FileNamesDistinct | command_manager.py:114 | two levels have the same report file name exactly when they are the same level |
| CommandManager.ReportText | command_manager.py:46-51 | the report begins with the level's header line |
| CommandManager.JoinMapSplit | command_manager.py:48-51 | the report is the entries' texts in dictionary order |
| CommandManager.ReportShowsEveryEntry | command_manager.py:46-51 | the report starts with its header and contains every entry's `Command:`/`Output:` block with a rule of 50 dashes |
| CommandManager.ChunkAt | command_manager.py:73-74 | every part has between 1 and 1500 characters |
| CommandManager.ChunksReassemble | command_manager.py:72-75 | there are ceil(len/1500) parts, and together they give back the report |
| CommandManager.ChunkRequests | command_manager.py:73-75 | one request per 1500-character part |
| CommandManager.FirstFailure | command_manager.py:73-75 | sending stops at the first part that raises: every part from the starting index up to the stopping index was answered, and the part at that index, if there is one, raised |
| CommandManager.SendAllExtends | command_manager.py:73-75 | sending the parts only appends requests, at most one per part |
| CommandManager.Fallback | command_manager.py:65-78 | after the review message, the response stays assigned and at most the parts and the closing question are sent |
| CommandManager.ResponseUnboundIff | command_manager.py:56-84 | `response` is unbound exactly when both the attachment send and the review send raise; an answered attachment is the response and nothing more is sent |
| CommandManager.Delivery | command_manager.py:55-81 | delivering a report only appends to the history, and always sends at least the attachment |
| CommandManager.DeliveryRequests | command_manager.py:56-78 | delivery starts with the attachment request and sends at most the review message, all parts and the closing question after it |
| CommandManager.FallbackSendsWholeReport | command_manager.py:63-78 | when every part gets a reply, the parts numbered 1, 2, … carry the whole report and the closing question follows |
| CommandManager.ReviewLoop.Execute | command_manager.py:28-30 | the record is the dispatcher's for this directive on the host as the earlier directives left it; the execution count goes up by one, the directive is appended to those handed to the dispatcher, and the report files and the round log are unchanged |
| CommandManager.ReviewLoop.ExecuteNext | command_manager.py:28-42 | one pass of the batch loop: after it the first k + 1 directives have been executed and handed to the dispatcher, and the dictionary is the fold of their assignments |
| CommandManager.ReviewLoop.ExecuteOne | command_manager.py:28-42 | the directive is executed once and its record stored under its text; at top level the raising preview replaces it with the error string |
| CommandManager.ReviewLoop.RunBatch | command_manager.py:27-42 | every directive is executed exactly once, in order, duplicates included, and the dictionary is the fold of those assignments |
| CommandManager.ReviewLoop.WriteReport | command_manager.py:44-51 | the level's file holds the header and every entry in dictionary order |
| CommandManager.ReviewLoop.SendChunks | command_manager.py:72-75 | the parts are sent in order, stopping at the first that raises |
| CommandManager.ReviewLoop.Deliver | command_manager.py:55-81 | the requests and the reply left in `response` are those of the delivery order |
| CommandManager.ReviewLoop.RunRound | command_manager.py:103-150 | one round executes the batch, writes the report file and delivers it, and the round is logged with its reply |
| CommandManager.ReviewLoop.ExecuteCommandsRecursive | command_manager.py:93-155 | the rounds run are those of the recursion: none for an empty batch or beyond depth 3, else a follow-up round at this depth for this batch, then the rounds of its reply's directives at the next depth unless `response` was left unassigned; with no round nothing is sent, written or executed; the result is unbound exactly when the last round left `response` unassigned; and the logged rounds are what ran: from the state before, each executed its batch on the dispatcher, wrote the report of that batch's records to its level's file and delivered it, logging the reply the delivery got, and the requests sent, the execution count, the files and the dispatched directives end as those rounds leave them |
| CommandManager.ReviewLoop.ExecuteCommandsWithReview | command_manager.py:17-91 | an empty batch does nothing; otherwise the top-level round for the batch, then the recursion on its reply's directives from depth 0 unless `response` was left unassigned; the result is unbound exactly when the last round left `response` unassigned; the logged rounds are what ran, each executing its batch, writing its report and delivering it, and the requests sent, the execution count, the files and the dispatched directives end as those rounds leave them |
| CommandManager.RecursiveRoundsShape | command_manager.py:93-155 | a recursion from `depth` runs at most 4 − depth rounds, at consecutive depths, each batch the directives of the previous reply, and fewer only when the last reply is unassigned or holds no directive |
| CommandManager.ReviewRoundsShape | command_manager.py:17-155 | a review runs at most five rounds, none exactly for an empty batch, the top-level round first and then follow-up rounds from depth 0, and fewer than five only when the last reply is unassigned or holds no directive |
| MainLoop.TryInOrder | main.py:54-79 | trying the ways in order only appends requests, at most one per way, and a reply comes by one of the ways tried |
| MainLoop.AttemptRequest | main.py:59-70 | an attempt sends the message with no attachment, using the chat code exactly for way 1 |
| MainLoop.Permitted | main.py:57-68 | with no preference both ways are tried, chat code first; with a preference, only that way |
| MainLoop.TryInOrderSends | main.py:54-79 | one request per way is sent, in order, each after the previous one failed; `None` exactly when all failed; otherwise the way and the reply of the last request |
| MainLoop.PreferenceSticky | main.py:57-79 | with a recorded preference exactly one request is sent, and an answer always comes by that way |
| MainLoop.ChatCodeFirst | main.py:57-79 | with no preference an answered chat-code send ends it; the other way is tried only after a failure; `None` exactly when both fail |
| MainLoop.SendMessageWithFallback | main.py:54-79 | the guarded attempts send and return exactly what trying the permitted ways in order gives |
| MainLoop.ClassifyInput | main.py:28-33 | the input is `exit` or `execute` exactly when it spells that word in any case; anything else is a message |
| MainLoop.Next | main.py:41-49 | a turn changes the loop state only when a message was answered, and a recorded preference stays recorded |
| MainLoop.Replay | main.py:23-52 | once a preference is recorded, every later state still has one |
| MainLoop.LatestReply | main.py:41-45 | the latest reply is the answer some message turn received |
| MainLoop.ReplayFollowsLatestReply | main.py:41-49 | the loop state is always the way and the extracted directives of the latest answered message, even an empty list, and is left alone by a failed send |
| MainLoop.RerunRepeatsLatestReply | main.py:33-38 | `execute` re-runs exactly the directives of the latest answer, and reviews nothing before the first answer |
| MainLoop.PreferenceNeverChanges | main.py:41-45 | once a way has been answered, the recorded preference never changes, and never returns to `None` |
| MainLoop.Turn | main.py:23-52 | one pass of the `while` loop extends the session by exactly the turn it takes, which follows the rules from the state the earlier turns left and runs from the effects they left |
| MainLoop.TakeTurn | main.py:24-52 | one loop body: exit stops; execute reviews only a non-empty list; a message is sent with the preference from the history as it stood, the client's requests growing by exactly the attempts, and its directives are reviewed only when there are some; the rounds the turn adds are those of a review of the turn's directives, and they run from the state the sending left to the requests, execution count, files and dispatched directives the turn ends with |
| MainLoop.Converse | main.py:20-52 | every turn follows those rules from the loop state the earlier turns left and from the requests, execution count, files and dispatched directives the previous turn ended with, the first turn starting from the state before and the last ending in the state after; the round log grows by the turns' rounds in order; the loop ends only on `exit`, at the end of the input, or at a review whose `response` was unbound |

## Left out

- `poe_client.py` is reduced to `Chat.Client`. The service is a function from the history and the request to a reply or an exception. Streaming, tokens, `initialize` and `send_outputs_for_review` are not modelled.
- `test.py` is not part of this model. It is a manual script against the live service.
- From `config.py` only the directive pattern and the five prefixes are used. The credentials, the bot names and the image bot settings are not.
- `expand_path` is the opaque `Env.expandPath`. `os.path.dirname` and `os.path.exists` are the oracles `Env.dirname` and `Env.pathExists`, and `os.name` is `Env.windows`.
- `subprocess.run`, `shlex.split` and the process environment are the oracle `Env.run`, applied to an `Invocation`, which is the shell line or the token line, plus the variables set. A `shlex.split` quoting error is one of the exceptions that oracle can report. Shell semantics are not modelled.
- `setup_git_credentials` is the single event `CredentialSetup`. Its `git config` calls and their outcomes are not modelled, and the flag is set regardless of them.
- CommandExecutor.Dispatch never raises. The code outside the handlers' `try` blocks is `expand_path`, `dirname` and the path probe, and these are total oracles here. So the `"Error executing command: "` branch of the batch loop (command_manager.py:39-41) is reached only through the top-level preview.
- CommandManager.ReviewLoop.StoredValue takes the text of the exception raised by slicing a dictionary as the parameter `previewError`. The exact wording depends on the Python version.
- CommandManager.ReviewLoop.WriteReport: writing and reading back a report file always succeed, and the fallback sends the report as written. Python reads the file back in universal-newline mode, which turns every `\r` and `\r\n` in it (from a directive's output, say) into `\n`; the parts sent then differ from the report, and that is not modelled. A failing `open` would end the round with an exception, and that is not modelled either.
- The output directory `command_outputs` and its creation at import time are not modelled. Files are keyed by their base name.
- `str(output)` of a record in the report is the uninterpreted function `render`.
- CommandManager.ReviewLoop.host: the host answers for the n-th executed directive are given as `host(n)`. The effect of one directive on a later one, such as a file written and then read, is only what that indexing can express.
- Printing, logging, the `asyncio` event loop and `await` are not modelled. Execution is sequential.
- MainLoop.Converse reads the lines from a sequence. At the end of the sequence `input()` raises `EOFError`, modelled as the ending `InputExhausted`.
- Text.Lower lower-cases ASCII letters only. No non-ASCII character can make `lower()` of a string equal to `exit` or `execute` (U+0130, for one, lower-cases to two characters, `i` and a combining dot), so the keyword tests are unaffected.
- Image prompts, image links and opening a browser are not modelled. No source for them is part of this model.
