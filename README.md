# SNN_Tag_Creator in Dafny

A model of `main_script.py`, a script that creates a Subversion tag for a BM
line. The script works in five steps:

- It prompts for a menu number until it gets the name of a configuration file that exists.
- It reads the tag name, the tag base path, the copy source and the ordered folder list from that file.
- It creates the tag folder with `svn mkdir`.
- For every folder, it appends a line to the `BM_log` file and then issues `svn cp`.
- It appends a blank line to the log.

The model has five modules:

- `TextSplit` (`text_split.dfy`): Python's `str.split(sep, maxsplit)` for a one-character separator, and `Join`, which undoes it.
- `Naming` (`naming.dfy`): the derived strings. These are the display name written to the log, the tag and destination URLs, the `source@revision` reference and the commit messages.
- `Menu` (`menu.dfy`): the two-entry menu, one prompt (`get_user_selection`) and the selection loop of `main`.
- `Config` (`config.dfy`): the folder loop of `parse_xml_config`, over the attribute maps of the folder elements.
- `Workflow` (`workflow.dfy`): the run itself, as the class `TagSession`.
  - The field `log` holds the lines of the log file. It outlives the run.
  - The field `events` records, in order, every `svn` command issued and every log line written.
  - The methods (`CreateSvnFolder`, `SvnCopy`, `AppendLog`, `CopyFolder`, `CopyFolders`, `Run`, `Execute`) update these fields as the script does.
  - `CreateSvnFolder`, `SvnCopy`, `AppendLog` and `CopyFolder` state their new state outright. `CopyFolders` is proved against the functions `CopyPhase` and `FolderLines`, and `Run` against `RunEvents`, `RunLog` and `RunTermination`. The lemmas beside these functions state what the script promises.
  - The selection loop `Menu.SelectConfiguration` is proved against the function `SelectFrom`.

The `svn` client is not modelled. Each `svn` command instead comes back with an
`Outcome`:

- `Succeeded`: return code zero.
- `NonZeroExit`: a non-zero return code.
- `Raised`: `subprocess.run` itself raised.

The create outcome is a parameter. The copy outcomes are a function from the folder's position to an outcome.

Three behaviours of the code are worth stating:

- Each folder's log line is written before its copy is attempted, whatever the copy's outcome (`main_script.py:125-132`).
- `log_file_path` is bound only inside the loop body. With no folders it is never bound, so the append at line 134 raises after the tag was created, and the process exits with status 1 (`Termination.LogPathUnbound`).
- An unknown menu number ends the process with `exit()` and no argument, which is exit status 0 (`main_script.py:34`).

## Model

| member | source | states |
|---|---|---|
| TextSplit.Find | main_script.py:126 | the index returned holds the separator and no earlier index does; no index means the separator does not occur |
| TextSplit.Split | main_script.py:126 | a split with at most `maxsplit` cuts yields between 1 and `maxsplit + 1` pieces |
| TextSplit.SplitJoin | main_script.py:126 | joining the pieces with the separator gives back the original string |
| TextSplit.SplitPiecesFree | main_script.py:126 | every piece except the last is free of the separator |
| TextSplit.SplitCount | main_script.py:126 | the number of pieces is one more than the smaller of `maxsplit` and the number of separators, so `split('_', 2)` has three pieces exactly when the name holds at least two underscores |
| Naming.DisplayNameAfterSecondUnderscore | main_script.py:126-127 | given the first two underscores of a name, the logged name is everything after the second one |
| Naming.DisplayName | main_script.py:126-127 | the name written to the log: the third piece of `split('_', 2)` when there are three pieces, else the whole folder name. Its contract says the logged name is never longer than the folder name |
| Naming.DisplayNameIsSuffix | main_script.py:126-127 | the logged name is always a suffix of the folder name |
| Naming.DisplayNameIsWhole | main_script.py:126-127 | the whole folder name is logged exactly when it holds fewer than two underscores, that is, exactly when the split does not yield three pieces |
| Naming.DisplayNameStopsAfterTwoCuts | main_script.py:126-127 | `A_B_C_D` is logged as `C_D` |
| Naming.DisplayNameKeepsEmptyPiece | main_script.py:126-127 | `A__B` is logged as `B` |
| Naming.DisplayNameOneUnderscore | main_script.py:126-127 | `A_B` is logged whole |
| Naming.DisplayNameSingleUnderscore | main_script.py:126-127 | any name with exactly one underscore is logged whole |
| Naming.DisplayNameThirdPieceExample | main_script.py:126-127 | `Motor_7k4W_Alpha` is logged as `Alpha` |
| Naming.DisplayNameWholeExample | main_script.py:126-127 | `Inverter_22kW` is logged whole |
| Naming.CreateMessage | main_script.py:59 | the `svn mkdir` commit message ends with the tag URL |
| Naming.TagUrlParts | main_script.py:112 | the tag URL is `root_svn_path`, then `/`, then `root_tag` |
| Naming.DestinationUnderTag | main_script.py:112-118 | every destination is the tag URL `root_svn_path/root_tag`, then `/`, then the folder name, so the tag URL is a prefix of it |
| Naming.DestinationNamesFolder | main_script.py:118 | the folder name can be read back from its destination, so two folders of one tag share a destination only when they share a name |
| Naming.SourceRefParts | main_script.py:77 | the copy source is the source URL, then `@`, then the revision |
| Naming.SourceRefNamesRevision | main_script.py:77 | with one source URL for every folder, two copies share a source exactly when they share a revision |
| Naming.CopyMessageNames | main_script.py:117 | the copy's commit message starts with `Copying BM "<folder name>"` and ends with `to Tag "<tag name>".` |
| Naming.LogEntryParts | main_script.py:128 | a log entry is the display name, then ` : `, then the destination URL (the `\n` terminator is not part of the modelled line) |
| Menu.GetUserSelection | main_script.py:17-34 | keys 1 and 2 return their two file names, and only they do; any other integer leads to exit(); non-integer text is a ValueError |
| Menu.SelectConfiguration | main_script.py:95-106 | the prompting loop returns the outcome the specification `SelectFrom` gives for the typed inputs and the files on disk |
| Menu.SelectFromOutcome | main_script.py:95-106 | the loop ends at the first prompt that does not re-prompt. That is a known key whose file exists (selected), or an unknown integer (exit). If every prompt re-prompts (non-integer input, or a file that is missing), the loop ends at the end of input |
| Menu.SelectedIsMenuFile | main_script.py:17-20 | a selected file is one of the menu's files and exists on disk |
| Config.CollectFolders | main_script.py:47-51 | the folder list has one (name, revision) pair per folder element, in document order. It fails exactly when some element lacks an attribute, and then names the first such element and the attribute looked up first (`name` before `revision`) |
| Workflow.ExitStatus | main_script.py:63-69 | the process exit status is 0 for the final banner (line 138) and for `exit()` after an unknown menu number (line 34). It is 1 for `sys.exit(1)` (lines 65 and 69) and for every uncaught exception |
| Workflow.CopyPhaseShape | main_script.py:116-132 | the folder loop does two steps per folder: folder i's log line at position 2i, then its copy at 2i+1 |
| Workflow.CopyPhaseCommands | main_script.py:116-132 | the commands of the folder loop are one copy per folder, in configuration order |
| Workflow.CopyPhaseLines | main_script.py:121-129 | the lines the folder loop writes are one log line per folder, in configuration order |
| Workflow.CopyCommandUnderTag | main_script.py:117-118 | each copy goes from `source_url@revision` to the tag URL followed by `/` and the folder name, under the folder's commit message |
| Workflow.RunIssuesCommands | main_script.py:109-132 | `svn mkdir` of the tag is issued exactly once, and first. After a successful create, exactly one copy per folder follows, in order, whatever the copies report. Each copy goes from `source_url@revision` (the same source URL for every folder) to `<tag URL>/<folder name>`. After a failed create nothing else is issued |
| Workflow.RunLogIsLoggedLines | main_script.py:121-136 | the lines among the run's events are exactly the lines the run appends to the log |
| Workflow.RunWritesLog | main_script.py:121-136 | with n ≥ 1 folders and a successful create, the log gains n lines `<display name> : <destination>`, in order, then one blank line. In every other case it gains nothing |
| Workflow.LogLineBeforeCopy | main_script.py:116-136 | each folder's log line is written immediately before its copy is issued, and the blank line is the run's last event |
| Workflow.RunExitStatus | main_script.py:113-138 | the run exits with status 0 exactly when the tag was created and there is at least one folder, whatever became of the copies |
| Workflow.TagSession.CreateSvnFolder | main_script.py:56-69 | issues one `svn mkdir` with the "Creating BM-tag at" message. It reports failure for a non-zero return code and for a raised exception alike |
| Workflow.TagSession.SvnCopy | main_script.py:72-91 | issues one `svn cp` of `source_url@revision`, whatever the outcome, and leaves the log alone |
| Workflow.TagSession.AppendLog | main_script.py:125-129 | appends one line to the log; the earlier content is left unchanged as a prefix |
| Workflow.TagSession.CopyFolder | main_script.py:117-132 | one pass of the loop: the folder's log line, then its copy |
| Workflow.TagSession.CopyFolders | main_script.py:116-132 | the loop issues the folder loop's events and appends one line per folder. `log_file_path` ends up bound exactly when there is a folder |
| Workflow.TagSession.Run | main_script.py:109-138 | the events and the log after a run are the earlier ones followed by `RunEvents` and `RunLog`. The earlier log is kept as a prefix. The run ends as `RunTermination` says, which does not depend on the copies' outcomes |
| Workflow.TagSession.Execute | main_script.py:94-138 | after the selection loop: an exit, or the end of input, or a file that does not parse leaves the log and the events untouched and ends accordingly. Otherwise the run over the parsed configuration takes place |

## Left out

- The `svn` client (`subprocess.run`, `main_script.py:60`, `main_script.py:82`): each command's result is an `Outcome` parameter. The text `svn` prints is not modelled.
- XML parsing (`main_script.py:39-45`): `TagSession.Execute` takes a map from file name to parsed configuration. A chosen file missing from the map stands for a document that fails to parse or lacks a field. Only the folder loop (`main_script.py:47-51`) is modelled, by `Config.CollectFolders`, over each folder element's attribute map.
- Console output: the menu text (including the `.xml` suffix stripped from the labels), the prompt, the success and error messages and the ANSI colours are not modelled.
- Console input: each line typed is an `Input` value, an integer or not.
- File-system effects: `os.getcwd`, `os.path.join`, `os.path.exists`, `os.makedirs` and `open` are not modelled. The set of configuration files that exist is a parameter. The log file is a sequence of lines that the run only appends to.
- Log lines are modelled without their `\n` terminator. A folder name holding a newline, which would split one entry into two lines of the file, is not modelled.
- Exceptions outside the script's own handling are not modelled. These are `KeyboardInterrupt` and I/O errors while reading the configuration files or writing the log.
- Python integers: `int(input())` accepts forms (signs, surrounding blanks, underscores) that are folded into the `Integer`/`NotInteger` input.
- Workflow.TagSession.Execute: does not separate a configuration that fails to parse from one that lacks a field; both end as `ConfigUnreadable` with status 1.
