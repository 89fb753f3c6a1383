/**
 The tagging run of `main`: create the tag folder with `svn mkdir`, then for
 every configured folder append a line to the log file and issue `svn cp`,
 then append a blank line. The `svn` processes are replaced by the outcome
 each one reports; the log file is a sequence of lines that only grows.
 */
module Workflow {
  import opened Naming
  import opened Config
  import opened Menu

  /** What one `svn` invocation came back with: return code zero, a non-zero
      return code, or an exception raised by `subprocess.run` itself. */
  datatype Outcome = Succeeded | NonZeroExit | Raised

  /** A command handed to the `svn` client. */
  datatype Command =
    | Mkdir(url: string, message: string)
    | Cp(source: string, destination: string, message: string)

  /** One observable step of the script, in the order it happens. */
  datatype Event = Issued(command: Command) | Logged(line: string)

  /** How the process ends. */
  datatype Termination =
    | Completed          // the final success banner
    | TagCreationFailed  // sys.exit(1) in create_svn_folder
    | LogPathUnbound     // no folders: `log_file_path` was never bound, so the trailing append raises
    | SelectionExited    // exit() on an unknown menu number
    | InputEnded         // input() reached end of file and raised EOFError
    | ConfigUnreadable   // parse_xml_config raised on the chosen file

  /** Process exit status: exit() without an argument exits with 0, sys.exit(1)
      and every uncaught exception with 1. */
  function ExitStatus(t: Termination): (status: nat)
    ensures status <= 1
    ensures status == 0 <==> t.Completed? || t.SelectionExited?
  {
    match t
    case Completed => 0
    case SelectionExited => 0
    case _ => 1
  }

  /** The `svn` commands among `events`, in order. */
  function Commands(events: seq<Event>): seq<Command>
  {
    if events == [] then []
    else Commands(events[..|events| - 1]) + (match events[|events| - 1]
                                              case Issued(cmd) => [cmd]
                                              case Logged(_) => [])
  }

  /** The log lines among `events`, in order. */
  function Lines(events: seq<Event>): seq<string>
  {
    if events == [] then []
    else Lines(events[..|events| - 1]) + (match events[|events| - 1]
                                           case Issued(_) => []
                                           case Logged(line) => [line])
  }

  lemma {:induction false} CommandsAppend(a: seq<Event>, b: seq<Event>)
    ensures Commands(a + b) == Commands(a) + Commands(b)
    decreases |b|
  {
    if b != [] {
      assert (a + b)[..|a + b| - 1] == a + b[..|b| - 1];
      CommandsAppend(a, b[..|b| - 1]);
    } else {
      assert a + b == a;
    }
  }

  lemma {:induction false} LinesAppend(a: seq<Event>, b: seq<Event>)
    ensures Lines(a + b) == Lines(a) + Lines(b)
    decreases |b|
  {
    if b != [] {
      assert (a + b)[..|a + b| - 1] == a + b[..|b| - 1];
      LinesAppend(a, b[..|b| - 1]);
    } else {
      assert a + b == a;
    }
  }

  lemma CommandsOne(e: Event)
    ensures Commands([e]) == if e.Issued? then [e.command] else []
  {
    assert [e][..0] == [];
  }

  lemma LinesOne(e: Event)
    ensures Lines([e]) == if e.Logged? then [e.line] else []
  {
    assert [e][..0] == [];
  }

  /** The `svn mkdir` of the tag folder. */
  function MkdirCommand(c: TagConfig): Command
  {
    var tagUrl := TagUrl(c.rootSvnPath, c.rootTag);
    Mkdir(tagUrl, CreateMessage(tagUrl))
  }

  /** The `svn cp` of one folder: always from `source_url@revision`, whatever the folder. */
  function CopyCommand(c: TagConfig, f: FolderSpec): Command
  {
    Cp(SourceRef(c.sourceUrl, f.revision),
       DestinationUrl(c.rootSvnPath, c.rootTag, f.name),
       CopyMessage(f.name, f.revision, c.rootTag))
  }

  /** The log line of one folder. */
  function LogLine(c: TagConfig, f: FolderSpec): string
  {
    LogEntry(DisplayName(f.name), DestinationUrl(c.rootSvnPath, c.rootTag, f.name))
  }

  /** One pass of the folder loop: the log line, then the copy. */
  function CopyStep(c: TagConfig, f: FolderSpec): seq<Event>
  {
    [Logged(LogLine(c, f)), Issued(CopyCommand(c, f))]
  }

  /** The folder loop over `folders`. */
  function CopyPhase(c: TagConfig, folders: seq<FolderSpec>): seq<Event>
  {
    if folders == [] then []
    else CopyPhase(c, folders[..|folders| - 1]) + CopyStep(c, folders[|folders| - 1])
  }

  lemma CopyPhasePrefix(c: TagConfig, folders: seq<FolderSpec>, i: nat)
    requires i < |folders|
    ensures CopyPhase(c, folders[..i + 1]) == CopyPhase(c, folders[..i]) + CopyStep(c, folders[i])
  {
    assert folders[..i + 1][..i] == folders[..i];
  }

  /** Everything one run does once the configuration is parsed: the `svn mkdir`;
      if it succeeds and there are folders, the folder loop and the blank line. */
  function RunEvents(c: TagConfig, create: Outcome): seq<Event>
  {
    [Issued(MkdirCommand(c))] +
    if create != Succeeded || c.folders == [] then [] else CopyPhase(c, c.folders) + [Logged("")]
  }

  /** The log lines of `folders`, in order. */
  function FolderLines(c: TagConfig, folders: seq<FolderSpec>): seq<string>
  {
    seq(|folders|, i requires 0 <= i < |folders| => LogLine(c, folders[i]))
  }

  /** What one run appends to the log file: nothing unless the tag was created
      and there are folders; then one line per folder and a blank line. */
  function RunLog(c: TagConfig, create: Outcome): seq<string>
  {
    if create == Succeeded && c.folders != [] then FolderLines(c, c.folders) + [""] else []
  }

  /** How the run ends; the copies' outcomes play no part. */
  function RunTermination(c: TagConfig, create: Outcome): Termination
  {
    if create != Succeeded then TagCreationFailed
    else if c.folders == [] then LogPathUnbound
    else Completed
  }

  lemma {:induction false} CopyPhaseLength(c: TagConfig, folders: seq<FolderSpec>)
    ensures |CopyPhase(c, folders)| == 2 * |folders|
  {
    if folders != [] {
      CopyPhaseLength(c, folders[..|folders| - 1]);
    }
  }

  /** Pass i of the folder loop sits at positions 2i and 2i+1. */
  lemma {:induction false} CopyPhaseAt(c: TagConfig, folders: seq<FolderSpec>, i: nat)
    requires i < |folders|
    ensures |CopyPhase(c, folders)| == 2 * |folders|
    ensures CopyPhase(c, folders)[2 * i] == Logged(LogLine(c, folders[i]))
    ensures CopyPhase(c, folders)[2 * i + 1] == Issued(CopyCommand(c, folders[i]))
  {
    var init := folders[..|folders| - 1];
    var last := folders[|folders| - 1];
    var phase := CopyPhase(c, init);
    assert CopyPhase(c, folders) == phase + CopyStep(c, last);
    CopyPhaseLength(c, init);
    if i < |init| {
      CopyPhaseAt(c, init, i);
      assert folders[i] == init[i];
    } else {
      assert folders[i] == last && 2 * i == |phase|;
    }
  }

  /** The folder loop alternates: the line of folder i, then the copy of folder i. */
  lemma CopyPhaseShape(c: TagConfig, folders: seq<FolderSpec>)
    ensures |CopyPhase(c, folders)| == 2 * |folders|
    ensures forall i :: 0 <= i < |folders| ==>
              CopyPhase(c, folders)[2 * i] == Logged(LogLine(c, folders[i])) &&
              CopyPhase(c, folders)[2 * i + 1] == Issued(CopyCommand(c, folders[i]))
  {
    CopyPhaseLength(c, folders);
    forall i | 0 <= i < |folders|
      ensures CopyPhase(c, folders)[2 * i] == Logged(LogLine(c, folders[i]))
      ensures CopyPhase(c, folders)[2 * i + 1] == Issued(CopyCommand(c, folders[i]))
    {
      CopyPhaseAt(c, folders, i);
    }
  }

  /** The copy commands of `folders`, in order. */
  function FolderCommands(c: TagConfig, folders: seq<FolderSpec>): seq<Command>
  {
    seq(|folders|, i requires 0 <= i < |folders| => CopyCommand(c, folders[i]))
  }

  lemma CopyStepParts(c: TagConfig, f: FolderSpec)
    ensures Commands(CopyStep(c, f)) == [CopyCommand(c, f)]
    ensures Lines(CopyStep(c, f)) == [LogLine(c, f)]
  {
    var logged, issued := Logged(LogLine(c, f)), Issued(CopyCommand(c, f));
    assert CopyStep(c, f) == [logged] + [issued];
    CommandsAppend([logged], [issued]);
    CommandsOne(logged);
    CommandsOne(issued);
    LinesAppend([logged], [issued]);
    LinesOne(logged);
    LinesOne(issued);
  }

  /** The commands among the folder loop's events are the folders' copies. */
  lemma {:induction false} CopyPhaseCommands(c: TagConfig, folders: seq<FolderSpec>)
    ensures Commands(CopyPhase(c, folders)) == FolderCommands(c, folders)
  {
    if folders != [] {
      var init := folders[..|folders| - 1];
      var last := folders[|folders| - 1];
      calc {
        Commands(CopyPhase(c, folders));
        Commands(CopyPhase(c, init) + CopyStep(c, last));
        { CommandsAppend(CopyPhase(c, init), CopyStep(c, last)); }
        Commands(CopyPhase(c, init)) + Commands(CopyStep(c, last));
        { CopyPhaseCommands(c, init); CopyStepParts(c, last); }
        FolderCommands(c, init) + [CopyCommand(c, last)];
        FolderCommands(c, folders);
      }
    }
  }

  /** The lines among the folder loop's events are the folders' log lines. */
  lemma {:induction false} CopyPhaseLines(c: TagConfig, folders: seq<FolderSpec>)
    ensures Lines(CopyPhase(c, folders)) == FolderLines(c, folders)
  {
    if folders != [] {
      var init := folders[..|folders| - 1];
      var last := folders[|folders| - 1];
      calc {
        Lines(CopyPhase(c, folders));
        Lines(CopyPhase(c, init) + CopyStep(c, last));
        { LinesAppend(CopyPhase(c, init), CopyStep(c, last)); }
        Lines(CopyPhase(c, init)) + Lines(CopyStep(c, last));
        { CopyPhaseLines(c, init); CopyStepParts(c, last); }
        FolderLines(c, init) + [LogLine(c, last)];
        FolderLines(c, folders);
      }
    }
  }

  /** The run's events when the tag was created and there are folders. */
  lemma RunEventsCopying(c: TagConfig, create: Outcome)
    requires create == Succeeded && c.folders != []
    ensures RunEvents(c, create) == [Issued(MkdirCommand(c))] + (CopyPhase(c, c.folders) + [Logged("")])
  {
  }

  /** The commands of the run: the `svn mkdir`, then those of the folder loop if it runs. */
  lemma RunCommandsParts(c: TagConfig, create: Outcome)
    ensures Commands(RunEvents(c, create)) ==
              [MkdirCommand(c)] + if create == Succeeded && c.folders != [] then Commands(CopyPhase(c, c.folders)) else []
  {
    var head := [Issued(MkdirCommand(c))];
    CommandsOne(head[0]);
    if create == Succeeded && c.folders != [] {
      var phase := CopyPhase(c, c.folders);
      var tail := [Logged("")];
      RunEventsCopying(c, create);
      CommandsOne(tail[0]);
      calc {
        Commands(head + (phase + tail));
        { CommandsAppend(head, phase + tail); }
        Commands(head) + Commands(phase + tail);
        { CommandsAppend(phase, tail); }
        [MkdirCommand(c)] + (Commands(phase) + []);
        [MkdirCommand(c)] + Commands(phase);
      }
    } else {
      assert RunEvents(c, create) == head;
    }
  }

  /** The log lines of the run: those of the folder loop and the blank line, if the loop runs. */
  lemma RunLinesParts(c: TagConfig, create: Outcome)
    ensures Lines(RunEvents(c, create)) ==
              if create == Succeeded && c.folders != [] then Lines(CopyPhase(c, c.folders)) + [""] else []
  {
    var head := [Issued(MkdirCommand(c))];
    LinesOne(head[0]);
    if create == Succeeded && c.folders != [] {
      var phase := CopyPhase(c, c.folders);
      var tail := [Logged("")];
      RunEventsCopying(c, create);
      LinesOne(tail[0]);
      calc {
        Lines(head + (phase + tail));
        { LinesAppend(head, phase + tail); }
        Lines(head) + Lines(phase + tail);
        { LinesAppend(phase, tail); }
        [] + (Lines(phase) + [""]);
        Lines(phase) + [""];
      }
    } else {
      assert RunEvents(c, create) == head;
    }
  }

  lemma RunCommandsCopying(c: TagConfig, create: Outcome)
    requires create == Succeeded && c.folders != []
    ensures Commands(RunEvents(c, create)) == [MkdirCommand(c)] + FolderCommands(c, c.folders)
  {
    RunCommandsParts(c, create);
    CopyPhaseCommands(c, c.folders);
  }

  lemma CopyCommandUnderTag(c: TagConfig, f: FolderSpec)
    ensures CopyCommand(c, f) == Cp(SourceRef(c.sourceUrl, f.revision),
                                    TagUrl(c.rootSvnPath, c.rootTag) + "/" + f.name,
                                    CopyMessage(f.name, f.revision, c.rootTag))
  {
    DestinationUnderTag(c.rootSvnPath, c.rootTag, f.name);
  }

  /** The tag is created exactly once, first; after a successful create each
      folder is copied exactly once, in configuration order, from
      `source_url@revision` to `<tag URL>/<folder name>`; after a failed create
      nothing else is issued. */
  lemma RunIssuesCommands(c: TagConfig, create: Outcome)
    ensures var cmds := Commands(RunEvents(c, create));
            var tagUrl := TagUrl(c.rootSvnPath, c.rootTag);
            |cmds| == (if create == Succeeded then 1 + |c.folders| else 1) &&
            cmds[0] == Mkdir(tagUrl, CreateMessage(tagUrl)) &&
            forall i :: 0 <= i < |cmds| - 1 ==>
              cmds[i + 1] == Cp(SourceRef(c.sourceUrl, c.folders[i].revision),
                                tagUrl + "/" + c.folders[i].name,
                                CopyMessage(c.folders[i].name, c.folders[i].revision, c.rootTag))
  {
    if create == Succeeded && c.folders != [] {
      var cmds := Commands(RunEvents(c, create));
      var copies := FolderCommands(c, c.folders);
      RunCommandsCopying(c, create);
      forall i | 0 <= i < |cmds| - 1
        ensures cmds[i + 1] == Cp(SourceRef(c.sourceUrl, c.folders[i].revision),
                                  TagUrl(c.rootSvnPath, c.rootTag) + "/" + c.folders[i].name,
                                  CopyMessage(c.folders[i].name, c.folders[i].revision, c.rootTag))
      {
        assert cmds[i + 1] == copies[i];
        CopyCommandUnderTag(c, c.folders[i]);
      }
    } else {
      RunCommandsParts(c, create);
    }
  }

  /** The log lines among the run's events are exactly what the run appends
      to the log file. */
  lemma RunLogIsLoggedLines(c: TagConfig, create: Outcome)
    ensures Lines(RunEvents(c, create)) == RunLog(c, create)
  {
    RunLinesParts(c, create);
    CopyPhaseLines(c, c.folders);
  }

  /** The log gains nothing unless the tag was created and there are folders;
      then it gains one line `<display name> : <destination>` per folder, in
      order, and one blank line. */
  lemma RunWritesLog(c: TagConfig, create: Outcome)
    ensures var lines := RunLog(c, create);
            var n := |c.folders|;
            if create == Succeeded && n > 0 then
              |lines| == n + 1 && lines[n] == "" &&
              forall i :: 0 <= i < n ==>
                lines[i] == DisplayName(c.folders[i].name) + " : " +
                            DestinationUrl(c.rootSvnPath, c.rootTag, c.folders[i].name)
            else lines == []
  {
  }

  /** Each folder's log line is written just before its copy is issued, and the
      blank line comes last. */
  lemma LogLineBeforeCopy(c: TagConfig, create: Outcome)
    requires create == Succeeded && c.folders != []
    ensures var events := RunEvents(c, create);
            var n := |c.folders|;
            |events| == 2 * n + 2 && events[2 * n + 1] == Logged("") &&
            forall i :: 0 <= i < n ==>
              events[2 * i + 1] == Logged(LogLine(c, c.folders[i])) &&
              events[2 * i + 2] == Issued(CopyCommand(c, c.folders[i]))
  {
    var phase := CopyPhase(c, c.folders);
    var events := RunEvents(c, create);
    var mkdir, blank := Issued(MkdirCommand(c)), Logged("");
    CopyPhaseLength(c, c.folders);
    RunEventsCopying(c, create);
    Bracketed(mkdir, phase, blank, 0);
    forall i | 0 <= i < |c.folders|
      ensures events[2 * i + 1] == Logged(LogLine(c, c.folders[i]))
      ensures events[2 * i + 2] == Issued(CopyCommand(c, c.folders[i]))
    {
      CopyPhaseAt(c, c.folders, i);
      Bracketed(mkdir, phase, blank, 2 * i);
      Bracketed(mkdir, phase, blank, 2 * i + 1);
    }
  }

  /** The run exits with status 0 exactly when the tag was created and there is
      at least one folder, whatever became of the copies. */
  lemma RunExitStatus(c: TagConfig, create: Outcome)
    ensures ExitStatus(RunTermination(c, create)) == 0 <==> create == Succeeded && c.folders != []
  {
  }

  lemma Associative<T>(a: seq<T>, b: seq<T>, d: seq<T>)
    ensures a + b + d == a + (b + d)
  {
  }

  /** Positions in a sequence with one element before and one after `p`. */
  lemma Bracketed<T>(x: T, p: seq<T>, y: T, k: nat)
    requires k < |p|
    ensures |[x] + (p + [y])| == |p| + 2
    ensures ([x] + (p + [y]))[k + 1] == p[k]
    ensures ([x] + (p + [y]))[|p| + 1] == y
  {
  }

  lemma FolderLinesPrefix(c: TagConfig, folders: seq<FolderSpec>, i: nat)
    requires i < |folders|
    ensures FolderLines(c, folders[..i + 1]) == FolderLines(c, folders[..i]) + [LogLine(c, folders[i])]
  {
    assert folders[..i + 1][..i] == folders[..i];
  }

  /** The state the script works on: the log file, which outlives the run and
      is only ever appended to, and the record of what the run did. */
  class TagSession {
    /** Lines of the `BM_log` file. */
    var log: seq<string>
    /** The `svn` commands issued and the log lines written, in order. */
    var events: seq<Event>

    constructor (existingLog: seq<string>)
      ensures log == existingLog && events == []
    {
      log := existingLog;
      events := [];
    }

    /** `create_svn_folder`: issue `svn mkdir` once; `created` is false when it
        failed, whether by a non-zero return code or an exception. */
    method CreateSvnFolder(tagUrl: string, outcome: Outcome) returns (created: bool)
      modifies this`events
      ensures events == old(events) + [Issued(Mkdir(tagUrl, CreateMessage(tagUrl)))]
      ensures created <==> outcome == Succeeded
    {
      events := events + [Issued(Mkdir(tagUrl, CreateMessage(tagUrl)))];
      created := outcome == Succeeded;
    }

    /** `svn_copy`: issue `svn cp` once. Its outcome only decides what is
        printed: nothing is returned and nothing is raised. */
    method SvnCopy(sourceUrl: string, destinationUrl: string, revision: string, commitMessage: string,
                   outcome: Outcome)
      modifies this`events
      ensures events == old(events) + [Issued(Cp(SourceRef(sourceUrl, revision), destinationUrl, commitMessage))]
    {
      events := events + [Issued(Cp(SourceRef(sourceUrl, revision), destinationUrl, commitMessage))];
    }

    /** Open the log in append mode and write one line. */
    method AppendLog(line: string)
      modifies this`log, this`events
      ensures log == old(log) + [line]
      ensures events == old(events) + [Logged(line)]
    {
      events := events + [Logged(line)];
      log := log + [line];
    }

    /** One pass of the folder loop: append the folder's log line, then issue its copy. */
    method CopyFolder(c: TagConfig, folder: FolderSpec, outcome: Outcome)
      modifies this`log, this`events
      ensures events == old(events) + CopyStep(c, folder)
      ensures log == old(log) + [LogLine(c, folder)]
    {
      var commitMessage := CopyMessage(folder.name, folder.revision, c.rootTag);
      var destinationUrl := DestinationUrl(c.rootSvnPath, c.rootTag, folder.name);
      AppendLog(LogEntry(DisplayName(folder.name), destinationUrl));
      SvnCopy(c.sourceUrl, destinationUrl, folder.revision, commitMessage, outcome);
    }

    /** The folder loop of `main`: every folder in configuration order, whatever
        the copies report. `logFileBound` tells whether the loop body ran, which
        is what binds `log_file_path`. */
    method CopyFolders(c: TagConfig, copyOutcome: nat -> Outcome) returns (logFileBound: bool)
      modifies this`log, this`events
      ensures events == old(events) + CopyPhase(c, c.folders)
      ensures log == old(log) + FolderLines(c, c.folders)
      ensures logFileBound <==> c.folders != []
    {
      logFileBound := false;
      var i := 0;
      while i < |c.folders|
        invariant i <= |c.folders|
        invariant events == old(events) + CopyPhase(c, c.folders[..i])
        invariant log == old(log) + FolderLines(c, c.folders[..i])
        invariant logFileBound <==> i > 0
      {
        logFileBound := true;
        CopyFolder(c, c.folders[i], copyOutcome(i));
        CopyPhasePrefix(c, c.folders, i);
        FolderLinesPrefix(c, c.folders, i);
        Associative(old(events), CopyPhase(c, c.folders[..i]), CopyStep(c, c.folders[i]));
        Associative(old(log), FolderLines(c, c.folders[..i]), [LogLine(c, c.folders[i])]);
        i := i + 1;
      }
      assert c.folders[..i] == c.folders;
    }

    /** `main` from the parsed configuration on: create the tag, run the folder
        loop, then append the blank line. The log keeps its earlier content as a
        prefix and gains exactly the lines the run wrote. */
    method Run(c: TagConfig, createOutcome: Outcome, copyOutcome: nat -> Outcome) returns (t: Termination)
      modifies this`log, this`events
      ensures events == old(events) + RunEvents(c, createOutcome)
      ensures log == old(log) + RunLog(c, createOutcome)
      ensures t == RunTermination(c, createOutcome)
    {
      var tagUrl := TagUrl(c.rootSvnPath, c.rootTag);
      var created := CreateSvnFolder(tagUrl, createOutcome);
      if !created {
        t := TagCreationFailed;
      } else {
        var logFileBound := CopyFolders(c, copyOutcome);
        if !logFileBound {
          t := LogPathUnbound;
        } else {
          AppendLog("");
          t := Completed;
          RunEventsCopying(c, createOutcome);
          Associative(old(events), [Issued(MkdirCommand(c))], CopyPhase(c, c.folders) + [Logged("")]);
          Associative(old(events) + [Issued(MkdirCommand(c))], CopyPhase(c, c.folders), [Logged("")]);
          Associative(old(log), FolderLines(c, c.folders), [""]);
        }
      }
    }

    /** The whole of `main`: prompt until an existing configuration file is
        chosen, parse it (`configs` holds the files that parse, with their
        contents), then run. Nothing is issued or logged before a configuration
        has been parsed. */
    method Execute(inputs: seq<Input>, present: set<string>, configs: map<string, TagConfig>,
                   createOutcome: Outcome, copyOutcome: nat -> Outcome) returns (t: Termination)
      modifies this`log, this`events
      ensures var s := SelectFrom(inputs, present, 0);
              if s.Selected? && s.file in configs then
                events == old(events) + RunEvents(configs[s.file], createOutcome) &&
                log == old(log) + RunLog(configs[s.file], createOutcome) &&
                t == RunTermination(configs[s.file], createOutcome)
              else
                events == old(events) && log == old(log) &&
                t == (if s.Exited? then SelectionExited else if s.EndOfInput? then InputEnded else ConfigUnreadable)
    {
      var selection := SelectConfiguration(inputs, present);
      match selection
      case Exited(_) =>
        t := SelectionExited;
      case EndOfInput =>
        t := InputEnded;
      case Selected(file, _) =>
        if file !in configs {
          t := ConfigUnreadable;
        } else {
          t := Run(configs[file], createOutcome, copyOutcome);
        }
    }
  }
}
