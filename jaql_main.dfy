/**
 * The Jaql launcher's pure string logic: recognising the Hadoop job id in a log line,
 * collecting the ids of a whole log, recording the action settings in the configuration,
 * and assembling the Jaql shell's argument list. The log observer's step that turns a
 * job id into an event ties the launcher to the event handler.
 */
module Jaql {
  import opened Wrappers
  import opened JavaStrings
  import opened Events
  import opened ActionEvents

  const JaqlEvalKey: string := "oozie.jaql.eval"
  const JaqlPathKey: string := "oozie.jaql.path"
  const JaqlScriptKey: string := "oozie.jaql.script"
  /** The text the Hadoop job client logs just before a job id. */
  const JobIdLogPrefix: string := "Running job: "
  const JobIdPrefix: string := "job_"
  const HadoopJobsKey: string := "hadoopJobs"
  /** `File.pathSeparatorChar` on a POSIX platform. */
  const PathSeparator: char := ':'
  /** `"." + File.separatorChar + "modules"` on a POSIX platform. */
  const SystemModulePath: string := "./modules"

  // ---------------------------------------------------------------------------
  // Job ids in the log
  // ---------------------------------------------------------------------------

  /** `i` is the first position where `p` occurs in `s`. */
  predicate FirstOccurrence(s: string, p: string, i: nat) {
    OccursAt(s, p, i) && forall j :: 0 <= j < i ==> !OccursAt(s, p, j)
  }

  /**
   * `getHadoopJobId`: the trimmed text after the first `Running job: ` of the line, when it
   * starts with `job_`; null for a null line, a line without the prefix, or any other text.
   */
  function GetHadoopJobId(line: Option<string>): (jobId: Option<string>)
    ensures line.None? ==> jobId.None?
    ensures line.Some? && !Contains(line.value, JobIdLogPrefix) ==> jobId.None?
    ensures jobId.Some? ==> StartsWith(jobId.value, JobIdPrefix)
  {
    match line
    case None => None
    case Some(text) =>
      if !Contains(text, JobIdLogPrefix) then None
      else
        var jobIdStarts := IndexOf(text, JobIdLogPrefix).value + |JobIdLogPrefix|;
        var newJobId := Trim(text[jobIdStarts..]);
        if StartsWith(newJobId, JobIdPrefix) then Some(newJobId) else None
  }

  /**
   * The job id of a line is decided by the first occurrence of the prefix alone: it is the
   * trimmed remainder after that occurrence when that starts with `job_`, and null otherwise.
   */
  lemma JobIdAfterFirstPrefix(line: string, i: nat)
    requires FirstOccurrence(line, JobIdLogPrefix, i)
    ensures var rest := Trim(line[i + |JobIdLogPrefix|..]);
            GetHadoopJobId(Some(line)) == if StartsWith(rest, JobIdPrefix) then Some(rest) else None
  {
    IndexOfFirst(line, JobIdLogPrefix, i);
  }

  /** Trailing blanks after a job id are trimmed away. */
  lemma {:induction false} TrimTrailingBlanks(id: string, blanks: string)
    requires id != [] && !IsTrimmable(id[|id| - 1])
    requires forall k :: 0 <= k < |blanks| ==> IsTrimmable(blanks[k])
    ensures TrimTrailing(id + blanks) == id
    decreases |blanks|
  {
    if blanks == [] {
      assert id + blanks == id;
    } else {
      var shorter := blanks[..|blanks| - 1];
      assert (id + blanks)[..|id + blanks| - 1] == id + shorter;
      TrimTrailingBlanks(id, shorter);
    }
  }

  /** A line that opens with the prefix yields the job id after it, without the trailing blanks. */
  lemma JobIdOfPrefixedLine(id: string, blanks: string)
    requires StartsWith(id, JobIdPrefix) && !IsTrimmable(id[|id| - 1])
    requires forall k :: 0 <= k < |blanks| ==> IsTrimmable(blanks[k])
    ensures GetHadoopJobId(Some(JobIdLogPrefix + id + blanks)) == Some(id)
  {
    PrefixSlices(JobIdLogPrefix, id, blanks);
    JobIdAfterFirstPrefix(JobIdLogPrefix + id + blanks, 0);
    TrimJobId(id, blanks);
  }

  lemma TrimJobId(id: string, blanks: string)
    requires StartsWith(id, JobIdPrefix) && !IsTrimmable(id[|id| - 1])
    requires forall k :: 0 <= k < |blanks| ==> IsTrimmable(blanks[k])
    ensures Trim(id + blanks) == id
  {
    assert (id + blanks)[0] == id[0] == 'j';
    TrimTrailingBlanks(id, blanks);
  }

  /** The job ids of the lines that carry one, in line order. */
  function JobIds(lines: seq<string>): (ids: seq<string>)
    ensures |ids| <= |lines|
    ensures forall k :: 0 <= k < |ids| ==> StartsWith(ids[k], JobIdPrefix)
  {
    if lines == [] then []
    else
      var found := GetHadoopJobId(Some(lines[|lines| - 1]));
      JobIds(lines[..|lines| - 1]) + (if found.Some? then [found.value] else [])
  }

  /** The `hadoopJobs` value for a log: the job ids joined by commas. */
  function JobIdsText(lines: seq<string>): string {
    JoinWith(',', JobIds(lines))
  }

  /**
   * `getHadoopJobIds`: reads the log line by line (None when the file is absent) and
   * records the comma-joined job ids under `hadoopJobs`.
   */
  method GetHadoopJobIds(logFile: Option<seq<string>>) returns (props: map<string, string>)
    ensures logFile.None? ==> props == map[HadoopJobsKey := ""]
    ensures logFile.Some? ==> props == map[HadoopJobsKey := JobIdsText(logFile.value)]
  {
    if logFile.None? {
      props := map[HadoopJobsKey := ""];
    } else {
      var lines := logFile.value;
      var sb := "";
      var separator := "";
      for i := 0 to |lines|
        invariant sb == JobIdsText(lines[..i])
        invariant separator == if JobIds(lines[..i]) == [] then "" else ","
      {
        var newJobId := GetHadoopJobId(Some(lines[i]));
        JobIdsTextStep(lines, i);
        if newJobId.Some? {
          sb := sb + separator + newJobId.value;
          separator := ",";
        }
      }
      assert lines[..|lines|] == lines;
      props := map[HadoopJobsKey := sb];
    }
  }

  /** One more line: its job id, if any, follows those of the earlier lines. */
  lemma JobIdsSnoc(lines: seq<string>, i: nat)
    requires i < |lines|
    ensures var found := GetHadoopJobId(Some(lines[i]));
            JobIds(lines[..i + 1]) == JobIds(lines[..i]) + if found.Some? then [found.value] else []
  {
    assert lines[..i + 1][..i] == lines[..i];
  }

  /** One more line: the recorded text gains the separator and the line's job id, if it has one. */
  lemma JobIdsTextStep(lines: seq<string>, i: nat)
    requires i < |lines|
    ensures var found := GetHadoopJobId(Some(lines[i]));
            var ids := JobIds(lines[..i]);
            && JobIds(lines[..i + 1]) == ids + (if found.Some? then [found.value] else [])
            && JobIdsText(lines[..i + 1])
               == if found.Some? then JobIdsText(lines[..i]) + (if ids == [] then "" else ",") + found.value
                  else JobIdsText(lines[..i])
  {
    var found := GetHadoopJobId(Some(lines[i]));
    var ids := JobIds(lines[..i]);
    JobIdsSnoc(lines, i);
    if found.Some? {
      JoinWithSnocSep(',', ids, found.value);
    } else {
      assert ids + [] == ids;
    }
  }

  /** The recorded value is empty exactly when no line carries a job id. */
  lemma {:induction false} JobIdsTextEmpty(lines: seq<string>)
    ensures JobIdsText(lines) == "" <==> JobIds(lines) == []
  {
    var ids := JobIds(lines);
    if ids != [] {
      JoinWithCons(',', ids[0], ids[1..]);
      assert [ids[0]] + ids[1..] == ids;
      assert StartsWith(ids[0], JobIdPrefix);
    }
  }

  /** A non-empty value starts with the first job id: never with a comma. */
  lemma JobIdsTextStart(lines: seq<string>)
    requires JobIds(lines) != []
    ensures StartsWith(JobIdsText(lines), JobIds(lines)[0])
    ensures StartsWith(JobIdsText(lines), JobIdPrefix)
  {
    var ids := JobIds(lines);
    JoinWithCons(',', ids[0], ids[1..]);
    assert [ids[0]] + ids[1..] == ids;
    assert StartsWith(ids[0], JobIdPrefix);
  }

  /** When no job id holds a comma, splitting the value at commas gives back the ids in line order. */
  lemma JobIdsTextSplits(lines: seq<string>)
    requires JobIds(lines) != []
    requires forall k :: 0 <= k < |JobIds(lines)| ==> ',' !in JobIds(lines)[k]
    ensures Split(',', JobIdsText(lines)) == JobIds(lines)
  {
    SplitJoin(',', JobIds(lines));
  }

  /**
   * The trimmed remainder is not cut at commas, so one log line can contribute a job id
   * that itself ends in a comma, and the recorded value then ends in a comma.
   */
  lemma JobIdMayEndInComma(id: string)
    requires id == "job_1,"
    ensures JobIdsText([JobIdLogPrefix + id]) == id
    ensures id[|id| - 1] == ','
  {
    var line := JobIdLogPrefix + id;
    assert line == JobIdLogPrefix + id + "";
    assert id[..4] == JobIdPrefix && id[5] == ',';
    JobIdOfPrefixedLine(id, "");
    JobIdsTextOneLine(line);
  }

  /** The value recorded for a one-line log is that line's job id, or empty. */
  lemma JobIdsTextOneLine(line: string)
    ensures JobIdsText([line]) == GetHadoopJobId(Some(line)).GetOr("")
  {
    assert [line][..0] == [];
  }

  // ---------------------------------------------------------------------------
  // Configuration
  // ---------------------------------------------------------------------------

  /** The Hadoop configuration: string values, and string lists as stored by `setStrings`. */
  class Configuration {
    var values: map<string, string>
    var lists: map<string, seq<string>>

    constructor ()
      ensures values == map[] && lists == map[]
    {
      values := map[];
      lists := map[];
    }

    function Get(key: string): (v: Option<string>)
      reads this
      ensures v.Some? <==> key in values
      ensures v.Some? ==> v.value == values[key]
    {
      if key in values then Some(values[key]) else None
    }

    function GetStrings(key: string): (v: Option<seq<string>>)
      reads this
      ensures v.Some? <==> key in lists
      ensures v.Some? ==> v.value == lists[key]
    {
      if key in lists then Some(lists[key]) else None
    }

    method Set(key: string, value: string)
      modifies this
      ensures values == old(values)[key := value] && lists == old(lists)
    {
      values := values[key := value];
    }

    method SetStrings(key: string, vs: seq<string>)
      modifies this
      ensures lists == old(lists)[key := vs] && values == old(values)
    {
      lists := lists[key := vs];
    }
  }

  /** `setJaqlScript`: the script is always set, the eval text only when given, and the search path list is stored. */
  method SetJaqlScript(conf: Configuration, script: string, eval: Option<string>, jaqlPath: seq<string>)
    modifies conf
    ensures conf.Get(JaqlScriptKey) == Some(script)
    ensures eval.Some? ==> conf.Get(JaqlEvalKey) == eval
    ensures eval.None? ==> conf.Get(JaqlEvalKey) == old(conf.Get(JaqlEvalKey))
    ensures conf.GetStrings(JaqlPathKey) == Some(jaqlPath)
    ensures forall k :: k != JaqlScriptKey && k != JaqlEvalKey ==> conf.Get(k) == old(conf.Get(k))
    ensures forall k :: k != JaqlPathKey ==> conf.GetStrings(k) == old(conf.GetStrings(k))
  {
    conf.Set(JaqlScriptKey, script);
    if eval.Some? {
      conf.Set(JaqlEvalKey, eval.value);
    }
    conf.SetStrings(JaqlPathKey, jaqlPath);
  }

  // ---------------------------------------------------------------------------
  // Jaql shell arguments
  // ---------------------------------------------------------------------------

  /** Appends one entry to the search path, after a separator unless the path is still empty. */
  function Extend(searchPath: string, entry: string): string {
    (if |searchPath| > 0 then searchPath + [PathSeparator] else searchPath) + entry
  }

  /** The user paths accumulated in order. */
  function UserSearchPath(paths: seq<string>): string {
    if paths == [] then "" else Extend(UserSearchPath(paths[..|paths| - 1]), paths[|paths| - 1])
  }

  /** The whole search path: the user paths, then the system module directory when it exists. */
  function SearchPath(paths: seq<string>, modulesDirExists: bool): string {
    var user := UserSearchPath(paths);
    if modulesDirExists then Extend(user, SystemModulePath) else user
  }

  /** The first user path that does not exist. */
  function FirstMissing(paths: seq<string>, pathExists: string -> bool): (missing: Option<string>)
    ensures missing.Some? ==> missing.value in paths && !pathExists(missing.value)
    ensures missing.None? ==> forall k :: 0 <= k < |paths| ==> pathExists(paths[k])
  {
    if paths == [] then None
    else if !pathExists(paths[0]) then Some(paths[0])
    else FirstMissing(paths[1..], pathExists)
  }

  /** The Jaql shell's arguments for a search path, an eval text and a script. */
  function ShellArguments(searchPath: string, eval: Option<string>, scriptPath: string): (args: seq<string>)
    ensures |args| >= 2 && args[0] == "-b" && args[|args| - 1] == scriptPath
  {
    ["-b"]
    + (if |searchPath| > 0 then ["-jp", "\"" + searchPath + "\""] else [])
    + (if eval.Some? && |eval.value| > 0 then ["-e", eval.value] else [])
    + [scriptPath]
  }

  /** The error a missing user path raises. */
  function MissingPathMessage(p: string): string {
    "Jaql search path [" + p + "] does not exist!"
  }

  /**
   * The argument assembly of `run`: `-b`; `-jp` and the quoted search path when it is not
   * empty; `-e` and the eval text when it is not empty; the script last. A user path that does
   * not exist is an error.
   */
  method BuildArguments(actionConf: Configuration, scriptPath: string, pathExists: string -> bool,
                        modulesDirExists: bool)
    returns (r: Result<seq<string>, string>)
    ensures var paths := actionConf.GetStrings(JaqlPathKey).GetOr([]);
            r == match FirstMissing(paths, pathExists)
                 case Some(p) => Failure(MissingPathMessage(p))
                 case None => Success(ShellArguments(SearchPath(paths, modulesDirExists),
                                                     actionConf.Get(JaqlEvalKey), scriptPath))
  {
    var arguments := ["-b"];
    var jpString := "";
    var jaqlPaths := actionConf.GetStrings(JaqlPathKey);
    ghost var paths := jaqlPaths.GetOr([]);
    if jaqlPaths.Some? && |jaqlPaths.value| > 0 {
      var ps := jaqlPaths.value;
      for i := 0 to |ps|
        invariant jpString == UserSearchPath(ps[..i])
        invariant FirstMissing(ps, pathExists) == FirstMissing(ps[i..], pathExists)
      {
        var p := ps[i];
        assert ps[i..][1..] == ps[i + 1..] && ps[i..][0] == p;
        if !pathExists(p) {
          return Failure(MissingPathMessage(p));
        }
        if |jpString| > 0 {
          jpString := jpString + [PathSeparator];
        }
        jpString := jpString + p;
        assert ps[..i + 1][..i] == ps[..i];
      }
      assert ps[..|ps|] == ps && ps[|ps|..] == [];
    }
    if modulesDirExists {
      if |jpString| > 0 {
        jpString := jpString + [PathSeparator];
      }
      jpString := jpString + SystemModulePath;
    }
    if |jpString| > 0 {
      arguments := arguments + ["-jp", "\"" + jpString + "\""];
    }
    var eval := actionConf.Get(JaqlEvalKey);
    if eval.Some? && |eval.value| > 0 {
      arguments := arguments + ["-e", eval.value];
    }
    arguments := arguments + [scriptPath];
    assert jpString == SearchPath(paths, modulesDirExists);
    assert FirstMissing(paths, pathExists).None?;
    assert arguments == ShellArguments(jpString, eval, scriptPath);
    r := Success(arguments);
  }

  /**
   * With non-empty user paths the search path is the paths joined by the path separator,
   * with `./modules` as the last entry when that directory exists.
   */
  lemma {:induction false} SearchPathIsJoin(paths: seq<string>, modulesDirExists: bool)
    requires forall k :: 0 <= k < |paths| ==> |paths[k]| > 0
    ensures SearchPath(paths, modulesDirExists)
         == JoinWith(PathSeparator, paths + if modulesDirExists then [SystemModulePath] else [])
  {
    UserSearchPathIsJoin(paths);
    if modulesDirExists {
      var all := paths + [SystemModulePath];
      assert all[..|all| - 1] == paths;
      if paths != [] {
        JoinWithNonEmpty(PathSeparator, paths);
      }
    } else {
      assert paths + [] == paths;
    }
  }

  lemma {:induction false} UserSearchPathIsJoin(paths: seq<string>)
    requires forall k :: 0 <= k < |paths| ==> |paths[k]| > 0
    ensures UserSearchPath(paths) == JoinWith(PathSeparator, paths)
    decreases |paths|
  {
    if |paths| > 1 {
      var init := paths[..|paths| - 1];
      UserSearchPathIsJoin(init);
      JoinWithNonEmpty(PathSeparator, init);
    }
  }

  /** A join of non-empty parts is empty only when there are no parts. */
  lemma {:induction false} JoinWithNonEmpty(sep: char, parts: seq<string>)
    requires forall k :: 0 <= k < |parts| ==> |parts[k]| > 0
    ensures |JoinWith(sep, parts)| > 0 <==> parts != []
  {
    if parts != [] {
      JoinWithCons(sep, parts[0], parts[1..]);
      assert [parts[0]] + parts[1..] == parts;
    }
  }

  /**
   * The shape of the argument list: `-jp` with the quoted search path follows `-b` exactly
   * when the search path is not empty, and `-e` with the eval text comes just before the
   * script exactly when the eval text is given and not empty.
   */
  lemma ShellArgumentsShape(searchPath: string, eval: Option<string>, scriptPath: string)
    ensures var args := ShellArguments(searchPath, eval, scriptPath);
            var withPath := |searchPath| > 0;
            var withEval := eval.Some? && |eval.value| > 0;
            && |args| == 2 + (if withPath then 2 else 0) + (if withEval then 2 else 0)
            && (withPath ==> args[1] == "-jp" && args[2] == "\"" + searchPath + "\"")
            && (withEval ==> args[|args| - 3] == "-e" && args[|args| - 2] == eval.value)
  {
  }

  // ---------------------------------------------------------------------------
  // The log observer
  // ---------------------------------------------------------------------------

  /**
   * One line read by the log observer: a line with a job id becomes an event of type
   * `hadoop-job-id` whose message is the id, stamped `now` and handed to the handler.
   */
  method ObserveLine(eventHandler: ActionEventHandler, line: string, now: Date)
    modifies eventHandler.eventQueue
    ensures GetHadoopJobId(Some(line)).None? || eventHandler.eventQueue == null ==>
              eventHandler.eventQueue == null || eventHandler.eventQueue.items == old(eventHandler.eventQueue.items)
    ensures GetHadoopJobId(Some(line)).Some? && eventHandler.eventQueue != null ==>
              && |eventHandler.eventQueue.items| == |old(eventHandler.eventQueue.items)| + 1
              && eventHandler.eventQueue.items[..|eventHandler.eventQueue.items| - 1] == old(eventHandler.eventQueue.items)
              && var e := eventHandler.eventQueue.items[|eventHandler.eventQueue.items| - 1];
                 fresh(e) && e.Value() == EventValue(eventHandler.actionId, Some(TypeHadoopJobId),
                                                     GetHadoopJobId(Some(line)), Some(now))
  {
    var hadoopId := GetHadoopJobId(Some(line));
    if hadoopId.Some? {
      var event := eventHandler.CreateWorkflowActionEvent(now);
      event.SetMessage(hadoopId);
      event.SetType(Some(TypeHadoopJobId));
      eventHandler.SendEvent(event);
    }
  }
}
