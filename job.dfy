/**
 * `CronHelper::Job` (lib/cron_helper/job.rb): the per-class task registry, and `run` with its
 * stream juggling, its lock gate and its task loop. Process-wide state (`$stdout`, `$stderr`,
 * what reaches real streams, which lock files this process holds) lives in a Console object.
 */
module CronHelper {
  import opened Wrappers
  import opened RubyText
  import opened StringBuffer
  import opened Report
  import opened Streams

  /**
   * How the lock step of `file_lock` (job.rb:69-72) ends: the exclusive lock is taken, another
   * process holds it, or creating the directory or opening the file raises.
   */
  datatype LockAttempt = Granted | Contended | FileError

  /** What happens under the lock, in order: taking it, invoking a task (`send(m)`), releasing it. */
  datatype Event = Locked(path: string) | Invoked(task: string) | Unlocked(path: string)

  /** Text written to a stream other than the job's capture buffer. */
  datatype Line = Line(stream: object, text: string)

  /** The `send(m)` events of the tasks, in order. */
  function Invocations(tasks: seq<string>): (r: seq<Event>)
    ensures |r| == |tasks|
  {
    if tasks == [] then [] else Invocations(tasks[..|tasks| - 1]) + [Invoked(tasks[|tasks| - 1])]
  }

  /** One more task of the list, one more invocation at the end. */
  lemma InvocationsStep(tasks: seq<string>, i: nat)
    requires i < |tasks|
    ensures Invocations(tasks[..i + 1]) == Invocations(tasks[..i]) + [Invoked(tasks[i])]
  {
    assert tasks[..i + 1][..i] == tasks[..i];
  }

  /** The i-th event is the invocation of the i-th task. */
  lemma {:induction false} InvocationsInOrder(tasks: seq<string>)
    ensures forall i :: 0 <= i < |tasks| ==> Invocations(tasks)[i] == Invoked(tasks[i])
  {
    if tasks != [] {
      var front := tasks[..|tasks| - 1];
      InvocationsInOrder(front);
      assert forall i :: 0 <= i < |front| ==> tasks[i] == front[i];
    }
  }

  /** What `output_handler` prints on `stream` for the report: nothing for an empty report. */
  function Printed(stream: object, report: string): (r: seq<Line>)
    ensures r == [] <==> report == ""
    ensures r != [] ==> |r| == 1 && r[0].stream == stream && |report| <= |r[0].text| && r[0].text[..|report|] == report
  {
    if |report| > 0 then [Line(stream, PutsText(report))] else []
  }

  /** The line `file_lock` puts when the lock is taken by someone else (job.rb:73). */
  function LockFailureNotice(name: string, now: string): string
  {
    "CRON FAILED TO LOCK (" + name + " at " + now + ")"
  }

  /**
   * The message of the NoMethodError raised by `e.backtrace.join` when the backtrace is nil, in
   * Ruby 3.3's wording (older Rubies add ":NilClass", 3.4 quotes 'join'). It only ever reaches
   * the discarded capture buffer, so no contract depends on its text.
   */
  const NilJoinMessage: string := "undefined method `join' for nil"

  /** The line `file_lock` puts for an error of the runner inside the lock (job.rb:80). */
  function RunnerFailureNotice(name: string, now: string): string
  {
    "CRON EXCEPTION (" + name + " at " + now + "): " + NilJoinMessage
  }

  /** `@cron_methods || []`: the registered list, read as [] while it is nil. */
  function Listed(cronMethods: Option<seq<string>>): seq<string>
  {
    match cronMethods
    case Some(tasks) => tasks
    case None => []
  }

  /** A job class: its name and the class-level `@cron_methods` list (None while it is nil). */
  class JobClass {
    const name: string
    var cronMethods: Option<seq<string>>

    constructor (name: string)
      ensures this.name == name && cronMethods == None
      ensures Listed(cronMethods) == []
    {
      this.name := name;
      cronMethods := None;
    }

    /** `self.register`: the list is created empty on first use, and the name goes at its end. */
    method Register(methodName: string)
      modifies this
      ensures cronMethods.Some?
      ensures Listed(cronMethods) == Listed(old(cronMethods)) + [methodName]
    {
      if cronMethods.None? {
        cronMethods := Some([]);
      }
      cronMethods := Some(cronMethods.value + [methodName]);
    }
  }

  /** The process globals `$stdout` and `$stderr`, what reached real streams, and the flock'ed lock files. */
  class Console {
    var stdout: object
    var stderr: object
    var lines: seq<Line>
    var locks: set<string>

    constructor (stdout: object, stderr: object)
      ensures this.stdout == stdout && this.stderr == stderr && lines == [] && locks == {}
    {
      this.stdout, this.stderr := stdout, stderr;
      lines, locks := [], {};
    }
  }

  class Job {
    const jobClass: JobClass
    const root: string
    const console: Console
    var stdoutBackup: Option<object>
    var stderrBackup: Option<object>
    var output: StringIO?
    ghost var trace: seq<Event>

    /** A new instance of `jobClass`, in an application whose root directory is `root`. */
    constructor (jobClass: JobClass, root: string, console: Console)
      ensures this.jobClass == jobClass && this.root == root && this.console == console
      ensures stdoutBackup == None && stderrBackup == None && output == null && trace == []
    {
      this.jobClass, this.root, this.console := jobClass, root, console;
      stdoutBackup, stderrBackup, output := None, None, null;
      trace := [];
    }

    /** `cron_methods`: the class's registered list, or [] when nothing was registered. */
    function CronMethods(): seq<string>
      reads jobClass
    {
      Listed(jobClass.cronMethods)
    }

    function CronName(): string
    {
      jobClass.name
    }

    function LockDirPath(): string
    {
      FileJoin(FileJoin(root, "tmp"), "crons")
    }

    function LockFileName(): string
    {
      CronName() + ".lock"
    }

    function LockFilePath(): string
    {
      FileJoin(LockDirPath(), LockFileName())
    }

    /**
     * The lock file is `<root>/tmp/crons/<ClassName>.lock`: a '/' is added after the root only
     * when the root does not already end with '/'.
     */
    lemma LockFilePathLayout()
      requires CronName() == "" || CronName()[0] != '/'
      ensures LockFilePath() == root + (if EndsWithSeparator(root) then "" else "/") + "tmp/crons/" + CronName() + ".lock"
    {
      var tmp := FileJoin(root, "tmp");
      assert tmp == root + (if EndsWithSeparator(root) then "" else "/") + "tmp";
      assert !EndsWithSeparator(tmp);
      var dir := FileJoin(tmp, "crons");
      assert TrailingSeparatorStart(tmp) == |tmp|;
      assert dir == tmp + "/" + "crons";
      assert !EndsWithSeparator(dir);
      assert TrailingSeparatorStart(dir) == |dir|;
      var name := CronName() + ".lock";
      assert name[0] != '/';
      assert LockFilePath() == dir + "/" + name;
    }

    ghost function StreamView(): StreamState<object>
      reads this, console
    {
      StreamState(console.stdout, console.stderr, stdoutBackup, stderrBackup)
    }

    method BackupStreams()
      modifies this`stdoutBackup, this`stderrBackup
      ensures StreamView() == BackedUp(old(StreamView()))
    {
      stderrBackup := Some(console.stderr);
      stdoutBackup := Some(console.stdout);
    }

    method HijackStreams()
      modifies this`output, console`stdout, console`stderr
      ensures output != null && fresh(output) && output.State() == Cursor("", 0)
      ensures StreamView() == Hijacked(old(StreamView()), output)
    {
      output := new StringIO();
      console.stderr := output;
      console.stdout := output;
    }

    method RestoreStreams()
      modifies this`stdoutBackup, this`stderrBackup, console`stdout, console`stderr
      ensures StreamView() == Restored(old(StreamView()))
    {
      if stderrBackup.None? || stdoutBackup.None? {
        return;
      }
      console.stderr := stderrBackup.value;
      console.stdout := stdoutBackup.value;
      stderrBackup, stdoutBackup := None, None;
    }

    /** A write to `$stdout`: into the capture buffer while it is hijacked, to a real stream otherwise. */
    method Write(s: string)
      modifies console`lines, if output != null && console.stdout == output then {output} else {}
      ensures output != null && console.stdout == output ==>
                output.State() == Written(old(output.State()), s) && console.lines == old(console.lines)
      ensures !(output != null && console.stdout == output) ==>
                console.lines == old(console.lines) + [Line(console.stdout, s)] && (output != null ==> unchanged(output))
    {
      if output != null && console.stdout == output {
        output.Write(s);
      } else {
        console.lines := console.lines + [Line(console.stdout, s)];
      }
    }

    /** `puts s` on `$stdout`. */
    method Puts(s: string)
      modifies console`lines, if output != null && console.stdout == output then {output} else {}
      ensures output != null && console.stdout == output ==>
                output.State() == Written(old(output.State()), PutsText(s)) && console.lines == old(console.lines)
      ensures !(output != null && console.stdout == output) ==>
                console.lines == old(console.lines) + [Line(console.stdout, PutsText(s))] && (output != null ==> unchanged(output))
    {
      Write(PutsText(s));
    }

    /** `output_handler`: the report is put on `$stdout` when it is not empty. */
    method OutputHandler(report: string)
      requires output != null && console.stdout != output
      modifies console`lines
      ensures console.lines == old(console.lines) + Printed(console.stdout, report)
    {
      if |report| > 0 {
        Puts(report);
      }
    }

    /**
     * One pass of the task loop up to its ensure clause (job.rb:16-23): the buffer is emptied,
     * the task writes, and a raised exception is rescued. `failed` is the NoMethodError of a nil
     * backtrace, which leaves the rescue clause.
     */
    method InvokeTask(o: Outcome) returns (failed: bool)
      requires output != null && console.stdout == output
      modifies console`lines, output
      ensures console.lines == old(console.lines)
      ensures output.State() == TaskCapture(old(output.pos), o).buffer
      ensures failed == TaskCapture(old(output.pos), o).aborted
    {
      output.Truncate(0);
      WriteAppends(output.State(), o.written);
      Write(o.written);
      failed := false;
      if o.raised.Some? {
        failed := Rescue(o.raised.value);
      }
    }

    /** The rescue clause (job.rb:20-23) on the buffer the task left behind. */
    method Rescue(e: TaskError) returns (failed: bool)
      requires output != null && console.stdout == output
      requires |output.text| <= output.pos
      modifies console`lines, output
      ensures console.lines == old(console.lines)
      ensures output.State() == Rescued(old(output.State()), e).buffer
      ensures failed == Rescued(old(output.State()), e).aborted
    {
      output.ChompString();
      if |output.text| > 0 {
        WriteAppends(output.State(), PutsText("\n"));
        Puts("\n");
      }
      if e.backtrace.None? {
        // `e.backtrace.join` raises NoMethodError here.
        failed := true;
      } else {
        var x := ExceptionReport(e.className, e.message, e.backtrace.value);
        WriteAppends(output.State(), PutsText(x));
        Puts(x);
        failed := false;
      }
    }

    /**
     * The ensure clause of the task loop (job.rb:25-31): when the buffer is not empty, the five
     * `result <<` append the pieces of a section, which Section lists in the same order.
     */
    method EnsureSection(result0: string, m: string) returns (result: string)
      requires output != null
      ensures result == result0 + SectionIfAny(CronName(), m, output.text)
    {
      result := result0;
      if |output.text| > 0 {
        result := result + Section(CronName(), m, output.text);
      }
    }

    /**
     * Pass `i` of the task loop (job.rb:16-31), after passes that all completed: task `i` is
     * invoked on an emptied buffer, its exception rescued, its section appended to `result`.
     */
    method RunTask(tasks: seq<string>, outcomes: seq<Outcome>, i: nat, ghost start: nat, ghost trace0: seq<Event>,
                   result0: string)
      returns (result: string, failed: bool)
      requires i < |tasks| && i < |outcomes|
      requires output != null && console.stdout == output
      requires var p := RunPrefix(CronName(), tasks, outcomes, i, start);
               && result0 == p.report
               && !p.aborted
               && output.pos == p.pos
      requires trace == trace0 + Invocations(tasks[..i])
      modifies this`trace, console`lines, output
      ensures var p := RunPrefix(CronName(), tasks, outcomes, i + 1, start);
              && result == p.report
              && failed == p.aborted
              && output.pos == p.pos
              && p.ran == i + 1
      ensures trace == trace0 + Invocations(tasks[..i + 1])
      ensures console.lines == old(console.lines)
    {
      RunPrefixStep(CronName(), tasks, outcomes, i, start);
      InvocationsStep(tasks, i);
      AppendIsAssociative(trace0, Invocations(tasks[..i]), [Invoked(tasks[i])]);
      trace := trace + [Invoked(tasks[i])];
      failed := InvokeTask(outcomes[i]);
      result := EnsureSection(result0, tasks[i]);
    }

    /**
     * The block `run` passes to `file_lock` (job.rb:15-33): every registered task in order, each
     * on an emptied buffer, each exception contained, a section appended to `result` for each
     * task that leaves the buffer non-empty. `failed` is an error of the runner leaving the loop.
     */
    method RunCronMethods(outcomes: seq<Outcome>) returns (result: string, failed: bool)
      requires output != null && console.stdout == output
      requires |outcomes| == |CronMethods()|
      modifies this`trace, console`lines, output
      ensures var p := RunPrefix(CronName(), CronMethods(), outcomes, |outcomes|, old(output.pos));
              && result == p.report
              && failed == p.aborted
              && output.pos == p.pos
              && trace == old(trace) + Invocations(CronMethods()[..p.ran])
      ensures console.lines == old(console.lines)
    {
      var tasks := CronMethods();
      ghost var start := output.pos;
      result, failed := "", false;
      var i := 0;
      while i < |tasks| && !failed
        invariant 0 <= i <= |tasks|
        invariant var p := RunPrefix(CronName(), tasks, outcomes, i, start);
                  && result == p.report
                  && failed == p.aborted
                  && output.pos == p.pos
                  && p.ran == i
        invariant trace == old(trace) + Invocations(tasks[..i])
        invariant console.lines == old(console.lines)
      {
        result, failed := RunTask(tasks, outcomes, i, start, old(trace), result);
        i := i + 1;
      }
      if failed {
        AbortIsFinal(CronName(), tasks, outcomes, i, |tasks|, start);
      }
    }

    /**
     * `file_lock` with the task loop as its block: nothing runs unless the lock is granted, and a
     * granted lock is released however the block ends. `error` is a file-system error that
     * propagates to the caller.
     */
    method FileLock(attempt: LockAttempt, outcomes: seq<Outcome>, now: string)
      returns (result: string, error: bool)
      requires output != null && console.stdout == output
      requires |outcomes| == |CronMethods()|
      modifies this`trace, console`lines, console`locks, output
      ensures error <==> attempt == FileError
      ensures console.lines == old(console.lines)
      ensures attempt == Granted ==>
                var p := RunPrefix(CronName(), CronMethods(), outcomes, |outcomes|, old(output.pos));
                && result == p.report
                && console.locks == old(console.locks) - {LockFilePath()}
                && trace == old(trace) + [Locked(LockFilePath())] + Invocations(CronMethods()[..p.ran]) + [Unlocked(LockFilePath())]
      ensures attempt != Granted ==> result == "" && console.locks == old(console.locks) && trace == old(trace)
      ensures attempt == Contended ==>
                output.State() == Written(old(output.State()), PutsText(LockFailureNotice(CronName(), now)))
      ensures attempt == FileError ==> unchanged(output)
    {
      result := "";
      if attempt == FileError {
        // FileUtils.mkdir_p or File.open raised.
        return result, true;
      }
      error := false;
      if attempt == Contended {
        Puts(LockFailureNotice(CronName(), now));
        return;
      }
      result := HoldLock(LockFilePath(), outcomes, now);
    }

    /**
     * The body of `file_lock` once the lock is taken (job.rb:77-83): the task loop runs, an error
     * of the runner is rescued and put into the buffer, and the lock is released in `ensure`.
     */
    method HoldLock(path: string, outcomes: seq<Outcome>, now: string) returns (result: string)
      requires output != null && console.stdout == output
      requires |outcomes| == |CronMethods()|
      modifies this`trace, console`lines, console`locks, output
      ensures console.lines == old(console.lines)
      ensures console.locks == old(console.locks) - {path}
      ensures var p := RunPrefix(CronName(), CronMethods(), outcomes, |outcomes|, old(output.pos));
              && result == p.report
              && trace == old(trace) + [Locked(path)] + Invocations(CronMethods()[..p.ran]) + [Unlocked(path)]
              && (!p.aborted ==> output.pos == p.pos)
              && (p.aborted ==> JustWritten(output.State(), p.pos, PutsText(RunnerFailureNotice(CronName(), now))))
    {
      console.locks := console.locks + {path};
      trace := trace + [Locked(path)];
      var failed;
      result, failed := RunCronMethods(outcomes);
      if failed {
        PutsRunnerFailure(now);
      }
      console.locks := console.locks - {path};
      trace := trace + [Unlocked(path)];
    }

    /** The rescue clause of `file_lock` (job.rb:79-80): the runner's error goes into the buffer, `$stdout`. */
    method PutsRunnerFailure(now: string)
      requires output != null && console.stdout == output
      modifies console`lines, output
      ensures console.lines == old(console.lines)
      ensures JustWritten(output.State(), old(output.pos), PutsText(RunnerFailureNotice(CronName(), now)))
    {
      ghost var before := output.State();
      Puts(RunnerFailureNotice(CronName(), now));
      WriteEndsAtPosition(before, PutsText(RunnerFailureNotice(CronName(), now)));
    }

    /** The ensure clause of `run` (job.rb:35-37): the streams are restored, then the report is printed. */
    method Ensure(result: string)
      requires stdoutBackup.Some? && stderrBackup.Some?
      requires output != null && stdoutBackup.value != output
      modifies this`stdoutBackup, this`stderrBackup, console`stdout, console`stderr, console`lines
      ensures StreamView() == Restored(old(StreamView()))
      ensures console.lines == old(console.lines) + Printed(old(stdoutBackup.value), result)
    {
      RestoreStreams();
      OutputHandler(result);
    }

    /**
     * `run`: back up and hijack the streams, run the tasks under the lock, then (in `ensure`)
     * restore the streams and print the report. `now` is `Time.zone.now`; `error` is a
     * file-system error of the lock step, raised again after the ensure clause.
     */
    method Run(attempt: LockAttempt, outcomes: seq<Outcome>, now: string) returns (error: bool)
      requires |outcomes| == |CronMethods()|
      modifies this, console
      ensures error <==> attempt == FileError
      ensures console.stdout == old(console.stdout) && console.stderr == old(console.stderr)
      ensures stdoutBackup == None && stderrBackup == None
      ensures attempt == Granted ==>
                var p := RunPrefix(CronName(), CronMethods(), outcomes, |outcomes|, 0);
                && console.lines == old(console.lines) + Printed(old(console.stdout), p.report)
                && console.locks == old(console.locks) - {LockFilePath()}
                && trace == old(trace) + [Locked(LockFilePath())] + Invocations(CronMethods()[..p.ran]) + [Unlocked(LockFilePath())]
      ensures attempt != Granted ==>
                console.lines == old(console.lines) && console.locks == old(console.locks) && trace == old(trace)
      ensures output != null && fresh(output)
      ensures attempt == Contended ==> output.text == PutsText(LockFailureNotice(CronName(), now))
      ensures attempt == FileError ==> output.text == ""
    {
      BackupStreams();
      HijackStreams();
      assert output.pos == 0 && output != old(console.stdout);
      var result;
      result, error := FileLock(attempt, outcomes, now);
      if attempt == Contended {
        WriteToEmpty(PutsText(LockFailureNotice(CronName(), now)));
      }
      Ensure(result);
    }
  }

}
