/**
 * What `Job#run` (lib/cron_helper/job.rb:8-38) does to its capture buffer and to `result` for each
 * registered task, as pure functions: one task's effect on the buffer (TaskCapture), and the
 * report built from the tasks in order (RunPrefix). The class Job in module CronHelper runs the
 * loop itself and is proved to compute these.
 */
module Report {
  import opened Wrappers
  import opened RubyText
  import opened StringBuffer

  /**
   * An exception a task raised, as the `rescue` clause sees it: `e.class`, `e.message` and
   * `e.backtrace`. The backtrace is `nil` for an exception whose `backtrace` was never set.
   */
  datatype TaskError = TaskError(className: string, message: string, backtrace: Option<seq<string>>)

  /**
   * What one invocation of a task does, seen from the runner: everything it writes to `$stdout`
   * or `$stderr` (both are the capture buffer during a run), and the exception it raises, if any.
   */
  datatype Outcome = Outcome(written: string, raised: Option<TaskError>)

  predicate Silent(o: Outcome)
  {
    o.written == "" && o.raised.None?
  }

  /**
   * The task raised an exception whose backtrace is `nil`: `e.backtrace.join` then raises
   * NoMethodError inside the rescue clause itself, and that error leaves the task loop.
   */
  predicate BreaksRescue(o: Outcome)
  {
    o.raised.Some? && o.raised.value.backtrace.None?
  }

  /** The separator line of a report section, without its newline: 55 '#' characters. */
  const Separator: string := Repeated('#', 55)

  /** The block the rescue clause puts for an exception: kind, chomped message, backtrace lines. */
  function ExceptionReport(className: string, message: string, backtrace: seq<string>): (r: string)
    ensures |r| > 10
    ensures EndsWithNewline(r)
  {
    "EXCEPTION " + className + " (" + Chomp(message) + ")\n" + Join(backtrace, "\n") + "\n"
  }

  /** Every exception block opens with its headline: the tag, the class and the chomped message. */
  lemma ExceptionReportHeadline(className: string, message: string, backtrace: seq<string>)
    ensures var h := "EXCEPTION " + className + " (" + Chomp(message) + ")\n";
            ExceptionReport(className, message, backtrace)[..|h|] == h
  {
    var h := "EXCEPTION " + className + " (" + Chomp(message) + ")\n";
    assert ExceptionReport(className, message, backtrace) == h + (Join(backtrace, "\n") + "\n");
  }

  /** The section `result` gets for a task whose buffer holds `captured` at the end. */
  function Section(job: string, task: string, captured: string): (r: string)
    ensures EndsWithNewline(r)
  {
    Separator + ("\n" + job + "#" + task + "\n" + Separator + "\n") + ((Chomp(captured) + "\n") + "---\n\n")
  }

  /**
   * A section opens with a line of 55 '#' and closes with the "---" line and a blank line,
   * after the captured text's own closing "\n".
   */
  lemma SectionFraming(job: string, task: string, captured: string)
    ensures var r := Section(job, task, captured);
            && |r| > 61
            && (forall i :: 0 <= i < 55 ==> r[i] == '#')
            && r[55] == '\n'
            && r[|r| - 6] == '\n'
            && r[|r| - 5..] == "---\n\n"
  {
    var head := "\n" + job + "#" + task + "\n" + Separator + "\n";
    var body := Chomp(captured) + "\n";
    var r := Section(job, task, captured);
    assert r == Separator + head + (body + "---\n\n");
    assert r[55] == head[0];
    EndOfConcat(Separator + head, body + "---\n\n", 6);
    assert r[|r| - 6] == (body + "---\n\n")[|body| - 1];
    EndOfConcat(Separator + head, body + "---\n\n", 5);
    EndOfConcat(body, "---\n\n", 5);
  }

  function SectionIfAny(job: string, task: string, captured: string): string
  {
    if |captured| > 0 then Section(job, task, captured) else ""
  }

  /** The ensure clause adds nothing exactly when the buffer is empty, and otherwise a section ending with "\n". */
  lemma SectionOnlyForOutput(job: string, task: string, captured: string)
    ensures var r := SectionIfAny(job, task, captured);
            && (r == "" <==> captured == "")
            && (r != "" ==> EndsWithNewline(r))
  {
  }

  /** The buffer after one task, and whether the task loop was left by an error of the runner. */
  datatype Capture = Capture(buffer: Cursor, aborted: bool)

  /**
   * The rescue clause of job.rb:20-23 for an exception `e`, on the buffer `b` the task left: the
   * string is chomped in place, a "\n" is put when the string is not empty, and the exception
   * block is put; a nil backtrace leaves the clause before the block, with the loop.
   */
  function Rescued(b: Cursor, e: TaskError): (c: Capture)
    requires |b.text| <= b.pos
    ensures b.pos <= c.buffer.pos && |c.buffer.text| <= c.buffer.pos
    ensures c.aborted <==> e.backtrace.None?
  {
    var c := Chomped(b);
    var d := if |c.text| > 0 then Appended(c, PutsText("\n")) else c;
    match e.backtrace
    case None => Capture(d, true)
    case Some(trace) => Capture(Appended(d, PutsText(ExceptionReport(e.className, e.message, trace))), false)
  }

  /**
   * One task, as job.rb:16-25 runs it, on a buffer whose write position is `start`:
   * `truncate(0)` empties the string and keeps the position, the task writes, and an exception
   * it raised is rescued.
   */
  function TaskCapture(start: nat, o: Outcome): (c: Capture)
    ensures start <= c.buffer.pos && |c.buffer.text| <= c.buffer.pos
    ensures c.aborted <==> BreaksRescue(o)
  {
    var b := Appended(Cursor("", start), o.written);
    match o.raised
    case None => Capture(b, false)
    case Some(e) => Rescued(b, e)
  }

  /** The state of a run after some tasks: the report so far, how many tasks were invoked, whether the loop was left, the buffer position. */
  datatype Progress = Progress(report: string, ran: nat, aborted: bool, pos: nat)

  /**
   * The first `n` registered tasks run in order from a buffer position `start`; once the loop
   * has been left, later tasks are not invoked.
   */
  function RunPrefix(job: string, tasks: seq<string>, outcomes: seq<Outcome>, n: nat, start: nat): (p: Progress)
    requires n <= |tasks| && n <= |outcomes|
    ensures p.ran <= n && (p.aborted || p.ran == n)
    ensures p.aborted ==> 0 < p.ran && BreaksRescue(outcomes[p.ran - 1])
    ensures start <= p.pos
    decreases n
  {
    if n == 0 then Progress("", 0, false, start)
    else
      var p := RunPrefix(job, tasks, outcomes, n - 1, start);
      if p.aborted then p
      else
        var c := TaskCapture(p.pos, outcomes[n - 1]);
        Progress(p.report + SectionIfAny(job, tasks[n - 1], c.buffer.text), n, c.aborted, c.buffer.pos)
  }

  /** One more task, after a prefix that did not leave the loop. */
  lemma RunPrefixStep(job: string, tasks: seq<string>, outcomes: seq<Outcome>, n: nat, start: nat)
    requires n < |tasks| && n < |outcomes|
    requires !RunPrefix(job, tasks, outcomes, n, start).aborted
    ensures var p := RunPrefix(job, tasks, outcomes, n, start);
            var c := TaskCapture(p.pos, outcomes[n]);
            RunPrefix(job, tasks, outcomes, n + 1, start)
            == Progress(p.report + SectionIfAny(job, tasks[n], c.buffer.text), n + 1, c.aborted, c.buffer.pos)
  {
  }

  /** A task that completes adds a section exactly when it wrote something or raised. */
  lemma SectionIffTaskActive(start: nat, o: Outcome)
    requires !BreaksRescue(o)
    ensures |TaskCapture(start, o).buffer.text| > 0 <==> !Silent(o)
  {
    if o.raised.Some? {
      RescuedExceptionEndsCapture(start, o);
    } else if o.written != "" {
      OutputLandsAtPosition(start, o);
    }
  }

  /** A rescued exception always leaves its block at the end of the buffer, so its task always gets a section. */
  lemma RescuedExceptionEndsCapture(start: nat, o: Outcome)
    requires o.raised.Some? && !BreaksRescue(o)
    ensures var t := TaskCapture(start, o).buffer.text;
            var x := ExceptionReport(o.raised.value.className, o.raised.value.message, o.raised.value.backtrace.value);
            0 < |x| <= |t| && t[|t| - |x|..] == x
  {
    var e := o.raised.value;
    var x := ExceptionReport(e.className, e.message, e.backtrace.value);
    var c := Chomped(Appended(Cursor("", start), o.written));
    var d := if |c.text| > 0 then Appended(c, PutsText("\n")) else c;
    assert TaskCapture(start, o).buffer == Appended(d, PutsText(x));
    PutsAddsOnlyMissingNewline(x);
    AppendedEndsWith(d, x);
  }

  /**
   * Output of a task that does not raise is stored after as many NULs as the write position
   * when its turn came: the position left behind by the earlier tasks.
   */
  lemma OutputLandsAtPosition(start: nat, o: Outcome)
    requires o.raised.None? && o.written != ""
    ensures TaskCapture(start, o).buffer == Cursor(Nuls(start) + o.written, start + |o.written|)
  {
    WriteAtEnd(Cursor("", start), o.written);
    assert "" + Nuls(start) + o.written == Nuls(start) + o.written;
  }

  /** The rescue clause only adds to the chomped string: whatever it writes comes after it. */
  lemma RescuedKeepsChomped(b: Cursor, e: TaskError)
    requires |b.text| <= b.pos
    ensures Chomp(b.text) <= Rescued(b, e).buffer.text
  {
    var c := Chomped(b);
    var d := if |c.text| > 0 then Appended(c, PutsText("\n")) else c;
    if |c.text| > 0 {
      AppendedKeepsText(c, PutsText("\n"));
    }
    if e.backtrace.Some? {
      AppendedKeepsText(d, PutsText(ExceptionReport(e.className, e.message, e.backtrace.value)));
    }
  }

  /**
   * Whether or not the task raises, its buffer opens with as many NULs as the write position it
   * inherits, then its output without the line terminator the rescue clause may chomp.
   */
  lemma OutputLeadsCapture(start: nat, o: Outcome)
    requires o.written != ""
    ensures Nuls(start) + Chomp(o.written) <= TaskCapture(start, o).buffer.text
  {
    var b := Appended(Cursor("", start), o.written);
    assert b.text == Nuls(start) + o.written by {
      assert "" + Nuls(start) + o.written == Nuls(start) + o.written;
    }
    ChompAfterPrefix(Nuls(start), o.written);
    if o.raised.Some? {
      RescuedKeepsChomped(b, o.raised.value);
    } else {
      ChompRemovesOneTerminator(o.written);
      assert (Nuls(start) + o.written)[..start + |Chomp(o.written)|] == Nuls(start) + Chomp(o.written);
    }
  }

  /** Once the loop has been left, running further tasks changes nothing. */
  lemma {:induction false} AbortIsFinal(job: string, tasks: seq<string>, outcomes: seq<Outcome>, k: nat, n: nat, start: nat)
    requires k <= n <= |tasks| && n <= |outcomes|
    requires RunPrefix(job, tasks, outcomes, k, start).aborted
    ensures RunPrefix(job, tasks, outcomes, n, start) == RunPrefix(job, tasks, outcomes, k, start)
    decreases n - k
  {
    if k < n {
      AbortIsFinal(job, tasks, outcomes, k, n - 1, start);
    }
  }

  /** When no exception breaks the rescue clause, every task is invoked, whatever the tasks raise. */
  lemma {:induction false} EveryTaskRuns(job: string, tasks: seq<string>, outcomes: seq<Outcome>, n: nat, start: nat)
    requires n <= |tasks| && n <= |outcomes|
    requires forall i :: 0 <= i < n ==> !BreaksRescue(outcomes[i])
    ensures !RunPrefix(job, tasks, outcomes, n, start).aborted
    ensures RunPrefix(job, tasks, outcomes, n, start).ran == n
  {
    if n > 0 {
      EveryTaskRuns(job, tasks, outcomes, n - 1, start);
    }
  }

  /** The first exception that breaks the rescue clause ends the loop right after its task. */
  lemma {:induction false} RunStopsAtBrokenRescue(job: string, tasks: seq<string>, outcomes: seq<Outcome>, k: nat, n: nat, start: nat)
    requires k < n <= |tasks| && n <= |outcomes|
    requires BreaksRescue(outcomes[k])
    requires forall i :: 0 <= i < k ==> !BreaksRescue(outcomes[i])
    ensures RunPrefix(job, tasks, outcomes, n, start).aborted
    ensures RunPrefix(job, tasks, outcomes, n, start).ran == k + 1
  {
    EveryTaskRuns(job, tasks, outcomes, k, start);
    RunPrefixStep(job, tasks, outcomes, k, start);
    AbortIsFinal(job, tasks, outcomes, k + 1, n, start);
  }

  /** A task that neither writes nor raises leaves the emptied buffer as it found it. */
  lemma SilentTaskLeavesNothing(start: nat, o: Outcome)
    requires Silent(o)
    ensures TaskCapture(start, o) == Capture(Cursor("", start), false)
  {
  }

  /** Tasks that neither write nor raise contribute nothing and leave the buffer position where it was. */
  lemma {:induction false} SilentTasksReportNothing(job: string, tasks: seq<string>, outcomes: seq<Outcome>, n: nat, start: nat)
    requires n <= |tasks| && n <= |outcomes|
    requires forall i :: 0 <= i < n ==> Silent(outcomes[i])
    ensures RunPrefix(job, tasks, outcomes, n, start) == Progress("", n, false, start)
  {
    if n > 0 {
      SilentTasksReportNothing(job, tasks, outcomes, n - 1, start);
      SilentStep(job, tasks, outcomes, n, start);
    }
  }

  lemma SilentStep(job: string, tasks: seq<string>, outcomes: seq<Outcome>, n: nat, start: nat)
    requires 0 < n <= |tasks| && n <= |outcomes|
    requires RunPrefix(job, tasks, outcomes, n - 1, start) == Progress("", n - 1, false, start)
    requires Silent(outcomes[n - 1])
    ensures RunPrefix(job, tasks, outcomes, n, start) == Progress("", n, false, start)
  {
    RunPrefixStep(job, tasks, outcomes, n - 1, start);
    SilentTaskLeavesNothing(start, outcomes[n - 1]);
  }

  /** The report is empty or ends with a section's "---\n\n", so `puts` prints it as it is. */
  lemma ReportPrintedVerbatim(job: string, tasks: seq<string>, outcomes: seq<Outcome>, n: nat, start: nat)
    requires n <= |tasks| && n <= |outcomes|
    ensures var r := RunPrefix(job, tasks, outcomes, n, start).report;
            r == "" || PutsText(r) == r
  {
    ReportEndsWithNewline(job, tasks, outcomes, n, start);
    PutsAddsOnlyMissingNewline(RunPrefix(job, tasks, outcomes, n, start).report);
  }

  lemma {:induction false} ReportEndsWithNewline(job: string, tasks: seq<string>, outcomes: seq<Outcome>, n: nat, start: nat)
    requires n <= |tasks| && n <= |outcomes|
    ensures var r := RunPrefix(job, tasks, outcomes, n, start).report;
            r == "" || EndsWithNewline(r)
  {
    if n > 0 {
      ReportEndsWithNewline(job, tasks, outcomes, n - 1, start);
      ReportStepEndsWithNewline(job, tasks, outcomes, n, start);
    }
  }

  lemma ReportStepEndsWithNewline(job: string, tasks: seq<string>, outcomes: seq<Outcome>, n: nat, start: nat)
    requires 0 < n <= |tasks| && n <= |outcomes|
    requires var r := RunPrefix(job, tasks, outcomes, n - 1, start).report;
             r == "" || EndsWithNewline(r)
    ensures var r := RunPrefix(job, tasks, outcomes, n, start).report;
            r == "" || EndsWithNewline(r)
  {
    var p := RunPrefix(job, tasks, outcomes, n - 1, start);
    if p.aborted {
      AbortIsFinal(job, tasks, outcomes, n - 1, n, start);
    } else {
      RunPrefixStep(job, tasks, outcomes, n - 1, start);
      var s := SectionIfAny(job, tasks[n - 1], TaskCapture(p.pos, outcomes[n - 1]).buffer.text);
      if s != "" {
        AppendKeepsNewlineEnd(p.report, s);
      }
    }
  }

  // ---------------------------------------------------------------------------------------
  // The capture as the code evidently intends it: the text the task wrote, chomped and followed
  // by "\n" when an exception block follows, then that block. Job#run does not produce this: see
  // HelloThenBoomAsWritten and NulBeforeExceptionBlock below.

  /**
   * A task that does not raise is captured as exactly what it wrote. The capture of a task that
   * raised opens with the task's output minus its line terminator, then one "\n" when that is not
   * empty, and ends with the exception block when there is one; nothing else is in it.
   */
  function CorrectedCapture(o: Outcome): (text: string)
    ensures o.raised.None? ==> text == o.written
    ensures o.raised.Some? ==>
              var kept := Chomp(o.written);
              && kept <= text
              && (kept != "" ==> kept + "\n" <= text)
              && (o.raised.value.backtrace.None? ==> |text| == (if kept == "" then 0 else |kept| + 1))
    ensures o.raised.Some? && o.raised.value.backtrace.Some? ==>
              var e := o.raised.value;
              var x := ExceptionReport(e.className, e.message, e.backtrace.value);
              && |text| == (if Chomp(o.written) == "" then 0 else |Chomp(o.written)| + 1) + |x|
              && text[|text| - |x|..] == x
  {
    match o.raised
    case None => o.written
    case Some(e) =>
      var kept := Chomp(o.written);
      var head := if kept == "" then "" else kept + "\n";
      var x := if e.backtrace.Some? then ExceptionReport(e.className, e.message, e.backtrace.value) else "";
      assert (head + x)[..|head|] == head;
      EndOfConcat(head, x, |x|);
      head + x
  }

  predicate NulFreeOutcome(o: Outcome)
  {
    && NulFree(o.written)
    && (o.raised.Some? && o.raised.value.backtrace.Some? ==>
          NulFree(ExceptionReport(o.raised.value.className, o.raised.value.message, o.raised.value.backtrace.value)))
  }

  /** The corrected capture holds nothing the task or its exception did not supply: no NUL appears from nowhere. */
  lemma CorrectedCaptureNulFree(o: Outcome)
    requires NulFreeOutcome(o)
    ensures NulFree(CorrectedCapture(o))
  {
    if o.raised.Some? {
      var kept := Chomp(o.written);
      assert NulFree(kept) by {
        forall i | 0 <= i < |kept| ensures kept[i] != Nul {
          assert kept[i] == o.written[i];
        }
      }
    }
  }

  /** The corrected capture keeps the section rule: it is non-empty exactly when the task wrote or raised. */
  lemma CorrectedSectionIffTaskActive(o: Outcome)
    requires !BreaksRescue(o)
    ensures CorrectedCapture(o) != "" <==> !Silent(o)
  {
  }

  /**
   * For the first task of a run (write position 0) the code agrees with the corrected capture,
   * unless the task raised after output that ends with a line terminator.
   */
  lemma CaptureAgreesAtStart(o: Outcome)
    requires o.raised.None? || !EndsWithLineTerminator(o.written)
    ensures TaskCapture(0, o).buffer.text == CorrectedCapture(o)
  {
    AppendedWithoutGap(Cursor("", 0), o.written);
    assert "" + o.written == o.written;
    if o.raised.Some? {
      RaisedAtStart(o);
    }
  }

  lemma RaisedAtStart(o: Outcome)
    requires o.raised.Some? && !EndsWithLineTerminator(o.written)
    ensures TaskCapture(0, o).buffer.text == CorrectedCapture(o)
  {
    var e := o.raised.value;
    var b := Cursor(o.written, |o.written|);
    AppendedWithoutGap(Cursor("", 0), o.written);
    assert "" + o.written == o.written;
    assert Chomped(b) == b;
    var d := if |o.written| > 0 then Appended(b, PutsText("\n")) else b;
    assert d.text == (if o.written == "" then "" else o.written + "\n") && |d.text| == d.pos by {
      if |o.written| > 0 {
        AppendedWithoutGap(b, "\n");
      }
    }
    if e.backtrace.Some? {
      var x := ExceptionReport(e.className, e.message, e.backtrace.value);
      assert PutsText(x) == x;
      AppendedWithoutGap(d, x);
    }
  }

  /**
   * A run of two tasks, a and b, where a puts "hello" and b raises
   * RuntimeError("boom"), as job.rb runs it: b's section body starts with six NULs, left by
   * a's output ahead of the write position, instead of with "EXCEPTION RuntimeError (boom)".
   */
  lemma HelloThenBoomAsWritten(job: string, trace: seq<string>)
    ensures var boom := Outcome("", Some(TaskError("RuntimeError", "boom", Some(trace))));
            var x := ExceptionReport("RuntimeError", "boom", trace);
            var p := RunPrefix(job, ["a", "b"], [Outcome("hello\n", None), boom], 2, 0);
            && p.report == Section(job, "a", "hello\n") + Section(job, "b", Nuls(6) + x)
            && |Chomp(Nuls(6) + x)| > 0 && Chomp(Nuls(6) + x)[0] == Nul
  {
    var boom := Outcome("", Some(TaskError("RuntimeError", "boom", Some(trace))));
    var x := ExceptionReport("RuntimeError", "boom", trace);
    var tasks, os := ["a", "b"], [Outcome("hello\n", None), boom];
    OutputLandsAtPosition(0, os[0]);
    assert Nuls(0) + "hello\n" == "hello\n";
    RunPrefixStep(job, tasks, os, 0, 0);
    var a := Section(job, "a", "hello\n");
    assert RunPrefix(job, tasks, os, 1, 0) == Progress("" + a, 1, false, 6);
    assert "" + a == a;
    ExceptionAloneAtPosition(6, boom);
    RunPrefixStep(job, tasks, os, 1, 0);
    ChompRemovesOneTerminator(Nuls(6) + x);
  }

  /** A task that raises without writing anything: its block lands after as many NULs as the position. */
  lemma ExceptionAloneAtPosition(start: nat, o: Outcome)
    requires o.written == "" && o.raised.Some? && o.raised.value.backtrace.Some?
    ensures var e := o.raised.value;
            var x := ExceptionReport(e.className, e.message, e.backtrace.value);
            TaskCapture(start, o) == Capture(Cursor(Nuls(start) + x, start + |x|), false)
  {
    var e := o.raised.value;
    var x := ExceptionReport(e.className, e.message, e.backtrace.value);
    assert Chomp("") == "";
    PutsAddsOnlyMissingNewline(x);
    assert "" + Nuls(start) + x == Nuls(start) + x;
  }

  /** With the corrected capture, b's body in the same example is exactly the exception block. */
  lemma HelloThenBoomCorrected(trace: seq<string>)
    ensures CorrectedCapture(Outcome("", Some(TaskError("RuntimeError", "boom", Some(trace)))))
            == ExceptionReport("RuntimeError", "boom", trace)
    ensures ExceptionReport("RuntimeError", "boom", trace)[..30] == "EXCEPTION RuntimeError (boom)\n"
  {
    assert Chomp("boom") == "boom";
    ExceptionReportHeadline("RuntimeError", "boom", trace);
    assert "EXCEPTION " + "RuntimeError" + " (" + "boom" + ")\n" == "EXCEPTION RuntimeError (boom)\n";
  }

  /**
   * A first task that puts "hi" and then raises: `chomp!` shortens the string but not the
   * position, so the "\n" that follows is written one place further on, after a NUL.
   */
  lemma NulBeforeExceptionBlock(e: TaskError)
    requires e.backtrace.Some?
    ensures var o := Outcome("hi\n", Some(e));
            var x := ExceptionReport(e.className, e.message, e.backtrace.value);
            && TaskCapture(0, o).buffer.text == "hi" + [Nul] + "\n" + x
            && CorrectedCapture(o) == "hi\n" + x
  {
    var o := Outcome("hi\n", Some(e));
    var x := ExceptionReport(e.className, e.message, e.backtrace.value);
    assert TaskCapture(0, o).buffer.text == "hi" + [Nul] + "\n" + x by {
      var d := Cursor("hi" + [Nul] + "\n", 4);
      HiThenNewline();
      assert TaskCapture(0, o).buffer == Appended(d, PutsText(x));
      PutsAddsOnlyMissingNewline(x);
      AppendedWithoutGap(d, x);
    }
    assert CorrectedCapture(o) == "hi\n" + x by {
      assert Chomp("hi\n") == "hi" by {
        assert "hi\n"[..2] == "hi";
      }
      assert CorrectedCapture(o) == ("hi" + "\n") + x;
      assert "hi" + "\n" == "hi\n";
    }
  }

  /** The buffer of NulBeforeExceptionBlock's task once its "hi\n" is chomped and the "\n" is put. */
  lemma HiThenNewline()
    ensures Appended(Chomped(Appended(Cursor("", 0), "hi\n")), PutsText("\n")) == Cursor("hi" + [Nul] + "\n", 4)
  {
    assert Chomp("hi\n") == "hi" by {
      assert "hi\n"[..2] == "hi";
    }
    assert Appended(Cursor("", 0), "hi\n") == Cursor("hi\n", 3) by {
      assert "" + Nuls(0) + "hi\n" == "hi\n";
    }
    assert PutsText("\n") == "\n";
    assert Nuls(1) == [Nul];
  }


}
