# CronHelper::Job in Dafny

A model of `CronHelper::Job` (lib/cron_helper/job.rb), a small Ruby base class for cron jobs. A job class
registers task methods by name. `run` then does the following:

- it diverts `$stdout` and `$stderr` into a `StringIO` capture buffer;
- it takes an exclusive lock on `<root>/tmp/crons/<ClassName>.lock`;
- it invokes every registered task in order;
- it turns each task's captured output into a report section, including any exception the task raised;
- it restores the streams and prints the report when it is not empty.

Files:

- `wrappers.dfy`: `Option`.
- `ruby_text.dfy` (module `RubyText`): the Ruby string behaviour the job relies on. This covers `chomp`, what `puts` writes for one string, `Array#join` and `File.join`.
- `string_io.dfy` (module `StringBuffer`): Ruby's `StringIO` as a string plus a write position (`Cursor`), with a `StringIO` class whose methods are proved to compute those functions.
  - A write past the end of the string NUL-pads the gap.
  - `truncate(0)` and an in-place `chomp!` of the string do not move the position.
- `report.dfy` (module `Report`): what one task does to the buffer, and the report built over the tasks in order. These are functions (`TaskCapture`, `RunPrefix`) with lemmas about them. It also holds the corrected capture for the findings below.
- `streams.dfy` (module `Streams`): `backup_streams`, `hijack_streams` and `restore_streams` as functions on the two globals and the two backups.
- `job.dfy` (module `CronHelper`): the classes.
  - `JobClass` is the class-level `@cron_methods` list and `register`.
  - `Console` holds the process globals: `$stdout`, `$stderr`, the text that reached real streams, and the lock files held.
  - `Job` holds `run`, `file_lock`, the task loop and the path helpers. Its methods are proved against the `Report` and `Streams` functions.

Inputs the model takes as parameters:

- Each task is given as an `Outcome`: the text it writes to `$stdout`/`$stderr`, and the exception it raises, if any. The exception has a class name, a message and a backtrace, which may be nil.
- The lock step is a `LockAttempt`:
  - `Granted`;
  - `Contended` (another process holds the flock);
  - `FileError` (`mkdir_p` or `File.open` raised).
- `Time.zone.now` is a string parameter `now`.
- `Rails.root` is the `root` field of a `Job`.

Two behaviours of the code differ from what a reader of `run` would expect. The model follows the code:

- **The lock-failure line is never printed.** A reader expects "CRON FAILED TO LOCK" on the real `$stdout`. But `hijack_streams` (job.rb:10) runs before `file_lock` (job.rb:14), so that line is written into the capture buffer and thrown away. `CronHelper.Job.Run` states this: for `Contended` nothing reaches the real streams, and the buffer holds the line.
- **Later sections can carry NUL padding.** Take task a, which puts "hello", and task b, which raises RuntimeError "boom". A reader expects b's section to open with "EXCEPTION RuntimeError (boom)". As written, it opens with NULs instead. See "## Findings".

## Model

| member | source | states |
|---|---|---|
| CronHelper.JobClass.Register | lib/cron_helper/job.rb:3-6 | the list is created empty on first use and the name is appended at its end: the list `cron_methods` reads (`Listed`, nil read as []) gains exactly the registered name at its end, and earlier entries and their order are kept |
| CronHelper.JobClass.constructor | lib/cron_helper/job.rb:46-48 | before any registration `@cron_methods` is nil and the list `cron_methods` reads (`Listed`) is [] |
| CronHelper.Job.Run | lib/cron_helper/job.rb:8-38 | on every exit: `error` exactly when the lock step raises; `$stdout`/`$stderr` end as they were; both backups are cleared. With the lock granted: the real `$stdout` gets the report, only when it is not empty, where the report is `RunPrefix` over all registered tasks from position 0; the trace is lock, then each invoked task in registration order, then unlock; the lock is released. Without the lock: no task runs, nothing is printed, and no lock is taken (the held locks are unchanged). When the lock is contended the buffer holds only the "CRON FAILED TO LOCK" line; when opening the lock file fails it holds nothing |
| CronHelper.Job.Ensure | lib/cron_helper/job.rb:35-37 | the streams are restored first; the report is then printed to the restored `$stdout` |
| CronHelper.Job.FileLock | lib/cron_helper/job.rb:68-85 | a file error propagates; when the lock is contended, `LockFailureNotice` ("CRON FAILED TO LOCK (<name> at <now>)") is put on the current `$stdout`, which is the buffer, and no task runs; when it is granted, the loop runs and the lock is released |
| CronHelper.Job.HoldLock | lib/cron_helper/job.rb:77-83 | the lock is held around the whole loop and released after it; the result is the report of `RunPrefix`; an error of the runner is rescued and not propagated: the buffer then holds `PutsText(RunnerFailureNotice(..))` just before its write position, right where the loop left it, and otherwise the position is where the loop left it |
| CronHelper.Job.PutsRunnerFailure | lib/cron_helper/job.rb:79-80 | the runner-failure line is put into the buffer, which is `$stdout` while the tasks run: it sits just before the new write position, starting at the old one; nothing is printed on the console |
| CronHelper.Job.RunCronMethods | lib/cron_helper/job.rb:15-33 | the loop leaves `result`, the buffer position, the failure flag and the trace as `RunPrefix` over all tasks says; the tasks invoked are the first `ran` registered ones, in order |
| CronHelper.Job.RunTask | lib/cron_helper/job.rb:15-31 | one pass advances the loop state from `RunPrefix` at i to `RunPrefix` at i+1 and records the invocation of task i |
| CronHelper.Job.InvokeTask | lib/cron_helper/job.rb:16-23 | truncate, the task's output and the rescue clause leave the buffer as `TaskCapture` from the old position; nothing reaches a real stream |
| CronHelper.Job.Rescue | lib/cron_helper/job.rb:20-23 | chomp!, the conditional "\n" and the exception block leave the buffer as `Rescued`; a nil backtrace fails the clause |
| CronHelper.Job.EnsureSection | lib/cron_helper/job.rb:24-31 | `result` gains the task's section exactly when the buffer's string is not empty, and is unchanged otherwise |
| CronHelper.Job.OutputHandler | lib/cron_helper/job.rb:42-44 | the report is put on `$stdout` when its length is positive, and nothing is printed otherwise |
| CronHelper.Job.BackupStreams | lib/cron_helper/job.rb:50-53 | both backups take the current `$stdout`/`$stderr` |
| CronHelper.Job.HijackStreams | lib/cron_helper/job.rb:64-66 | a fresh empty buffer becomes `@output`, `$stdout` and `$stderr` at once |
| CronHelper.Job.RestoreStreams | lib/cron_helper/job.rb:55-62 | the globals are restored and both backups cleared, only when both backups are set |
| Streams.RestoreIsIdempotent | lib/cron_helper/job.rb:55-62 | after a restore at least one backup is unset, so a second restore changes nothing |
| Streams.RestoreNeedsBothBackups | lib/cron_helper/job.rb:56 | with either backup unset, restore is a no-op |
| Streams.RestoreUndoesHijack | lib/cron_helper/job.rb:50-66 | backup, hijack, then `restore_streams` (Restored) gives back the original streams with no backup left |
| CronHelper.Job.LockFilePathLayout | lib/cron_helper/job.rb:87-101 | the lock file is `<root>/tmp/crons/<ClassName>.lock`: the directory is `tmp/crons` under the root, the name is the class name (`cron_name`) plus ".lock", and a '/' is added after the root only when the root does not already end with '/' |
| CronHelper.Job.Write | lib/cron_helper/job.rb:19 | a write to `$stdout` lands in the buffer while it is hijacked, and reaches the real stream otherwise |
| CronHelper.InvocationsInOrder | lib/cron_helper/job.rb:15-19 | the i-th `send` is that of the i-th registered task |
| CronHelper.InvocationsStep | lib/cron_helper/job.rb:15 | one more task of the list appends exactly its own invocation to the trace |
| Report.TaskCapture | lib/cron_helper/job.rb:16-23 | the position never moves back; the string never extends past the position; the task leaves the loop exactly when its exception has a nil backtrace |
| Report.Rescued | lib/cron_helper/job.rb:20-23 | the position never moves back and the string never extends past it; the clause fails exactly when the backtrace is nil |
| Report.RunPrefix | lib/cron_helper/job.rb:14-33 | after n tasks: at most n ran; all n ran unless the loop was left; a left loop was left by a task whose backtrace is nil; the position never moves back |
| Report.RunPrefixStep | lib/cron_helper/job.rb:15-31 | a pass that starts inside the loop appends that task's section, if any, to the report |
| Report.SectionIffTaskActive | lib/cron_helper/job.rb:20-25 | a task that completes leaves a non-empty buffer, and so gets a section, exactly when it wrote something or raised |
| Report.RescuedExceptionEndsCapture | lib/cron_helper/job.rb:23 | a rescued exception's block is always the end of the buffer, so a task that raises always gets a section |
| Report.OutputLandsAtPosition | lib/cron_helper/job.rb:16-19 | the output of a task that does not raise lands after as many NULs as the write position it inherits, and the buffer holds nothing else |
| Report.OutputLeadsCapture | lib/cron_helper/job.rb:16-23 | whether or not the task raises, its buffer opens with as many NULs as the inherited write position, then its output minus the line terminator the rescue may chomp |
| Report.RescuedKeepsChomped | lib/cron_helper/job.rb:20-23 | the rescue clause only adds after the chomped string: it is a prefix of the buffer afterwards |
| Report.EveryTaskRuns | lib/cron_helper/job.rb:15-23 | unless some backtrace is nil, every task runs, whatever the tasks raise |
| Report.RunStopsAtBrokenRescue | lib/cron_helper/job.rb:15-33 | the first exception with a nil backtrace ends the loop right after its task; the tasks after it never run |
| Report.AbortIsFinal | lib/cron_helper/job.rb:15-33 | once the loop has been left, the remaining tasks change nothing |
| Report.SilentTasksReportNothing | lib/cron_helper/job.rb:25 | tasks that neither write nor raise leave the report empty and the position where it was |
| Report.SilentTaskLeavesNothing | lib/cron_helper/job.rb:16-25 | such a task leaves the emptied buffer as it found it |
| Report.ReportPrintedVerbatim | lib/cron_helper/job.rb:43 | the report is empty or ends with "\n", so `puts` prints it unchanged |
| Report.ReportEndsWithNewline | lib/cron_helper/job.rb:26-30 | every non-empty report ends with "\n" |
| Report.SectionFraming | lib/cron_helper/job.rb:26-30 | a section opens with a line of 55 '#' and ends with the body's "\n", then "---" and a blank line |
| Report.ExceptionReport | lib/cron_helper/job.rb:23 | the exception block is never empty and ends with "\n" |
| Report.ExceptionReportHeadline | lib/cron_helper/job.rb:23 | the block opens with "EXCEPTION <class> (<chomped message>)\n" |
| Report.HelloThenBoomAsWritten | lib/cron_helper/job.rb:16-31 | tasks a (puts "hello") and b (raises RuntimeError "boom"): b's section body is six NULs followed by the exception block |
| Report.NulBeforeExceptionBlock | lib/cron_helper/job.rb:21-23 | output "hi\n" followed by an exception leaves "hi", a NUL, "\n", then the block, where "hi\n" and the block is intended |
| Report.CorrectedCaptureNulFree | lib/cron_helper/job.rb:16-23 | the corrected capture contains no NUL that the task or its exception did not supply |
| Report.CorrectedSectionIffTaskActive | lib/cron_helper/job.rb:20-25 | with the corrected capture, a task gets a section exactly when it wrote or raised |
| Report.CaptureAgreesAtStart | lib/cron_helper/job.rb:16-23 | for the first task (position 0), the code agrees with the corrected capture unless the task's output ends with a line terminator before a raise |
| Report.HelloThenBoomCorrected | lib/cron_helper/job.rb:23 | with the corrected capture, b's body is the block "EXCEPTION RuntimeError (boom)\n…" |
| Report.CorrectedCapture | lib/cron_helper/job.rb:16-23 | a task that does not raise is captured as exactly what it wrote; for a task that raised, the capture opens with its chomped output, then one "\n" when that is not empty, and ends with the exception block when there is one; its length is exactly those parts, so nothing else is in it |
| RubyText.Chomp | lib/cron_helper/job.rb:21 | `chomp` never lengthens a string |
| RubyText.ChompChangesOnlyTerminated | lib/cron_helper/job.rb:21 | `chomp` changes a string exactly when it ends with "\n" or "\r" |
| RubyText.ChompRemovesOneTerminator | lib/cron_helper/job.rb:21-29 | `chomp` removes a prefix-preserving tail that is exactly one of "", "\n", "\r", "\r\n", taking "\r\n" whole |
| RubyText.ChompAfterPrefix | lib/cron_helper/job.rb:21 | `chomp` looks only at the end: text in front of a non-empty string is kept, unless a "\r" at its end would pair with a lone "\n" |
| RubyText.PutsText | lib/cron_helper/job.rb:22-23 | `puts` writes the text plus at most one character, and always ends with "\n" |
| RubyText.PutsAddsOnlyMissingNewline | lib/cron_helper/job.rb:43 | `puts` writes a string unchanged exactly when it already ends with "\n" |
| RubyText.PutsKeepsText | lib/cron_helper/job.rb:22-23 | what `puts` writes starts with the text given |
| RubyText.TrailingSeparatorsSpan | lib/cron_helper/job.rb:92 | `File.join` cuts the run of '/' that ends the directory, and no more |
| StringBuffer.Written | lib/cron_helper/job.rb:19 | a write moves the position by the number of characters written, and the string reaches at least the new position; an empty write changes nothing |
| StringBuffer.WritePlacesText | lib/cron_helper/job.rb:19 | the text lands at the old position; characters before it are kept or NUL; characters after it are kept |
| StringBuffer.WriteEndsAtPosition | lib/cron_helper/job.rb:80 | after a write, what was written sits just before the new write position, starting at the old one |
| StringBuffer.Truncated | lib/cron_helper/job.rb:16 | `truncate` sets the length and does not move the position |
| StringBuffer.TruncateKeepsPrefix | lib/cron_helper/job.rb:16 | `truncate` keeps the characters below the new length and NUL-pads the rest |
| StringBuffer.ChompedKeepsPrefix | lib/cron_helper/job.rb:21 | `chomp!` on the buffer's string keeps a prefix of the text, removes at most one line terminator ("\n", "\r" or "\r\n"), and leaves the position where it was |
| StringBuffer.WriteAppends | lib/cron_helper/job.rb:19-23 | at or past the end of the string, a write is an append after a NUL gap |
| StringBuffer.AppendedKeepsText | lib/cron_helper/job.rb:19-23 | a write at or past the end keeps the whole string it found as a prefix |
| StringBuffer.WritesCompose | lib/cron_helper/job.rb:19 | after the buffer is emptied, two writes give the same result as one write of both texts |
| StringBuffer.StringIO.Write | lib/cron_helper/job.rb:19-23 | the object's string and position become `Written` of the old ones |
| StringBuffer.StringIO.Truncate | lib/cron_helper/job.rb:16 | the object's state becomes `Truncated` of the old one |
| StringBuffer.StringIO.ChompString | lib/cron_helper/job.rb:21 | the object's state becomes `Chomped` of the old one |
| Report.Section | lib/cron_helper/job.rb:26-30 | a section always ends with "\n" (its layout is stated by SectionFraming) |
| Report.SectionOnlyForOutput | lib/cron_helper/job.rb:25-31 | the ensure clause adds nothing exactly when the buffer's string is empty; what it adds otherwise ends with "\n" |
| RubyText.FileJoinRelative | lib/cron_helper/job.rb:92 | `File.join` puts a relative part after exactly one added '/', added only when the directory does not already end with '/' |
| RubyText.FileJoinAbsolute | lib/cron_helper/job.rb:100 | `File.join` with a part that starts with '/' drops the whole run of '/' that ends the directory, and keeps the rest of the directory |
| RubyText.JoinAppend | lib/cron_helper/job.rb:23 | `Array#join` of one more line adds the separator and that line at the end |
| CronHelper.Job.Puts | lib/cron_helper/job.rb:22-23 | `puts` writes the text plus a missing "\n" into the buffer while it is hijacked, and to the real stream otherwise |
| Streams.HijackKeepsBackups | lib/cron_helper/job.rb:50-66 | after `backup_streams` (BackedUp) and `hijack_streams` (Hijacked) both streams are the buffer and the backups hold the streams from before |
| CronHelper.Invocations | lib/cron_helper/job.rb:15-19 | one `send` event per task (the order is stated by InvocationsInOrder) |
| CronHelper.Printed | lib/cron_helper/job.rb:43 | nothing is printed exactly when the report is empty; otherwise one line on the given stream, which starts with the report |

## Left out

- The real redirection of the process-global `$stdout`/`$stderr` is not modelled. The streams are opaque handles in a `Console` object, and text that reaches a real stream is a list of `Line`s.
- `FileUtils.mkdir_p`, `File.open` and `flock` are not modelled. Their combined result is the input `LockAttempt`. Cross-process mutual exclusion is OS concurrency and is out of scope. The held locks are a set of paths.
- `send(m)` dynamic dispatch is not modelled. Each task is given as an `Outcome` (its written text and optional exception). A task that itself reassigns or closes `$stdout`/`$stderr`, or reads from the buffer, is outside the model.
- `Time.zone.now` and `Rails.root` are parameters.
- `cron_methods.each` (job.rb:15) iterates the class's live array, so a task that calls `register` during a run also gets its new task run. `CronHelper.Job.RunCronMethods` iterates a snapshot taken before the loop, so a task that registers tasks is outside the model.
- `e.class`, `e.message` and `e.backtrace` are opaque strings.
- The only exception modelled as escaping the rescue clause is the NoMethodError of `e.backtrace.join` on a nil backtrace. Other failures inside the rescue clause are not modelled.
- CronHelper.Job.HoldLock: the runner-failure line uses the message of that NoMethodError. It leaves out the `#{e.backtrace}` part of job.rb:80, because that line goes into the capture buffer, which is never read again.
- The NoMethodError message in that line follows Ruby 3.3's wording ("undefined method `join' for nil"); older Rubies add ":NilClass" and 3.4 quotes 'join' differently. No contract depends on the wording, since the line only reaches the discarded buffer.
- `StringIO` is modelled only through the operations the job uses (`write`, `truncate`, in-place `chomp!` of `string`, `string`). Its read position and encodings are not modelled.
- StringBuffer.Written: write positions are counted in characters, while Ruby's `StringIO` counts bytes. The NUL counts (`Report.OutputLandsAtPosition`, `Report.OutputLeadsCapture`, the findings) are therefore exact only for single-byte output; after a task that puts "é", the next write is padded with 3 NULs in Ruby and 2 in the model.
- StringBuffer.Written: `StringIO#write` returns the number of bytes written. That value is not modelled, because the job ignores it.
- An exception raised by the lock step itself (`FileError`) is reported as `error` without its Ruby exception object.

## Findings

| source | as written | input that shows it | evidently intended | confidence | as-written member | corrected member |
|---|---|---|---|---|---|---|
| lib/cron_helper/job.rb:16 | `@output.truncate(0)` empties the string but leaves the write position where the previous task left it, so the next write pads the gap with NUL characters | tasks a (puts "hello") and b (raises RuntimeError "boom"): b's section body starts with six NULs, not with "EXCEPTION RuntimeError (boom)" | each task's section holds only what that task wrote and its exception block (e.g. with a `rewind` after `truncate(0)`) | not executed | Report.HelloThenBoomAsWritten | Report.HelloThenBoomCorrected |
| lib/cron_helper/job.rb:21-22 | `@output.string.chomp!` shortens the string but not the position, so the "\n" put next lands one place further on, after a NUL | a first task that puts "hi" and then raises: the buffer holds "hi", NUL, "\n", then the exception block | "hi\n" followed by the exception block | not executed | Report.NulBeforeExceptionBlock | Report.CorrectedCaptureNulFree |
