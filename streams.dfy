/**
 * The process-wide output streams and the job's backups of them (lib/cron_helper/job.rb:50-66),
 * over opaque stream handles `H`.
 */
module Streams {
  import opened Wrappers

  /** `$stdout`, `$stderr`, and the job's `@stdout_backup` and `@stderr_backup` (None for `nil`). */
  datatype StreamState<H> = StreamState(stdout: H, stderr: H, stdoutBackup: Option<H>, stderrBackup: Option<H>)

  /** `backup_streams`: both backups take the current streams. */
  function BackedUp<H>(s: StreamState<H>): StreamState<H>
  {
    s.(stdoutBackup := Some(s.stdout), stderrBackup := Some(s.stderr))
  }

  /** `hijack_streams`: both streams become the capture buffer `sink`; the backups stay. */
  function Hijacked<H>(s: StreamState<H>, sink: H): StreamState<H>
  {
    s.(stdout := sink, stderr := sink)
  }

  /** `restore_streams`: only when both backups are set, the streams take them back and both backups are cleared. */
  function Restored<H>(s: StreamState<H>): StreamState<H>
  {
    if s.stdoutBackup.Some? && s.stderrBackup.Some? then
      StreamState(s.stdoutBackup.value, s.stderrBackup.value, None, None)
    else s
  }

  /** Restoring leaves at least one backup unset, so a second restore changes nothing. */
  lemma RestoreIsIdempotent<H>(s: StreamState<H>)
    ensures Restored(s).stdoutBackup.None? || Restored(s).stderrBackup.None?
    ensures Restored(Restored(s)) == Restored(s)
  {
  }

  /** With a backup missing, restoring changes nothing at all. */
  lemma RestoreNeedsBothBackups<H>(s: StreamState<H>)
    requires s.stdoutBackup.None? || s.stderrBackup.None?
    ensures Restored(s) == s
  {
  }

  /** Back up, hijack, restore: the streams are the ones from before, and no backup is left. */
  lemma RestoreUndoesHijack<H>(s: StreamState<H>, sink: H)
    ensures Restored(Hijacked(BackedUp(s), sink)) == StreamState(s.stdout, s.stderr, None, None)
  {
  }

  /** After backup and hijack both streams are the sink and the backups hold the streams from before. */
  lemma HijackKeepsBackups<H>(s: StreamState<H>, sink: H)
    ensures Hijacked(BackedUp(s), sink) == StreamState(sink, sink, Some(s.stdout), Some(s.stderr))
  {
  }

}
