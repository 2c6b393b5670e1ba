/**
 * The panic file writer: a log sink whose state is updated in place by its
 * constructor, by prepare, by the producers' LogWrite and by its writer loop.
 */
module PanicLog {
  import opened Opt
  import opened Rotation
  import opened Records

  /** The format a new writer applies to records without a raw payload. */
  const DefaultFormat := "[%D %T] [%L] (%S) %M"

  class PanicFileLogWriter {
    // The record channel: its buffered records, its fixed buffer size, and whether it is closed.
    var queue: seq<LogRecord>
    const capacity: nat
    var queueClosed: bool

    // The output file: its name, its absolute path, whether it is open, and the bytes appended to it.
    const filename: string
    var baseFilename: string
    var fileOpen: bool
    var fileLog: seq<byte>

    var format: string
    const when: string
    const backupCount: int

    // Rotation state, filled in by Prepare.
    var interval: int
    var suffix: string
    var fileFilter: Option<FilterShape>
    var rolloverAt: int
    var firstRollover: bool

    // The writer loop: how many records it has received, and whether it still runs.
    var received: nat
    var loopRunning: bool

    /** The rotation fields hold the row of the policy table for `when` and an aligned deadline. */
    ghost predicate RotationReady()
      reads this
    {
      fileFilter.Some? && Policy(interval, suffix, fileFilter.value) == PolicyFor(when)
      && firstRollover && rolloverAt % interval == 0
    }

    ghost predicate Valid()
      reads this
    {
      |queue| <= capacity && (loopRunning ==> fileOpen && RotationReady())
    }

    /** The struct literal of the constructor function: the code is upper-cased, the rest defaulted. */
    constructor (fname: string, when0: string, backupCount0: int, bufferLength: nat)
      ensures Valid()
      ensures queue == [] && capacity == bufferLength && !queueClosed
      ensures filename == fname && baseFilename == "" && !fileOpen && fileLog == []
      ensures format == DefaultFormat && when == Upper(when0) && backupCount == backupCount0
      ensures interval == 0 && suffix == "" && fileFilter == None && rolloverAt == 0 && !firstRollover
      ensures received == 0 && !loopRunning
    {
      queue, capacity, queueClosed := [], bufferLength, false;
      filename, baseFilename, fileOpen, fileLog := fname, "", false, [];
      format, when, backupCount := DefaultFormat, Upper(when0), backupCount0;
      interval, suffix, fileFilter, rolloverAt, firstRollover := 0, "", None, 0, false;
      received, loopRunning := 0, false;
    }

    /**
     * Selects the policy for `when` and places the first deadline after the
     * reference time: the file's modification time if stat succeeded, else `now`.
     */
    method Prepare(modTime: Option<int>, now: int)
      requires Valid()
      modifies this`interval, this`suffix, this`fileFilter, this`rolloverAt, this`firstRollover
      ensures Valid() && RotationReady()
      ensures var s := Prepared(when, modTime, now);
        interval == s.policy.interval && suffix == s.policy.suffix && fileFilter == Some(s.policy.filter)
        && rolloverAt == s.rolloverAt && firstRollover == s.firstRollover
    {
      var p := PolicyFor(when);
      interval, suffix, fileFilter := p.interval, p.suffix, Some(p.filter);
      var t := ReferenceTime(modTime, now);
      firstRollover := true;
      rolloverAt := GoRolloverAt(t, interval);
    }

    /**
     * Closes the current file, if any, and opens the output file for append;
     * `openOk` is whether the operating system lets it be opened.
     * Its only caller runs it before the writer loop starts.
     */
    method IntRotate(openOk: bool) returns (ok: bool)
      requires Valid() && !loopRunning
      modifies this`fileOpen
      ensures Valid()
      ensures ok == openOk && fileOpen == openOk
    {
      if fileOpen {
        fileOpen := false;
      }
      if !openOk {
        return false;
      }
      fileOpen := true;
      return true;
    }

    /**
     * Submits a record. Without blocking a record meeting a full buffer is
     * dropped before any send; otherwise it is sent, and queued at the tail.
     * The send panics on a closed channel, and a blocking send waits for room,
     * so a send happens here only on an open channel with room.
     */
    method LogWrite(rec: LogRecord, blocking: bool)
      requires Valid()
      requires !queueClosed || (!blocking && |queue| >= capacity)
      requires blocking ==> |queue| < capacity
      modifies this`queue
      ensures Valid()
      ensures !blocking ==> queue == Admit(old(queue), capacity, rec)
      ensures blocking ==> queue == old(queue) + [rec]
    {
      if !blocking {
        if |queue| >= capacity {
          return;
        }
      }
      queue := queue + [rec];
    }

    /** Closes the channel: the loop sees the closed channel once the buffer is empty. */
    method CloseChannel()
      requires !queueClosed
      modifies this`queueClosed
      ensures queueClosed
    {
      queueClosed := true;
    }

    /** Sets the format (chainable); nothing else changes. */
    method SetFormat(f: string) returns (w: PanicFileLogWriter)
      modifies this`format
      ensures w == this && format == f
    {
      format := f;
      w := this;
    }

    /**
     * Runs the writer loop until it returns or has to wait for more records.
     * On return the deferred close shuts the file.
     */
    method ProcessRecords(env: Env) returns (stop: Stop)
      requires Valid() && loopRunning
      modifies this`queue, this`fileLog, this`received, this`loopRunning, this`fileOpen
      ensures Valid()
      ensures var o := Drain(old(queue), queueClosed, format, env, old(received));
        stop == o.stop && queue == old(queue)[o.taken..] && fileLog == old(fileLog) + o.written
        && received == old(received) + o.taken && loopRunning == !Exited(o) && fileOpen == loopRunning
    {
      stop, queue, fileLog, received := WriterLoop(queue, queueClosed, format, env, fileLog, received);
      if stop != Waiting {
        loopRunning, fileOpen := false, false;
      }
    }
  }

  /**
   * The receive loop of the writer: takes buffered records in order, stops at
   * the drain marker, at a failed write, or at an empty buffer (closed or
   * not), and appends each written record's bytes to `log`.
   */
  method WriterLoop(queue: seq<LogRecord>, closed: bool, format: string, env: Env, log: seq<byte>, received: nat)
    returns (stop: Stop, rest: seq<LogRecord>, log': seq<byte>, received': nat)
    ensures var o := Drain(queue, closed, format, env, received);
      stop == o.stop && rest == queue[o.taken..] && log' == log + o.written && received' == received + o.taken
  {
    rest, log', received' := queue, log, received;
    ghost var taken: seq<LogRecord>, w: seq<byte> := [], [];
    var done := false;
    stop := Waiting;
    while !done
      invariant queue == taken + rest && received' == received + |taken| && log' == log + w
      invariant !done ==> Drain(taken, false, format, env, received) == Outcome(w, |taken|, Waiting)
      invariant done ==> Drain(queue, closed, format, env, received) == Outcome(w, |taken|, stop)
      decreases |rest|, !done
    {
      if rest == [] {
        // the buffer is empty: a closed channel ends the loop, an open one makes it wait
        stop := if closed then ChannelClosed else Waiting;
        done := true;
        DrainFinish(taken, closed, format, env, received, w);
        assert taken + [] == taken;
      } else {
        var rec := rest[0];
        assert queue == taken + [rec] + rest[1..] by {
          assert rest == [rec] + rest[1..];
        }
        if env.isEnd(rec) {
          DrainHalt(taken, rec, rest[1..], closed, format, env, received, w);
          stop, done := EndNotified, true;
        } else if !env.writeOk(received') {
          DrainHalt(taken, rec, rest[1..], closed, format, env, received, w);
          stop, done := WriteFailed, true;
        } else {
          DrainExtend(taken, rec, format, env, received, w);
          var bytes := Chunk(format, env, rec);
          log' := log' + bytes;
          w := w + bytes;
        }
        rest := rest[1..];
        received' := received' + 1;
        taken := taken + [rec];
      }
    }
  }

  /**
   * Builds a writer: fails when the path has no absolute form or the file
   * cannot be opened, and otherwise starts its writer loop. The absolute
   * path, the modification time and the outcome of the open are inputs.
   */
  method NewPanicFileLogWriter(fname: string, when: string, backupCount: int, bufferLength: nat,
                               absPath: Option<string>, modTime: Option<int>, now: int, openOk: bool)
    returns (w: PanicFileLogWriter?)
    ensures w != null <==> absPath.Some? && openOk
    ensures w != null ==> fresh(w) && w.Valid() && w.loopRunning && w.fileOpen
    ensures w != null ==> (w.queue == [] && w.capacity == bufferLength && !w.queueClosed
                           && w.filename == fname && w.baseFilename == absPath.value && w.fileLog == []
                           && w.received == 0 && w.format == DefaultFormat && w.when == Upper(when)
                           && w.backupCount == backupCount)
    ensures w != null ==> var s := Prepared(Upper(when), modTime, now);
      w.interval == s.policy.interval && w.suffix == s.policy.suffix && w.fileFilter == Some(s.policy.filter)
      && w.rolloverAt == s.rolloverAt && w.firstRollover
  {
    var v := new PanicFileLogWriter(fname, when, backupCount, bufferLength);
    if absPath.None? {
      return null;
    }
    v.baseFilename := absPath.value;
    v.Prepare(modTime, now);
    var ok := v.IntRotate(openOk);
    if !ok {
      return null;
    }
    v.loopRunning := true;  // the writer loop is started
    w := v;
  }

  /**
   * An hourly writer given one text record "hello" under the format "%M":
   * after the channel is closed the file holds exactly that record's text.
   */
  method HelloScenario(env: Env, abs: string, now: int)
    requires env.writeOk(0)
  {
    var w := NewPanicFileLogWriter("hello.log", "h", 3, 16, Some(abs), None, now, true);
    assert Upper("h") == "H";
    assert w.interval == 3600;
    var w' := w.SetFormat("%M");
    var rec := LogRecord(0, now, "main", "hello", None);
    if !env.isEnd(rec) {
      w.LogWrite(rec, false);
      w.CloseChannel();
      var stop := w.ProcessRecords(env);
      assert stop == ChannelClosed;
      assert w.fileLog == env.render("%M", rec);
      assert !w.fileOpen;
    }
  }
}
