/**
 * Log records, the bounded admission of records into the writer's channel,
 * and the writer loop read as one pass over the queued records.
 */
module Records {
  import opened Opt

  newtype byte = x: int | 0 <= x < 256

  /**
   * The record as the writer sees it. Only `binary` is inspected here (nil or
   * not); the other fields are for the formatter.
   */
  datatype LogRecord = LogRecord(level: int, created: int, source: string, message: string,
                                 binary: Option<seq<byte>>)

  /** The collaborators of the writer loop that lie outside this model. */
  datatype Env = Env(
    render: (string, LogRecord) -> seq<byte>,  // FormatLogRecord(format, rec), as the bytes printed
    isEnd: LogRecord -> bool,                   // EndNotify: the record is the drain marker
    writeOk: nat -> bool)                       // whether the write of the k-th received record succeeds

  /** The bytes written for one record: its raw payload if it has one, else its formatted text. */
  function Chunk(format: string, env: Env, rec: LogRecord): seq<byte> {
    match rec.binary
    case Some(b) => b
    case None => env.render(format, rec)
  }

  /** The bytes of all of `recs`, one after another, in order. */
  function Rendered(format: string, env: Env, recs: seq<LogRecord>): seq<byte> {
    if recs == [] then [] else Chunk(format, env, recs[0]) + Rendered(format, env, recs[1..])
  }

  lemma {:induction false} RenderedAppend(format: string, env: Env, a: seq<LogRecord>, b: seq<LogRecord>)
    ensures Rendered(format, env, a + b) == Rendered(format, env, a) + Rendered(format, env, b)
  {
    if a == [] {
      assert a + b == b;
    } else {
      assert (a + b)[1..] == a[1..] + b;
      RenderedAppend(format, env, a[1..], b);
    }
  }

  // ---------------------------------------------------------------------
  // Admission into the channel (non-blocking mode)
  // ---------------------------------------------------------------------

  /** One non-blocking submission: dropped when the queue is at capacity, else queued at the tail. */
  function Admit(q: seq<LogRecord>, capacity: nat, rec: LogRecord): (r: seq<LogRecord>)
    ensures |q| <= capacity ==> |r| <= capacity
    ensures q <= r
    ensures |r| == |q| + 1 <==> |q| < capacity
    ensures |r| != |q| ==> r[|q|] == rec
  {
    if |q| >= capacity then q else q + [rec]
  }

  /** A burst of non-blocking submissions while nothing is consumed. */
  function AdmitAll(q: seq<LogRecord>, capacity: nat, recs: seq<LogRecord>): seq<LogRecord>
    decreases |recs|
  {
    if recs == [] then q else AdmitAll(Admit(q, capacity, recs[0]), capacity, recs[1..])
  }

  function Min(a: int, b: int): int {
    if a <= b then a else b
  }

  /**
   * In a burst, exactly the records that find room are kept: the first
   * `capacity - |q|` of them, in submission order; every later one is dropped.
   */
  lemma {:induction false} AdmitBurst(q: seq<LogRecord>, capacity: nat, recs: seq<LogRecord>)
    requires |q| <= capacity
    ensures AdmitAll(q, capacity, recs) == q + recs[..Min(|recs|, capacity - |q|)]
    ensures |AdmitAll(q, capacity, recs)| <= capacity
    decreases |recs|
  {
    if recs != [] {
      var q' := Admit(q, capacity, recs[0]);
      assert AdmitAll(q, capacity, recs) == AdmitAll(q', capacity, recs[1..]);
      AdmitBurst(q', capacity, recs[1..]);
      if |q| < capacity {
        assert q' == q + [recs[0]];
        var k := Min(|recs| - 1, capacity - |q'|);
        assert Min(|recs|, capacity - |q|) == k + 1;
        assert recs[..k + 1] == [recs[0]] + recs[1..][..k];
      } else {
        assert q' == q;
        assert Min(|recs|, capacity - |q|) == 0;
        assert recs[..0] == [];
      }
    }
  }

  // ---------------------------------------------------------------------
  // The writer loop as one pass over the queue
  // ---------------------------------------------------------------------

  /** Why the loop stopped taking records. */
  datatype Stop =
    | EndNotified    // took the drain marker and returned
    | ChannelClosed  // the queue was empty and closed
    | WriteFailed    // a write failed; the loop returned
    | Waiting        // the queue was empty and still open: the loop waits for more

  /** The bytes the loop wrote, the records it took from the queue, and why it stopped. */
  datatype Outcome = Outcome(written: seq<byte>, taken: nat, stop: Stop)

  /**
   * The writer loop run on the buffered records `q`, `n` records having been
   * received before. `closed` tells whether the channel is closed behind them.
   */
  function Drain(q: seq<LogRecord>, closed: bool, format: string, env: Env, n: nat): (o: Outcome)
    ensures o.taken <= |q|
    ensures o.stop == Waiting || o.stop == ChannelClosed ==> o.taken == |q|
    ensures o.stop == EndNotified || o.stop == WriteFailed ==> o.taken >= 1
    decreases |q|
  {
    if q == [] then Outcome([], 0, if closed then ChannelClosed else Waiting)
    else if env.isEnd(q[0]) then Outcome([], 1, EndNotified)
    else if !env.writeOk(n) then Outcome([], 1, WriteFailed)
    else
      var rest := Drain(q[1..], closed, format, env, n + 1);
      Outcome(Chunk(format, env, q[0]) + rest.written, rest.taken + 1, rest.stop)
  }

  /** A clean record extends a run that is still waiting by its bytes. */
  lemma DrainExtend(p: seq<LogRecord>, rec: LogRecord, format: string, env: Env, n: nat, w: seq<byte>)
    requires Drain(p, false, format, env, n) == Outcome(w, |p|, Waiting)
    requires !env.isEnd(rec) && env.writeOk(n + |p|)
    ensures Drain(p + [rec], false, format, env, n) == Outcome(w + Chunk(format, env, rec), |p| + 1, Waiting)
  {
    DrainResumes(p, [rec], false, format, env, n);
  }

  /** A marker or a failing write after a waiting run ends the loop there, whatever follows. */
  lemma DrainHalt(p: seq<LogRecord>, rec: LogRecord, rest: seq<LogRecord>, closed: bool,
                  format: string, env: Env, n: nat, w: seq<byte>)
    requires Drain(p, false, format, env, n) == Outcome(w, |p|, Waiting)
    requires env.isEnd(rec) || !env.writeOk(n + |p|)
    ensures Drain(p + [rec] + rest, closed, format, env, n)
         == Outcome(w, |p| + 1, if env.isEnd(rec) then EndNotified else WriteFailed)
  {
    DrainResumes(p, [rec], closed, format, env, n);
    DrainIgnoresLater(p + [rec], rest, closed, closed, format, env, n);
  }

  /** A waiting run at the end of the queue: the stop reason is then the channel's state. */
  lemma DrainFinish(p: seq<LogRecord>, closed: bool, format: string, env: Env, n: nat, w: seq<byte>)
    requires Drain(p, false, format, env, n) == Outcome(w, |p|, Waiting)
    ensures Drain(p, closed, format, env, n) == Outcome(w, |p|, if closed then ChannelClosed else Waiting)
  {
    DrainResumes(p, [], closed, format, env, n);
    assert p + [] == p;
  }

  /** The loop returned rather than waiting for more records. */
  predicate Exited(o: Outcome) {
    o.stop != Waiting
  }

  /** How many of the taken records had their bytes written. */
  function Delivered(o: Outcome): nat {
    if (o.stop == EndNotified || o.stop == WriteFailed) && o.taken > 0 then o.taken - 1 else o.taken
  }

  /** The first `k` records are neither the drain marker nor met a failing write. */
  predicate Clean(q: seq<LogRecord>, env: Env, n: nat, k: nat)
    requires k <= |q|
  {
    forall j :: 0 <= j < k ==> !env.isEnd(q[j]) && env.writeOk(n + j)
  }

  /** Every record before the stop point was an ordinary record whose write succeeded. */
  lemma {:induction false} DrainCleanBefore(q: seq<LogRecord>, closed: bool, format: string, env: Env, n: nat)
    ensures var o := Drain(q, closed, format, env, n);
      Delivered(o) <= |q| && Clean(q, env, n, Delivered(o))
  {
    if q != [] && !env.isEnd(q[0]) && env.writeOk(n) {
      DrainCleanBefore(q[1..], closed, format, env, n + 1);
      var o, rest := Drain(q, closed, format, env, n), Drain(q[1..], closed, format, env, n + 1);
      assert Delivered(o) == Delivered(rest) + 1;
      forall j | 0 <= j < Delivered(o)
        ensures !env.isEnd(q[j]) && env.writeOk(n + j)
      {
        if j > 0 {
          assert q[j] == q[1..][j - 1];
        }
      }
    } else {
      assert Delivered(Drain(q, closed, format, env, n)) == 0;
    }
  }

  /**
   * The loop takes the whole queue exactly when no record in it is a marker or
   * meets a failing write; it then reports a closed channel exactly when the channel is closed.
   */
  lemma {:induction false} DrainReachesEnd(q: seq<LogRecord>, closed: bool, format: string, env: Env, n: nat)
    ensures var o := Drain(q, closed, format, env, n);
      (o.stop == Waiting || o.stop == ChannelClosed) <==> Clean(q, env, n, |q|)
    ensures var o := Drain(q, closed, format, env, n);
      o.stop == Waiting || o.stop == ChannelClosed ==> (o.stop == ChannelClosed <==> closed)
  {
    if q != [] && !env.isEnd(q[0]) && env.writeOk(n) {
      DrainReachesEnd(q[1..], closed, format, env, n + 1);
      CleanTail(q, env, n);
    }
  }

  lemma CleanTail(q: seq<LogRecord>, env: Env, n: nat)
    requires q != [] && !env.isEnd(q[0]) && env.writeOk(n)
    ensures Clean(q, env, n, |q|) <==> Clean(q[1..], env, n + 1, |q| - 1)
  {
    if Clean(q[1..], env, n + 1, |q| - 1) {
      forall j | 0 <= j < |q|
        ensures !env.isEnd(q[j]) && env.writeOk(n + j)
      {
        if j > 0 {
          var i := j - 1;
          assert !env.isEnd(q[1..][i]) && env.writeOk(n + 1 + i);
          assert q[j] == q[1..][i] && n + j == n + 1 + i;
        }
      }
      assert Clean(q, env, n, |q|);
    }
    if Clean(q, env, n, |q|) {
      forall j | 0 <= j < |q| - 1
        ensures !env.isEnd(q[1..][j]) && env.writeOk(n + 1 + j)
      {
        var i := j + 1;
        assert !env.isEnd(q[i]) && env.writeOk(n + i);
        assert q[1..][j] == q[i] && n + 1 + j == n + i;
      }
      assert Clean(q[1..], env, n + 1, |q| - 1);
    }
  }

  /** The last record taken is the marker, or the ordinary record whose write failed. */
  lemma {:induction false} DrainStopReason(q: seq<LogRecord>, closed: bool, format: string, env: Env, n: nat)
    ensures var o := Drain(q, closed, format, env, n);
      o.stop == EndNotified ==> env.isEnd(q[o.taken - 1])
    ensures var o := Drain(q, closed, format, env, n);
      o.stop == WriteFailed ==> !env.isEnd(q[o.taken - 1]) && !env.writeOk(n + o.taken - 1)
  {
    if q != [] && !env.isEnd(q[0]) && env.writeOk(n) {
      DrainStopReason(q[1..], closed, format, env, n + 1);
      var o, rest := Drain(q, closed, format, env, n), Drain(q[1..], closed, format, env, n + 1);
      if rest.stop == EndNotified || rest.stop == WriteFailed {
        assert q[o.taken - 1] == q[1..][rest.taken - 1];
      }
    }
  }

  /** The loop writes the delivered records' bytes in queue order, and nothing else. */
  lemma {:induction false} DrainWritesInOrder(q: seq<LogRecord>, closed: bool, format: string, env: Env, n: nat)
    ensures var o := Drain(q, closed, format, env, n);
      Delivered(o) <= |q| && o.written == Rendered(format, env, q[..Delivered(o)])
  {
    if q != [] && !env.isEnd(q[0]) && env.writeOk(n) {
      DrainWritesInOrder(q[1..], closed, format, env, n + 1);
      var o, rest := Drain(q, closed, format, env, n), Drain(q[1..], closed, format, env, n + 1);
      assert Delivered(o) == Delivered(rest) + 1;
      assert q[..Delivered(o)] == [q[0]] + q[1..][..Delivered(rest)];
      assert q[..Delivered(o)][1..] == q[1..][..Delivered(rest)];
    }
  }

  /** Once the loop has returned at a marker or a failed write, records behind that point change nothing. */
  lemma {:induction false} DrainIgnoresLater(q: seq<LogRecord>, more: seq<LogRecord>, closed: bool,
                                            closed': bool, format: string, env: Env, n: nat)
    requires Drain(q, closed, format, env, n).stop in {EndNotified, WriteFailed}
    ensures Drain(q + more, closed', format, env, n) == Drain(q, closed, format, env, n)
  {
    assert (q + more)[0] == q[0];
    if !env.isEnd(q[0]) && env.writeOk(n) {
      assert (q + more)[1..] == q[1..] + more;
      DrainIgnoresLater(q[1..], more, closed, closed', format, env, n + 1);
    }
  }

  /** A clean first record: the loop writes it and goes on with the rest. */
  lemma DrainCons(q: seq<LogRecord>, closed: bool, format: string, env: Env, n: nat)
    requires q != [] && !env.isEnd(q[0]) && env.writeOk(n)
    ensures var r := Drain(q[1..], closed, format, env, n + 1);
      Drain(q, closed, format, env, n) == Outcome(Chunk(format, env, q[0]) + r.written, r.taken + 1, r.stop)
  {
  }

  /** A loop that waits on a non-empty queue wrote its first record. */
  lemma DrainWaitingHead(q: seq<LogRecord>, format: string, env: Env, n: nat)
    requires q != [] && Drain(q, false, format, env, n).stop == Waiting
    ensures !env.isEnd(q[0]) && env.writeOk(n)
  {
  }

  /** The bookkeeping of one resumed step, on outcomes alone. */
  lemma ResumeStep(c: seq<byte>, a': Outcome, b: Outcome, r': Outcome)
    requires r' == Outcome(a'.written + b.written, a'.taken + b.taken, b.stop)
    ensures Outcome(c + r'.written, r'.taken + 1, r'.stop)
         == Outcome(c + a'.written + b.written, a'.taken + 1 + b.taken, b.stop)
  {
    assert c + (a'.written + b.written) == c + a'.written + b.written;
  }

  /**
   * A loop that ran out of records and waited, then resumed on the records
   * queued meanwhile, does what one uninterrupted pass over all of them does.
   */
  lemma {:induction false} DrainResumes(q1: seq<LogRecord>, q2: seq<LogRecord>, closed: bool,
                                       format: string, env: Env, n: nat)
    requires Drain(q1, false, format, env, n).stop == Waiting
    ensures var a, b := Drain(q1, false, format, env, n), Drain(q2, closed, format, env, n + |q1|);
      Drain(q1 + q2, closed, format, env, n) == Outcome(a.written + b.written, a.taken + b.taken, b.stop)
  {
    if q1 == [] {
      assert q1 + q2 == q2;
    } else {
      var q := q1 + q2;
      assert q != [] && q[0] == q1[0] && q[1..] == q1[1..] + q2;
      DrainWaitingHead(q1, format, env, n);
      DrainCons(q1, false, format, env, n);
      DrainCons(q, closed, format, env, n);
      DrainResumes(q1[1..], q2, closed, format, env, n + 1);
      assert n + 1 + |q1[1..]| == n + |q1|;
      ResumeStep(Chunk(format, env, q1[0]), Drain(q1[1..], false, format, env, n + 1),
                 Drain(q2, closed, format, env, n + |q1|), Drain(q1[1..] + q2, closed, format, env, n + 1));
    }
  }
}
