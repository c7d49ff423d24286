// A pooled MySQL connection streaming a query result to a callback: the
// fields first, then the rows in batches flushed whenever their byte count
// reaches the stream buffer size, then whatever is left.
module DbConnPool {
  import opened Wrappers

  /** A value of a row as raw bytes (NULL is empty). */
  type Value = seq<byte>

  /** A row of the result, one value per field. */
  datatype Row = Row(values: seq<Value>)

  /** What the server answers for the streamed query: an error when the
      query is sent, an error reading the fields, or the fields followed by
      the rows and then either the end of the result (`fetchError` None) or
      a read error. */
  datatype Stream = Stream(
    execError: Option<string>,
    fieldsError: Option<string>,
    fields: seq<string>,
    rows: seq<Row>,
    fetchError: Option<string>)

  /** One result handed to the callback. */
  datatype Packet = FieldsPacket(fields: seq<string>) | RowsPacket(rows: seq<Row>)

  const StreamSendError: string := "stream send error: "

  function ValuesLen(vs: seq<Value>): nat
  {
    if vs == [] then 0 else ValuesLen(vs[..|vs| - 1]) + |vs[|vs| - 1]|
  }

  function RowsLen(rows: seq<Row>): nat
  {
    if rows == [] then 0 else RowsLen(rows[..|rows| - 1]) + ValuesLen(rows[|rows| - 1].values)
  }

  function Concat(batches: seq<seq<Row>>): seq<Row>
  {
    if batches == [] then [] else Concat(batches[..|batches| - 1]) + batches[|batches| - 1]
  }

  /** The batches flushed so far, the rows not yet sent and their byte
      count. */
  datatype Batching = Batching(flushed: seq<seq<Row>>, pending: seq<Row>, byteCount: int)

  /** The batching state after reading `rows`. */
  function BatchRows(rows: seq<Row>, streamBufferSize: int): Batching
  {
    if rows == [] then Batching([], [], 0)
    else
      var b := BatchRows(rows[..|rows| - 1], streamBufferSize);
      var row := rows[|rows| - 1];
      var pending := b.pending + [row];
      var count := b.byteCount + ValuesLen(row.values);
      if count >= streamBufferSize then Batching(b.flushed + [pending], [], 0)
      else Batching(b.flushed, pending, count)
  }

  function RowsPackets(batches: seq<seq<Row>>): (r: seq<Packet>)
    ensures |r| == |batches|
    ensures forall k :: 0 <= k < |batches| ==> r[k] == RowsPacket(batches[k])
  {
    seq(|batches|, k requires 0 <= k < |batches| => RowsPacket(batches[k]))
  }

  /** The row batches a stream that no callback interrupts sends: each
      batch flushed while reading and, when the rows end without a read
      error, the remaining rows if there are any. */
  function SentBatches(s: Stream, streamBufferSize: int): seq<seq<Row>>
  {
    var b := BatchRows(s.rows, streamBufferSize);
    b.flushed + (if s.fetchError.None? && |b.pending| > 0 then [b.pending] else [])
  }

  /** Everything a stream that no callback interrupts hands over: the
      fields, then the row batches. */
  function Packets(s: Stream, streamBufferSize: int): seq<Packet>
  {
    [FieldsPacket(s.fields)] + RowsPackets(SentBatches(s, streamBufferSize))
  }

  /** The index of the first callback call that fails. */
  function FirstFailure(n: nat, callback: nat -> Option<string>): (m: nat)
    ensures m <= n
    ensures forall k :: 0 <= k < m ==> callback(k).None?
    ensures m < n ==> callback(m).Some?
  {
    if n == 0 then 0
    else
      var m := FirstFailure(n - 1, callback);
      if m < n - 1 then m else if callback(n - 1).Some? then n - 1 else n
  }

  /** The rows read, split into the flushed batches and the pending rows,
      are exactly the rows, in order. */
  lemma {:induction false} BatchesCoverRows(rows: seq<Row>, streamBufferSize: int)
    ensures Concat(BatchRows(rows, streamBufferSize).flushed) + BatchRows(rows, streamBufferSize).pending == rows
  {
    if rows != [] {
      var init := rows[..|rows| - 1];
      var b := BatchRows(init, streamBufferSize);
      var r := BatchRows(rows, streamBufferSize);
      BatchesCoverRows(init, streamBufferSize);
      BatchStep(rows, streamBufferSize);
      CoverStep(b, r, init, rows[|rows| - 1]);
      InitAndLast(rows);
    }
  }

  lemma InitAndLast(rows: seq<Row>)
    requires rows != []
    ensures rows[..|rows| - 1] + [rows[|rows| - 1]] == rows
  {
  }

  lemma CoverStep(b: Batching, r: Batching, init: seq<Row>, last: Row)
    requires Concat(b.flushed) + b.pending == init
    requires Concat(r.flushed) + r.pending == Concat(b.flushed) + (b.pending + [last])
    ensures Concat(r.flushed) + r.pending == init + [last]
  {
  }

  /** Reading one more row adds it after the rows already batched. */
  lemma BatchStep(rows: seq<Row>, streamBufferSize: int)
    requires rows != []
    ensures var b := BatchRows(rows[..|rows| - 1], streamBufferSize);
            var r := BatchRows(rows, streamBufferSize);
            Concat(r.flushed) + r.pending == Concat(b.flushed) + (b.pending + [rows[|rows| - 1]])
  {
    var b := BatchRows(rows[..|rows| - 1], streamBufferSize);
    var last := rows[|rows| - 1];
    if b.byteCount + ValuesLen(last.values) >= streamBufferSize {
      ConcatSnoc(b.flushed, b.pending + [last]);
    }
  }

  lemma ConcatSnoc(batches: seq<seq<Row>>, batch: seq<Row>)
    ensures Concat(batches + [batch]) == Concat(batches) + batch
  {
    assert (batches + [batch])[..|batches|] == batches;
  }

  /** No flushed batch is empty; each has at least the buffer size in
      bytes; the counter holds the pending rows' byte count, which is below
      the buffer size when rows are pending and zero when none are. */
  lemma {:induction false} BatchBounds(rows: seq<Row>, streamBufferSize: int)
    ensures var b := BatchRows(rows, streamBufferSize);
            && (forall k :: 0 <= k < |b.flushed| ==> b.flushed[k] != [] && RowsLen(b.flushed[k]) >= streamBufferSize)
            && b.byteCount == RowsLen(b.pending)
            && (b.pending != [] ==> b.byteCount < streamBufferSize)
            && (b.pending == [] ==> b.byteCount == 0)
  {
    if rows != [] {
      var init := rows[..|rows| - 1];
      BatchBounds(init, streamBufferSize);
      var b := BatchRows(init, streamBufferSize);
      var pending := b.pending + [rows[|rows| - 1]];
      assert pending[..|pending| - 1] == b.pending;
    }
  }

  /** With no callback error and no read error, the batches sent hold
      exactly the rows read, in order, and none of them is empty. */
  lemma RowsDelivered(s: Stream, streamBufferSize: int)
    requires s.fetchError.None?
    ensures Concat(SentBatches(s, streamBufferSize)) == s.rows
    ensures forall k :: 0 <= k < |SentBatches(s, streamBufferSize)| ==> SentBatches(s, streamBufferSize)[k] != []
  {
    var b := BatchRows(s.rows, streamBufferSize);
    BatchesCoverRows(s.rows, streamBufferSize);
    BatchBounds(s.rows, streamBufferSize);
    if |b.pending| > 0 {
      ConcatSnoc(b.flushed, b.pending);
    } else {
      assert b.flushed + [] == b.flushed;
    }
  }

  /** The first result carries only the fields; every later one carries
      rows. */
  lemma FieldsFirst(s: Stream, streamBufferSize: int)
    ensures Packets(s, streamBufferSize)[0] == FieldsPacket(s.fields)
    ensures forall k :: 1 <= k < |Packets(s, streamBufferSize)| ==> Packets(s, streamBufferSize)[k].RowsPacket?
  {
  }

  class DBConnection {
    /** Whether a connection error has closed the connection. */
    var closed: bool

    constructor ()
      ensures !closed
    {
      closed := false;
    }

    /** Streams the result of a query. The `k`-th callback call (0 for the
        fields) answers `callback(k)`; `isConnErr` classifies server errors.
        Returns the results handed to the callback, in order, and the error:
        the query error or the fields error as they are; otherwise as
        `Outcome` says. A query or read error that is a connection error
        closes the connection. */
    method ExecuteStreamFetch(s: Stream, callback: nat -> Option<string>, isConnErr: string -> bool, streamBufferSize: int)
      returns (sent: seq<Packet>, err: Option<string>)
      modifies this
      ensures s.execError.Some? ==> sent == [] && err == s.execError && closed == (old(closed) || isConnErr(s.execError.value))
      ensures s.execError.None? && s.fieldsError.Some? ==> sent == [] && err == s.fieldsError && closed == old(closed)
      ensures s.execError.None? && s.fieldsError.None? ==>
                && (sent, err) == Outcome(Packets(s, streamBufferSize), callback, s.fetchError)
                && closed == (old(closed) || (ReadFails(s, callback, streamBufferSize) && isConnErr(s.fetchError.value)))
    {
      if s.execError.Some? {
        HandleError(s.execError.value, isConnErr);
        return [], s.execError;
      }
      if s.fieldsError.Some? {
        return [], s.fieldsError;
      }
      var readFailed;
      sent, err, readFailed := SendAll(s, callback, streamBufferSize);
      if readFailed {
        HandleError(s.fetchError.value, isConnErr);
      }
    }

    /** Closes the connection on a connection error. */
    method HandleError(e: string, isConnErr: string -> bool)
      modifies this
      ensures closed == (old(closed) || isConnErr(e))
    {
      if isConnErr(e) {
        closed := true;
      }
    }
  }

  /** The results handed over and the error returned once the query and its
      fields are read: everything up to and including the first failing
      callback call, with that call's error (prefixed "stream send error: "
      when it is the fields call); or everything, with the read error if
      the rows ended in one. */
  function Outcome(p: seq<Packet>, callback: nat -> Option<string>, fetchError: Option<string>): (seq<Packet>, Option<string>)
  {
    var m := FirstFailure(|p|, callback);
    if m < |p| then (p[..m + 1], Some(if m == 0 then StreamSendError + callback(0).value else callback(m).value))
    else (p, fetchError)
  }

  /** A stream whose callback never fails and whose rows end cleanly hands
      over everything and returns no error; one whose callback fails stops
      right after the failing call, with an error. */
  lemma StopsOnlyOnError(p: seq<Packet>, callback: nat -> Option<string>, fetchError: Option<string>)
    ensures (forall k :: 0 <= k < |p| ==> callback(k).None?) ==> Outcome(p, callback, fetchError) == (p, fetchError)
    ensures (exists k :: 0 <= k < |p| && callback(k).Some?) ==>
              var (sent, err) := Outcome(p, callback, fetchError);
              err.Some? && 0 < |sent| <= |p| && sent == p[..|sent|] && callback(|sent| - 1).Some?
  {
    if forall k :: 0 <= k < |p| ==> callback(k).None? {
      FirstFailureNone(p, callback);
    }
  }

  /** Whether the stream ends in a read error that no callback failure
      preempts. */
  predicate ReadFails(s: Stream, callback: nat -> Option<string>, streamBufferSize: int)
  {
    var p := Packets(s, streamBufferSize);
    FirstFailure(|p|, callback) == |p| && s.fetchError.Some?
  }

  /** Sends the fields, then reads the rows and sends them in batches;
      also says whether it stopped on a read error. */
  method SendAll(s: Stream, callback: nat -> Option<string>, streamBufferSize: int)
    returns (sent: seq<Packet>, err: Option<string>, readFailed: bool)
    ensures (sent, err) == Outcome(Packets(s, streamBufferSize), callback, s.fetchError)
    ensures readFailed == ReadFails(s, callback, streamBufferSize)
  {
    if callback(0).Some? {
      sent := [FieldsPacket(s.fields)];
      FailureOutcome(s, callback, streamBufferSize, sent);
      return sent, Some(StreamSendError + callback(0).value), false;
    }
    var qr: seq<Row>;
    sent, qr, err := SendRows(s, callback, streamBufferSize);
    if err.Some? {
      return sent, err, false;
    }
    if s.fetchError.Some? {
      CompleteOutcome(s, callback, streamBufferSize, sent);
      return sent, s.fetchError, true;
    }
    if |qr| > 0 {
      sent := sent + [RowsPacket(qr)];
      if callback(|sent| - 1).Some? {
        FailureOutcome(s, callback, streamBufferSize, sent);
        return sent, callback(|sent| - 1), false;
      }
    }
    CompleteOutcome(s, callback, streamBufferSize, sent);
    err, readFailed := None, false;
  }

  /** The read loop of `SendAll`, after the fields were sent: it either
      stops on the first callback failure, with the outcome of the whole
      stream, or reads every row, having flushed the full batches and kept
      the remaining rows pending. */
  method SendRows(s: Stream, callback: nat -> Option<string>, streamBufferSize: int)
    returns (sent: seq<Packet>, pending: seq<Row>, err: Option<string>)
    requires callback(0).None?
    ensures err.Some? ==> (sent, err) == Outcome(Packets(s, streamBufferSize), callback, s.fetchError)
    ensures err.Some? ==> !ReadFails(s, callback, streamBufferSize)
    ensures err.None? ==> var b := BatchRows(s.rows, streamBufferSize);
                          && sent == [FieldsPacket(s.fields)] + RowsPackets(b.flushed)
                          && pending == b.pending
                          && forall k :: 0 <= k < |sent| ==> callback(k).None?
  {
    sent := [FieldsPacket(s.fields)];
    pending := [];
    var byteCount := 0;
    var n := 0;
    ghost var b := BatchRows([], streamBufferSize);
    while n < |s.rows|
      invariant 0 <= n <= |s.rows|
      invariant b == BatchRows(s.rows[..n], streamBufferSize)
      invariant sent == [FieldsPacket(s.fields)] + RowsPackets(b.flushed)
      invariant forall k :: 0 <= k < |sent| ==> callback(k).None?
      invariant pending == b.pending && byteCount == b.byteCount
    {
      var row := s.rows[n];
      ReadStep(s.rows, n, streamBufferSize);
      ghost var before := b.flushed;
      pending := pending + [row];
      byteCount := byteCount + ValuesLen(row.values);
      b := BatchRows(s.rows[..n + 1], streamBufferSize);
      if byteCount >= streamBufferSize {
        RowsPacketsSnoc(before, pending);
        sent := sent + [RowsPacket(pending)];
        if callback(|sent| - 1).Some? {
          FlushFailure(s, callback, streamBufferSize, n + 1, sent);
          return sent, pending, callback(|sent| - 1);
        }
        pending := [];
        byteCount := 0;
      }
      n := n + 1;
    }
    assert s.rows[..n] == s.rows;
    err := None;
  }

  /** Reading one more row either adds it to the pending batch or, once
      the batch reaches the buffer size, flushes the batch. */
  lemma ReadStep(rows: seq<Row>, n: nat, streamBufferSize: int)
    requires n < |rows|
    ensures var b := BatchRows(rows[..n], streamBufferSize);
            var pending := b.pending + [rows[n]];
            var count := b.byteCount + ValuesLen(rows[n].values);
            BatchRows(rows[..n + 1], streamBufferSize) ==
              if count >= streamBufferSize then Batching(b.flushed + [pending], [], 0)
              else Batching(b.flushed, pending, count)
  {
    assert rows[..n + 1][..n] == rows[..n];
  }

  lemma RowsPacketsSnoc(batches: seq<seq<Row>>, batch: seq<Row>)
    ensures RowsPackets(batches + [batch]) == RowsPackets(batches) + [RowsPacket(batch)]
  {
  }

  /** A callback failure on a batch flushed while reading ends the stream
      there. */
  lemma FlushFailure(s: Stream, callback: nat -> Option<string>, streamBufferSize: int, n: nat, sent: seq<Packet>)
    requires n <= |s.rows|
    requires sent == [FieldsPacket(s.fields)] + RowsPackets(BatchRows(s.rows[..n], streamBufferSize).flushed)
    requires forall k :: 0 <= k < |sent| - 1 ==> callback(k).None?
    requires callback(|sent| - 1).Some?
    ensures Outcome(Packets(s, streamBufferSize), callback, s.fetchError) ==
            (sent, Some(if |sent| == 1 then StreamSendError + callback(0).value else callback(|sent| - 1).value))
    ensures !ReadFails(s, callback, streamBufferSize)
  {
    PacketsPrefix(s, n, streamBufferSize);
    FailureOutcome(s, callback, streamBufferSize, sent);
  }

  /** A stream whose `|sent|`-th callback call is the first to fail hands
      over `sent` and returns that call's error. */
  lemma FailureOutcome(s: Stream, callback: nat -> Option<string>, streamBufferSize: int, sent: seq<Packet>)
    requires 0 < |sent| <= |Packets(s, streamBufferSize)| && Packets(s, streamBufferSize)[..|sent|] == sent
    requires forall k :: 0 <= k < |sent| - 1 ==> callback(k).None?
    requires callback(|sent| - 1).Some?
    ensures Outcome(Packets(s, streamBufferSize), callback, s.fetchError) ==
            (sent, Some(if |sent| == 1 then StreamSendError + callback(0).value else callback(|sent| - 1).value))
    ensures !ReadFails(s, callback, streamBufferSize)
  {
    FirstFailureAt(Packets(s, streamBufferSize), callback, |sent| - 1);
  }

  /** A stream whose callback never fails hands over everything and returns
      the read error, if any. */
  lemma CompleteOutcome(s: Stream, callback: nat -> Option<string>, streamBufferSize: int, sent: seq<Packet>)
    requires sent == Packets(s, streamBufferSize)
    requires forall k :: 0 <= k < |sent| ==> callback(k).None?
    ensures Outcome(Packets(s, streamBufferSize), callback, s.fetchError) == (sent, s.fetchError)
    ensures ReadFails(s, callback, streamBufferSize) == s.fetchError.Some?
  {
    FirstFailureNone(sent, callback);
  }

  /** What is sent while the rows are read is a prefix of everything. */
  lemma PacketsPrefix(s: Stream, n: nat, streamBufferSize: int)
    requires n <= |s.rows|
    ensures var sent := [FieldsPacket(s.fields)] + RowsPackets(BatchRows(s.rows[..n], streamBufferSize).flushed);
            |sent| <= |Packets(s, streamBufferSize)| && Packets(s, streamBufferSize)[..|sent|] == sent
  {
    FlushedPrefix(s.rows, n, streamBufferSize);
  }

  /** The batches flushed after a prefix of the rows start the batches
      flushed after all of them. */
  lemma {:induction false} FlushedPrefix(rows: seq<Row>, n: nat, streamBufferSize: int)
    requires n <= |rows|
    ensures var all := BatchRows(rows, streamBufferSize).flushed;
            var some := BatchRows(rows[..n], streamBufferSize).flushed;
            |some| <= |all| && all[..|some|] == some
    decreases |rows| - n
  {
    if n < |rows| {
      FlushedPrefix(rows, n + 1, streamBufferSize);
      assert rows[..n + 1][..n] == rows[..n];
    } else {
      assert rows[..n] == rows;
    }
  }

  lemma FirstFailureAt(p: seq<Packet>, callback: nat -> Option<string>, m: nat)
    requires m < |p| && callback(m).Some? && forall k :: 0 <= k < m ==> callback(k).None?
    ensures FirstFailure(|p|, callback) == m
  {
  }

  lemma FirstFailureNone(p: seq<Packet>, callback: nat -> Option<string>)
    requires forall k :: 0 <= k < |p| ==> callback(k).None?
    ensures FirstFailure(|p|, callback) == |p|
  {
  }
}
