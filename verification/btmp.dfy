/** The failed-login monitor: reads new fixed-size records from an append-only file and
    keeps, per address, the times inside a sliding window. */
module Btmp {

  import opened Net
  import opened Encoding
  import opened Policy
  import opened Results

  const UTMP_RECORD_SIZE: nat := 384

  type Bytes = seq<U8>

  datatype FailedAttempt = FailedAttempt(ip: Ip, time: Time)

  datatype ReadCursor = ReadCursor(inode: nat, offset: nat)

  /** The file as one round finds it. */
  datatype File = File(inode: nat, bytes: Bytes)

  /** How many bytes are whole records. */
  function Whole(n: nat): (w: nat)
    ensures w <= n && w % UTMP_RECORD_SIZE == 0 && n - w < UTMP_RECORD_SIZE
  {
    n / UTMP_RECORD_SIZE * UTMP_RECORD_SIZE
  }

  /** What the whole records of a file say, in order; an unreadable record says nothing. */
  function Attempts(bytes: Bytes, parse: Bytes -> Option<FailedAttempt>): seq<FailedAttempt>
    decreases |bytes|
  {
    if |bytes| < UTMP_RECORD_SIZE then []
    else
      OneAttempt(parse(bytes[..UTMP_RECORD_SIZE])) + Attempts(bytes[UTMP_RECORD_SIZE..], parse)
  }

  /** Scanning can stop after any number of whole records and go on from there. */
  lemma {:induction false} AttemptsSplit(a: Bytes, b: Bytes, parse: Bytes -> Option<FailedAttempt>)
    requires |a| % UTMP_RECORD_SIZE == 0
    ensures Attempts(a + b, parse) == Attempts(a, parse) + Attempts(b, parse)
    decreases |a|
  {
    if a == [] {
      assert a + b == b;
    } else {
      assert (a + b)[..UTMP_RECORD_SIZE] == a[..UTMP_RECORD_SIZE];
      assert (a + b)[UTMP_RECORD_SIZE..] == a[UTMP_RECORD_SIZE..] + b;
      AttemptsSplit(a[UTMP_RECORD_SIZE..], b, parse);
    }
  }

  /** A trailing partial record says nothing yet. */
  lemma PartialRecordWaits(bytes: Bytes, parse: Bytes -> Option<FailedAttempt>)
    ensures Attempts(bytes, parse) == Attempts(bytes[..Whole(|bytes|)], parse)
  {
    var w := Whole(|bytes|);
    AttemptsSplit(bytes[..w], bytes[w..], parse);
    assert bytes == bytes[..w] + bytes[w..];
  }

  method ReadAttempts(file: File, cursor: Option<ReadCursor>, parse: Bytes -> Option<FailedAttempt>)
    returns (attempts: seq<FailedAttempt>, next: ReadCursor)
    ensures next.inode == file.inode
    ensures var start := StartAt(file, cursor);
            attempts == Attempts(file.bytes[start..], parse) && next.offset == start + Whole(|file.bytes| - start)
  {
    var start := StartAt(file, cursor);
    var buf := file.bytes[start..];
    var complete := Whole(|buf|);
    attempts := [];
    var rest := buf[..complete];
    PartialRecordWaits(buf, parse);
    while rest != []
      invariant |rest| % UTMP_RECORD_SIZE == 0
      invariant attempts + Attempts(rest, parse) == Attempts(buf, parse)
      decreases |rest|
    {
      var record, tail := rest[..UTMP_RECORD_SIZE], rest[UTMP_RECORD_SIZE..];
      AttemptsStep(record, tail, parse);
      assert rest == record + tail;
      attempts := Pushed(attempts, parse(record), Attempts(tail, parse));
      rest := tail;
    }
    assert attempts + [] == attempts;
    next := ReadCursor(file.inode, start + complete);
  }

  function OneAttempt(parsed: Option<FailedAttempt>): seq<FailedAttempt>
  {
    match parsed
    case Some(a) => [a]
    case None => []
  }

  function Pushed(attempts: seq<FailedAttempt>, parsed: Option<FailedAttempt>,
                  ghost later: seq<FailedAttempt>): (r: seq<FailedAttempt>)
    ensures r == attempts + OneAttempt(parsed)
    ensures r + later == attempts + (OneAttempt(parsed) + later)
  {
    attempts + OneAttempt(parsed)
  }

  lemma AttemptsStep(record: Bytes, tail: Bytes, parse: Bytes -> Option<FailedAttempt>)
    requires |record| == UTMP_RECORD_SIZE
    ensures Attempts(record + tail, parse) == OneAttempt(parse(record)) + Attempts(tail, parse)
  {
  }

  /** A file shorter than the offset starts over, and so does a changed inode. */
  function Resume(offset: nat, len: nat): (start: nat)
    ensures start <= len
  {
    if offset <= len then offset else 0
  }

  function StartAt(file: File, cursor: Option<ReadCursor>): (start: nat)
    ensures start <= |file.bytes|
  {
    if cursor.Some? && cursor.value.inode == file.inode then Resume(cursor.value.offset, |file.bytes|) else 0
  }

  // ------------------------------------------------------------ the window

  /** Times of one address not older than the cutoff, in order. */
  function TimesOf(attempts: seq<FailedAttempt>, ip: Ip, cutoff: Time): seq<Time>
  {
    if attempts == [] then []
    else
      var last := attempts[|attempts| - 1];
      TimesOf(attempts[..|attempts| - 1], ip, cutoff)
      + (if last.ip == ip && last.time >= cutoff then [last.time] else [])
  }

  /** A time is in an address's window exactly if an attempt of that address at that time
      was seen, and it is not before the cutoff. */
  lemma {:induction false} WindowHolds(attempts: seq<FailedAttempt>, ip: Ip, cutoff: Time, t: Time)
    ensures t in TimesOf(attempts, ip, cutoff) <==> FailedAttempt(ip, t) in attempts && t >= cutoff
  {
    if attempts == [] {
    } else {
      var rest, last := attempts[..|attempts| - 1], attempts[|attempts| - 1];
      WindowHolds(rest, ip, cutoff, t);
      assert attempts == rest + [last];
    }
  }

  function Since(times: seq<Time>, cutoff: Time): seq<Time>
  {
    if times == [] then []
    else
      Since(times[..|times| - 1], cutoff) + (if times[|times| - 1] >= cutoff then [times[|times| - 1]] else [])
  }

  lemma {:induction false} SinceAppend(a: seq<Time>, b: seq<Time>, cutoff: Time)
    ensures Since(a + b, cutoff) == Since(a, cutoff) + Since(b, cutoff)
  {
    if b == [] {
      assert a + b == a;
    } else {
      assert (a + b)[..|a + b| - 1] == a + b[..|b| - 1];
      SinceAppend(a, b[..|b| - 1], cutoff);
    }
  }

  /** Dropping old times from a window gives the later window. */
  lemma {:induction false} LaterWindow(attempts: seq<FailedAttempt>, ip: Ip, before: Time, cutoff: Time)
    requires before <= cutoff
    ensures Since(TimesOf(attempts, ip, before), cutoff) == TimesOf(attempts, ip, cutoff)
  {
    if attempts == [] {
    } else {
      var rest, last := attempts[..|attempts| - 1], attempts[|attempts| - 1];
      LaterWindow(rest, ip, before, cutoff);
      var one := if last.ip == ip && last.time >= before then [last.time] else [];
      SinceAppend(TimesOf(rest, ip, before), one, cutoff);
      assert one != [] ==> one[..|one| - 1] == [];
    }
  }

  lemma {:induction false} TimesAppend(a: seq<FailedAttempt>, b: seq<FailedAttempt>, ip: Ip, cutoff: Time)
    ensures TimesOf(a + b, ip, cutoff) == TimesOf(a, ip, cutoff) + TimesOf(b, ip, cutoff)
  {
    if b == [] {
      assert a + b == a;
    } else {
      assert (a + b)[..|a + b| - 1] == a + b[..|b| - 1];
      TimesAppend(a, b[..|b| - 1], ip, cutoff);
    }
  }

  function QueueOf(counts: map<Ip, seq<Time>>, ip: Ip): seq<Time>
  {
    if ip in counts then counts[ip] else []
  }

  /** Each address queues its times, and only addresses with any are there. */
  ghost predicate Counted(counts: map<Ip, seq<Time>>, attempts: seq<FailedAttempt>, cutoff: Time)
  {
    forall ip: Ip :: QueueOf(counts, ip) == TimesOf(attempts, ip, cutoff) && (ip in counts ==> counts[ip] != [])
  }

  /** The same while new attempts are being pushed and nothing was dropped yet. */
  ghost predicate Queued(counts: map<Ip, seq<Time>>, earlier: seq<FailedAttempt>, before: Time,
                         attempts: seq<FailedAttempt>, cutoff: Time)
  {
    forall ip: Ip ::
      && QueueOf(counts, ip) == TimesOf(earlier, ip, before) + TimesOf(attempts, ip, cutoff)
      && (ip in counts ==> counts[ip] != [])
  }

  lemma QueuedStep(counts: map<Ip, seq<Time>>, earlier: seq<FailedAttempt>, before: Time,
                   attempts: seq<FailedAttempt>, a: FailedAttempt, cutoff: Time)
    requires Queued(counts, earlier, before, attempts, cutoff)
    ensures Queued(if a.time >= cutoff then counts[a.ip := QueueOf(counts, a.ip) + [a.time]] else counts,
                   earlier, before, attempts + [a], cutoff)
  {
    assert (attempts + [a])[..|attempts|] == attempts;
  }

  function Retained(counts: map<Ip, seq<Time>>, cutoff: Time): map<Ip, seq<Time>>
  {
    map ip | ip in counts && Since(counts[ip], cutoff) != [] :: Since(counts[ip], cutoff)
  }

  lemma RetainedCounts(counts: map<Ip, seq<Time>>, earlier: seq<FailedAttempt>, before: Time,
                       attempts: seq<FailedAttempt>, cutoff: Time)
    requires Queued(counts, earlier, before, attempts, cutoff) && before <= cutoff
    ensures Counted(Retained(counts, cutoff), earlier + attempts, cutoff)
  {
    forall ip: Ip
      ensures Since(QueueOf(counts, ip), cutoff) == TimesOf(earlier + attempts, ip, cutoff)
    {
      SinceAppend(TimesOf(earlier, ip, before), TimesOf(attempts, ip, cutoff), cutoff);
      LaterWindow(earlier, ip, before, cutoff);
      LaterWindow(attempts, ip, cutoff, cutoff);
      TimesAppend(earlier, attempts, ip, cutoff);
    }
  }

  class Monitor {
    var cursor: Option<ReadCursor>
    var counts: map<Ip, seq<Time>>

    constructor ()
      ensures cursor == None && counts == map[]
    {
      cursor, counts := None, map[];
    }

    method MergeAttempts(attempts: seq<FailedAttempt>, cutoff: Time, ghost earlier: seq<FailedAttempt>,
                         ghost before: Time)
      requires Counted(counts, earlier, before) && before <= cutoff
      modifies this`counts
      ensures Counted(counts, earlier + attempts, cutoff)
    {
      for i := 0 to |attempts|
        invariant Queued(counts, earlier, before, attempts[..i], cutoff)
      {
        var a := attempts[i];
        assert attempts[..i + 1] == attempts[..i] + [a];
        QueuedStep(counts, earlier, before, attempts[..i], a, cutoff);
        if a.time >= cutoff {
          counts := counts[a.ip := QueueOf(counts, a.ip) + [a.time]];
        }
      }
      assert attempts[..|attempts|] == attempts;
      RetainedCounts(counts, earlier, before, attempts, cutoff);
      counts := Retained(counts, cutoff);
    }

    /** One round: what the file holds from the cursor on, or from its start if it is
        another file or a shorter one, joins the window. */
    method RunOnce(file: File, cutoff: Time, parse: Bytes -> Option<FailedAttempt>, ghost earlier: seq<FailedAttempt>,
                   ghost before: Time)
      requires before <= cutoff && Counted(counts, earlier, before)
      modifies this
      ensures var start := StartAt(file, old(cursor));
              && cursor == Some(ReadCursor(file.inode, start + Whole(|file.bytes| - start)))
              && Counted(counts, earlier + Attempts(file.bytes[start..], parse), cutoff)
    {
      var attempts, next := ReadAttempts(file, cursor, parse);
      cursor := Some(next);
      MergeAttempts(attempts, cutoff, earlier, before);
    }
  }

  // ------------------------------------------------------------ over rounds

  /** One round: the file found and the cutoff used. */
  datatype Round = Round(file: File, cutoff: Time)

  /** Another file, or one cut below the end of the last whole record. */
  predicate Replaced(prev: File, file: File)
  {
    prev.inode != file.inode || |file.bytes| < Whole(|prev.bytes|)
  }

  /** From one round to the next the file grows, or is replaced. */
  ghost predicate GrowsOrIsReplaced(rounds: seq<Round>)
  {
    forall i :: 0 < i < |rounds| ==>
      && rounds[i - 1].cutoff <= rounds[i].cutoff
      && (Replaced(rounds[i - 1].file, rounds[i].file) || rounds[i - 1].file.bytes <= rounds[i].file.bytes)
  }

  /** The cursor after the first `n` rounds, computed round by round. */
  function CursorAfter(rounds: seq<Round>, n: nat): Option<ReadCursor>
    requires n <= |rounds|
  {
    if n == 0 then None
    else
      var file := rounds[n - 1].file;
      var start := StartAt(file, CursorAfter(rounds, n - 1));
      Some(ReadCursor(file.inode, start + Whole(|file.bytes| - start)))
  }

  /** The queue of one address after the first `n` rounds. */
  function QueueAfter(rounds: seq<Round>, n: nat, ip: Ip, parse: Bytes -> Option<FailedAttempt>): seq<Time>
    requires n <= |rounds|
  {
    if n == 0 then []
    else
      var r := rounds[n - 1];
      var unread := r.file.bytes[StartAt(r.file, CursorAfter(rounds, n - 1))..];
      Since(QueueAfter(rounds, n - 1, ip, parse), r.cutoff) + TimesOf(Attempts(unread, parse), ip, r.cutoff)
  }

  /** What the files before the one of round `n` held when they were last seen. */
  function Finished(rounds: seq<Round>, n: nat, parse: Bytes -> Option<FailedAttempt>): seq<FailedAttempt>
    requires 0 < n <= |rounds|
  {
    if n == 1 then []
    else
      Finished(rounds, n - 1, parse)
      + if Replaced(rounds[n - 2].file, rounds[n - 1].file) then Attempts(rounds[n - 2].file.bytes, parse) else []
  }

  lemma {:induction false} CursorIsWhole(rounds: seq<Round>, n: nat)
    requires GrowsOrIsReplaced(rounds) && 0 < n <= |rounds|
    ensures var file := rounds[n - 1].file;
            CursorAfter(rounds, n) == Some(ReadCursor(file.inode, Whole(|file.bytes|)))
  {
    if n == 1 {
      assert CursorAfter(rounds, 0) == None;
    } else {
      CursorIsWhole(rounds, n - 1);
      if !Replaced(rounds[n - 2].file, rounds[n - 1].file) {
        WholeResumes(|rounds[n - 2].file.bytes|, |rounds[n - 1].file.bytes|);
      }
    }
  }

  /** One round more: the same file read on, or the next one from its start. */
  lemma RoundAdds(earlier: seq<FailedAttempt>, prev: File, file: File, start: nat,
                  parse: Bytes -> Option<FailedAttempt>)
    requires if Replaced(prev, file) then start == 0 else prev.bytes <= file.bytes && start == Whole(|prev.bytes|)
    ensures start <= |file.bytes|
    ensures earlier + Attempts(prev.bytes, parse) + Attempts(file.bytes[start..], parse) ==
            (earlier + if Replaced(prev, file) then Attempts(prev.bytes, parse) else []) + Attempts(file.bytes, parse)
  {
    if Replaced(prev, file) {
      assert file.bytes[0..] == file.bytes;
    } else {
      Resumed(prev.bytes, file.bytes, parse);
      assert earlier + [] == earlier;
    }
  }

  lemma WindowAdds(before: seq<FailedAttempt>, more: seq<FailedAttempt>, ip: Ip, from: Time, cutoff: Time)
    requires from <= cutoff
    ensures Since(TimesOf(before, ip, from), cutoff) + TimesOf(more, ip, cutoff) == TimesOf(before + more, ip, cutoff)
  {
    LaterWindow(before, ip, from, cutoff);
    TimesAppend(before, more, ip, cutoff);
  }

  /** However a file that grows, and is replaced from time to time, is cut into rounds, with
      records half-written in between: every address ends up with the times that one scan
      of each file, as it was last seen, would give, and no record is read twice, for the
      cursor is always the end of the last whole record. */
  lemma {:induction false} RoundsEqualOneScan(rounds: seq<Round>, n: nat, ip: Ip, parse: Bytes -> Option<FailedAttempt>)
    requires GrowsOrIsReplaced(rounds) && 0 < n <= |rounds|
    ensures var r := rounds[n - 1];
            && CursorAfter(rounds, n) == Some(ReadCursor(r.file.inode, Whole(|r.file.bytes|)))
            && QueueAfter(rounds, n, ip, parse) ==
               TimesOf(Finished(rounds, n, parse) + Attempts(r.file.bytes, parse), ip, r.cutoff)
  {
    CursorIsWhole(rounds, n);
    var r := rounds[n - 1];
    if n == 1 {
      assert CursorAfter(rounds, 0) == None && QueueAfter(rounds, 0, ip, parse) == [];
      assert r.file.bytes[0..] == r.file.bytes && [] + Attempts(r.file.bytes, parse) == Attempts(r.file.bytes, parse);
    } else {
      CursorIsWhole(rounds, n - 1);
      RoundsEqualOneScan(rounds, n - 1, ip, parse);
      var start := StartAt(r.file, CursorAfter(rounds, n - 1));
      var earlier, prev := Finished(rounds, n - 1, parse), rounds[n - 2];
      RoundAdds(earlier, prev.file, r.file, start, parse);
      WindowAdds(earlier + Attempts(prev.file.bytes, parse), Attempts(r.file.bytes[start..], parse), ip, prev.cutoff,
                 r.cutoff);
    }
  }

  lemma WholeResumes(p: nat, n: nat)
    requires p <= n
    ensures Whole(p) + Whole(n - Whole(p)) == Whole(n)
  {
  }

  /** Reading on from the whole records of an earlier look at a grown file. */
  lemma Resumed(prev: Bytes, bytes: Bytes, parse: Bytes -> Option<FailedAttempt>)
    requires prev <= bytes
    ensures Attempts(bytes, parse) == Attempts(prev, parse) + Attempts(bytes[Whole(|prev|)..], parse)
  {
    var start := Whole(|prev|);
    var a, b := bytes[..start], bytes[start..];
    assert a == prev[..start];
    PartialRecordWaits(prev, parse);
    AttemptsSplit(a, b, parse);
    assert bytes == a + b;
  }
}
