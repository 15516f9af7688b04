/** The accounting inside `downloadWithTimeout`: the response body arrives as
    a sequence of chunks; after each chunk the coroutine's cancellation flag is
    checked, the byte counter grows by saturating addition, the chunk is
    appended to the temporary file, and a progress sample is emitted when more
    than 100 ms have passed since the previous one. The connection, the clock
    and the flag are inputs: each chunk carries the bytes it returned, the
    value `isActive()` gave right after it, and the clock reading taken after
    the chunk was written. */
module Transfer {
  import opened Kotlin
  import opened ContentLength

  /** Progress is reported only when strictly more than this many
      milliseconds separate the clock from the previous report. */
  const PROGRESS_INTERVAL_MS: int := 100

  /** One successful `input.read(buffer)`: the bytes read, what `isActive()`
      answered before they were counted, and `System.currentTimeMillis()`
      after they were written. */
  datatype Chunk = Chunk(data: seq<Byte>, stillActive: bool, clock: Long)

  /** The progress fraction `num / den`; it stands for the `Double` the
      callback receives. */
  datatype Fraction = Fraction(num: int, den: int)

  /** The arguments of one `onProgress` call, with the clock reading at
      which it was made (`at`), which the throttle compares. */
  datatype Sample = Sample(bytesDownloaded: int, totalBytes: int, progress: Fraction, at: Long)

  /** What one transfer leaves behind: whether it stopped on the cancellation
      flag, the byte counter and the total it returns, the bytes written to the
      temporary file, and the progress callbacks made, in order. */
  datatype Outcome = Outcome(cancelled: bool, bytesDownloaded: int, totalBytes: int, written: seq<Byte>, samples: seq<Sample>)

  /** `min(n, Long.MAX_VALUE)`. */
  function Clamp(n: int): int {
    if n < LONG_MAX then n else LONG_MAX
  }

  /** The counter update: `Long.MAX_VALUE` when the addition would pass it,
      the sum otherwise. */
  function SaturatingAdd(counter: int, count: int): (r: int)
    requires 0 <= counter <= LONG_MAX && 0 <= count
    ensures r == Clamp(counter + count)
    ensures counter <= r <= LONG_MAX
  {
    if LONG_MAX - counter < count then LONG_MAX else counter + count
  }

  /** The throttle: `currentTime - lastUpdateTime > 100`, the subtraction
      being a `Long` one. */
  predicate Due(lastUpdate: Long, now: Long) {
    WrapLong(now as int - lastUpdate as int) > PROGRESS_INTERVAL_MS
  }

  /** While the clock has moved by less than the `Long` range, a callback is
      due exactly when more than 100 ms have passed since the last one. */
  lemma DueWhenInRange(lastUpdate: Long, now: Long)
    ensures LONG_MIN <= now - lastUpdate <= LONG_MAX ==>
              (Due(lastUpdate, now) <==> now - lastUpdate > PROGRESS_INTERVAL_MS)
  {
  }

  /** The total a progress callback reports: the real total when it is known
      and positive, else the bytes so far, else zero. */
  function ReportedTotal(totalBytes: int, bytesDownloaded: int): (r: int)
    ensures r >= 0
    ensures totalBytes > 0 ==> r == totalBytes
    ensures totalBytes <= 0 && bytesDownloaded >= 0 ==> r == bytesDownloaded
  {
    if totalBytes > 0 then totalBytes
    else if bytesDownloaded > 0 then bytesDownloaded
    else 0
  }

  /** The fraction done: zero whenever the total is not positive. */
  function ProgressOf(totalBytes: int, bytesDownloaded: int): (r: Fraction)
    ensures r.den > 0
    ensures totalBytes <= 0 ==> r.num == 0
    ensures totalBytes > 0 ==> r.num * totalBytes == bytesDownloaded * r.den
  {
    if totalBytes > 0 then Fraction(bytesDownloaded, totalBytes) else Fraction(0, 1)
  }

  // ---------------------------------------------------------------------
  // The transfer described chunk by chunk

  /** The index of the first chunk after which the flag was found down, or
      the number of chunks if it never was. */
  function FirstInactive(chunks: seq<Chunk>): (k: nat)
    ensures k <= |chunks|
    ensures forall j :: 0 <= j < k ==> chunks[j].stillActive
    ensures k < |chunks| ==> !chunks[k].stillActive
  {
    if chunks == [] then 0
    else if !chunks[0].stillActive then 0
    else 1 + FirstInactive(chunks[1..])
  }

  /** The bytes the chunks append to the temporary file, in order. */
  function Written(chunks: seq<Chunk>): seq<Byte> {
    if chunks == [] then [] else Written(chunks[..|chunks| - 1]) + chunks[|chunks| - 1].data
  }

  /** `lastUpdateTime` after the chunks, starting from the clock reading
      taken before the connection was opened. */
  function LastUpdate(start: Long, chunks: seq<Chunk>): Long {
    if chunks == [] then start
    else
      var last := LastUpdate(start, chunks[..|chunks| - 1]);
      if Due(last, chunks[|chunks| - 1].clock) then chunks[|chunks| - 1].clock else last
  }

  /** The progress callbacks the chunks trigger. */
  function Samples(totalBytes: int, start: Long, chunks: seq<Chunk>): (s: seq<Sample>)
    ensures |s| <= |chunks|
  {
    if chunks == [] then []
    else
      var prefix := chunks[..|chunks| - 1];
      var now := chunks[|chunks| - 1].clock;
      var bytes := Clamp(|Written(chunks)|);
      Samples(totalBytes, start, prefix)
        + if Due(LastUpdate(start, prefix), now)
          then [Sample(bytes, ReportedTotal(totalBytes, bytes), ProgressOf(totalBytes, bytes), now)]
          else []
  }

  /** `timeoutMillis.coerceIn(0L, Int.MAX_VALUE.toLong()).toInt()`: the
      point of `[0, Int.MAX_VALUE]` nearest to the requested timeout. */
  function CoerceTimeout(timeoutMillis: Long): (r: Int32)
    ensures 0 <= r <= INT_MAX
    ensures 0 <= timeoutMillis <= INT_MAX ==> r == timeoutMillis
    ensures forall x :: 0 <= x <= INT_MAX ==> Distance(r, timeoutMillis) <= Distance(x, timeoutMillis)
  {
    if timeoutMillis < 0 then 0
    else if timeoutMillis > INT_MAX then INT_MAX
    else timeoutMillis
  }

  function Distance(a: int, b: int): nat {
    if a < b then b - a else a - b
  }

  // ---------------------------------------------------------------------
  // The transfer loop

  /** What a transfer of `chunks` returns for the response headers and
      lengths given, starting from clock reading `start`. */
  ghost function TransferOutcome(header: Option<string>, contentLengthLong: Long, contentLength: Int32,
                                 start: Long, chunks: seq<Chunk>): Outcome {
    var k := FirstInactive(chunks);
    var totalBytes := SelectTotal(ParseContentLength(header), contentLengthLong, contentLength);
    var written := Written(chunks[..k]);
    Outcome(k < |chunks|, Clamp(|written|), totalBytes, written, Samples(totalBytes, start, chunks[..k]))
  }

  /** The contract of `DownloadWithTimeout` pins down one outcome:
      `TransferOutcome`. */
  lemma ReturnsTransferOutcome(r: Outcome, header: Option<string>, contentLengthLong: Long, contentLength: Int32,
                               start: Long, chunks: seq<Chunk>)
    requires r.cancelled <==> FirstInactive(chunks) < |chunks|
    requires r.totalBytes == SelectTotal(ParseContentLength(header), contentLengthLong, contentLength)
    requires r.written == Written(chunks[..FirstInactive(chunks)])
    requires r.bytesDownloaded == Clamp(|r.written|)
    requires r.samples == Samples(r.totalBytes, start, chunks[..FirstInactive(chunks)])
    ensures r == TransferOutcome(header, contentLengthLong, contentLength, start, chunks)
  {
  }

  /** The body of `downloadWithTimeout` from the response headers on: the
      total is chosen from the `Content-Length` header and the two lengths
      the connection reports, then every chunk is checked against the
      cancellation flag, counted, written and possibly reported. The result
      holds exactly the chunks before the flag first dropped: the counter is
      the number of bytes written, capped at `Long.MAX_VALUE`, and the
      progress callbacks are those those chunks trigger. */
  method DownloadWithTimeout(header: Option<string>, contentLengthLong: Long, contentLength: Int32,
                             start: Long, chunks: seq<Chunk>) returns (r: Outcome)
    ensures r.cancelled <==> FirstInactive(chunks) < |chunks|
    ensures r.totalBytes == SelectTotal(ParseContentLength(header), contentLengthLong, contentLength)
    ensures r.written == Written(chunks[..FirstInactive(chunks)])
    ensures r.bytesDownloaded == Clamp(|r.written|)
    ensures r.samples == Samples(r.totalBytes, start, chunks[..FirstInactive(chunks)])
  {
    var totalBytes := SelectTotal(ParseContentLength(header), contentLengthLong, contentLength);
    var bytesDownloaded: int := 0;
    var lastUpdateTime := start;
    var written: seq<Byte> := [];
    var samples: seq<Sample> := [];
    var cancelled := false;
    var i := 0;
    while i < |chunks|
      invariant 0 <= i <= |chunks|
      invariant forall j :: 0 <= j < i ==> chunks[j].stillActive
      invariant written == Written(chunks[..i])
      invariant bytesDownloaded == Clamp(|written|)
      invariant lastUpdateTime == LastUpdate(start, chunks[..i])
      invariant samples == Samples(totalBytes, start, chunks[..i])
      invariant !cancelled
    {
      var chunk := chunks[i];
      if !chunk.stillActive {
        cancelled := true;
        break;
      }
      OneMoreChunk(totalBytes, start, chunks[..i], chunk);
      assert chunks[..i + 1] == chunks[..i] + [chunk];
      var count := |chunk.data|;
      bytesDownloaded := SaturatingAdd(bytesDownloaded, count);
      written := written + chunk.data;
      var currentTime := chunk.clock;
      if Due(lastUpdateTime, currentTime) {
        lastUpdateTime := currentTime;
        var progress := ProgressOf(totalBytes, bytesDownloaded);
        var reportedTotalBytes := ReportedTotal(totalBytes, bytesDownloaded);
        samples := samples + [Sample(bytesDownloaded, reportedTotalBytes, progress, currentTime)];
      }
      i := i + 1;
    }
    assert i == FirstInactive(chunks);
    r := Outcome(cancelled, bytesDownloaded, totalBytes, written, samples);
  }

  /** What one more chunk does to the specification functions: its bytes
      are appended, the counter grows by saturating addition, and a sample
      is added exactly when the throttle lets one through. */
  lemma OneMoreChunk(totalBytes: int, start: Long, prefix: seq<Chunk>, chunk: Chunk)
    ensures Written(prefix + [chunk]) == Written(prefix) + chunk.data
    ensures Clamp(|Written(prefix + [chunk])|) == SaturatingAdd(Clamp(|Written(prefix)|), |chunk.data|)
    ensures LastUpdate(start, prefix + [chunk])
            == if Due(LastUpdate(start, prefix), chunk.clock) then chunk.clock else LastUpdate(start, prefix)
    ensures Samples(totalBytes, start, prefix + [chunk])
            == Samples(totalBytes, start, prefix)
               + if Due(LastUpdate(start, prefix), chunk.clock)
                 then [Sample(Clamp(|Written(prefix + [chunk])|),
                              ReportedTotal(totalBytes, Clamp(|Written(prefix + [chunk])|)),
                              ProgressOf(totalBytes, Clamp(|Written(prefix + [chunk])|)), chunk.clock)]
                 else []
  {
  }

  // ---------------------------------------------------------------------
  // Properties of the counter and of the progress callbacks

  /** The file written so far is a prefix of the file written later. */
  lemma {:induction false} WrittenPrefix(chunks: seq<Chunk>, i: nat)
    requires i <= |chunks|
    ensures |Written(chunks[..i])| <= |Written(chunks)|
    ensures Written(chunks[..i]) == Written(chunks)[..|Written(chunks[..i])|]
    decreases |chunks|
  {
    if i < |chunks| {
      var prefix := chunks[..|chunks| - 1];
      assert prefix[..i] == chunks[..i];
      WrittenPrefix(prefix, i);
    } else {
      assert chunks[..i] == chunks;
    }
  }

  /** The byte counter never decreases from one chunk to the next and never
      exceeds `Long.MAX_VALUE`. */
  lemma CounterMonotone(chunks: seq<Chunk>, i: nat, j: nat)
    requires i <= j <= |chunks|
    ensures Clamp(|Written(chunks[..i])|) <= Clamp(|Written(chunks[..j])|) <= LONG_MAX
  {
    assert chunks[..j][..i] == chunks[..i];
    WrittenPrefix(chunks[..j], i);
  }

  /** The `lastUpdateTime` after some chunks is the moment of the last
      progress callback, or the start if there was none. */
  lemma {:induction false} LastUpdateIsLastSample(totalBytes: int, start: Long, chunks: seq<Chunk>)
    ensures var s := Samples(totalBytes, start, chunks);
            LastUpdate(start, chunks) == if s == [] then start else s[|s| - 1].at
    decreases |chunks|
  {
    if chunks != [] {
      LastUpdateIsLastSample(totalBytes, start, chunks[..|chunks| - 1]);
    }
  }

  /** Progress callbacks are throttled: the first comes more than 100 ms
      (by `Long` subtraction) after the start, and each later one more than
      100 ms after the one before. */
  lemma {:induction false} SamplesThrottled(totalBytes: int, start: Long, chunks: seq<Chunk>)
    ensures var s := Samples(totalBytes, start, chunks);
            && (s != [] ==> Due(start, s[0].at))
            && forall k :: 0 <= k < |s| - 1 ==> Due(s[k].at, s[k + 1].at)
    decreases |chunks|
  {
    if chunks != [] {
      var prefix := chunks[..|chunks| - 1];
      var now := chunks[|chunks| - 1].clock;
      SamplesThrottled(totalBytes, start, prefix);
      LastUpdateIsLastSample(totalBytes, start, prefix);
      var sp := Samples(totalBytes, start, prefix);
      var s := Samples(totalBytes, start, chunks);
      if Due(LastUpdate(start, prefix), now) {
        var bytes := Clamp(|Written(chunks)|);
        assert s == sp + [Sample(bytes, ReportedTotal(totalBytes, bytes), ProgressOf(totalBytes, bytes), now)];
        forall k | 0 <= k < |s| - 1
          ensures Due(s[k].at, s[k + 1].at)
        {
          if k + 1 == |sp| {
            assert s[k] == sp[|sp| - 1] && s[k + 1].at == now;
          } else {
            assert s[k] == sp[k] && s[k + 1] == sp[k + 1];
          }
        }
      } else {
        assert s == sp;
      }
    }
  }

  /** No sample reports more than `bound` bytes. */
  predicate CountsAtMost(s: seq<Sample>, bound: int) {
    forall k :: 0 <= k < |s| ==> s[k].bytesDownloaded <= bound
  }

  /** Later samples never report fewer bytes than earlier ones. */
  predicate CountsNondecreasing(s: seq<Sample>) {
    forall k, l :: 0 <= k < l < |s| ==> s[k].bytesDownloaded <= s[l].bytesDownloaded
  }

  /** Later samples always report more bytes than earlier ones. */
  predicate CountsIncreasing(s: seq<Sample>) {
    forall k, l :: 0 <= k < l < |s| ==> s[k].bytesDownloaded < s[l].bytesDownloaded
  }

  /** The samples after one more chunk are those before it, followed by at
      most one sample carrying the new counter. */
  lemma SamplesStep(totalBytes: int, start: Long, chunks: seq<Chunk>)
    requires chunks != []
    ensures var prefix := chunks[..|chunks| - 1];
            var extra := Samples(totalBytes, start, chunks)[|Samples(totalBytes, start, prefix)|..];
            && Samples(totalBytes, start, chunks) == Samples(totalBytes, start, prefix) + extra
            && |extra| <= 1
            && forall k :: 0 <= k < |extra| ==> extra[k].bytesDownloaded == Clamp(|Written(chunks)|)
  {
  }

  /** Appending samples that carry a counter at least as large as every
      earlier one keeps the counts bounded and ordered. */
  lemma AppendCount(sp: seq<Sample>, extra: seq<Sample>, before: int, bound: int, strict: bool)
    requires |extra| <= 1
    requires CountsAtMost(sp, before) && before <= bound
    requires strict ==> before < bound
    requires forall k :: 0 <= k < |extra| ==> extra[k].bytesDownloaded == bound
    ensures CountsAtMost(sp + extra, bound)
    ensures CountsNondecreasing(sp) ==> CountsNondecreasing(sp + extra)
    ensures CountsIncreasing(sp) && strict ==> CountsIncreasing(sp + extra)
  {
  }

  /** Every callback reports the counter of its moment: the samples never go
      backwards and never pass the final counter. */
  lemma {:induction false} SamplesNondecreasing(totalBytes: int, start: Long, chunks: seq<Chunk>)
    ensures CountsAtMost(Samples(totalBytes, start, chunks), Clamp(|Written(chunks)|))
    ensures CountsNondecreasing(Samples(totalBytes, start, chunks))
    decreases |chunks|
  {
    if chunks != [] {
      var prefix := chunks[..|chunks| - 1];
      SamplesNondecreasing(totalBytes, start, prefix);
      assert chunks[..|chunks|] == chunks;
      CounterMonotone(chunks, |chunks| - 1, |chunks|);
      SamplesStep(totalBytes, start, chunks);
      var sp := Samples(totalBytes, start, prefix);
      AppendCount(sp, Samples(totalBytes, start, chunks)[|sp|..],
                  Clamp(|Written(prefix)|), Clamp(|Written(chunks)|), false);
    }
  }

  /** When every chunk returns at least one byte and the counter never
      saturates, the samples report strictly increasing byte counts. */
  lemma {:induction false} SamplesIncreasing(totalBytes: int, start: Long, chunks: seq<Chunk>)
    requires forall j :: 0 <= j < |chunks| ==> |chunks[j].data| > 0
    requires |Written(chunks)| < LONG_MAX
    ensures CountsAtMost(Samples(totalBytes, start, chunks), |Written(chunks)|)
    ensures CountsIncreasing(Samples(totalBytes, start, chunks))
    decreases |chunks|
  {
    if chunks != [] {
      var prefix := chunks[..|chunks| - 1];
      assert |Written(prefix)| < |Written(chunks)|;
      assert forall j :: 0 <= j < |prefix| ==> prefix[j] == chunks[j];
      SamplesIncreasing(totalBytes, start, prefix);
      SamplesStep(totalBytes, start, chunks);
      var sp := Samples(totalBytes, start, prefix);
      AppendCount(sp, Samples(totalBytes, start, chunks)[|sp|..],
                  |Written(prefix)|, |Written(chunks)|, true);
    }
  }

  /** Each callback carries the total and fraction the source computes for
      its byte count: the real total when positive, else the bytes so far,
      and a zero fraction whenever the total is not positive. */
  lemma {:induction false} SamplesReportTotals(totalBytes: int, start: Long, chunks: seq<Chunk>)
    ensures forall smp :: smp in Samples(totalBytes, start, chunks) ==>
              && smp.bytesDownloaded >= 0
              && smp.totalBytes == (if totalBytes > 0 then totalBytes else smp.bytesDownloaded)
              && (totalBytes <= 0 ==> smp.progress == Fraction(0, 1))
    decreases |chunks|
  {
    if chunks != [] {
      SamplesReportTotals(totalBytes, start, chunks[..|chunks| - 1]);
    }
  }
}
