/**
 * The extraction engine of `head`: the four window algorithms. A reader is
 * the unread rest of its stream, consumed from the front (`rest`); a writer
 * is the sequence of bytes appended to it (`output`). Each method is proved
 * to write exactly its window, a function in module Windows, and to leave
 * the reader where the source's reads leave it.
 */
module Engine {
  import opened Bytes
  import opened Windows

  /** The smallest buffer `write_bytes_backward` uses. */
  const BufSize: nat := 32 * 1024

  /** `read_until(b'\n')`: the next line, linefeed included, and what follows it; nothing only at end of stream. */
  method ReadLine(rest: seq<byte>) returns (line: seq<byte>, next: seq<byte>)
    ensures line == Line(rest) && next == rest[|line|..]
    ensures line == [] <==> rest == []
  {
    line := Line(rest);
    next := rest[|line|..];
  }

  /** First `lineCount` lines: read a line, write it, until the count is used up or the stream ends. */
  method WriteLinesForward(input: seq<byte>, lineCount: nat) returns (output: seq<byte>, rest: seq<byte>)
    ensures output == HeadLines(input, lineCount)
    ensures input == output + rest
  {
    output, rest := [], input;
    AppendEmpty(input);
    AppendEmpty(HeadLines(input, lineCount));
    var count: nat := lineCount;
    while count > 0
      invariant input == output + rest
      invariant HeadLines(input, lineCount) == output + HeadLines(rest, count)
    {
      var buffer, next := ReadLine(rest);
      if |buffer| == 0 {
        break;
      }
      ForwardStep(input, lineCount, output, rest, count, buffer, next);
      output := output + buffer;
      rest := next;
      count := count - 1;
    }
    ForwardDone(input, lineCount, output, rest, count);
  }

  /**
   * All but the last `lineCount` lines: keep the most recent lines in a
   * queue of at most lineCount + 1 lines; each newly read line pushes the
   * oldest one out to the writer. The lines still queued at end of stream
   * are the last lineCount lines and are never written. `peak` is the
   * largest number of lines the queue ever holds. The reader is left at
   * end of stream.
   */
  method WriteLinesBackward(input: seq<byte>, lineCount: nat) returns (output: seq<byte>, rest: seq<byte>, ghost peak: nat)
    ensures output == DropLastLines(input, lineCount)
    ensures rest == []
    ensures peak == if |Lines(input)| > lineCount then lineCount + 1 else |Lines(input)|
  {
    output, peak := [], 0;
    rest := input;
    var store: seq<seq<byte>> := [];
    assert Lines(input) == store + Lines(rest);
    var count: nat := lineCount;
    while count > 0
      invariant |store| == lineCount - count && peak == |store|
      invariant Lines(input) == store + Lines(rest)
    {
      var line, next := ReadLine(rest);
      QueueStep(Lines(input), store, rest, line, next);
      if |line| == 0 {
        AllQueued(input, lineCount, store);
        return;
      }
      store := store + [line];
      peak := |store|;
      rest := next;
      count := count - 1;
    }
    var line, next := ReadLine(rest);
    QueueStep(Lines(input), store, rest, line, next);
    if |line| == 0 {
      AllQueued(input, lineCount, store);
      return;
    }
    store := store + [line];
    peak := |store|;
    rest := next;
    ghost var done: seq<seq<byte>> := [];
    assert Lines(input) == (done + store) + Lines(rest);
    while true
      invariant |store| == lineCount + 1 && peak == lineCount + 1
      invariant Lines(input) == (done + store) + Lines(rest)
      invariant output == Concat(done)
      decreases |rest|
    {
      var front := store[0];
      line, next := ReadLine(rest);
      BackwardStep(Lines(input), done, store, rest, line, next);
      ConcatPush(done, front);
      output := output + front;
      done := done + [front];
      store := store[1..];
      if |line| == 0 {
        break;
      }
      store := store + [line];
      rest := next;
    }
    QueuedTail(input, lineCount, done, store);
  }

  /**
   * Sequence identities kept as lemmas: stated inline, they let the solver
   * wander through the whole loop context.
   */
  lemma AppendEmpty(x: seq<byte>)
    ensures [] + x == x && x + [] == x
  {
  }

  lemma Shift<T>(x: seq<T>, a: seq<T>, y: seq<T>, b: seq<T>, z: seq<T>)
    requires x == a + y && y == b + z
    ensures x == (a + b) + z
  {
  }

  /** One round of `write_lines_forward`: the line read moves from the unread window to the written part. */
  lemma ForwardStep(input: seq<byte>, n: nat, output: seq<byte>, rest: seq<byte>, count: nat, line: seq<byte>, next: seq<byte>)
    requires input == output + rest
    requires HeadLines(input, n) == output + HeadLines(rest, count)
    requires count > 0 && rest != [] && line == Line(rest) && next == rest[|line|..]
    ensures input == (output + line) + next
    ensures HeadLines(input, n) == (output + line) + HeadLines(next, count - 1)
  {
    HeadLinesStep(rest, count);
    LineSplit(rest);
    Shift(input, output, rest, line, next);
    Shift(HeadLines(input, n), output, HeadLines(rest, count), line, HeadLines(next, count - 1));
  }

  /** When the count is used up or the stream has ended, nothing more is due. */
  lemma ForwardDone(input: seq<byte>, n: nat, output: seq<byte>, rest: seq<byte>, count: nat)
    requires HeadLines(input, n) == output + HeadLines(rest, count)
    requires count == 0 || rest == []
    ensures output == HeadLines(input, n)
  {
    assert output + [] == output;
  }

  /** One `read_line` into the queue: at end of stream every line is queued, otherwise the line read joins the queue. */
  lemma QueueStep(all: seq<seq<byte>>, store: seq<seq<byte>>, s: seq<byte>, line: seq<byte>, next: seq<byte>)
    requires all == store + Lines(s) && line == Line(s) && next == s[|line|..]
    ensures line == [] ==> all == store
    ensures line != [] ==> all == (store + [line]) + Lines(next)
  {
    LinesStep(s, line, next);
    if line == [] {
      assert store + [] == store;
    } else {
      Shift(all, store, Lines(s), [line], Lines(next));
    }
  }

  /** One round of the queue loop: the oldest queued line is written, then a line is read into the queue. */
  lemma BackwardStep(all: seq<seq<byte>>, done: seq<seq<byte>>, store: seq<seq<byte>>, s: seq<byte>, line: seq<byte>, next: seq<byte>)
    requires all == (done + store) + Lines(s) && store != [] && line == Line(s) && next == s[|line|..]
    ensures line == [] ==> all == (done + [store[0]]) + store[1..]
    ensures line != [] ==>
      all == ((done + [store[0]]) + (store[1..] + [line])) + Lines(next)
  {
    QueueStep(all, done + store, s, line, next);
    Regroup(done, store, [line]);
  }

  /** Moving the front of `store` to the end of `done` keeps the whole. */
  lemma Regroup<T>(done: seq<T>, store: seq<T>, x: seq<T>)
    requires store != []
    ensures done + store == (done + [store[0]]) + store[1..]
    ensures (done + store) + x == (done + [store[0]]) + (store[1..] + x)
  {
    assert store == [store[0]] + store[1..];
  }

  /** At end of stream with every line still queued, nothing is written and the queue peaked at its size. */
  lemma AllQueued(input: seq<byte>, n: nat, store: seq<seq<byte>>)
    requires Lines(input) == store && |store| <= n
    ensures DropLastLines(input, n) == []
    ensures |store| == if |Lines(input)| > n then n + 1 else |Lines(input)|
  {
  }

  /** When the queue holds the last n lines, what was written is everything before them. */
  lemma QueuedTail(input: seq<byte>, n: nat, done: seq<seq<byte>>, store: seq<seq<byte>>)
    requires Lines(input) == done + store && |store| == n && done != []
    ensures DropLastLines(input, n) == Concat(done)
    ensures |Lines(input)| > n
  {
    var all := Lines(input);
    assert all[..|all| - n] == done;
  }

  /** First `bytes` bytes: `io::copy` from the reader limited by `take`. */
  method CopyBytesForward(input: seq<byte>, bytes: nat) returns (output: seq<byte>, rest: seq<byte>)
    ensures output == HeadBytes(input, bytes)
    ensures input == output + rest
  {
    output := input[..Min(bytes, |input|)];
    rest := input[|output|..];
  }

  /**
   * All but the last `bytes` bytes, over a stream of unknown length: fill
   * buffers of max(bytes, BufSize) bytes in turn; each time a buffer fills,
   * the previous full buffer can no longer hold any of the last `bytes`
   * bytes and is written. At end of stream the previous and the current
   * buffer hold the tail, and all of it but its last `bytes` bytes is written.
   */
  method WriteBytesBackward(input: seq<byte>, bytes: nat) returns (output: seq<byte>, rest: seq<byte>, ghost held: nat)
    ensures output == DropLastBytes(input, bytes)
    ensures rest == []
    ensures held <= if bytes > BufSize then bytes else BufSize
  {
    var size := if bytes > BufSize then bytes else BufSize;
    rest := input;
    output, held := [], 0;
    var prev: seq<byte> := [];
    var cur: seq<byte> := [];
    assert input == (output + prev) + rest;
    while true
      invariant input == (output + prev) + rest
      invariant |prev| == 0 || |prev| == size
      invariant |output| > 0 ==> |prev| == size
      invariant cur == []
      invariant held <= size
      decreases |rest|
    {
      var block, next := ReadBlock(rest, size);
      cur := cur + block;
      held := if held < |cur| then |cur| else held;
      if |block| == size {
        assert input == (output + prev) + (block + next);
        output := output + prev;
        prev, cur := cur, prev;
        cur := [];
        rest := next;
      } else {
        rest := next;
        break;
      }
    }
    // The stream is exhausted: the unwritten tail is prev + cur.
    TrimmedTail(input, output, prev, cur, bytes, size);
    if |cur| == 0 {
      if bytes < |prev| {
        output := output + prev[..|prev| - bytes];
      }
    } else {
      if bytes < |cur| {
        output := output + prev;
        output := output + cur[..|cur| - bytes];
      } else {
        var remaining := bytes - |cur|;
        var bufLen := |prev|;
        output := output + prev[..bufLen - Min(remaining, bufLen)];
      }
    }
  }

  /** `take(size).read_to_end`: up to `size` bytes, fewer only at end of stream. */
  method ReadBlock(rest: seq<byte>, size: nat) returns (block: seq<byte>, next: seq<byte>)
    ensures rest == block + next && |block| <= size
    ensures |block| < size ==> next == []
  {
    block := rest[..Min(size, |rest|)];
    next := rest[|block|..];
  }

  /**
   * The final trimming of `write_bytes_backward`: whichever of its three
   * branches runs, what it writes after the first w bytes completes the
   * all-but-last-`bytes` window. It relies on the previous buffer being
   * full (and so at least `bytes` long) as soon as anything was written.
   */
  lemma TrimmedTail(s: seq<byte>, out: seq<byte>, prev: seq<byte>, cur: seq<byte>, bytes: nat, size: nat)
    requires s == (out + prev) + cur
    requires bytes <= size && (|out| > 0 ==> |prev| == size)
    ensures |cur| == 0 && bytes < |prev| ==> out + prev[..|prev| - bytes] == DropLastBytes(s, bytes)
    ensures |cur| == 0 && bytes >= |prev| ==> out == DropLastBytes(s, bytes)
    ensures 0 < |cur| && bytes < |cur| ==> out + prev + cur[..|cur| - bytes] == DropLastBytes(s, bytes)
    ensures 0 < |cur| <= bytes ==>
      out + prev[..|prev| - Min(bytes - |cur|, |prev|)] == DropLastBytes(s, bytes)
  {
    // The three branches: the tail ends on a buffer boundary (cur empty), the
    // current buffer alone holds more than `bytes`, or the cut falls in prev.
  }
}
