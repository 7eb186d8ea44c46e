/** The log server's file reader (src/logserver/logserver.go): pages of complete lines,
    forwards and backwards, from a file that only grows. */
module LogReader {
  import opened Integers
  import opened Text

  newtype Byte = x: int | 0 <= x < 256
  type Bytes = seq<Byte>

  const NEWLINE: Byte := 10
  const READ_STEP := 2400

  datatype Error = NegativeOffset | EndOfFile

  predicate TwoNewlines(s: Bytes) {
    var i := IndexOf(s, NEWLINE);
    i < |s| && NEWLINE in s[i + 1..]
  }

  // ---- Truncation to complete lines ----

  /** Everything up to and including the last newline. */
  function TruncatePostLine(text: Bytes): (r: (Bytes, int))
    ensures r.1 <= |text|
  {
    if NEWLINE !in text then ([], -1) else
      var offset := LastIndexOf(text, NEWLINE);
      (text[..offset + 1], offset + 1)
  }

  lemma PostLineComplete(text: Bytes)
    ensures var (lines, index) := TruncatePostLine(text);
            && (index > 0 <==> NEWLINE in text)
            && (index > 0 ==> lines == text[..index] && text[index - 1] == NEWLINE && NEWLINE !in text[index..])
            && (index <= 0 ==> lines == [])
  {
    LastIndexOfLast(text, NEWLINE);
  }

  /** Everything after the first newline, if a second newline follows it. */
  function TruncatePreLine(text: Bytes): (r: (Bytes, int))
    ensures r.1 <= |text|
  {
    var lines := Split(text, NEWLINE);
    if |lines| < 3 then ([], -1) else
      var offset := IndexOf(text, NEWLINE);
      (text[offset + 1..], offset + 1)
  }

  lemma PreLineComplete(text: Bytes)
    ensures var (lines, index) := TruncatePreLine(text);
            && (index > 0 <==> TwoNewlines(text))
            && (index > 0 ==> lines == text[index..] && text[index - 1] == NEWLINE &&
                              NEWLINE !in text[..index - 1] && NEWLINE in lines)
            && (index <= 0 ==> lines == [])
  {
    var offset := IndexOf(text, NEWLINE);
    IndexOfFirst(text, NEWLINE);
    if offset < |text| {
      IndexOfFirst(text[offset + 1..], NEWLINE);
      assert |Split(text, NEWLINE)| == 1 + |Split(text[offset + 1..], NEWLINE)|;
    }
  }

  // ---- What a read means ----

  /** The first window: as wide as asked for, but no narrower than 2400 bytes. */
  function Window(step: int): (w: int)
    ensures w >= 2400 && w >= step && (w == step || w == 2400)
  {
    if step > READ_STEP then step else READ_STEP
  }

  predicate LineAligned(c: Bytes, p: int) {
    0 < p <= |c| && c[p - 1] == NEWLINE
  }

  lemma NewlineBeyond(c: Bytes, pos: nat, w: nat)
    requires pos + w <= |c| && NEWLINE in c[pos..] && NEWLINE !in c[pos..pos + w]
    ensures NEWLINE in c[pos + w..] && pos + w < |c|
  {
  }

  /** Where a forward page starting at `pos` ends: after the last newline of the first of the
      growing windows that holds one. */
  function ForwardEnd(c: Bytes, pos: nat, readBytes: int): (end: nat)
    requires pos < |c| && readBytes > 0 && NEWLINE in c[pos..]
    ensures pos < end <= |c|
    decreases |c| - pos - readBytes
  {
    var w := if |c| - pos < readBytes then |c| - pos else readBytes;
    var index := TruncatePostLine(c[pos..pos + w]).1;
    if index > 0 then pos + index
    else
      PostLineComplete(c[pos..pos + w]);
      NewlineBeyond(c, pos, w);
      ForwardEnd(c, pos, w + READ_STEP)
  }

  /** Where a backward page ending at `pos` starts: after the first newline of the first of the
      growing windows that holds two; the windows end in an error, never in a loop. */
  function BackwardStart(c: Bytes, pos: int, readBytes: int): (r: Option<nat>)
    requires readBytes > 0
    ensures r.Some? ==> r.value <= pos <= |c|
    decreases pos - readBytes
  {
    if pos - readBytes < 0 || pos > |c| then None
    else
      var buf := c[pos - readBytes..pos];
      var index := TruncatePreLine(buf).1;
      if index > 0 then Some(pos - readBytes + index) else BackwardStart(c, pos, readBytes + READ_STEP)
  }

  /** A line break inside a window is one of the file. */
  lemma CutInWindow(c: Bytes, from: nat, to: nat, index: int)
    requires from <= to <= |c| && 0 < index <= to - from && c[from..to][index - 1] == NEWLINE
    ensures LineAligned(c, from + index)
    ensures c[from..to][index..] == c[from + index..to] && c[from..to][..index] == c[from..from + index]
  {
    assert c[from + index - 1] == c[from..to][index - 1];
  }

  lemma PageInWindow(c: Bytes, from: nat, to: nat, index: int, lines: Bytes)
    requires from <= to <= |c| && 0 < index <= to - from && c[from..to][index - 1] == NEWLINE
    requires lines == c[from..to][index..] && NEWLINE in lines
    ensures LineAligned(c, from + index) && from + index < to
    ensures lines == c[from + index..to]
  {
    CutInWindow(c, from, to, index);
  }

  lemma BackwardStops(c: Bytes, pos: int, readBytes: int)
    requires 0 < readBytes <= pos <= |c|
    ensures var index := TruncatePreLine(c[pos - readBytes..pos]).1;
            BackwardStart(c, pos, readBytes) ==
            if index > 0 then Some(pos - readBytes + index) else BackwardStart(c, pos, readBytes + READ_STEP)
  {
  }

  lemma BackwardHit(c: Bytes, pos: int, readBytes: int, buf: Bytes, lines: Bytes, index: int)
    requires 0 < readBytes <= pos <= |c| && buf == c[pos - readBytes..pos]
    requires TruncatePreLine(buf) == (lines, index) && index > 0
    ensures var start := pos - readBytes + index;
            && 0 < start < pos && LineAligned(c, start) && NEWLINE in lines && lines == c[start..pos]
  {
    PreLineComplete(buf);
    PageInWindow(c, pos - readBytes, pos, index, lines);
  }

  lemma {:induction false} BackwardStartAligned(c: Bytes, pos: int, readBytes: int)
    requires readBytes > 0 && BackwardStart(c, pos, readBytes).Some?
    ensures var start := BackwardStart(c, pos, readBytes).value;
            start < pos && LineAligned(c, start) && NEWLINE in c[start..pos]
    decreases pos - readBytes
  {
    var buf := c[pos - readBytes..pos];
    var (lines, index) := TruncatePreLine(buf);
    if index > 0 {
      BackwardHit(c, pos, readBytes, buf, lines, index);
    } else {
      BackwardStartAligned(c, pos, readBytes + READ_STEP);
    }
  }

  /** Every window is 2400 bytes wider than the one before, as far as there are bytes. */
  function WindowWidth(readBytes: int, k: nat, unread: int): int {
    Min(readBytes + k * 2400, unread)
  }

  /** `end` is the last line end of window `k`, and the window before it holds no newline. */
  ghost predicate EndsInWindow(c: Bytes, pos: nat, readBytes: int, k: nat, end: nat)
    requires pos < |c| && readBytes > 0
  {
    var w := WindowWidth(readBytes, k, |c| - pos);
    && pos < end <= pos + w && LineAligned(c, end)
    && NEWLINE !in c[end..pos + w]
    && (k > 0 ==> NEWLINE !in c[pos..pos + WindowWidth(readBytes, k - 1, |c| - pos)])
  }

  lemma WiderWindow(c: Bytes, pos: nat, readBytes: int, j: nat, end: nat)
    requires 0 < readBytes < |c| - pos && NEWLINE !in c[pos..pos + readBytes]
    requires EndsInWindow(c, pos, readBytes + READ_STEP, j, end)
    ensures EndsInWindow(c, pos, readBytes, j + 1, end)
  {
  }

  lemma ForwardStops(c: Bytes, pos: nat, readBytes: int, index: int)
    requires pos < |c| && readBytes > 0 && NEWLINE in c[pos..] && index > 0
    requires TruncatePostLine(c[pos..pos + WindowWidth(readBytes, 0, |c| - pos)]).1 == index
    ensures ForwardEnd(c, pos, readBytes) == pos + index
  {
  }

  lemma FirstWindow(c: Bytes, pos: nat, readBytes: int)
    requires pos < |c| && readBytes > 0
    requires NEWLINE in c[pos..pos + WindowWidth(readBytes, 0, |c| - pos)]
    ensures NEWLINE in c[pos..] && EndsInWindow(c, pos, readBytes, 0, ForwardEnd(c, pos, readBytes))
  {
    var w := WindowWidth(readBytes, 0, |c| - pos);
    var buf := c[pos..pos + w];
    var index := TruncatePostLine(buf).1;
    PostLineComplete(buf);
    CutInWindow(c, pos, pos + w, index);
    assert c[pos..] == buf + c[pos + w..];
    ForwardStops(c, pos, readBytes, index);
  }

  lemma LaterWindow(c: Bytes, pos: nat, readBytes: int)
    requires pos < |c| && readBytes > 0 && NEWLINE in c[pos..]
    requires NEWLINE !in c[pos..pos + WindowWidth(readBytes, 0, |c| - pos)]
    ensures readBytes < |c| - pos && ForwardEnd(c, pos, readBytes) == ForwardEnd(c, pos, readBytes + READ_STEP)
  {
  }

  lemma {:induction false} ForwardEndInFirstWindow(c: Bytes, pos: nat, readBytes: int) returns (k: nat)
    requires pos < |c| && readBytes > 0 && NEWLINE in c[pos..]
    ensures EndsInWindow(c, pos, readBytes, k, ForwardEnd(c, pos, readBytes))
    decreases |c| - pos - readBytes
  {
    var w := WindowWidth(readBytes, 0, |c| - pos);
    var buf := c[pos..pos + w];
    if NEWLINE in buf {
      FirstWindow(c, pos, readBytes);
      k := 0;
    } else {
      LaterWindow(c, pos, readBytes);
      var j := ForwardEndInFirstWindow(c, pos, readBytes + READ_STEP);
      WiderWindow(c, pos, readBytes, j, ForwardEnd(c, pos, readBytes));
      k := j + 1;
    }
  }

  lemma ForwardEndAligned(c: Bytes, pos: nat, readBytes: int)
    requires pos < |c| && readBytes > 0 && NEWLINE in c[pos..]
    ensures LineAligned(c, ForwardEnd(c, pos, readBytes))
  {
    var k := ForwardEndInFirstWindow(c, pos, readBytes);
  }

  // ---- When the loops end ----

  /** The forward loop run for at most `passes` passes; None while it is still running. */
  function ForwardLoop(c: Bytes, pos: nat, readBytes: int, passes: nat): (r: Option<nat>)
    requires pos < |c| && readBytes > 0
    decreases passes
  {
    if passes == 0 then None else
      var w := if |c| - pos < readBytes then |c| - pos else readBytes;
      var index := TruncatePostLine(c[pos..pos + w]).1;
      if index > 0 then Some(pos + index) else ForwardLoop(c, pos, w + READ_STEP, passes - 1)
  }

  /** A pass over a window that holds a newline is the last. */
  lemma LoopEndsHere(c: Bytes, pos: nat, readBytes: int)
    requires pos < |c| && readBytes > 0 && NEWLINE in c[pos..pos + WindowWidth(readBytes, 0, |c| - pos)]
    ensures NEWLINE in c[pos..] && ForwardLoop(c, pos, readBytes, 1) == Some(ForwardEnd(c, pos, readBytes))
  {
    var buf := c[pos..pos + WindowWidth(readBytes, 0, |c| - pos)];
    PostLineComplete(buf);
    assert c[pos..] == buf + c[pos + |buf|..];
  }

  lemma LoopGoesOn(c: Bytes, pos: nat, readBytes: int, passes: nat)
    requires pos < |c| && readBytes > 0 && NEWLINE !in c[pos..pos + WindowWidth(readBytes, 0, |c| - pos)]
    ensures ForwardLoop(c, pos, readBytes, passes + 1) ==
            ForwardLoop(c, pos, WindowWidth(readBytes, 0, |c| - pos) + READ_STEP, passes)
  {
    PostLineComplete(c[pos..pos + WindowWidth(readBytes, 0, |c| - pos)]);
  }

  lemma {:induction false} ForwardLoopEnds(c: Bytes, pos: nat, readBytes: int) returns (passes: nat)
    requires pos < |c| && readBytes > 0 && NEWLINE in c[pos..]
    ensures ForwardLoop(c, pos, readBytes, passes) == Some(ForwardEnd(c, pos, readBytes))
    decreases |c| - pos - readBytes
  {
    if NEWLINE in c[pos..pos + WindowWidth(readBytes, 0, |c| - pos)] {
      LoopEndsHere(c, pos, readBytes);
      passes := 1;
    } else {
      LaterWindow(c, pos, readBytes);
      var p := ForwardLoopEnds(c, pos, readBytes + READ_STEP);
      LoopGoesOn(c, pos, readBytes, p);
      passes := p + 1;
    }
  }

  lemma {:induction false} ForwardLoopSpins(c: Bytes, pos: nat, readBytes: int, passes: nat)
    requires pos < |c| && readBytes > 0 && NEWLINE !in c[pos..]
    ensures ForwardLoop(c, pos, readBytes, passes) == None
    decreases passes
  {
    if passes > 0 {
      var w := WindowWidth(readBytes, 0, |c| - pos);
      assert c[pos..pos + w] == c[pos..][..w];
      LoopGoesOn(c, pos, readBytes, passes - 1);
      ForwardLoopSpins(c, pos, w + READ_STEP, passes - 1);
    }
  }

  /** With unread bytes, the forward loop ends exactly when they hold a newline. */
  lemma ForwardLoopEndsIff(c: Bytes, pos: nat, readBytes: int)
    requires pos < |c| && readBytes > 0
    ensures (exists passes :: ForwardLoop(c, pos, readBytes, passes).Some?) <==> NEWLINE in c[pos..]
  {
    if NEWLINE in c[pos..] {
      var passes := ForwardLoopEnds(c, pos, readBytes);
    } else {
      forall passes
        ensures ForwardLoop(c, pos, readBytes, passes) == None
      {
        ForwardLoopSpins(c, pos, readBytes, passes);
      }
    }
  }

  /** A read from 0 of a file with an unfinished first line goes on forever. */
  lemma UnfinishedLineSpins(readBytes: int, passes: nat)
    requires readBytes > 0
    ensures ForwardLoop([65], 0, readBytes, passes) == None
  {
    ForwardLoopSpins([65], 0, readBytes, passes);
  }

  lemma TwoNewlinesAt(s: Bytes)
    ensures TwoNewlines(s) <==> exists i, j :: 0 <= i < j < |s| && s[i] == NEWLINE && s[j] == NEWLINE
  {
    var i := IndexOf(s, NEWLINE);
    IndexOfFirst(s, NEWLINE);
    if TwoNewlines(s) {
      var j := IndexOf(s[i + 1..], NEWLINE);
      IndexOfFirst(s[i + 1..], NEWLINE);
      assert s[i + 1 + j] == NEWLINE;
    }
    if exists m, j :: 0 <= m < j < |s| && s[m] == NEWLINE && s[j] == NEWLINE {
      var m, j :| 0 <= m < j < |s| && s[m] == NEWLINE && s[j] == NEWLINE;
      assert s[i + 1..][j - i - 1] == NEWLINE;
    }
  }

  lemma TwoNewlinesWider(c: Bytes, lo: nat, mid: nat, hi: nat)
    requires lo <= mid <= hi <= |c| && TwoNewlines(c[mid..hi])
    ensures TwoNewlines(c[lo..hi])
  {
    TwoNewlinesAt(c[mid..hi]);
    TwoNewlinesAt(c[lo..hi]);
    var i, j :| 0 <= i < j < hi - mid && c[mid..hi][i] == NEWLINE && c[mid..hi][j] == NEWLINE;
    assert c[lo..hi][mid - lo + i] == NEWLINE && c[lo..hi][mid - lo + j] == NEWLINE;
  }

  lemma NarrowerWindowStart(x: int)
    requires x >= 0
    ensures 0 <= x % READ_STEP <= x
    ensures x >= READ_STEP ==> (x - READ_STEP) % READ_STEP == x % READ_STEP
    ensures x < READ_STEP ==> x % READ_STEP == x
  {
  }

  /** A backward read above its window succeeds exactly when the position is within the file and
      the widest window that still fits holds two newlines. */
  lemma {:induction false} BackwardSucceedsIff(c: Bytes, pos: int, readBytes: int)
    requires 0 < readBytes <= pos
    ensures BackwardStart(c, pos, readBytes).Some? <==>
            pos <= |c| && TwoNewlines(c[(pos - readBytes) % 2400..pos])
    decreases pos - readBytes
  {
    if pos <= |c| {
      var from := pos - readBytes;
      var lo := from % READ_STEP;
      NarrowerWindowStart(from);
      PreLineComplete(c[from..pos]);
      if TwoNewlines(c[from..pos]) {
        TwoNewlinesWider(c, lo, from, pos);
        assert BackwardStart(c, pos, readBytes).Some?;
      } else if from >= READ_STEP {
        BackwardSucceedsIff(c, pos, readBytes + READ_STEP);
      }
    }
  }

  // ---- Line lengths ----

  /** c[from..to] is one complete line, its newline included. */
  ghost predicate IsLine(c: Bytes, from: nat, to: nat) {
    && from < to && LineAligned(c, to)
    && (from == 0 || LineAligned(c, from))
    && NEWLINE !in c[from..to - 1]
  }

  ghost predicate LinesWithin(c: Bytes, limit: nat) {
    forall from: nat, to: nat :: IsLine(c, from, to) ==> to - from <= limit
  }

  /** Where the line that ends at `to` starts. */
  lemma {:induction false} LineEndingAt(c: Bytes, to: nat, from: nat) returns (start: nat)
    requires LineAligned(c, to) && from < to && NEWLINE !in c[from..to - 1]
    ensures start <= from && IsLine(c, start, to)
    decreases from
  {
    if from == 0 || c[from - 1] == NEWLINE {
      start := from;
    } else {
      assert c[from - 1..to - 1] == [c[from - 1]] + c[from..to - 1];
      start := LineEndingAt(c, to, from - 1);
    }
  }

  lemma NewlineBeforeShortLine(c: Bytes, pos: int, readBytes: int) returns (i: nat)
    requires 0 < readBytes <= pos && LineAligned(c, pos) && LinesWithin(c, readBytes - 1)
    ensures pos - readBytes <= i < pos - 1 && c[i] == NEWLINE
  {
    var from := pos - readBytes;
    if NEWLINE !in c[from..pos - 1] {
      var start := LineEndingAt(c, pos, from);
      assert false;
    }
    var k :| 0 <= k < |c[from..pos - 1]| && c[from..pos - 1][k] == NEWLINE;
    i := from + k;
  }

  /** With every line shorter than the window, a backward read from a line end succeeds on its
      first window. */
  lemma ShortLinesFirstWindow(c: Bytes, pos: int, readBytes: int)
    requires 0 < readBytes <= pos && LineAligned(c, pos) && LinesWithin(c, readBytes - 1)
    ensures BackwardStart(c, pos, readBytes) ==
            Some(pos - readBytes + TruncatePreLine(c[pos - readBytes..pos]).1)
  {
    var i := NewlineBeforeShortLine(c, pos, readBytes);
    var buf := c[pos - readBytes..pos];
    assert buf[i - (pos - readBytes)] == NEWLINE && buf[readBytes - 1] == NEWLINE;
    TwoNewlinesAt(buf);
    PreLineComplete(buf);
  }

  /** The answer of the forward loop from the window `readBytes` on. */
  function ForwardPage(c: Bytes, pos: nat, readBytes: int): (Bytes, int)
    requires pos < |c| && readBytes > 0 && NEWLINE in c[pos..]
  {
    var end := ForwardEnd(c, pos, readBytes);
    (c[pos..end], end)
  }

  /** The forward loop about to read a window that all narrower ones gave no page for. */
  ghost predicate Searching(c: Bytes, pos: nat, size: int, readBytes: int) {
    && pos < |c| && 0 < size <= readBytes && NEWLINE in c[pos..] && (readBytes - size) % READ_STEP == 0
    && (readBytes > size ==> readBytes - READ_STEP < |c| - pos && NEWLINE !in c[pos..pos + (readBytes - READ_STEP)])
  }

  lemma NoneInShorter(c: Bytes, pos: nat, w: nat, shorter: nat)
    requires shorter <= w && pos + w <= |c| && NEWLINE !in c[pos..pos + w]
    ensures NEWLINE !in c[pos..pos + shorter]
  {
    assert c[pos..pos + shorter] == c[pos..pos + w][..shorter];
  }

  lemma {:induction false} SearchedSame(c: Bytes, pos: nat, size: int, readBytes: int)
    requires Searching(c, pos, size, readBytes)
    ensures ForwardEnd(c, pos, size) == ForwardEnd(c, pos, readBytes)
    decreases readBytes
  {
    if readBytes > size {
      var before := readBytes - READ_STEP;
      NarrowerSearch(c, pos, size, readBytes);
      SearchedSame(c, pos, size, before);
      LaterWindow(c, pos, before);
    }
  }

  lemma NarrowerSearch(c: Bytes, pos: nat, size: int, readBytes: int)
    requires Searching(c, pos, size, readBytes) && readBytes > size
    ensures Searching(c, pos, size, readBytes - READ_STEP)
  {
    var before := readBytes - READ_STEP;
    NarrowerWindowStart(readBytes - size);
    if before > size {
      NoneInShorter(c, pos, before, before - READ_STEP);
    }
  }

  /** A pass of the forward loop whose window holds a newline. */
  lemma ForwardHit(c: Bytes, pos: nat, size: int, readBytes: int, w: int, buf: Bytes, lines: Bytes, index: int)
    requires Searching(c, pos, size, readBytes)
    requires w == WindowWidth(readBytes, 0, |c| - pos) && buf == c[pos..pos + w]
    requires (lines, index) == TruncatePostLine(buf) && index > 0
    ensures pos + index <= |c| && c[pos + index - 1] == 10 && ForwardPage(c, pos, size) == (lines, pos + index)
  {
    PostLineComplete(buf);
    SearchedSame(c, pos, size, readBytes);
    CutInWindow(c, pos, pos + w, index);
    ForwardStops(c, pos, readBytes, index);
  }

  /** And one whose window holds none. */
  lemma ForwardMiss(c: Bytes, pos: nat, size: int, readBytes: int, w: int, buf: Bytes)
    requires Searching(c, pos, size, readBytes)
    requires w == WindowWidth(readBytes, 0, |c| - pos) && buf == c[pos..pos + w] && TruncatePostLine(buf).1 <= 0
    ensures w < |c| - pos && Searching(c, pos, size, w + READ_STEP)
  {
    PostLineComplete(buf);
    assert c[pos..] == buf + c[pos + w..];
    NarrowerWindowStart(readBytes - size + READ_STEP);
  }

  /** The answer of the backward loop from the window `readBytes` on. */
  function BackwardPage(c: Bytes, pos: nat, readBytes: int): (Bytes, int, Option<Error>)
    requires readBytes > 0
  {
    match BackwardStart(c, pos, readBytes)
    case Some(start) => (c[start..pos], start, None)
    case None => ([], 0, Some(if pos > |c| then EndOfFile else NegativeOffset))
  }

  /** One pass of the backward loop. */
  lemma BackwardPass(c: Bytes, pos: nat, readBytes: int, buf: Bytes)
    requires 0 < readBytes <= pos <= |c| && buf == c[pos - readBytes..pos]
    ensures var (lines, index) := TruncatePreLine(buf);
            if index > 0 then BackwardPage(c, pos, readBytes) == (lines, pos - readBytes + index, None)
            else BackwardPage(c, pos, readBytes) == BackwardPage(c, pos, readBytes + READ_STEP)
  {
    BackwardStops(c, pos, readBytes);
    var (lines, index) := TruncatePreLine(buf);
    if index > 0 {
      BackwardHit(c, pos, readBytes, buf, lines, index);
    }
  }

  lemma BackwardFails(c: Bytes, pos: nat, readBytes: int)
    requires readBytes > 0 && (pos > |c| || pos < readBytes)
    ensures BackwardPage(c, pos, readBytes) == ([], 0, Some(if pos > |c| then EndOfFile else NegativeOffset))
  {
  }

  /** What a forward read from `pos` answers, when it answers. */
  function ForwardRead(c: Bytes, pos: nat, step: int): (Bytes, int)
    requires pos < |c| ==> NEWLINE in c[pos..]
  {
    if |c| <= pos then ([], 0) else ForwardPage(c, pos, Window(step))
  }

  /** Nothing and position 0 when nothing is unread, and else the bytes up to a later line end. */
  lemma ForwardReadIs(c: Bytes, pos: nat, step: int)
    requires pos < |c| ==> NEWLINE in c[pos..]
    ensures var (logs, end) := ForwardRead(c, pos, step);
            if pos >= |c| then logs == [] && end == 0
            else pos < end <= |c| && logs == c[pos..end] && c[end - 1] == 10
  {
    if pos < |c| {
      ForwardEndAligned(c, pos, Window(step));
    }
  }

  /** What a backward read from `pos` answers, when it answers: near the start of the file the page a
      forward read from 0 gives, and else the page a window finds, or the error it ends in. */
  function BackwardRead(c: Bytes, pos: nat, step: int): (Bytes, int, Option<Error>)
    requires pos <= Window(step) && c != [] ==> NEWLINE in c
  {
    if pos <= Window(step) then
      assert c[0..] == c;
      (ForwardRead(c, 0, pos).0, 0, None)
    else BackwardPage(c, pos, Window(step))
  }

  /** Within its window a backward read answers the first lines of the file, up to the last newline of a
      window no smaller than the position. */
  lemma BackwardReadNear(c: Bytes, pos: nat, step: int)
    requires pos <= Window(step) && (c != [] ==> NEWLINE in c)
    ensures var (logs, start, err) := BackwardRead(c, pos, step);
            && err.None? && start == 0 && logs <= c
            && (c != [] ==> exists k :: EndsInWindow(c, 0, Window(pos), k, |logs|))
  {
    assert c[0..] == c;
    ForwardReadIs(c, 0, pos);
    if c != [] {
      var k := ForwardEndInFirstWindow(c, 0, Window(pos));
      assert |ForwardRead(c, 0, pos).0| == ForwardEnd(c, 0, Window(pos));
    }
  }

  /** Above it, either the bytes from a line start below the cursor, or no bytes and an error: a position
      past the end of the file, or windows that ran out of it. */
  lemma BackwardReadFar(c: Bytes, pos: nat, step: int)
    requires pos > Window(step)
    ensures var (logs, start, err) := BackwardRead(c, pos, step);
            && (err.None? <==> BackwardStart(c, pos, Window(step)).Some?)
            && (err.None? ==> 0 < start < pos <= |c| && logs == c[start..pos] && c[start - 1] == 10)
            && (err.Some? ==> logs == [] && start == 0 && err.value == if pos > |c| then EndOfFile else NegativeOffset)
  {
    if BackwardStart(c, pos, Window(step)).Some? {
      BackwardStartAligned(c, pos, Window(step));
    }
  }

  /** The file: bytes appended by a function worker, read by offset. */
  class LogFile {
    var contents: Bytes

    constructor ()
      ensures contents == []
    {
      contents := [];
    }

    method Append(bytes: Bytes)
      modifies this
      ensures contents == old(contents) + bytes
    {
      contents := contents + bytes;
    }

    /** os.File.ReadAt: `n` bytes at `off`, or an error; a short read is an error. */
    method ReadAt(off: int, n: nat) returns (buf: Bytes, err: Option<Error>)
      ensures err.None? <==> 0 <= off && off + n <= |contents|
      ensures err.None? ==> buf == contents[off..off + n]
      ensures off < 0 ==> err == Some(NegativeOffset)
      ensures 0 <= off && |contents| < off + n ==> err == Some(EndOfFile)
    {
      if off < 0 {
        return [], Some(NegativeOffset);
      }
      if |contents| < off + n {
        return [], Some(EndOfFile);
      }
      return contents[off..off + n], None;
    }
  }

  class FileReader {
    var forwardPos: int
    var backwardPos: int
    const file: LogFile

    constructor (file: LogFile, forwardInitPos: int, backwardInitPos: int)
      ensures this.file == file
      ensures forwardPos == InitialPosition(file.contents, forwardInitPos)
      ensures backwardPos == InitialPosition(file.contents, backwardInitPos)
    {
      var size := |file.contents|;
      this.file := file;
      forwardPos := size;
      backwardPos := size;
      if forwardInitPos > 0 {
        forwardPos := forwardInitPos;
      }
      if backwardInitPos > 0 {
        backwardPos := backwardInitPos;
      }
    }

    /** The precondition is exactly that the loop ends; see ForwardLoopEndsIff. */
    method ReadForward(step: int) returns (logs: Bytes, pos: int, err: Option<Error>)
      requires forwardPos >= 0
      requires forwardPos < |file.contents| ==> NEWLINE in file.contents[forwardPos..]
      ensures err.None? && (logs, pos) == ForwardRead(file.contents, forwardPos, step)
      ensures forwardPos >= |file.contents| ==> logs == [] && pos == 0
      ensures forwardPos < |file.contents| ==>
                forwardPos < pos <= |file.contents| && logs == file.contents[forwardPos..pos] && file.contents[pos - 1] == 10
    {
      var readBytes := READ_STEP;
      if step > READ_STEP {
        readBytes := step;
      }
      var newEOFPos := |file.contents|;
      var numNewBytes := newEOFPos - forwardPos;
      if numNewBytes <= 0 {
        return [], 0, None;
      }
      ghost var c, p := file.contents, forwardPos;
      ghost var size := Window(step);
      while true
        invariant Searching(c, p, size, readBytes)
        decreases numNewBytes - readBytes
      {
        ghost var requested := readBytes;
        if numNewBytes < readBytes {
          readBytes := numNewBytes;
        }
        var buf, e := file.ReadAt(forwardPos, readBytes);
        if e.Some? {
          return [], 0, e;
        }
        var (lines, index) := TruncatePostLine(buf);
        if index > 0 {
          ForwardHit(c, p, size, requested, readBytes, buf, lines, index);
          return lines, forwardPos + index, None;
        }
        ForwardMiss(c, p, size, requested, readBytes, buf);
        readBytes := readBytes + READ_STEP;
      }
    }

    /** Near the start of the file the page is a forward read from 0, with the forward position
        saved and restored around it. */
    method ReadBackward(step: int) returns (logs: Bytes, pos: int, err: Option<Error>)
      requires backwardPos >= 0
      requires backwardPos <= Window(step) && file.contents != [] ==> NEWLINE in file.contents
      modifies this
      ensures forwardPos == old(forwardPos) && backwardPos == old(backwardPos)
      ensures (logs, pos, err) == BackwardRead(file.contents, backwardPos, step)
    {
      var readBytes := READ_STEP;
      if step > READ_STEP {
        readBytes := step;
      }
      var readPos := backwardPos - readBytes;
      if readPos <= 0 {
        var temp := forwardPos;
        forwardPos := 0;
        assert file.contents[0..] == file.contents;
        var text, _, e := ReadForward(backwardPos);
        forwardPos := temp;
        if e.Some? {
          return [], backwardPos, e;
        }
        return text, 0, None;
      }
      ghost var c, p := file.contents, backwardPos;
      ghost var page := BackwardPage(c, p, readBytes);
      while true
        invariant readBytes > 0 && page == BackwardPage(c, p, readBytes)
        invariant p > |c| ==> readBytes < p
        modifies {}
        decreases backwardPos - readBytes
      {
        var buf, e := file.ReadAt(backwardPos - readBytes, readBytes);
        if e.Some? {
          BackwardFails(c, p, readBytes);
          return [], 0, e;
        }
        BackwardPass(c, p, readBytes, buf);
        var (lines, index) := TruncatePreLine(buf);
        if index > 0 {
          return lines, backwardPos - readBytes + index, None;
        }
        readBytes := readBytes + READ_STEP;
      }
    }
  }

  function InitialPosition(c: Bytes, requested: int): (p: nat)
    ensures requested > 0 ==> p == requested
    ensures requested <= 0 ==> p == |c|
  {
    if requested > 0 then requested else |c|
  }
}
