/** A client that tails and pages one growing log file through the log server
    (src/logserver/logserver.go, src/logclient/reader.go), keeping its own two cursors. */
module LogSession {
  import opened Integers
  import opened Text
  import opened LogReader

  datatype Direction = FORWARD | BACKWARD

  /** What a client asks for, and the request made of it to the log server. */
  datatype Request = Request(bytes: int, backwardPosition: int, forwardPosition: int)
  datatype ReadRequest = ReadRequest(direction: Direction, bytes: int, forwardIndex: int, backwardIndex: int)

  /** Hangs: the call never returns. */
  datatype Outcome = Page(logs: Bytes, forwardIndex: int, backwardIndex: int) | Failed | Hangs

  function RequestDirection(rd: Request): Direction {
    if rd.forwardPosition > 0 then FORWARD else BACKWARD
  }

  function ServeForward(c: Bytes, bytes: int, forwardPos: nat, backwardPos: nat): Outcome {
    if forwardPos < |c| && NEWLINE !in c[forwardPos..] then Hangs
    else
      var (logs, end) := ForwardRead(c, forwardPos, bytes);
      Page(logs, end, backwardPos)
  }

  function ServeBackward(c: Bytes, bytes: int, forwardPos: nat, backwardPos: nat): Outcome {
    if backwardPos <= Window(bytes) && c != [] && NEWLINE !in c then Hangs
    else
      var (logs, start, err) := BackwardRead(c, backwardPos, bytes);
      if err.Some? then Failed else Page(logs, forwardPos, start)
  }

  /** One request against the file contents `c`. */
  function Serve(c: Bytes, rq: ReadRequest): Outcome {
    var forwardPos := InitialPosition(c, rq.forwardIndex);
    var backwardPos := InitialPosition(c, rq.backwardIndex);
    match rq.direction
    case FORWARD => ServeForward(c, rq.bytes, forwardPos, backwardPos)
    case BACKWARD => ServeBackward(c, rq.bytes, forwardPos, backwardPos)
  }

  /** server.Read: a reader is created for every request. */
  method Read(file: LogFile, rq: ReadRequest) returns (res: Outcome)
    requires !Serve(file.contents, rq).Hangs?
    ensures res == Serve(file.contents, rq)
  {
    var r := new FileReader(file, rq.forwardIndex, rq.backwardIndex);
    if rq.direction == BACKWARD {
      var txt, newBackwardPos, err := r.ReadBackward(rq.bytes);
      if err.Some? {
        return Failed;
      }
      return Page(txt, r.forwardPos, newBackwardPos);
    }
    var txt, newForwardPos, err := r.ReadForward(rq.bytes);
    if err.Some? {
      return Failed;
    }
    return Page(txt, newForwardPos, r.backwardPos);
  }

  /** The answer to a client, whose forward position decides the direction. */
  function Ask(c: Bytes, rd: Request): Outcome {
    Serve(c, ReadRequest(RequestDirection(rd), rd.bytes, rd.forwardPosition, rd.backwardPosition))
  }

  // ---- Every answer, in bytes and positions ----

  /** A request with a forward position is answered with the bytes from there up to the last newline of
      the first window that holds one; with nothing and position 0 exactly when nothing is unread; or
      never, exactly when no newline is unread. The backward position comes back, or the file's size. */
  lemma AskForward(c: Bytes, rd: Request)
    requires rd.forwardPosition > 0
    ensures var f := rd.forwardPosition;
            var a := Ask(c, rd);
            && !a.Failed? && (a.Hangs? <==> f < |c| && 10 !in c[f..])
            && (a.Page? ==> a.backwardIndex == if rd.backwardPosition > 0 then rd.backwardPosition else |c|)
            && (a.Page? && f >= |c| ==> a.logs == [] && a.forwardIndex == 0)
            && (a.Page? && f < |c| ==>
                  && f < a.forwardIndex <= |c| && a.logs == c[f..a.forwardIndex]
                  && exists k :: EndsInWindow(c, f, Window(rd.bytes), k, a.forwardIndex))
  {
    var f := rd.forwardPosition;
    if f < |c| && NEWLINE in c[f..] {
      var k := ForwardEndInFirstWindow(c, f, Window(rd.bytes));
    }
  }

  /** Within its window a request without one is answered with the first lines, up to the last newline
      of the first window that holds one, and position 0; or never, exactly when the file has bytes but
      no newline. The forward position is the file's size. */
  lemma AskBackwardNear(c: Bytes, rd: Request, b: nat)
    requires rd.forwardPosition <= 0 && b == (if rd.backwardPosition > 0 then rd.backwardPosition else |c|)
    requires b <= Window(rd.bytes)
    ensures var a := Ask(c, rd);
            && !a.Failed? && (a.Hangs? <==> c != [] && 10 !in c)
            && (a.Page? ==> a.forwardIndex == |c| && a.backwardIndex == 0 && a.logs <= c)
            && (a.Page? && c != [] ==> exists k :: EndsInWindow(c, 0, Window(b), k, |a.logs|))
  {
    if c == [] || NEWLINE in c {
      BackwardReadNear(c, b, rd.bytes);
    }
  }

  /** Above it, with the bytes between a line start and the cursor, or with an error; see AskSucceedsIff. */
  lemma AskBackwardFar(c: Bytes, rd: Request, b: nat)
    requires rd.forwardPosition <= 0 && b == (if rd.backwardPosition > 0 then rd.backwardPosition else |c|)
    requires b > Window(rd.bytes)
    ensures var a := Ask(c, rd);
            && !a.Hangs? && (a.Page? <==> BackwardStart(c, b, Window(rd.bytes)).Some?)
            && (a.Page? ==>
                  && a.forwardIndex == |c| && 0 < a.backwardIndex < b <= |c|
                  && a.logs == c[a.backwardIndex..b] && c[a.backwardIndex - 1] == 10)
  {
    BackwardReadFar(c, b, rd.bytes);
  }

  /** Above the window a backward request is answered exactly when the cursor is within the file and the
      widest window that fits holds two newlines. */
  lemma AskSucceedsIff(c: Bytes, rd: Request, b: nat)
    requires rd.forwardPosition <= 0 && b == (if rd.backwardPosition > 0 then rd.backwardPosition else |c|)
    requires b > Window(rd.bytes)
    ensures Ask(c, rd).Page? <==> b <= |c| && TwoNewlines(c[(b - Window(rd.bytes)) % 2400..b])
  {
    AskBackwardFar(c, rd, b);
    BackwardSucceedsIff(c, b, Window(rd.bytes));
  }

  lemma AskEarlier(c: Bytes, rd: Request, b: nat)
    requires rd.forwardPosition <= 0 && b == InitialPosition(c, rd.backwardPosition) && b > Window(rd.bytes)
    ensures Ask(c, rd) == match BackwardStart(c, b, Window(rd.bytes))
                          case None => Failed
                          case Some(start) => Page(c[start..b], |c|, start)
  {
  }

  // ---- The session ----

  /** `back` and `fwd` are the client's cursors, `got` the pages it holds in file order, and
      `top` the final backward page once the server has answered position 0. */
  datatype Session = Session(file: Bytes, back: nat, fwd: nat, got: Bytes, top: Option<Bytes>)

  datatype Step = Append(data: Bytes) | Forward(size: int) | Backward(size: int)

  /** The first request names no position and is answered from the end of the file. A forward
      position 0, which an empty file is answered with, names none: the client has to open again. */
  function Open(file: Bytes, size: int): Option<Session> {
    Opened(file, Ask(file, Request(size, 0, 0)))
  }

  function Opened(file: Bytes, answer: Outcome): Option<Session> {
    match answer
    case Page(logs, fwd, back) =>
      if fwd <= 0 || back < 0 then None
      else if back == 0 then Some(Session(file, fwd, fwd, [], Some(logs)))
      else Some(Session(file, back, fwd, logs, None))
    case _ => None
  }

  /** A request that fails or never returns leaves the client as it was. */
  function Apply(s: Session, step: Step): Session {
    match step
    case Append(data) => s.(file := s.file + data)
    case Forward(size) =>
      Newer(s, Ask(s.file, Request(size, 0, s.fwd)))
    case Backward(size) =>
      if s.top.Some? then s else Earlier(s, Ask(s.file, Request(size, s.back, 0)))
  }

  function Newer(s: Session, answer: Outcome): Session {
    match answer
    case Page(logs, fwd, _) => if fwd > 0 then s.(fwd := fwd, got := s.got + logs) else s
    case _ => s
  }

  function Earlier(s: Session, answer: Outcome): Session {
    match answer
    case Page(logs, _, back) =>
      if back > 0 then s.(back := back, got := logs + s.got) else s.(top := Some(logs))
    case _ => s
  }

  function Run(s: Session, steps: seq<Step>): Session
    decreases |steps|
  {
    if steps == [] then s else Run(Apply(s, steps[0]), steps[1..])
  }

  /** The pages held are the bytes between the cursors; the backward cursor stands at a line end, or
      the final page, some first bytes of the file, has been answered. */
  ghost predicate Consistent(s: Session) {
    && 0 < s.back <= s.fwd <= |s.file|
    && s.got == s.file[s.back..s.fwd]
    && (s.top.None? ==> LineAligned(s.file, s.back))
    && (s.top.Some? ==> s.top.value <= s.file)
  }

  /** The final page reaches up to the pages held before it. */
  ghost predicate Gapless(s: Session) {
    s.top.Some? ==> s.back <= |s.top.value|
  }

  /** A page read from 0 with the window of a line-aligned position. */
  lemma FinalPage(c: Bytes, back: nat)
    requires LineAligned(c, back)
    ensures c[0..] == c && NEWLINE in c
    ensures var end := ForwardEnd(c, 0, Window(back));
            && LineAligned(c, end) && end >= back
            && (end == back <==> back >= READ_STEP || NEWLINE !in c[back..Min(READ_STEP, |c|)])
  {
    assert c[0..] == c && c[back - 1] == NEWLINE;
    var w := WindowWidth(Window(back), 0, |c|);
    var buf := c[0..w];
    assert buf[back - 1] == NEWLINE;
    FirstWindow(c, 0, Window(back));
    var end := ForwardEnd(c, 0, Window(back));
    FinalPageEnd(c, back, w, end);
  }

  lemma FinalPageEnd(c: Bytes, back: nat, w: nat, end: nat)
    requires LineAligned(c, back) && LineAligned(c, end) && back <= w <= |c| && end <= w
    requires NEWLINE !in c[end..w]
    ensures end >= back
    ensures end == back <==> NEWLINE !in c[back..w]
  {
  }

  /** The page of a whole file is everything up to its last newline. */
  lemma WholePage(c: Bytes)
    requires NEWLINE in c
    ensures c[0..] == c
    ensures var end := ForwardEnd(c, 0, Window(|c|));
            && LineAligned(c, end) && NEWLINE !in c[end..]
            && (end == |c| <==> LineAligned(c, |c|))
  {
    var end := ForwardEnd(c, 0, Window(|c|));
    assert c[0..] == c && c[0..|c|] == c;
    FirstWindow(c, 0, Window(|c|));
    LastLineEnd(c, end);
  }

  lemma LastLineEnd(c: Bytes, end: nat)
    requires LineAligned(c, end) && NEWLINE !in c[end..|c|]
    ensures c[end..|c|] == c[end..]
    ensures end == |c| <==> LineAligned(c, |c|)
  {
    if end < |c| {
      assert c[end..|c|][|c| - 1 - end] == c[|c| - 1];
    }
  }

  lemma OpenWithinWindow(file: Bytes, size: int)
    requires |file| <= Window(size)
    ensures Open(file, size).Some? <==> NEWLINE in file
    ensures Open(file, size).Some? ==>
              file[0..] == file &&
              Open(file, size) ==
              Some(Session(file, |file|, |file|, [], Some(file[0..ForwardEnd(file, 0, Window(|file|))])))
  {
    assert file[0..] == file;
  }

  lemma OpenBeyondWindow(file: Bytes, size: int)
    requires |file| > Window(size)
    ensures var start := BackwardStart(file, |file|, Window(size));
            && (start.None? ==> Open(file, size).None?)
            && (start.Some? ==> LineAligned(file, start.value) && start.value < |file| &&
                                Open(file, size) ==
                                Some(Session(file, start.value, |file|, file[start.value..|file|], None)))
  {
    AskEarlier(file, Request(size, 0, 0), |file|);
    if BackwardStart(file, |file|, Window(size)).Some? {
      BackwardStartAligned(file, |file|, Window(size));
    }
  }

  /** When the opening request is answered with a position: within the window, exactly for a file that
      holds a newline; beyond it, exactly when the widest window that fits holds two. */
  lemma OpenSucceedsIff(file: Bytes, size: int)
    ensures Open(file, size).Some? <==>
            if |file| <= Window(size) then NEWLINE in file
            else TwoNewlines(file[(|file| - Window(size)) % 2400..|file|])
  {
    if |file| > Window(size) {
      BackwardSucceedsIff(file, |file|, Window(size));
      OpenBeyondWindow(file, size);
      assert Open(file, size).Some? <==> BackwardStart(file, |file|, Window(size)).Some?;
    } else {
      OpenWithinWindow(file, size);
    }
  }

  /** It holds the last lines of the file. If it is the final page already it ends at the last newline,
      while the forward cursor starts at the end of the file: an unfinished last line falls between
      the two, exactly for a file that fits the window and does not end in a newline. */
  lemma OpenConsistent(file: Bytes, size: int)
    requires Open(file, size).Some?
    ensures var s := Open(file, size).value;
            && Consistent(s) && s.fwd == |file| && s.file == file
            && (s.top.Some? ==> s.back == |file| && NEWLINE !in file[|s.top.value|..])
            && (Gapless(s) <==> |file| > Window(size) || LineAligned(file, |file|))
  {
    if |file| <= Window(size) {
      WholePage(file);
    } else {
      OpenBeyondWindow(file, size);
    }
  }

  /** Byte 66 is in no page of this session, and the forward cursor is past it. */
  lemma OpenLosesLastLine(size: int)
    ensures Open([65, 10, 66], size) == Some(Session([65, 10, 66], 3, 3, [], Some([65, 10])))
  {
    var c: Bytes := [65, 10, 66];
    assert c[1] == NEWLINE;
    WholePage(c);
    var end := ForwardEnd(c, 0, Window(|c|));
    assert end == 2;
    assert c[..2] == [65, 10];
  }

  /** A session on a file with nothing but an unfinished line is never answered. */
  lemma UnfinishedLineHangs(size: int)
    ensures Ask([65], Request(size, 0, 0)).Hangs?
  {
  }

  /** A forward answer carries complete lines only, from the forward cursor on. */
  lemma ForwardKeeps(s: Session, size: int)
    requires Consistent(s)
    ensures var t := Apply(s, Forward(size));
            && Consistent(t) && t.back == s.back && t.top == s.top && t.file == s.file
            && s.fwd <= t.fwd && t.got == s.got + s.file[s.fwd..t.fwd]
            && (t.fwd > s.fwd <==> s.fwd < |s.file| && NEWLINE in s.file[s.fwd..])
            && (t.fwd > s.fwd ==> LineAligned(t.file, t.fwd))
  {
    if s.fwd < |s.file| && NEWLINE in s.file[s.fwd..] {
      ForwardEndAligned(s.file, s.fwd, Window(size));
      var end := ForwardEnd(s.file, s.fwd, Window(size));
      assert s.file[s.back..end] == s.file[s.back..s.fwd] + s.file[s.fwd..end];
    }
  }

  /** Near the start of the file the answer is the final page, which repeats nothing exactly when
      the cursor is not below 2400 or no line ends between it and there. */
  lemma FinalBackward(s: Session, size: int)
    requires Consistent(s) && s.top.None? && s.back <= Window(size)
    ensures var t := Apply(s, Backward(size));
            && t.top.Some? && t == s.(top := t.top) && Consistent(t) && Gapless(t)
            && (|t.top.value| == s.back <==>
                  s.back >= 2400 || NEWLINE !in s.file[s.back..Min(2400, |s.file|)])
  {
    FinalPage(s.file, s.back);
  }

  /** Two short lines and a long one, 2401 bytes in all. */
  function ShortAndLong(): (c: Bytes)
    ensures |c| == READ_STEP + 1 && c[1] == c[2] == c[READ_STEP] == NEWLINE
  {
    [65, 10, 10] + seq(READ_STEP - 3, _ => 65) + [10]
  }

  /** A session on it is opened with everything from byte 2 on, and its final page has byte 2 again. */
  lemma FinalPageRepeats()
    ensures var c := ShortAndLong();
            && Open(c, READ_STEP) == Some(Session(c, 2, |c|, c[2..|c|], None))
            && var t := Apply(Open(c, READ_STEP).value, Backward(READ_STEP));
               t.top.Some? && t.back == 2 < |t.top.value| && t.top.value <= c
  {
    var c := ShortAndLong();
    var buf := c[1..|c|];
    assert buf[0] == NEWLINE && buf[1] == NEWLINE;
    TwoNewlinesAt(buf);
    PreLineComplete(buf);
    assert IndexOf(buf, NEWLINE) == 0 && TruncatePreLine(buf).1 == 1;
    BackwardStops(c, |c|, READ_STEP);
    OpenBeyondWindow(c, READ_STEP);
    OpenConsistent(c, READ_STEP);
    var first := Open(c, READ_STEP).value;
    FinalBackward(first, READ_STEP);
    assert c[2..READ_STEP][0] == NEWLINE;
  }

  lemma BackwardAnswer(s: Session, size: int)
    requires Consistent(s) && s.top.None? && s.back > Window(size)
    ensures var start := BackwardStart(s.file, s.back, Window(size));
            && (start.None? ==> Apply(s, Backward(size)) == s)
            && (start.Some? ==> 0 < start.value < s.back && LineAligned(s.file, start.value) &&
                                Apply(s, Backward(size)) ==
                                s.(back := start.value, got := s.file[start.value..s.back] + s.got))
  {
    AskEarlier(s.file, Request(size, s.back, 0), s.back);
    if BackwardStart(s.file, s.back, Window(size)).Some? {
      BackwardStartAligned(s.file, s.back, Window(size));
    }
  }

  lemma Prepended(s: Session, start: nat)
    requires Consistent(s) && s.top.None? && start <= s.back && LineAligned(s.file, start)
    ensures Consistent(s.(back := start, got := s.file[start..s.back] + s.got))
  {
    assert s.file[start..s.fwd] == s.file[start..s.back] + s.file[s.back..s.fwd];
  }

  /** Elsewhere it is the page just below the cursor, which stays above 0. */
  lemma EarlierBackward(s: Session, size: int)
    requires Consistent(s) && s.top.None? && s.back > Window(size)
    ensures var t := Apply(s, Backward(size));
            && 0 < t.back <= s.back && Consistent(t)
            && t == s.(back := t.back, got := s.file[t.back..s.back] + s.got)
  {
    BackwardAnswer(s, size);
    var start := BackwardStart(s.file, s.back, Window(size));
    if start.Some? {
      Prepended(s, start.value);
    } else {
      assert s.file[s.back..s.back] + s.got == s.got;
    }
  }

  /** It fails, and moves nothing, exactly when the widest window that fits lacks two newlines. */
  lemma EarlierBackwardIff(s: Session, size: int)
    requires Consistent(s) && s.top.None? && s.back > Window(size)
    ensures Apply(s, Backward(size)).back < s.back <==>
            TwoNewlines(s.file[(s.back - Window(size)) % 2400..s.back])
    ensures Apply(s, Backward(size)).back == s.back ==> Apply(s, Backward(size)) == s
  {
    BackwardSucceedsIff(s.file, s.back, Window(size));
    BackwardAnswer(s, size);
    var start := BackwardStart(s.file, s.back, Window(size));
    assert start.Some? <==> Apply(s, Backward(size)).back < s.back;
  }

  /** Every backward answer leaves the forward cursor alone and delivers what lies just below the
      backward one. */
  lemma BackwardKeeps(s: Session, size: int)
    requires Consistent(s)
    ensures var t := Apply(s, Backward(size));
            && Consistent(t) && (Gapless(t) <==> Gapless(s))
            && t.fwd == s.fwd && t.file == s.file && t.back <= s.back
            && (s.top.Some? ==> t == s)
  {
    if s.top.None? {
      if s.back <= Window(size) {
        FinalBackward(s, size);
      } else {
        EarlierBackward(s, size);
      }
    }
  }

  lemma StepKeeps(s: Session, step: Step)
    requires Consistent(s)
    ensures var t := Apply(s, step);
            && Consistent(t) && (Gapless(t) <==> Gapless(s))
            && (LineAligned(s.file, s.fwd) ==> LineAligned(t.file, t.fwd))
            && s.file <= t.file && s.fwd <= t.fwd && t.back <= s.back
            && (s.top.Some? ==> t.top == s.top && t.back == s.back)
  {
    match step
    case Append(data) =>
      assert (s.file + data)[s.back..s.fwd] == s.file[s.back..s.fwd];
    case Forward(size) => ForwardKeeps(s, size);
    case Backward(size) => BackwardKeeps(s, size);
  }

  /** The two-way session: whatever is appended and read, in any order, the pages the client holds
      are exactly the bytes between its cursors, without gap or repeat, and the final page leaves a
      gap below them only if it did so from the start. */
  lemma {:induction false} SessionExact(s: Session, steps: seq<Step>)
    requires Consistent(s)
    ensures var t := Run(s, steps);
            && Consistent(t) && (Gapless(t) <==> Gapless(s))
            && (LineAligned(s.file, s.fwd) ==> LineAligned(t.file, t.fwd))
            && s.file <= t.file && s.fwd <= t.fwd && t.back <= s.back
            && (s.top.Some? ==> t.top == s.top && t.back == s.back)
    decreases |steps|
  {
    if steps != [] {
      StepKeeps(s, steps[0]);
      SessionExact(Apply(s, steps[0]), steps[1..]);
    }
  }

  /** The bytes appended over a run, in order. */
  function Appended(steps: seq<Step>): Bytes {
    if steps == [] then [] else AppendedBy(steps[0]) + Appended(steps[1..])
  }

  function AppendedBy(step: Step): Bytes {
    match step
    case Append(data) => data
    case _ => []
  }

  lemma Longer(a: Bytes, b: Bytes, c: Bytes)
    ensures a + b + c == a + (b + c)
  {
  }

  /** Reading leaves the file alone: it grows by what is appended. */
  lemma {:induction false} FileGrows(s: Session, steps: seq<Step>)
    requires Consistent(s)
    ensures Run(s, steps).file == s.file + Appended(steps)
    decreases |steps|
  {
    if steps == [] {
      assert s.file + [] == s.file;
    } else {
      StepFile(s, steps[0]);
      StepKeeps(s, steps[0]);
      FileGrows(Apply(s, steps[0]), steps[1..]);
      Longer(s.file, AppendedBy(steps[0]), Appended(steps[1..]));
    }
  }

  lemma StepFile(s: Session, step: Step)
    requires Consistent(s)
    ensures Apply(s, step).file == s.file + AppendedBy(step)
  {
    assert s.file + [] == s.file;
    match step
    case Append(data) =>
    case Forward(size) => ForwardKeeps(s, size);
    case Backward(size) => BackwardKeeps(s, size);
  }

  /** Every byte from the first to the forward cursor is in a page, the final one cut where the others
      begin. */
  ghost predicate HoldsAll(s: Session) {
    s.top.Some? ==>
      s.back <= s.fwd <= |s.file| && s.back <= |s.top.value| && s.top.value[..s.back] + s.got == s.file[..s.fwd]
  }

  /** Over whole runs from the opening request, on any file: the pages held are the bytes between the
      cursors, and no byte is lost exactly when the file was longer than the window or ended in a
      newline as it was opened. */
  lemma SessionFromOpen(file: Bytes, size: int, steps: seq<Step>)
    requires Open(file, size).Some?
    ensures var s := Run(Open(file, size).value, steps);
            && file <= s.file && |file| <= s.fwd && s.back <= s.fwd <= |s.file|
            && s.got == s.file[s.back..s.fwd]
            && (s.top.None? ==> LineAligned(s.file, s.back))
            && (LineAligned(file, |file|) ==> LineAligned(s.file, s.fwd))
            && (HoldsAll(s) <==> |file| > Window(size) || LineAligned(file, |file|))
  {
    OpenConsistent(file, size);
    var first := Open(file, size).value;
    SessionExact(first, steps);
    var s := Run(first, steps);
    if s.top.Some? && s.back <= |s.top.value| {
      assert s.top.value[..s.back] == s.file[..s.back];
      assert s.file[..s.back] + s.file[s.back..s.fwd] == s.file[..s.fwd];
    }
  }

  // ---- Walking back to the start ----

  function BackwardWalk(size: int, n: nat): seq<Step> {
    if n == 0 then [] else [Backward(size)] + BackwardWalk(size, n - 1)
  }

  lemma WalkOneMore(s: Session, size: int, n: nat)
    ensures Run(s, BackwardWalk(size, n + 1)) == Run(Apply(s, Backward(size)), BackwardWalk(size, n))
  {
  }

  lemma {:induction false} TopStays(s: Session, size: int, n: nat)
    requires s.top.Some?
    ensures Run(s, BackwardWalk(size, n)) == s
  {
    if n > 0 {
      WalkOneMore(s, size, n - 1);
      TopStays(s, size, n - 1);
    }
  }

  lemma BackwardMoves(s: Session, size: int)
    requires Consistent(s) && s.top.None?
    ensures var t := Apply(s, Backward(size));
            Consistent(t) && (t == s || t.top.Some? || t.back < s.back)
  {
    if s.back <= Window(size) {
      FinalBackward(s, size);
    } else {
      EarlierBackward(s, size);
      EarlierBackwardIff(s, size);
    }
  }

  /** After `i` calls for earlier pages, the next one fails. */
  ghost predicate FailsAfter(s: Session, size: int, i: nat)
    decreases i
  {
    if i > 0 then FailsAfter(Apply(s, Backward(size)), size, i - 1)
    else s.top.None? && Apply(s, Backward(size)) == s
  }

  lemma {:induction false} FailingCall(s: Session, size: int, i: nat)
    requires FailsAfter(s, size, i)
    ensures var t := Run(s, BackwardWalk(size, i));
            t.top.None? && Apply(t, Backward(size)) == t
    decreases i
  {
    if i > 0 {
      WalkOneMore(s, size, i - 1);
      FailingCall(Apply(s, Backward(size)), size, i - 1);
    }
  }

  lemma FailsNow(s: Session, size: int)
    requires s.top.None? && Apply(s, Backward(size)) == s
    ensures FailsAfter(s, size, 0)
  {
  }

  lemma FailsLater(s: Session, size: int, i: nat)
    requires FailsAfter(Apply(s, Backward(size)), size, i)
    ensures FailsAfter(s, size, i + 1)
  {
  }

  lemma ReachesLater(s: Session, size: int, n: nat)
    requires n > 0 && Run(Apply(s, Backward(size)), BackwardWalk(size, n - 1)).top.Some?
    ensures Run(s, BackwardWalk(size, n)).top.Some?
  {
    WalkOneMore(s, size, n - 1);
  }

  lemma {:induction false} WalkEnds(s: Session, size: int, n: nat) returns (reached: bool, i: nat)
    requires Consistent(s) && n > s.back
    ensures reached ==> Run(s, BackwardWalk(size, n)).top.Some?
    ensures !reached ==> i < n && FailsAfter(s, size, i)
    decreases n
  {
    reached, i := true, 0;
    if s.top.Some? {
      TopStays(s, size, n);
    } else {
      var t := Apply(s, Backward(size));
      BackwardMoves(s, size);
      if t == s {
        FailsNow(s, size);
        return false, 0;
      }
      if t.top.Some? {
        TopStays(t, size, n - 1);
        ReachesLater(s, size, n);
        return true, 0;
      }
      reached, i := WalkEnds(t, size, n - 1);
      if reached {
        ReachesLater(s, size, n);
      } else {
        FailsLater(s, size, i);
        i := i + 1;
      }
    }
  }

  /** Asking for earlier pages more often than there are bytes below the cursor either reaches the
      first byte or meets a call that fails: a walk of successful calls ends. */
  lemma BackwardWalkEnds(s: Session, size: int, n: nat) returns (i: nat)
    requires Consistent(s) && n > s.back
    ensures Run(s, BackwardWalk(size, n)).top.Some? ||
            (i < n && var t := Run(s, BackwardWalk(size, i)); t.top.None? && Apply(t, Backward(size)) == t)
  {
    var reached;
    reached, i := WalkEnds(s, size, n);
    if !reached {
      FailingCall(s, size, i);
    }
  }

  lemma ShortLinesMove(s: Session, size: int)
    requires Consistent(s) && s.top.None? && LinesWithin(s.file, READ_STEP - 1)
    ensures var t := Apply(s, Backward(size));
            Consistent(t) && t.file == s.file && t.fwd == s.fwd && (t.top.Some? || t.back < s.back)
  {
    BackwardKeeps(s, size);
    if s.back <= Window(size) {
      FinalBackward(s, size);
    } else {
      BackwardAnswer(s, size);
      ShortLinesFirstWindow(s.file, s.back, Window(size));
    }
  }

  /** `n` calls for earlier pages reach the first byte, and leave the rest as it was. */
  ghost predicate Paged(s: Session, size: int, n: nat) {
    var t := Run(s, BackwardWalk(size, n));
    && t.top.Some? && t.fwd == s.fwd && t.file == s.file
    && Consistent(t) && (Gapless(s) ==> Gapless(t))
  }

  lemma PagedLater(s: Session, size: int, n: nat)
    requires Consistent(s) && s.top.None? && Paged(Apply(s, Backward(size)), size, n)
    ensures Paged(s, size, n + 1)
  {
    WalkOneMore(s, size, n);
    BackwardKeeps(s, size);
  }

  lemma PagedNow(s: Session, size: int)
    requires Consistent(s) && s.top.Some?
    ensures Paged(s, size, 0)
  {
  }

  /** With lines of at most 2399 bytes, asking for earlier pages reaches the first byte. */
  lemma {:induction false} BackwardWalkCompletes(s: Session, size: int)
    requires Consistent(s) && LinesWithin(s.file, 2399)
    ensures exists n :: 0 <= n <= s.back && Paged(s, size, n)
    decreases s.top.None?, s.back
  {
    if s.top.Some? {
      PagedNow(s, size);
    } else {
      ShortLinesMove(s, size);
      var t := Apply(s, Backward(size));
      if t.top.Some? {
        PagedNow(t, size);
        PagedLater(s, size, 0);
      } else {
        BackwardWalkCompletes(t, size);
        var m :| 0 <= m <= t.back && Paged(t, size, m);
        PagedLater(s, size, m);
      }
    }
  }

  // ---- Tailing ----

  function ForwardWalk(size: int, n: nat): seq<Step> {
    if n == 0 then [] else [Forward(size)] + ForwardWalk(size, n - 1)
  }

  lemma ForwardOneMore(s: Session, size: int, n: nat)
    ensures Run(s, ForwardWalk(size, n + 1)) == Run(Apply(s, Forward(size)), ForwardWalk(size, n))
  {
  }

  /** `n` calls for newer pages leave no complete line unread, and everything else as it was. */
  ghost predicate Tailed(s: Session, size: int, n: nat) {
    var t := Run(s, ForwardWalk(size, n));
    && Consistent(t) && t.file == s.file && t.back == s.back && t.top == s.top
    && NEWLINE !in t.file[t.fwd..]
  }

  lemma TailedLater(s: Session, size: int, n: nat)
    requires Consistent(s) && Tailed(Apply(s, Forward(size)), size, n)
    ensures Tailed(s, size, n + 1)
  {
    ForwardOneMore(s, size, n);
    ForwardKeeps(s, size);
  }

  lemma ForwardMoves(s: Session, size: int)
    requires Consistent(s) && NEWLINE in s.file[s.fwd..]
    ensures var t := Apply(s, Forward(size));
            Consistent(t) && t.file == s.file && s.fwd < t.fwd <= |s.file|
  {
    ForwardKeeps(s, size);
  }

  lemma TailedNow(s: Session, size: int)
    requires Consistent(s) && NEWLINE !in s.file[s.fwd..]
    ensures Tailed(s, size, 0)
  {
  }

  /** On a file at rest, asking for newer pages delivers everything up to the last newline. */
  lemma {:induction false} ForwardWalkCompletes(s: Session, size: int)
    requires Consistent(s)
    ensures exists n :: 0 <= n <= |s.file| - s.fwd && Tailed(s, size, n)
    decreases |s.file| - s.fwd
  {
    if NEWLINE !in s.file[s.fwd..] {
      TailedNow(s, size);
    } else {
      ForwardMoves(s, size);
      var t := Apply(s, Forward(size));
      ForwardWalkCompletes(t, size);
      var m :| 0 <= m <= |t.file| - t.fwd && Tailed(t, size, m);
      TailedLater(s, size, m);
    }
  }
}
