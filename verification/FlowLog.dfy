/**
 Tailing the flow log: cutting text into complete lines, the stored cursor with its carried rest,
 and what appends, truncations, passes and crashed passes deliver together (apps/worker/src/flows.ts and
 splitCompleteLines of packages/vpn/src/flows.ts). The log is ASCII, one byte to a character.
 */
module FlowLog {
  import opened Options

  // ----- lines -----

  function LastNewline(s: string): (r: int)
    ensures -1 <= r < |s|
    ensures r >= 0 ==> s[r] == '\n'
  {
    if s == "" then -1
    else if s[|s| - 1] == '\n' then |s| - 1
    else LastNewline(s[..|s| - 1])
  }

  /** The pieces between newlines; text without one is a single piece. */
  function Split(s: string): seq<string>
    decreases |s|
  {
    var last := LastNewline(s);
    if last < 0 then [s] else Split(s[..last]) + [s[last + 1..]]
  }

  function SplitCompleteLines(buffer: string): (seq<string>, string) {
    var last := LastNewline(buffer);
    if last < 0 then ([], buffer) else (Split(buffer[..last]), buffer[last + 1..])
  }

  function CompleteLines(text: string): seq<string> {
    SplitCompleteLines(text).0
  }

  function Rest(text: string): string {
    SplitCompleteLines(text).1
  }

  predicate OneLine(s: string) {
    forall k :: 0 <= k < |s| ==> s[k] != '\n'
  }

  predicate Lines(lines: seq<string>) {
    forall i :: 0 <= i < |lines| ==> OneLine(lines[i])
  }

  /** The lines written out again, each ended by a newline. */
  function Unlines(lines: seq<string>): string {
    if lines == [] then "" else Unlines(lines[..|lines| - 1]) + lines[|lines| - 1] + "\n"
  }

  lemma {:induction false} SplitIsLines(s: string)
    ensures Lines(Split(s)) && Unlines(Split(s)) == s + "\n"
    decreases |s|
  {
    hide LastNewline, Unlines, Lines, OneLine;
    NothingAfterLast(s);
    var last := LastNewline(s);
    if last >= 0 {
      SplitIsLines(s[..last]);
      CutAtNewline(s, last);
      OneMoreLine(Split(s[..last]), s[last + 1..]);
    } else {
      OnlyRest(s);
      OneMoreLine([], s);
      assert [] + [s] == [s];
    }
  }

  lemma OneMoreLine(lines: seq<string>, line: string)
    requires Lines(lines) && OneLine(line)
    ensures Lines(lines + [line])
    ensures Unlines(lines + [line]) == Unlines(lines) + line + "\n"
  {
    assert (lines + [line])[..|lines|] == lines;
  }

  lemma CutAtNewline(s: string, k: nat)
    requires k < |s| && s[k] == '\n'
    ensures s[..k] + "\n" + s[k + 1..] == s
  {
  }

  lemma {:induction false} NothingAfterLast(s: string)
    ensures if LastNewline(s) < 0 then OneLine(s) else OneLine(s[LastNewline(s) + 1..])
    decreases |s|
  {
    if s != "" && s[|s| - 1] != '\n' {
      var init := s[..|s| - 1];
      NothingAfterLast(init);
      if LastNewline(s) >= 0 {
        assert s[LastNewline(s) + 1..] == init[LastNewline(s) + 1..] + [s[|s| - 1]];
      }
    }
  }

  lemma Rewritten(lines: seq<string>, head: string, rest: string, text: string)
    requires Unlines(lines) == head + "\n" && head + "\n" + rest == text
    ensures Unlines(lines) + rest == text
  {
    hide *;
  }

  lemma CutIntoLines(text: string, k: nat)
    requires k < |text| && text[k] == '\n'
    ensures Unlines(Split(text[..k])) + text[k + 1..] == text
    ensures Lines(Split(text[..k]))
  {
    hide *;
    SplitIsLines(text[..k]);
    CutAtNewline(text, k);
    Rewritten(Split(text[..k]), text[..k], text[k + 1..], text);
  }

  lemma OnlyRest(text: string)
    ensures Unlines([]) + text == text && Lines([])
  {
  }

  /** Nothing is lost or made up: lines and rest write out the text again, and none holds a newline. */
  lemma LinesAndRest(text: string)
    ensures Unlines(CompleteLines(text)) + Rest(text) == text
    ensures Lines(CompleteLines(text)) && OneLine(Rest(text))
  {
    hide Split, LastNewline, Unlines, Lines, OneLine;
    NothingAfterLast(text);
    if LastNewline(text) >= 0 {
      CutIntoLines(text, LastNewline(text));
    } else {
      OnlyRest(text);
    }
  }

  lemma {:induction false} LastNewlineIs(s: string, k: nat)
    requires k < |s| && s[k] == '\n' && OneLine(s[k + 1..])
    ensures LastNewline(s) == k
    decreases |s|
  {
    if k < |s| - 1 {
      var tail := s[k + 1..];
      assert s[|s| - 1] == tail[|tail| - 1];
      assert s[..|s| - 1][k + 1..] == tail[..|tail| - 1];
      LastNewlineIs(s[..|s| - 1], k);
    }
  }

  lemma {:induction false} NewlineBefore(head: string, rest: string)
    requires OneLine(rest)
    ensures LastNewline(head + "\n" + rest) == |head|
  {
    hide LastNewline, OneLine;
    assert (head + "\n" + rest)[|head| + 1..] == rest;
    LastNewlineIs(head + "\n" + rest, |head|);
  }

  /** There is only one way to read a text as complete lines and a rest. */
  lemma {:induction false} OnlyOneReading(lines: seq<string>, rest: string, lines': seq<string>, rest': string)
    requires Lines(lines) && OneLine(rest) && Lines(lines') && OneLine(rest')
    requires Unlines(lines) + rest == Unlines(lines') + rest'
    ensures lines == lines' && rest == rest'
    decreases |lines|
  {
    if lines == [] || lines' == [] {
      assert Unlines([]) + rest == rest && Unlines([]) + rest' == rest';
      if lines != [] {
        OneWithout(lines, rest, rest');
      } else if lines' != [] {
        OneWithout(lines', rest', rest);
      }
    } else {
      var n, n' := |lines| - 1, |lines'| - 1;
      var head, head' := Unlines(lines[..n]) + lines[n], Unlines(lines'[..n']) + lines'[n'];
      NewlineBefore(head, rest);
      NewlineBefore(head', rest');
      var text := head + "\n" + rest;
      assert text == Unlines(lines) + rest && text == head' + "\n" + rest';
      assert head == text[..|head|] && head' == text[..|head'|];
      assert rest == text[|head| + 1..] && rest' == text[|head'| + 1..];
      OnlyOneReading(lines[..n], lines[n], lines'[..n'], lines'[n']);
    }
  }

  lemma OneWithout(lines: seq<string>, rest: string, whole: string)
    requires lines != [] && Lines(lines) && OneLine(rest) && OneLine(whole)
    ensures Unlines(lines) + rest != whole
  {
    var head := Unlines(lines[..|lines| - 1]) + lines[|lines| - 1];
    assert (Unlines(lines) + rest)[|head|] == '\n';
  }

  lemma {:induction false} UnlinesAppend(a: seq<string>, b: seq<string>)
    ensures Unlines(a + b) == Unlines(a) + Unlines(b)
    decreases |b|
  {
    if b == [] {
      assert a + b == a;
    } else {
      var init, last := b[..|b| - 1], b[|b| - 1];
      UnlinesAppend(a, init);
      assert (a + b)[..|a + b| - 1] == a + init && (a + b)[|a + b| - 1] == last;
      assert Unlines(a) + Unlines(init) + last + "\n" == Unlines(a) + (Unlines(init) + last + "\n");
    }
  }

  /** Carrying the rest over makes reading in two parts the same as reading at once. */
  lemma CarriedRest(a: string, b: string)
    ensures CompleteLines(a + b) == CompleteLines(a) + CompleteLines(Rest(a) + b)
    ensures Rest(a + b) == Rest(Rest(a) + b)
  {
    hide SplitCompleteLines, Unlines;
    LinesAndRest(a);
    LinesAndRest(Rest(a) + b);
    LinesAndRest(a + b);
    var first, second, rest := CompleteLines(a), CompleteLines(Rest(a) + b), Rest(Rest(a) + b);
    UnlinesAppend(first, second);
    assert Unlines(first + second) + rest == a + b by {
      assert Unlines(first) + Unlines(second) + rest == Unlines(first) + (Unlines(second) + rest);
      assert Unlines(first) + (Rest(a) + b) == (Unlines(first) + Rest(a)) + b;
    }
    OnlyOneReading(CompleteLines(a + b), Rest(a + b), first + second, rest);
  }

  lemma EmptyText()
    ensures CompleteLines("") == [] && Rest("") == ""
  {
  }

  // ----- one pass -----

  const MAX_BYTES_PER_RUN: nat := 8 * 1024 * 1024

  datatype Cursor = Cursor(inode: int, offset: nat, rest: string)

  datatype Chunk = Chunk(inode: int, offset: nat, text: string, bytesRead: nat)

  function Min(a: nat, b: nat): nat {
    if a < b then a else b
  }

  /** Where a pass starts: a new inode or a file shorter than the cursor starts over. */
  function Start(cursor: Option<Cursor>, inode: int, log: string): (nat, string) {
    if cursor.None? || cursor.value.inode != inode || |log| < cursor.value.offset then (0, "")
    else (cursor.value.offset, cursor.value.rest)
  }

  /** With nothing new to read the text is left empty, even if there is a rest. */
  function ReadNewBytes(cursor: Option<Cursor>, inode: int, log: string): Chunk {
    var (offset, rest) := Start(cursor, inode, log);
    var available := |log| - offset;
    if available <= 0 then Chunk(inode, offset, "", 0)
    else
      var length := Min(available, MAX_BYTES_PER_RUN);
      Chunk(inode, offset, rest + log[offset..offset + length], length)
  }

  function PassLines(cursor: Option<Cursor>, inode: int, log: string): seq<string> {
    CompleteLines(ReadNewBytes(cursor, inode, log).text)
  }

  /** The cursor a finished pass leaves. */
  function PassCursor(cursor: Option<Cursor>, inode: int, log: string): Option<Cursor> {
    var chunk := ReadNewBytes(cursor, inode, log);
    var (lines, rest) := SplitCompleteLines(chunk.text);
    if lines == [] && chunk.bytesRead == 0 && cursor.Some? && cursor.value.inode == inode then cursor
    else Some(Cursor(inode, chunk.offset + chunk.bytesRead, rest))
  }

  /** A pass reads on after the cursor only in the same file, and only if that is not shorter now. */
  lemma StartIs(cursor: Option<Cursor>, inode: int, log: string)
    ensures Start(cursor, inode, log)
            == if cursor != None && cursor.value.inode == inode && cursor.value.offset <= |log|
               then (cursor.value.offset, cursor.value.rest) else (0, "")
  {
  }

  /** It reads at most eight mebibytes; what it works on is the carried rest and what it read, or nothing. */
  lemma ReadIs(cursor: Option<Cursor>, inode: int, log: string)
    ensures var chunk, (offset, rest) := ReadNewBytes(cursor, inode, log), Start(cursor, inode, log);
            && chunk.inode == inode && chunk.offset == offset
            && chunk.bytesRead == (if |log| - offset <= 8388608 then |log| - offset else 8388608)
            && chunk.text == if chunk.bytesRead == 0 then "" else rest + log[offset..offset + chunk.bytesRead]
  {
  }

  // ----- a log that is only appended to -----

  /** Lines a pass wrote before it died, and how many lines finished passes had delivered by then. */
  datatype Attempt = Attempt(start: nat, lines: seq<string>)

  datatype State = State(log: string, cursor: Option<Cursor>, delivered: seq<string>, crashed: seq<Attempt>)

  datatype Step = Append(text: string) | Pass | CrashedPass(written: nat)

  const NEW_LOG: State := State("", None, [], [])

  function Next(s: State, inode: int, step: Step): State {
    match step
    case Append(text) => s.(log := s.log + text)
    case Pass =>
      s.(cursor := PassCursor(s.cursor, inode, s.log), delivered := s.delivered + PassLines(s.cursor, inode, s.log))
    case CrashedPass(written) =>
      var lines := PassLines(s.cursor, inode, s.log);
      s.(crashed := s.crashed + [Attempt(|s.delivered|, lines[..Min(written, |lines|)])])
  }

  function Run(s: State, steps: seq<Step>, inode: int): State {
    if steps == [] then s else Next(Run(s, steps[..|steps| - 1], inode), inode, steps[|steps| - 1])
  }

  /** A run over a log that starts out new. */
  function Exec(steps: seq<Step>, inode: int): State {
    Run(NEW_LOG, steps, inode)
  }

  /** An attempt that dies leaves the lines it wrote, the first so many of its pass, and nothing else. */
  lemma CrashDoes(s: State, inode: int, written: nat)
    ensures var after, lines := Next(s, inode, CrashedPass(written)), PassLines(s.cursor, inode, s.log);
            && after.log == s.log && after.cursor == s.cursor && after.delivered == s.delivered
            && |after.crashed| == |s.crashed| + 1 && after.crashed[..|s.crashed|] == s.crashed
            && after.crashed[|s.crashed|].start == |s.delivered|
            && after.crashed[|s.crashed|].lines == if written <= |lines| then lines[..written] else lines
  {
    hide PassLines;
  }

  function Offset(s: State): nat {
    if s.cursor.None? then 0 else s.cursor.value.offset
  }

  function Carried(s: State): string {
    if s.cursor.None? then "" else s.cursor.value.rest
  }

  /** What the worker has read: lines from before it last started over, and the text it has gone through since. */
  datatype View = View(before: seq<string>, seen: string)

  /** All of the text seen has been delivered as lines, or is carried as the rest, and the cursor is its length. */
  predicate Tracks(s: State, v: View, inode: int) {
    && (s.cursor.Some? ==> s.cursor.value.inode == inode)
    && Offset(s) == |v.seen|
    && s.delivered == v.before + CompleteLines(v.seen) && Carried(s) == Rest(v.seen)
  }

  /** Where a pass stops reading. */
  function PassEnd(s: State): nat {
    Min(|s.log|, (if |s.log| < Offset(s) then 0 else Offset(s)) + MAX_BYTES_PER_RUN)
  }

  /** A pass reads on where it was, starts over on a shorter log, and does nothing on one that is empty. */
  function PassView(s: State, v: View): View {
    if |s.log| >= Offset(s) then View(v.before, v.seen + s.log[Offset(s)..PassEnd(s)])
    else if s.log == "" then v
    else View(s.delivered, s.log[..PassEnd(s)])
  }

  lemma MoreLog(log: string, text: string)
    ensures CompleteLines(log) <= CompleteLines(log + text)
  {
    CarriedRest(log, text);
  }

  lemma PrefixLines(log: string, end: nat)
    requires end <= |log|
    ensures CompleteLines(log[..end]) <= CompleteLines(log)
  {
    hide *;
    MoreLog(log[..end], log[end..]);
    assert log[..end] + log[end..] == log;
  }

  /** What a pass reads, and the cursor it leaves, by how the log compares with the cursor. */
  lemma PassMoves(s: State, inode: int)
    requires s.cursor.Some? ==> s.cursor.value.inode == inode
    ensures var after, o, end := Next(s, inode, Pass), Offset(s), PassEnd(s);
            if |s.log| < o then
              after == if s.log == "" then s
                       else s.(cursor := Some(Cursor(inode, end, Rest(s.log[..end]))),
                               delivered := s.delivered + CompleteLines(s.log[..end]))
            else if end == o then after == s.(cursor := if s.cursor.Some? then s.cursor else Some(Cursor(inode, 0, "")))
            else after == s.(cursor := Some(Cursor(inode, end, Rest(Carried(s) + s.log[o..end]))),
                             delivered := s.delivered + CompleteLines(Carried(s) + s.log[o..end]))
  {
    var chunk := ReadNewBytes(s.cursor, inode, s.log);
    ChunkText(s, inode);
    PassShape(s, inode);
    EmptyText();
    hide CompleteLines, Rest, ReadNewBytes, Next;
    if chunk.bytesRead == 0 {
      assert s.delivered + [] == s.delivered;
    }
  }

  lemma ChunkText(s: State, inode: int)
    requires s.cursor.Some? ==> s.cursor.value.inode == inode
    ensures var chunk, o, end := ReadNewBytes(s.cursor, inode, s.log), Offset(s), PassEnd(s);
            && chunk.inode == inode && chunk.offset == (if |s.log| < o then 0 else o)
            && chunk.offset + chunk.bytesRead == end
            && chunk.text == (if end == chunk.offset then ""
                              else if |s.log| < o then s.log[..end] else Carried(s) + s.log[o..end])
  {
    if |s.log| < Offset(s) && s.log != "" {
      assert "" + s.log[0..PassEnd(s)] == s.log[..PassEnd(s)];
    }
  }

  lemma PassShape(s: State, inode: int)
    ensures var after, chunk := Next(s, inode, Pass), ReadNewBytes(s.cursor, inode, s.log);
            && after.log == s.log && after.crashed == s.crashed
            && after.delivered == s.delivered + CompleteLines(chunk.text)
            && PassLines(s.cursor, inode, s.log) == CompleteLines(chunk.text)
            && after.cursor == (if chunk.text == "" && chunk.bytesRead == 0 && s.cursor.Some?
               && s.cursor.value.inode == inode then s.cursor
                                else Some(Cursor(chunk.inode, chunk.offset + chunk.bytesRead, Rest(chunk.text))))
  {
    EmptyText();
    hide ReadNewBytes;
    var chunk := ReadNewBytes(s.cursor, inode, s.log);
    BytesForText(s.cursor, inode, s.log);
  }

  lemma BytesForText(cursor: Option<Cursor>, inode: int, log: string)
    ensures ReadNewBytes(cursor, inode, log).text == "" <==> ReadNewBytes(cursor, inode, log).bytesRead == 0
    ensures ReadNewBytes(cursor, inode, log).inode == inode
  {
  }

  /** Reading on from the carried rest extends the text seen. */
  lemma ReadingOn(s: State, v: View, inode: int, more: string, after: State)
    requires Tracks(s, v, inode)
    requires after.cursor == Some(Cursor(inode, Offset(s) + |more|, Rest(Carried(s) + more)))
    requires after.delivered == s.delivered + CompleteLines(Carried(s) + more)
    ensures Tracks(after, View(v.before, v.seen + more), inode)
  {
    hide CompleteLines, Rest;
    CarriedRest(v.seen, more);
    Regroup(v.before, CompleteLines(v.seen), CompleteLines(Rest(v.seen) + more));
  }

  lemma Regroup(a: seq<string>, b: seq<string>, c: seq<string>)
    ensures a + b + c == a + (b + c)
  {
  }

  /** Starting over makes the beginning of the log all that was seen. */
  lemma StartingOver(s: State, inode: int, seen: string, after: State)
    requires after.cursor == Some(Cursor(inode, |seen|, Rest(seen)))
    requires after.delivered == s.delivered + CompleteLines(seen)
    ensures Tracks(after, View(s.delivered, seen), inode)
  {
    hide CompleteLines, Rest;
  }

  lemma StandingStill(s: State, v: View, inode: int, after: State)
    requires Tracks(s, v, inode)
    requires after.delivered == s.delivered
    requires after.cursor == if s.cursor.Some? then s.cursor else Some(Cursor(inode, 0, ""))
    ensures Tracks(after, v, inode)
  {
    hide CompleteLines, Rest;
  }

  lemma PassReadsOn(s: State, v: View, inode: int, more: string)
    requires Tracks(s, v, inode) && |s.log| >= Offset(s) && more == s.log[Offset(s)..PassEnd(s)]
    ensures Tracks(Next(s, inode, Pass), View(v.before, v.seen + more), inode)
  {
    hide *;
    SameOffset(s, v, inode);
    PassMoves(s, inode);
    EndInLog(s);
    if PassEnd(s) == Offset(s) {
      assert v.seen + more == v.seen;
      StandingStill(s, v, inode, Next(s, inode, Pass));
    } else {
      ReadingOn(s, v, inode, more, Next(s, inode, Pass));
    }
  }

  lemma PassStartsOver(s: State, v: View, inode: int)
    requires Tracks(s, v, inode) && |s.log| < Offset(s)
    ensures Tracks(Next(s, inode, Pass), if s.log == "" then v else View(s.delivered, s.log[..PassEnd(s)]), inode)
  {
    hide *;
    SameOffset(s, v, inode);
    PassMoves(s, inode);
    EndInLog(s);
    if s.log != "" {
      StartingOver(s, inode, s.log[..PassEnd(s)], Next(s, inode, Pass));
    }
  }

  lemma PassTracks(s: State, v: View, inode: int)
    requires Tracks(s, v, inode)
    ensures Tracks(Next(s, inode, Pass), PassView(s, v), inode)
  {
    EndInLog(s);
    hide *;
    if |s.log| >= Offset(s) {
      PassReadsOn(s, v, inode, s.log[Offset(s)..PassEnd(s)]);
      PassViewReads(s, v);
    } else {
      PassStartsOver(s, v, inode);
      PassViewStartsOver(s, v);
    }
  }

  lemma PassViewReads(s: State, v: View)
    requires |s.log| >= Offset(s)
    ensures PassEnd(s) >= Offset(s) && PassView(s, v) == View(v.before, v.seen + s.log[Offset(s)..PassEnd(s)])
  {
  }

  lemma PassViewStartsOver(s: State, v: View)
    requires |s.log| < Offset(s)
    ensures PassView(s, v) == if s.log == "" then v else View(s.delivered, s.log[..PassEnd(s)])
  {
  }

  lemma SameOffset(s: State, v: View, inode: int)
    requires Tracks(s, v, inode)
    ensures Offset(s) == |v.seen| && (s.cursor.Some? ==> s.cursor.value.inode == inode)
  {
  }

  lemma EndInLog(s: State)
    ensures PassEnd(s) <= |s.log| && (|s.log| >= Offset(s) ==> PassEnd(s) >= Offset(s))
    ensures |s.log| >= Offset(s) ==> PassEnd(s) == Min(|s.log|, Offset(s) + MAX_BYTES_PER_RUN)
  {
  }

  // ----- the log is never truncated -----

  /** Up to the cursor the log is what the worker has seen. */
  function LogView(s: State): View
    requires Offset(s) <= |s.log|
  {
    View([], s.log[..Offset(s)])
  }

  predicate Faithful(s: State, inode: int) {
    Offset(s) <= |s.log| && Tracks(s, LogView(s), inode)
  }

  /** A crashed attempt wrote lines of the log, starting where the finished passes had got to. */
  predicate Repeats(a: Attempt, log: string) {
    && a.start + |a.lines| <= |CompleteLines(log)|
    && a.lines == CompleteLines(log)[a.start..a.start + |a.lines|]
  }

  predicate AttemptsRepeat(s: State) {
    forall i :: 0 <= i < |s.crashed| ==> Repeats(s.crashed[i], s.log)
  }

  lemma AttemptsLater(crashed: seq<Attempt>, log: string, text: string)
    requires forall i :: 0 <= i < |crashed| ==> Repeats(crashed[i], log)
    ensures forall i :: 0 <= i < |crashed| ==> Repeats(crashed[i], log + text)
  {
    MoreLog(log, text);
    hide CompleteLines;
    forall i | 0 <= i < |crashed| ensures Repeats(crashed[i], log + text) {
      var a := crashed[i];
      assert CompleteLines(log + text)[a.start..a.start + |a.lines|]
             == CompleteLines(log)[a.start..a.start + |a.lines|];
    }
  }

  /** A pass leaves the cursor as far into the log as its bound allows. */
  lemma PassFaithful(s: State, inode: int)
    requires Faithful(s, inode)
    ensures Faithful(Next(s, inode, Pass), inode)
    ensures Offset(Next(s, inode, Pass)) == Min(|s.log|, Offset(s) + MAX_BYTES_PER_RUN)
    ensures Next(s, inode, Pass).log == s.log
  {
    var v, after := LogView(s), Next(s, inode, Pass);
    PassTracks(s, v, inode);
    EndInLog(s);
    LogStays(s, inode);
    hide CompleteLines, Rest, Next, PassEnd, Tracks;
    Extended(s.log, Offset(s), PassEnd(s));
    assert PassView(s, v) == View([], s.log[..PassEnd(s)]);
    SameOffset(after, PassView(s, v), inode);
    assert LogView(after) == PassView(s, v);
  }

  lemma Extended(log: string, o: nat, end: nat)
    requires o <= end <= |log|
    ensures log[..o] + log[o..end] == log[..end]
  {
  }

  lemma LogStays(s: State, inode: int)
    ensures Next(s, inode, Pass).log == s.log
  {
    hide PassCursor, PassLines;
  }

  /** What a pass delivers is the lines that the log, up to its new cursor, has beyond the old one. */
  lemma PassReads(s: State, inode: int)
    requires Faithful(s, inode)
    ensures s.delivered + PassLines(s.cursor, inode, s.log)
            == CompleteLines(s.log[..Min(|s.log|, Offset(s) + MAX_BYTES_PER_RUN)])
  {
    PassFaithful(s, inode);
    PassShape(s, inode);
    hide CompleteLines, Rest, PassLines, PassCursor;
  }

  lemma CrashRepeats(s: State, inode: int, written: nat)
    requires Faithful(s, inode) && written <= |PassLines(s.cursor, inode, s.log)|
    ensures Repeats(Attempt(|s.delivered|, PassLines(s.cursor, inode, s.log)[..written]), s.log)
  {
    PassReads(s, inode);
    PrefixLines(s.log, Min(|s.log|, Offset(s) + MAX_BYTES_PER_RUN));
    hide CompleteLines, PassLines, Faithful;
    SliceOfMore(CompleteLines(s.log), s.delivered, PassLines(s.cursor, inode, s.log), written);
  }

  lemma SliceOfMore(all: seq<string>, first: seq<string>, second: seq<string>, n: nat)
    requires first + second <= all && n <= |second|
    ensures second[..n] == all[|first|..|first| + n]
  {
  }

  lemma StepFaithful(s: State, inode: int, step: Step)
    requires Faithful(s, inode) && AttemptsRepeat(s)
    ensures Faithful(Next(s, inode, step), inode) && AttemptsRepeat(Next(s, inode, step))
  {
    hide CompleteLines, Rest, PassLines, PassCursor, Repeats;
    match step
    case Append(text) =>
      assert (s.log + text)[..Offset(s)] == s.log[..Offset(s)];
      AttemptsLater(s.crashed, s.log, text);
    case Pass =>
      PassFaithful(s, inode);
    case CrashedPass(written) =>
      CrashRepeats(s, inode, Min(written, |PassLines(s.cursor, inode, s.log)|));
  }

  lemma {:induction false} RunFaithful(steps: seq<Step>, inode: int)
    ensures Faithful(Exec(steps, inode), inode) && AttemptsRepeat(Exec(steps, inode))
    decreases |steps|
  {
    EmptyText();
    hide Next, CompleteLines, Rest;
    if steps == [] {
      assert NEW_LOG.log[..0] == "";
    } else {
      RunFaithful(steps[..|steps| - 1], inode);
      StepFaithful(Exec(steps[..|steps| - 1], inode), inode, steps[|steps| - 1]);
    }
  }

  /**
   However appends, passes and crashes interleave: the lines delivered and the carried rest are
   exactly the log up to the cursor, so every complete line is ingested once, in order; and a
   crashed attempt only wrote lines that come next in the log, so it can repeat but not skip.
   */
  lemma {:induction false} EveryLineOnce(steps: seq<Step>, inode: int)
    ensures var s := Exec(steps, inode);
            && Offset(s) <= |s.log| && Unlines(s.delivered) + Carried(s) == s.log[..Offset(s)]
            && s.delivered <= CompleteLines(s.log)
            && AttemptsRepeat(s)
  {
    hide Next, Exec, CompleteLines, Rest;
    var s := Exec(steps, inode);
    RunFaithful(steps, inode);
    LinesAndRest(s.log[..Offset(s)]);
    PrefixLines(s.log, Offset(s));
    assert s.delivered == CompleteLines(s.log[..Offset(s)]);
  }

  function Passes(n: nat): seq<Step> {
    seq(n, _ => Pass)
  }

  lemma OnePassMore(s: State, steps: seq<Step>, inode: int, n: nat)
    requires n > 0
    ensures Run(s, steps + Passes(n), inode) == Next(Run(s, steps + Passes(n - 1), inode), inode, Pass)
  {
    hide Next;
    assert (steps + Passes(n))[..|steps| + n - 1] == steps + Passes(n - 1);
  }

  lemma {:induction false} PassesAdvance(steps: seq<Step>, inode: int, n: nat)
    ensures var s, after := Exec(steps, inode), Exec(steps + Passes(n), inode);
            after.log == s.log && Offset(after) == Min(|s.log|, Offset(s) + n * MAX_BYTES_PER_RUN)
    decreases n
  {
    RunFaithful(steps, inode);
    hide Next, CompleteLines, Rest;
    if n == 0 {
      assert steps + Passes(0) == steps;
    } else {
      PassesAdvance(steps, inode, n - 1);
      RunFaithful(steps + Passes(n - 1), inode);
      OnePassMore(NEW_LOG, steps, inode, n);
      PassFaithful(Exec(steps + Passes(n - 1), inode), inode);
    }
  }

  /** Once nothing is appended any more, passes catch up and deliver every complete line of the log. */
  lemma {:induction false} PassesCatchUp(steps: seq<Step>, inode: int, n: nat)
    requires Offset(Exec(steps, inode)) + n * MAX_BYTES_PER_RUN >= |Exec(steps, inode).log|
    ensures Exec(steps + Passes(n), inode).delivered == CompleteLines(Exec(steps, inode).log)
  {
    hide Next, Exec, CompleteLines, Rest;
    var s := Exec(steps, inode);
    PassesAdvance(steps, inode, n);
    RunFaithful(steps + Passes(n), inode);
    assert s.log[..|s.log|] == s.log;
  }

  // ----- the log is truncated -----

  /** `copytruncate` empties the file and keeps its inode. */
  function Truncated(s: State): State {
    s.(log := "")
  }

  /** What becomes of text written after a truncation. */
  datatype Fate = Unread | Reread | Skipped

  /** The fate after one more finished pass. */
  function FateAfterPass(fate: Fate, offset: nat, length: nat): Fate {
    if fate != Unread then fate else if length >= offset then Skipped else if length > 0 then Reread else Unread
  }

  /**
   Settled by the first finished pass that finds something to go by: a log shorter than the old
   offset is read from its start, one that has grown back to it is read from the old offset on.
   Also the length of the log.
   */
  function FateOf(offset: nat, steps: seq<Step>): (Fate, nat) {
    if steps == [] then (Unread, 0)
    else
      var (fate, length) := FateOf(offset, steps[..|steps| - 1]);
      match steps[|steps| - 1]
      case Append(text) => (fate, length + |text|)
      case Pass => (FateAfterPass(fate, offset, length), length)
      case CrashedPass(_) => (fate, length)
  }

  /** The worker's view after a truncation, from its view `v` and state `s0` before. */
  predicate ViewAfter(s0: State, v: View, s: State, fate: Fate, seen: View) {
    match fate
    case Unread => seen == v
    case Reread => Offset(s) <= |s.log| && seen == View(s0.delivered, s.log[..Offset(s)])
    case Skipped => Offset(s0) <= Offset(s) <= |s.log| && seen == View(v.before, v.seen + s.log[Offset(s0)..Offset(s)])
  }

  lemma AppendKeepsView(s0: State, v: View, s: State, fate: Fate, seen: View, text: string)
    requires ViewAfter(s0, v, s, fate, seen)
    ensures ViewAfter(s0, v, s.(log := s.log + text), fate, seen)
  {
    if fate == Reread {
      assert (s.log + text)[..Offset(s)] == s.log[..Offset(s)];
    } else if fate == Skipped {
      assert (s.log + text)[Offset(s0)..Offset(s)] == s.log[Offset(s0)..Offset(s)];
    }
  }

  /** The cursor a pass leaves stands where the pass ended, unless the log was empty. */
  lemma PassOffset(s: State, inode: int)
    requires s.cursor.Some? ==> s.cursor.value.inode == inode
    ensures var after := Next(s, inode, Pass);
            && after.log == s.log
            && (if s.log == "" && Offset(s) > 0 then after == s else Offset(after) == PassEnd(s))
  {
    PassMoves(s, inode);
    LogStays(s, inode);
    EndInLog(s);
    hide Next, PassEnd, CompleteLines, Rest;
  }

  lemma PassSettlesFate(s0: State, v: View, s: State, inode: int)
    requires Tracks(s, v, inode) && Tracks(s0, v, inode) && s.delivered == s0.delivered
    ensures var after, fate := Next(s, inode, Pass), FateAfterPass(Unread, Offset(s0), |s.log|);
            && ViewAfter(s0, v, after, fate, PassView(s, v))
            && (fate == Unread ==> after.delivered == s0.delivered)
  {
    SameOffset(s, v, inode);
    SameOffset(s0, v, inode);
    PassOffset(s, inode);
    EndInLog(s);
    hide CompleteLines, Rest, Next, PassEnd, Tracks, Offset;
  }

  lemma PassKeepsReread(s0: State, v: View, s: State, seen: View, inode: int)
    requires ViewAfter(s0, v, s, Reread, seen) && Tracks(s, seen, inode)
    ensures ViewAfter(s0, v, Next(s, inode, Pass), Reread, PassView(s, seen))
  {
    SameOffset(s, seen, inode);
    PassOffset(s, inode);
    EndInLog(s);
    hide CompleteLines, Rest, Next, PassEnd, Tracks, Offset;
    Extended(s.log, Offset(s), PassEnd(s));
  }

  lemma PassKeepsSkipped(s0: State, v: View, s: State, seen: View, inode: int)
    requires ViewAfter(s0, v, s, Skipped, seen) && Tracks(s, seen, inode)
    ensures ViewAfter(s0, v, Next(s, inode, Pass), Skipped, PassView(s, seen))
  {
    SameOffset(s, seen, inode);
    PassOffset(s, inode);
    EndInLog(s);
    hide CompleteLines, Rest, Next, PassEnd, Tracks, Offset;
    SkippedOn(v.seen, s.log, Offset(s0), Offset(s), PassEnd(s));
  }

  lemma PassKeepsView(s0: State, v: View, s: State, fate: Fate, seen: View, inode: int)
    requires ViewAfter(s0, v, s, fate, seen) && Tracks(s, seen, inode) && Tracks(s0, v, inode)
    requires fate == Unread ==> s.delivered == s0.delivered
    ensures var after, fate' := Next(s, inode, Pass), FateAfterPass(fate, Offset(s0), |s.log|);
            && ViewAfter(s0, v, after, fate', PassView(s, seen))
            && (fate' == Unread ==> after.delivered == s0.delivered)
  {
    hide Next, Tracks, PassView, Offset;
    match fate
    case Unread =>
      assert seen == v;
      PassSettlesFate(s0, v, s, inode);
    case Reread =>
      PassKeepsReread(s0, v, s, seen, inode);
    case Skipped =>
      PassKeepsSkipped(s0, v, s, seen, inode);
  }

  lemma SkippedOn(seen: string, log: string, from: nat, o: nat, end: nat)
    requires from <= o <= end <= |log|
    ensures seen + log[from..o] + log[o..end] == seen + log[from..end]
  {
    assert log[from..o] + log[o..end] == log[from..end];
  }

  /**
   After a truncation, whatever is appended and however passes and crashes fall: the worker has
   delivered exactly the lines of its view. Text that is reread is delivered from its very first
   line; of text that is skipped everything before the old offset is lost, and what follows is
   read on from the rest carried over. The unread end of the old log is lost either way. Since it
   starts from any tracked state, the lemma covers any number of truncations.
   */
  lemma {:induction false} AcrossTruncation(s0: State, v: View, steps: seq<Step>, inode: int) returns (seen: View)
    requires Tracks(s0, v, inode)
    ensures var s, (fate, length) := Run(Truncated(s0), steps, inode), FateOf(Offset(s0), steps);
            && |s.log| == length && Tracks(s, seen, inode) && ViewAfter(s0, v, s, fate, seen)
            && (fate == Unread ==> s.delivered == s0.delivered)
    decreases |steps|
  {
    hide CompleteLines, Rest, PassLines, PassCursor, ViewAfter;
    if steps == [] {
      seen := v;
      UnreadView(s0, v);
    } else {
      var init, last := steps[..|steps| - 1], steps[|steps| - 1];
      var s := Run(Truncated(s0), init, inode);
      var (fate, length) := FateOf(Offset(s0), init);
      seen := AcrossTruncation(s0, v, init, inode);
      if last.Pass? {
        PassKeepsView(s0, v, s, fate, seen, inode);
        PassTracks(s, seen, inode);
        seen := PassView(s, seen);
      } else if last.Append? {
        AppendKeepsView(s0, v, s, fate, seen, last.text);
      } else {
        CrashKeepsView(s0, v, s, fate, seen, inode, last.written);
      }
    }
  }

  lemma UnreadView(s0: State, v: View)
    ensures ViewAfter(s0, v, Truncated(s0), Unread, v)
  {
  }

  lemma CrashKeepsView(s0: State, v: View, s: State, fate: Fate, seen: View, inode: int, written: nat)
    requires ViewAfter(s0, v, s, fate, seen)
    ensures ViewAfter(s0, v, Next(s, inode, CrashedPass(written)), fate, seen)
  {
  }

  lemma GrownAgain(s0: State, v: View, empty: nat, text: string, inode: int)
    requires Tracks(s0, v, inode) && Offset(s0) > 0
    ensures Run(Truncated(s0), Passes(empty) + [Append(text), Pass], inode) == Next(s0.(log := text), inode, Pass)
    ensures FateOf(Offset(s0), Passes(empty) + [Append(text), Pass]).0 == FateAfterPass(Unread, Offset(s0), |text|)
  {
    hide Next, Tracks;
    EmptyPasses(s0, v, empty, inode);
    OneMoreStep(Truncated(s0), Passes(empty), Append(text), inode);
    OneMoreStep(Truncated(s0), Passes(empty) + [Append(text)], Pass, inode);
    AppendToEmpty(Truncated(s0), inode, text);
    var most, steps := Passes(empty) + [Append(text)], Passes(empty) + [Append(text), Pass];
    assert most + [Pass] == steps;
    assert steps[..|steps| - 1] == most && most[..|most| - 1] == Passes(empty);
  }

  /**
   A run with one truncation, in lines: after passes over the emptied log, `text` is read from its
   start exactly when it is still shorter than the old offset at the next finished pass.
   */
  lemma TruncatedLogRereadIff(before: seq<Step>, empty: nat, text: string, inode: int)
    requires text != "" && Offset(Exec(before, inode)) > 0
    ensures var s0 := Exec(before, inode);
            var o, steps := Offset(s0), Passes(empty) + [Append(text), Pass];
            && o <= |s0.log| && s0.delivered == CompleteLines(s0.log[..o])
            && Run(Truncated(s0), steps, inode).delivered
               == (if |text| < o then s0.delivered + CompleteLines(text[..Min(|text|, MAX_BYTES_PER_RUN)])
                   else CompleteLines(s0.log[..o] + text[o..Min(|text|, o + MAX_BYTES_PER_RUN)]))
            && (FateOf(o, steps).0 == Reread <==> |text| < o)
  {
    var s0 := Exec(before, inode);
    RunFaithful(before, inode);
    GrownAgain(s0, LogView(s0), empty, text, inode);
    hide Exec, Run, Next, CompleteLines, Rest, FateOf;
    PassTracks(s0.(log := text), LogView(s0), inode);
    assert [] + CompleteLines(s0.log[..Offset(s0)]) == CompleteLines(s0.log[..Offset(s0)]);
    hide Rest;
    if |text| >= Offset(s0) {
      var seen := s0.log[..Offset(s0)] + text[Offset(s0)..Min(|text|, Offset(s0) + MAX_BYTES_PER_RUN)];
      assert [] + CompleteLines(seen) == CompleteLines(seen);
    }
  }

  lemma AppendToEmpty(s: State, inode: int, text: string)
    requires s.log == ""
    ensures Next(s, inode, Append(text)) == s.(log := text)
  {
    assert "" + text == text;
  }

  /** Passes over the emptied log change nothing. */
  lemma {:induction false} EmptyPasses(s0: State, v: View, n: nat, inode: int)
    requires Tracks(s0, v, inode) && Offset(s0) > 0
    ensures Run(Truncated(s0), Passes(n), inode) == Truncated(s0)
    ensures FateOf(Offset(s0), Passes(n)) == (Unread, 0)
    decreases n
  {
    hide Next, CompleteLines, Rest;
    if n > 0 {
      EmptyPasses(s0, v, n - 1, inode);
      assert Passes(n)[..n - 1] == Passes(n - 1);
      PassMoves(Truncated(s0), inode);
    }
  }

  /** Lines written out read back as those lines. */
  lemma UnlinesReadBack(lines: seq<string>)
    requires Lines(lines)
    ensures CompleteLines(Unlines(lines)) == lines && Rest(Unlines(lines)) == ""
  {
    hide CompleteLines, Rest, Unlines;
    LinesAndRest(Unlines(lines));
    assert Unlines(lines) + "" == Unlines(lines);
    OnlyOneReading(CompleteLines(Unlines(lines)), Rest(Unlines(lines)), lines, "");
  }

  lemma OneOrTwoLines(a: string, b: string)
    requires OneLine(a) && OneLine(b)
    ensures CompleteLines(a + "\n") == [a] && CompleteLines(a + "\n" + b + "\n") == [a, b]
  {
    assert [a, b][..1] == [a] && [a][..0] == [];
    assert Unlines([]) == "" && Unlines([a]) == "" + a + "\n" == a + "\n";
    assert Unlines([a, b]) == a + "\n" + b + "\n";
    UnlinesReadBack([a]);
    UnlinesReadBack([a, b]);
  }

  lemma OneMoreStep(s: State, steps: seq<Step>, last: Step, inode: int)
    ensures Run(s, steps + [last], inode) == Next(Run(s, steps, inode), inode, last)
  {
    hide Next;
    assert (steps + [last])[..|steps|] == steps;
  }

  lemma AppendedOnce(text: string, inode: int)
    ensures Exec([Append(text)], inode) == NEW_LOG.(log := text)
  {
    hide Run, Next;
    OneMoreStep(NEW_LOG, [], Append(text), inode);
    assert [] + [Append(text)] == [Append(text)];
    NothingRun(inode);
    AppendToEmpty(NEW_LOG, inode, text);
  }

  lemma NothingRun(inode: int)
    ensures Run(NEW_LOG, [], inode) == NEW_LOG
  {
  }

  lemma ReadOnce(text: string, inode: int)
    requires 0 < |text| <= MAX_BYTES_PER_RUN
    ensures var s := Exec([Append(text), Pass], inode); s.log == text && Offset(s) == |text|
  {
    AppendedOnce(text, inode);
    RunFaithful([Append(text)], inode);
    OneMoreStep(NEW_LOG, [Append(text)], Pass, inode);
    assert [Append(text)] + [Pass] == [Append(text), Pass];
    hide Run, Next, Faithful, AttemptsRepeat;
    PassFaithful(Exec([Append(text)], inode), inode);
  }

  /** For instance: emptied, seen empty, and grown back past the old offset, the log loses its first line. */
  lemma TruncatedTextIsSkipped(inode: int)
    ensures var s0 := Exec([Append("old\n"), Pass], inode);
            var s := Run(Truncated(s0), Passes(1) + [Append("new\nnext\n"), Pass], inode);
            s0.delivered == ["old"] && s.delivered == ["old", "next"] && CompleteLines("new\nnext\n") == ["new", "next"]
  {
    hide Exec, Run, Next, CompleteLines, Rest, FateOf;
    ReadOnce("old\n", inode);
    TruncatedLogRereadIff([Append("old\n"), Pass], 1, "new\nnext\n", inode);
    OneOrTwoLines("old", "next");
    OneOrTwoLines("new", "next");
    assert "old" + "\n" == "old\n" && "new" + "\n" + "next" + "\n" == "new\nnext\n";
    assert "old\n"[..4] == "old\n" && "new\nnext\n"[4..9] == "next\n";
    assert "old\n" + "next\n" == "old" + "\n" + "next" + "\n";
  }
}
