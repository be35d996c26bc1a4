/**
 The log ring with unbounded cursors, and the list of lines it is meant to keep.

 `Log` is what the ring would be if its cursors never wrapped: it remembers every byte ever committed and
 every line ever finalized, and `head` is the first line still in the history. The concrete ring of
 LogRing.dfy, with 32-bit cursors and one byte array, is proved to do exactly these steps.
*/
module LogModel {
  type byte = b: int | 0 <= b < 256

  const NEWLINE: byte := 10
  const BUF: nat := 0x2_0000
  const LINES: nat := 0x2000
  const MAX_LINE: nat := 0x4000
  /** Every line born within this many bytes of the end of the stream is kept: five eighths of the buffer. */
  const KEEP: nat := 0x1_4000

  /** A finalized line: the logical offset of its first byte, the number of stream bytes before it, its text. */
  datatype Line = Line(start: nat, born: int, text: seq<byte>)

  datatype Log = Log(stream: seq<byte>, pos: nat, lineStart: nat, cur: seq<byte>, lines: seq<Line>, head: nat)

  const EMPTY := Log([], 0, 0, [], [], 0)

  // ----- the steps of the ring -----

  function Finish(s: Log, text: seq<byte>, b: byte): Log {
    Log(s.stream + [b], s.pos + 1, s.pos + 1, [],
        s.lines + [Line(s.lineStart, |s.stream| - |s.cur|, text)],
        if |s.lines| - s.head == LINES then s.head + 1 else s.head)
  }

  function Put(s: Log, b: byte): Log {
    if b == NEWLINE then Finish(s, s.cur, b)
    else if |s.cur| + 1 == MAX_LINE then Finish(s, s.cur + [b], b)
    else s.(stream := s.stream + [b], pos := s.pos + 1, cur := s.cur + [b])
  }

  function PutAll(s: Log, chunk: seq<byte>): Log {
    if chunk == [] then s else Put(PutAll(s, chunk[..|chunk| - 1]), chunk[|chunk| - 1])
  }

  function DropDead(s: Log): Log
    decreases |s.lines| - s.head
  {
    if s.head < |s.lines| && s.pos - s.lines[s.head].start > BUF then DropDead(s.(head := s.head + 1)) else s
  }

  function Pad(pos: nat): nat {
    (BUF - pos % BUF) % BUF
  }

  /** The unfinished line moves past the physical end: the skipped tail and the copy both advance `pos`. */
  function Move(s: Log): Log {
    s.(lineStart := s.pos + Pad(s.pos), pos := s.pos + Pad(s.pos) + |s.cur|)
  }

  function Relocate(s: Log): Log {
    DropDead(Move(s))
  }

  function Imbue(s: Log, need: nat): Log {
    if BUF - s.pos % BUF < need then Relocate(s) else s
  }

  function Commit(s: Log, chunk: seq<byte>): Log {
    var t := DropDead(PutAll(s, chunk));
    if t.cur != [] && t.pos % BUF == 0 then Relocate(t) else t
  }

  // ----- the reference: how a stream of bytes splits into lines -----

  function Texts(lines: seq<Line>): seq<seq<byte>> {
    seq(|lines|, i requires 0 <= i < |lines| => lines[i].text)
  }

  /** The finalized lines of a stream and its unfinished rest, one byte at a time. */
  function Split(bytes: seq<byte>): (seq<seq<byte>>, seq<byte>) {
    if bytes == [] then ([], []) else
      var (lines, cur) := Split(bytes[..|bytes| - 1]);
      var b := bytes[|bytes| - 1];
      if b == NEWLINE then (lines + [cur], [])
      else if |cur| + 1 == MAX_LINE then (lines + [cur + [b]], [])
      else (lines, cur + [b])
  }

  /** The stream that lines came from: a full line was cut without a newline, every other one lost its own. */
  function Joined(lines: seq<seq<byte>>): seq<byte> {
    if lines == [] then [] else
      var last := lines[|lines| - 1];
      Joined(lines[..|lines| - 1]) + last + if |last| == MAX_LINE then [] else [NEWLINE]
  }

  /** What a split of a stream is, without saying how to compute it. */
  ghost predicate IsSplit(bytes: seq<byte>, lines: seq<seq<byte>>, cur: seq<byte>) {
    && (forall i :: 0 <= i < |lines| ==> |lines[i]| <= MAX_LINE && NEWLINE !in lines[i])
    && |cur| < MAX_LINE && NEWLINE !in cur
    && Joined(lines) + cur == bytes
  }

  lemma {:induction false} SplitIsASplit(bytes: seq<byte>)
    ensures IsSplit(bytes, Split(bytes).0, Split(bytes).1)
  {
    if bytes != [] {
      var rest, b := bytes[..|bytes| - 1], bytes[|bytes| - 1];
      SplitIsASplit(rest);
      var (lines, cur) := Split(rest);
      var (lines', cur') := Split(bytes);
      assert bytes == rest + [b];
      if |lines'| > |lines| {
        assert lines'[..|lines'| - 1] == lines;
      }
    }
  }

  lemma {:induction false} SplitIsUnique(bytes: seq<byte>, lines: seq<seq<byte>>, cur: seq<byte>)
    requires IsSplit(bytes, lines, cur)
    ensures Split(bytes) == (lines, cur)
    decreases |bytes|
  {
    if bytes != [] {
      var rest, b := bytes[..|bytes| - 1], bytes[|bytes| - 1];
      assert bytes == rest + [b];
      if cur != [] {
        var before := cur[..|cur| - 1];
        assert cur == before + [b];
        assert Joined(lines) + before == rest;
        SplitIsUnique(rest, lines, before);
      } else {
        var front, last := lines[..|lines| - 1], lines[|lines| - 1];
        assert lines == front + [last];
        if |last| == MAX_LINE {
          var before := last[..|last| - 1];
          assert last == before + [b];
          assert Joined(front) + before == rest;
          SplitIsUnique(rest, front, before);
        } else {
          assert Joined(front) + last == rest;
          SplitIsUnique(rest, front, last);
        }
      }
    }
  }

  // ----- what every step keeps: layout -----

  /** The cursors, the caps, and every kept line in one physical piece before the unfinished one. */
  ghost predicate Layout(s: Log) {
    && s.pos == s.lineStart + |s.cur| && |s.cur| < MAX_LINE && |s.cur| <= |s.stream|
    && s.head <= |s.lines| && |s.lines| - s.head <= LINES
    && (forall n :: s.head <= n < |s.lines| ==> s.lines[n].start % BUF + |s.lines[n].text| <= BUF)
    && (forall n :: s.head <= n < |s.lines| ==> s.lines[n].start + |s.lines[n].text| <= s.lineStart)
    && (forall m, n :: s.head <= m < n < |s.lines| ==> s.lines[m].start <= s.lines[n].start)
  }

  /** The unfinished line and the write cursor lie in the physical lap that begins at `lap`. */
  ghost predicate InLap(s: Log, lap: nat) {
    lap % BUF == 0 && lap <= s.lineStart && s.pos <= lap + BUF
  }

  ghost predicate Alive(s: Log) {
    forall n :: s.head <= n < |s.lines| ==> s.pos - s.lines[n].start <= BUF
  }

  /** The number of stream bytes before the first byte of line `n`. */
  function Born(lines: seq<seq<byte>>, n: nat): nat
    requires n <= |lines|
  {
    |Joined(lines[..n])|
  }

  /** The lines are the split of the stream, and know when they were born. */
  ghost predicate Faithful(s: Log) {
    && (Texts(s.lines), s.cur) == Split(s.stream)
    && forall n :: 0 <= n < |s.lines| ==> s.lines[n].born == Born(Texts(s.lines), n)
  }

  /**
   Where the waste of the wraps went. `prev` is the lag (logical offset minus bytes written) before the last
   relocation, which came after `at` bytes at the lap `base`.
  */
  ghost predicate Audited(s: Log, prev: int, at: nat, base: nat) {
    var lag := s.pos - |s.stream|;
    && base % BUF == 0 && base <= s.lineStart && at <= |s.stream|
    && (s.pos - base) - (|s.stream| - at) < MAX_LINE
    && 0 <= lag - prev <= 3 * (BUF / 8)
    && (forall n :: 0 <= n < |s.lines| ==> s.lines[n].born <= |s.stream|)
    && (forall n :: 0 <= n < |s.lines| ==>
          || s.lines[n].start - s.lines[n].born == lag
          || (s.lines[n].start - s.lines[n].born == prev && s.lines[n].born <= at)
          || |s.stream| - s.lines[n].born > KEEP)
  }

  /** A line that has left the history was pushed out by newer lines, or is old. */
  ghost predicate Retained(s: Log) {
    forall n :: 0 <= n < s.head && n < |s.lines| ==> |s.lines| - n > LINES || |s.stream| - s.lines[n].born > KEEP
  }

  /** What holds between two operations. */
  ghost predicate AtRest(s: Log) {
    && Layout(s) && Alive(s) && Faithful(s) && Retained(s)
    && s.lineStart % BUF + |s.cur| < BUF
    && exists prev, at, base :: Audited(s, prev, at, base)
  }

  /** Where the ring relocates: mid-line exactly at the physical end, or in its last quarter. */
  predicate AtEnd(s: Log) {
    (s.cur != [] && s.pos % BUF == 0) || s.pos % BUF > 3 * (BUF / 4)
  }

  function Lap(pos: nat): nat {
    pos - pos % BUF
  }

  lemma LapOf(start: nat, len: nat)
    requires start % BUF + len < BUF
    ensures (start + len) % BUF == start % BUF + len
    ensures Lap(start + len) % BUF == 0 && Lap(start + len) <= start && start + len < Lap(start + len) + BUF
  {
    var q := start / BUF;
    assert start + len == q * BUF + (start % BUF + len);
  }

  lemma InLapMod(lap: nat, x: nat)
    requires lap % BUF == 0 && lap <= x < lap + BUF
    ensures x % BUF == x - lap
  {
  }

  lemma PutLayout(s: Log, b: byte, lap: nat)
    requires Layout(s) && InLap(s, lap) && s.pos < lap + BUF
    ensures Layout(Put(s, b)) && InLap(Put(s, b), lap)
  {
    InLapMod(lap, s.lineStart);
  }

  lemma PutFaithful(s: Log, b: byte)
    requires Layout(s) && Faithful(s)
    ensures Faithful(Put(s, b))
  {
    var t := Put(s, b);
    assert t.stream[..|t.stream| - 1] == s.stream;
    if |t.lines| > |s.lines| {
      var line := t.lines[|s.lines|];
      assert Texts(t.lines) == Texts(s.lines) + [line.text];
      SplitIsASplit(s.stream);
      assert forall n :: 0 <= n <= |s.lines| ==> Texts(t.lines)[..n] == Texts(s.lines)[..n];
      assert Texts(s.lines)[..|s.lines|] == Texts(s.lines);
    }
  }

  lemma PutAudited(s: Log, b: byte, prev: int, at: nat, base: nat)
    requires Layout(s) && Retained(s) && Audited(s, prev, at, base)
    ensures Retained(Put(s, b)) && Audited(Put(s, b), prev, at, base)
  {
  }

  lemma PutKeeps(s: Log, b: byte, lap: nat, prev: int, at: nat, base: nat)
    requires Layout(s) && Faithful(s) && Retained(s) && InLap(s, lap) && s.pos < lap + BUF
    requires Audited(s, prev, at, base)
    ensures var t := Put(s, b); Layout(t) && Faithful(t) && Retained(t) && InLap(t, lap)
    ensures Audited(Put(s, b), prev, at, base)
  {
    PutLayout(s, b, lap);
    PutFaithful(s, b);
    PutAudited(s, b, prev, at, base);
  }

  lemma {:induction false} PutAllKeeps(s: Log, chunk: seq<byte>, lap: nat, prev: int, at: nat, base: nat)
    requires Layout(s) && Faithful(s) && Retained(s) && InLap(s, lap) && s.pos + |chunk| <= lap + BUF
    requires Audited(s, prev, at, base)
    ensures var t := PutAll(s, chunk); Layout(t) && Faithful(t) && Retained(t) && InLap(t, lap)
    ensures Audited(PutAll(s, chunk), prev, at, base)
    ensures PutAll(s, chunk).pos == s.pos + |chunk| && PutAll(s, chunk).stream == s.stream + chunk
  {
    hide Layout, Faithful, Retained, InLap, Audited;
    if chunk != [] {
      var front := chunk[..|chunk| - 1];
      PutAllKeeps(s, front, lap, prev, at, base);
      PutKeeps(PutAll(s, front), chunk[|chunk| - 1], lap, prev, at, base);
      assert chunk == front + [chunk[|chunk| - 1]];
    }
  }

  lemma HeadPasses(s: Log, prev: int, at: nat, base: nat)
    requires Layout(s) && Retained(s) && Audited(s, prev, at, base)
    requires s.head < |s.lines| && s.pos - s.lines[s.head].start > BUF
    ensures var t := s.(head := s.head + 1); Layout(t) && Retained(t) && Audited(t, prev, at, base)
  {
  }

  lemma HeadAlive(s: Log)
    requires Layout(s) && (s.head < |s.lines| ==> s.pos - s.lines[s.head].start <= BUF)
    ensures Alive(s)
  {
  }

  /** Eviction only moves the head, and only past lines that are old by the retention bound. */
  lemma {:induction false} DropKeeps(s: Log, prev: int, at: nat, base: nat)
    requires Layout(s) && Retained(s) && Audited(s, prev, at, base)
    ensures var t := DropDead(s); t == s.(head := t.head) && Layout(t) && Alive(t) && Retained(t)
    ensures Audited(DropDead(s), prev, at, base)
    decreases |s.lines| - s.head
  {
    hide Layout, Retained, Audited, Alive;
    if s.head < |s.lines| && s.pos - s.lines[s.head].start > BUF {
      HeadPasses(s, prev, at, base);
      DropKeeps(s.(head := s.head + 1), prev, at, base);
    } else {
      HeadAlive(s);
    }
  }

  lemma PadIs(pos: nat)
    ensures Pad(pos) == (if pos % BUF == 0 then 0 else BUF - pos % BUF) && (pos + Pad(pos)) % BUF == 0
  {
    assert pos == pos / BUF * BUF + pos % BUF;
  }

  /** The waste of one wrap: less than a quarter of padding and an eighth of copy, and no overlap with the source. */
  lemma MoveCost(s: Log, lap: nat)
    requires Layout(s) && AtEnd(s) && InLap(s, lap)
    ensures Pad(s.pos) < BUF / 4 && |s.cur| < BUF / 8
    ensures (s.pos + Pad(s.pos)) % BUF == 0
    ensures |s.cur| <= s.lineStart % BUF && s.lineStart % BUF + |s.cur| <= BUF
  {
    hide Pad;
    PadIs(s.pos);
    if s.lineStart < lap + BUF {
      InLapMod(lap, s.lineStart);
    }
    if s.pos < lap + BUF {
      InLapMod(lap, s.pos);
    }
  }

  lemma FarFromBase(pos: nat, base: nat)
    requires base % BUF == 0 && base <= pos
    ensures pos - base >= pos % BUF && (pos % BUF == 0 && base < pos ==> pos - base >= BUF)
  {
    var q, p := base / BUF, pos / BUF;
    assert base == q * BUF && pos == p * BUF + pos % BUF && q <= p;
  }

  lemma MoveAudited(s: Log, lap: nat, prev: int, at: nat, base: nat)
    requires Layout(s) && InLap(s, lap) && Audited(s, prev, at, base) && AtEnd(s)
    ensures Audited(Move(s), s.pos - |s.stream|, |s.stream|, s.pos + Pad(s.pos))
  {
    hide Pad, InLap;
    MoveCost(s, lap);
    FarFromBase(s.pos, base);
    assert s.pos - base >= 3 * (BUF / 4);
    hide AtEnd, Layout;
    assert |s.stream| - at > KEEP;
    LagMoves(s, prev, at, base, s.pos + Pad(s.pos), |s.cur|);
  }

  /** Every line the old lag explains is by now old, or has the lag that is remembered next. */
  lemma LagMoves(s: Log, prev: int, at: nat, base: nat, start: nat, len: nat)
    requires Audited(s, prev, at, base) && |s.stream| - at > KEEP
    requires start % BUF == 0 && s.pos <= start < s.pos + BUF / 4 && len < BUF / 8 && len < MAX_LINE
    ensures Audited(s.(lineStart := start, pos := start + len), s.pos - |s.stream|, |s.stream|, start)
  {
  }

  /** A relocation keeps the invariant, and opens a new entry in the audit of the waste. */
  lemma MoveKeeps(s: Log, lap: nat, prev: int, at: nat, base: nat)
    requires Layout(s) && Faithful(s) && Retained(s) && InLap(s, lap) && Audited(s, prev, at, base)
    requires AtEnd(s)
    ensures var t := Move(s); Layout(t) && Faithful(t) && Retained(t) && t.lineStart % BUF == 0
    ensures Audited(Move(s), s.pos - |s.stream|, |s.stream|, s.pos + Pad(s.pos))
  {
    hide Audited, Pad, AtEnd;
    MoveCost(s, lap);
    MoveAudited(s, lap, prev, at, base);
  }

  lemma FaithfulToo(s: Log, t: Log)
    requires Faithful(s) && t.lines == s.lines && t.cur == s.cur && t.stream == s.stream
    ensures Faithful(t)
  {
  }

  lemma RelocateKeeps(s: Log, lap: nat, prev: int, at: nat, base: nat)
    requires Layout(s) && Faithful(s) && Retained(s) && InLap(s, lap) && Audited(s, prev, at, base)
    requires AtEnd(s)
    ensures AtRest(Relocate(s)) && Relocate(s).stream == s.stream && Relocate(s).pos % BUF == |s.cur|
  {
    hide Layout, Faithful, Retained, InLap, Audited, Alive, AtEnd, DropDead;
    MoveKeeps(s, lap, prev, at, base);
    MoveCost(s, lap);
    DropKeeps(Move(s), s.pos - |s.stream|, |s.stream|, s.pos + Pad(s.pos));
    FaithfulToo(Move(s), DropDead(Move(s)));
    LapOf(s.pos + Pad(s.pos), |s.cur|);
  }

  // ----- the two operations -----

  lemma EmptyAtRest()
    ensures AtRest(EMPTY)
  {
    assert Audited(EMPTY, 0, 0, 0);
    assert Texts(EMPTY.lines) == [];
  }

  lemma ImbueKeeps(s: Log, need: nat)
    requires AtRest(s) && need <= BUF / 4
    ensures var t := Imbue(s, need); AtRest(t) && t.stream == s.stream && need <= BUF - t.pos % BUF
  {
    if BUF - s.pos % BUF < need {
      var prev, at, base :| Audited(s, prev, at, base);
      LapOf(s.lineStart, |s.cur|);
      RelocateKeeps(s, Lap(s.pos), prev, at, base);
    }
  }

  lemma StaysInLap(u: Log, lap: nat)
    requires Layout(u) && InLap(u, lap) && (u.cur == [] || u.pos % BUF != 0)
    ensures u.lineStart % BUF + |u.cur| < BUF
  {
    if u.lineStart < lap + BUF {
      InLapMod(lap, u.lineStart);
    }
    assert u.pos == lap + BUF ==> u.pos % BUF == 0;
  }

  lemma InOwnLap(s: Log)
    requires Layout(s) && s.lineStart % BUF + |s.cur| < BUF
    ensures InLap(s, Lap(s.pos)) && s.pos == Lap(s.pos) + s.pos % BUF
  {
    LapOf(s.lineStart, |s.cur|);
  }

  lemma CommitKeeps(s: Log, chunk: seq<byte>)
    requires AtRest(s) && |chunk| <= BUF - s.pos % BUF
    ensures var t := Commit(s, chunk); AtRest(t) && t.stream == s.stream + chunk
  {
    var prev, at, base :| Audited(s, prev, at, base);
    LapOf(s.lineStart, |s.cur|);
    var lap := Lap(s.pos);
    hide Layout, Faithful, Retained, Alive, Audited, DropDead, PutAll, Relocate;
    InOwnLap(s);
    PutAllKeeps(s, chunk, lap, prev, at, base);
    var t := PutAll(s, chunk);
    DropKeeps(t, prev, at, base);
    var u := DropDead(t);
    FaithfulToo(t, u);
    if u.cur != [] && u.pos % BUF == 0 {
      RelocateKeeps(u, lap, prev, at, base);
    } else {
      StaysInLap(u, lap);
    }
  }

  // ----- whole runs -----

  datatype Write = Write(need: nat, chunk: seq<byte>)

  /** One producer step: ask for room, fill part of it, commit that part. */
  function Step(s: Log, w: Write): Log {
    Commit(Imbue(s, w.need), w.chunk)
  }

  function Run(ws: seq<Write>): Log {
    if ws == [] then EMPTY else Step(Run(ws[..|ws| - 1]), ws[|ws| - 1])
  }

  /** Each write asks for no more than the ring allows and commits no more than it was given. */
  ghost predicate Allowed(ws: seq<Write>) {
    ws == [] ||
    (var s, w := Run(ws[..|ws| - 1]), ws[|ws| - 1];
     Allowed(ws[..|ws| - 1]) && w.need <= BUF / 4 && |w.chunk| <= BUF - Imbue(s, w.need).pos % BUF)
  }

  function Written(ws: seq<Write>): seq<byte> {
    if ws == [] then [] else Written(ws[..|ws| - 1]) + ws[|ws| - 1].chunk
  }

  lemma {:induction false} RunAtRest(ws: seq<Write>)
    requires Allowed(ws)
    ensures AtRest(Run(ws)) && Run(ws).stream == Written(ws)
  {
    if ws == [] {
      EmptyAtRest();
    } else {
      var s, w := Run(ws[..|ws| - 1]), ws[|ws| - 1];
      RunAtRest(ws[..|ws| - 1]);
      ImbueKeeps(s, w.need);
      CommitKeeps(Imbue(s, w.need), w.chunk);
    }
  }

  function History(s: Log): seq<seq<byte>>
    requires s.head <= |s.lines|
  {
    Texts(s.lines[s.head..])
  }

  /** Over every run the history is a suffix of the lines of everything written. */
  lemma HistoryIsSuffix(ws: seq<Write>)
    requires Allowed(ws)
    ensures var s := Run(ws); s.head <= |s.lines| && |History(s)| <= LINES
    ensures var s, lines := Run(ws), Split(Written(ws)).0; s.head <= |lines| && History(s) == lines[s.head..]
  {
    RunAtRest(ws);
    var s := Run(ws);
    assert Texts(s.lines)[s.head..] == Texts(s.lines[s.head..]);
  }

  /**
   Over every run, a line whose first byte is among the last KEEP bytes written is in the history, unless
   LINES newer lines push it out.
  */
  lemma RecentLinesAreKept(ws: seq<Write>, n: nat)
    requires Allowed(ws)
    requires var lines := Split(Written(ws)).0;
      && n < |lines| && |lines| - 1 - n <= LINES - 1
      && |Written(ws)| - Born(lines, n) <= KEEP
    ensures var s := Run(ws); s.head <= n < |s.lines| && s.lines[n].text == Split(Written(ws)).0[n]
  {
    RunAtRest(ws);
    assert Texts(Run(ws).lines)[n] == Run(ws).lines[n].text;
  }
}
