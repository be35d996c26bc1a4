/**
 The log ring as it is: one byte array, one array of line references, four cursors in 32-bit modular
 arithmetic. Every operation is proved to do the step of LogModel.dfy, so the wrap of the cursors is never
 observable, and every kept line is one contiguous slice of the array.
*/
module LogRing {
  import opened LogModel
  import opened LogMemory

  const WORD: nat := 0x1_0000_0000

  type u32 = x: int | 0 <= x < WORD

  /** Unsigned 32-bit truncation; masking with BUF - 1 or LINES - 1 is `%` of that power of two. */
  function Wrap(x: int): u32 {
    x % WORD
  }

  datatype LineRef = LineRef(start: u32, len: u32)

  // ----- the cursors behave as unbounded counters -----

  lemma WrapSub(a: nat, b: nat)
    requires b <= a < b + WORD
    ensures Wrap(Wrap(a) - Wrap(b)) == a - b
  {
    var qa, qb := a / WORD, b / WORD;
    assert Wrap(a) - Wrap(b) == a - b - (qa - qb) * WORD;
    assert (a - b - (qa - qb) * WORD) % WORD == (a - b) % WORD;
  }

  lemma WrapAdd(a: nat, n: nat)
    ensures Wrap(Wrap(a) + n) == Wrap(a + n)
  {
  }

  lemma LapsVanish(x: nat, laps: nat, k: nat)
    requires k == BUF || k == LINES
    ensures (x + k * laps) % k == x % k
  {
  }

  lemma WrapMask(a: nat, k: nat)
    requires k == BUF || k == LINES
    ensures Wrap(a) % k == a % k
  {
    var q := a / WORD;
    var laps := q * (if k == BUF then WORD / BUF else WORD / LINES);
    assert a == Wrap(a) + k * laps;
    LapsVanish(Wrap(a), laps, k);
  }

  // ----- what the arrays hold -----

  /** The reference ring holds the kept lines, each in the slot of its number. */
  ghost predicate Refs(s: Log, lines: seq<LineRef>) {
    && |lines| == LINES
    && forall n :: s.head <= n < |s.lines| ==>
         lines[n % LINES] == LineRef(Wrap(s.lines[n].start), Wrap(|s.lines[n].text|))
  }

  /** What the relocation asks of the memory copy, and that the log stays well laid out across it. */
  lemma MoveNear(s: Log, lap: nat)
    requires Layout(s) && Alive(s) && AtEnd(s) && InLap(s, lap)
    ensures |s.cur| <= s.lineStart % BUF && s.lineStart % BUF + |s.cur| <= BUF
    ensures Layout(Move(s)) && Near(Move(s))
  {
    MoveCost(s, lap);
  }

  /** The cursor arithmetic of a relocation. */
  lemma MoveCursors(s: Log)
    requires Layout(s)
    ensures Wrap(s.pos) % BUF == s.pos % BUF && Wrap(s.lineStart) % BUF == s.lineStart % BUF
    ensures Wrap(Wrap(s.pos) - Wrap(s.lineStart)) == |s.cur|
    ensures Wrap(Wrap(s.pos) + Pad(s.pos)) == Wrap(Move(s).lineStart)
    ensures Wrap(Wrap(Move(s).lineStart) + |s.cur|) == Wrap(Move(s).pos)
  {
    WrapSub(s.pos, s.lineStart);
    WrapMask(s.lineStart, BUF);
    WrapMask(s.pos, BUF);
    WrapAdd(s.pos, Pad(s.pos));
    WrapAdd(Move(s).lineStart, |s.cur|);
  }

  lemma MoveRefs(s: Log, lines: seq<LineRef>)
    requires Refs(s, lines)
    ensures Refs(Move(s), lines)
  {
  }

  /** A byte finalizes a line or leaves the references alone. */
  lemma PutRefs(s: Log, b: byte, lines: seq<LineRef>)
    requires Layout(s) && Refs(s, lines)
    ensures var t := Put(s, b);
      if b == NEWLINE || |s.cur| + 1 == MAX_LINE then
        Refs(t, lines[|s.lines| % LINES := LineRef(Wrap(s.lineStart), if b == NEWLINE then |s.cur| else MAX_LINE)])
      else Refs(t, lines)
  {
    var t := Put(s, b);
    forall n | t.head <= n < |s.lines|
      ensures t.lines[n] == s.lines[n] && (|t.lines| > |s.lines| ==> n % LINES != |s.lines| % LINES)
    {
      if |t.lines| > |s.lines| {
        SlotsDiffer(n, |s.lines|);
      }
    }
  }

  /** No kept line is so far back that a 32-bit distance to it would wrap. */
  ghost predicate Near(s: Log) {
    forall n :: s.head <= n < |s.lines| ==> s.lines[n].start <= s.pos < s.lines[n].start + WORD
  }

  lemma CursorsMeet(s: Log)
    requires Layout(s)
    ensures Wrap(s.head) == Wrap(|s.lines|) <==> s.head == |s.lines|
  {
    WrapSub(|s.lines|, s.head);
  }

  lemma HeadRef(s: Log, lines: seq<LineRef>, lineHead: u32)
    requires Refs(s, lines) && Layout(s) && Near(s) && lineHead == Wrap(s.head) != Wrap(|s.lines|)
    ensures s.head < |s.lines| && lines[lineHead % LINES].start == Wrap(s.lines[s.head].start)
    ensures s.lines[s.head].start <= s.pos < s.lines[s.head].start + WORD
    ensures Wrap(lineHead + 1) == Wrap(s.head + 1)
  {
    CursorsMeet(s);
    WrapMask(s.head, LINES);
    WrapAdd(s.head, 1);
  }

  lemma HeadLeaves(s: Log, lines: seq<LineRef>, mem: seq<byte>, floor: int)
    requires Refs(s, lines) && Layout(s) && Stored(s, mem, floor) && s.head < |s.lines|
    ensures var t := s.(head := s.head + 1); Refs(t, lines) && Layout(t) && Stored(t, mem, floor)
  {
  }

  lemma KeptRef(s: Log, lines: seq<LineRef>, n: nat)
    requires Refs(s, lines) && AtRest(s) && n < |s.lines| - s.head
    ensures var l := s.lines[s.head + n];
      lines[Wrap(Wrap(s.head) + n) % LINES] == LineRef(Wrap(l.start), |l.text|)
  {
    hide Faithful, Retained;
    WrapAdd(s.head, n);
    WrapMask(s.head + n, LINES);
  }

  lemma SlotsDiffer(m: nat, n: nat)
    requires m < n < m + LINES
    ensures m % LINES != n % LINES
  {
  }

  lemma LapOfLog(s: Log)
    requires Layout(s) && s.lineStart % BUF + |s.cur| < BUF
    ensures InLap(s, Lap(s.pos)) && s.pos < Lap(s.pos) + BUF
  {
    LapOf(s.lineStart, |s.cur|);
  }

  lemma LineEmpty(s: Log)
    requires Layout(s)
    ensures Wrap(s.pos) == Wrap(s.lineStart) <==> s.cur == []
  {
    WrapSub(s.pos, s.lineStart);
  }

  /** Every kept line starts within `reach` of the cursor. */
  ghost predicate Within(s: Log, reach: nat) {
    forall n :: s.head <= n < |s.lines| ==> s.lines[n].start <= s.pos <= s.lines[n].start + reach
  }

  lemma PutWithin(s: Log, b: byte, reach: nat)
    requires Layout(s) && Within(s, reach) && MAX_LINE <= reach
    ensures Within(Put(s, b), reach + 1)
  {
  }

  lemma {:induction false} PutAllNear(s: Log, chunk: seq<byte>, lap: nat)
    requires Layout(s) && Alive(s) && InLap(s, lap) && s.pos + |chunk| <= lap + BUF
    ensures var t := PutAll(s, chunk); Layout(t) && InLap(t, lap) && Within(t, BUF + |chunk|) && Near(t)
    ensures PutAll(s, chunk).pos == s.pos + |chunk|
  {
    if chunk != [] {
      var front := chunk[..|chunk| - 1];
      PutAllNear(s, front, lap);
      PutLayout(PutAll(s, front), chunk[|chunk| - 1], lap);
      PutWithin(PutAll(s, front), chunk[|chunk| - 1], BUF + |front|);
    }
  }

  lemma PutNone(s: Log, chunk: seq<byte>)
    ensures PutAll(s, chunk[..0]) == s
  {
  }

  lemma PutNext(s: Log, chunk: seq<byte>, i: nat, lap: nat)
    requires i < |chunk| && s.pos % BUF + |chunk| <= BUF
    requires Layout(s) && Alive(s) && InLap(s, lap) && s.pos + |chunk| <= lap + BUF
    ensures var t := PutAll(s, chunk[..i]);
      && Layout(t) && InLap(t, lap) && t.pos < lap + BUF && t.pos % BUF == s.pos % BUF + i
      && PutAll(s, chunk[..i + 1]) == Put(t, chunk[i])
  {
    PutAllNear(s, chunk[..i], lap);
    InLapMod(lap, s.pos);
    InLapMod(lap, s.pos + i);
    assert chunk[..i + 1][..i] == chunk[..i];
  }

  // ----- the ring -----

  class LogImpl {
    var wpos: u32
    var lineStart: u32
    var lineHead: u32
    var lineTail: u32
    const lines: array<LineRef>
    const buf: array<byte>

    // what the ring stands for, the bytes as the last operation left them, and from where on kept lines are in place
    ghost var log: Log
    ghost var image: seq<byte>
    ghost var floor: int

    ghost function View(): Ring
      reads this
    {
      Ring(log, image)
    }

    ghost predicate Cursors()
      reads this
    {
      && wpos == Wrap(log.pos) && lineStart == Wrap(log.lineStart)
      && lineHead == Wrap(log.head) && lineTail == Wrap(|log.lines|)
    }

    /** The arrays agree with the log, down to lines that start at `from`. */
    ghost predicate Agrees(from: int)
      reads this, lines, buf
    {
      && lines.Length == LINES && buf.Length == BUF
      && Cursors() && Refs(log, lines[..]) && Stored(log, buf[..], from)
    }

    /** Between operations: the ring is as the last one left it, apart from bytes a producer may have written since. */
    ghost predicate Valid()
      reads this, lines
    {
      lines.Length == LINES && buf.Length == BUF && Cursors() && Refs(log, lines[..]) && Sound(View(), floor)
    }

    constructor ()
      ensures Valid() && View() == Blank() && buf[..] == image && floor == 0 - BUF && fresh(buf) && fresh(lines)
    {
      wpos, lineStart, lineHead, lineTail := 0, 0, 0, 0;
      var refs := new LineRef[LINES](_ => LineRef(0, 0));
      var bytes := new byte[BUF](_ => 0);
      lines, buf := refs, bytes;
      log, image, floor := EMPTY, bytes[..], 0 - BUF;
      new;
      BlankSound();
      assert image == Blank().mem;
    }

    method Push(start: u32, len: u32)
      requires lines.Length == LINES && Layout(log)
      requires lineHead == Wrap(log.head) && lineTail == Wrap(|log.lines|)
      modifies this`lineHead, this`lineTail, lines
      ensures lineTail == Wrap(|log.lines| + 1)
      ensures lineHead == Wrap(if |log.lines| - log.head == LINES then log.head + 1 else log.head)
      ensures lines[..] == old(lines[..])[|log.lines| % LINES := LineRef(start, len)]
    {
      WrapSub(|log.lines|, log.head);
      WrapMask(|log.lines|, LINES);
      WrapAdd(|log.lines|, 1);
      WrapAdd(log.head, 1);
      if Wrap(lineTail - lineHead) == LINES {
        lineHead := Wrap(lineHead + 1);
      }
      lines[lineTail % LINES] := LineRef(start, len);
      lineTail := Wrap(lineTail + 1);
    }

    method DropDead(ghost from: int)
      requires Agrees(from) && Layout(log)
      requires Near(log)
      modifies this`lineHead, this`log
      ensures Agrees(from) && log == LogModel.DropDead(old(log))
    {
      hide Stored, Refs, Layout;
      while lineTail != lineHead
        modifies this`lineHead, this`log
        invariant Agrees(from) && Layout(log)
        invariant log == old(log).(head := log.head) && old(log.head) <= log.head
        invariant LogModel.DropDead(log) == LogModel.DropDead(old(log))
        decreases |log.lines| - log.head
      {
        HeadRef(log, lines[..], lineHead);
        var ref := lines[lineHead % LINES];
        WrapSub(log.pos, log.lines[log.head].start);
        if Wrap(wpos - ref.start) <= BUF {
          break;
        }
        HeadLeaves(log, lines[..], buf[..], from);
        lineHead := Wrap(lineHead + 1);
        log := log.(head := log.head + 1);
      }
      CursorsMeet(log);
    }

    /** The memory copy of a relocation, down to the start of the buffer. */
    method CopyDown(from: nat, n: nat)
      requires buf.Length == BUF && n <= from && from + n <= BUF
      modifies buf
      ensures Rewritten(old(buf[..]), buf[..], 0, n) && buf[..][..n] == old(buf[from..from + n])
    {
      for i := 0 to n
        invariant forall j :: 0 <= j < i ==> buf[j] == old(buf[from + j])
        invariant forall j :: i <= j < BUF ==> buf[j] == old(buf[j])
      {
        buf[i] := buf[from + i];
      }
    }

    /** The copy never overlaps its source: it ends before the source begins. */
    method RelocateUnfinished(ghost lap: nat, ghost from: int)
      requires Agrees(from) && Layout(log) && Alive(log) && AtEnd(log) && InLap(log, lap)
      modifies this, buf
      ensures Agrees(Max(from, log.pos - BUF)) && log == Relocate(old(log))
      ensures buf[..] == Copied(old(buf[..]), old(log.cur)) && image == old(image) && floor == old(floor)
    {
      hide Layout, Faithful, Retained, Refs, Stored, Alive, AtEnd, Rewritten, LogModel.DropDead, Wrap;
      MoveNear(log, lap);
      MoveCursors(log);
      MoveRefs(log, lines[..]);
      var unf := Wrap(wpos - lineStart);
      var physStart := lineStart % BUF;
      wpos := Wrap(wpos + (BUF - wpos % BUF) % BUF);
      CurrentText(log, buf[..], from);
      CopyDown(physStart, unf);
      MoveStored(log, old(buf[..]), buf[..], lap, from);
      CopyIs(old(buf[..]), buf[..], log.cur);
      DropMovesHead(Move(log));
      lineStart := wpos;
      wpos := Wrap(wpos + unf);
      log := Move(log);
      DropDead(Max(from, log.pos - BUF));
    }

    /** Room for at least `need` bytes at offset `at`; `avail` is all there is before the physical end. */
    method Imbue(need: nat) returns (at: nat, avail: nat)
      requires Valid() && buf[..] == image && need <= BUF / 4
      modifies this, buf
      ensures Valid() && buf[..] == image && View() == RingImbue(old(View()), need)
      ensures floor == Max(old(floor), log.pos - BUF)
      ensures at == log.pos % BUF && avail == BUF - at && need <= avail
    {
      hide AtRest, Stored, Refs, Relocate, Copied;
      ImbueSound(View(), need, floor);
      RestInLap(log);
      WrapMask(log.pos, BUF);
      var tail := BUF - wpos % BUF;
      if tail < need {
        NeedsRoom(log, need);
        RelocateUnfinished(Lap(log.pos), floor);
        WrapMask(log.pos, BUF);
        tail := BUF - wpos % BUF;
      }
      image := buf[..];
      floor := Max(floor, log.pos - BUF);
      at, avail := wpos % BUF, tail;
    }

    /** One committed byte: advance, and finalize the line at a newline or at its full length. */
    method CommitByte(b: byte, ghost lap: nat, ghost from: int)
      requires Agrees(from) && Layout(log) && InLap(log, lap) && log.pos < lap + BUF
      requires buf[log.pos % BUF] == b
      modifies this, lines
      ensures Agrees(from) && log == Put(old(log), b) && image == old(image) && floor == old(floor)
    {
      hide Refs, Stored, Wrap, InLap;
      PutStored(log, b, buf[..], from, lap);
      PutRefs(log, b, lines[..]);
      ByteCursors(log);
      wpos := Wrap(wpos + 1);
      if b == NEWLINE {
        Push(lineStart, Wrap(wpos - 1 - lineStart));
        lineStart := wpos;
      } else if Wrap(wpos - lineStart) == MAX_LINE {
        Push(lineStart, MAX_LINE);
        lineStart := wpos;
      }
      log := Put(log, b);
    }

    /** The walk over the committed bytes: each is already in the buffer. */
    method CommitBytes(len: nat, ghost lap: nat, ghost from: int)
      requires Agrees(from) && Layout(log) && Alive(log)
      requires InLap(log, lap) && log.pos + len <= lap + BUF && log.pos % BUF + len <= BUF
      modifies this, lines
      ensures Agrees(from) && image == old(image) && floor == old(floor)
      ensures log == PutAll(old(log), buf[old(log).pos % BUF..old(log).pos % BUF + len])
    {
      hide Audited, Faithful, Retained, Alive, Split, Stored, Refs, Put, PutAll, Layout, InLap;
      ghost var was := log;
      ghost var chunk := buf[log.pos % BUF..log.pos % BUF + len];
      WrapMask(log.pos, BUF);
      var chunkAt := wpos % BUF;
      PutNone(was, chunk);
      for i := 0 to len
        invariant Agrees(from) && log == PutAll(was, chunk[..i]) && image == old(image) && floor == old(floor)
      {
        PutNext(was, chunk, i, lap);
        CommitByte(buf[chunkAt + i], lap, from);
      }
      assert chunk[..len] == chunk;
    }

    /** The producer wrote `written` bytes at the cursor, and nowhere else, and hands the first `len` of them over. */
    method Commit(len: nat, ghost written: nat)
      requires Valid() && len <= written && Rewritten(image, buf[..], log.pos % BUF, written)
      modifies this, lines, buf
      ensures Valid() && buf[..] == image
      ensures var at := old(log.pos) % BUF;
        var chunk, stray := old(buf[at..at + len]), old(buf[at + len..at + written]);
        Fits(old(View()), chunk, stray) && View() == RingCommit(old(View()), chunk, stray)
      ensures floor == Max(Max(old(floor), old(log.pos) + written - BUF), log.pos - BUF)
    {
      hide AtRest, Layout, Audited, Alive, Split, Stored, Refs, Put, PutAll, Move, Relocate, LogModel.DropDead, InLap,
        Copied, Rewritten, Overwritten, RingCommit;
      ghost var at, lap := log.pos % BUF, Lap(log.pos);
      ghost var chunk, stray := WrittenBytes(image, buf[..], at, len, written);
      ghost var was, from := View(), Max(floor, log.pos + written - BUF);
      CommitSound(was, chunk, stray, floor);
      RestInLap(log);
      ScribbleStored(log, image, buf[..], written, floor);
      PutAllNear(log, chunk, lap);
      WalkSound(was, chunk, stray, floor);
      CommitBytes(len, lap, from);
      assert buf[..] == Scribbled(was, chunk, stray);
      DropMovesHead(log);
      DropAlive(log);
      DropDead(from);
      WrapMask(log.pos, BUF);
      LineEmpty(log);
      if wpos != lineStart && wpos % BUF == 0 {
        AtTheEnd(log);
        RelocateUnfinished(lap, from);
      }
      CommitStep(was, chunk, stray);
      image := buf[..];
      floor := Max(from, log.pos - BUF);
    }

    method HistLen() returns (n: nat)
      requires Valid()
      ensures n == |log.lines| - log.head
    {
      WrapSub(|log.lines|, log.head);
      n := Wrap(lineTail - lineHead);
    }

    /**
     Where the nth oldest kept line lies, as one slice of the buffer; it is the line, byte for byte, exactly if the
     bytes there still hold it, as they do from the floor on.
    */
    method HistElem(n: nat) returns (at: nat, len: nat)
      requires Valid() && buf[..] == image && n < |log.lines| - log.head
      ensures var l := log.lines[log.head + n];
        && at + len <= buf.Length && len == |History(log)[n]|
        && (buf[at..at + len] == History(log)[n] <==> Holds(image, l.start, l.text))
        && (l.start >= floor ==> buf[at..at + len] == History(log)[n])
    {
      hide Refs, AtRest;
      KeptRef(log, lines[..], n);
      KeptSlice(log, log.head + n);
      WrapMask(log.lines[log.head + n].start, BUF);
      var ref := lines[Wrap(lineHead + n) % LINES];
      at, len := ref.start % BUF, ref.len;
    }

    method CopyIn(at: nat, chunk: seq<byte>)
      requires buf.Length == BUF && at + |chunk| <= BUF
      modifies buf
      ensures Rewritten(old(buf[..]), buf[..], at, |chunk|) && buf[at..at + |chunk|] == chunk
    {
      forall i | 0 <= i < |chunk| {
        buf[at + i] := chunk[i];
      }
      assert forall i {:trigger chunk[i]} :: 0 <= i < |chunk| ==> buf[at + i] == chunk[i];
    }

    /** One round of bulk output: as much as the exposed tail takes. */
    method WriteSome(data: seq<byte>) returns (len: nat)
      requires Valid() && buf[..] == image && data != []
      modifies this, lines, buf
      ensures Valid() && buf[..] == image && 0 < len <= |data| && log.stream == old(log.stream) + data[..len]
      ensures floor <= Max(old(floor), log.pos - BUF) && old(log.pos) <= log.pos
    {
      hide AtRest, Stored, Refs, Rewritten, LogModel.Imbue, LogModel.Commit, RingCommit, Copied;
      ImbueKeeps(log, 1);
      StepAdvances(View(), Scribble(1, [], []));
      var at, avail := Imbue(1);
      len := if |data| < avail then |data| else avail;
      CopyIn(at, data[..len]);
      CommitKeeps(log, data[..len]);
      ghost var was := View();
      assert buf[at + len..at + len] == [];
      Commit(len, len);
      CommitIsLog(was, data[..len], []);
      CommitAdvances(was, data[..len], []);
    }

    /** Bulk output: take whatever tail is exposed, copy as much as fits, commit it, until all is written. */
    method WriteC(data: seq<byte>)
      requires Valid() && buf[..] == image
      modifies this, lines, buf
      ensures Valid() && buf[..] == image && log.stream == old(log.stream) + data
      ensures floor <= Max(old(floor), log.pos - BUF)
    {
      var done := 0;
      hide Valid, LogModel.Imbue, LogModel.Commit;
      while done < |data|
        invariant done <= |data| && Valid() && buf[..] == image
        invariant log.stream == old(log.stream) + data[..done]
        invariant floor <= Max(old(floor), log.pos - BUF)
      {
        var len := WriteSome(data[done..]);
        assert data[..done] + data[done..][..len] == data[..done + len];
        done := done + len;
      }
      assert data[..done] == data;
    }

    /**
     A formatted double: its characters go into the room asked for and are committed, the terminator that the formatter
     writes after them is not.
    */
    method WriteDouble(digits: seq<byte>)
      requires Valid() && buf[..] == image && |digits| < 128
      modifies this, lines, buf
      ensures Valid() && buf[..] == image && View() == RingStep(old(View()), Scribble(128, digits, [0]))
      ensures log.stream == old(log.stream) + digits
    {
      hide AtRest, Stored, Refs, Rewritten, RingCommit, LogModel.Imbue, LogModel.Commit, Copied;
      ImbueKeeps(log, 128);
      var at, avail := Imbue(128);
      CopyIn(at, digits + [0]);
      assert buf[at..at + |digits|] == digits && buf[at + |digits|..at + |digits| + 1] == [0] by {
        assert buf[at..at + |digits + [0]|][..|digits|] == digits;
        assert buf[at..at + |digits + [0]|][|digits|..] == [0];
      }
      ghost var was := View();
      CommitKeeps(log, digits);
      Commit(|digits|, |digits| + 1);
      CommitIsLog(was, digits, [0]);
    }
  }

  /** What a producer wrote: the bytes it commits, and those it leaves. */
  lemma WrittenBytes(mem: seq<byte>, after: seq<byte>, at: nat, len: nat, written: nat)
    returns (chunk: seq<byte>, stray: seq<byte>)
    requires Rewritten(mem, after, at, written) && len <= written
    ensures at + written <= BUF && |mem| == |after| == BUF
    ensures chunk == after[at..at + len] && stray == after[at + len..at + written]
    ensures after == Overwritten(mem, at, chunk + stray)
  {
    chunk, stray := after[at..at + len], after[at + len..at + written];
    assert chunk + stray == after[at..at + written];
  }

  lemma CommitStep(r: Ring, chunk: seq<byte>, stray: seq<byte>)
    requires Fits(r, chunk, stray)
    ensures var t, mem := DropDead(PutAll(r.log, chunk)), Scribbled(r, chunk, stray);
      RingCommit(r, chunk, stray) ==
        if t.cur != [] && t.pos % BUF == 0 then Ring(Relocate(t), Copied(mem, t.cur)) else Ring(t, mem)
  {
    hide DropDead, PutAll, Scribbled, Relocate, Copied;
  }

  lemma CopyIs(mem: seq<byte>, after: seq<byte>, text: seq<byte>)
    requires Rewritten(mem, after, 0, |text|) && after[..|text|] == text
    ensures after == Copied(mem, text)
  {
  }

  lemma NeedsRoom(s: Log, need: nat)
    requires BUF - s.pos % BUF < need <= BUF / 4
    ensures AtEnd(s)
  {
  }

  lemma AtTheEnd(s: Log)
    requires s.cur != [] && s.pos % BUF == 0
    ensures AtEnd(s)
  {
  }

  lemma {:induction false} DropAlive(s: Log)
    requires Layout(s)
    ensures Layout(DropDead(s)) && Alive(DropDead(s))
    decreases |s.lines| - s.head
  {
    hide Layout, Alive;
    if s.head < |s.lines| && s.pos - s.lines[s.head].start > BUF {
      LayoutLess(s);
      DropAlive(s.(head := s.head + 1));
    } else {
      HeadAlive(s);
    }
  }

  lemma LayoutLess(s: Log)
    requires Layout(s) && s.head < |s.lines|
    ensures Layout(s.(head := s.head + 1))
  {
  }

  lemma KeptSlice(s: Log, n: nat)
    requires AtRest(s) && s.head <= n < |s.lines|
    ensures s.lines[n].start % BUF + |s.lines[n].text| <= BUF
    ensures s.head <= |s.lines|
  {
  }

  lemma CommitAdvances(r: Ring, chunk: seq<byte>, stray: seq<byte>)
    requires Fits(r, chunk, stray)
    ensures r.log.pos + |chunk| <= RingCommit(r, chunk, stray).log.pos
  {
    hide DropDead, PutAll, Overwritten;
    PutAllMoves(r.log, chunk);
    var t := PutAll(r.log, chunk);
    DropMovesHead(t);
    DropMovesHead(Move(DropDead(t)));
  }

  /** The cursor arithmetic of one byte. */
  lemma ByteCursors(s: Log)
    requires Layout(s)
    ensures Wrap(Wrap(s.pos) + 1) == Wrap(s.pos + 1)
    ensures Wrap(Wrap(s.pos + 1) - Wrap(s.lineStart)) == |s.cur| + 1
    ensures Wrap(Wrap(s.pos + 1) - 1 - Wrap(s.lineStart)) == |s.cur|
  {
    WrapAdd(s.pos, 1);
    WrapSub(s.pos + 1, s.lineStart);
    WrapBack(s.pos + 1, s.lineStart);
  }

  lemma WrapBack(a: nat, b: nat)
    requires b < a < b + WORD
    ensures Wrap(Wrap(a) - 1 - Wrap(b)) == a - 1 - b
  {
    var qa, qb := a / WORD, b / WORD;
    assert Wrap(a) - 1 - Wrap(b) == a - 1 - b - (qa - qb) * WORD;
    assert (a - 1 - b - (qa - qb) * WORD) % WORD == (a - 1 - b) % WORD;
  }
}
