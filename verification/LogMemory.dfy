/**
 The bytes of the log ring. A producer writes into the room it is given and commits the first of the bytes it wrote;
 those it wrote past them stay behind, where the oldest lines may still be. `Ring` is the log with its bytes, over
 every run of such producers.
*/
module LogMemory {
  import opened LogModel

  /** `text` is one slice of the bytes, at its logical offset. */
  ghost predicate Holds(mem: seq<byte>, start: nat, text: seq<byte>) {
    && |mem| == BUF && start % BUF + |text| <= BUF
    && mem[start % BUF..start % BUF + |text|] == text
  }

  /** The bytes hold the unfinished line, and every kept line not before `floor`. */
  ghost predicate Stored(s: Log, mem: seq<byte>, floor: int) {
    && Holds(mem, s.lineStart, s.cur)
    && forall n :: s.head <= n < |s.lines| && s.lines[n].start >= floor ==>
         Holds(mem, s.lines[n].start, s.lines[n].text)
  }

  /** `mem'` is `mem` with `len` bytes rewritten from physical offset `at` on. */
  ghost predicate Rewritten(mem: seq<byte>, mem': seq<byte>, at: nat, len: nat) {
    && |mem| == |mem'| == BUF && at + len <= BUF
    && forall i :: 0 <= i < BUF && !(at <= i < at + len) ==> mem'[i] == mem[i]
  }

  function Max(x: int, y: int): int { if x < y then y else x }

  /** Bytes written at logical offset `q` spare every line that ends before `q` and is less than a lap old. */
  lemma WriteSpares(mem: seq<byte>, mem': seq<byte>, q: nat, len: nat, start: nat, text: seq<byte>)
    requires Rewritten(mem, mem', q % BUF, len) && Holds(mem, start, text)
    requires q + len - BUF <= start && start + |text| <= q
    ensures Holds(mem', start, text)
  {
    var lap := Lap(q);
    if start >= lap {
      assert start == q || start % BUF == start - lap;
    } else {
      assert start >= lap - BUF + q % BUF + len;
      assert start % BUF == start - (lap - BUF);
    }
    assert forall i :: start % BUF <= i < start % BUF + |text| ==> mem'[i] == mem[i];
  }

  lemma ScribbleStored(s: Log, mem: seq<byte>, mem': seq<byte>, len: nat, floor: int)
    requires AtRest(s) && Stored(s, mem, floor) && Rewritten(mem, mem', s.pos % BUF, len)
    ensures Stored(s, mem', Max(floor, s.pos + len - BUF))
  {
    LapOf(s.lineStart, |s.cur|);
    WriteSpares(mem, mem', s.pos, len, s.lineStart, s.cur);
    forall n | s.head <= n < |s.lines| && s.lines[n].start >= Max(floor, s.pos + len - BUF)
      ensures Holds(mem', s.lines[n].start, s.lines[n].text)
    {
      WriteSpares(mem, mem', s.pos, len, s.lines[n].start, s.lines[n].text);
    }
  }

  lemma CurrentText(s: Log, mem: seq<byte>, floor: int)
    requires Stored(s, mem, floor)
    ensures s.lineStart % BUF + |s.cur| <= |mem| && mem[s.lineStart % BUF..s.lineStart % BUF + |s.cur|] == s.cur
  {
  }

  lemma MoveStored(s: Log, mem: seq<byte>, mem': seq<byte>, lap: nat, floor: int)
    requires Layout(s) && AtEnd(s) && InLap(s, lap)
    requires Stored(s, mem, floor) && Rewritten(mem, mem', 0, |s.cur|) && mem'[..|s.cur|] == s.cur
    ensures Stored(Move(s), mem', Max(floor, Move(s).pos - BUF))
  {
    MoveCost(s, lap);
    var q := s.pos + Pad(s.pos);
    forall n | s.head <= n < |s.lines| && s.lines[n].start >= Max(floor, q + |s.cur| - BUF)
      ensures Holds(mem', s.lines[n].start, s.lines[n].text)
    {
      WriteSpares(mem, mem', q, |s.cur|, s.lines[n].start, s.lines[n].text);
    }
  }

  lemma PutStored(s: Log, b: byte, mem: seq<byte>, floor: int, lap: nat)
    requires Layout(s) && InLap(s, lap) && s.pos < lap + BUF && Stored(s, mem, floor)
    requires mem[s.pos % BUF] == b
    ensures Stored(Put(s, b), mem, floor)
  {
    InLapMod(lap, s.lineStart);
    InLapMod(lap, s.pos);
    assert mem[s.lineStart % BUF..s.lineStart % BUF + |s.cur| + 1] == s.cur + [b];
    var t := Put(s, b);
    assert (s.pos + 1) % BUF <= BUF;
    assert t.cur == [] ==> mem[t.lineStart % BUF..t.lineStart % BUF] == [];
    forall n | t.head <= n < |t.lines| && t.lines[n].start >= floor
      ensures Holds(mem, t.lines[n].start, t.lines[n].text)
    {
      if n < |s.lines| {
        assert t.lines[n] == s.lines[n];
      }
    }
  }

  // ----- the log with its bytes -----

  datatype Ring = Ring(log: Log, mem: seq<byte>)

  function Overwritten(mem: seq<byte>, at: nat, bytes: seq<byte>): seq<byte>
    requires at + |bytes| <= |mem|
  {
    mem[..at] + bytes + mem[at + |bytes|..]
  }

  /** The bytes after the unfinished line was copied to the start of the buffer. */
  function Copied(mem: seq<byte>, text: seq<byte>): seq<byte> {
    if |text| > |mem| then mem else Overwritten(mem, 0, text)
  }

  function RingImbue(r: Ring, need: nat): Ring {
    Ring(Imbue(r.log, need), if BUF - r.log.pos % BUF < need then Copied(r.mem, r.log.cur) else r.mem)
  }

  /** A producer that writes `chunk` and then `stray`, and commits `chunk`, fits the room there is. */
  predicate Fits(r: Ring, chunk: seq<byte>, stray: seq<byte>) {
    |r.mem| == BUF && r.log.pos % BUF + |chunk| + |stray| <= BUF
  }

  function Scribbled(r: Ring, chunk: seq<byte>, stray: seq<byte>): seq<byte>
    requires Fits(r, chunk, stray)
  {
    Overwritten(r.mem, r.log.pos % BUF, chunk + stray)
  }

  function RingCommit(r: Ring, chunk: seq<byte>, stray: seq<byte>): Ring
    requires Fits(r, chunk, stray)
  {
    var t := DropDead(PutAll(r.log, chunk));
    var mem := Scribbled(r, chunk, stray);
    Ring(Commit(r.log, chunk), if t.cur != [] && t.pos % BUF == 0 then Copied(mem, t.cur) else mem)
  }

  /** Every kept line from `floor` on is as it was written. */
  ghost predicate Sound(r: Ring, floor: int) {
    |r.mem| == BUF && AtRest(r.log) && Stored(r.log, r.mem, floor)
  }

  lemma OverwrittenIs(mem: seq<byte>, at: nat, bytes: seq<byte>)
    requires |mem| == BUF && at + |bytes| <= BUF
    ensures Rewritten(mem, Overwritten(mem, at, bytes), at, |bytes|)
    ensures Overwritten(mem, at, bytes)[at..at + |bytes|] == bytes
  {
  }

  lemma {:induction false} DropMovesHead(s: Log)
    ensures var t := DropDead(s); t == s.(head := t.head) && s.head <= t.head
    decreases |s.lines| - s.head
  {
    if s.head < |s.lines| && s.pos - s.lines[s.head].start > BUF {
      DropMovesHead(s.(head := s.head + 1));
    }
  }

  lemma DropStored(s: Log, mem: seq<byte>, floor: int)
    requires Stored(s, mem, floor)
    ensures Stored(DropDead(s), mem, floor)
  {
    hide DropDead, Holds;
    DropMovesHead(s);
  }

  lemma RelocateStored(s: Log, mem: seq<byte>, lap: nat, floor: int)
    requires Layout(s) && AtEnd(s) && InLap(s, lap) && Stored(s, mem, floor)
    ensures |s.cur| <= BUF && |mem| == BUF
    ensures Stored(Relocate(s), Copied(mem, s.cur), Max(floor, Relocate(s).pos - BUF))
  {
    hide Layout, InLap, AtEnd, DropDead, Stored, Overwritten;
    CurLength(s, mem, floor);
    OverwrittenIs(mem, 0, s.cur);
    MoveStored(s, mem, Copied(mem, s.cur), lap, floor);
    DropMovesHead(Move(s));
    DropStored(Move(s), Copied(mem, s.cur), Max(floor, Move(s).pos - BUF));
  }

  lemma CurLength(s: Log, mem: seq<byte>, floor: int)
    requires Stored(s, mem, floor)
    ensures |s.cur| <= BUF && |mem| == BUF
  {
  }

  lemma {:induction false} PutAllStored(s: Log, chunk: seq<byte>, mem: seq<byte>, floor: int, lap: nat)
    requires Layout(s) && InLap(s, lap) && s.pos + |chunk| <= lap + BUF && Stored(s, mem, floor)
    requires s.pos % BUF + |chunk| <= BUF && mem[s.pos % BUF..s.pos % BUF + |chunk|] == chunk
    ensures var t := PutAll(s, chunk);
      Layout(t) && InLap(t, lap) && t.pos == s.pos + |chunk| && Stored(t, mem, floor) && s.lines <= t.lines
  {
    hide Layout, Stored, InLap, Put;
    CurLength(s, mem, floor);
    if chunk != [] {
      var n := |chunk| - 1;
      var front, b := chunk[..n], chunk[n];
      assert chunk == front + [b];
      SliceStarts(mem, s.pos % BUF, front, [b]);
      PutAllStored(s, front, mem, floor, lap);
      var t := PutAll(s, front);
      PosInLap(s, lap, n);
      assert mem[t.pos % BUF] == b by {
        assert mem[s.pos % BUF..s.pos % BUF + |chunk|][n] == b;
      }
      PutLayout(t, b, lap);
      PutStored(t, b, mem, floor, lap);
      PutAppends(t, b);
    }
  }

  lemma PutAppends(s: Log, b: byte)
    ensures Put(s, b).pos == s.pos + 1 && s.lines <= Put(s, b).lines
  {
  }

  lemma PosInLap(s: Log, lap: nat, n: nat)
    requires Layout(s) && InLap(s, lap) && s.pos + n < lap + BUF
    ensures (s.pos + n) % BUF == s.pos % BUF + n
  {
    InLapMod(lap, s.pos);
    InLapMod(lap, s.pos + n);
  }

  // ----- what the two operations keep -----

  lemma ImbueSound(r: Ring, need: nat, floor: int)
    requires Sound(r, floor) && need <= BUF / 4
    ensures var t := RingImbue(r, need); Sound(t, Max(floor, t.log.pos - BUF)) && need <= BUF - t.log.pos % BUF
  {
    hide AtRest, Stored, Copied, Relocate;
    ImbueKeeps(r.log, need);
    CurLength(r.log, r.mem, floor);
    if BUF - r.log.pos % BUF < need {
      RestInLap(r.log);
      RelocateStored(r.log, r.mem, Lap(r.log.pos), floor);
      CopiedLength(r.mem, r.log.cur);
    } else {
      FloorRises(r.log, r.mem, floor, Max(floor, r.log.pos - BUF));
    }
  }

  lemma CopiedLength(mem: seq<byte>, text: seq<byte>)
    ensures |Copied(mem, text)| == |mem|
  {
  }

  lemma FloorRises(s: Log, mem: seq<byte>, floor: int, higher: int)
    requires Stored(s, mem, floor) && floor <= higher
    ensures Stored(s, mem, higher)
  {
  }

  lemma RestInLap(s: Log)
    requires AtRest(s)
    ensures Layout(s) && Alive(s) && InLap(s, Lap(s.pos)) && s.pos == Lap(s.pos) + s.pos % BUF
  {
    hide Faithful, Retained, Audited;
    LapOf(s.lineStart, |s.cur|);
  }

  lemma SliceStarts(mem: seq<byte>, at: nat, a: seq<byte>, b: seq<byte>)
    requires at + |a + b| <= |mem| && mem[at..at + |a + b|] == a + b
    ensures mem[at..at + |a|] == a
  {
    assert mem[at..at + |a|] == mem[at..at + |a + b|][..|a|] == (a + b)[..|a|];
  }

  /** The log after the bytes are walked and the dead lines dropped, and what of it is in place. */
  lemma WalkSound(r: Ring, chunk: seq<byte>, stray: seq<byte>, floor: int)
    requires Sound(r, floor) && Fits(r, chunk, stray)
    ensures var t := DropDead(PutAll(r.log, chunk));
      && Layout(t) && InLap(t, Lap(r.log.pos)) && t.pos == r.log.pos + |chunk| && r.log.lines <= t.lines
      && Stored(t, Scribbled(r, chunk, stray), Max(floor, r.log.pos + |chunk| + |stray| - BUF))
  {
    hide AtRest, Stored, DropDead, Layout, InLap, PutAll, Scribbled, Fits, Lap;
    var s, lap, mem := r.log, Lap(r.log.pos), Scribbled(r, chunk, stray);
    RestInLap(s);
    ScribbledIs(r, chunk, stray);
    ScribbleStored(s, r.mem, mem, |chunk| + |stray|, floor);
    var higher := Max(floor, s.pos + |chunk| + |stray| - BUF);
    PutAllStored(s, chunk, mem, higher, lap);
    var t := PutAll(s, chunk);
    DropStored(t, mem, higher);
    DropMovesHead(t);
    DropLayout(t, lap);
  }

  lemma ScribbledIs(r: Ring, chunk: seq<byte>, stray: seq<byte>)
    requires Fits(r, chunk, stray)
    ensures var at, mem := r.log.pos % BUF, Scribbled(r, chunk, stray);
      && at + |chunk| + |stray| <= BUF == |mem| && Rewritten(r.mem, mem, at, |chunk| + |stray|)
      && mem[at..at + |chunk|] == chunk
  {
    hide Overwritten;
    OverwrittenIs(r.mem, r.log.pos % BUF, chunk + stray);
    SliceStarts(Scribbled(r, chunk, stray), r.log.pos % BUF, chunk, stray);
  }

  lemma {:induction false} DropLayout(s: Log, lap: nat)
    requires Layout(s) && InLap(s, lap)
    ensures Layout(DropDead(s)) && InLap(DropDead(s), lap)
    decreases |s.lines| - s.head
  {
    hide Layout, InLap;
    if s.head < |s.lines| && s.pos - s.lines[s.head].start > BUF {
      LayoutWithout(s, lap);
      DropLayout(s.(head := s.head + 1), lap);
    }
  }

  lemma LayoutWithout(s: Log, lap: nat)
    requires Layout(s) && InLap(s, lap) && s.head < |s.lines|
    ensures var t := s.(head := s.head + 1); Layout(t) && InLap(t, lap)
  {
  }

  /** A commit spoils no kept line from the end of what was written on, a buffer back. */
  lemma CommitSound(r: Ring, chunk: seq<byte>, stray: seq<byte>, floor: int)
    requires Sound(r, floor) && Fits(r, chunk, stray)
    ensures var t := RingCommit(r, chunk, stray);
      Sound(t, Max(Max(floor, r.log.pos + |chunk| + |stray| - BUF), t.log.pos - BUF))
  {
    hide AtRest, Stored, Copied, Relocate, DropDead, PutAll, Layout, InLap, Overwritten;
    WalkSound(r, chunk, stray, floor);
    CommitKeeps(r.log, chunk);
    var t, mem := DropDead(PutAll(r.log, chunk)), Scribbled(r, chunk, stray);
    var higher := Max(floor, r.log.pos + |chunk| + |stray| - BUF);
    CurLength(t, mem, higher);
    if t.cur != [] && t.pos % BUF == 0 {
      RelocateStored(t, mem, Lap(r.log.pos), higher);
      CopiedLength(mem, t.cur);
    } else {
      FloorRises(t, mem, higher, Max(higher, t.pos - BUF));
    }
  }

  // ----- which lines stray bytes spoil -----

  /** What a kept byte becomes under stray bytes written from `q` on. */
  function After(mem: seq<byte>, stray: seq<byte>, q: nat, at: nat): byte
    requires |mem| == BUF && q - BUF <= at
  {
    if at < q + |stray| - BUF then stray[at + BUF - q] else mem[at % BUF]
  }

  lemma BehindBy(q: nat, at: nat)
    requires q - BUF <= at < q
    ensures var d := at + BUF - q; at % BUF == if q % BUF + d < BUF then q % BUF + d else q % BUF + d - BUF
  {
    var k := q / BUF;
    var d := at + BUF - q;
    assert q == k * BUF + q % BUF && at == (k - 1) * BUF + (q % BUF + d);
    if q % BUF + d < BUF {
      if k > 0 {
        InLapMod((k - 1) * BUF, at);
      }
    } else {
      InLapMod(k * BUF, at);
    }
  }

  lemma AfterIs(mem: seq<byte>, stray: seq<byte>, q: nat, at: nat)
    requires |mem| == BUF && q % BUF + |stray| <= BUF && q - BUF <= at < q
    ensures Overwritten(mem, q % BUF, stray)[at % BUF] == After(mem, stray, q, at)
  {
    BehindBy(q, at);
  }

  lemma SlotOf(start: nat, j: nat)
    requires start % BUF + j < BUF
    ensures (start + j) % BUF == start % BUF + j
  {
    var k := start / BUF;
    assert start + j == k * BUF + (start % BUF + j);
    InLapMod(k * BUF, start + j);
  }

  /** A line less than a buffer back is still held exactly if each of its bytes is, stray or not. */
  lemma StrayExactly(mem: seq<byte>, stray: seq<byte>, q: nat, start: nat, text: seq<byte>)
    requires |mem| == BUF && q % BUF + |stray| <= BUF && start % BUF + |text| <= BUF
    requires q - BUF <= start && start + |text| <= q
    ensures Holds(Overwritten(mem, q % BUF, stray), start, text) <==>
      forall j :: 0 <= j < |text| ==> text[j] == After(mem, stray, q, start + j)
  {
    hide Overwritten, After;
    var mem' := Overwritten(mem, q % BUF, stray);
    OverwrittenLength(mem, q % BUF, stray);
    SliceIs(mem', start % BUF, text);
    forall j {:trigger text[j]} | 0 <= j < |text|
      ensures mem'[start % BUF + j] == After(mem, stray, q, start + j)
    {
      SlotOf(start, j);
      AfterIs(mem, stray, q, start + j);
    }
  }

  lemma SliceIs(mem: seq<byte>, from: nat, text: seq<byte>)
    requires from + |text| <= |mem|
    ensures mem[from..from + |text|] == text <==>
      forall j {:trigger text[j]} :: 0 <= j < |text| ==> mem[from + j] == text[j]
  {
    var slice := mem[from..from + |text|];
    if forall j {:trigger text[j]} :: 0 <= j < |text| ==> mem[from + j] == text[j] {
      assert forall j :: 0 <= j < |text| ==> slice[j] == text[j];
    } else {
      var j :| 0 <= j < |text| && mem[from + j] != text[j];
      assert slice[j] == mem[from + j];
    }
  }

  lemma OverwrittenLength(mem: seq<byte>, at: nat, bytes: seq<byte>)
    requires at + |bytes| <= |mem|
    ensures |Overwritten(mem, at, bytes)| == |mem|
  {
  }

  ghost predicate AllHeld(r: Ring) {
    forall n :: r.log.head <= n < |r.log.lines| ==> Holds(r.mem, r.log.lines[n].start, r.log.lines[n].text)
  }

  /** Wherever stray bytes written at `q` fall on a byte of a kept line, they are that byte. */
  ghost predicate Spares(s: Log, stray: seq<byte>, q: nat) {
    forall n :: s.head <= n < |s.lines| ==> SparesLine(s.lines[n], stray, q)
  }

  ghost predicate SparesLine(l: Line, stray: seq<byte>, q: nat) {
    forall j :: 0 <= j < |l.text| && q - BUF <= l.start + j < q + |stray| - BUF ==>
      l.text[j] == stray[l.start + j + BUF - q]
  }

  /** The bytes of a line that is held, each at its slot. */
  lemma BytesHeld(mem: seq<byte>, l: Line)
    requires Holds(mem, l.start, l.text)
    ensures forall j {:trigger l.text[j]} :: 0 <= j < |l.text| ==> mem[(l.start + j) % BUF] == l.text[j]
  {
    SliceIs(mem, l.start % BUF, l.text);
    forall j {:trigger l.text[j]} | 0 <= j < |l.text| ensures mem[(l.start + j) % BUF] == l.text[j] {
      SlotOf(l.start, j);
    }
  }

  /** A byte of a held line stays what it was exactly if no stray byte falls on it, or one like it. */
  lemma AfterSpares(mem: seq<byte>, stray: seq<byte>, q: nat, l: Line)
    requires |mem| == BUF && q - BUF <= l.start
    requires forall j {:trigger l.text[j]} :: 0 <= j < |l.text| ==> mem[(l.start + j) % BUF] == l.text[j]
    ensures (forall j :: 0 <= j < |l.text| ==> l.text[j] == After(mem, stray, q, l.start + j))
       <==> SparesLine(l, stray, q)
  {
    forall j {:trigger l.text[j]} | 0 <= j < |l.text|
      ensures After(mem, stray, q, l.start + j) == l.text[j] <==>
        (l.start + j < q + |stray| - BUF ==> l.text[j] == stray[l.start + j + BUF - q])
    {
    }
  }

  lemma LineExactly(mem: seq<byte>, stray: seq<byte>, q: nat, l: Line)
    requires q % BUF + |stray| <= BUF && Holds(mem, l.start, l.text) && q - BUF <= l.start && l.start + |l.text| <= q
    ensures Holds(Overwritten(mem, q % BUF, stray), l.start, l.text) <==> SparesLine(l, stray, q)
  {
    BytesHeld(mem, l);
    StrayExactly(mem, stray, q, l.start, l.text);
    hide Overwritten, Holds, After, SparesLine;
    AfterSpares(mem, stray, q, l);
  }

  /** Bytes left past a commit do not end at the physical end, so nothing is relocated after it. */
  lemma NoRelocation(r: Ring, chunk: seq<byte>, stray: seq<byte>)
    requires AtRest(r.log) && Fits(r, chunk, stray) && stray != []
    ensures var t := DropDead(PutAll(r.log, chunk));
      RingCommit(r, chunk, stray) == Ring(t, Scribbled(r, chunk, stray)) && t.pos == r.log.pos + |chunk|
    ensures (r.log.pos + |chunk|) % BUF == r.log.pos % BUF + |chunk|
  {
    hide Faithful, Retained, Alive, Audited, DropDead, PutAll, Overwritten, Relocate;
    LapOf(r.log.lineStart, |r.log.cur|);
    SlotOf(r.log.pos, |chunk|);
    PutAllMoves(r.log, chunk);
    DropMovesHead(PutAll(r.log, chunk));
  }

  lemma {:induction false} PutAllMoves(s: Log, chunk: seq<byte>)
    ensures PutAll(s, chunk).pos == s.pos + |chunk| && (chunk == [] ==> PutAll(s, chunk) == s)
  {
    if chunk != [] {
      PutAllMoves(s, chunk[..|chunk| - 1]);
    }
  }

  lemma TwoWrites(mem: seq<byte>, at: nat, a: seq<byte>, b: seq<byte>)
    requires at + |a| + |b| <= |mem|
    ensures Overwritten(mem, at, a + b) == Overwritten(Overwritten(mem, at, a), at + |a|, b)
  {
  }

  lemma KeptInLap(s: Log, n: nat)
    requires AtRest(s) && s.head <= n < |s.lines|
    ensures s.pos - BUF <= s.lines[n].start && s.lines[n].start + |s.lines[n].text| <= s.pos
  {
    hide Faithful, Retained, Audited;
  }

  /**
   A commit that leaves stray bytes, where nothing kept was spoiled before, leaves every kept line held exactly if the
   stray bytes agree with whatever kept bytes they fall on.
  */
  lemma CommitExactly(r: Ring, chunk: seq<byte>, stray: seq<byte>, floor: int)
    requires Sound(r, floor) && Fits(r, chunk, stray) && stray != [] && floor <= r.log.pos + |chunk| - BUF
    ensures var t := RingCommit(r, chunk, stray);
      AllHeld(t) <==> Spares(t.log, stray, r.log.pos + |chunk|)
  {
    hide AtRest, Holds, Overwritten, DropDead, PutAll, Layout, InLap, SparesLine, RingCommit, Commit;
    var q, t := r.log.pos + |chunk|, RingCommit(r, chunk, stray);
    NoRelocation(r, chunk, stray);
    CommitIsLog(r, chunk, stray);
    CommitKeeps(r.log, chunk);
    WalkSound(r, chunk, [], floor);
    TwoWrites(r.mem, r.log.pos % BUF, chunk, stray);
    assert chunk + [] == chunk;
    var mem := Overwritten(r.mem, r.log.pos % BUF, chunk);
    CurLength(t.log, mem, q - BUF);
    forall n | t.log.head <= n < |t.log.lines|
      ensures Holds(t.mem, t.log.lines[n].start, t.log.lines[n].text) <==> SparesLine(t.log.lines[n], stray, q)
    {
      KeptInLap(t.log, n);
      LineExactly(mem, stray, q, t.log.lines[n]);
    }
  }

  lemma CommitIsLog(r: Ring, chunk: seq<byte>, stray: seq<byte>)
    requires Fits(r, chunk, stray)
    ensures RingCommit(r, chunk, stray).log == Commit(r.log, chunk)
  {
    hide Commit, DropDead, PutAll, Overwritten;
  }

  // ----- whole runs -----

  datatype Scribble = Scribble(need: nat, chunk: seq<byte>, stray: seq<byte>)

  /** The ring as it is made, its bytes all zero. */
  function Blank(): Ring {
    Ring(EMPTY, seq(BUF, i => 0))
  }

  function RingStep(r: Ring, w: Scribble): Ring {
    var i := RingImbue(r, w.need);
    if Fits(i, w.chunk, w.stray) then RingCommit(i, w.chunk, w.stray) else i
  }

  function RingRun(ws: seq<Scribble>): Ring {
    if ws == [] then Blank() else RingStep(RingRun(ws[..|ws| - 1]), ws[|ws| - 1])
  }

  /** Each producer asks for no more than the ring allows and writes no more than it was given. */
  ghost predicate Orderly(ws: seq<Scribble>) {
    ws == [] ||
    (var w := ws[|ws| - 1];
     Orderly(ws[..|ws| - 1]) && w.need <= BUF / 4
     && Fits(RingImbue(RingRun(ws[..|ws| - 1]), w.need), w.chunk, w.stray))
  }

  function FloorAfter(r: Ring, w: Scribble, floor: int): int {
    var i := RingImbue(r, w.need);
    Max(Max(Max(floor, i.log.pos - BUF), i.log.pos + |w.chunk| + |w.stray| - BUF), RingStep(r, w).log.pos - BUF)
  }

  /** From where on no kept line can have been spoiled: a buffer behind the furthest byte ever written. */
  function Floor(ws: seq<Scribble>): int {
    if ws == [] then 0 - BUF else
      FloorAfter(RingRun(ws[..|ws| - 1]), ws[|ws| - 1], Floor(ws[..|ws| - 1]))
  }

  lemma BlankSound()
    ensures Sound(Blank(), 0 - BUF)
  {
    EmptyAtRest();
  }

  lemma StepSound(r: Ring, w: Scribble, floor: int)
    requires Sound(r, floor) && w.need <= BUF / 4 && Fits(RingImbue(r, w.need), w.chunk, w.stray)
    ensures Sound(RingStep(r, w), FloorAfter(r, w, floor))
  {
    hide Sound, RingImbue, RingCommit;
    ImbueSound(r, w.need, floor);
    var i := RingImbue(r, w.need);
    CommitSound(i, w.chunk, w.stray, Max(floor, i.log.pos - BUF));
  }

  /** Over every run, whatever producers leave past what they commit, every kept line from the floor on is held. */
  lemma {:induction false} RunSound(ws: seq<Scribble>)
    requires Orderly(ws)
    ensures Sound(RingRun(ws), Floor(ws))
  {
    hide Sound, RingStep, FloorAfter, Fits;
    if ws == [] {
      BlankSound();
    } else {
      RunSound(ws[..|ws| - 1]);
      StepSound(RingRun(ws[..|ws| - 1]), ws[|ws| - 1], Floor(ws[..|ws| - 1]));
    }
  }

  function Committed(ws: seq<Scribble>): seq<Write> {
    if ws == [] then [] else Committed(ws[..|ws| - 1]) + [Write(ws[|ws| - 1].need, ws[|ws| - 1].chunk)]
  }

  /** What the log is does not depend on the stray bytes, so its lines are the split of what was committed. */
  lemma {:induction false} RunIsLog(ws: seq<Scribble>)
    requires Orderly(ws)
    ensures Allowed(Committed(ws)) && RingRun(ws).log == Run(Committed(ws))
  {
    hide Fits, RingCommit, Imbue, Commit;
    if ws != [] {
      var front, w := ws[..|ws| - 1], ws[|ws| - 1];
      RunIsLog(front);
      var ms := Committed(ws);
      assert ms[..|ms| - 1] == Committed(front) && ms[|ms| - 1] == Write(w.need, w.chunk);
      var i := RingImbue(RingRun(front), w.need);
      FitsWithin(i, w.chunk, w.stray);
      CommitIsLog(i, w.chunk, w.stray);
    }
  }

  lemma FitsWithin(r: Ring, chunk: seq<byte>, stray: seq<byte>)
    requires Fits(r, chunk, stray)
    ensures |chunk| + |stray| <= BUF - r.log.pos % BUF
  {
  }

  /** How far ahead of the log's end producers wrote, at most. */
  lemma {:induction false} FloorIsNear(ws: seq<Scribble>, most: nat)
    requires Orderly(ws) && forall w <- ws :: |w.stray| <= most
    ensures Floor(ws) <= RingRun(ws).log.pos + most - BUF
  {
    hide RingCommit, RingImbue, Fits;
    if ws != [] {
      var front, w := ws[..|ws| - 1], ws[|ws| - 1];
      assert w in ws && forall v <- front :: v in ws;
      FloorIsNear(front, most);
      StepAdvances(RingRun(front), w);
    }
  }

  lemma StepAdvances(r: Ring, w: Scribble)
    ensures r.log.pos <= RingImbue(r, w.need).log.pos
    ensures Fits(RingImbue(r, w.need), w.chunk, w.stray) ==>
      RingImbue(r, w.need).log.pos + |w.chunk| <= RingStep(r, w).log.pos
  {
    hide DropDead, PutAll, Overwritten;
    DropMovesHead(Move(r.log));
    var i := RingImbue(r, w.need);
    PutAllMoves(i.log, w.chunk);
    var t := PutAll(i.log, w.chunk);
    DropMovesHead(t);
    DropMovesHead(Move(DropDead(t)));
  }

  /** Producers that commit all they write, as all but the formatter of doubles do, spoil nothing. */
  lemma CleanRun(ws: seq<Scribble>)
    requires Orderly(ws) && forall w <- ws :: w.stray == []
    ensures AllHeld(RingRun(ws))
  {
    hide Holds, RingRun, Orderly, Floor;
    RunSound(ws);
    FloorIsNear(ws, 0);
    var s := RingRun(ws).log;
    forall n | s.head <= n < |s.lines| ensures s.lines[n].start >= Floor(ws) {
      KeptInLap(s, n);
    }
  }

  /**
   Producers that leave at most one byte, as a terminator, behind what they commit: after one more that commits
   something, every kept line is held exactly if that byte is not on the first byte of one, or is that byte.
  */
  lemma TerminatorRun(ws: seq<Scribble>, w: Scribble)
    requires Orderly(ws + [w]) && (forall v <- ws :: |v.stray| <= 1) && |w.stray| <= 1 && w.chunk != []
    ensures var r := RingRun(ws + [w]);
      AllHeld(r) <==> w.stray == [] || FirstBytes(r.log, w.stray[0])
  {
    hide RingImbue, RingCommit, Sound, AllHeld, FirstBytes, Fits, Floor;
    var all := ws + [w];
    assert all[..|all| - 1] == ws && all[|all| - 1] == w;
    RunSound(ws);
    FloorIsNear(ws, 1);
    var r := RingRun(ws);
    StepAdvances(r, w);
    var i := RingImbue(r, w.need);
    ImbueSound(r, w.need, Floor(ws));
    var floor := Max(Floor(ws), i.log.pos - BUF);
    if w.stray == [] {
      CommitSound(i, w.chunk, [], floor);
      SoundAll(RingCommit(i, w.chunk, []));
    } else {
      CommitExactly(i, w.chunk, w.stray, floor);
      assert w.stray == [w.stray[0]];
      EndOfCommit(i, w.chunk, w.stray, floor);
      SparesFirst(RingCommit(i, w.chunk, w.stray).log, w.stray[0]);
    }
  }

  /** The first byte of a kept line a whole buffer back is `b`. */
  ghost predicate FirstBytes(s: Log, b: byte) {
    forall n :: s.head <= n < |s.lines| && s.lines[n].start == s.pos - BUF && s.lines[n].text != [] ==>
      s.lines[n].text[0] == b
  }

  lemma SoundAll(r: Ring)
    requires Sound(r, r.log.pos - BUF)
    ensures AllHeld(r)
  {
    hide Holds;
    forall n | r.log.head <= n < |r.log.lines| ensures r.log.lines[n].start >= r.log.pos - BUF {
      KeptInLap(r.log, n);
    }
  }

  lemma EndOfCommit(r: Ring, chunk: seq<byte>, stray: seq<byte>, floor: int)
    requires Sound(r, floor) && Fits(r, chunk, stray) && stray != []
    ensures RingCommit(r, chunk, stray).log.pos == r.log.pos + |chunk| && AtRest(RingCommit(r, chunk, stray).log)
  {
    hide AtRest, Stored, DropDead, PutAll, Overwritten, RingCommit, Commit;
    NoRelocation(r, chunk, stray);
    CommitIsLog(r, chunk, stray);
    CommitKeeps(r.log, chunk);
  }

  lemma SparesFirst(s: Log, b: byte)
    requires AtRest(s)
    ensures Spares(s, [b], s.pos) <==> FirstBytes(s, b)
  {
    hide AtRest;
    forall n | s.head <= n < |s.lines|
      ensures SparesLine(s.lines[n], [b], s.pos) <==>
        (s.lines[n].start == s.pos - BUF && s.lines[n].text != [] ==> s.lines[n].text[0] == b)
    {
      KeptInLap(s, n);
    }
  }

  // ----- a run that spoils a line -----

  function Filler(b: byte, k: nat): seq<byte> {
    seq(k, i => b)
  }

  /** Seven bytes and a newline, bytes up to the last of the buffer, and a newline there. */
  function Whole(): seq<byte> {
    Filler(97, 7) + [NEWLINE] + Filler(98, BUF - 9) + [NEWLINE]
  }

  /** The characters of the number one and a half, as the formatter of doubles writes them. */
  const DIGITS: seq<byte> := [49, 46, 53, 48, 48, 48, 48, 48]

  const DOUBLE: Scribble := Scribble(128, DIGITS, [0])

  lemma {:induction false} PutAllSplits(s: Log, a: seq<byte>, b: seq<byte>)
    ensures PutAll(s, a + b) == PutAll(PutAll(s, a), b)
  {
    hide Put;
    if b == [] {
      assert a + b == a;
    } else {
      var front, all := b[..|b| - 1], a + b;
      PutAllSplits(s, a, front);
      assert all[..|all| - 1] == a + front && all[|all| - 1] == b[|b| - 1];
    }
  }

  /** Bytes that neither end the line nor fill it. */
  lemma {:induction false} PutPlain(s: Log, chunk: seq<byte>)
    requires NEWLINE !in chunk && |s.cur| + |chunk| < MAX_LINE
    ensures PutAll(s, chunk) == s.(stream := s.stream + chunk, pos := s.pos + |chunk|, cur := s.cur + chunk)
  {
    if chunk != [] {
      var front, b := chunk[..|chunk| - 1], chunk[|chunk| - 1];
      PutPlain(s, front);
      assert chunk == front + [b] && s.stream + front + [b] == s.stream + chunk && s.cur + front + [b] == s.cur + chunk;
    } else {
      assert s.stream + chunk == s.stream && s.cur + chunk == s.cur;
    }
  }

  /** A log whose first line is seven bytes long, and whose second begins with `b`. */
  ghost predicate Lined(s: Log, b: byte) {
    && s.head == 0 < |s.lines| && s.lines[0].start == 0 && NEWLINE != b
    && s.pos == 8 + (|s.lines| - 1) * MAX_LINE + |s.cur| && |s.cur| < MAX_LINE
    && (if |s.lines| == 1 then s.lineStart == 8 && (s.cur != [] ==> s.cur[0] == b)
        else s.lines[1].start == 8 && s.lines[1].text != [] && s.lines[1].text[0] == b)
  }

  lemma {:induction false} PutLined(s: Log, b: byte, k: nat)
    requires Lined(s, b) && s.cur == [] && |s.lines| == 1 && k <= BUF
    ensures Lined(PutAll(s, Filler(b, k)), b) && PutAll(s, Filler(b, k)).pos == s.pos + k
  {
    var fill := Filler(b, k);
    if k > 0 {
      assert fill[..k - 1] == Filler(b, k - 1) && fill[k - 1] == b;
      PutLined(s, b, k - 1);
    } else {
      assert fill == [];
    }
  }

  /** The two lines the failing run turns on: the first a whole buffer back, the second eight bytes behind it. */
  lemma WholeLines()
    ensures |Whole()| == BUF
    ensures var t := PutAll(EMPTY, Whole());
      && t.pos == BUF && t.cur == [] && t.head == 0 && |t.lines| > 1 && t.lines[0].start == 0
      && t.lines[1].start == 8 && t.lines[1].text != [] && t.lines[1].text[0] == 98
  {
    hide PutAll;
    var a, b := Filler(97, 7), Filler(98, BUF - 9);
    PutPlain(EMPTY, a);
    PutAllSplits(EMPTY, a + [NEWLINE] + b, [NEWLINE]);
    PutAllSplits(EMPTY, a + [NEWLINE], b);
    PutAllSplits(EMPTY, a, [NEWLINE]);
    var t := PutAll(EMPTY, a);
    PutOne(t, NEWLINE);
    var u := Put(t, NEWLINE);
    PutLined(u, 98, BUF - 9);
    PutOne(PutAll(u, b), NEWLINE);
  }

  lemma PutOne(s: Log, b: byte)
    ensures PutAll(s, [b]) == Put(s, b)
  {
    assert [b][..0] == [];
  }

  lemma FirstStep()
    ensures Fits(RingImbue(Blank(), 1), Whole(), [])
    ensures RingStep(Blank(), Scribble(1, Whole(), [])).log == PutAll(EMPTY, Whole())
  {
    hide PutAll, Overwritten;
    WholeLines();
  }

  lemma SecondStep(r: Ring)
    requires r.log == PutAll(EMPTY, Whole()) && |r.mem| == BUF
    ensures Fits(RingImbue(r, 128), DIGITS, [0])
    ensures var t := RingStep(r, DOUBLE).log;
      && t.head == 1 < |t.lines| && t.pos == BUF + 8
      && t.lines[1].start == 8 && t.lines[1].text != [] && t.lines[1].text[0] == 98
  {
    hide PutAll, Overwritten, Whole;
    WholeLines();
    PutPlain(r.log, DIGITS);
    var s := PutAll(r.log, DIGITS);
    var t := s.(head := 1);
    assert DropDead(s) == DropDead(t) == t;
    assert RingImbue(r, 128).log == r.log && t.pos % BUF == 8;
  }

  /** One line and one double: the terminator lies on the first byte of the oldest kept line. */
  lemma DoubleSpoilsALine()
    ensures var ws := [Scribble(1, Whole(), []), DOUBLE];
      Orderly(ws) && !AllHeld(RingRun(ws)) && RingRun(ws).log.head == 1
  {
    hide RingStep, RingImbue, Whole, PutAll, AllHeld, Fits, Sound;
    var w := Scribble(1, Whole(), []);
    FirstStep();
    assert [w][..0] == [] && RingRun([]) == Blank();
    assert RingRun([w]) == RingStep(Blank(), w);
    assert Orderly([w]);
    RunSound([w]);
    assert |RingRun([w]).mem| == BUF by { SoundBytes(RingRun([w]), Floor([w])); }
    SecondStep(RingRun([w]));
    var ws := [w, DOUBLE];
    assert ws == [w] + [DOUBLE] && ws[..1] == [w] && ws[1] == DOUBLE;
    TerminatorRun([w], DOUBLE);
  }

  lemma SoundBytes(r: Ring, floor: int)
    requires Sound(r, floor)
    ensures |r.mem| == BUF
  {
  }
}
