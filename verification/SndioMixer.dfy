/** The sndio mixer as the object it is: the echo filter of each control over its array, and the level and mute. */
module SndioMixer {
  import opened EchoModel

  class Writes {
    const values: array<u32>
    var count: nat

    ghost predicate Valid()
      reads this
    {
      values.Length == CAPACITY && count <= CAPACITY
    }

    ghost function Contents(): seq<u32>
      reads this, values
      requires Valid()
    {
      values[..count]
    }

    constructor ()
      ensures Valid() && fresh(values) && Contents() == []
    {
      values := new u32[CAPACITY](_ => 0);
      count := 0;
    }

    /** Move the values after the first `n` to the front. */
    method Forget(n: nat)
      requires Valid() && n <= count
      modifies this, values
      ensures Valid() && Contents() == old(Contents())[n..]
    {
      forall i | 0 <= i < count - n {
        values[i] := values[i + n];
      }
      count := count - n;
    }

    method Sent(v: u32)
      requires Valid()
      modifies this, values
      ensures Valid() && Contents() == EchoModel.Sent(old(Contents()), v)
    {
      if count == CAPACITY {
        Forget(1);
      }
      values[count] := v;
      count := count + 1;
    }

    method Echoed(v: u32) returns (echo: bool)
      requires Valid()
      modifies this, values
      ensures Valid() && Contents() == EchoModel.Echoed(old(Contents()), v)
      ensures echo <==> v in old(Contents())
    {
      for i := 0 to count
        invariant forall k :: 0 <= k < i ==> values[k] != v
      {
        if values[i] == v {
          assert First(Contents(), v) == i;
          Forget(i + 1);
          return true;
        }
      }
      assert v !in Contents();
      NewsSupersedes(Control(0, Contents()), v);
      count := 0;
      return false;
    }
  }

  /** What the server says of a control: whether it is an output control, which, where, and its range. */
  datatype Kind = Num | Switch | Gone

  datatype Desc = Desc(output: bool, kind: Kind, func: string, addr: u32, maxval: u32)

  /** Both controls, their addresses, the saved level of the soft mute, what was sent and how often listeners ran. */
  datatype State = State(
    levelAddr: int, muteAddr: int, levelMax: u32, softSaved: real,
    level: Control, mute: Control, sent: seq<(int, u32)>, notices: nat)

  /** An address as the signed word it is compared as. */
  function Signed(addr: u32): int {
    if addr < WORD / 2 then addr else addr - WORD
  }

  /** The nearest raw level, halves up. */
  function Raw(v: real, max: u32): u32
    requires 0.0 <= v <= 1.0
  {
    RawFits(v, max);
    (Share(v, max as real) + 0.5).Floor
  }

  function Share(v: real, whole: real): real { v * whole }

  lemma RawFits(v: real, max: u32)
    requires 0.0 <= v <= 1.0
    ensures 0 <= (Share(v, max as real) + 0.5).Floor <= max
  {
    hide Share;
    ShareFits(v, max as real);
    RoundFits(Share(v, max as real), max);
  }

  lemma RoundFits(raw: real, max: int)
    requires 0.0 <= raw <= max as real
    ensures 0 <= (raw + 0.5).Floor <= max
  {
    assert (raw + 0.5).Floor as real <= max as real + 0.5;
  }

  lemma ShareFits(v: real, whole: real)
    requires 0.0 <= v <= 1.0 && 0.0 <= whole
    ensures 0.0 <= Share(v, whole) <= whole
  {
    NotNegative(v, whole);
    NotNegative(1.0 - v, whole);
    assert (1.0 - v) * whole == whole - v * whole;
  }

  lemma NotNegative(x: real, y: real)
    requires 0.0 <= x && 0.0 <= y
    ensures 0.0 <= x * y
  {
  }

  function VolumeSet(s: State, v: real): State
    requires 0.0 <= v <= 1.0
  {
    if s.levelAddr < 0 then s else
      var raw := Raw(v, s.levelMax);
      s.(level := Write(s.level, raw), notices := s.notices + 1,
         sent := if raw == s.level.level then s.sent else s.sent + [(s.levelAddr, raw)])
  }

  function Volume(s: State): real {
    if s.levelMax == 0 then 0.0 else s.level.level as real / s.levelMax as real
  }

  /** The level within its range and the saved one between silence and full, as the callers keep them. */
  predicate Sound(s: State) {
    s.level.level <= s.levelMax && 0.0 <= s.softSaved <= 1.0
  }

  function MuteSet(s: State, m: bool): State
    requires Sound(s)
  {
    if s.muteAddr >= 0 then
      var bit := if m then 1 else 0;
      s.(mute := Force(s.mute, bit), notices := s.notices + 1, sent := s.sent + [(s.muteAddr, bit)])
    else if m && s.level.level > 0 then VolumeSet(s.(softSaved := Volume(s)), 0.0)
    else if !m then VolumeSet(s.(softSaved := 0.0), s.softSaved)
    else s
  }

  function Heard(c: Control, notices: nat, v: u32): (Control, nat) {
    (Report(c, v), if Report(c, v).level == c.level then notices else notices + 1)
  }

  function ValHeard(s: State, addr: u32, v: u32): State {
    if Signed(addr) == s.levelAddr then
      var (level, notices) := Heard(s.level, s.notices, v);
      s.(level := level, notices := notices)
    else if Signed(addr) == s.muteAddr then
      var (mute, notices) := Heard(s.mute, s.notices, v);
      s.(mute := mute, notices := notices)
    else s
  }

  /**
   A report of news changes the control at its address, and is announced exactly if it is a change; the echo of a write
   changes nothing but what is in flight; and neither touches the other control.
  */
  lemma NewsIsHeard(s: State, addr: u32, v: u32)
    ensures var t := ValHeard(s, addr, v);
      && (Signed(addr) == s.levelAddr ==> t.mute == s.mute && Heeds(s.level, t.level, t.notices - s.notices, v))
      && (Signed(addr) == s.muteAddr != s.levelAddr ==>
        t.level == s.level && Heeds(s.mute, t.mute, t.notices - s.notices, v))
      && (Signed(addr) != s.levelAddr && Signed(addr) != s.muteAddr ==> t == s)
      && t.sent == s.sent && t.softSaved == s.softSaved
  {
    NewsSupersedes(s.level, v);
    NewsSupersedes(s.mute, v);
  }

  /** What a report of `v` does to a control, and how many times listeners hear of it. */
  predicate Heeds(before: Control, after: Control, heard: int, v: u32) {
    if v in before.queue then after.level == before.level && |after.queue| < |before.queue| && heard == 0
    else after == Control(v, []) && heard == if v != before.level then 1 else 0
  }

  /** Parking the level at zero and coming back, with nothing heard in between, is no change. */
  lemma SoftMuteUndone(s: State)
    requires Sound(s) && s.muteAddr < 0 <= s.levelAddr && s.level.level > 0
    ensures var parked := MuteSet(s, true);
      && parked.level.level == 0 && parked.softSaved > 0.0 && Sound(parked)
      && MuteSet(parked, false).level.level == s.level.level
  {
    RawOf(s.level.level, s.levelMax);
    RawOf(0, s.levelMax);
  }

  predicate Muted(s: State) {
    if s.muteAddr >= 0 then s.mute.level != 0 else s.level.level == 0 && s.softSaved > 0.0
  }

  /**
   Asked to mute or unmute, the mixer is as asked unless there is no mute control and nothing to park: no level control,
   or a level that was at zero by itself. A mute control is sent 1 or 0 for it, and nothing else is sent.
  */
  lemma MuteTakes(s: State, m: bool)
    requires Sound(s)
    ensures var t := MuteSet(s, m);
      && (Muted(t) == m <==>
            !m || s.muteAddr >= 0 || Muted(s) || (s.levelAddr >= 0 && s.level.level > 0))
      && (s.muteAddr >= 0 ==> t.sent == s.sent + [(s.muteAddr, if m then 1 else 0)] && t.level == s.level)
  {
    hide Raw;
    if s.muteAddr < 0 && m && s.level.level > 0 {
      RawOf(s.level.level, s.levelMax);
      RawOf(0, s.levelMax);
    }
  }

  /** A volume set is the nearest raw level, sent if it is a change, and announced either way. */
  lemma VolumeIsNearest(s: State, v: real)
    requires 0.0 <= v <= 1.0 && s.levelAddr >= 0
    ensures var t := VolumeSet(s, v);
      && -0.5 <= t.level.level as real - v * s.levelMax as real <= 0.5 && t.level.level <= s.levelMax
      && t.sent == (if t.level.level == s.level.level then s.sent else s.sent + [(s.levelAddr, t.level.level)])
      && t.notices == s.notices + 1 && t == s.(level := t.level, sent := t.sent, notices := t.notices)
  {
    hide EchoModel.Sent;
    RawFits(v, s.levelMax);
  }

  lemma RawOf(level: u32, max: u32)
    requires level <= max && 0 < max
    ensures 0.0 <= level as real / max as real <= 1.0
    ensures Raw(level as real / max as real, max) == level
    ensures level > 0 ==> level as real / max as real > 0.0
  {
    assert (level as real / max as real) * max as real == level as real;
    assert (level as real + 0.5).Floor == level;
  }

  class Mixer {
    var levelAddr: int
    var muteAddr: int
    var levelMax: u32
    var level: u32
    var mute: u32
    var softSaved: real
    const levelWrites: Writes
    const muteWrites: Writes
    var sent: seq<(int, u32)>
    var notices: nat

    ghost predicate Valid()
      reads this, levelWrites, muteWrites
    {
      levelWrites.Valid() && muteWrites.Valid() && levelWrites != muteWrites && levelWrites.values != muteWrites.values
    }

    ghost function View(): State
      reads this, levelWrites, muteWrites, levelWrites.values, muteWrites.values
      requires Valid()
    {
      State(levelAddr, muteAddr, levelMax, softSaved, Control(level, levelWrites.Contents()),
            Control(mute, muteWrites.Contents()), sent, notices)
    }

    constructor ()
      ensures Valid()
      ensures View() == State(-1, -1, 127, 0.0, Control(0, []), Control(0, []), [], 0)
    {
      levelAddr, muteAddr, levelMax, level, mute, softSaved := -1, -1, 127, 0, 0, 0.0;
      levelWrites := new Writes();
      muteWrites := new Writes();
      sent, notices := [], 0;
    }

    method SetVolume(v: real)
      requires Valid() && 0.0 <= v <= 1.0
      modifies this, levelWrites, levelWrites.values
      ensures Valid() && View() == VolumeSet(old(View()), v)
    {
      hide Raw, EchoModel.Sent;
      if levelAddr < 0 {
        return;
      }
      var raw := Raw(v, levelMax);
      if raw != level {
        level := raw;
        levelWrites.Sent(raw);
        sent := sent + [(levelAddr, raw)];
      }
      notices := notices + 1;
    }

    method SetMuted(m: bool)
      requires Valid() && Sound(View())
      modifies this, levelWrites, levelWrites.values, muteWrites, muteWrites.values
      ensures Valid() && View() == MuteSet(old(View()), m)
    {
      hide VolumeSet, EchoModel.Sent;
      if muteAddr >= 0 {
        mute := if m then 1 else 0;
        muteWrites.Sent(mute);
        sent := sent + [(muteAddr, mute)];
        notices := notices + 1;
        return;
      }
      if m && level > 0 {
        softSaved := if levelMax == 0 then 0.0 else level as real / levelMax as real;
        SetVolume(0.0);
      } else if !m {
        var v := softSaved;
        softSaved := 0.0;
        SetVolume(v);
      }
    }

    method Val(addr: u32, v: u32)
      requires Valid()
      modifies this, levelWrites, levelWrites.values, muteWrites, muteWrites.values
      ensures Valid() && View() == ValHeard(old(View()), addr, v)
    {
      hide EchoModel.Echoed;
      if Signed(addr) == levelAddr {
        var echo := levelWrites.Echoed(v);
        if !echo && v != level {
          level := v;
          notices := notices + 1;
        }
      } else if Signed(addr) == muteAddr {
        var echo := muteWrites.Echoed(v);
        if !echo && v != mute {
          mute := v;
          notices := notices + 1;
        }
      }
    }

    /** A control appears, moves or goes; the level it comes with is believed. */
    method Describe(d: Desc, v: u32)
      requires Valid()
      modifies this
      ensures Valid()
      ensures levelWrites.Contents() == old(levelWrites.Contents())
      ensures muteWrites.Contents() == old(muteWrites.Contents())
      ensures softSaved == old(softSaved) && sent == old(sent) && notices == old(notices)
      ensures d.output && d.kind == Num && d.func == "level" ==>
        levelAddr == Signed(d.addr) && level == v && 0 < levelMax && (d.maxval > 0 ==> levelMax == d.maxval)
        && muteAddr == old(muteAddr) && mute == old(mute)
      ensures d.output && d.kind == Switch && d.func == "mute" ==>
        muteAddr == Signed(d.addr) && mute == v
        && levelAddr == old(levelAddr) && level == old(level) && levelMax == old(levelMax)
      ensures d.output && d.kind == Gone ==>
        && levelAddr == (if Signed(d.addr) == old(levelAddr) then -1 else old(levelAddr))
        && muteAddr == (if Signed(d.addr) == old(muteAddr) then -1 else old(muteAddr))
        && level == old(level) && mute == old(mute) && levelMax == old(levelMax)
      ensures !d.output || (d.kind == Num && d.func != "level") || (d.kind == Switch && d.func != "mute") ==>
        View() == old(View())
    {
      if d.output {
        if d.kind == Num && d.func == "level" {
          levelAddr := Signed(d.addr);
          levelMax := if d.maxval != 0 then d.maxval else 1;
          level := v;
        } else if d.kind == Switch && d.func == "mute" {
          muteAddr := Signed(d.addr);
          mute := v;
        } else if d.kind == Gone {
          if Signed(d.addr) == levelAddr {
            levelAddr := -1;
          }
          if Signed(d.addr) == muteAddr {
            muteAddr := -1;
          }
        }
      }
    }
  }
}
