/**
 What the operations of the output bring about: what ends up on the screen and on the device, and a screenshot from
 its preparation to the end of the image it took.
*/
module KmsEffects {
  import opened FakeKms
  import opened KmsModel
  import opened KmsProofs

  /** The flip in flight reaches the screen, and its event the backend. */
  function Completed(s: Kms, degraded: bool): Kms {
    PageFlip(s.(link := DeviceFlip(s.link)), degraded)
  }

  lemma CompletedShows(s: Kms, degraded: bool)
    requires Inv(s) && s.link.dev.flipPending && !s.link.dev.held
    ensures var t := Completed(s, degraded);
      && Inv(t) && t.link.screen == PlaneFb(s.link.dev) && !t.link.flipPending && t.link.dev.props == s.link.dev.props
      && (t.swap, t.shot) == KmsModel.RetireScreenshot(s.swap.(current := s.swap.queued, queued := -1), s.shot)
      && t.direct == TurnOver(s.direct, s.link.flips + 1)
      && t.link.dev.held == s.link.dev.held && t.session == s.session
  {
    hide Buffers, OneFlip, Swapchain, Handoff, Frames, TurnOver, KmsModel.RetireScreenshot, PlaneFb;
    DeviceFlipKeeps(s);
    var u := s.(link := DeviceFlip(s.link));
    PageFlipKeeps(u, degraded);
  }

  /** An accepted present puts its image on the screen with the next flip, and hands out the other one. */
  lemma PresentReachesScreen(s: Kms, i: Slot, degraded: bool)
    requires Inv(s)
    ensures PresentImage(s, i).0 && !PresentImage(s, i).1.link.dev.held ==>
      var t := Completed(PresentImage(s, i).1, degraded);
      && t.link.screen == Scan(s.swap, i) && t.swap.current == i && Acquire(t) == 1 - i
      && t.link.flips == s.link.flips + 1 && t.direct.current == 0
  {
    hide Show, Frames, Buffers, Handoff;
    if PresentImage(s, i).0 && !PresentImage(s, i).1.link.dev.held {
      ShowKeeps(s, Scan(s.swap, i), !s.config.modesetDone);
      PresentKeeps(s, i);
      var t := PresentImage(s, i).1;
      CompletedShows(t, degraded);
      ForgottenTurns(t.direct, t.link.flips + 1);
    }
  }

  lemma ForgottenTurns(d: Direct, at: nat)
    requires d.queued == 0
    ensures TurnOver(d, at).current == 0
  {
  }

  /** An accepted direct frame puts the client's buffer on the screen with the next flip, and holds its reference. */
  lemma DirectReachesScreen(s: Kms, fb: nat, degraded: bool)
    requires Inv(s) && Ready(s) && fb !in s.swap.live
    requires DirectScanout(s, fb).0 && !DirectScanout(s, fb).1.link.dev.held
    ensures var t := Completed(DirectScanout(s, fb).1, degraded);
      && t.link.screen == fb && t.direct.current == fb && t.direct.currentFrame == Some(|s.direct.births|)
      && |t.direct.births| == |s.direct.births| + 1 && t.swap.current == -1
  {
    hide Show, Frames, Buffers, Handoff;
    ShowKeeps(s, fb, false);
    DirectKeeps(s, fb);
    var t := DirectScanout(s, fb).1;
    CompletedShows(t, degraded);
    TurnsIn(t.direct, t.link.flips + 1);
  }

  lemma TurnsIn(d: Direct, at: nat)
    ensures var t := TurnOver(d, at); t.current == d.queued && t.currentFrame == d.queuedFrame && t.births == d.births
  {
  }

  // ----- a screenshot from end to end -----

  /** The steps of a screenshot: the image is presented and taken, and shown; the next one is presented, and shown. */
  function Taken(s: Kms, i: Slot): Kms {
    TakeScreenshot(PresentImage(s, i).1, i, true).1
  }

  predicate Goes(s: Kms, i: Slot) {
    PresentImage(s, i).0 && !PresentImage(s, i).1.link.dev.held
  }

  /**
   A prepared screenshot takes the image being presented, which is shown like any other; once the next image is shown
   in its place the taken buffer is gone and the spare is in its slot, and a new screenshot can be prepared.
  */
  lemma ScreenshotFromEndToEnd(s: Kms, i: Slot, degraded: bool)
    requires Inv(s) && s.shot.state == 2
    ensures var shown := Completed(Taken(s, i), degraded);
      var after := Completed(PresentImage(shown, 1 - i).1, degraded);
      && (Goes(s, i) ==>
        shown.link.screen == Scan(s.swap, i) && Scan(s.swap, i) in shown.swap.live && shown.shot == Shot(3, i, true))
      && (Goes(s, i) && Goes(shown, 1 - i) ==>
        && after.link.screen == Scan(s.swap, 1 - i) && Scan(s.swap, i) !in after.swap.live
        && Scan(after.swap, i) == s.swap.spare && after.swap.spare == 0 && PrepareScreenshot(after).0)
  {
    hide Show, Frames, TurnOver, PlaneFb, Completed;
    if Goes(s, i) {
      var presented := PresentImage(s, i).1;
      ShowKeeps(s, Scan(s.swap, i), !s.config.modesetDone);
      PresentKeeps(s, i);
      ScreenshotKeeps(presented, true, i, true);
      var taken := Taken(s, i);
      assert taken.swap == s.swap.(next := 1 - i, queued := i) && taken.shot == Shot(3, i, false);
      CompletedShows(taken, degraded);
      var shown := Completed(taken, degraded);
      if Goes(shown, 1 - i) {
        ShowKeeps(shown, Scan(shown.swap, 1 - i), !shown.config.modesetDone);
        PresentKeeps(shown, 1 - i);
        CompletedShows(PresentImage(shown, 1 - i).1, degraded);
      }
    }
  }

  /** A screenshot that fails, with no image for it or none exported, leaves nothing behind; another can be begun. */
  lemma ScreenshotGivesUp(s: Kms, i: int)
    requires Inv(s)
    ensures s.shot.state == 1 ==> var t := ScreenshotPrepared(s, false); PrepareScreenshot(t).0 && t.swap == s.swap
    ensures s.shot.state == 2 && 0 <= i <= 1 ==>
      var (ok, t) := TakeScreenshot(s, i, false);
      !ok && PrepareScreenshot(t).0 && t.swap.live == {s.swap.scan0, s.swap.scan1} && t.swap.spare == 0
  {
    hide Frames, Swapchain, OneFlip;
  }

  // ----- the mode on the device -----

  /** What a device shows a mode with: the pipe on, and the mode. */
  predicate Lit(d: Device, blob: nat) {
    && CRTC_ACTIVE in d.props && d.props[CRTC_ACTIVE].value == 1
    && CRTC_MODE in d.props && d.props[CRTC_MODE].value == blob
  }

  /** What the device is told of the signal is what the backend goes by. */
  predicate Signalled(d: Device, c: Config) {
    && (c.hdr || c.signal.hasSpace ==>
      COLORSPACE in d.props && d.props[COLORSPACE].value == if c.hdr then c.signal.hdrSpace else 0)
    && (c.hdr || c.signal.hasMeta ==>
      HDR_META in d.props && d.props[HDR_META].value == if c.hdr then c.signal.metaBlob else 0)
  }

  /** The last word on a property is that of the last setting of it. */
  lemma {:induction false} FinalOf(cap: nat, ss: seq<Setting>, i: nat, p: u32)
    requires i < |ss| && ss[i].prop == p != LINK_BPC && forall j :: i < j < |ss| ==> ss[j].prop != p
    ensures Final(cap, ss, p) == [ss[i].value]
  {
    if i < |ss| - 1 {
      FinalOf(cap, ss[..|ss| - 1], i, p);
    }
  }

  /** The last word of a modeset request on the pipe and the signal. */
  lemma ModesetSets(cap: nat, c: Config, fb: nat, withCursor: bool, test: bool)
    ensures var ss := CommitRequest(c, fb, true, withCursor, test).settings;
      && Final(cap, ss, CRTC_ACTIVE) == [1] && Final(cap, ss, CRTC_MODE) == [c.modeBlob]
      && Setting(CRTC, CRTC_ACTIVE, 1) in ss && Setting(CRTC, CRTC_MODE, c.modeBlob) in ss
      && (forall s <- SignalSettings(c) :: s in ss && Final(cap, ss, s.prop) == [s.value])
  {
    hide Final;
    var ss, signal := CommitRequest(c, fb, true, withCursor, test).settings, SignalSettings(c);
    assert ss[1] == Setting(CRTC, CRTC_MODE, c.modeBlob) && ss[2] == Setting(CRTC, CRTC_ACTIVE, 1);
    FinalOf(cap, ss, 1, CRTC_MODE);
    FinalOf(cap, ss, 2, CRTC_ACTIVE);
    forall k | 0 <= k < |signal| ensures signal[k] in ss && Final(cap, ss, signal[k].prop) == [signal[k].value] {
      assert ss[3 + k] == signal[k];
      FinalOf(cap, ss, 3 + k, signal[k].prop);
    }
  }

  lemma TryLights(l: Link, c: Config, fb: nat, withCursor: bool)
    ensures var (err, m) := TryCommit(l, c, fb, true, withCursor, false);
      err == 0 ==> Lit(m.dev, c.modeBlob) && Signalled(m.dev, c)
  {
    hide Atomic, Final, CommitRequest;
    var r := CommitRequest(c, fb, true, withCursor, false);
    assert !r.test by {
      PlaneIsSet(l.dev.linkCap, c, fb, true, withCursor, false);
    }
    ModesetSets(l.dev.linkCap, c, fb, withCursor, false);
    AtomicIsAllOrNothing(l.dev, r);
    if Atomic(l.dev, r).0 == 0 {
      forall s | s in r.settings ensures s.prop in l.dev.props {
        var i :| 0 <= i < |r.settings| && r.settings[i] == s;
      }
      SignalAre(c);
    }
  }

  lemma SignalAre(c: Config)
    ensures c.hdr || c.signal.hasSpace ==>
      Setting(CONNECTOR, COLORSPACE, if c.hdr then c.signal.hdrSpace else 0) in SignalSettings(c)
    ensures c.hdr || c.signal.hasMeta ==>
      Setting(CONNECTOR, HDR_META, if c.hdr then c.signal.metaBlob else 0) in SignalSettings(c)
  {
    var ss := SignalSettings(c);
    if c.hdr {
      assert ss[0].prop == COLORSPACE && ss[1].prop == HDR_META;
    } else {
      assert c.signal.hasSpace ==> ss[0].prop == COLORSPACE;
      assert c.signal.hasMeta ==> ss[|ss| - 1].prop == HDR_META;
    }
  }

  /**
   An accepted modeset leaves the pipe on with the configured mode and the signal the backend goes by from then on,
   whatever was given up to have it accepted.
  */
  lemma ModesetLights(l: Link, c: Config, fb: nat)
    ensures var (err, m, d) := Commit(l, c, fb, true); err == 0 ==> Lit(m.dev, c.modeBlob) && Signalled(m.dev, d)
  {
    hide TryCommit, Lit;
    var (err, l1, c1, withCursor) := TestModeset(l, c, fb);
    var c2 := if withCursor then c1 else CursorLost(c1);
    TryLights(l1, c2, fb, withCursor);
    TryLights(TryCommit(l1, c2, fb, true, withCursor, false).1, c2, fb, false);
  }

  // ----- a device that refuses no more than a cursor or HDR -----

  predicate Has(d: Device, obj: u32, prop: u32) {
    prop in d.props && d.props[prop].obj == obj
  }

  const TRANSIENT: set<nat> := {EACCES, EPERM, EBUSY, ENOMEM}

  /** A setting that shows a cursor on its plane, or of a signal other than the default. */
  predicate IsExtra(s: Setting) {
    s.value != 0 && (s.obj == CURSOR || s.prop == COLORSPACE || s.prop == HDR_META)
  }

  /**
   A device with all the properties commits set, that takes all values but, perhaps, of a cursor shown on its plane or
   of HDR; that says of those that they are wrong, not that the time is; and whose tests tell what it takes.
  */
  ghost predicate Obliging(d: Device) {
    && Has(d, CONNECTOR, CONN_CRTC) && Has(d, CRTC, CRTC_MODE) && Has(d, CRTC, CRTC_ACTIVE)
    && Has(d, PLANE, PLANE_FB) && Has(d, PLANE, PLANE_CRTC) && Has(d, CURSOR, CURSOR_FB) && Has(d, CURSOR, CURSOR_CRTC)
    && Has(d, CONNECTOR, COLORSPACE) && Has(d, CONNECTOR, HDR_META)
    && d.faults.fail == 0
    && forall test: bool, s: Setting ::
         && d.faults.refuse(test, s) !in TRANSIENT && (d.faults.refuse(test, s) != 0 ==> IsExtra(s))
         && (d.faults.refuse(test, s) == 0 <==> d.faults.refuse(!test, s) == 0)
  }

  /** Besides, it takes HDR. */
  ghost predicate Willing(d: Device) {
    Obliging(d) && forall s: Setting :: s.obj != CURSOR ==> d.faults.refuse(true, s) == 0
  }

  predicate Refuses(d: Device, ss: seq<Setting>) {
    exists s <- ss :: d.faults.refuse(true, s) != 0
  }

  /** A commit shows the cursor on its plane, and the device will not have it. */
  predicate RefusesCursor(d: Device, c: Config, modeset: bool, withCursor: bool) {
    Refuses(d, CursorSettings(c, modeset, withCursor))
  }

  /** A modeset asks for HDR, and the device will not have it. */
  predicate RefusesHdr(d: Device, c: Config, modeset: bool) {
    modeset && Refuses(d, SignalSettings(c))
  }

  lemma {:induction false} RefusalIs(d: Device, ss: seq<Setting>, test: bool)
    requires Obliging(d) && Owns(d, ss)
    ensures (Refusal(d, ss, test) != 0 <==> Refuses(d, ss)) && Refusal(d, ss, test) !in TRANSIENT
  {
    hide Has;
    if ss != [] {
      var front, s := ss[..|ss| - 1], ss[|ss| - 1];
      RefusalIs(d, front, test);
      assert s in ss && forall x :: x in ss <==> x in front || x == s;
      HasMeans(d, s.obj, s.prop);
      assert d.faults.refuse(test, s) == 0 <==> d.faults.refuse(true, s) == 0;
    }
  }

  lemma HasMeans(d: Device, obj: u32, prop: u32)
    requires Has(d, obj, prop)
    ensures prop in d.props && d.props[prop].obj == obj
  {
  }

  predicate Owns(d: Device, ss: seq<Setting>) {
    forall s <- ss :: Has(d, s.obj, s.prop)
  }

  lemma PartsOfRequest(d: Device, xs: seq<Setting>, ys: seq<Setting>)
    ensures Refuses(d, xs + ys) <==> Refuses(d, xs) || Refuses(d, ys)
    ensures Owns(d, xs + ys) <==> Owns(d, xs) && Owns(d, ys)
  {
    assert forall s :: s in xs + ys <==> s in xs || s in ys;
  }

  lemma PlainPart(d: Device, modeset: bool, fb: nat, blob: nat)
    requires Obliging(d)
    ensures var pipe, plane := Pipe(modeset, blob), [Setting(PLANE, PLANE_FB, fb), Setting(PLANE, PLANE_CRTC, CRTC)];
      !Refuses(d, pipe) && Owns(d, pipe) && !Refuses(d, plane) && Owns(d, plane)
  {
    hide Has;
  }

  lemma ExtraPart(d: Device, c: Config, modeset: bool, withCursor: bool)
    requires Obliging(d)
    ensures Owns(d, SignalSettings(c)) && Owns(d, CursorSettings(c, modeset, withCursor))
    ensures Owns(d, []) && !Refuses(d, [])
  {
    hide Has;
  }

  function Pipe(modeset: bool, blob: nat): seq<Setting> {
    if modeset then [Setting(CONNECTOR, CONN_CRTC, CRTC), Setting(CRTC, CRTC_MODE, blob), Setting(CRTC, CRTC_ACTIVE, 1)]
    else []
  }

  /** A commit asks for what every device takes, and for the signal and the cursor. */
  lemma RequestParts(d: Device, c: Config, fb: nat, modeset: bool, withCursor: bool, test: bool)
    requires Obliging(d)
    ensures var ss := CommitRequest(c, fb, modeset, withCursor, test).settings;
      Owns(d, ss) && (Refuses(d, ss) <==> RefusesCursor(d, c, modeset, withCursor) || RefusesHdr(d, c, modeset))
  {
    hide Owns, Refuses, Obliging, SignalSettings, CursorSettings;
    var pipe, signal := Pipe(modeset, c.modeBlob), if modeset then SignalSettings(c) else [];
    var plane := [Setting(PLANE, PLANE_FB, fb), Setting(PLANE, PLANE_CRTC, CRTC)];
    var cursor := CursorSettings(c, modeset, withCursor);
    assert CommitRequest(c, fb, modeset, withCursor, test).settings == (pipe + signal + plane) + cursor;
    PartsOfRequest(d, pipe + signal + plane, cursor);
    PartsOfRequest(d, pipe + signal, plane);
    PartsOfRequest(d, pipe, signal);
    PlainPart(d, modeset, fb, c.modeBlob);
    ExtraPart(d, c, modeset, withCursor);
  }

  /** What an obliging device says to a commit. */
  lemma CommitRefusal(d: Device, c: Config, fb: nat, modeset: bool, withCursor: bool, test: bool)
    requires Obliging(d)
    ensures var e := Refusal(d, CommitRequest(c, fb, modeset, withCursor, test).settings, test);
      && (e != 0 <==> RefusesCursor(d, c, modeset, withCursor) || RefusesHdr(d, c, modeset)) && e !in TRANSIENT
  {
    hide Refusal, Obliging, CommitRequest, RefusesCursor, RefusesHdr, Refuses;
    RequestParts(d, c, fb, modeset, withCursor, test);
    RefusalIs(d, CommitRequest(c, fb, modeset, withCursor, test).settings, test);
  }

  /** With nothing in flight an obliging device takes a request but for the extras in it, and stays obliging. */
  lemma TryTaken(l: Link, c: Config, fb: nat, modeset: bool, withCursor: bool, test: bool)
    requires Obliging(l.dev) && !l.dev.flipPending
    ensures var (err, m) := TryCommit(l, c, fb, modeset, withCursor, test);
      && (err != 0 <==> RefusesCursor(l.dev, c, modeset, withCursor) || RefusesHdr(l.dev, c, modeset))
      && err !in TRANSIENT && Obliging(m.dev) && m.dev.faults == l.dev.faults
      && m.dev.held == l.dev.held && m.dev.flipPending == (!test && err == 0)
  {
    hide Refusal, ApplyAll, Final, CommitRequest, RefusesCursor, RefusesHdr;
    var r := CommitRequest(c, fb, modeset, withCursor, test);
    CommitRefusal(l.dev, c, fb, modeset, withCursor, test);
    assert r.test == test && r.event == !test by {
      PlaneIsSet(l.dev.linkCap, c, fb, modeset, withCursor, test);
    }
    AtomicIsAllOrNothing(l.dev, r);
  }

  /** Dark or off its plane, a cursor is refused by no one; and one shown is refused for itself alone. */
  lemma DarkCursor(d: Device, c: Config, modeset: bool, withCursor: bool)
    requires Obliging(d)
    ensures RefusesCursor(d, c, modeset, withCursor) ==>
      withCursor && c.cursorPlane && c.cursorEnabled && c.cursorVisible
    ensures RefusesCursor(d, c, false, true) == RefusesCursor(d, c, true, true)
    ensures !c.hdr ==> !RefusesHdr(d, c, modeset)
  {
    forall s <- CursorSettings(c, modeset, withCursor)
      ensures s.value == 0 || (withCursor && c.cursorPlane && c.cursorEnabled && c.cursorVisible)
    {
    }
  }

  lemma SameRefusals(l: Link, m: Link)
    requires l.dev.faults == m.dev.faults
    ensures forall c: Config, modeset: bool, withCursor: bool ::
      RefusesCursor(l.dev, c, modeset, withCursor) == RefusesCursor(m.dev, c, modeset, withCursor)
    ensures forall c: Config, modeset: bool :: RefusesHdr(l.dev, c, modeset) == RefusesHdr(m.dev, c, modeset)
  {
  }

  lemma RealTaken(l: Link, c: Config, fb: nat, modeset: bool, withCursor: bool)
    requires Obliging(l.dev) && !l.dev.flipPending && !RefusesHdr(l.dev, c, modeset)
    ensures var (err, m, d) := RealCommit(l, c, fb, modeset, withCursor);
      && err == 0 && Obliging(m.dev) && m.dev.faults == l.dev.faults && m.dev.held == l.dev.held && m.dev.flipPending
      && d == if RefusesCursor(l.dev, c, modeset, withCursor) then CursorLost(c) else c
  {
    hide TryCommit, Obliging, RefusesCursor, RefusesHdr;
    TryTaken(l, c, fb, modeset, withCursor, false);
    var (err, l1) := TryCommit(l, c, fb, modeset, withCursor, false);
    if err != 0 {
      SameRefusals(l, l1);
      DarkCursor(l.dev, c, modeset, withCursor);
      DarkCursor(l.dev, c, modeset, false);
      TryTaken(l1, c, fb, modeset, false, false);
    }
  }

  /** What is given up to have a commit taken: HDR first, and the cursor if it is what was refused. */
  function GivenUp(d: Device, c: Config, modeset: bool): Config {
    if RefusesHdr(d, c, modeset) then c.(hdr := false)
    else if RefusesCursor(d, c, modeset, true) then CursorLost(c) else c
  }

  lemma TestObliged(l: Link, c: Config, fb: nat)
    requires Obliging(l.dev) && !l.dev.flipPending
    ensures var (err, m, d, withCursor) := TestModeset(l, c, fb);
      var cursor, hdr := RefusesCursor(l.dev, c, true, true), RefusesHdr(l.dev, c, true);
      && (err == 0 <==> !(hdr && cursor)) && Obliging(m.dev) && m.dev.faults == l.dev.faults
      && m.dev.held == l.dev.held && !m.dev.flipPending
      && d == (if hdr then c.(hdr := false) else c) && (withCursor <==> hdr || !cursor || err != 0)
  {
    hide TryCommit, Obliging, RefusesCursor, RefusesHdr;
    var (err1, l1) := TryCommit(l, c, fb, true, true, true);
    TryTaken(l, c, fb, true, true, true);
    SameRefusals(l, l1);
    var (err2, l2) := TryCommit(l1, c, fb, true, false, true);
    TryTaken(l1, c, fb, true, false, true);
    SameRefusals(l, l2);
    DarkCursor(l.dev, c, true, true);
    DarkCursor(l.dev, c, true, false);
    var sdr := c.(hdr := false);
    SdrCursor(l.dev, c);
    DarkCursor(l.dev, sdr, true, true);
    TryTaken(l1, sdr, fb, true, true, true);
    TryTaken(l2, sdr, fb, true, true, true);
  }

  lemma SdrCursor(d: Device, c: Config)
    ensures RefusesCursor(d, c.(hdr := false), true, true) == RefusesCursor(d, c, true, true)
    ensures CursorSettings(CursorLost(c), true, false) == []
  {
  }

  /**
   A commit is taken by an obliging device, giving up exactly what is refused, unless that is both HDR and the cursor in
   one modeset: then it fails, with HDR given up.
  */
  lemma CommitObliged(l: Link, c: Config, fb: nat, modeset: bool)
    requires Obliging(l.dev) && !l.dev.flipPending
    ensures var (err, m, d) := Commit(l, c, fb, modeset);
      && (err == 0 <==> !(RefusesHdr(l.dev, c, modeset) && RefusesCursor(l.dev, c, modeset, true)))
      && d == GivenUp(l.dev, c, modeset) && m.dev.faults == l.dev.faults
      && Obliging(m.dev) && m.dev.held == l.dev.held && m.dev.flipPending == (err == 0)
  {
    hide TryCommit, Obliging, RefusesCursor, RefusesHdr, TestModeset, RealCommit;
    if modeset {
      TestObliged(l, c, fb);
      var (err, l1, c1, withCursor) := TestModeset(l, c, fb);
      var c2 := if withCursor then c1 else CursorLost(c1);
      if err == 0 {
        SameRefusals(l, l1);
        SdrCursor(l.dev, c);
        DarkCursor(l.dev, c1, true, true);
        NoHdrLeft(l.dev, c, c2);
        assert !RefusesCursor(l.dev, c2, true, withCursor) by {
          NoCursorLeft(l.dev, c, c1, withCursor);
        }
        RealTaken(l1, c2, fb, true, withCursor);
      }
    } else {
      NoSignal(l.dev, c);
      RealTaken(l, c, fb, false, true);
    }
  }

  lemma NoSignal(d: Device, c: Config)
    ensures !RefusesHdr(d, c, false)
  {
  }

  lemma NoHdrLeft(d: Device, c: Config, e: Config)
    requires Obliging(d) && e.signal == c.signal && e.hdr == (c.hdr && !RefusesHdr(d, c, true))
    ensures !RefusesHdr(d, e, true)
  {
    if e.hdr {
      assert SignalSettings(e) == SignalSettings(c);
    } else {
      DarkCursor(d, e, true, true);
    }
  }

  lemma NoCursorLeft(d: Device, c: Config, e: Config, withCursor: bool)
    requires e == c.(hdr := e.hdr) && (withCursor ==> !RefusesCursor(d, c, true, true))
    ensures !RefusesCursor(d, if withCursor then e else CursorLost(e), true, withCursor)
  {
  }

  /** What failed so is taken when tried again, with the cursor given up too. */
  lemma RetryTaken(l: Link, c: Config, fb: nat, again: nat)
    requires Obliging(l.dev) && !l.dev.flipPending && Commit(l, c, fb, true).0 != 0
    ensures var (_, m, d) := Commit(l, c, fb, true);
      var (err, _, e) := Commit(m, d, again, true);
      !m.dev.flipPending && err == 0 && e == CursorLost(c.(hdr := false))
  {
    hide Commit, Obliging, RefusesCursor, RefusesHdr;
    CommitObliged(l, c, fb, true);
    var (_, m, d) := Commit(l, c, fb, true);
    CommitObliged(m, d, again, true);
    SameRefusals(l, m);
    SdrCursor(l.dev, c);
    DarkCursor(m.dev, d, true, true);
  }

  lemma CommitTaken(l: Link, c: Config, fb: nat, modeset: bool)
    requires Willing(l.dev) && !l.dev.flipPending
    ensures var (err, m, d) := Commit(l, c, fb, modeset);
      err == 0 && Willing(m.dev) && m.dev.held == l.dev.held && d.hdr == c.hdr
  {
    hide Commit, Obliging, RefusesCursor;
    CommitObliged(l, c, fb, modeset);
    assert !RefusesHdr(l.dev, c, modeset);
  }

  /** A willing device takes every direct frame of an imported buffer once the mode is set; no other is sent. */
  lemma DirectTaken(s: Kms, fb: nat)
    requires Inv(s) && Ready(s) && fb !in s.swap.live && Willing(s.link.dev)
    ensures var (ok, t) := DirectScanout(s, fb);
      && (ok <==> s.config.modesetDone && fb != 0)
      && (if ok then t.link.flipPending && PlaneFb(t.link.dev) == fb && t.direct.queued == fb else t == s)
  {
    hide Commit, Willing, Buffers, Swapchain, Handoff, Frames, PlaneFb;
    if s.config.modesetDone && fb != 0 {
      NothingOwed(s);
      ShowKeeps(s, fb, false);
      CommitTaken(s.link, s.config, fb, false);
    }
  }

  /** The first present, and the first after the mode is to be set anew, lights the pipe at the mode. */
  lemma FirstPresentLights(s: Kms, i: Slot)
    requires Inv(s) && PresentImage(s, i).0 && !s.config.modesetDone
    ensures var t := PresentImage(s, i).1;
      Lit(t.link.dev, s.config.modeBlob) && Signalled(t.link.dev, t.config) && t.config.modesetDone
  {
    hide Commit, Lit;
    ModesetLights(s.link, s.config, Scan(s.swap, i));
  }

  /** A flip that finds the HDR link degraded has the next present set the mode again, in SDR. */
  lemma DegradedGoesSdr(s: Kms, i: Slot)
    requires Inv(s) && s.link.dev.queue != [] && s.config.modesetDone && s.config.hdr
    requires s.session.started && s.session.active && Obliging(s.link.dev)
    ensures var (ok, t) := PresentImage(PageFlip(s, true), i);
      && ok && Lit(t.link.dev, s.config.modeBlob) && Signalled(t.link.dev, t.config)
      && !t.config.hdr && t.config.modesetDone
  {
    hide Commit, Lit, Inv, TurnOver, KmsModel.RetireScreenshot, Obliging, RefusesCursor, RefusesHdr;
    PageFlipKeeps(s, true);
    var u := PageFlip(s, true);
    assert Obliging(u.link.dev) by {
      FlipObliging(s, true);
    }
    CommitObliged(u.link, u.config, Scan(u.swap, i), true);
    DarkCursor(u.link.dev, u.config, true, true);
    FirstPresentLights(u, i);
  }

  lemma FlipObliging(s: Kms, degraded: bool)
    requires Obliging(s.link.dev)
    ensures Obliging(PageFlip(s, degraded).link.dev)
  {
    hide TurnOver, KmsModel.RetireScreenshot;
  }

  lemma FlipWilling(s: Kms, degraded: bool)
    requires Willing(s.link.dev)
    ensures Willing(PageFlip(s, degraded).link.dev) && Willing(DeviceFlip(s.link).dev)
    ensures PageFlip(s, degraded).config.modeBlob == s.config.modeBlob
    ensures PageFlip(s, degraded).session == s.session
  {
    hide TurnOver, KmsModel.RetireScreenshot;
  }

  /** A drain changes neither what the device takes nor the mode. */
  lemma DrainWilling(s: Kms, degraded: bool)
    requires Willing(s.link.dev)
    ensures Willing(Drain(s, degraded).link.dev) && Drain(s, degraded).config.modeBlob == s.config.modeBlob
    ensures Drain(s, degraded).session == s.session
  {
    hide PageFlip, DeviceFlip, Willing;
    if s.link.flipPending {
      if s.link.dev.queue == [] {
        var u := s.(link := s.link.(dev := s.link.dev.(held := false)));
        assert Willing(u.link.dev) by {
          HeldWilling(s.link.dev, false);
        }
        FlipWilling(u, degraded);
        FlipWilling(u.(link := DeviceFlip(u.link)), degraded);
      } else {
        FlipWilling(s, degraded);
      }
    }
  }

  lemma HeldWilling(d: Device, held: bool)
    requires Willing(d)
    ensures Willing(d.(held := held))
  {
  }

  // ----- back on the screen -----

  /** From `s`, a modeset at the mode of `blob` is in flight with the image that is not handed out next. */
  ghost predicate Relit(s: Kms, t: Kms, blob: nat) {
    && t.link.flipPending && t.link.dev.flipPending && Lit(t.link.dev, blob)
    && PlaneFb(t.link.dev) == Scan(s.swap, 1 - s.swap.next) && t.swap == s.swap.(queued := 1 - s.swap.next)
    && t.session == s.session && t.direct.queued == 0 && t.config.modesetDone == s.config.modesetDone
    && t.config.hdr == s.config.hdr && Signalled(t.link.dev, t.config)
  }

  lemma ModesetIsRelit(s: Kms)
    requires Inv(s) && !s.link.flipPending && Willing(s.link.dev)
    ensures Relit(s, Relight(s).1, s.config.modeBlob) && RelightAndForget(s) == Relight(s).1
  {
    hide Commit, Willing, Buffers, Swapchain, Handoff, Frames, PlaneFb, Lit;
    var fb := Scan(s.swap, 1 - s.swap.next);
    NothingOwed(s);
    RelightKeeps(s);
    ShowKeeps(s, fb, true);
    CommitTaken(s.link, s.config, fb, true);
    ModesetLights(s.link, s.config, fb);
    CommitLeavesModeset(s.link, s.config, fb, true);
  }

  lemma NothingOwed(s: Kms)
    requires Inv(s) && !s.link.flipPending
    ensures !s.link.dev.flipPending && s.direct.queued == 0
  {
    hide Frames, Buffers, Handoff, PlaneFb;
  }

  lemma CommitLeavesModeset(l: Link, c: Config, fb: nat, modeset: bool)
    ensures Commit(l, c, fb, modeset).2.modesetDone == c.modesetDone
  {
    hide TryCommit;
  }

  /** On a willing device a remodeset puts the image not handed out next in flight with the pipe on. */
  lemma RemodesetRelights(s: Kms, degraded: bool)
    requires Inv(s) && Willing(s.link.dev)
    ensures var d, t := Drain(s, degraded), Remodeset(s, degraded);
      if d.config.modesetDone then Relit(d, t, s.config.modeBlob) else t == d
  {
    hide Drain, Relight, Willing, Inv, Relit;
    DrainKeeps(s, degraded);
    DrainWilling(s, degraded);
    if Drain(s, degraded).config.modesetDone {
      ModesetIsRelit(Drain(s, degraded));
    }
  }

  /** So does a change of the display settings, at the HDR state asked for. */
  lemma SettingsRelight(s: Kms, hdr: bool, degraded: bool)
    requires Inv(s) && Willing(s.link.dev)
    ensures var d, t := Drain(s.(config := s.config.(hdr := hdr)), degraded), ApplyDisplaySettings(s, hdr, degraded);
      if d.config.modesetDone then Relit(d, t, s.config.modeBlob) else t == d
  {
    hide Drain, Remodeset, Willing, Inv, Relit;
    HdrKeeps(s, hdr);
    RemodesetRelights(s.(config := s.config.(hdr := hdr)), degraded);
  }

  /**
   Power comes back with the image not handed out next in flight and the pipe on: always on a willing device, and on
   any other whenever a flip is in flight after it.
  */
  lemma PowerOnRelights(s: Kms, degraded: bool)
    requires Inv(s) && s.config.modesetDone && s.session.active && !s.session.powered
    ensures var t := SetPowerSave(s, true, degraded);
      var drained := Drain(s.(session := s.session.(powered := true)), degraded);
      && t.session.powered
      && (Willing(s.link.dev) ==> Relit(drained, t, s.config.modeBlob))
      && (t.link.flipPending ==>
        Lit(t.link.dev, drained.config.modeBlob) && t.swap.queued == 1 - t.swap.next
        && PlaneFb(t.link.dev) == Scan(t.swap, t.swap.queued))
  {
    hide Drain, Show, Buffers, OneFlip, Swapchain, Handoff, Frames, PlaneFb, Lit, Willing, Relit;
    var u := Drain(s.(session := s.session.(powered := true)), degraded);
    DrainKeeps(s.(session := s.session.(powered := true)), degraded);
    assert u.session.powered by {
      DrainLeavesSession(s.(session := s.session.(powered := true)), degraded);
    }
    RelightKeeps(u);
    ShowKeeps(u, Scan(u.swap, 1 - u.swap.next), true);
    ModesetLights(u.link, u.config, Scan(u.swap, 1 - u.swap.next));
    ShowIs(u, Scan(u.swap, 1 - u.swap.next));
    if Willing(s.link.dev) {
      DrainWilling(s.(session := s.session.(powered := true)), degraded);
      ModesetIsRelit(u);
    }
  }

  /** The session comes back to the pipe on and the image not handed out next in flight; if not away it only drains. */
  lemma SessionRelights(s: Kms, degraded: bool)
    requires Inv(s) && Willing(s.link.dev)
    ensures var d, t := Drain(s.(session := s.session.(active := true)), degraded), SessionEnabled(s, degraded);
      if !s.session.active && d.config.modesetDone then Relit(d, t, s.config.modeBlob) else t == d
  {
    hide Drain, Relight, RelightAndForget, ReleaseQueued, Willing, Buffers, OneFlip, Swapchain, Handoff, Frames, Relit;
    var u := s.(session := s.session.(active := true));
    DrainKeeps(u, degraded);
    DrainWilling(u, degraded);
    QueuedIsNone(Drain(u, degraded));
    ModesetIsRelit(Drain(u, degraded));
  }

  /** What is in flight after any of them is on the screen with the next flip, unless flips are held. */
  lemma RelitReachesScreen(s: Kms, t: Kms, blob: nat, degraded: bool)
    requires Inv(t) && Relit(s, t, blob) && !t.link.dev.held
    ensures Completed(t, degraded).link.screen == Scan(s.swap, 1 - s.swap.next)
    ensures Lit(Completed(t, degraded).link.dev, blob)
  {
    hide Buffers, OneFlip, Swapchain, Handoff, Frames, PlaneFb, Completed;
    CompletedShows(t, degraded);
  }

  /**
   A mode switch that goes through is on the device with the modeset after it: the pipe is on at the new mode with one
   of the images made for it, and what was on the screen is no longer a scanout image.
  */
  lemma SwitchRelights(s: Kms, blob: nat, degraded: bool, again: bool)
    requires Inv(s) && Willing(s.link.dev) && blob != 0 && s.shot.state == 0
    ensures var (ok, t) := SwitchMode(s, blob, true, degraded);
      && ok && t.config.modeBlob == blob && t.swap.live !! Drain(s, degraded).swap.live
      && t.config.modesetDone == Drain(s, degraded).config.modesetDone
      && (t.config.modesetDone ==>
        Relit(t, Remodeset(t, again), blob) && PlaneFb(Remodeset(t, again).link.dev) in t.swap.live)
  {
    hide Drain, Relight, Remodeset, Willing, Swapchain, Handoff, Frames, OneFlip, PlaneFb, ReleaseBoth, Relit;
    DrainKeeps(s, degraded);
    DrainWilling(s, degraded);
    SwitchKeeps(s, blob, true, degraded);
    var t := SwitchMode(s, blob, true, degraded).1;
    var d := Drain(s, degraded);
    ReleasesOnly(d);
    assert Willing(t.link.dev) && !t.link.flipPending;
    assert Drain(t, again) == t by {
      NothingToDrain(t, again);
    }
    RemodesetRelights(t, again);
    RelitPlane(t, Remodeset(t, again), blob);
  }

  /** One that does not keeps the mode: put off whole, or drained with its images as they were or made anew for it. */
  lemma SwitchKeepsMode(s: Kms, blob: nat, rebuilt: bool, degraded: bool)
    requires Inv(s) && (s.shot.state != 0 || blob == 0 || !rebuilt)
    ensures var (ok, t) := SwitchMode(s, blob, rebuilt, degraded);
      && !ok && t.config.modeBlob == s.config.modeBlob
      && (s.shot.state != 0 ==> t == s)
      && (s.shot.state == 0 && blob == 0 ==> t.swap == Drain(s, degraded).swap)
      && (s.shot.state == 0 ==> !t.link.flipPending && t.direct.queuedFrame == t.direct.currentFrame == None)
  {
    hide Drain, Buffers, Swapchain, Handoff, Frames, OneFlip;
    DrainKeeps(s, degraded);
    DrainKeepsMode(s, degraded);
  }

  lemma DrainKeepsMode(s: Kms, degraded: bool)
    ensures Drain(s, degraded).config.modeBlob == s.config.modeBlob
  {
    hide DeviceFlip, TurnOver, KmsModel.RetireScreenshot;
  }

  lemma ReleasesOnly(s: Kms)
    ensures ReleaseBoth(s) == s.(direct := ReleaseBoth(s).direct)
  {
  }

  lemma NothingToDrain(s: Kms, degraded: bool)
    requires !s.link.flipPending
    ensures Drain(s, degraded) == s
  {
  }

  lemma RelitPlane(s: Kms, t: Kms, blob: nat)
    requires Buffers(s.swap)
    ensures Relit(s, t, blob) ==> PlaneFb(t.link.dev) in s.swap.live
  {
    hide PlaneFb, Lit;
  }

  lemma ShowIs(s: Kms, fb: nat)
    ensures var (err, l, c) := Commit(s.link, s.config, fb, true);
      Show(s, fb, true) == (err == 0, s.(link := l, config := c))
  {
  }

  lemma DrainLeavesSession(s: Kms, degraded: bool)
    ensures Drain(s, degraded).session == s.session
  {
    hide DeviceFlip, TurnOver, KmsModel.RetireScreenshot, Feedback;
  }

  /** Power goes with the pipe off, unless the device refuses, and no flip in flight. */
  lemma PowerOffDarkens(s: Kms, degraded: bool)
    requires Inv(s) && s.config.modesetDone && s.session.active && s.session.powered
    ensures var t := SetPowerSave(s, false, degraded);
      var off := Request([Setting(CRTC, CRTC_ACTIVE, 0)], false, false, 0);
      var drained := Drain(s.(session := s.session.(powered := false)), degraded);
      && !t.session.powered && !t.link.flipPending && !Ready(t)
      && (Atomic(drained.link.dev, off).0 == 0 ==>
        CRTC_ACTIVE in t.link.dev.props && t.link.dev.props[CRTC_ACTIVE].value == 0)
  {
    hide Drain, Atomic, Final, Buffers, OneFlip, Swapchain, Handoff, Frames;
    var u := s.(session := s.session.(powered := false));
    DrainKeeps(u, degraded);
    DrainLeavesSession(u, degraded);
    var off := Request([Setting(CRTC, CRTC_ACTIVE, 0)], false, false, 0);
    var d := Drain(u, degraded).link.dev;
    AtomicIsAllOrNothing(d, off);
    OffSets(d.linkCap);
    assert off.settings[0] == Setting(CRTC, CRTC_ACTIVE, 0);
  }

  lemma OffSets(cap: nat)
    ensures Final(cap, [Setting(CRTC, CRTC_ACTIVE, 0)], CRTC_ACTIVE) == [0]
  {
  }
}
