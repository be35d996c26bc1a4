/**
 What the buffer protocol keeps, operation by operation and over whole runs.
*/
module KmsProofs {
  import opened FakeKms
  import opened KmsModel

  // ----- the invariant -----

  /** The live scanout buffers are exactly those in the slots, all different, and no newer than the counter. */
  ghost predicate Buffers(w: Swap) {
    && w.scan0 != w.scan1 && 0 < w.scan0 < w.nextFb && 0 < w.scan1 < w.nextFb
    && (w.spare != 0 ==> w.spare < w.nextFb && w.spare != w.scan0 && w.spare != w.scan1)
    && w.live == {w.scan0, w.scan1} + (if w.spare != 0 then {w.spare} else {})
    && -1 <= w.current <= 1 && -1 <= w.queued <= 1
  }

  /** The backend believes a flip is in flight exactly when the device owes, or has queued, its one event. */
  ghost predicate OneFlip(l: Link) {
    && |l.dev.queue| <= 1
    && (l.flipPending <==> l.dev.flipPending || l.dev.queue != [])
    && !(l.dev.flipPending && l.dev.queue != [])
    && l.commits == l.flips + (if l.flipPending then 1 else 0)
    && !l.collided
  }

  /** What the flip in flight shows when it completes. */
  function Target(w: Swap, direct: nat): nat {
    if w.queued >= 0 then Scan(w, w.queued) else direct
  }

  /**
   A live image on the screen, or set on the plane, is the one the backend has as current, or as completing; and those
   were shown.
  */
  ghost predicate Swapchain(w: Swap, l: Link, direct: nat) {
    && l.screen < w.nextFb && PlaneFb(l.dev) < w.nextFb && direct < w.nextFb && direct !in w.live
    && (!l.flipPending ==> w.queued == -1 && direct == 0 && w.current != w.next)
    && (l.flipPending ==> w.queued != w.next && if w.queued >= 0 then direct == 0 else w.current != w.next)
    && (l.dev.flipPending ==> PlaneFb(l.dev) == Target(w, direct))
    && (l.screen in w.live ==>
          if l.dev.queue == [] then w.current >= 0 && l.screen == Scan(w, w.current) else l.screen == Target(w, direct))
    && (PlaneFb(l.dev) in w.live ==>
          if l.flipPending then PlaneFb(l.dev) == Target(w, direct)
          else w.current >= 0 && PlaneFb(l.dev) == Scan(w, w.current))
    && (w.current >= 0 ==> Scan(w, w.current) in l.shown)
    && (l.dev.queue != [] && w.queued >= 0 ==> Scan(w, w.queued) in l.shown)
  }

  /** The hand-off: the taken image is on its way to the screen, then on it, until it is retired. */
  ghost predicate Handoff(t: Shot, w: Swap, l: Link) {
    && t.state <= 3 && (w.spare != 0 <==> t.state >= 2)
    && (t.state == 3 ==> 0 <= t.index <= 1)
    && (t.state == 3 && t.presented ==> w.current == t.index)
    && (t.state == 3 && !t.presented ==> l.flipPending && w.queued == t.index)
  }

  ghost predicate Held(d: Direct, r: nat) {
    d.queuedFrame == Some(r) || d.currentFrame == Some(r)
  }

  /** Every frame reference made is held or was given back, once, and normally not before a later commit completed. */
  ghost predicate Frames(d: Direct, l: Link) {
    && !d.twice
    && (d.queuedFrame.Some? <==> d.queued != 0) && (d.currentFrame.Some? <==> d.current != 0)
    && (d.queuedFrame.Some? ==> l.flipPending && d.queuedFrame.value < |d.births|)
    && (d.queuedFrame.Some? ==> d.births[d.queuedFrame.value] == l.commits)
    && (d.currentFrame.Some? ==> d.currentFrame.value < |d.births|)
    && (d.currentFrame.Some? ==> d.births[d.currentFrame.value] <= l.flips)
    && (forall r: nat :: r in d.released || Held(d, r) <==> r < |d.births|)
    && (forall r: nat :: Held(d, r) ==> r !in d.released)
    && (forall r: nat :: r in d.released && !d.released[r].early ==> d.births[r] < d.released[r].at <= l.flips)
  }

  ghost predicate Inv(s: Kms) {
    && Buffers(s.swap) && OneFlip(s.link) && Swapchain(s.swap, s.link, s.direct.queued)
    && Handoff(s.shot, s.swap, s.link) && Frames(s.direct, s.link)
  }

  // ----- one commit -----

  lemma FinalSkip(cap: nat, ss: seq<Setting>, s: Setting)
    requires s.prop != PLANE_FB
    ensures Final(cap, ss + [s], PLANE_FB) == Final(cap, ss, PLANE_FB)
  {
    assert (ss + [s])[..|ss|] == ss;
  }

  lemma PlaneIsSet(cap: nat, c: Config, fb: nat, modeset: bool, withCursor: bool, test: bool)
    ensures var r := CommitRequest(c, fb, modeset, withCursor, test);
      && Final(cap, r.settings, PLANE_FB) == [fb] && r.event == !test && r.test == test
      && exists k :: 0 <= k < |r.settings| && r.settings[k] == Setting(PLANE, PLANE_FB, fb)
  {
    var head := if modeset
      then [Setting(CONNECTOR, CONN_CRTC, CRTC), Setting(CRTC, CRTC_MODE, c.modeBlob), Setting(CRTC, CRTC_ACTIVE, 1)]
           + SignalSettings(c)
      else [];
    var plane := head + [Setting(PLANE, PLANE_FB, fb)];
    assert Final(cap, plane, PLANE_FB) == [fb];
    var all := plane + [Setting(PLANE, PLANE_CRTC, CRTC)];
    FinalSkip(cap, plane, Setting(PLANE, PLANE_CRTC, CRTC));
    var cursor := CursorSettings(c, modeset, withCursor);
    var settings := CommitRequest(c, fb, modeset, withCursor, test).settings;
    if cursor == [] {
      assert settings == all;
    } else {
      FinalSkip(cap, all, cursor[0]);
      FinalSkip(cap, all + [cursor[0]], cursor[1]);
      assert settings == all + [cursor[0]] + [cursor[1]];
    }
    assert settings[|head|] == Setting(PLANE, PLANE_FB, fb);
  }

  /** From no flip in flight, a commit either puts `fb` in flight, once, or leaves the device showing what it did. */
  ghost predicate Outcome(l: Link, fb: nat, taken: bool, m: Link) {
    && m.dev.queue == l.dev.queue && m.screen == l.screen && m.shown == l.shown && m.flips == l.flips
    && m.collided == l.collided
    && m.dev.flipPending == taken && m.commits == l.commits + (if taken then 1 else 0)
    && PlaneFb(m.dev) == if taken then fb else PlaneFb(l.dev)
  }

  lemma TryOutcome(l: Link, c: Config, fb: nat, modeset: bool, withCursor: bool, test: bool)
    requires !l.dev.flipPending
    ensures var (err, m) := TryCommit(l, c, fb, modeset, withCursor, test);
      Outcome(l, fb, err == 0 && !test, m) && m.flipPending == l.flipPending
  {
    hide Atomic, Final, CommitRequest;
    PlaneIsSet(l.dev.linkCap, c, fb, modeset, withCursor, test);
    AtomicIsAllOrNothing(l.dev, CommitRequest(c, fb, modeset, withCursor, test));
  }

  lemma RealOutcome(l: Link, c: Config, fb: nat, modeset: bool, withCursor: bool)
    requires !l.dev.flipPending && !l.flipPending
    ensures var (err, m, _) := RealCommit(l, c, fb, modeset, withCursor);
      Outcome(l, fb, err == 0, m) && m.flipPending == (err == 0)
  {
    hide TryCommit, PlaneFb;
    TryOutcome(l, c, fb, modeset, withCursor, false);
    var (err, l1) := TryCommit(l, c, fb, modeset, withCursor, false);
    if err != 0 {
      TryOutcome(l1, c, fb, modeset, false, false);
    }
  }

  lemma TestOutcome(l: Link, c: Config, fb: nat)
    requires !l.dev.flipPending && !l.flipPending
    ensures Outcome(l, fb, false, TestModeset(l, c, fb).1) && !TestModeset(l, c, fb).1.flipPending
  {
    hide TryCommit, PlaneFb;
    TryOutcome(l, c, fb, true, true, true);
    var (err1, l1) := TryCommit(l, c, fb, true, true, true);
    TryOutcome(l1, c, fb, true, false, true);
    TryOutcome(l1, c.(hdr := false), fb, true, true, true);
    TryOutcome(TryCommit(l1, c, fb, true, false, true).1, c.(hdr := false), fb, true, true, true);
  }

  lemma CommitOutcome(l: Link, c: Config, fb: nat, modeset: bool)
    requires !l.dev.flipPending && !l.flipPending
    ensures var (err, m, _) := Commit(l, c, fb, modeset);
      Outcome(l, fb, err == 0, m) && m.flipPending == (err == 0)
  {
    hide TestModeset, RealCommit, PlaneFb;
    if modeset {
      TestOutcome(l, c, fb);
      var (err, l1, c1, withCursor) := TestModeset(l, c, fb);
      RealOutcome(l1, if withCursor then c1 else CursorLost(c1), fb, true, withCursor);
    } else {
      RealOutcome(l, c, fb, false, true);
    }
  }

  // ----- completed flips -----

  lemma DeviceFlipKeeps(s: Kms)
    requires Inv(s)
    ensures Inv(s.(link := DeviceFlip(s.link)))
    ensures s.link.dev.flipPending && !s.link.dev.held ==> DeviceFlip(s.link).dev.queue != []
  {
  }

  lemma TurnOverKeeps(d: Direct, l: Link)
    requires Frames(d, l) && l.flipPending && l.commits == l.flips + 1
    ensures Frames(TurnOver(d, l.flips + 1), l.(flipPending := false, flips := l.flips + 1))
  {
    var e := TurnOver(d, l.flips + 1);
    forall r: nat
      ensures r in e.released || Held(e, r) <==> r < |e.births|
      ensures Held(e, r) ==> r !in e.released
    {
      assert r in d.released || Held(d, r) <==> r < |d.births|;
      assert Held(d, r) ==> r !in d.released;
    }
    if d.currentFrame.Some? {
      assert Held(d, d.currentFrame.value);
    }
  }

  lemma FramesLink(d: Direct, l: Link, m: Link)
    requires Frames(d, l) && m.flips == l.flips && m.commits == l.commits && m.flipPending == l.flipPending
    ensures Frames(d, m)
  {
  }

  lemma PageFlipKeeps(s: Kms, degraded: bool)
    requires Inv(s) && s.link.dev.queue != []
    ensures var t := PageFlip(s, degraded);
      Inv(t) && !t.link.flipPending && !t.link.dev.flipPending && t.link.dev.queue == []
  {
    hide Frames, TurnOver;
    var t := PageFlip(s, degraded);
    TurnOverKeeps(s.direct, s.link);
    FramesLink(t.direct, s.link.(flipPending := false, flips := s.link.flips + 1), t.link);
    assert TurnOver(s.direct, s.link.flips + 1).queued == 0 by {
      QueueEmptied(s.direct, s.link.flips + 1);
    }
  }

  lemma QueueEmptied(d: Direct, at: nat)
    ensures TurnOver(d, at).queued == 0
  {
  }

  lemma HoldKeeps(s: Kms, held: bool)
    requires Inv(s)
    ensures Inv(s.(link := s.link.(dev := s.link.dev.(held := held))))
  {
  }

  lemma DrainKeeps(s: Kms, degraded: bool)
    requires Inv(s)
    ensures var t := Drain(s, degraded);
      Inv(t) && !t.link.flipPending && !t.link.dev.flipPending && t.link.dev.queue == []
  {
    hide PageFlip, DeviceFlip, Buffers, Swapchain, Handoff, Frames;
    if s.link.flipPending && s.link.dev.queue == [] {
      var u := s.(link := s.link.(dev := s.link.dev.(held := false)));
      HoldKeeps(s, false);
      DeviceFlipKeeps(u);
      PageFlipKeeps(u.(link := DeviceFlip(u.link)), degraded);
    } else if s.link.flipPending {
      PageFlipKeeps(s, degraded);
    }
  }

  // ----- the operations -----

  /** A commit of anything but the next image, with nothing in flight, and the books it needs. */
  lemma ShowKeeps(s: Kms, fb: nat, modeset: bool)
    requires Inv(s) && !s.link.flipPending
    ensures var (shown, t) := Show(s, fb, modeset);
      && Outcome(s.link, fb, shown, t.link) && t.link.flipPending == shown
      && t == s.(link := t.link, config := t.config)
      && (!shown ==> Inv(t))
  {
    hide Commit, Frames, PlaneFb;
    CommitOutcome(s.link, s.config, fb, modeset);
    var (shown, t) := Show(s, fb, modeset);
    if !shown {
      FramesLink(s.direct, s.link, t.link);
    }
  }

  /** With a flip just put in flight and nothing queued before, the frame books stand. */
  lemma FramesInFlight(d: Direct, l: Link, m: Link)
    requires Frames(d, l) && !l.flipPending && m.flips == l.flips
    ensures d.queuedFrame == None && d.queued == 0 && Frames(d, m) && Forget(d) == d
  {
  }

  lemma PresentKeeps(s: Kms, i: Slot)
    requires Inv(s)
    ensures Inv(PresentImage(s, i).1)
  {
    hide Show, Frames, PlaneFb;
    if s.session.started && !s.link.flipPending && s.session.active {
      ShowKeeps(s, Scan(s.swap, i), !s.config.modesetDone);
      FramesInFlight(s.direct, s.link, Show(s, Scan(s.swap, i), !s.config.modesetDone).1.link);
    }
  }

  lemma DirectFrames(d: Direct, l: Link, m: Link, fb: nat)
    requires Frames(d, l) && !l.flipPending && fb != 0
    requires m.flipPending && m.flips == l.flips && m.commits == l.commits + 1 && l.commits == l.flips
    ensures Frames(d.(queued := fb, queuedFrame := Some(|d.births|), births := d.births + [m.commits]), m)
  {
    var e := d.(queued := fb, queuedFrame := Some(|d.births|), births := d.births + [m.commits]);
    forall r: nat
      ensures r in e.released || Held(e, r) <==> r < |e.births|
      ensures Held(e, r) ==> r !in e.released
    {
      assert r in d.released || Held(d, r) <==> r < |d.births|;
      assert Held(d, r) ==> r !in d.released;
    }
    assert forall r: nat :: r in e.released ==> e.births[r] == d.births[r];
  }

  lemma DirectKeeps(s: Kms, fb: nat)
    requires Inv(s) && Ready(s) && fb !in s.swap.live
    ensures Inv(DirectScanout(s, fb).1)
  {
    hide Show, Frames, PlaneFb;
    if s.config.modesetDone && fb != 0 {
      ShowKeeps(s, fb, false);
      var (shown, t) := Show(s, fb, false);
      if shown {
        DirectFrames(s.direct, s.link, t.link, fb);
      }
    }
  }

  lemma RelightKeeps(s: Kms)
    requires Inv(s) && !s.link.flipPending
    ensures Inv(Relight(s).1) && RelightAndForget(s) == Relight(s).1
  {
    hide Show, Frames, PlaneFb;
    ShowKeeps(s, Scan(s.swap, 1 - s.swap.next), true);
    FramesInFlight(s.direct, s.link, Show(s, Scan(s.swap, 1 - s.swap.next), true).1.link);
  }

  lemma RemodesetKeeps(s: Kms, degraded: bool)
    requires Inv(s)
    ensures Inv(Remodeset(s, degraded))
  {
    hide Drain, Relight, Inv;
    DrainKeeps(s, degraded);
    if Drain(s, degraded).config.modesetDone {
      RelightKeeps(Drain(s, degraded));
    }
  }

  lemma HdrKeeps(s: Kms, hdr: bool)
    requires Inv(s)
    ensures Inv(s.(config := s.config.(hdr := hdr)))
  {
  }

  lemma DisplayKeeps(s: Kms, hdr: bool, degraded: bool)
    requires Inv(s)
    ensures Inv(ApplyDisplaySettings(s, hdr, degraded))
  {
    hide Remodeset, Inv;
    HdrKeeps(s, hdr);
    RemodesetKeeps(s.(config := s.config.(hdr := hdr)), degraded);
  }

  /** The blocking request that drops the power sends no event, and the queued reference it gives back is none. */
  lemma PowerOffKeeps(s: Kms)
    requires Inv(s) && !s.link.flipPending && !s.link.dev.flipPending
    ensures var off := Request([Setting(CRTC, CRTC_ACTIVE, 0)], false, false, 0);
      Inv(s.(link := Send(s.link, off).1, direct := ReleaseQueued(s.direct, s.link.flips, false)))
  {
    hide Atomic, Final, Frames;
    var off := Request([Setting(CRTC, CRTC_ACTIVE, 0)], false, false, 0);
    AtomicIsAllOrNothing(s.link.dev, off);
    assert Final(s.link.dev.linkCap, off.settings, PLANE_FB) == [] by {
      FinalSkip(s.link.dev.linkCap, [], off.settings[0]);
      assert [] + [off.settings[0]] == off.settings;
      FinalNone(s.link.dev.linkCap);
    }
    var m := Send(s.link, off).1;
    FramesInFlight(s.direct, s.link, m);
  }

  lemma FinalNone(cap: nat)
    ensures Final(cap, [], PLANE_FB) == []
  {
  }

  lemma QueuedIsNone(s: Kms)
    requires Inv(s) && !s.link.flipPending
    ensures ReleaseQueued(s.direct, s.link.flips, false) == s.direct
  {
  }

  lemma PowerKeeps(s: Kms, on: bool, degraded: bool)
    requires Inv(s)
    ensures Inv(SetPowerSave(s, on, degraded))
  {
    hide Drain, Relight, RelightAndForget, Send, ReleaseQueued, Buffers, OneFlip, Swapchain, Handoff, Frames;
    var u := s.(session := s.session.(powered := on));
    DrainKeeps(u, degraded);
    RelightKeeps(Drain(u, degraded));
    PowerOffKeeps(Drain(u, degraded));
  }

  lemma SessionOnKeeps(s: Kms, degraded: bool)
    requires Inv(s)
    ensures Inv(SessionEnabled(s, degraded))
  {
    hide Drain, Relight, RelightAndForget, ReleaseQueued, Buffers, OneFlip, Swapchain, Handoff, Frames;
    var u := s.(session := s.session.(active := true));
    DrainKeeps(u, degraded);
    QueuedIsNone(Drain(u, degraded));
    assert Drain(u, degraded).(direct := Drain(u, degraded).direct) == Drain(u, degraded);
    RelightKeeps(Drain(u, degraded));
  }

  lemma ReleaseBothKeeps(s: Kms)
    requires Inv(s) && !s.link.flipPending
    ensures var t := ReleaseBoth(s);
      Inv(t) && t == s.(direct := t.direct) && t.direct.queued == 0 && t.direct.currentFrame == None
  {
    var d, e := s.direct, ReleaseBoth(s).direct;
    forall r: nat
      ensures r in e.released || Held(e, r) <==> r < |e.births|
      ensures Held(e, r) ==> r !in e.released
    {
      assert r in d.released || Held(d, r) <==> r < |d.births|;
      assert Held(d, r) ==> r !in d.released;
    }
    if d.currentFrame.Some? {
      assert Held(d, d.currentFrame.value);
    }
  }

  lemma RebuildKeeps(s: Kms, blob: nat)
    requires Inv(s) && !s.link.flipPending && s.shot.state == 0
    ensures Inv(s.(swap := RebuildScanout(s.swap)))
    ensures Inv(s.(swap := RebuildScanout(s.swap), config := s.config.(modeBlob := blob)))
  {
    hide Frames, PlaneFb;
  }

  lemma SwitchKeeps(s: Kms, blob: nat, rebuilt: bool, degraded: bool)
    requires Inv(s)
    ensures Inv(SwitchMode(s, blob, rebuilt, degraded).1)
  {
    hide Drain, ReleaseBoth, RebuildScanout, Buffers, OneFlip, Swapchain, Handoff, Frames;
    if s.shot.state == 0 {
      DrainKeeps(s, degraded);
      DrainLeavesShot(s, degraded);
      ReleaseBothKeeps(Drain(s, degraded));
      RebuildKeeps(ReleaseBoth(Drain(s, degraded)), blob);
    }
  }

  lemma DrainLeavesShot(s: Kms, degraded: bool)
    requires s.shot.state == 0
    ensures Drain(s, degraded).shot.state == 0
  {
  }

  lemma ScreenshotKeeps(s: Kms, made: bool, i: int, exported: bool)
    requires Inv(s)
    ensures Inv(PrepareScreenshot(s).1)
    ensures s.shot.state == 1 ==> Inv(ScreenshotPrepared(s, made))
    ensures s.link.flipPending && s.swap.queued == i ==> Inv(TakeScreenshot(s, i, exported).1)
  {
    hide Frames, PlaneFb;
  }

  // ----- whole runs -----

  datatype Step =
    | Present(i: Slot) | Direct(fb: nat) | Modeset(degraded: bool) | Power(on: bool, degraded: bool)
    | SessionOff | SessionOn(degraded: bool) | Switch(blob: nat, rebuilt: bool, degraded: bool)
    | Prepare | Prepared(made: bool) | Take(index: int, exported: bool)
    | Start | Connected(on: bool) | Cursor(enabled: bool, visible: bool) | Relink(degraded: bool)
    | Display(hdr: bool, degraded: bool)
    | Thread | Event(degraded: bool) | Hold(on: bool) | Refuse(faults: Faults) | Foreign(fb: nat)

  /**
   When a step can happen: a direct frame only on a ready output and with a client's own framebuffer, the
   worker's result only while one is awaited, a capture right after the accepted present of its image, another
   master's framebuffer only with the session away.
  */
  predicate Enabled(s: Kms, step: Step) {
    match step
    case Direct(fb) => Ready(s) && fb !in s.swap.live
    case Prepared(_) => s.shot.state == 1
    case Take(i, _) => s.link.flipPending && s.swap.queued == i
    case Event(_) => s.link.dev.queue != []
    case Foreign(fb) => !s.session.active && !s.link.dev.flipPending && fb !in s.swap.live
    case _ => true
  }

  function Do(s: Kms, step: Step): Kms {
    match step
    case Present(i) => PresentImage(s, i).1
    case Direct(fb) => DirectScanout(s, fb).1
    case Modeset(degraded) => Remodeset(s, degraded)
    case Power(on, degraded) => SetPowerSave(s, on, degraded)
    case SessionOff => s.(session := s.session.(active := false))
    case SessionOn(degraded) => SessionEnabled(s, degraded)
    case Switch(blob, rebuilt, degraded) => SwitchMode(s, blob, rebuilt, degraded).1
    case Prepare => PrepareScreenshot(s).1
    case Prepared(made) => ScreenshotPrepared(s, made)
    case Take(i, exported) => TakeScreenshot(s, i, exported).1
    case Start => s.(session := s.session.(started := true))
    case Connected(on) => s.(session := s.session.(connected := on))
    case Cursor(enabled, visible) => s.(config := s.config.(cursorEnabled := enabled, cursorVisible := visible))
    case Relink(degraded) => s.(config := Feedback(s.config, degraded))
    case Display(hdr, degraded) => ApplyDisplaySettings(s, hdr, degraded)
    case Thread => s.(link := DeviceFlip(s.link))
    case Event(degraded) => PageFlip(s, degraded)
    case Hold(on) => s.(link := s.link.(dev := s.link.dev.(held := on)))
    case Refuse(faults) => s.(link := s.link.(dev := s.link.dev.(faults := faults)))
    case Foreign(fb) =>
      s.(link := s.link.(screen := fb, dev := s.link.dev.(props := s.link.dev.props[PLANE_FB := Prop(PLANE, fb)])),
         swap := s.swap.(nextFb := if fb < s.swap.nextFb then s.swap.nextFb else fb + 1))
  }

  /** The output as its constructor leaves it: two fresh images, nothing of ours on the plane. */
  function Boot(dev: Device, config: Config): Kms {
    var fb := PlaneFb(dev);
    Kms(config, Link(dev, fb, {}, false, 0, 0, false),
        Swap(fb + 1, fb + 2, 0, 0, -1, -1, {fb + 1, fb + 2}, fb + 3),
        Shot(0, -1, false), Direct.Direct(0, 0, None, None, [], map[], false), Session(false, true, true, true))
  }

  ghost predicate Possible(s: Kms, steps: seq<Step>) {
    steps == [] ||
    (Possible(s, steps[..|steps| - 1]) && Enabled(Run(s, steps[..|steps| - 1]), steps[|steps| - 1]))
  }

  function Run(s: Kms, steps: seq<Step>): Kms {
    if steps == [] then s else Do(Run(s, steps[..|steps| - 1]), steps[|steps| - 1])
  }

  lemma StepKeeps(s: Kms, step: Step)
    requires Inv(s) && Enabled(s, step)
    ensures Inv(Do(s, step))
  {
    hide PresentImage, DirectScanout, Remodeset, ApplyDisplaySettings, SetPowerSave, SessionEnabled, SwitchMode,
      PageFlip, PrepareScreenshot, ScreenshotPrepared, TakeScreenshot, DeviceFlip, Inv;
    match step
    case Present(i) => PresentKeeps(s, i);
    case Direct(fb) => DirectKeeps(s, fb);
    case Modeset(degraded) => RemodesetKeeps(s, degraded);
    case Power(on, degraded) => PowerKeeps(s, on, degraded);
    case SessionOn(degraded) => SessionOnKeeps(s, degraded);
    case Switch(blob, rebuilt, degraded) => SwitchKeeps(s, blob, rebuilt, degraded);
    case Prepare => ScreenshotKeeps(s, true, 0, true);
    case Prepared(made) => ScreenshotKeeps(s, made, 0, true);
    case Take(i, exported) => ScreenshotKeeps(s, true, i, exported);
    case Display(hdr, degraded) => DisplayKeeps(s, hdr, degraded);
    case Thread => DeviceFlipKeeps(s);
    case Event(degraded) => PageFlipKeeps(s, degraded);
    case Hold(on) => HoldKeeps(s, on);
    case Foreign(fb) => ForeignKeeps(s, fb);
    case Refuse(faults) => RefuseKeeps(s, faults);
    case _ => SettingsKeep(s, step);
  }

  /** Another master's image on the plane: no buffer of ours, and none of ours to come. */
  lemma ForeignKeeps(s: Kms, fb: nat)
    requires Inv(s) && Enabled(s, Foreign(fb))
    ensures Inv(Do(s, Foreign(fb)))
  {
    hide Frames;
    FramesLink(s.direct, s.link, Do(s, Foreign(fb)).link);
  }

  lemma RefuseKeeps(s: Kms, faults: Faults)
    requires Inv(s)
    ensures Inv(Do(s, Refuse(faults)))
  {
    hide Frames;
    FramesLink(s.direct, s.link, Do(s, Refuse(faults)).link);
  }

  lemma SettingsKeep(s: Kms, step: Step)
    requires Inv(s)
    requires var t := Do(s, step); t.swap == s.swap && t.link == s.link && t.direct == s.direct && t.shot == s.shot
    ensures Inv(Do(s, step))
  {
    hide Do, Buffers, OneFlip, Swapchain, Handoff, Frames;
  }

  lemma {:induction false} RunKeeps(s: Kms, steps: seq<Step>)
    requires Inv(s) && Possible(s, steps)
    ensures Inv(Run(s, steps))
  {
    hide Inv, Do;
    if steps != [] {
      RunKeeps(s, steps[..|steps| - 1]);
      StepKeeps(Run(s, steps[..|steps| - 1]), steps[|steps| - 1]);
    }
  }

  lemma BootHolds(dev: Device, config: Config)
    requires !dev.flipPending && dev.queue == []
    ensures Inv(Boot(dev, config))
  {
  }

  /** A state some run leads to, from an output just made on a device at rest. */
  ghost predicate Reachable(s: Kms) {
    exists dev: Device, config: Config, steps: seq<Step> ::
      !dev.flipPending && dev.queue == [] && Possible(Boot(dev, config), steps) && s == Run(Boot(dev, config), steps)
  }

  lemma ReachableHolds(s: Kms)
    requires Reachable(s)
    ensures Inv(s)
  {
    hide Inv, Do, Enabled, Possible, Run, Boot;
    var dev: Device, config: Config, steps: seq<Step> :|
      !dev.flipPending && dev.queue == [] && Possible(Boot(dev, config), steps) && s == Run(Boot(dev, config), steps);
    BootHolds(dev, config);
    RunKeeps(Boot(dev, config), steps);
  }

  /**
   In every reachable state no real commit was ever sent while one was in flight, and with none in flight the image
   handed out for rendering is neither on the screen nor taken by a screenshot. Asked for in flight it is on the
   screen, or taken, exactly when the other image is the one in flight.
  */
  lemma NextImageIsFree(s: Kms)
    requires Reachable(s)
    ensures !s.link.collided
    ensures s.link.screen == Scan(s.swap, Acquire(s)) <==>
      && s.link.flipPending && s.link.dev.queue == [] && s.link.screen in s.swap.live
      && s.swap.queued == 1 - s.swap.current
    ensures s.shot.state == 3 ==>
      (Acquire(s) == s.shot.index <==> s.link.flipPending && s.swap.queued == 1 - s.shot.index)
  {
    hide Frames;
    ReachableHolds(s);
  }

  /** Live scan buffers are conserved: two slots, and a spare exactly while a screenshot is prepared or taken. */
  lemma BuffersAreConserved(s: Kms)
    requires Reachable(s)
    ensures s.swap.scan0 in s.swap.live && s.swap.scan1 in s.swap.live && s.swap.scan0 != s.swap.scan1
    ensures |s.swap.live| == (if s.shot.state >= 2 then 3 else 2)
  {
    ReachableHolds(s);
    var w := s.swap;
    assert |{w.scan0, w.scan1}| == 2;
    if w.spare != 0 {
      assert w.live == {w.scan0, w.scan1, w.spare};
    }
  }

  /**
   Every frame reference of an accepted direct flip is held or given back once, normally after a later flip: the
   reference of what is on the screen, or on its way there, is held unless a mode switch cut it short. Once the
   output is torn down all are given back.
  */
  lemma FramesAreConserved(s: Kms)
    requires Reachable(s)
    ensures var d := s.direct;
      && !d.twice
      && (forall r: nat :: r in d.released || Held(d, r) <==> r < |d.births|)
      && (forall r: nat :: Held(d, r) ==> r !in d.released)
      && (forall r: nat :: r in d.released && !d.released[r].early ==> d.births[r] < d.released[r].at)
    ensures forall r: nat :: r < |s.direct.births| && s.direct.births[r] >= s.link.flips ==>
      Held(s.direct, r) || s.direct.released[r].early
    ensures var d := ReleaseBoth(s).direct;
      !d.twice && forall r: nat :: r in d.released <==> r < |d.births|
  {
    ReachableHolds(s);
    var d, e := s.direct, ReleaseBoth(s).direct;
    forall r: nat
      ensures r in e.released <==> r < |e.births|
    {
      assert r in d.released || Held(d, r) <==> r < |d.births|;
    }
    if d.currentFrame.Some? {
      assert Held(d, d.currentFrame.value);
    }
    if d.queuedFrame.Some? {
      assert Held(d, d.queuedFrame.value);
    }
  }

  lemma FlipFresh(s: Kms, degraded: bool)
    ensures var t := PageFlip(s, degraded); t.swap.nextFb == s.swap.nextFb && t.swap.live <= s.swap.live
    ensures var t := Drain(s, degraded); t.swap.nextFb == s.swap.nextFb && t.swap.live <= s.swap.live
  {
    hide TurnOver, DeviceFlip;
  }

  lemma ShowSwap(s: Kms, fb: nat, modeset: bool)
    ensures Show(s, fb, modeset).1.swap == s.swap
  {
    hide Commit;
  }

  /** A step makes no buffer with an old id. */
  lemma StepFresh(s: Kms, step: Step)
    requires Inv(s) && Enabled(s, step)
    ensures s.swap.nextFb <= Do(s, step).swap.nextFb
    ensures forall fb :: fb in Do(s, step).swap.live && fb < s.swap.nextFb ==> fb in s.swap.live
  {
    hide DeviceFlip, PageFlip, Drain, Show, ReleaseQueued, ReleaseCurrent, TurnOver, Handoff, Frames, Swapchain,
      OneFlip, Feedback, Send, PlaneFb;
    forall t: Kms, fb, modeset
      ensures Show(t, fb, modeset).1.swap == t.swap
    {
      ShowSwap(t, fb, modeset);
    }
    forall t: Kms, degraded: bool
      ensures PageFlip(t, degraded).swap.nextFb == t.swap.nextFb && PageFlip(t, degraded).swap.live <= t.swap.live
      ensures Drain(t, degraded).swap.nextFb == t.swap.nextFb && Drain(t, degraded).swap.live <= t.swap.live
    {
      FlipFresh(t, degraded);
    }
  }

  /** A buffer once destroyed never comes back: it is in no slot again, so never handed out for rendering. */
  lemma {:induction false} DeadBuffersStayDead(s: Kms, steps: seq<Step>, fb: nat)
    requires Inv(s) && Possible(s, steps) && fb < s.swap.nextFb && fb !in s.swap.live
    ensures var t := Run(s, steps);
      fb < t.swap.nextFb && fb !in t.swap.live && Scan(t.swap, Acquire(t)) != fb
  {
    hide Do, Enabled;
    RunKeeps(s, steps);
    if steps != [] {
      var front, last := steps[..|steps| - 1], steps[|steps| - 1];
      DeadBuffersStayDead(s, front, fb);
      RunKeeps(s, front);
      StepFresh(Run(s, front), last);
    }
  }
}
