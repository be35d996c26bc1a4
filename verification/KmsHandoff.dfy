/**
 The screenshot hand-off over whole runs: when the taken image is handed out again and when it dies; and what becomes
 of the protocol when a drain gives up.
*/
module KmsHandoff {
  import opened FakeKms
  import opened KmsModel
  import opened KmsProofs
  import opened KmsEffects

  type Step = KmsProofs.Step

  function TakenFb(s: Kms): nat {
    Scan(s.swap, s.shot.index)
  }

  // ----- where the taken image dies -----

  /** A buffer is gone that a flip of ours had shown, and is neither on the screen nor set on the plane. */
  ghost predicate DiedOffScreen(t: Kms, fb: nat) {
    fb !in t.swap.live && fb in t.link.shown && fb != t.link.screen && fb != PlaneFb(t.link.dev)
  }

  /** The taken image is still there, taken, with as much of it shown as the hand-off says. */
  ghost predicate StillTaken(t: Kms, fb: nat) {
    t.shot.state == 3 && TakenFb(t) == fb && fb in t.swap.live && (t.shot.presented ==> fb in t.link.shown)
  }

  lemma TakenIsThere(s: Kms)
    requires Inv(s) && s.shot.state == 3
    ensures StillTaken(s, TakenFb(s))
  {
    hide Frames, OneFlip;
  }

  lemma FlipKeepsTaken(s: Kms, degraded: bool)
    requires Inv(s) && s.shot.state == 3 && s.link.dev.queue != []
    ensures var t := PageFlip(s, degraded); StillTaken(t, TakenFb(s)) || DiedOffScreen(t, TakenFb(s))
  {
    hide Frames, TurnOver;
  }

  lemma TurnKeepsTaken(s: Kms)
    requires Inv(s) && s.shot.state == 3
    ensures var t := s.(link := DeviceFlip(s.link)); Inv(t) && t.shot == s.shot && t.swap == s.swap
    ensures StillTaken(s.(link := DeviceFlip(s.link)), TakenFb(s))
  {
    hide Inv;
    DeviceFlipKeeps(s);
    TakenIsThere(s.(link := DeviceFlip(s.link)));
  }

  lemma DrainKeepsTaken(s: Kms, degraded: bool)
    requires Inv(s) && s.shot.state == 3
    ensures var t := Drain(s, degraded);
      Inv(t) && !t.link.flipPending && (StillTaken(t, TakenFb(s)) || DiedOffScreen(t, TakenFb(s)))
  {
    hide Inv, PageFlip, DeviceFlip, StillTaken, DiedOffScreen;
    DrainKeeps(s, degraded);
    if !s.link.flipPending {
      TakenIsThere(s);
    } else if s.link.dev.queue != [] {
      FlipKeepsTaken(s, degraded);
    } else {
      var u := s.(link := s.link.(dev := s.link.dev.(held := false)));
      HoldKeeps(s, false);
      PendingIsOwed(s);
      DeviceFlipKeeps(u);
      FlipKeepsTaken(u.(link := DeviceFlip(u.link)), degraded);
    }
  }

  lemma PendingIsOwed(s: Kms)
    requires Inv(s) && s.link.flipPending && s.link.dev.queue == []
    ensures s.link.dev.flipPending
  {
  }

  /** With the same screen and images, and only a live image newly set on the plane, the taken one fares as before. */
  lemma SameImages(s: Kms, t: Kms, fb: nat)
    requires StillTaken(s, fb) || DiedOffScreen(s, fb)
    requires t.shot == s.shot && t.swap == s.swap.(queued := t.swap.queued)
    requires t.link.shown == s.link.shown && t.link.screen == s.link.screen
    requires PlaneFb(t.link.dev) == PlaneFb(s.link.dev) || PlaneFb(t.link.dev) in s.swap.live
    ensures StillTaken(t, fb) || DiedOffScreen(t, fb)
  {
    hide PlaneFb;
  }

  lemma RelightKeepsTaken(s: Kms, fb: nat)
    requires Inv(s) && !s.link.flipPending && (StillTaken(s, fb) || DiedOffScreen(s, fb))
    ensures var t := Relight(s).1; StillTaken(t, fb) || DiedOffScreen(t, fb)
  {
    hide Show, Frames, PlaneFb, StillTaken, DiedOffScreen, OneFlip, Handoff, Swapchain;
    ShowKeeps(s, Scan(s.swap, 1 - s.swap.next), true);
    SameImages(s, Relight(s).1, fb);
  }

  lemma SentOffKeepsTaken(s: Kms, fb: nat)
    requires !s.link.dev.flipPending && (StillTaken(s, fb) || DiedOffScreen(s, fb))
    ensures var off := Request([Setting(CRTC, CRTC_ACTIVE, 0)], false, false, 0);
      var t := s.(link := Send(s.link, off).1, direct := ReleaseQueued(s.direct, s.link.flips, false));
      StillTaken(t, fb) || DiedOffScreen(t, fb)
  {
    hide Atomic, Final, StillTaken, DiedOffScreen, ReleaseQueued;
    var off := Request([Setting(CRTC, CRTC_ACTIVE, 0)], false, false, 0);
    AtomicIsAllOrNothing(s.link.dev, off);
    assert Final(s.link.dev.linkCap, off.settings, PLANE_FB) == [] by {
      FinalSkip(s.link.dev.linkCap, [], off.settings[0]);
      assert [] + [off.settings[0]] == off.settings;
      FinalNone(s.link.dev.linkCap);
    }
    var t := s.(link := Send(s.link, off).1, direct := ReleaseQueued(s.direct, s.link.flips, false));
    SameImages(s, t, fb);
  }

  lemma ModesetKeepsTaken(s: Kms, degraded: bool)
    requires Inv(s) && s.shot.state == 3
    ensures var t := Remodeset(s, degraded); StillTaken(t, TakenFb(s)) || DiedOffScreen(t, TakenFb(s))
  {
    hide Inv, Drain, Relight, StillTaken, DiedOffScreen;
    DrainKeepsTaken(s, degraded);
    if Drain(s, degraded).config.modesetDone {
      RelightKeepsTaken(Drain(s, degraded), TakenFb(s));
    }
  }

  lemma DisplayKeepsTaken(s: Kms, hdr: bool, degraded: bool)
    requires Inv(s) && s.shot.state == 3
    ensures var t := ApplyDisplaySettings(s, hdr, degraded); StillTaken(t, TakenFb(s)) || DiedOffScreen(t, TakenFb(s))
  {
    hide Remodeset, Inv, StillTaken, DiedOffScreen;
    HdrKeeps(s, hdr);
    ModesetKeepsTaken(s.(config := s.config.(hdr := hdr)), degraded);
  }

  lemma PowerKeepsTaken(s: Kms, on: bool, degraded: bool)
    requires Inv(s) && s.shot.state == 3
    ensures var t := SetPowerSave(s, on, degraded); StillTaken(t, TakenFb(s)) || DiedOffScreen(t, TakenFb(s))
  {
    hide Buffers, OneFlip, Swapchain, Handoff, Frames, Drain, Relight, RelightAndForget, Send, StillTaken,
      DiedOffScreen, ReleaseQueued;
    TakenIsThere(s);
    var u := s.(session := s.session.(powered := on));
    DrainKeepsTaken(u, degraded);
    DrainKeeps(u, degraded);
    RelightKeeps(Drain(u, degraded));
    RelightKeepsTaken(Drain(u, degraded), TakenFb(s));
    SentOffKeepsTaken(Drain(u, degraded), TakenFb(s));
  }

  lemma SessionKeepsTaken(s: Kms, degraded: bool)
    requires Inv(s) && s.shot.state == 3
    ensures var t := SessionEnabled(s, degraded); StillTaken(t, TakenFb(s)) || DiedOffScreen(t, TakenFb(s))
  {
    hide Buffers, OneFlip, Swapchain, Handoff, Frames, Drain, Relight, RelightAndForget, StillTaken, DiedOffScreen,
      ReleaseQueued;
    var u := s.(session := s.session.(active := true));
    DrainKeepsTaken(u, degraded);
    var d := Drain(u, degraded);
    QueuedIsNone(d);
    assert d.(direct := d.direct) == d;
    RelightKeeps(d);
    RelightKeepsTaken(d, TakenFb(s));
  }

  lemma PresentKeepsTaken(s: Kms, i: Slot)
    requires Inv(s) && s.shot.state == 3
    ensures StillTaken(PresentImage(s, i).1, TakenFb(s))
  {
    hide Show, Frames, PlaneFb, OneFlip;
    PresentKeeps(s, i);
    if !s.link.flipPending {
      ShowKeeps(s, Scan(s.swap, i), !s.config.modesetDone);
    }
    TakenIsThere(PresentImage(s, i).1);
  }

  lemma DirectKeepsTaken(s: Kms, fb: nat)
    requires Inv(s) && s.shot.state == 3 && Ready(s) && fb !in s.swap.live
    ensures StillTaken(DirectScanout(s, fb).1, TakenFb(s))
  {
    hide Show, Frames, PlaneFb, OneFlip;
    DirectKeeps(s, fb);
    ShowKeeps(s, fb, false);
    TakenIsThere(DirectScanout(s, fb).1);
  }

  /** One step: the image stays taken, or dies having been shown, off the screen. */
  lemma StepKeepsTaken(s: Kms, step: Step)
    requires Inv(s) && Enabled(s, step) && s.shot.state == 3
    ensures var t := Do(s, step); StillTaken(t, TakenFb(s)) || DiedOffScreen(t, TakenFb(s))
  {
    hide PresentImage, DirectScanout, Remodeset, ApplyDisplaySettings, SetPowerSave, SessionEnabled, PageFlip,
      DeviceFlip, Inv, StillTaken, DiedOffScreen;
    match step
    case Present(i) => PresentKeepsTaken(s, i);
    case Direct(fb) => DirectKeepsTaken(s, fb);
    case Modeset(degraded) => ModesetKeepsTaken(s, degraded);
    case Power(on, degraded) => PowerKeepsTaken(s, on, degraded);
    case SessionOn(degraded) => SessionKeepsTaken(s, degraded);
    case Display(hdr, degraded) => DisplayKeepsTaken(s, hdr, degraded);
    case Thread => TurnKeepsTaken(s);
    case Event(degraded) => FlipKeepsTaken(s, degraded);
    case _ =>
      StepKeeps(s, step);
      TakenIsThere(Do(s, step));
  }

  /**
   Over every run the taken image stays alive, as the taken one, until a step at which it has been shown by a flip and
   is neither on the screen nor set on the plane.
  */
  lemma {:induction false} TakenImageDiesOffScreen(s: Kms, steps: seq<Step>)
    requires Inv(s) && s.shot.state == 3 && Possible(s, steps)
    ensures StillTaken(KmsProofs.Run(s, steps), TakenFb(s)) || DiesAlong(s, steps)
  {
    hide Inv, Do, Enabled, StillTaken, DiedOffScreen;
    if steps == [] {
      TakenIsThere(s);
    } else {
      var n := |steps| - 1;
      var front, last := steps[..n], steps[n];
      TakenImageDiesOffScreen(s, front);
      if DiesAlong(s, front) {
        var k :| 0 < k <= |front|
          && Alive(s, front[..k - 1]) && DiedOffScreen(KmsProofs.Run(s, front[..k]), TakenFb(s));
        assert front[..k] == steps[..k] && front[..k - 1] == steps[..k - 1];
      } else {
        var u := KmsProofs.Run(s, front);
        assert u.shot.state == 3 && TakenFb(u) == TakenFb(s) && TakenFb(s) in u.swap.live by {
          TakenMeans(u, TakenFb(s));
        }
        RunKeeps(s, front);
        StepKeepsTaken(u, last);
        assert steps[..|steps|] == steps && steps[..|steps| - 1] == front;
      }
    }
  }

  /** The taken image is alive after a run. */
  ghost predicate Alive(s: Kms, steps: seq<Step>) {
    TakenFb(s) in KmsProofs.Run(s, steps).swap.live
  }

  /** Some step of a run is where the taken image dies, shown and off the screen. */
  ghost predicate DiesAlong(s: Kms, steps: seq<Step>) {
    exists k :: 0 < k <= |steps| && Alive(s, steps[..k - 1]) && DiedOffScreen(KmsProofs.Run(s, steps[..k]), TakenFb(s))
  }

  lemma TakenMeans(t: Kms, fb: nat)
    requires StillTaken(t, fb)
    ensures t.shot.state == 3 && TakenFb(t) == fb && fb in t.swap.live
  {
  }

  // ----- where the taken image is handed out -----

  /**
   The image a screenshot took is handed out for rendering while the next present is in flight: asked for then, as a
   forced composition does, the image still to be read is rendered over.
  */
  lemma TakenImageIsHandedOut(s: Kms, i: Slot)
    requires Inv(s) && s.shot == Shot(3, i, true) && !s.link.flipPending
    ensures PresentImage(s, 1 - i).0 ==>
      var t := PresentImage(s, 1 - i).1;
      Inv(t) && t.shot == Shot(3, i, true) && t.link.flipPending && Acquire(t) == i
  {
    hide Show, Frames, Buffers, Swapchain, OneFlip;
    PresentKeeps(s, 1 - i);
    ShowKeeps(s, Scan(s.swap, 1 - i), !s.config.modesetDone);
  }

  /** On a willing device every present of a running output with nothing in flight is accepted. */
  lemma PresentAccepted(s: Kms, i: Slot)
    requires Inv(s) && s.session.started && s.session.active && !s.link.flipPending && Willing(s.link.dev)
    ensures var (ok, t) := PresentImage(s, i);
      ok && Inv(t) && t.link.flipPending && Willing(t.link.dev) && t.link.dev.held == s.link.dev.held
      && t.session == s.session && t.shot == s.shot && t.swap == s.swap.(next := 1 - i, queued := i)
  {
    hide Commit, Willing, Buffers, Swapchain, Handoff, Frames, PlaneFb;
    PresentKeeps(s, i);
    ShowKeeps(s, Scan(s.swap, i), !s.config.modesetDone);
    CommitTaken(s.link, s.config, Scan(s.swap, i), !s.config.modesetDone);
  }

  lemma RunNext(s: Kms, steps: seq<Step>, step: Step)
    requires Possible(s, steps) && Enabled(KmsProofs.Run(s, steps), step)
    ensures Possible(s, steps + [step])
    ensures KmsProofs.Run(s, steps + [step]) == Do(KmsProofs.Run(s, steps), step)
  {
    hide Do, Enabled;
    assert (steps + [step])[..|steps|] == steps;
  }

  lemma RunNone(s: Kms)
    ensures Possible(s, []) && KmsProofs.Run(s, []) == s
  {
    hide Do, Enabled;
  }

  /** A screenshot prepared before the first present: the image presented is taken and on its way to the screen. */
  lemma TakenRun(s: Kms) returns (steps: seq<Step>)
    requires Inv(s) && s.session.active && s.shot.state == 0 && !s.link.flipPending && Willing(s.link.dev)
    requires !s.link.dev.held
    ensures Possible(s, steps)
    ensures var t := KmsProofs.Run(s, steps);
      && Inv(t) && t.session.started && t.session.active && t.shot == Shot(3, 0, false) && t.link.flipPending
      && t.swap.queued == 0 && Willing(t.link.dev) && !t.link.dev.held && t.link.dev.flipPending
  {
    hide Willing, PresentImage, Inv, KmsProofs.Run, Possible;
    var s1 := s.(session := s.session.(started := true));
    var s2 := s1.(shot := s1.shot.(state := 1));
    var s3 := ScreenshotPrepared(s2, true);
    RunNone(s);
    RunNext(s, [], Start);
    assert [] + [Start] == [Start];
    RunNext(s, [Start], Prepare);
    RunNext(s, [Start] + [Prepare], Prepared(true));
    steps := [Start] + [Prepare] + [Prepared(true)];
    assert KmsProofs.Run(s, steps) == s3;
    RunKeeps(s, steps);
    PresentAccepted(s3, 0);
    var s4 := PresentImage(s3, 0).1;
    RunNext(s, steps, Present(0));
    steps := steps + [Present(0)];
    RunNext(s, steps, Take(0, true));
    steps := steps + [Take(0, true)];
    RunKeeps(s, steps);
    NoEventYet(s3);
    PresentedInFlight(s3);
  }

  lemma NoEventYet(s: Kms)
    requires Inv(s) && !s.link.flipPending
    ensures s.link.dev.queue == [] && !s.link.dev.flipPending
  {
  }

  lemma PresentedInFlight(s: Kms)
    requires Inv(s) && !s.link.flipPending && PresentImage(s, 0).0
    ensures PresentImage(s, 0).1.link.dev.flipPending
  {
    hide Show, Frames, PlaneFb, Buffers, Swapchain, Handoff;
    ShowKeeps(s, Scan(s.swap, 0), !s.config.modesetDone);
  }

  /**
   So the hand-off fails asked for in flight: on any willing device a run leads to a state where the image handed out
   is the one a screenshot took.
  */
  lemma TakenImageReachesRenderer(dev: Device, config: Config)
    requires Willing(dev) && !dev.flipPending && dev.queue == [] && !dev.held
    ensures exists s :: Reachable(s) && s.shot.state == 3 && s.shot.presented && Acquire(s) == s.shot.index
  {
    hide Willing, PresentImage, Inv, PageFlip, DeviceFlip, Completed, Possible, KmsProofs.Run, Do;
    var s := Boot(dev, config);
    BootHolds(dev, config);
    var steps := TakenRun(s);
    var taken := KmsProofs.Run(s, steps);
    CompletedShows(taken, false);
    TurnQueues(taken);
    FlipEnabled(s, steps);
    var shown := Completed(taken, false);
    TakenIsPresented(taken, shown);
    StillWilling(taken);
    PresentAccepted(shown, 1);
    TakenImageIsHandedOut(shown, 0);
    PresentEnabled(s, steps + [Step.Thread] + [Step.Event(false)], 1);
    var all := steps + [Step.Thread] + [Step.Event(false)] + [Present(1)];
    assert Reachable(KmsProofs.Run(s, all));
  }

  lemma TakenIsPresented(s: Kms, t: Kms)
    requires s.shot == Shot(3, 0, false) && s.swap.queued == 0
    requires (t.swap, t.shot) == KmsModel.RetireScreenshot(s.swap.(current := s.swap.queued, queued := -1), s.shot)
    ensures t.shot == Shot(3, 0, true)
  {
  }

  lemma StillWilling(s: Kms)
    requires Willing(s.link.dev)
    ensures Willing(Completed(s, false).link.dev)
  {
  }

  lemma TurnQueues(s: Kms)
    requires s.link.dev.flipPending && !s.link.dev.held
    ensures DeviceFlip(s.link).dev.queue != []
  {
  }

  lemma FlipEnabled(s: Kms, steps: seq<Step>)
    requires Possible(s, steps) && DeviceFlip(KmsProofs.Run(s, steps).link).dev.queue != []
    ensures Possible(s, steps + [Step.Thread] + [Step.Event(false)])
    ensures KmsProofs.Run(s, steps + [Step.Thread] + [Step.Event(false)]) == Completed(KmsProofs.Run(s, steps), false)
  {
    hide PageFlip, DeviceFlip, Possible, KmsProofs.Run;
    RunNext(s, steps, Step.Thread);
    RunNext(s, steps + [Step.Thread], Step.Event(false));
  }

  lemma PresentEnabled(s: Kms, steps: seq<Step>, i: Slot)
    requires Possible(s, steps)
    ensures Possible(s, steps + [Present(i)])
    ensures KmsProofs.Run(s, steps + [Present(i)]) == PresentImage(KmsProofs.Run(s, steps), i).1
  {
    hide PresentImage, Possible, KmsProofs.Run;
    RunNext(s, steps, Present(i));
  }

  // ----- the give-up of the drain -----

  lemma TestIsQuiet(l: Link, c: Config, fb: nat, withCursor: bool)
    ensures var m := TryCommit(l, c, fb, true, withCursor, true).1;
      m.collided == l.collided && m.dev.flipPending == l.dev.flipPending && m.flipPending == l.flipPending
  {
    hide Atomic, Final, CommitRequest;
    var r := CommitRequest(c, fb, true, withCursor, true);
    assert r.test by {
      PlaneIsSet(l.dev.linkCap, c, fb, true, withCursor, true);
    }
    AtomicIsAllOrNothing(l.dev, r);
  }

  lemma TestsAreQuiet(l: Link, c: Config, fb: nat)
    ensures var m := TestModeset(l, c, fb).1;
      m.collided == l.collided && m.dev.flipPending == l.dev.flipPending && m.flipPending == l.flipPending
  {
    hide TryCommit;
    forall l: Link, c: Config, withCursor: bool
      ensures var m := TryCommit(l, c, fb, true, withCursor, true).1;
        m.collided == l.collided && m.dev.flipPending == l.dev.flipPending && m.flipPending == l.flipPending
    {
      TestIsQuiet(l, c, fb, withCursor);
    }
  }

  lemma BusyCollides(l: Link, c: Config, fb: nat, modeset: bool, withCursor: bool)
    requires l.dev.flipPending
    ensures var (err, m, _) := RealCommit(l, c, fb, modeset, withCursor); err != 0 && m.collided
  {
    hide CommitRequest;
    var r := CommitRequest(c, fb, modeset, withCursor, false);
    assert !r.test by {
      PlaneIsSet(l.dev.linkCap, c, fb, modeset, withCursor, false);
    }
  }

  /** A commit collides exactly when the device is busy and no test before the modeset refuses. */
  lemma CommitCollides(l: Link, c: Config, fb: nat, modeset: bool)
    requires !l.collided && !l.flipPending
    ensures var (err, m, _) := Commit(l, c, fb, modeset);
      && (m.collided <==> l.dev.flipPending && (modeset ==> TestModeset(l, c, fb).0 == 0))
      && (l.dev.flipPending ==> err != 0)
  {
    hide TestModeset, RealCommit;
    TestsAreQuiet(l, c, fb);
    var (_, l1, c1, withCursor) := TestModeset(l, c, fb);
    if !l.dev.flipPending {
      hide Commit;
      CommitOutcome(l, c, fb, modeset);
    } else if modeset {
      BusyCollides(l1, if withCursor then c1 else CursorLost(c1), fb, true, withCursor);
    } else {
      BusyCollides(l, c, fb, false, true);
    }
  }

  /**
   The give-up of the drain is what the invariant excludes. A present after it is accepted only if the device owes no
   flip; it collides exactly when the device does, unless the output waits for a modeset whose tests refuse it first.
  */
  lemma GiveUpCollides(s: Kms, i: Slot)
    requires Inv(s) && s.link.flipPending && s.session.started && s.session.active
    ensures var t := s.(link := s.link.(flipPending := false));
      && (PresentImage(t, i).1.link.collided <==>
            s.link.dev.flipPending
            && (!s.config.modesetDone ==> TestModeset(t.link, s.config, Scan(s.swap, i)).0 == 0))
      && (s.link.dev.flipPending ==> !PresentImage(t, i).0)
  {
    hide Buffers, Swapchain, Handoff, Frames, PlaneFb, Commit, TestModeset;
    CommitCollides(s.link.(flipPending := false), s.config, Scan(s.swap, i), !s.config.modesetDone);
  }
}
