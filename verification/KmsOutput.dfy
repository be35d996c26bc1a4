/**
 The KMS output as the object it is: its fields, kept in the records of KmsModel.dfy, updated in place by its
 methods, each of which is proved to do the step of KmsModel.dfy and to keep the invariant of KmsProofs.dfy.
*/
module KmsOutput {
  import opened FakeKms
  import opened KmsModel
  import opened KmsProofs

  class Output {
    var config: Config
    var link: Link
    var swap: Swap
    var shot: Shot
    var direct: Direct
    var session: Session

    ghost function View(): Kms
      reads this
    {
      Kms(config, link, swap, shot, direct, session)
    }

    constructor (device: Device, c: Config)
      requires !device.flipPending && device.queue == []
      ensures View() == Boot(device, c) && Inv(View())
    {
      var fb := PlaneFb(device);
      config := c;
      link := Link(device, fb, {}, false, 0, 0, false);
      swap := Swap(fb + 1, fb + 2, 0, 0, -1, -1, {fb + 1, fb + 2}, fb + 3);
      shot := Shot(0, -1, false);
      direct := Direct.Direct(0, 0, None, None, [], map[], false);
      session := Session(false, true, true, true);
      new;
      BootHolds(device, c);
    }

    /** Hand the request to the device. */
    method AtomicCommit(req: Request) returns (err: nat)
      modifies this`link
      ensures (err, link) == Send(old(link), req)
    {
      link := link.(collided := link.collided || (!req.test && link.dev.flipPending));
      var answer := Atomic(link.dev, req);
      err := answer.0;
      link := link.(dev := answer.1);
      if err == 0 && req.event {
        link := link.(commits := link.commits + 1);
      }
    }

    method TryCommit(fbId: nat, doModeset: bool, withCursor: bool, testOnly: bool) returns (err: nat)
      modifies this`link
      ensures (err, link) == KmsModel.TryCommit(old(link), config, fbId, doModeset, withCursor, testOnly)
    {
      hide Send, SignalSettings, CursorSettings;
      var req: seq<Setting> := [];
      if doModeset {
        var signal := ColorProps();
        req := [Setting(CONNECTOR, CONN_CRTC, CRTC), Setting(CRTC, CRTC_MODE, config.modeBlob),
                Setting(CRTC, CRTC_ACTIVE, 1)] + signal;
      }
      req := req + [Setting(PLANE, PLANE_FB, fbId), Setting(PLANE, PLANE_CRTC, CRTC)];
      var cursor := CursorProps(doModeset, withCursor);
      req := req + cursor;
      assert req == CommitRequest(config, fbId, doModeset, withCursor, testOnly).settings;
      err := AtomicCommit(Request(req, testOnly, !testOnly, 0));
    }

    method ColorProps() returns (req: seq<Setting>)
      ensures req == SignalSettings(config)
    {
      req := [];
      if config.hdr {
        req := req + [Setting(CONNECTOR, COLORSPACE, config.signal.hdrSpace),
                      Setting(CONNECTOR, HDR_META, config.signal.metaBlob)];
      } else {
        if config.signal.hasSpace {
          req := req + [Setting(CONNECTOR, COLORSPACE, 0)];
        }
        if config.signal.hasMeta {
          req := req + [Setting(CONNECTOR, HDR_META, 0)];
        }
      }
    }

    method CursorProps(doModeset: bool, withCursor: bool) returns (req: seq<Setting>)
      ensures req == CursorSettings(config, doModeset, withCursor)
    {
      req := [];
      if config.cursorPlane && (config.cursorEnabled || doModeset) {
        if withCursor && config.cursorEnabled {
          var on := config.cursorVisible;
          req := req + [Setting(CURSOR, CURSOR_FB, if on then config.cursorFb else 0),
                        Setting(CURSOR, CURSOR_CRTC, if on then CRTC else 0)];
        } else {
          req := req + [Setting(CURSOR, CURSOR_FB, 0), Setting(CURSOR, CURSOR_CRTC, 0)];
        }
      }
    }

    method Commit(fbId: nat, doModeset: bool) returns (err: nat)
      modifies this`link, this`config
      ensures (err, link, config) == KmsModel.Commit(old(link), old(config), fbId, doModeset)
    {
      hide KmsModel.TryCommit;
      var withCursor := true;
      if doModeset {
        var testErr := TryCommit(fbId, true, true, true);
        if testErr == EACCES || testErr == EPERM || testErr == EBUSY || testErr == ENOMEM {
          return testErr;
        }
        if testErr != 0 && config.cursorPlane && config.cursorEnabled {
          testErr := TryCommit(fbId, true, false, true);
          withCursor := false;
        }
        if testErr != 0 && config.hdr {
          config := config.(hdr := false);
          withCursor := true;
          testErr := TryCommit(fbId, true, true, true);
        }
        if testErr != 0 {
          return testErr;
        }
        if !withCursor {
          config := config.(cursorPlane := false, cursorEnabled := false);
        }
      }
      err := TryCommit(fbId, doModeset, withCursor, false);
      if err == EBUSY {
        return;
      }
      if err != 0 && err != ENOMEM && config.cursorPlane && config.cursorVisible {
        err := TryCommit(fbId, doModeset, false, false);
        if err == 0 {
          config := config.(cursorPlane := false, cursorEnabled := false);
        }
      }
      if err == 0 {
        link := link.(flipPending := true);
      }
    }

    method GiveBackFrame(frame: Option<nat>, early: bool)
      modifies this`direct
      ensures direct == GiveBack(old(direct), frame, link.flips, early)
    {
      if frame.Some? {
        direct := direct.(twice := direct.twice || frame.value in direct.released,
                          released := direct.released[frame.value := Release(link.flips, early)]);
      }
    }

    method ReleaseQueuedUse(early: bool)
      modifies this`direct
      ensures direct == ReleaseQueued(old(direct), link.flips, early)
    {
      direct := direct.(queued := 0);
      GiveBackFrame(direct.queuedFrame, early);
      direct := direct.(queuedFrame := None);
    }

    method ReleaseCurrentUse(early: bool)
      modifies this`direct
      ensures direct == ReleaseCurrent(old(direct), link.flips, early)
    {
      direct := direct.(current := 0);
      GiveBackFrame(direct.currentFrame, early);
      direct := direct.(currentFrame := None);
    }

    method RetireScreenshot()
      modifies this`swap, this`shot
      ensures (swap, shot) == KmsModel.RetireScreenshot(old(swap), old(shot))
    {
      if shot.state != 3 {
        return;
      }
      if swap.current == shot.index {
        shot := shot.(presented := true);
        return;
      }
      if !shot.presented {
        return;
      }
      var gone := Scan(swap, shot.index);
      if shot.index == 0 {
        swap := swap.(scan0 := swap.spare);
      } else {
        swap := swap.(scan1 := swap.spare);
      }
      swap := swap.(spare := 0);
      swap := swap.(live := swap.live - {gone});
      shot := Shot(0, -1, false);
    }

    /** The handler of one completion event. */
    method PageFlipHandler(degraded: bool)
      requires Inv(View()) && link.dev.queue != []
      modifies this
      ensures View() == PageFlip(old(View()), degraded) && Inv(View()) && !link.flipPending
    {
      hide Buffers, Swapchain, Handoff, Frames, KmsModel.RetireScreenshot;
      PageFlipKeeps(View(), degraded);
      link := link.(dev := link.dev.(queue := link.dev.queue[1..]), flips := link.flips + 1);
      link := link.(flipPending := false);
      swap := swap.(current := swap.queued);
      swap := swap.(queued := -1);
      ReleaseCurrentUse(false);
      direct := direct.(current := direct.queued, currentFrame := direct.queuedFrame);
      direct := direct.(queued := 0, queuedFrame := None);
      RetireScreenshot();
      if config.modesetDone && config.hdr && degraded {
        config := config.(modesetDone := false, hdr := false);
      }
    }

    /** The device shows what is on the plane, and queues its event. */
    method DeviceTurn()
      modifies this`link
      ensures link == DeviceFlip(old(link))
    {
      if link.dev.flipPending && !link.dev.held {
        link := link.(screen := PlaneFb(link.dev), shown := link.shown + {PlaneFb(link.dev)});
      }
      link := link.(dev := Flip(link.dev));
    }

    /** Wait for the event of the flip in flight and handle it; that it comes is the hypothesis. */
    method DrainPendingFlip(degraded: bool)
      requires Inv(View())
      modifies this
      ensures View() == Drain(old(View()), degraded) && Inv(View()) && !link.flipPending && !link.dev.flipPending
    {
      hide Buffers, Swapchain, Handoff, Frames, PageFlip, DeviceFlip;
      DrainKeeps(View(), degraded);
      ghost var was := View();
      while link.flipPending
        invariant Inv(View())
        invariant View() == was || (!link.flipPending && was.link.flipPending && View() == Drain(was, degraded))
        decreases link.flipPending
      {
        if link.dev.queue == [] {
          HoldKeeps(View(), false);
          link := link.(dev := link.dev.(held := false));
          DeviceFlipKeeps(View());
          DeviceTurn();
        }
        PageFlipHandler(degraded);
      }
    }

    method Acquire() returns (i: Slot)
      ensures i == KmsModel.Acquire(View())
      ensures Inv(View()) && !link.flipPending ==> link.screen != Scan(swap, i)
    {
      i := swap.next;
    }

    method PresentImage(i: Slot) returns (ok: bool)
      requires Inv(View())
      modifies this
      ensures (ok, View()) == KmsModel.PresentImage(old(View()), i) && Inv(View())
    {
      hide KmsModel.Commit, Inv;
      PresentKeeps(View(), i);
      if !session.started || link.flipPending || !session.active {
        return false;
      }
      var err := Commit(Scan(swap, i), !config.modesetDone);
      if err != 0 {
        return false;
      }
      config := config.(modesetDone := true);
      swap := swap.(next := 1 - i);
      swap := swap.(queued := i);
      direct := direct.(queued := 0, queuedFrame := None);
      ok := true;
    }

    method DirectScanout(fbId: nat) returns (ok: bool)
      requires Inv(View()) && Ready(View()) && fbId !in swap.live
      modifies this
      ensures (ok, View()) == KmsModel.DirectScanout(old(View()), fbId) && Inv(View())
    {
      hide KmsModel.Commit, Inv;
      DirectKeeps(View(), fbId);
      if !config.modesetDone || fbId == 0 {
        return false;
      }
      var err := Commit(fbId, false);
      if err != 0 {
        return false;
      }
      direct := direct.(queued := fbId);
      direct := direct.(queuedFrame := Some(|direct.births|), births := direct.births + [link.commits]);
      swap := swap.(queued := -1);
      swap := swap.(nextFb := if fbId < swap.nextFb then swap.nextFb else fbId + 1);
      ok := true;
    }

    /** The modeset shared by a remodeset, a wake and a session coming back. */
    method Relight() returns (ok: bool)
      requires Inv(View()) && !link.flipPending
      modifies this
      ensures (ok, View()) == KmsModel.Relight(old(View())) && Inv(View())
    {
      hide KmsModel.Commit, Inv;
      RelightKeeps(View());
      var err := Commit(Scan(swap, 1 - swap.next), true);
      if err == 0 {
        swap := swap.(queued := 1 - swap.next);
      }
      ok := err == 0;
    }

    method Remodeset(degraded: bool)
      requires Inv(View())
      modifies this
      ensures View() == KmsModel.Remodeset(old(View()), degraded) && Inv(View())
    {
      hide Drain, KmsModel.Relight, Inv;
      DrainPendingFlip(degraded);
      if config.modesetDone {
        var _ := Relight();
      }
    }

    /** Settings that change something: the color state they ask for, and a modeset to show it. */
    method ApplyDisplaySettings(hdr: bool, degraded: bool)
      requires Inv(View())
      modifies this
      ensures View() == KmsModel.ApplyDisplaySettings(old(View()), hdr, degraded) && Inv(View())
    {
      hide KmsModel.Remodeset, Inv;
      HdrKeeps(View(), hdr);
      config := config.(hdr := hdr);
      Remodeset(degraded);
    }

    method SetPowerSave(on: bool, degraded: bool)
      requires Inv(View())
      modifies this
      ensures View() == KmsModel.SetPowerSave(old(View()), on, degraded) && Inv(View())
    {
      hide Drain, KmsModel.Relight, Atomic, ReleaseQueued, Buffers, OneFlip, Swapchain, Handoff, Frames;
      PowerKeeps(View(), on, degraded);
      if !config.modesetDone || !session.active || on == session.powered {
        return;
      }
      session := session.(powered := on);
      DrainPendingFlip(degraded);
      if on {
        var lit := Relight();
        if lit {
          direct := direct.(queued := 0, queuedFrame := None);
        }
      } else {
        var _ := AtomicCommit(Request([Setting(CRTC, CRTC_ACTIVE, 0)], false, false, 0));
        ReleaseQueuedUse(false);
      }
    }

    method SessionEnabled(degraded: bool)
      requires Inv(View())
      modifies this
      ensures View() == KmsModel.SessionEnabled(old(View()), degraded) && Inv(View())
    {
      hide Drain, KmsModel.Relight, ReleaseQueued, Buffers, OneFlip, Swapchain, Handoff, Frames;
      SessionOnKeeps(View(), degraded);
      var comeback := !session.active;
      session := session.(active := true);
      DrainPendingFlip(degraded);
      QueuedIsNone(View());
      ReleaseQueuedUse(false);
      if !comeback || !config.modesetDone {
        return;
      }
      var lit := Relight();
      if lit {
        direct := direct.(queued := 0, queuedFrame := None);
      }
    }

    /** `blob` is the new mode's property blob, 0 if refused; `rebuilt` whether the images could be made at its size. */
    method SwitchMode(blob: nat, rebuilt: bool, degraded: bool) returns (ok: bool)
      requires Inv(View())
      modifies this
      ensures (ok, View()) == KmsModel.SwitchMode(old(View()), blob, rebuilt, degraded) && Inv(View())
    {
      hide Drain, ReleaseQueued, ReleaseCurrent, Buffers, OneFlip, Swapchain, Handoff, Frames;
      SwitchKeeps(View(), blob, rebuilt, degraded);
      if shot.state != 0 {
        return false;
      }
      DrainPendingFlip(degraded);
      ReleaseQueuedUse(true);
      ReleaseCurrentUse(true);
      if blob == 0 {
        return false;
      }
      var first := swap.nextFb;
      swap := Swap(first, first + 1, 0, 0, -1, -1, {first, first + 1}, first + 2);
      if rebuilt {
        config := config.(modeBlob := blob);
      }
      ok := rebuilt;
    }

    method PrepareScreenshot() returns (ok: bool)
      requires Inv(View())
      modifies this`shot
      ensures (ok, View()) == KmsModel.PrepareScreenshot(old(View())) && Inv(View())
    {
      ScreenshotKeeps(View(), true, 0, true);
      if shot.state != 0 {
        return false;
      }
      shot := shot.(state := 1);
      ok := true;
    }

    method ScreenshotPrepared(made: bool)
      requires Inv(View()) && shot.state == 1
      modifies this`shot, this`swap
      ensures View() == KmsModel.ScreenshotPrepared(old(View()), made) && Inv(View())
    {
      hide Inv;
      ScreenshotKeeps(View(), made, 0, true);
      if made {
        swap := swap.(spare := swap.nextFb, live := swap.live + {swap.nextFb}, nextFb := swap.nextFb + 1);
      }
      shot := shot.(state := if made then 2 else 0);
    }

    /** Asked right after the accepted present of image `i`. */
    method TakeScreenshot(i: int, exported: bool) returns (ok: bool)
      requires Inv(View()) && link.flipPending && swap.queued == i
      modifies this`shot, this`swap
      ensures (ok, View()) == KmsModel.TakeScreenshot(old(View()), i, exported) && Inv(View())
    {
      hide Inv;
      ScreenshotKeeps(View(), true, i, exported);
      if shot.state != 2 || i < 0 || i >= 2 {
        return false;
      }
      if !exported {
        swap := swap.(live := swap.live - {swap.spare}, spare := 0);
        shot := shot.(state := 0);
        return false;
      }
      shot := Shot(3, i, false);
      ok := true;
    }
  }
}
