/**
 The buffer protocol of the KMS backend on its zero-copy path, as functions on its state, against the device
 of FakeKms.dfy: the two-image swapchain, one flip in flight, direct scanout of client buffers with frame
 references, and the screenshot hand-off.

 The device's answers are its own: what it refuses may change at any time. Scanout buffers are their
 framebuffer ids; 0 is no buffer.
*/
module KmsModel {
  import opened FakeKms

  const EPERM := 1
  const EACCES := 13

  const CONNECTOR: u32 := 100
  const CRTC: u32 := 101
  const PLANE: u32 := 102
  const CURSOR: u32 := 103
  const CONN_CRTC: u32 := 10
  const CRTC_MODE: u32 := 11
  const PLANE_CRTC: u32 := 12
  const CURSOR_CRTC: u32 := 13
  const COLORSPACE: u32 := 14
  const HDR_META: u32 := 15

  type Slot = i: int | 0 <= i <= 1

  datatype Option<T> = None | Some(value: T)

  /** What the connector can be told of its signal: whether it has the properties, and their values for HDR. */
  datatype Signal = Signal(hasSpace: bool, hasMeta: bool, hdrSpace: nat, metaBlob: nat)

  /** The configuration a commit carries, and may give up. */
  datatype Config = Config(cursorPlane: bool, cursorEnabled: bool, cursorVisible: bool, cursorFb: nat,
                           modeBlob: nat, signal: Signal, hdr: bool, modesetDone: bool)

  /**
   The device and the flip in flight. `screen` is the framebuffer shown since the last completed flip, `shown`
   every one a flip of ours ever put there; `commits` and `flips` count accepted and completed ones; `collided` tells of
   a real commit sent while one was in flight.
  */
  datatype Link = Link(dev: Device, screen: nat, shown: set<nat>, flipPending: bool, commits: nat, flips: nat,
                       collided: bool)

  /** The scanout images: two slots, the spare of a screenshot, all that are alive, and the next fresh id. */
  datatype Swap = Swap(scan0: nat, scan1: nat, spare: nat, next: Slot, current: int, queued: int,
                       live: set<nat>, nextFb: nat)

  datatype Shot = Shot(state: nat, index: int, presented: bool)

  /** A frame reference given back: after how many completed flips, and whether a mode switch or teardown did it. */
  datatype Release = Release(at: nat, early: bool)

  /**
   Direct scanout: the client framebuffers queued and shown with their frame references. `births` has the
   commit each reference was made by, `released` those given back, `twice` tells of one given back again.
  */
  datatype Direct = Direct(queued: nat, current: nat, queuedFrame: Option<nat>, currentFrame: Option<nat>,
                           births: seq<nat>, released: map<nat, Release>, twice: bool)

  datatype Session = Session(started: bool, active: bool, connected: bool, powered: bool)

  datatype Kms = Kms(config: Config, link: Link, swap: Swap, shot: Shot, direct: Direct, session: Session)

  /** The image in a slot. */
  function Scan(w: Swap, i: int): nat {
    if i == 0 then w.scan0 else w.scan1
  }

  function PlaneFb(d: Device): nat {
    if PLANE_FB in d.props then d.props[PLANE_FB].value else 0
  }

  // ----- committing -----

  function CursorSettings(c: Config, modeset: bool, withCursor: bool): seq<Setting> {
    if !(c.cursorPlane && (c.cursorEnabled || modeset)) then []
    else if withCursor && c.cursorEnabled && c.cursorVisible
    then [Setting(CURSOR, CURSOR_FB, c.cursorFb), Setting(CURSOR, CURSOR_CRTC, CRTC)]
    else [Setting(CURSOR, CURSOR_FB, 0), Setting(CURSOR, CURSOR_CRTC, 0)]
  }

  /** HDR, or what scrubs the color state that an earlier owner of the connector left; 0 is the default colorspace. */
  function SignalSettings(c: Config): seq<Setting> {
    if c.hdr then
      [Setting(CONNECTOR, COLORSPACE, c.signal.hdrSpace), Setting(CONNECTOR, HDR_META, c.signal.metaBlob)]
    else
      (if c.signal.hasSpace then [Setting(CONNECTOR, COLORSPACE, 0)] else [])
      + (if c.signal.hasMeta then [Setting(CONNECTOR, HDR_META, 0)] else [])
  }

  function CommitRequest(c: Config, fb: nat, modeset: bool, withCursor: bool, test: bool): Request {
    Request(
      (if modeset
       then [Setting(CONNECTOR, CONN_CRTC, CRTC), Setting(CRTC, CRTC_MODE, c.modeBlob), Setting(CRTC, CRTC_ACTIVE, 1)]
            + SignalSettings(c)
       else [])
      + [Setting(PLANE, PLANE_FB, fb), Setting(PLANE, PLANE_CRTC, CRTC)]
      + CursorSettings(c, modeset, withCursor),
      test, !test, 0)
  }

  /** One atomic request. */
  function Send(l: Link, r: Request): (nat, Link) {
    var (err, d) := Atomic(l.dev, r);
    (err, l.(dev := d, collided := l.collided || (!r.test && l.dev.flipPending),
             commits := if err == 0 && r.event then l.commits + 1 else l.commits))
  }

  function TryCommit(l: Link, c: Config, fb: nat, modeset: bool, withCursor: bool, test: bool): (nat, Link) {
    Send(l, CommitRequest(c, fb, modeset, withCursor, test))
  }

  function CursorLost(c: Config): Config {
    c.(cursorPlane := false, cursorEnabled := false)
  }

  /** The real flip, retried without the cursor plane when that plane may be what the driver refused. */
  function RealCommit(l: Link, c: Config, fb: nat, modeset: bool, withCursor: bool): (nat, Link, Config) {
    var (err, l1) := TryCommit(l, c, fb, modeset, withCursor, false);
    if err == EBUSY then (err, l1, c)
    else if err != 0 && err != ENOMEM && c.cursorPlane && c.cursorVisible then
      var (err2, l2) := TryCommit(l1, c, fb, modeset, false, false);
      if err2 == 0 then (0, l2.(flipPending := true), CursorLost(c)) else (err2, l2, c)
    else if err != 0 then (err, l1, c)
    else (0, l1.(flipPending := true), c)
  }

  /** The tests before a modeset: without the cursor, then degraded to SDR; and whether the cursor survives them. */
  function TestModeset(l: Link, c: Config, fb: nat): (nat, Link, Config, bool) {
    var (err1, l1) := TryCommit(l, c, fb, true, true, true);
    if err1 in {EACCES, EPERM, EBUSY, ENOMEM} then (err1, l1, c, true) else
      var bare := err1 != 0 && c.cursorPlane && c.cursorEnabled;
      var (err2, l2) := if bare then TryCommit(l1, c, fb, true, false, true) else (err1, l1);
      if err2 != 0 && c.hdr then
        var sdr := c.(hdr := false);
        var (err3, l3) := TryCommit(l2, sdr, fb, true, true, true);
        (err3, l3, sdr, true)
      else (err2, l2, c, !bare)
  }

  function Commit(l: Link, c: Config, fb: nat, modeset: bool): (nat, Link, Config) {
    if !modeset then RealCommit(l, c, fb, false, true) else
      var (err, l1, c1, withCursor) := TestModeset(l, c, fb);
      if err != 0 then (err, l1, c1)
      else RealCommit(l1, if withCursor then c1 else CursorLost(c1), fb, true, withCursor)
  }

  // ----- completed flips -----

  /** The device's side: the pending flip reaches the screen. */
  function DeviceFlip(l: Link): Link {
    var turns := l.dev.flipPending && !l.dev.held;
    l.(dev := Flip(l.dev), screen := if turns then PlaneFb(l.dev) else l.screen,
       shown := if turns then l.shown + {PlaneFb(l.dev)} else l.shown)
  }

  function GiveBack(d: Direct, frame: Option<nat>, at: nat, early: bool): Direct {
    if frame.None? then d else
      d.(released := d.released[frame.value := Release(at, early)], twice := d.twice || frame.value in d.released)
  }

  function ReleaseQueued(d: Direct, at: nat, early: bool): Direct {
    GiveBack(d, d.queuedFrame, at, early).(queued := 0, queuedFrame := None)
  }

  function ReleaseCurrent(d: Direct, at: nat, early: bool): Direct {
    GiveBack(d, d.currentFrame, at, early).(current := 0, currentFrame := None)
  }

  /** What was queued is shown, and what was shown goes back. */
  function TurnOver(d: Direct, at: nat): Direct {
    ReleaseCurrent(d, at, false).(current := d.queued, currentFrame := d.queuedFrame, queued := 0, queuedFrame := None)
  }

  /** The taken image leaves once it has been on screen and something else is. */
  function RetireScreenshot(w: Swap, t: Shot): (Swap, Shot) {
    if t.state != 3 then (w, t)
    else if w.current == t.index then (w, t.(presented := true))
    else if !t.presented then (w, t)
    else (w.(scan0 := if t.index == 0 then w.spare else w.scan0, scan1 := if t.index == 0 then w.scan1 else w.spare,
             spare := 0, live := w.live - {Scan(w, t.index)}),
          Shot(0, -1, false))
  }

  /** The link feedback may find the HDR link degraded and ask for a new modeset. */
  function Feedback(c: Config, degraded: bool): Config {
    if c.modesetDone && c.hdr && degraded then c.(modesetDone := false, hdr := false) else c
  }

  function PageFlip(s: Kms, degraded: bool): Kms {
    if s.link.dev.queue == [] then s else
      var l := s.link.(dev := s.link.dev.(queue := s.link.dev.queue[1..]), flipPending := false,
                       flips := s.link.flips + 1);
      var (w, t) := RetireScreenshot(s.swap.(current := s.swap.queued, queued := -1), s.shot);
      s.(link := l, swap := w, shot := t, direct := TurnOver(s.direct, l.flips), config := Feedback(s.config, degraded))
  }

  /** Wait for the flip in flight, whose event is assumed to come. */
  function Drain(s: Kms, degraded: bool): Kms {
    if !s.link.flipPending then s else
      PageFlip(if s.link.dev.queue == []
               then s.(link := DeviceFlip(s.link.(dev := s.link.dev.(held := false)))) else s, degraded)
  }

  // ----- the operations -----

  predicate Ready(s: Kms) {
    s.session.started && !s.link.flipPending && s.session.active && s.session.connected && s.session.powered
  }

  function Acquire(s: Kms): Slot {
    s.swap.next
  }

  /** A commit that keeps the rest of the state; the flag is whether it was accepted. */
  function Show(s: Kms, fb: nat, modeset: bool): (bool, Kms) {
    var (err, l, c) := Commit(s.link, s.config, fb, modeset);
    (err == 0, s.(link := l, config := c))
  }

  function Forget(d: Direct): Direct {
    d.(queued := 0, queuedFrame := None)
  }

  function PresentImage(s: Kms, i: Slot): (bool, Kms) {
    if !s.session.started || s.link.flipPending || !s.session.active then (false, s) else
      var (shown, t) := Show(s, Scan(s.swap, i), !s.config.modesetDone);
      if !shown then (false, t) else
        (true, t.(config := t.config.(modesetDone := true), swap := t.swap.(next := 1 - i, queued := i),
                  direct := Forget(t.direct)))
  }

  /** A client buffer whose import gave framebuffer `fb`, 0 when it was refused. */
  function DirectScanout(s: Kms, fb: nat): (bool, Kms) {
    if !s.config.modesetDone || fb == 0 then (false, s) else
      var (shown, t) := Show(s, fb, false);
      if !shown then (false, t) else
        (true, t.(direct := t.direct.(queued := fb, queuedFrame := Some(|t.direct.births|),
                                      births := t.direct.births + [t.link.commits]),
                  swap := t.swap.(queued := -1, nextFb := if fb < t.swap.nextFb then t.swap.nextFb else fb + 1)))
  }

  /** A full modeset on the image of the slot that is not handed out next. */
  function Relight(s: Kms): (bool, Kms) {
    var (shown, t) := Show(s, Scan(s.swap, 1 - s.swap.next), true);
    (shown, if shown then t.(swap := t.swap.(queued := 1 - t.swap.next)) else t)
  }

  function RelightAndForget(s: Kms): Kms {
    var (shown, t) := Relight(s);
    if shown then t.(direct := Forget(t.direct)) else t
  }

  function Remodeset(s: Kms, degraded: bool): Kms {
    var t := Drain(s, degraded);
    if t.config.modesetDone then Relight(t).1 else t
  }

  /** The display settings ask for HDR or for SDR, and anything they change is shown by a modeset. */
  function ApplyDisplaySettings(s: Kms, hdr: bool, degraded: bool): Kms {
    Remodeset(s.(config := s.config.(hdr := hdr)), degraded)
  }

  function SetPowerSave(s: Kms, on: bool, degraded: bool): Kms {
    if !s.config.modesetDone || !s.session.active || on == s.session.powered then s else
      var t := Drain(s.(session := s.session.(powered := on)), degraded);
      if on then RelightAndForget(t) else
        var off := Request([Setting(CRTC, CRTC_ACTIVE, 0)], false, false, 0);
        t.(link := Send(t.link, off).1, direct := ReleaseQueued(t.direct, t.link.flips, false))
  }

  function SessionEnabled(s: Kms, degraded: bool): Kms {
    var d := Drain(s.(session := s.session.(active := true)), degraded);
    var t := d.(direct := ReleaseQueued(d.direct, d.link.flips, false));
    if s.session.active || !t.config.modesetDone then t else RelightAndForget(t)
  }

  /** Two fresh images in place of everything there was. */
  function RebuildScanout(w: Swap): Swap {
    Swap(w.nextFb, w.nextFb + 1, 0, 0, -1, -1, {w.nextFb, w.nextFb + 1}, w.nextFb + 2)
  }

  function ReleaseBoth(s: Kms): Kms {
    s.(direct := ReleaseCurrent(ReleaseQueued(s.direct, s.link.flips, true), s.link.flips, true))
  }

  function SwitchMode(s: Kms, blob: nat, rebuilt: bool, degraded: bool): (bool, Kms) {
    if s.shot.state != 0 then (false, s) else
      var t := ReleaseBoth(Drain(s, degraded));
      if blob == 0 then (false, t)
      else if !rebuilt then (false, t.(swap := RebuildScanout(t.swap)))
      else (true, t.(swap := RebuildScanout(t.swap), config := t.config.(modeBlob := blob)))
  }

  function PrepareScreenshot(s: Kms): (bool, Kms) {
    if s.shot.state != 0 then (false, s) else (true, s.(shot := s.shot.(state := 1)))
  }

  /** The worker's replacement image is there, or could not be made. */
  function ScreenshotPrepared(s: Kms, made: bool): Kms {
    if !made then s.(shot := s.shot.(state := 0)) else
      var w := s.swap;
      s.(shot := s.shot.(state := 2),
         swap := w.(spare := w.nextFb, live := w.live + {w.nextFb}, nextFb := w.nextFb + 1))
  }

  function TakeScreenshot(s: Kms, i: int, exported: bool): (bool, Kms) {
    if s.shot.state != 2 || !(0 <= i <= 1) then (false, s)
    else if !exported then
      (false, s.(shot := s.shot.(state := 0), swap := s.swap.(live := s.swap.live - {s.swap.spare}, spare := 0)))
    else (true, s.(shot := Shot(3, i, false)))
  }
}
