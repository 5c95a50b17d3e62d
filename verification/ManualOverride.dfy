/** The manual override of xbox_override.py in joy mode with a resolved pad map: arm on release,
    engage on RB, zeros for a tail, then silence. Times are reals in seconds. */
module ManualOverride {
  import opened Options

  const WHEELBASE := 0.23529
  const REST_THRESH := 0.90
  const STICK_DEADZONE := 0.12
  const TRIGGER_DEADZONE := 0.05

  datatype Joy = Joy(rt: real, lt: real, stick: real, rb: bool)

  /** The command-line configuration; `tan` stands for the tangent. */
  datatype Config = Config(tail: real, joyTimeout: real, maxFwd: real, maxRev: real, maxSteer: real, steerSign: real,
                           tan: real -> real)

  predicate Sane(cfg: Config) { cfg.maxFwd >= 0.0 && cfg.maxRev >= 0.0 && cfg.maxSteer >= 0.0 }

  /** A published command; delta is the steering angle its yaw rate was derived from. */
  datatype Twist = Twist(vx: real, wz: real, delta: real)

  const STOP := Twist(0.0, 0.0, 0.0)

  /** `joy` is the last message with its arrival time. */
  datatype State = State(joy: Option<(Joy, real)>, armedRt: bool, armedLt: bool, engaged: bool, tailUntil: real)

  const INIT := State(None, false, false, false, 0.0)

  function Clip(x: real, lo: real, hi: real): real { if x < lo then lo else if x > hi then hi else x }

  function Throttle(axis: real): real {
    var t := Clip((1.0 - axis) / 2.0, 0.0, 1.0);
    if t < TRIGGER_DEADZONE then 0.0 else t
  }

  predicate Stale(cfg: Config, s: State, now: real) { s.joy.None? || now - s.joy.value.1 > cfg.joyTimeout }

  /** The steering angle commanded by the stick, within the cap. */
  function Steering(cfg: Config, stick: real): real {
    var x := stick * cfg.steerSign;
    var y := if -STICK_DEADZONE < x < STICK_DEADZONE then 0.0 else x;
    Clip(y * cfg.maxSteer, -cfg.maxSteer, cfg.maxSteer)
  }

  /** Both triggers pressed means zero. */
  function Speed(cfg: Config, fwd: real, rev: real): real {
    if fwd > 0.0 && rev > 0.0 then 0.0 else fwd * cfg.maxFwd - rev * cfg.maxRev
  }

  /** The yaw rate follows from the speed and the steering angle. */
  function YawRate(cfg: Config, vx: real, delta: real): real { vx * cfg.tan(delta) / WHEELBASE }

  function Command(cfg: Config, j: Joy): Twist {
    var vx, delta := Speed(cfg, Throttle(j.rt), Throttle(j.lt)), Steering(cfg, j.stick);
    Twist(vx, YawRate(cfg, vx, delta), delta)
  }

  function Disarm(cfg: Config, s: State, now: real): State {
    s.(armedRt := false, armedLt := false, engaged := false,
       tailUntil := if s.engaged then now + cfg.tail else s.tailUntil)
  }

  /** What a tick leaves and publishes. */
  function Tick(cfg: Config, s: State, now: real): (State, Option<Twist>) {
    if Stale(cfg, s, now) then
      var t := if s.joy.Some? || s.engaged then Disarm(cfg, s, now) else s;
      (t, if now < t.tailUntil then Some(STOP) else None)
    else
      var j := s.joy.value.0;
      var s1 := s.(armedRt := s.armedRt || j.rt >= REST_THRESH, armedLt := s.armedLt || j.lt >= REST_THRESH);
      if j.rb && s1.armedRt && s1.armedLt then (s1.(engaged := true), Some(Command(cfg, j)))
      else
        var t := s1.(engaged := false, tailUntil := if s.engaged then now + cfg.tail else s.tailUntil);
        (t, if now < t.tailUntil then Some(STOP) else None)
  }

  class Override {
    const cfg: Config
    var joy: Option<(Joy, real)>
    var seenJoy: bool
    var armedRt: bool
    var armedLt: bool
    var engaged: bool
    var tailUntil: real

    function View(): State
      reads this
    {
      State(joy, armedRt, armedLt, engaged, tailUntil)
    }

    predicate Valid()
      reads this
    {
      seenJoy == joy.Some?
    }

    constructor (cfg: Config)
      ensures Valid() && View() == INIT && this.cfg == cfg
    {
      this.cfg := cfg;
      joy, seenJoy, armedRt, armedLt, engaged, tailUntil := None, false, false, false, false, 0.0;
    }

    method OnJoy(msg: Joy, now: real)
      requires Valid()
      modifies this
      ensures Valid() && View() == old(View()).(joy := Some((msg, now)))
    {
      joy := Some((msg, now));
      seenJoy := true;
    }

    method OnDisarm(now: real)
      requires Valid()
      modifies this
      ensures Valid() && View() == Disarm(cfg, old(View()), now)
    {
      armedRt, armedLt := false, false;
      if engaged {
        engaged := false;
        tailUntil := now + cfg.tail;
      }
    }

    /** The trigger transform: nothing until the trigger has been seen at rest. */
    method Trigger(axis: real, right: bool) returns (t: real)
      requires Valid()
      modifies this
      ensures Valid()
      ensures View() == old(View()).(armedRt := old(armedRt) || (right && axis >= REST_THRESH),
                                     armedLt := old(armedLt) || (!right && axis >= REST_THRESH))
      ensures t == if (if right then armedRt else armedLt) then Throttle(axis) else 0.0
    {
      if axis >= REST_THRESH {
        if right { armedRt := true; } else { armedLt := true; }
      }
      if !(if right then armedRt else armedLt) {
        return 0.0;
      }
      t := Clip((1.0 - axis) / 2.0, 0.0, 1.0);
      if t < TRIGGER_DEADZONE {
        t := 0.0;
      }
    }

    method TailOrSilence(now: real) returns (out: Option<Twist>)
      ensures out == if now < tailUntil then Some(STOP) else None
    {
      if now < tailUntil {
        return Some(STOP);
      }
      return None;
    }

    method OnTick(now: real) returns (out: Option<Twist>)
      requires Valid()
      modifies this
      ensures Valid() && (View(), out) == Tick(cfg, old(View()), now)
    {
      if joy.None? || now - joy.value.1 > cfg.joyTimeout {
        if seenJoy && joy.Some? {
          OnDisarm(now);
        } else if engaged {
          OnDisarm(now);
        }
        out := TailOrSilence(now);
        return;
      }
      var j := joy.value.0;
      var fwd := Trigger(j.rt, true);
      var rev := Trigger(j.lt, false);
      var armed := armedRt && armedLt;
      if j.rb && armed {
        engaged := true;
      } else if engaged {
        engaged := false;
        tailUntil := now + cfg.tail;
      }
      if !engaged {
        out := TailOrSilence(now);
        return;
      }
      var vx := Speed(cfg, fwd, rev);
      var delta := Steering(cfg, j.stick);
      out := Some(Twist(vx, YawRate(cfg, vx, delta), delta));
    }
  }

  // ---- Runs ----

  datatype Event = Message(joy: Joy, at: real) | Tock(at: real)

  function Next(cfg: Config, s: State, e: Event): State {
    match e
    case Message(j, at) => s.(joy := Some((j, at)))
    case Tock(at) => Tick(cfg, s, at).0
  }

  function Run(cfg: Config, es: seq<Event>): State {
    if es == [] then INIT else Next(cfg, Run(cfg, es[..|es| - 1]), es[|es| - 1])
  }

  /** The last message of a run. */
  function LastMessage(es: seq<Event>): Option<(Joy, real)> {
    if es == [] then None
    else if es[|es| - 1].Message? then Some((es[|es| - 1].joy, es[|es| - 1].at))
    else LastMessage(es[..|es| - 1])
  }

  /** Event k is a tick with a fresh message, or one without. */
  predicate FreshTick(cfg: Config, es: seq<Event>, k: nat)
    requires k < |es|
  {
    es[k].Tock? && LastMessage(es[..k]).Some? && es[k].at - LastMessage(es[..k]).value.1 <= cfg.joyTimeout
  }
  predicate StaleTick(cfg: Config, es: seq<Event>, k: nat)
    requires k < |es|
  {
    es[k].Tock? && !FreshTick(cfg, es, k)
  }

  function Axis(j: Joy, right: bool): real { if right then j.rt else j.lt }

  /** The trigger was seen at rest at fresh tick k, and no tick since found the pad stale. */
  predicate SeenAtRest(cfg: Config, es: seq<Event>, k: nat, right: bool)
    requires k < |es|
  {
    && FreshTick(cfg, es, k) && Axis(LastMessage(es[..k]).value.0, right) >= 0.90
    && forall l :: k < l < |es| ==> !StaleTick(cfg, es, l)
  }

  ghost predicate Seen(cfg: Config, es: seq<Event>, right: bool) {
    exists k: nat :: k < |es| && SeenAtRest(cfg, es, k, right)
  }

  lemma SeenExtends(cfg: Config, es: seq<Event>, k: nat, right: bool)
    requires |es| > 0 && k < |es| - 1
    ensures SeenAtRest(cfg, es, k, right) <==>
              SeenAtRest(cfg, es[..|es| - 1], k, right) && !StaleTick(cfg, es, |es| - 1)
  {
    var n := |es| - 1;
    assert forall l :: 0 <= l < n ==> es[..n][..l] == es[..l] && es[..n][l] == es[l];
    assert forall l :: 0 <= l < n ==> (StaleTick(cfg, es[..n], l) <==> StaleTick(cfg, es, l));
  }

  /** In every run: the machine's message is the last one; a trigger is armed exactly when it was
      seen at rest at a tick since the last stale tick; engaged implies both armed. */
  lemma {:induction false} ArmedMeansSeen(cfg: Config, es: seq<Event>)
    ensures var s := Run(cfg, es);
            && s.joy == LastMessage(es)
            && (s.armedRt <==> Seen(cfg, es, true))
            && (s.armedLt <==> Seen(cfg, es, false))
            && (s.engaged ==> s.armedRt && s.armedLt) && (s.armedRt || s.armedLt ==> s.joy.Some?)
  {
    if es != [] {
      var n := |es| - 1;
      ArmedMeansSeen(cfg, es[..n]);
      SeenStep(cfg, es, true);
      SeenStep(cfg, es, false);
    }
  }

  /** What one more event does to having been seen at rest. */
  lemma SeenStep(cfg: Config, es: seq<Event>, right: bool)
    requires es != []
    ensures var n := |es| - 1;
            Seen(cfg, es, right) <==>
              || (Seen(cfg, es[..n], right) && !StaleTick(cfg, es, n))
              || (FreshTick(cfg, es, n) && Axis(LastMessage(es[..n]).value.0, right) >= REST_THRESH)
  {
    var n := |es| - 1;
    forall k: nat | k < n
      ensures SeenAtRest(cfg, es, k, right) <==> SeenAtRest(cfg, es[..n], k, right) && !StaleTick(cfg, es, n)
    {
      SeenExtends(cfg, es, k, right);
    }
    if Seen(cfg, es[..n], right) && !StaleTick(cfg, es, n) {
      var k: nat :| k < n && SeenAtRest(cfg, es[..n], k, right);
      assert SeenAtRest(cfg, es, k, right);
    }
    if FreshTick(cfg, es, n) && Axis(LastMessage(es[..n]).value.0, right) >= REST_THRESH {
      assert SeenAtRest(cfg, es, n, right);
    }
  }

  // ---- What is published ----

  /** A trigger reads as pressed below the rest threshold and as zero above it. */
  lemma ThrottleRange(axis: real)
    ensures 0.0 <= Throttle(axis) <= 1.0
    ensures axis < 0.90 ==> Throttle(axis) > 0.0
    ensures axis > 0.90 ==> Throttle(axis) == 0.0
  {
  }

  lemma Scaled(t: real, cap: real)
    requires 0.0 <= t <= 1.0 && cap >= 0.0
    ensures 0.0 <= t * cap <= cap
    ensures t == 0.0 ==> t * cap == 0.0
  {
  }

  lemma DifferenceRange(fwd: real, rev: real, maxFwd: real, maxRev: real)
    requires 0.0 <= fwd <= 1.0 && 0.0 <= rev <= 1.0 && maxFwd >= 0.0 && maxRev >= 0.0
    ensures -maxRev <= fwd * maxFwd - rev * maxRev <= maxFwd
  {
    Scaled(fwd, maxFwd);
    Scaled(rev, maxRev);
  }

  lemma SpeedRange(cfg: Config, fwd: real, rev: real)
    requires Sane(cfg) && 0.0 <= fwd <= 1.0 && 0.0 <= rev <= 1.0
    ensures -cfg.maxRev <= Speed(cfg, fwd, rev) <= cfg.maxFwd
  {
    if fwd > 0.0 && rev > 0.0 {
      assert Speed(cfg, fwd, rev) == 0.0;
    } else {
      DifferenceRange(fwd, rev, cfg.maxFwd, cfg.maxRev);
      assert Speed(cfg, fwd, rev) == fwd * cfg.maxFwd - rev * cfg.maxRev;
    }
  }

  /** A command stays within the speed and steering caps, is zero with both triggers pressed, and
      has no yaw rate without speed. */
  lemma CommandWithinCaps(cfg: Config, j: Joy)
    requires Sane(cfg)
    ensures var c := Command(cfg, j);
            && -cfg.maxRev <= c.vx <= cfg.maxFwd && -cfg.maxSteer <= c.delta <= cfg.maxSteer
            && (Throttle(j.rt) > 0.0 && Throttle(j.lt) > 0.0 ==> c.vx == 0.0)
            && (c.vx == 0.0 ==> c.wz == 0.0)
  {
    ThrottleRange(j.rt);
    ThrottleRange(j.lt);
    SpeedRange(cfg, Throttle(j.rt), Throttle(j.lt));
  }

  /** In every run, a tick that publishes anything but zeros does so with a fresh message that holds
      RB, both triggers seen at rest since the pad was last stale, not both pressed, and
      within the caps. */
  lemma MotionNeedsTheOperator(cfg: Config, es: seq<Event>, now: real)
    requires Sane(cfg)
    ensures var (t, out) := Tick(cfg, Run(cfg, es), now);
            && (out.Some? && (out.value.vx != 0.0 || out.value.wz != 0.0) ==>
                  && LastMessage(es).Some? && now - LastMessage(es).value.1 <= cfg.joyTimeout
                  && var j := LastMessage(es).value.0;
                     && j.rb && t.engaged && !(Throttle(j.rt) > 0.0 && Throttle(j.lt) > 0.0)
                     && out == Some(Command(cfg, j)))
            && (out.Some? ==>
                  && -cfg.maxRev <= out.value.vx <= cfg.maxFwd && -cfg.maxSteer <= out.value.delta <= cfg.maxSteer
                  && (out.value.vx == 0.0 ==> out.value.wz == 0.0))
            && (t.engaged ==> Seen(cfg, es + [Tock(now)], true) && Seen(cfg, es + [Tock(now)], false))
  {
    ArmedMeansSeen(cfg, es);
    var all := es + [Tock(now)];
    assert all[..|es|] == es;
    ArmedMeansSeen(cfg, all);
    if LastMessage(es).Some? {
      CommandWithinCaps(cfg, LastMessage(es).value.0);
    }
  }

  // ---- Which way an engaged tick drives ----

  /** How far a pressed trigger is pulled: fully at -1. */
  function Share(axis: real): real { if axis <= -1.0 then 1.0 else (1.0 - axis) / 2.0 }

  predicate Pressed(axis: real) { axis < 0.90 }
  predicate Released(axis: real) { axis > 0.90 }

  /** The angle for a stick at x, positive to the left: none in the dead zone, proportional outside it, and the
      cap from full deflection on. */
  predicate Steers(cfg: Config, x: real, delta: real) {
    && (-0.12 < x < 0.12 ==> delta == 0.0)
    && (0.12 <= x <= 1.0 || -1.0 <= x <= -0.12 ==> delta == x * cfg.maxSteer)
    && (x >= 1.0 ==> delta == cfg.maxSteer) && (x <= -1.0 ==> delta == -cfg.maxSteer)
  }

  /** The angle is to the side of x, within the cap, and at the cap from full deflection on. */
  predicate SteersSide(cfg: Config, x: real, delta: real) {
    && -cfg.maxSteer <= delta <= cfg.maxSteer
    && (delta > 0.0 <==> x >= 0.12 && cfg.maxSteer > 0.0)
    && (delta < 0.0 <==> x <= -0.12 && cfg.maxSteer > 0.0)
    && (x >= 1.0 ==> delta == cfg.maxSteer) && (x <= -1.0 ==> delta == -cfg.maxSteer)
  }

  /** RT alone drives forward, LT alone backward, each in its share of its own cap; neither or both, not at all. */
  predicate Drives(cfg: Config, j: Joy, c: Twist) {
    && (Pressed(j.rt) && Released(j.lt) ==> c.vx == Share(j.rt) * cfg.maxFwd)
    && (Released(j.rt) && Pressed(j.lt) ==> c.vx == -(Share(j.lt) * cfg.maxRev))
    && ((Pressed(j.rt) && Pressed(j.lt)) || (Released(j.rt) && Released(j.lt)) ==> c.vx == 0.0)
    && Steers(cfg, j.stick * cfg.steerSign, c.delta) && SteersSide(cfg, j.stick * cfg.steerSign, c.delta)
    && c.wz * 0.23529 == c.vx * cfg.tan(c.delta)
  }

  lemma ThrottleIsShare(axis: real)
    ensures Pressed(axis) ==> Throttle(axis) == Share(axis) > 0.0
    ensures Released(axis) ==> Throttle(axis) == 0.0
  {
  }

  lemma Grows(t: real, u: real, cap: real)
    requires t <= u && cap >= 0.0
    ensures t * cap <= u * cap
    ensures t < u && cap > 0.0 ==> t * cap < u * cap
  {
  }

  lemma ClippedShare(x: real, cap: real)
    requires cap >= 0.0
    ensures Clip(x * cap, -cap, cap) == if x >= 1.0 then cap else if x <= -1.0 then -cap else x * cap
  {
    if x >= 1.0 {
      Grows(1.0, x, cap);
    } else if x <= -1.0 {
      Grows(x, -1.0, cap);
    } else {
      Grows(x, 1.0, cap);
      Grows(-1.0, x, cap);
    }
  }

  lemma SteeringSteers(cfg: Config, stick: real)
    requires Sane(cfg)
    ensures Steers(cfg, stick * cfg.steerSign, Steering(cfg, stick))
  {
    var x := stick * cfg.steerSign;
    ClippedShare(if -0.12 < x < 0.12 then 0.0 else x, cfg.maxSteer);
  }

  lemma ShareOfCap(x: real, cap: real, angle: real)
    requires cap >= 0.0 && 0.0 < x <= 1.0 && angle == x * cap
    ensures 0.0 <= angle <= cap && (angle > 0.0 <==> cap > 0.0)
  {
    Grows(0.0, x, cap);
    Grows(x, 1.0, cap);
  }

  lemma Negated(x: real, cap: real)
    ensures -x * cap == -(x * cap)
  {
  }

  lemma AngleSide(cfg: Config, x: real, delta: real)
    requires Sane(cfg) && Steers(cfg, x, delta)
    ensures SteersSide(cfg, x, delta)
  {
    if 0.12 <= x <= 1.0 {
      ShareOfCap(x, cfg.maxSteer, delta);
    } else if -1.0 <= x <= -0.12 {
      Negated(x, cfg.maxSteer);
      ShareOfCap(-x, cfg.maxSteer, -delta);
    }
  }

  /** In every run a tick leaves the override engaged if and only if the last message is fresh and holds RB and
      both triggers were seen at rest since the pad was last stale, this tick included; and then it publishes a
      command that drives the way the triggers and the stick say. */
  lemma EngagedTickDrives(cfg: Config, es: seq<Event>, now: real)
    requires Sane(cfg)
    ensures var (t, out) := Tick(cfg, Run(cfg, es), now);
            var all := es + [Tock(now)];
            && (t.engaged <==>
                  && LastMessage(es).Some? && now - LastMessage(es).value.1 <= cfg.joyTimeout
                  && LastMessage(es).value.0.rb && Seen(cfg, all, true) && Seen(cfg, all, false))
            && (t.engaged ==> out.Some? && Drives(cfg, LastMessage(es).value.0, out.value))
  {
    var all := es + [Tock(now)];
    assert all[..|es|] == es;
    ArmedMeansSeen(cfg, es);
    ArmedMeansSeen(cfg, all);
    if LastMessage(es).Some? {
      CommandDrives(cfg, LastMessage(es).value.0);
    }
  }

  lemma CommandDrives(cfg: Config, j: Joy)
    requires Sane(cfg)
    ensures Drives(cfg, j, Command(cfg, j))
  {
    ThrottleIsShare(j.rt);
    ThrottleIsShare(j.lt);
    SteeringSteers(cfg, j.stick);
    AngleSide(cfg, j.stick * cfg.steerSign, Steering(cfg, j.stick));
  }

  /** The command the next tick of a run publishes with the override engaged. */
  predicate Engaged(cfg: Config, es: seq<Event>, now: real, c: Twist) {
    var (t, out) := Tick(cfg, Run(cfg, es), now);
    t.engaged && LastMessage(es).Some? && out == Some(c)
  }

  predicate OnlyPressed(j: Joy, right: bool) { Pressed(Axis(j, right)) && Released(Axis(j, !right)) }

  lemma EngagedCommand(cfg: Config, es: seq<Event>, now: real, c: Twist)
    requires Sane(cfg) && Engaged(cfg, es, now, c)
    ensures LastMessage(es).Some? && Drives(cfg, LastMessage(es).value.0, c)
  {
    EngagedTickDrives(cfg, es, now);
  }

  lemma MoreShare(t: real, t': real, cap: real, v: real, v': real)
    requires cap >= 0.0 && t > 0.0 && t' > 0.0 && v == t * cap && v' == t' * cap
    ensures t' <= t ==> v >= v' >= 0.0
    ensures t' < t && cap > 0.0 ==> v > v' > 0.0
  {
    Grows(0.0, t', cap);
    if t' <= t {
      Grows(t', t, cap);
    }
  }

  /** A pull in further gives at least as much speed. */
  lemma Further(x: real, x': real, cap: real, v: real, v': real)
    requires cap >= 0.0 && Pressed(x) && Pressed(x') && v == Share(x) * cap && v' == Share(x') * cap
    ensures x <= x' ==> v >= v' >= 0.0
    ensures -1.0 <= x < x' && cap > 0.0 ==> v > v' > 0.0
  {
    MoreShare(Share(x), Share(x'), cap, v, v');
  }

  lemma FurtherForward(cfg: Config, j: Joy, c: Twist, j': Joy, c': Twist)
    requires Sane(cfg) && Drives(cfg, j, c) && Drives(cfg, j', c') && OnlyPressed(j, true) && OnlyPressed(j', true)
    ensures j.rt <= j'.rt ==> c.vx >= c'.vx >= 0.0
    ensures -1.0 <= j.rt < j'.rt && cfg.maxFwd > 0.0 ==> c.vx > c'.vx > 0.0
  {
    Further(j.rt, j'.rt, cfg.maxFwd, c.vx, c'.vx);
  }

  lemma FurtherBackward(cfg: Config, j: Joy, c: Twist, j': Joy, c': Twist)
    requires Sane(cfg) && Drives(cfg, j, c) && Drives(cfg, j', c') && OnlyPressed(j, false) && OnlyPressed(j', false)
    ensures j.lt <= j'.lt ==> c.vx <= c'.vx <= 0.0
    ensures -1.0 <= j.lt < j'.lt && cfg.maxRev > 0.0 ==> c.vx < c'.vx < 0.0
  {
    Further(j.lt, j'.lt, cfg.maxRev, -c.vx, -c'.vx);
  }

  /** Of any two engaged ticks with the same trigger alone pressed, the one with the trigger further in is at least
      as fast, forward for RT and backward for LT: strictly so short of full travel with a positive cap. */
  lemma FurtherInIsFaster(cfg: Config, es: seq<Event>, now: real, c: Twist, es': seq<Event>, now': real, c': Twist)
    requires Sane(cfg) && Engaged(cfg, es, now, c) && Engaged(cfg, es', now', c')
    ensures var j, j' := LastMessage(es).value.0, LastMessage(es').value.0;
            && (OnlyPressed(j, true) && OnlyPressed(j', true) ==>
                  && (j.rt <= j'.rt ==> c.vx >= c'.vx >= 0.0)
                  && (-1.0 <= j.rt < j'.rt && cfg.maxFwd > 0.0 ==> c.vx > c'.vx > 0.0))
            && (OnlyPressed(j, false) && OnlyPressed(j', false) ==>
                  && (j.lt <= j'.lt ==> c.vx <= c'.vx <= 0.0)
                  && (-1.0 <= j.lt < j'.lt && cfg.maxRev > 0.0 ==> c.vx < c'.vx < 0.0))
  {
    EngagedCommand(cfg, es, now, c);
    EngagedCommand(cfg, es', now', c');
    var j, j' := LastMessage(es).value.0, LastMessage(es').value.0;
    if OnlyPressed(j, true) && OnlyPressed(j', true) {
      FurtherForward(cfg, j, c, j', c');
    }
    if OnlyPressed(j, false) && OnlyPressed(j', false) {
      FurtherBackward(cfg, j, c, j', c');
    }
  }

  // ---- The tail ----

  /** The time of the last disengagement plus the tail, as an observer of `engaged` sees it. */
  function TailEnd(cfg: Config, es: seq<Event>): real {
    if es == [] then 0.0
    else
      var n := |es| - 1;
      if Run(cfg, es[..n]).engaged && !Run(cfg, es).engaged then es[n].at + cfg.tail else TailEnd(cfg, es[..n])
  }

  lemma {:induction false} TailFollowsDisengagement(cfg: Config, es: seq<Event>)
    ensures Run(cfg, es).tailUntil == TailEnd(cfg, es)
  {
    if es != [] {
      TailFollowsDisengagement(cfg, es[..|es| - 1]);
      ArmedMeansSeen(cfg, es[..|es| - 1]);
    }
  }

  /** Left disengaged by a tick, the node publishes zeros until the tail after the last
      disengagement has run out, and from then on nothing, leaving the mux to Nav2. */
  lemma SilentExactlyAfterTail(cfg: Config, es: seq<Event>, now: real)
    ensures var (t, out) := Tick(cfg, Run(cfg, es), now);
            !t.engaged ==> out == if now < TailEnd(cfg, es + [Tock(now)]) then Some(STOP) else None
  {
    assert (es + [Tock(now)])[..|es|] == es;
    TailFollowsDisengagement(cfg, es + [Tock(now)]);
  }
}
