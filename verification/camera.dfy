/**
  The third-person follow camera (Game/camera.h, Game/camera.cpp): a current
  state `state` that is rendered and a destination state `dest` it follows,
  both over idealised real arithmetic.

  The per-mode tuning table (`cameraDef`) is a caller-supplied function from
  Mode to CamDef; for Mobsi the caller folds the interactive object's scheme
  into that table. `applyModPosition` (the mode's target offset rotated by the
  player's facing) is a caller-supplied offset vector; `applyModRotation` has
  an empty body in the source and is the identity here.
 */
module Camera {
  import opened Util
  import opened Angles

  /** The closed set of camera modes (`Camera::Mode`). */
  datatype Mode = Dialog | Normal | Inventory | Melee | Ranged | Magic | Mobsi | Death | Swim | Dive

  /** Every mode, in declaration order. */
  const AllModes: seq<Mode> := [Dialog, Normal, Inventory, Melee, Ranged, Magic, Mobsi, Death, Swim, Dive]

  datatype V3 = V3(x: real, y: real, z: real)

  const Zero := V3(0.0, 0.0, 0.0)

  function Add(a: V3, b: V3): V3 { V3(a.x + b.x, a.y + b.y, a.z + b.z) }
  function Sub(a: V3, b: V3): V3 { V3(a.x - b.x, a.y - b.y, a.z - b.z) }
  function Scale(v: V3, k: real): V3 { V3(v.x * k, v.y * k, v.z * k) }

  /** The fields of the script engine's camera definition the controller reads. */
  datatype CamDef = CamDef(
    bestRange: real, minRange: real, maxRange: real,
    bestElevation: real, minElevation: real, maxElevation: real,
    bestAzimuth: real,
    translate: bool,
    veloTrans: real, veloRot: real)

  /** A sensible table entry: an ordered zoom range and non-negative speeds. */
  predicate ValidDef(d: CamDef) {
    d.minRange <= d.maxRange && 0.0 <= d.veloTrans && 0.0 <= d.veloRot
  }

  /** `Camera::State`: position, spin in degrees (x pitch-slot, y yaw-slot), zoom range. */
  datatype State = State(pos: V3, spin: V3, range: real)

  const DefaultState := State(Zero, Zero, 0.3)

  /** The controller's fields that its behaviour depends on. */
  datatype Cam = Cam(state: State, dest: State, dlgDist: real, hasPos: bool, mode: Mode)

  /** The player as the camera sees it: facing and the camera anchor bone. */
  datatype Player = Player(rotation: real, cameraBone: V3)

  /** The state a freshly constructed camera starts in. */
  function NewCam(): (c: Cam)
    ensures c.mode == Normal && !c.hasPos && c.dlgDist == 0.0
    ensures c.state == c.dest && c.state.pos == Zero && c.state.spin == Zero && c.state.range == 0.3
  {
    Cam(DefaultState, DefaultState, 0.0, false, Normal)
  }

  /** `Mode` has exactly the ten values listed, each once. */
  lemma ModesClosed()
    ensures |AllModes| == 10
    ensures forall i, j | 0 <= i < j < |AllModes| :: AllModes[i] != AllModes[j]
    ensures forall m: Mode :: m in AllModes
  {
    forall m: Mode ensures m in AllModes {
      match m
      case Dialog => assert AllModes[0] == m;
      case Normal => assert AllModes[1] == m;
      case Inventory => assert AllModes[2] == m;
      case Melee => assert AllModes[3] == m;
      case Ranged => assert AllModes[4] == m;
      case Magic => assert AllModes[5] == m;
      case Mobsi => assert AllModes[6] == m;
      case Death => assert AllModes[7] == m;
      case Swim => assert AllModes[8] == m;
      case Dive => assert AllModes[9] == m;
    }
  }

  /** `clampRange`: cap at maxRange, then raise to minRange. */
  function ClampRange(z: real, d: CamDef): (r: real)
    ensures d.minRange <= r
    ensures d.minRange <= d.maxRange ==> r <= d.maxRange
    ensures d.minRange <= z <= d.maxRange ==> r == z
    ensures d.minRange <= d.maxRange && z < d.minRange ==> r == d.minRange
    ensures d.minRange <= d.maxRange && z > d.maxRange ==> r == d.maxRange
  {
    var z1 := if z > d.maxRange then d.maxRange else z;
    if z1 < d.minRange then d.minRange else z1
  }

  /** Clamping twice is clamping once. */
  lemma ClampRangeIdempotent(z: real, d: CamDef)
    ensures ClampRange(ClampRange(z, d), d) == ClampRange(z, d)
  {
  }

  /** `changeZoom`: a positive wheel delta zooms in by 0.1, anything else
      (zero included) zooms out by 0.1; the result is clamped to the mode's range. */
  function ChangeZoom(c: Cam, delta: int, defs: Mode -> CamDef): (r: Cam)
    ensures r == c.(dest := c.dest.(range := r.dest.range))
    ensures ValidDef(defs(c.mode)) ==> defs(c.mode).minRange <= r.dest.range <= defs(c.mode).maxRange
    ensures delta > 0 && defs(c.mode).minRange <= c.dest.range - 0.1 <= defs(c.mode).maxRange ==>
              r.dest.range == c.dest.range - 0.1
    ensures delta <= 0 && defs(c.mode).minRange <= c.dest.range + 0.1 <= defs(c.mode).maxRange ==>
              r.dest.range == c.dest.range + 0.1
    ensures var d := defs(c.mode);
            var z := if delta > 0 then c.dest.range - 0.1 else c.dest.range + 0.1;
            && (d.minRange <= d.maxRange && z < d.minRange ==> r.dest.range == d.minRange)
            && (d.minRange <= d.maxRange && z > d.maxRange ==> r.dest.range == d.maxRange)
            && (d.maxRange < d.minRange ==> r.dest.range == d.minRange)
  {
    var z := if delta > 0 then c.dest.range - 0.1 else c.dest.range + 0.1;
    c.(dest := c.dest.(range := ClampRange(z, defs(c.mode))))
  }

  /** The modes whose entry snaps the destination framing. */
  predicate SnapsFraming(m: Mode) {
    m == Inventory || m == Dialog || m == Mobsi || m == Death
  }

  /** `setMode`: a no-op for the current mode; entering a framing mode sets the
      destination yaw-slot to bestAzimuth (plus the player's facing when there
      is a player) and, except for Dialog, the pitch-slot to bestElevation. */
  function SetMode(c: Cam, m: Mode, defs: Mode -> CamDef, player: Option<Player>): (r: Cam)
    ensures m == c.mode ==> r == c
    ensures r.mode == m
    ensures r.state == c.state && r.dlgDist == c.dlgDist && r.hasPos == c.hasPos
    ensures r.dest.pos == c.dest.pos && r.dest.range == c.dest.range && r.dest.spin.z == c.dest.spin.z
    ensures m != c.mode && SnapsFraming(m) ==>
              r.dest.spin.y == defs(m).bestAzimuth + (if player.Some? then player.value.rotation else 0.0)
    ensures m != c.mode && SnapsFraming(m) && m != Dialog ==> r.dest.spin.x == defs(m).bestElevation
    ensures m == Dialog ==> r.dest.spin.x == c.dest.spin.x
    ensures !SnapsFraming(m) ==> r.dest == c.dest
  {
    if c.mode == m then c
    else
      var c1 := c.(mode := m);
      if SnapsFraming(m) then
        var d := defs(m);
        var yaw := if player.Some? then d.bestAzimuth + player.value.rotation else d.bestAzimuth;
        var pitch := if m != Dialog then d.bestElevation else c.dest.spin.x;
        c1.(dest := c.dest.(spin := V3(pitch, yaw, c.dest.spin.z)))
      else c1
  }

  /** `setSpin`: current and destination spin both become (x, y, 0). */
  function SetSpin(c: Cam, x: real, y: real): (r: Cam)
    ensures r.state.spin == r.dest.spin == V3(x, y, 0.0)
    ensures r.state.pos == c.state.pos && r.state.range == c.state.range
    ensures r.dest.pos == c.dest.pos && r.dest.range == c.dest.range
    ensures r.dlgDist == c.dlgDist && r.hasPos == c.hasPos && r.mode == c.mode
  {
    c.(state := c.state.(spin := V3(x, y, 0.0)), dest := c.dest.(spin := V3(x, y, 0.0)))
  }

  /** `setDestSpin`: the pitch-slot is clamped to [-90, 90], the yaw-slot is
      taken as given and the roll is zeroed. */
  function SetDestSpin(c: Cam, x: real, y: real): (r: Cam)
    ensures -90.0 <= r.dest.spin.x <= 90.0
    ensures -90.0 <= x <= 90.0 ==> r.dest.spin.x == x
    ensures x < -90.0 ==> r.dest.spin.x == -90.0
    ensures x > 90.0 ==> r.dest.spin.x == 90.0
    ensures r.dest.spin.y == y && r.dest.spin.z == 0.0
    ensures r == c.(dest := c.dest.(spin := r.dest.spin))
  {
    var x1 := if x < -90.0 then -90.0 else x;
    var x2 := if x1 > 90.0 then 90.0 else x1;
    c.(dest := c.dest.(spin := V3(x2, y, 0.0)))
  }

  /** `onRotateMouse`: the deltas are added to the destination spin with no clamp. */
  function OnRotateMouse(c: Cam, dx: real, dy: real): (r: Cam)
    ensures r.dest.spin.x - c.dest.spin.x == dx && r.dest.spin.y - c.dest.spin.y == dy
    ensures r == c.(dest := c.dest.(spin := r.dest.spin))
    ensures r.dest.spin.z == c.dest.spin.z
  {
    c.(dest := c.dest.(spin := V3(c.dest.spin.x + dx, c.dest.spin.y + dy, c.dest.spin.z)))
  }

  /** Mouse deltas accumulate: two moves equal one move by their sum, so the
      pitch can leave [-90, 90] (unlike `setDestSpin`). */
  lemma OnRotateMouseAdditive(c: Cam, dx1: real, dy1: real, dx2: real, dy2: real)
    ensures OnRotateMouse(OnRotateMouse(c, dx1, dy1), dx2, dy2) == OnRotateMouse(c, dx1 + dx2, dy1 + dy2)
  {
  }

  /** `setPosition`: the destination is the point, the current position is the
      point plus the mode offset. */
  function SetPosition(c: Cam, p: V3, modOffset: V3): (r: Cam)
    ensures r.dest.pos == p && Sub(r.state.pos, r.dest.pos) == modOffset
    ensures r.state.spin == c.state.spin && r.state.range == c.state.range
    ensures r.dest.spin == c.dest.spin && r.dest.range == c.dest.range
    ensures r.dlgDist == c.dlgDist && r.hasPos == c.hasPos && r.mode == c.mode
  {
    c.(state := c.state.(pos := Add(p, modOffset)), dest := c.dest.(pos := p))
  }

  /** `setDestPosition` and `setDialogDistance` touch one field each. */
  function SetDestPosition(c: Cam, p: V3): (r: Cam)
    ensures r.dest.pos == p
    ensures r == c.(dest := c.dest.(pos := r.dest.pos))
  {
    c.(dest := c.dest.(pos := p))
  }

  function SetDialogDistance(c: Cam, d: real): (r: Cam)
    ensures r.dlgDist == d
    ensures r == c.(dlgDist := r.dlgDist)
  {
    c.(dlgDist := d)
  }

  /** `implReset`: both states are seeded from the player's camera bone and
      facing with pitch 0 and the mode's bestRange; the roll slot of the
      current spin is kept; `hasPos` is not touched. */
  function ImplReset(c: Cam, pl: Player, d: CamDef): (r: Cam)
    ensures r.state == r.dest
    ensures r.state.pos == pl.cameraBone
    ensures r.state.spin == V3(0.0, pl.rotation, c.state.spin.z)
    ensures r.state.range == d.bestRange
    ensures r.hasPos == c.hasPos && r.mode == c.mode && r.dlgDist == c.dlgDist
  {
    var s := State(pl.cameraBone, V3(0.0, pl.rotation, c.state.spin.z), c.state.range);
    var s1 := s.(range := d.bestRange);
    c.(state := s1, dest := s1)
  }

  /** `reset`: re-seed from the world's player, or nothing when there is none. */
  function Reset(c: Cam, player: Option<Player>, defs: Mode -> CamDef): (r: Cam)
    ensures player.None? ==> r == c
    ensures player.Some? ==> r.state == r.dest && r.state.pos == player.value.cameraBone
    ensures player.Some? ==> r.state.range == defs(c.mode).bestRange
    ensures player.Some? ==> r.state.spin == V3(0.0, player.value.rotation, c.state.spin.z)
    ensures r.hasPos == c.hasPos && r.mode == c.mode && r.dlgDist == c.dlgDist
  {
    if player.None? then c else ImplReset(c, player.value, defs(c.mode))
  }

  /** The fields `save` writes, in the order written. */
  datatype Saved = Saved(stateSpin: V3, statePos: V3, destSpin: V3, destPos: V3, range: real, hasPos: bool)

  /** `save`: writes current spin and position, destination spin and position,
      the current range and `hasPos`; afterwards the destination range is the
      current range. */
  function Save(c: Cam): (r: (Saved, Cam))
    ensures r.0.stateSpin == c.state.spin && r.0.statePos == c.state.pos
    ensures r.0.destSpin == c.dest.spin && r.0.destPos == c.dest.pos
    ensures r.0.range == c.state.range && r.0.hasPos == c.hasPos
    ensures r.1 == c.(dest := c.dest.(range := c.state.range))
  {
    (Saved(c.state.spin, c.state.pos, c.dest.spin, c.dest.pos, c.state.range, c.hasPos),
     c.(dest := c.dest.(range := c.state.range)))
  }

  /** The stream version from which the camera fields are present. */
  const CameraSaveVersion: nat := 8

  /** `load`: reset from the player if there is one; from version 8 on, the
      saved fields overwrite spins, positions and `hasPos`, and the saved range
      lands in the destination range. */
  function Load(c: Cam, s: Saved, version: nat, pl: Option<Player>, defs: Mode -> CamDef): (r: Cam)
    ensures version < CameraSaveVersion ==> r == Reset(c, pl, defs)
    ensures CameraSaveVersion <= version ==>
              && r.state.spin == s.stateSpin && r.state.pos == s.statePos
              && r.dest.spin == s.destSpin && r.dest.pos == s.destPos
              && r.dest.range == s.range && r.hasPos == s.hasPos
              && r.state.range == Reset(c, pl, defs).state.range
    ensures r.mode == c.mode && r.dlgDist == c.dlgDist
  {
    var c1 := if pl.Some? then ImplReset(c, pl.value, defs(c.mode)) else c;
    if version < CameraSaveVersion then c1
    else c1.(state := c1.state.(spin := s.stateSpin, pos := s.statePos),
             dest := State(s.destPos, s.destSpin, s.range),
             hasPos := s.hasPos)
  }

  /** Saving and loading at version 8 or later restores both spins, both
      positions, `hasPos`, and the destination the saved camera holds after
      `save`; only the current range is not restored. */
  lemma {:induction false} SaveLoadRoundTrip(c: Cam, other: Cam, version: nat, pl: Option<Player>, defs: Mode -> CamDef)
    requires CameraSaveVersion <= version
    requires other.mode == c.mode
    ensures var (s, saved) := Save(c);
            var r := Load(other, s, version, pl, defs);
            && r.dest == saved.dest
            && r.state.spin == saved.state.spin && r.state.pos == saved.state.pos
            && r.hasPos == saved.hasPos && r.mode == saved.mode
  {
    var (s, saved) := Save(c);
    var r := Load(other, s, version, pl, defs);
    assert r.dest == State(s.destPos, s.destSpin, s.range);
  }

  /** First-tick seeding while `hasPos` is false. */
  function Seed(c: Cam, bone: V3, modOffset: V3, d: CamDef): (r: Cam)
    ensures r.hasPos
    ensures r.state.range == c.dest.range && r.dest.range == c.dest.range
    ensures r.dest.pos == bone && Sub(r.state.pos, bone) == modOffset
    ensures r.state.spin == c.dest.spin.(x := c.dest.spin.x + d.bestAzimuth)
    ensures r.dest.spin == c.dest.spin && r.mode == c.mode && r.dlgDist == c.dlgDist
  {
    c.(state := State(Add(bone, modOffset), c.dest.spin.(x := c.dest.spin.x + d.bestAzimuth), c.dest.range),
       dest := c.dest.(pos := bone),
       hasPos := true)
  }

  /** The zoom step of `tick`: move by `zSpeed` toward the target, or snap when
      the gap is smaller than that. */
  function ZoomStep(cur: real, target: real, zSpeed: real): (r: real)
    ensures Abs(target - cur) < zSpeed ==> r == target
    ensures zSpeed <= Abs(target - cur) && cur != target ==> Abs(target - r) == Abs(target - cur) - zSpeed
    ensures zSpeed <= Abs(target - cur) && cur < target ==> r == cur + zSpeed
    ensures zSpeed <= Abs(target - cur) && cur > target ==> r == cur - zSpeed
    ensures 0.0 <= zSpeed && cur <= target ==> cur <= r <= target
    ensures 0.0 <= zSpeed && target <= cur ==> target <= r <= cur
  {
    if Abs(target - cur) < zSpeed then target
    else if cur < target then cur + zSpeed
    else if cur > target then cur - zSpeed
    else cur
  }

  /** The lag cap of the translation step. */
  const MaxLag: real := 180.0

  /** The fraction of the gap `dp` of length `len` covered in one step with
      travel `speed`. */
  function FollowFraction(len: real, speed: real): (k: real)
    requires len > 0.1
    ensures k <= 1.0
  {
    var tr0 := Min(speed, len);
    var tr := if len - tr0 > MaxLag then len - MaxLag else tr0;
    tr / len
  }

  /** The fraction covers at most the whole gap and at least enough to leave
      no more than 180 units; with non-negative travel it moves forward, and
      when neither cap applies it covers exactly the travel. */
  lemma FollowFractionBounds(len: real, speed: real)
    requires len > 0.1
    ensures var k := FollowFraction(len, speed);
            && k <= 1.0
            && len * (1.0 - k) <= MaxLag
            && (0.0 <= speed ==> 0.0 <= k && len * (1.0 - k) <= len)
            && (0.0 <= speed <= len && len - speed <= MaxLag ==> k * len == speed)
  {
    var tr0 := Min(speed, len);
    var tr := if len - tr0 > MaxLag then len - MaxLag else tr0;
    assert len * (1.0 - tr / len) == len - tr;
  }

  /** Elapsed milliseconds in seconds. */
  function Seconds(dt: nat): real { dt as real / 1000.0 }

  /** The distance the camera may travel this tick: veloTrans·dt while the
      player moves, 2·len·dt otherwise. */
  function Travel(d: CamDef, len: real, dtF: real, inMove: bool): real {
    if inMove then d.veloTrans * dtF else len * dtF * 2.0
  }

  /** The angle budget of the rotation step: veloRot·45·dt degrees. */
  function RotBudget(d: CamDef, dtF: real): real { d.veloRot * 45.0 * dtF }

  /** Whether the translation step follows smoothly rather than snapping. */
  predicate Follows(len: real, d: CamDef, m: Mode) {
    len > 0.1 && d.translate && m != Dialog && m != Mobsi
  }

  /** The translation step of `tick`. `norm` is the vector length the source
      calls `manhattanLength`; `dtF` is the elapsed time in seconds. When the
      camera follows, it moves along the gap by `FollowFraction`, with travel
      veloTrans·dt while the player moves and 2·len·dt otherwise; else it
      snaps to the target. */
  function TranslateStep(from: V3, target: V3, dtF: real, inMove: bool, d: CamDef, m: Mode,
                         norm: V3 -> real): (r: V3)
    ensures !Follows(norm(Sub(target, from)), d, m) ==> r == target
    ensures Follows(norm(Sub(target, from)), d, m) ==>
              var len := norm(Sub(target, from));
              var speed := Travel(d, len, dtF, inMove);
              Sub(target, r) == Scale(Sub(target, from), 1.0 - FollowFraction(len, speed))
  {
    var dp := Sub(target, from);
    var len := norm(dp);
    if Follows(len, d, m) then
      var speed := Travel(d, len, dtF, inMove);
      Approach(from, target, FollowFraction(len, speed))
    else target
  }

  /** Moving by fraction `k` of the gap leaves fraction 1 - k of it. */
  function Approach(from: V3, target: V3, k: real): (r: V3)
    ensures Sub(target, r) == Scale(Sub(target, from), 1.0 - k)
  {
    var dp := Sub(target, from);
    assert target.x - (from.x + dp.x * k) == dp.x * (1.0 - k);
    assert target.y - (from.y + dp.y * k) == dp.y * (1.0 - k);
    assert target.z - (from.z + dp.z * k) == dp.z * (1.0 - k);
    Add(from, Scale(dp, k))
  }

  /** The rotation step of `tick`: both spin slots follow the destination with
      budget veloRot·45·dt degrees; the pitch-slot is then capped at
      maxElevation only (the minElevation clamp is commented out in the source). */
  function RotateStep(spin: V3, destSpin: V3, dtF: real, d: CamDef): (r: V3)
    ensures r.x <= d.maxElevation
    ensures r.x == Min(FollowAng(spin.x, destSpin.x, RotBudget(d, dtF)), d.maxElevation)
    ensures r.y == FollowAng(spin.y, destSpin.y, RotBudget(d, dtF))
    ensures r.z == spin.z
  {
    var budget := RotBudget(d, dtF);
    var x := FollowAng(spin.x, destSpin.x, budget);
    var y := FollowAng(spin.y, destSpin.y, budget);
    V3(if x > d.maxElevation then d.maxElevation else x, y, spin.z)
  }

  /** What `tick` reads besides the camera: the mode table, the npc's camera
      bone, the mode offset, whether the game is paused, and the length function. */
  datatype TickEnv = TickEnv(defs: Mode -> CamDef, bone: V3, modOffset: V3, paused: bool, norm: V3 -> real)

  /** The current position and spin a tick starts from: the camera's own on a
      seeded camera, otherwise the seeding's bone plus offset and destination
      spin with bestAzimuth on the pitch-slot. */
  function TickStart(c: Cam, env: TickEnv): (s: State)
    ensures c.hasPos ==> s == c.state
    ensures !c.hasPos ==> s.pos == Add(env.bone, env.modOffset) &&
                          s.spin == c.dest.spin.(x := c.dest.spin.x + env.defs(c.mode).bestAzimuth)
  {
    if c.hasPos then c.state
    else State(Add(env.bone, env.modOffset), c.dest.spin.(x := c.dest.spin.x + env.defs(c.mode).bestAzimuth), c.dest.range)
  }

  /** `tick` with `dt` milliseconds elapsed. */
  function Tick(c: Cam, env: TickEnv, dt: nat, inMove: bool, includeRot: bool): (r: Cam)
    ensures var d := env.defs(c.mode);
            && r.hasPos && r.mode == c.mode && r.dlgDist == c.dlgDist && r.dest.spin == c.dest.spin
            && r.dest.range == ClampRange(c.dest.range, d)
            && (ValidDef(d) ==> d.minRange <= r.dest.range <= d.maxRange)
            && r.dest.pos == (if c.hasPos then c.dest.pos else env.bone)
    ensures env.paused && c.hasPos ==> r.state == c.state
    ensures !env.paused ==>
              var start := if c.hasPos then c.state.range else r.dest.range;
              (start <= r.dest.range ==> start <= r.state.range <= r.dest.range) &&
              (r.dest.range <= start ==> r.dest.range <= r.state.range <= start)
    ensures !env.paused && includeRot ==> r.state.spin.x <= env.defs(c.mode).maxElevation
    ensures !env.paused ==>
              r.state.range == ZoomStep(if c.hasPos then c.state.range else r.dest.range, r.dest.range, 5.0 * Seconds(dt))
    ensures !env.paused ==>
              var d := env.defs(c.mode);
              var from := TickStart(c, env).pos;
              var target := Add(r.dest.pos, env.modOffset);
              var len := env.norm(Sub(target, from));
              var speed := Travel(d, len, Seconds(dt), inMove);
              && (!Follows(len, d, c.mode) ==> r.state.pos == target)
              && (Follows(len, d, c.mode) ==>
                    Sub(target, r.state.pos) == Scale(Sub(target, from), 1.0 - FollowFraction(len, speed)))
    ensures !env.paused ==>
              var d := env.defs(c.mode);
              var spin := TickStart(c, env).spin;
              var budget := RotBudget(d, Seconds(dt));
              && (includeRot ==>
                    && r.state.spin.x == Min(FollowAng(spin.x, c.dest.spin.x, budget), d.maxElevation)
                    && r.state.spin.y == FollowAng(spin.y, c.dest.spin.y, budget)
                    && r.state.spin.z == spin.z)
              && (!includeRot ==> r.state.spin == spin)
  {
    var d := env.defs(c.mode);
    var dtF := Seconds(dt);
    var c0 := c.(dest := c.dest.(range := ClampRange(c.dest.range, d)));
    var c1 := if !c0.hasPos then Seed(c0, env.bone, env.modOffset, d) else c0;
    assert c1.state.pos == TickStart(c, env).pos && c1.state.spin == TickStart(c, env).spin;
    if env.paused then c1 else Advance(c1, env, dt, inMove, includeRot)
  }

  /** The unpaused half of `tick` on a seeded camera: the zoom, translation
      and rotation steps move the current state toward the destination. */
  function Advance(c: Cam, env: TickEnv, dt: nat, inMove: bool, includeRot: bool): (r: Cam)
    ensures r == c.(state := r.state)
    ensures r.state.range == ZoomStep(c.state.range, c.dest.range, 5.0 * Seconds(dt))
    ensures (c.state.range <= c.dest.range ==> c.state.range <= r.state.range <= c.dest.range) &&
            (c.dest.range <= c.state.range ==> c.dest.range <= r.state.range <= c.state.range)
    ensures var d := env.defs(c.mode);
            var target := Add(c.dest.pos, env.modOffset);
            var len := env.norm(Sub(target, c.state.pos));
            var speed := Travel(d, len, Seconds(dt), inMove);
            && (!Follows(len, d, c.mode) ==> r.state.pos == target)
            && (Follows(len, d, c.mode) ==>
                  Sub(target, r.state.pos) == Scale(Sub(target, c.state.pos), 1.0 - FollowFraction(len, speed)))
    ensures var d := env.defs(c.mode);
            var budget := RotBudget(d, Seconds(dt));
            && (includeRot ==>
                  && r.state.spin.x <= d.maxElevation
                  && r.state.spin.x == Min(FollowAng(c.state.spin.x, c.dest.spin.x, budget), d.maxElevation)
                  && r.state.spin.y == FollowAng(c.state.spin.y, c.dest.spin.y, budget)
                  && r.state.spin.z == c.state.spin.z)
            && (!includeRot ==> r.state.spin == c.state.spin)
  {
    var d := env.defs(c.mode);
    var dtF := Seconds(dt);
    var range := ZoomStep(c.state.range, c.dest.range, 5.0 * dtF);
    var pos := TranslateStep(c.state.pos, Add(c.dest.pos, env.modOffset), dtF, inMove, d, c.mode, env.norm);
    var spin := if includeRot then RotateStep(c.state.spin, c.dest.spin, dtF, d) else c.state.spin;
    c.(state := State(pos, spin, range))
  }

  /** The first tick after a reset seeds the current state: with the game
      paused nothing else happens, so the current range is the clamped
      destination range, the position is the bone plus the offset, and the
      spin is the destination spin with bestAzimuth added to the pitch-slot. */
  lemma {:induction false} FirstTickSeeds(c: Cam, env: TickEnv, dt: nat, inMove: bool, includeRot: bool)
    requires !c.hasPos && env.paused
    ensures var r := Tick(c, env, dt, inMove, includeRot);
            var d := env.defs(c.mode);
            && r.state.range == ClampRange(c.dest.range, d)
            && r.dest.pos == env.bone && r.state.pos == Add(env.bone, env.modOffset)
            && r.state.spin == c.dest.spin.(x := c.dest.spin.x + d.bestAzimuth)
  {
    var d := env.defs(c.mode);
    var c0 := c.(dest := c.dest.(range := ClampRange(c.dest.range, d)));
    var c1 := Seed(c0, env.bone, env.modOffset, d);
    assert Sub(c1.state.pos, env.bone) == env.modOffset;
    assert c1.state.pos == Add(env.bone, env.modOffset);
  }

  /** One following translation step leaves at most 180 units of gap, and no
      more than before, when the length scales with its vector and the travel
      is not negative. */
  lemma {:induction false} FollowStepLag(from: V3, target: V3, p: V3, speed: real, norm: V3 -> real)
    requires norm(Sub(target, from)) > 0.1 && 0.0 <= speed
    requires forall v: V3, k: real :: 0.0 <= k ==> norm(Scale(v, k)) == k * norm(v)
    requires Sub(target, p) == Scale(Sub(target, from), 1.0 - FollowFraction(norm(Sub(target, from)), speed))
    ensures norm(Sub(target, p)) <= MaxLag && norm(Sub(target, p)) <= norm(Sub(target, from))
  {
    var len := norm(Sub(target, from));
    var k := FollowFraction(len, speed);
    FollowFractionBounds(len, speed);
    assert norm(Sub(target, p)) == (1.0 - k) * len;
  }

  /** The 180-unit lag cap of `tick`, stated on the camera it returns: for a
      length that scales with its vector, an unpaused tick that follows leaves
      at most 180 units, and never more than before, between the current
      position and the offset destination. */
  lemma {:induction false} TickLagCap(c: Cam, env: TickEnv, dt: nat, inMove: bool, includeRot: bool)
    requires !env.paused && ValidDef(env.defs(c.mode))
    requires forall v: V3, k: real :: 0.0 <= k ==> env.norm(Scale(v, k)) == k * env.norm(v)
    ensures var r := Tick(c, env, dt, inMove, includeRot);
            var from := TickStart(c, env).pos;
            var target := Add(r.dest.pos, env.modOffset);
            var len := env.norm(Sub(target, from));
            && (Follows(len, env.defs(c.mode), c.mode) ==>
                  env.norm(Sub(target, r.state.pos)) <= MaxLag && env.norm(Sub(target, r.state.pos)) <= len)
            && (!Follows(len, env.defs(c.mode), c.mode) ==> r.state.pos == target)
  {
    var r := Tick(c, env, dt, inMove, includeRot);
    var d := env.defs(c.mode);
    var from := TickStart(c, env).pos;
    var target := Add(r.dest.pos, env.modOffset);
    var len := env.norm(Sub(target, from));
    if Follows(len, d, c.mode) {
      var speed := Travel(d, len, Seconds(dt), inMove);
      assert 0.0 <= speed by {
        assert 0.0 <= Seconds(dt);
        assert 0.0 <= d.veloTrans && 0.0 <= len;
      }
      FollowStepLag(from, target, r.state.pos, speed, env.norm);
    }
  }
}
