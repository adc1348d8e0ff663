/** Client-side prediction of the local player (DummyClient/Player.cpp): inputs are applied at once, kept
    until the server acknowledges them, and applied again on top of what the server reports. */
module Prediction {

  import opened Bits32
  import opened Vectors
  import opened TransformCompressor

  const LOGIC_TICK_INTERVAL: real := 1.0 / 30.0
  const SMOOTH_THRESHOLD: real := 0.7
  const SMOOTH_FACTOR: real := 0.5

  /** One past the largest `uint32`. */
  const WRAP: int := 65536 * 65536

  /** The library functions an input step relies on. */
  datatype Maths = Maths(cos: real -> real, sin: real -> real, sqrt: real -> real)

  ghost predicate Faithful(m: Maths) {
    && (forall a :: m.cos(a) * m.cos(a) + m.sin(a) * m.sin(a) == 1.0)
    && (forall a :: m.cos(-a) == m.cos(a) && m.sin(-a) == -m.sin(a))
    && (forall x :: x >= 0.0 ==> m.sqrt(x) >= 0.0 && m.sqrt(x) * m.sqrt(x) == x)
  }

  datatype Input = Input(timestamp: real, keyField: bv32, yaw: real, pitch: real, sequence: u32)

  /** A server packet's share for this player. */
  datatype Report = Report(position: u64, velocitySpeed: u64, rotation: u32)

  datatype State = State(
    position: Vec3, velocity: Vec3, moveSpeed: real, yaw: real, pitch: real,
    renderPosition: Vec3, renderVelocity: Vec3, renderYaw: real, renderPitch: real,
    pendingInputs: seq<Input>, lastSequenceNumber: u32)

  function Start(): State {
    State(ZERO, ZERO, 0.0, 0.0, 0.0, ZERO, ZERO, 0.0, 0.0, [], 0)
  }

  // ---------------------------------------------------------------------------------------------
  // One input
  // ---------------------------------------------------------------------------------------------

  function Direction(keyField: bv32): Vec3 {
    Vec3(
      if BitAt(keyField, 3) then -1.0 else if BitAt(keyField, 2) then 1.0 else 0.0,
      0.0,
      if BitAt(keyField, 1) then -1.0 else if BitAt(keyField, 0) then 1.0 else 0.0)
  }

  function Normalize(m: Maths, v: Vec3): Vec3 {
    var len := m.sqrt(LengthSquared(v));
    if len < 0.00000001 then v else Vec3(v.x / len, v.y / len, v.z / len)
  }

  function Rotate(m: Maths, v: Vec3, angle: real): Vec3 {
    Vec3(v.x * m.cos(angle) - v.z * m.sin(angle), 0.0, v.x * m.sin(angle) + v.z * m.cos(angle))
  }

  function Heading(m: Maths, keyField: bv32, yaw: real): Vec3 {
    var dir := Direction(keyField);
    Rotate(m, if LengthSquared(dir) > 0.0 then Normalize(m, dir) else dir, -yaw)
  }

  /** What a key field is turned into: the yaw and speed last reported by the server decide, and the
      vertical velocity is left as it was. */
  datatype Drive = Drive(yaw: real, moveSpeed: real, rise: real)

  function DriveOf(s: State): Drive {
    Drive(s.yaw, s.moveSpeed, s.renderVelocity.y)
  }

  function Velocity(m: Maths, d: Drive, keyField: bv32): Vec3 {
    var h := Heading(m, keyField, d.yaw);
    Vec3(h.x * d.moveSpeed, d.rise, h.z * d.moveSpeed)
  }

  function ApplyInput(m: Maths, s: State, input: Input): State {
    var v := Velocity(m, DriveOf(s), input.keyField);
    s.(renderVelocity := v, renderPosition := Plus(s.renderPosition, Scale(v, LOGIC_TICK_INTERVAL)))
  }

  lemma RotateKeepsLength(m: Maths, v: Vec3, angle: real)
    requires Faithful(m) && v.y == 0.0
    ensures LengthSquared(Rotate(m, v, angle)) == LengthSquared(v) && Rotate(m, v, angle).y == 0.0
  {
    var c, s := m.cos(angle), m.sin(angle);
    var r := Rotate(m, v, angle);
    Expand2(v.x, v.z, c, s);
    assert r.x * r.x + r.z * r.z == (v.x * v.x + v.z * v.z) * (c * c + s * s);
  }

  lemma Expand2(x: real, z: real, c: real, s: real)
    ensures (x * c - z * s) * (x * c - z * s) + (x * s + z * c) * (x * s + z * c)
         == (x * x + z * z) * (c * c + s * s)
  {
  }

  lemma RootAtLeastOne(len: real)
    requires len >= 0.0 && len * len >= 1.0
    ensures len >= 1.0
  {
    if len < 1.0 { ProductNonNegative(len, 1.0 - len); }
  }

  /** Three numbers that multiply to parts of `q` add up to the corresponding part of one. */
  lemma SumOfQuotients(a: real, b: real, c: real, q: real)
    requires Product(a, q) + Product(b, q) + Product(c, q) == q && q != 0.0
    ensures a + b + c == 1.0
  {
    hide Product;
    calc {
      Product(a + b + c, q);
      { ProductDistributes(a, b, c, q); }
      Product(a, q) + Product(b, q) + Product(c, q);
      q;
    }
    ProductCancels(a + b + c, q);
  }

  lemma LengthSquaredIs(v: Vec3)
    ensures LengthSquared(v) == Product(v.x, v.x) + Product(v.y, v.y) + Product(v.z, v.z)
  {
  }

  lemma UnitAfterDivision(n: Vec3, v: Vec3, len: real)
    requires Product(n.x, len) == v.x && Product(n.y, len) == v.y && Product(n.z, len) == v.z
    requires Product(len, len) == LengthSquared(v) >= 1.0
    ensures LengthSquared(n) == 1.0
  {
    hide Product, LengthSquared;
    SquareOfProduct(n.x, len);
    SquareOfProduct(n.y, len);
    SquareOfProduct(n.z, len);
    LengthSquaredIs(v);
    LengthSquaredIs(n);
    SumOfQuotients(Product(n.x, n.x), Product(n.y, n.y), Product(n.z, n.z), Product(len, len));
  }

  lemma NormalizeGivesUnit(m: Maths, v: Vec3)
    requires Faithful(m) && LengthSquared(v) >= 1.0
    ensures LengthSquared(Normalize(m, v)) == 1.0
  {
    hide LengthSquared;
    var len := m.sqrt(LengthSquared(v));
    assert len * len == LengthSquared(v) && len >= 0.0;
    RootAtLeastOne(len);
    DivideMultiply(v.x, len);
    DivideMultiply(v.y, len);
    DivideMultiply(v.z, len);
    UnitAfterDivision(Normalize(m, v), v, len);
  }

  lemma HeadingLength(m: Maths, keyField: bv32, yaw: real)
    requires Faithful(m)
    ensures LengthSquared(Heading(m, keyField, yaw)) == if keyField & 15 != 0 then 1.0 else 0.0
    ensures Heading(m, keyField, yaw).y == 0.0
  {
    hide Faithful, LengthSquared, Normalize, Rotate;
    var dir := Direction(keyField);
    MovesIffKeyDown(keyField);
    if LengthSquared(dir) > 0.0 {
      NormalizeGivesUnit(m, dir);
      NormalizeKeepsPlane(m, dir);
      RotateKeepsLength(m, Normalize(m, dir), -yaw);
    } else {
      RotateKeepsLength(m, dir, -yaw);
    }
  }

  lemma NormalizeKeepsPlane(m: Maths, v: Vec3)
    requires v.y == 0.0
    ensures Normalize(m, v).y == 0.0
  {
  }

  /** Whichever way the player faces, an input moves it at the reported speed in the plane if any of the
      four keys is down and not at all otherwise: diagonals are not faster, opposite keys do not cancel. */
  lemma PlanarSpeed(m: Maths, d: Drive, keyField: bv32)
    requires Faithful(m)
    ensures var v := Velocity(m, d, keyField);
            v.x * v.x + v.z * v.z == if keyField & 15 != 0 then d.moveSpeed * d.moveSpeed else 0.0
  {
    hide Faithful, Heading;
    HeadingLength(m, keyField, d.yaw);
    var h := Heading(m, keyField, d.yaw);
    ScaledSquares(h.x, h.z, d.moveSpeed);
  }

  /** What an input does to a player, in all: its rendered velocity gets the key field's planar part and keeps
      its height, and the position moves by a thirtieth of it. */
  lemma InputStep(m: Maths, s: State, input: Input)
    ensures var s' := ApplyInput(m, s, input);
            && s'.renderVelocity.x == Heading(m, input.keyField, s.yaw).x * s.moveSpeed
            && s'.renderVelocity.z == Heading(m, input.keyField, s.yaw).z * s.moveSpeed
            && s'.renderVelocity.y == s.renderVelocity.y
            && 30.0 * (s'.renderPosition.x - s.renderPosition.x) == s'.renderVelocity.x
            && 30.0 * (s'.renderPosition.y - s.renderPosition.y) == s'.renderVelocity.y
            && 30.0 * (s'.renderPosition.z - s.renderPosition.z) == s'.renderVelocity.z
            && s' == s.(renderPosition := s'.renderPosition, renderVelocity := s'.renderVelocity)
  {
    hide Heading;
  }

  /** `GetPlayerDirection` */
  function PlayerDirection(m: Maths, yaw: real, pitch: real): Vec3 {
    Vec3(m.cos(pitch) * m.sin(yaw), m.sin(pitch), m.cos(pitch) * m.cos(yaw))
  }

  const FORWARD: bv32 := 1
  const BACKWARD: bv32 := 2
  const LEFT: bv32 := 4
  const RIGHT: bv32 := 8

  lemma RootOfOne(m: Maths)
    requires Faithful(m)
    ensures m.sqrt(1.0) == 1.0
  {
    var one := m.sqrt(1.0);
    assert one >= 0.0 && one * one == 1.0;
    RootAtLeastOne(one);
    SquareIsOne(one);
  }

  lemma SquareIsOne(x: real)
    requires x >= 1.0 && x * x == 1.0
    ensures x == 1.0
  {
    assert (x - 1.0) * (x + 1.0) == 0.0;
  }

  lemma NormalizeKeepsUnit(m: Maths, v: Vec3)
    requires Faithful(m) && LengthSquared(v) == 1.0
    ensures Normalize(m, v) == v
  {
    hide LengthSquared, Faithful;
    RootOfOne(m);
    DivideByOne(v.x);
    DivideByOne(v.y);
    DivideByOne(v.z);
  }

  lemma DivideByOne(x: real)
    ensures x / 1.0 == x
  {
  }

  /** Turning by minus the yaw, the two axes apart. */
  lemma RotateAxis(m: Maths, k: real, yaw: real)
    requires Faithful(m) && (k == 1.0 || k == -1.0)
    ensures Rotate(m, Vec3(0.0, 0.0, k), -yaw) == Vec3(k * m.sin(yaw), 0.0, k * m.cos(yaw))
    ensures Rotate(m, Vec3(k, 0.0, 0.0), -yaw) == Vec3(k * m.cos(yaw), 0.0, -(k * m.sin(yaw)))
  {
    assert m.cos(-yaw) == m.cos(yaw) && m.sin(-yaw) == -m.sin(yaw);
    hide Faithful;
    if k == 1.0 {
    } else {
    }
  }

  lemma HeadingOfUnit(m: Maths, keyField: bv32, yaw: real, k: real)
    requires Faithful(m) && (k == 1.0 || k == -1.0)
    ensures Direction(keyField) == Vec3(0.0, 0.0, k) ==>
              Heading(m, keyField, yaw) == Vec3(k * m.sin(yaw), 0.0, k * m.cos(yaw))
    ensures Direction(keyField) == Vec3(k, 0.0, 0.0) ==>
              Heading(m, keyField, yaw) == Vec3(k * m.cos(yaw), 0.0, -(k * m.sin(yaw)))
  {
    var dir := Direction(keyField);
    hide Direction, Normalize, Rotate, Faithful;
    RotateAxis(m, k, yaw);
    if dir == Vec3(0.0, 0.0, k) || dir == Vec3(k, 0.0, 0.0) {
      UnitAxes(k);
      hide LengthSquared;
      NormalizeKeepsUnit(m, dir);
    }
  }

  lemma UnitAxes(k: real)
    requires k == 1.0 || k == -1.0
    ensures LengthSquared(Vec3(0.0, 0.0, k)) == 1.0 && LengthSquared(Vec3(k, 0.0, 0.0)) == 1.0
  {
  }

  lemma SingleKeys(keyField: bv32)
    ensures keyField & 15 == FORWARD ==> Direction(keyField) == Vec3(0.0, 0.0, 1.0)
    ensures keyField & 14 == BACKWARD ==> Direction(keyField) == Vec3(0.0, 0.0, -1.0)
    ensures keyField & 15 == LEFT ==> Direction(keyField) == Vec3(1.0, 0.0, 0.0)
    ensures keyField & 11 == RIGHT ==> Direction(keyField) == Vec3(-1.0, 0.0, 0.0)
  {
  }

  /** The forward key moves the player where it looks (in plan), the others opposite and across; of two
      opposite keys held together, backward and right win. */
  lemma KeysFollowView(m: Maths, keyField: bv32, yaw: real, pitch: real)
    requires Faithful(m)
    ensures var h, look := Heading(m, keyField, yaw), PlayerDirection(m, yaw, pitch);
            && (keyField & 15 == FORWARD ==> h.x * m.cos(pitch) == look.x && h.z * m.cos(pitch) == look.z)
            && (keyField & 14 == BACKWARD ==> h.x * m.cos(pitch) == -look.x && h.z * m.cos(pitch) == -look.z)
            && (keyField & 15 == LEFT ==> h.x * m.cos(pitch) == look.z && h.z * m.cos(pitch) == -look.x)
            && (keyField & 11 == RIGHT ==> h.x * m.cos(pitch) == -look.z && h.z * m.cos(pitch) == look.x)
  {
    hide Direction, Heading, Faithful;
    SingleKeys(keyField);
    HeadingOfUnit(m, keyField, yaw, 1.0);
    HeadingOfUnit(m, keyField, yaw, -1.0);
  }

  /** Where the view direction is a unit vector whose rise is the sine of the pitch. */
  lemma ViewIsUnit(m: Maths, yaw: real, pitch: real)
    requires Faithful(m)
    ensures PlayerDirection(m, yaw, pitch).y == m.sin(pitch)
    ensures LengthSquared(PlayerDirection(m, yaw, pitch)) == 1.0
  {
    var c, s := m.cos(pitch), m.sin(pitch);
    var a, b := m.sin(yaw), m.cos(yaw);
    assert b * b + a * a == 1.0 && c * c + s * s == 1.0;
    hide Faithful;
    SquaredPlan(c, a, b, b * b + a * a);
  }

  lemma SquaredPlan(c: real, a: real, b: real, sum: real)
    requires sum == b * b + a * a
    ensures (c * a) * (c * a) + (c * b) * (c * b) == (c * c) * sum
  {
  }

  // ---- Two axes at once

  lemma MaskedBits(keyField: bv32)
    ensures (BitAt(keyField & 3, 0) <==> BitAt(keyField, 0)) && (BitAt(keyField & 3, 1) <==> BitAt(keyField, 1))
    ensures !BitAt(keyField & 3, 2) && !BitAt(keyField & 3, 3)
    ensures (BitAt(keyField & 12, 2) <==> BitAt(keyField, 2)) && (BitAt(keyField & 12, 3) <==> BitAt(keyField, 3))
    ensures !BitAt(keyField & 12, 0) && !BitAt(keyField & 12, 1)
    ensures keyField & 3 != 0 ==> BitAt(keyField, 0) || BitAt(keyField, 1)
    ensures keyField & 12 != 0 ==> BitAt(keyField, 2) || BitAt(keyField, 3)
  {
  }

  lemma DirectionIsSum(keyField: bv32)
    ensures Direction(keyField).x == Direction(keyField & 12).x && Direction(keyField).z == Direction(keyField & 3).z
    ensures Direction(keyField & 3).x == 0.0 && Direction(keyField & 12).z == 0.0
    ensures Direction(keyField).y == Direction(keyField & 3).y == Direction(keyField & 12).y == 0.0
    ensures keyField & 3 != 0 ==> Direction(keyField & 3).z == 1.0 || Direction(keyField & 3).z == -1.0
    ensures keyField & 12 != 0 ==> Direction(keyField & 12).x == 1.0 || Direction(keyField & 12).x == -1.0
  {
    MaskedBits(keyField);
    hide BitAt;
  }

  lemma RootOfTwo(m: Maths)
    requires Faithful(m)
    ensures m.sqrt(2.0) >= 1.0
  {
    var root := m.sqrt(2.0);
    assert root >= 0.0 && root * root == 2.0;
    RootAtLeastOne(root);
  }

  /** Dividing a direction by `s`, turning it, and multiplying by `s` again is turning it. */
  lemma TurnScales(x: real, z: real, c: real, sn: real, s: real)
    requires s != 0.0
    ensures ((x / s) * c - (z / s) * sn) * s == x * c - z * sn
    ensures ((x / s) * sn + (z / s) * c) * s == x * sn + z * c
  {
    DivideMultiply(x, s);
    DivideMultiply(z, s);
    CombineTimes(x / s, z / s, c, -sn, s);
    CombineTimes(x / s, z / s, sn, c, s);
  }

  lemma CombineTimes(a: real, b: real, c: real, d: real, s: real)
    ensures (a * c + b * d) * s == Product(a, s) * c + Product(b, s) * d
  {
  }

  lemma NormalizeDiagonal(m: Maths, d: Vec3)
    requires Faithful(m) && LengthSquared(d) == 2.0
    ensures m.sqrt(2.0) >= 1.0
    ensures Normalize(m, d) == Vec3(d.x / m.sqrt(2.0), d.y / m.sqrt(2.0), d.z / m.sqrt(2.0))
  {
    RootOfTwo(m);
    hide LengthSquared, Faithful;
  }

  lemma RotateDivided(m: Maths, d: Vec3, root: real, angle: real)
    requires root != 0.0
    ensures var h, r := Rotate(m, Vec3(d.x / root, d.y / root, d.z / root), angle), Rotate(m, d, angle);
            h.x * root == r.x && h.z * root == r.z && h.y == r.y == 0.0
  {
    TurnScales(d.x, d.z, m.cos(angle), m.sin(angle), root);
  }

  lemma HeadingOfDiagonal(m: Maths, keyField: bv32, yaw: real)
    requires Faithful(m) && LengthSquared(Direction(keyField)) == 2.0
    ensures var h, r, root := Heading(m, keyField, yaw), Rotate(m, Direction(keyField), -yaw), m.sqrt(2.0);
            h.x * root == r.x && h.z * root == r.z && h.y == 0.0
  {
    var d := Direction(keyField);
    hide Direction, LengthSquared, Faithful, Normalize, Rotate;
    NormalizeDiagonal(m, d);
    RotateDivided(m, d, m.sqrt(2.0), -yaw);
  }

  lemma HeadingOfAxis(m: Maths, keyField: bv32, yaw: real)
    requires Faithful(m) && LengthSquared(Direction(keyField)) == 1.0
    ensures Heading(m, keyField, yaw) == Rotate(m, Direction(keyField), -yaw)
  {
    hide Direction, Rotate, Normalize, LengthSquared, Faithful;
    NormalizeKeepsUnit(m, Direction(keyField));
  }

  lemma TurnsAdd(m: Maths, a: Vec3, b: Vec3, d: Vec3, angle: real)
    requires a.x == 0.0 && b.z == 0.0 && d.x == b.x && d.z == a.z
    ensures var p, q, r := Rotate(m, a, angle), Rotate(m, b, angle), Rotate(m, d, angle);
            r.x == p.x + q.x && r.z == p.z + q.z
  {
  }

  lemma Axes(d: Vec3)
    requires d.y == 0.0 && (d.x == 0.0 || d.x == 1.0 || d.x == -1.0) && (d.z == 0.0 || d.z == 1.0 || d.z == -1.0)
    ensures d.x == 0.0 && d.z != 0.0 ==> LengthSquared(d) == 1.0
    ensures d.z == 0.0 && d.x != 0.0 ==> LengthSquared(d) == 1.0
    ensures d.x != 0.0 && d.z != 0.0 ==> LengthSquared(d) == 2.0
  {
  }

  /** With a key of each axis down, the heading is the sum of the two headings, brought back to length one. */
  lemma DiagonalIsBetween(m: Maths, keyField: bv32, yaw: real)
    requires Faithful(m) && keyField & 3 != 0 && keyField & 12 != 0
    ensures var h, root := Heading(m, keyField, yaw), m.sqrt(2.0);
            var ahead, across := Heading(m, keyField & 3, yaw), Heading(m, keyField & 12, yaw);
            h.x * root == ahead.x + across.x && h.z * root == ahead.z + across.z && h.y == 0.0
  {
    DirectionIsSum(keyField);
    hide Direction, Heading, Faithful, LengthSquared, Rotate;
    var d, ahead, across := Direction(keyField), Direction(keyField & 3), Direction(keyField & 12);
    Axes(d);
    Axes(ahead);
    Axes(across);
    HeadingOfDiagonal(m, keyField, yaw);
    HeadingOfAxis(m, keyField & 3, yaw);
    HeadingOfAxis(m, keyField & 12, yaw);
    TurnsAdd(m, ahead, across, d, -yaw);
  }

  lemma ScaledSquares(x: real, z: real, k: real)
    ensures (x * k) * (x * k) + (z * k) * (z * k) == (x * x + z * z) * (k * k)
  {
  }

  lemma MovesIffKeyDown(keyField: bv32)
    ensures LengthSquared(Direction(keyField)) == 0.0 || LengthSquared(Direction(keyField)) >= 1.0
    ensures LengthSquared(Direction(keyField)) > 0.0 <==> keyField & 15 != 0
  {
  }

  // ---------------------------------------------------------------------------------------------
  // Update and Reconcile
  // ---------------------------------------------------------------------------------------------

  /** The captured input under the next number. */
  function Numbered(s: State, captured: Input): Input {
    captured.(sequence := s.lastSequenceNumber)
  }

  /** The first half of `Update`, which takes no lock: number the input and append it to the pending list. */
  function Push(s: State, captured: Input): State {
    s.(pendingInputs := s.pendingInputs + [Numbered(s, captured)],
       lastSequenceNumber := (s.lastSequenceNumber + 1) % WRAP)
  }

  /** `Update` with nothing in between its two halves.  `captured` is what the input manager hands over; its
      time stamp is zero when nothing has changed. */
  function Update(m: Maths, s: State, captured: Input): State {
    if captured.timestamp == 0.0 then s else ApplyInput(m, Push(s, captured), Numbered(s, captured))
  }

  function Receive(s: State, r: Report): State {
    var (v, speed) := UnpackVelocityAndSpeed(r.velocitySpeed);
    var (yaw, pitch) := UnpackRotation(r.rotation);
    s.(position := UnpackPosition(r.position), velocity := v, moveSpeed := speed, yaw := yaw, pitch := pitch)
  }

  /** `delta.Length() > SMOOTH_THRESHOLD`, squared. */
  predicate TooFar(s: State) {
    LengthSquared(Minus(s.position, s.renderPosition)) > SMOOTH_THRESHOLD * SMOOTH_THRESHOLD
  }

  function Quantized(v: Vec3): Vec3 {
    Vec3(ExpandPosition(CompressPosition(v.x)), ExpandPosition(CompressPosition(v.y)),
         ExpandPosition(CompressPosition(v.z)))
  }

  function CorrectedPosition(s: State): Vec3 {
    if TooFar(s) then s.position
    else Lerp(Plus(s.renderPosition, Minus(s.position, Quantized(s.position))), s.position, SMOOTH_FACTOR)
  }

  function Fmod(x: real, y: real): real
    requires y != 0.0
  {
    x - Trunc(x / y) as real * y
  }

  function LerpAngle(a: real, b: real, t: real): real {
    a + (Fmod(b - a + PI * 3.0, PI * 2.0) - PI) * t
  }

  predicate TurnedTooFar(s: State) {
    Distance(s.yaw, s.renderYaw) > 1.0 || Distance(s.pitch, s.renderPitch) > 1.0
  }

  function Correct(s: State): State {
    s.(renderPosition := CorrectedPosition(s),
       renderYaw := if TurnedTooFar(s) then s.yaw else LerpAngle(s.renderYaw, s.yaw, SMOOTH_FACTOR),
       renderPitch := if TurnedTooFar(s) then s.pitch else LerpReal(s.renderPitch, s.pitch, SMOOTH_FACTOR))
  }

  function Replay(m: Maths, s: State, inputs: seq<Input>, ack: u32): State
    decreases |inputs|
  {
    if inputs == [] then s
    else Replay(m, if inputs[0].sequence > ack then ApplyInput(m, s, inputs[0]) else s, inputs[1..], ack)
  }

  function Unacked(inputs: seq<Input>, ack: u32): seq<Input> {
    if inputs == [] then []
    else (if inputs[0].sequence > ack then [inputs[0]] else []) + Unacked(inputs[1..], ack)
  }

  function Reconcile(m: Maths, s: State, r: Report, ack: u32): State {
    Replay(m, Correct(Receive(s, r)), s.pendingInputs, ack).(pendingInputs := Unacked(s.pendingInputs, ack))
  }

  /** Everything a report says is taken over. */
  lemma ReportIsTakenOver(m: Maths, s: State, r: Report, ack: u32)
    ensures var s' := Reconcile(m, s, r, ack);
            && s'.position == UnpackPosition(r.position)
            && s'.velocity == UnpackVelocityAndSpeed(r.velocitySpeed).0
            && s'.moveSpeed == UnpackVelocityAndSpeed(r.velocitySpeed).1
            && s'.yaw == UnpackRotation(r.rotation).0 && s'.pitch == UnpackRotation(r.rotation).1
            && s'.lastSequenceNumber == s.lastSequenceNumber
  {
    hide ApplyInput, CorrectedPosition, LerpAngle, UnpackRotation, UnpackPosition, UnpackVelocityAndSpeed;
    ReplayMoves(m, Correct(Receive(s, r)), s.pendingInputs, ack);
  }

  /** A report more than 0.7 away from what is rendered replaces it, and the unacknowledged inputs are added. */
  lemma FarReportReplaces(m: Maths, s: State, r: Report, ack: u32)
    requires var u, p := UnpackPosition(r.position), s.renderPosition;
             (u.x - p.x) * (u.x - p.x) + (u.y - p.y) * (u.y - p.y) + (u.z - p.z) * (u.z - p.z) > 0.49
    ensures var u, shown := UnpackPosition(r.position), Reconcile(m, s, r, ack).renderPosition;
            var replayed := Travel(m, DriveOf(Receive(s, r)), Unacked(s.pendingInputs, ack));
            shown.x == u.x + replayed.x && shown.y == u.y + replayed.y && shown.z == u.z + replayed.z
  {
    hide Reconcile, Travel, UnpackPosition, UnpackRotation, UnpackVelocityAndSpeed, Unacked, Quantized;
    ReconcileMoves(m, s, r, ack);
  }

  /** Any other is averaged with what is rendered, the height with the difference between the reported height
      and its world-coordinate quantization added, and then the unacknowledged inputs are added. */
  lemma CloseReportIsAveraged(m: Maths, s: State, r: Report, ack: u32)
    requires var u, p := UnpackPosition(r.position), s.renderPosition;
             (u.x - p.x) * (u.x - p.x) + (u.y - p.y) * (u.y - p.y) + (u.z - p.z) * (u.z - p.z) <= 0.49
    ensures var u, p, shown := UnpackPosition(r.position), s.renderPosition, Reconcile(m, s, r, ack).renderPosition;
            var replayed := Travel(m, DriveOf(Receive(s, r)), Unacked(s.pendingInputs, ack));
            && shown.x == (p.x + u.x) / 2.0 + replayed.x
            && shown.y == (p.y + (u.y - ExpandPosition(CompressPosition(u.y))) + u.y) / 2.0 + replayed.y
            && shown.z == (p.z + u.z) / 2.0 + replayed.z
  {
    hide Reconcile, Travel, UnpackPosition, UnpackRotation, UnpackVelocityAndSpeed, Unacked, CompressPosition,
         ExpandPosition;
    ReconcileMoves(m, s, r, ack);
    ReportedPlaneIsQuantized(r.position);
  }

  lemma ReportedPlaneIsQuantized(w: u64)
    ensures var u := UnpackPosition(w);
            ExpandPosition(CompressPosition(u.x)) == u.x && ExpandPosition(CompressPosition(u.z)) == u.z
  {
    UnpackedCoordinates(w);
    CompressInvertsExpand(Split(w).a);
    CompressInvertsExpand(Split(w).c);
  }

  /** After a report the rendered angles are the reported ones, or their differences have halved. */
  lemma AnglesHalveOrSnap(m: Maths, s: State, r: Report, ack: u32)
    ensures var s' := Reconcile(m, s, r, ack);
            var (yaw, pitch) := UnpackRotation(r.rotation);
            if yaw - s.renderYaw > 1.0 || s.renderYaw - yaw > 1.0 || pitch - s.renderPitch > 1.0
               || s.renderPitch - pitch > 1.0 then (
              s'.renderYaw == yaw && s'.renderPitch == pitch
            ) else (
              && yaw - s'.renderYaw == (yaw - s.renderYaw) / 2.0
              && pitch - s'.renderPitch == (pitch - s.renderPitch) / 2.0
            )
  {
    hide ApplyInput, CorrectedPosition, UnpackRotation, UnpackPosition, UnpackVelocityAndSpeed;
    var t := Receive(s, r);
    ReplayMoves(m, Correct(t), s.pendingInputs, ack);
    if !TurnedTooFar(t) {
      SmallTurn(t.renderYaw, t.yaw);
    }
  }

  /** For angles within a radian of each other the way round the circle is the straight way. */
  lemma SmallTurn(a: real, b: real)
    requires Distance(b, a) <= 1.0
    ensures LerpAngle(a, b, SMOOTH_FACTOR) == LerpReal(a, b, SMOOTH_FACTOR)
  {
    var x := (b - a + PI * 3.0) / (PI * 2.0);
    TruncIs(x, 1);
  }

  // ---------------------------------------------------------------------------------------------
  // Displacements
  // ---------------------------------------------------------------------------------------------

  function Step(m: Maths, d: Drive, keyField: bv32): Vec3 {
    Scale(Velocity(m, d, keyField), LOGIC_TICK_INTERVAL)
  }

  /** Where a list of inputs takes the player from the origin. */
  function Travel(m: Maths, d: Drive, inputs: seq<Input>): Vec3 {
    if inputs == [] then ZERO
    else Plus(Step(m, d, inputs[0].keyField), Travel(m, d, inputs[1..]))
  }

  lemma {:induction false} TravelSplits(m: Maths, d: Drive, a: seq<Input>, b: seq<Input>)
    ensures Travel(m, d, a + b) == Plus(Travel(m, d, a), Travel(m, d, b))
  {
    hide Step;
    if a == [] {
      assert a + b == b;
    } else {
      assert (a + b)[0] == a[0] && (a + b)[1..] == a[1..] + b;
      TravelSplits(m, d, a[1..], b);
    }
  }

  lemma TravelCut(m: Maths, d: Drive, a: seq<Input>, i: nat)
    requires i <= |a|
    ensures Travel(m, d, a) == Plus(Travel(m, d, a[..i]), Travel(m, d, a[i..]))
  {
    assert a == a[..i] + a[i..];
    TravelSplits(m, d, a[..i], a[i..]);
  }

  /** Replaying moves the player by the unacknowledged inputs, whatever it started from, and touches
      nothing but the rendered position and velocity. */
  lemma {:induction false} ReplayMoves(m: Maths, s: State, inputs: seq<Input>, ack: u32)
    ensures var s' := Replay(m, s, inputs, ack);
            && s'.renderPosition == Plus(s.renderPosition, Travel(m, DriveOf(s), Unacked(inputs, ack)))
            && DriveOf(s') == DriveOf(s)
            && s' == s.(renderPosition := s'.renderPosition, renderVelocity := s'.renderVelocity)
    decreases |inputs|
  {
    hide Velocity;
    if inputs != [] {
      var t := if inputs[0].sequence > ack then ApplyInput(m, s, inputs[0]) else s;
      ReplayMoves(m, t, inputs[1..], ack);
      TravelSplits(m, DriveOf(s), Unacked(inputs, ack)[..|Unacked(inputs, ack)| - |Unacked(inputs[1..], ack)|],
                   Unacked(inputs[1..], ack));
      OneStep(m, DriveOf(s), inputs[0]);
      StepsKeepDrive(m, s, inputs[0]);
    }
  }

  /** In numbers: each input adds a thirtieth of its velocity, coordinate by coordinate. */
  lemma TravelAddsUp(m: Maths, d: Drive, inputs: seq<Input>, input: Input)
    ensures var before, after := Travel(m, d, inputs), Travel(m, d, inputs + [input]);
            var v := Velocity(m, d, input.keyField);
            && 30.0 * (after.x - before.x) == v.x && 30.0 * (after.y - before.y) == v.y
            && 30.0 * (after.z - before.z) == v.z
    ensures Travel(m, d, []) == Vec3(0.0, 0.0, 0.0)
  {
    hide Velocity, Travel;
    NoTravel(m, d);
    TravelSplits(m, d, inputs, [input]);
    OneStep(m, d, input);
  }

  lemma NoTravel(m: Maths, d: Drive)
    ensures Travel(m, d, []) == Vec3(0.0, 0.0, 0.0)
  {
  }

  lemma OneStep(m: Maths, d: Drive, input: Input)
    ensures Travel(m, d, [input]) == Step(m, d, input.keyField)
  {
    hide Step;
    assert [input][1..] == [];
  }

  lemma StepsKeepDrive(m: Maths, s: State, input: Input)
    ensures DriveOf(ApplyInput(m, s, input)) == DriveOf(s)
    ensures ApplyInput(m, s, input).renderPosition == Plus(s.renderPosition, Step(m, DriveOf(s), input.keyField))
  {
  }

  /** What `Reconcile` does, apart from the rendered angles. */
  lemma ReconcileMoves(m: Maths, s: State, r: Report, ack: u32)
    ensures var s' := Reconcile(m, s, r, ack);
            && s'.pendingInputs == Unacked(s.pendingInputs, ack)
            && s'.lastSequenceNumber == s.lastSequenceNumber
            && s'.renderVelocity.y == s.renderVelocity.y
            && s'.renderPosition == Plus(CorrectedPosition(Receive(s, r)),
                 Travel(m, DriveOf(Receive(s, r)), Unacked(s.pendingInputs, ack)))
  {
    hide CorrectedPosition, LerpAngle, UnpackPosition, UnpackRotation, UnpackVelocityAndSpeed, TurnedTooFar,
         Travel, Unacked;
    ReplayMoves(m, Correct(Receive(s, r)), s.pendingInputs, ack);
  }
}
