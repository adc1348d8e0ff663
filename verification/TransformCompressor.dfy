/** The fixed-point packing of positions, rotations and velocities
    (DummyClient/TransformCompressor.cpp), over the reals.  A packed word is a natural number and its
    sixteen-bit fields are its base-65536 digits. */
module TransformCompressor {

  import opened SerialNumber
  import opened Vectors

  const WORLD_RANGE_MAX: real := 2048.0
  const WORLD_RANGE_MIN: real := -2048.0
  const RANGE: real := WORLD_RANGE_MAX - WORLD_RANGE_MIN
  const HALF_RES: real := RANGE / 65535.0 * 0.5

  /** `std::numbers::pi_v<float>`, exactly. */
  const PI: real := 3.1415927410125732421875

  type u32 = x: int | 0 <= x < 65536 * 65536
  type u64 = x: int | 0 <= x < 65536 * 65536 * 65536 * 65536

  // ---------------------------------------------------------------------------------------------
  // Casts
  // ---------------------------------------------------------------------------------------------

  /** A conversion from floating point to an integer drops the fraction ... */
  function Trunc(x: real): int {
    if x >= 0.0 then x.Floor else -((-x).Floor)
  }

  /** ... and is undefined unless the result fits the target type. */
  predicate FitsU16(x: real) { 0 <= Trunc(x) < 65536 }

  predicate FitsI16(x: real) { -32768 <= Trunc(x) < 32768 }

  lemma TruncIs(x: real, n: int)
    requires if n > 0 then n as real <= x < (n + 1) as real
             else if n < 0 then (n - 1) as real < x <= n as real
             else -1.0 < x < 1.0
    ensures Trunc(x) == n
  {
  }

  lemma TruncOf(x: real)
    ensures if Trunc(x) > 0 then Trunc(x) as real <= x < (Trunc(x) + 1) as real
            else if Trunc(x) < 0 then (Trunc(x) - 1) as real < x <= Trunc(x) as real
            else -1.0 < x < 1.0
  {
    assert (x.Floor) as real <= x < (x.Floor + 1) as real;
    assert ((-x).Floor) as real <= -x < ((-x).Floor + 1) as real;
  }

  // ---------------------------------------------------------------------------------------------
  // Words
  // ---------------------------------------------------------------------------------------------

  datatype Fields = Fields(a: u16, b: u16, c: u16, d: u16)

  /** `(hi << 16) | lo` */
  function Join(hi: nat, lo: u16): nat { hi * 65536 + lo }

  /** `w >> 16` */
  function High(w: nat): nat { w / 65536 }

  /** `w & 0xFFFF` */
  function Low(w: nat): u16 { w % 65536 }

  lemma JoinHighLow(w: nat)
    ensures Join(High(w), Low(w)) == w
  {
  }

  lemma HighLowJoin(hi: nat, lo: u16)
    ensures High(Join(hi, lo)) == hi && Low(Join(hi, lo)) == lo
  {
  }

  lemma HighOfSmall(w: nat, bound: nat)
    requires w < bound * 65536
    ensures High(w) < bound
  {
  }

  function Word(f: Fields): (w: u64) {
    var w := Join(Join(Join(f.a, f.b), f.c), f.d);
    assert w < 65536 * 65536 * 65536 * 65536;
    w
  }

  function Split(w: u64): Fields {
    var top := High(High(High(w)));
    assert top < 65536 by {
      hide High;
      HighOfSmall(w, 65536 * 65536 * 65536);
      HighOfSmall(High(w), 65536 * 65536);
      HighOfSmall(High(High(w)), 65536);
    }
    Fields(top, Low(High(High(w))), Low(High(w)), Low(w))
  }

  lemma SplitInvertsWord(f: Fields)
    ensures Split(Word(f)) == f
  {
    hide Join, High, Low;
    HighLowJoin(Join(Join(f.a, f.b), f.c), f.d);
    HighLowJoin(Join(f.a, f.b), f.c);
    HighLowJoin(f.a, f.b);
  }

  lemma WordInvertsSplit(w: u64)
    ensures Word(Split(w)) == w
  {
    hide Join, High, Low;
    JoinHighLow(w);
    JoinHighLow(High(w));
    JoinHighLow(High(High(w)));
  }

  /** A field read as `int16` and passed on as `uint16` is the field again. */
  lemma SignedReadIsHarmless(x: u16)
    ensures Wrap(ToInt16(x)) == x
  {
    if x >= 32768 { WrapCongruent(x - MODULUS, x, -1); }
    WrapSmall(x);
  }

  // ---------------------------------------------------------------------------------------------
  // World coordinates
  // ---------------------------------------------------------------------------------------------

  function Clamp01(x: real): real {
    if x < 0.0 then 0.0 else if x > 1.0 then 1.0 else x
  }

  function CompressPosition(v: real): u16 {
    Trunc(Clamp01((v - WORLD_RANGE_MIN) / RANGE) * 65535.0)
  }

  function ExpandPosition(p: u16): real {
    p as real / 65535.0 * RANGE + WORLD_RANGE_MIN + HALF_RES
  }

  /** The codes cut the line into half-open cells of width twice HALF_RES, of which the first reaches down
      without end and the last up without end. */
  lemma CompressPositionIs(v: real, p: u16)
    ensures CompressPosition(v) == p <==>
            && (p == 0 || ExpandPosition(p) - HALF_RES <= v)
            && (p == 65535 || v < ExpandPosition(p) + HALF_RES)
  {
    TruncOf(Clamp01((v - WORLD_RANGE_MIN) / RANGE) * 65535.0);
  }

  /** Expansion picks the middle of each cell, so compressing it gives the code back, and a second round
      of quantization changes nothing. */
  lemma CompressInvertsExpand(p: u16)
    ensures CompressPosition(ExpandPosition(p)) == p
  {
    CompressPositionIs(ExpandPosition(p), p);
  }

  lemma QuantizingTwiceIsQuantizing(v: real)
    ensures var q := ExpandPosition(CompressPosition(v));
            ExpandPosition(CompressPosition(q)) == q
  {
    CompressInvertsExpand(CompressPosition(v));
  }

  function Distance(a: real, b: real): real {
    if a <= b then b - a else a - b
  }

  /** The error is at most HALF_RES exactly on the world range and one cell beyond its upper end. */
  lemma QuantizationBoundIff(v: real)
    ensures Distance(ExpandPosition(CompressPosition(v)), v) <= HALF_RES <==>
            WORLD_RANGE_MIN <= v <= WORLD_RANGE_MAX + 2.0 * HALF_RES
  {
    CompressPositionIs(v, CompressPosition(v));
  }

  /** For every real number, in the world or not, no other code would have come nearer. */
  lemma NoCodeIsNearer(v: real, q: u16)
    ensures Distance(ExpandPosition(CompressPosition(v)), v) <= Distance(ExpandPosition(q), v)
  {
    hide CompressPosition, ExpandPosition;
    var p := CompressPosition(v);
    CompressPositionIs(v, p);
    if q > p {
      CellsAreDisjoint(p, q);
    } else if q < p {
      CellsAreDisjoint(q, p);
    }
  }

  lemma CellsAreDisjoint(p: u16, q: u16)
    requires p < q
    ensures ExpandPosition(p) + HALF_RES <= ExpandPosition(q) - HALF_RES
  {
    assert ExpandPosition(p) == p as real * (RANGE / 65535.0) + (WORLD_RANGE_MIN + HALF_RES);
    assert ExpandPosition(q) == q as real * (RANGE / 65535.0) + (WORLD_RANGE_MIN + HALF_RES);
  }

  lemma CompressIsMonotone(v: real, w: real)
    requires v <= w
    ensures CompressPosition(v) <= CompressPosition(w)
  {
    hide CompressPosition;
    CompressPositionIs(v, CompressPosition(v));
    CompressPositionIs(w, CompressPosition(w));
  }

  // ---------------------------------------------------------------------------------------------
  // Positions
  // ---------------------------------------------------------------------------------------------

  /** Heights have a field of their own with 128 steps to the unit. */
  predicate HeightFits(y: real) { FitsU16(y * 128.0) }

  function PackHeight(y: real): u16
    requires HeightFits(y)
  {
    Trunc(y * 128.0)
  }

  function UnpackHeight(p: u16): real {
    ToInt16(p) as real / 128.0
  }

  function PackPosition(v: Vec3): u64
    requires HeightFits(v.y)
  {
    Word(Fields(CompressPosition(v.x), PackHeight(v.y), CompressPosition(v.z), 0))
  }

  function UnpackPosition(w: u64): Vec3 {
    var f := Split(w);
    Vec3(ExpandPosition(Wrap(ToInt16(f.a))), UnpackHeight(f.b), ExpandPosition(Wrap(ToInt16(f.c))))
  }

  lemma UnpackedCoordinates(w: u64)
    ensures UnpackPosition(w).x == ExpandPosition(Split(w).a)
    ensures UnpackPosition(w).z == ExpandPosition(Split(w).c)
  {
    SignedReadIsHarmless(Split(w).a);
    SignedReadIsHarmless(Split(w).c);
  }

  /** A height field unpacks to something that can be packed again exactly if it is below 32768, and then
      packing gives it back. */
  lemma HeightFieldRoundTrip(p: u16)
    ensures HeightFits(UnpackHeight(p)) <==> p < 32768
    ensures p < 32768 ==> PackHeight(UnpackHeight(p)) == p
  {
    WrapSmall(p);
    TruncIs(UnpackHeight(p) * 128.0, ToInt16(p));
  }

  /** Packing undoes unpacking, up to the low field that carries nothing, for exactly the words whose
      height field is below 32768; for the others the cast to `uint16` is undefined. */
  lemma PositionWordRoundTrip(w: u64)
    ensures HeightFits(UnpackPosition(w).y) <==> Split(w).b < 32768
    ensures Split(w).b < 32768 ==>
            Split(PackPosition(UnpackPosition(w))) == Split(w).(d := 0)
    ensures Split(w).b < 32768 ==>
            (PackPosition(UnpackPosition(w)) == w <==> w % 65536 == 0)
  {
    hide CompressPosition, ExpandPosition, Word, UnpackHeight, HeightFits, PackHeight;
    var f := Split(w);
    HeightFieldRoundTrip(f.b);
    UnpackedCoordinates(w);
    CompressInvertsExpand(f.a);
    CompressInvertsExpand(f.c);
    if f.b < 32768 {
      SplitInvertsWord(f.(d := 0));
      WordInvertsSplit(w);
    }
  }

  /** A height that can be packed comes back within a step exactly if it is below 256: half of what the
      field could hold, because it is read back as a signed number.  From 256 on it comes back 512 lower. */
  lemma HeightRoundTripIff(y: real)
    requires HeightFits(y)
    ensures Distance(UnpackHeight(PackHeight(y)), y) < 1.0 / 128.0 <==> y < 256.0
    ensures y >= 256.0 ==> y - 512.0 - 1.0 / 128.0 < UnpackHeight(PackHeight(y)) <= y - 512.0
  {
    WrapSmall(PackHeight(y));
    TruncOf(y * 128.0);
  }

  /** What a position turns into on the way through a packet. */
  lemma PositionRoundTrip(v: Vec3)
    requires HeightFits(v.y)
    ensures var u := UnpackPosition(PackPosition(v));
            && u.x == ExpandPosition(CompressPosition(v.x))
            && u.y == UnpackHeight(PackHeight(v.y))
            && u.z == ExpandPosition(CompressPosition(v.z))
  {
    SplitInvertsWord(Fields(CompressPosition(v.x), PackHeight(v.y), CompressPosition(v.z), 0));
    UnpackedCoordinates(PackPosition(v));
  }

  // ---------------------------------------------------------------------------------------------
  // Rotations
  // ---------------------------------------------------------------------------------------------

  function YawCode(yaw: real): real { (yaw + PI) / (2.0 * PI) * 65535.0 }

  function PitchCode(pitch: real): real { (pitch + PI / 2.0) / PI * 65535.0 }

  predicate RotationFits(yaw: real, pitch: real) {
    FitsU16(YawCode(yaw)) && FitsU16(PitchCode(pitch))
  }

  function PackRotation(yaw: real, pitch: real): u32
    requires RotationFits(yaw, pitch)
  {
    Join(Trunc(YawCode(yaw)), Trunc(PitchCode(pitch)))
  }

  function UnpackYaw(p: u16): real { p as real / 65535.0 * (2.0 * PI) - PI }

  function UnpackPitch(p: u16): real { p as real / 65535.0 * PI - PI / 2.0 }

  lemma HighIsU16(w: u32)
    ensures 0 <= High(w) < 65536
  {
    HighOfSmall(w, 65536);
  }

  /** (yaw, pitch) */
  function UnpackRotation(w: u32): (real, real) {
    HighIsU16(w);
    (UnpackYaw(High(w)), UnpackPitch(Low(w)))
  }

  /** Packing is defined less than one step beyond a single turn of yaw (half a turn of pitch), and no
      further. */
  lemma RotationFitsIff(yaw: real, pitch: real)
    ensures RotationFits(yaw, pitch) <==>
            && -PI - 2.0 * PI / 65535.0 < yaw < PI + 2.0 * PI / 65535.0
            && -PI / 2.0 - PI / 65535.0 < pitch < PI / 2.0 + PI / 65535.0
  {
    YawFitsIff(yaw);
    PitchFitsIff(pitch);
  }

  lemma YawFitsIff(yaw: real)
    ensures FitsU16(YawCode(yaw)) <==> -PI - 2.0 * PI / 65535.0 < yaw < PI + 2.0 * PI / 65535.0
  {
    TruncOf(YawCode(yaw));
  }

  lemma PitchFitsIff(pitch: real)
    ensures FitsU16(PitchCode(pitch)) <==> -PI / 2.0 - PI / 65535.0 < pitch < PI / 2.0 + PI / 65535.0
  {
    TruncOf(PitchCode(pitch));
  }

  lemma CodesInvertUnpacking(y: u16, p: u16)
    ensures YawCode(UnpackYaw(y)) == y as real && PitchCode(UnpackPitch(p)) == p as real
  {
  }

  /** Every rotation word unpacks to angles that pack to the same word. */
  lemma RotationWordRoundTrip(w: u32)
    ensures var (yaw, pitch) := UnpackRotation(w);
            RotationFits(yaw, pitch) && PackRotation(yaw, pitch) == w
  {
    hide YawCode, PitchCode, UnpackYaw, UnpackPitch, Join, High, Low;
    HighIsU16(w);
    CodesInvertUnpacking(High(w), Low(w));
    JoinHighLow(w);
  }

  /** Angles come back less than a step lower, never higher. */
  lemma RotationError(yaw: real, pitch: real)
    requires -PI <= yaw <= PI && -PI / 2.0 <= pitch <= PI / 2.0
    ensures RotationFits(yaw, pitch)
    ensures var (yaw', pitch') := UnpackRotation(PackRotation(yaw, pitch));
            && yaw - 2.0 * PI / 65535.0 < yaw' <= yaw
            && pitch - PI / 65535.0 < pitch' <= pitch
  {
    RotationFitsIff(yaw, pitch);
    HighLowJoin(Trunc(YawCode(yaw)), Trunc(PitchCode(pitch)));
    TruncOf(YawCode(yaw));
    TruncOf(PitchCode(pitch));
  }

  // ---------------------------------------------------------------------------------------------
  // Velocity and speed
  // ---------------------------------------------------------------------------------------------

  predicate CentiFits(v: real) { FitsI16(v * 100.0) }

  function PackCenti(v: real): u16
    requires CentiFits(v)
  {
    Wrap(Trunc(v * 100.0))
  }

  function UnpackCenti(p: u16): real {
    ToInt16(p) as real / 100.0
  }

  predicate MotionFits(v: Vec3, speed: real) {
    CentiFits(v.x) && CentiFits(v.y) && CentiFits(v.z) && CentiFits(speed)
  }

  function PackVelocityAndSpeed(v: Vec3, speed: real): u64
    requires MotionFits(v, speed)
  {
    Word(Fields(PackCenti(v.x), PackCenti(v.y), PackCenti(v.z), PackCenti(speed)))
  }

  function UnpackVelocityAndSpeed(w: u64): (Vec3, real) {
    var f := Split(w);
    (Vec3(UnpackCenti(f.a), UnpackCenti(f.b), UnpackCenti(f.c)), UnpackCenti(f.d))
  }

  lemma CentiFieldRoundTrip(p: u16)
    ensures CentiFits(UnpackCenti(p)) && PackCenti(UnpackCenti(p)) == p
  {
    WrapSmall(p);
    TruncIs(UnpackCenti(p) * 100.0, ToInt16(p));
    SignedReadIsHarmless(p);
  }

  /** All four components of every velocity word survive. */
  lemma VelocityWordRoundTrip(w: u64)
    ensures var (v, speed) := UnpackVelocityAndSpeed(w);
            MotionFits(v, speed) && PackVelocityAndSpeed(v, speed) == w
  {
    hide Word, Split, CentiFits, PackCenti, UnpackCenti;
    var f := Split(w);
    CentiFieldRoundTrip(f.a);
    CentiFieldRoundTrip(f.b);
    CentiFieldRoundTrip(f.c);
    CentiFieldRoundTrip(f.d);
    WordInvertsSplit(w);
  }

  lemma CentiError(v: real)
    requires CentiFits(v)
    ensures Distance(UnpackCenti(PackCenti(v)), v) < 0.01
    ensures Distance(UnpackCenti(PackCenti(v)), 0.0) <= Distance(v, 0.0)
  {
    var n := Trunc(v * 100.0);
    ToInt16OfWrap(n);
    ToInt16OfSigned(n);
    TruncOf(v * 100.0);
  }

  /** Velocities and speeds that fit come back within a hundredth in every component, and never longer. */
  lemma VelocityError(v: Vec3, speed: real)
    requires MotionFits(v, speed)
    ensures var (v', speed') := UnpackVelocityAndSpeed(PackVelocityAndSpeed(v, speed));
            && Distance(v'.x, v.x) < 0.01 && Distance(v'.y, v.y) < 0.01 && Distance(v'.z, v.z) < 0.01
            && Distance(speed', speed) < 0.01
            && Distance(v'.x, 0.0) <= Distance(v.x, 0.0) && Distance(v'.y, 0.0) <= Distance(v.y, 0.0)
            && Distance(v'.z, 0.0) <= Distance(v.z, 0.0) && Distance(speed', 0.0) <= Distance(speed, 0.0)
  {
    hide CentiFits, PackCenti, UnpackCenti, Word, Split;
    SplitInvertsWord(Fields(PackCenti(v.x), PackCenti(v.y), PackCenti(v.z), PackCenti(speed)));
    CentiError(v.x);
    CentiError(v.y);
    CentiError(v.z);
    CentiError(speed);
  }

  // ---------------------------------------------------------------------------------------------
  // The formats in numbers
  // ---------------------------------------------------------------------------------------------

  /** The field at bit 48, 32, 16 or 0 of a word. */
  lemma FieldsOfWord(w: u64)
    ensures w == Split(w).a * 0x1_0000_0000_0000 + Split(w).b * 0x1_0000_0000 + Split(w).c * 0x1_0000 + Split(w).d
  {
    WordInvertsSplit(w);
    hide Split;
    WordIs(Split(w));
  }

  lemma WordIs(f: Fields)
    ensures Word(f) == f.a * 0x1_0000_0000_0000 + f.b * 0x1_0000_0000 + f.c * 0x1_0000 + f.d
  {
  }

  /** A world coordinate's code counts steps of 4096/65535 from -2048, and stands for the middle of its step. */
  lemma CoordinateFormat(v: real, p: u16)
    ensures ExpandPosition(p) == -2048.0 + (p as real + 0.5) * 4096.0 / 65535.0
    ensures CompressPosition(v) == p <==>
            && (p == 0 || -2048.0 + p as real * 4096.0 / 65535.0 <= v)
            && (p == 65535 || v < -2048.0 + (p as real + 1.0) * 4096.0 / 65535.0)
  {
    CompressPositionIs(v, p);
  }

  lemma SignedField(p: u16)
    ensures ToInt16(p) == if p < 32768 then p else p - 65536
  {
    WrapSmall(p);
  }

  lemma TruncNatural(x: real, n: nat)
    requires n as real <= x < n as real + 1.0
    ensures Trunc(x) == n
  {
  }

  /** x from bit 48, z from bit 16, both as world coordinates; height from bit 32, in 128ths. */
  lemma PositionFormat(v: Vec3, w: u64)
    ensures HeightFits(v.y) && w == PackPosition(v) ==>
              && w == CompressPosition(v.x) * 0x1_0000_0000_0000 + PackHeight(v.y) * 0x1_0000_0000
                    + CompressPosition(v.z) * 0x1_0000
              && (v.y >= 0.0 ==> PackHeight(v.y) as real <= v.y * 128.0 < PackHeight(v.y) as real + 1.0)
    ensures var u := UnpackPosition(w);
            && u.x == ExpandPosition(Split(w).a) && u.z == ExpandPosition(Split(w).c)
            && u.y == (if Split(w).b < 32768 then Split(w).b else Split(w).b - 65536) as real / 128.0
  {
    SignedField(Split(w).b);
    UnpackedCoordinates(w);
    hide CompressPosition, ExpandPosition, Split;
    if HeightFits(v.y) {
      WordIs(Fields(CompressPosition(v.x), PackHeight(v.y), CompressPosition(v.z), 0));
      TruncOf(v.y * 128.0);
    }
  }

  /** Yaw in the high half, in 65535ths of a turn from minus half a turn; pitch in the low half, in 65535ths of
      half a turn from straight down. */
  lemma RotationFormat(yaw: real, pitch: real, w: u32)
    ensures RotationFits(yaw, pitch) && w == PackRotation(yaw, pitch) ==>
              && w == Trunc((yaw + 3.1415927410125732421875) / 6.283185482025146484375 * 65535.0) * 0x1_0000
                    + Trunc((pitch + 1.57079637050628662109375) / 3.1415927410125732421875 * 65535.0)
    ensures UnpackRotation(w).0 == (w / 0x1_0000) as real / 65535.0 * 6.283185482025146484375 - 3.1415927410125732421875
    ensures UnpackRotation(w).1
         == (w % 0x1_0000) as real / 65535.0 * 3.1415927410125732421875 - 1.57079637050628662109375
  {
    HighIsU16(w);
    hide Trunc;
  }

  /** Velocity from bits 48, 32 and 16, speed in the low field, all signed hundredths. */
  lemma VelocityFormat(w: u64)
    ensures var (v, speed) := UnpackVelocityAndSpeed(w);
            var f := Split(w);
            && v.x * 100.0 == (if f.a < 32768 then f.a else f.a - 65536) as real
            && v.y * 100.0 == (if f.b < 32768 then f.b else f.b - 65536) as real
            && v.z * 100.0 == (if f.c < 32768 then f.c else f.c - 65536) as real
            && speed * 100.0 == (if f.d < 32768 then f.d else f.d - 65536) as real
  {
    var f := Split(w);
    hide Split;
    SignedField(f.a);
    SignedField(f.b);
    SignedField(f.c);
    SignedField(f.d);
  }

  /** Packing a velocity is defined exactly below 327.68 forwards and below 327.69 backwards, in every component
      and for the speed. */
  lemma MotionFitsIff(v: Vec3, speed: real)
    ensures MotionFits(v, speed) <==>
            && -327.69 < v.x < 327.68 && -327.69 < v.y < 327.68 && -327.69 < v.z < 327.68
            && -327.69 < speed < 327.68
  {
    TruncOf(v.x * 100.0);
    TruncOf(v.y * 100.0);
    TruncOf(v.z * 100.0);
    TruncOf(speed * 100.0);
  }
}
