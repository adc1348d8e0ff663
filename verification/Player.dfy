/** The local player object (DummyClient/Player.cpp). */
module Player {

  import opened Bits32
  import opened Vectors
  import opened TransformCompressor
  import opened Prediction

  class Player {
    const maths: Maths
    var position: Vec3
    var velocity: Vec3
    var moveSpeed: real
    var yaw: real
    var pitch: real
    var renderPosition: Vec3
    var renderVelocity: Vec3
    var renderYaw: real
    var renderPitch: real
    var pendingInputs: seq<Input>
    var lastSequenceNumber: u32

    function Contents(): State
      reads this
    {
      State(position, velocity, moveSpeed, yaw, pitch, renderPosition, renderVelocity, renderYaw, renderPitch,
            pendingInputs, lastSequenceNumber)
    }

    constructor (m: Maths)
      ensures maths == m && Contents() == Start()
    {
      maths := m;
      position, velocity, renderPosition, renderVelocity := ZERO, ZERO, ZERO, ZERO;
      moveSpeed, yaw, pitch, renderYaw, renderPitch := 0.0, 0.0, 0.0, 0.0, 0.0;
      pendingInputs, lastSequenceNumber := [], 0;
    }

    /** What the spawn packet says. */
    method SetTransform(spawn: Report)
      modifies this`position, this`velocity, this`moveSpeed, this`yaw, this`pitch
      ensures Contents() == Receive(old(Contents()), spawn)
    {
      ReceiveReport(spawn);
    }

    /** `captured.timestamp` is zero when nothing has changed since the last input. */
    method Update(captured: Input)
      modifies this
      ensures Contents() == Prediction.Update(maths, old(Contents()), captured)
    {
      hide Velocity, Prediction.ApplyInput;
      if captured.timestamp != 0.0 {
        var input := PushInput(captured);
        ApplyInput(input);
      }
    }

    /** The half of `Update` before `ApplyInput`; it takes no lock. */
    method PushInput(captured: Input) returns (input: Input)
      modifies this`pendingInputs, this`lastSequenceNumber
      ensures Contents() == Prediction.Push(old(Contents()), captured)
      ensures input == Numbered(old(Contents()), captured)
    {
      input := captured.(sequence := lastSequenceNumber);
      lastSequenceNumber := (lastSequenceNumber + 1) % WRAP;
      pendingInputs := pendingInputs + [input];
    }

    method ApplyInput(input: Input)
      modifies this`renderVelocity, this`renderPosition
      ensures Contents() == Prediction.ApplyInput(maths, old(Contents()), input)
    {
      hide Velocity;
      ProcessKeyField(input.keyField);
      renderPosition := Plus(renderPosition, Scale(renderVelocity, LOGIC_TICK_INTERVAL));
    }

    method ProcessKeyField(keyField: bv32)
      modifies this`renderVelocity
      ensures renderVelocity == Velocity(maths, DriveOf(old(Contents())), keyField)
    {
      hide Normalize, Rotate, LengthSquared;
      var dx, dz := 0.0, 0.0;
      if BitAt(keyField, 0) { dz := 1.0; }
      if BitAt(keyField, 1) { dz := -1.0; }
      if BitAt(keyField, 2) { dx := 1.0; }
      if BitAt(keyField, 3) { dx := -1.0; }
      var dir := Vec3(dx, 0.0, dz);
      assert dir == Direction(keyField);
      if LengthSquared(dir) > 0.0 {
        dir := Normalize(maths, dir);
      }
      var rotated := Rotate(maths, dir, -yaw);
      renderVelocity := renderVelocity.(x := rotated.x * moveSpeed);
      renderVelocity := renderVelocity.(z := rotated.z * moveSpeed);
    }

    /** Takes over the reported state, corrects what is rendered, and replays and forgets inputs. */
    method Reconcile(r: Report, ack: u32)
      modifies this
      ensures Contents() == Prediction.Reconcile(maths, old(Contents()), r, ack)
    {
      hide Replay, Unacked, CorrectedPosition, LerpAngle, UnpackPosition, UnpackRotation,
           UnpackVelocityAndSpeed;
      ReceiveReport(r);
      CorrectPosition();
      CorrectAngles();
      assert Contents() == Correct(Receive(old(Contents()), r));
      ReplayUnacknowledged(ack);
      ForgetAcknowledged(ack);
    }

    method ReplayUnacknowledged(ack: u32)
      modifies this`renderVelocity, this`renderPosition
      ensures Contents() == Replay(maths, old(Contents()), pendingInputs, ack)
    {
      hide Prediction.ApplyInput;
      for i := 0 to |pendingInputs|
        invariant Replay(maths, Contents(), pendingInputs[i..], ack)
               == Replay(maths, old(Contents()), pendingInputs, ack)
      {
        assert pendingInputs[i..][1..] == pendingInputs[i + 1..];
        if pendingInputs[i].sequence > ack {
          ApplyInput(pendingInputs[i]);
        }
      }
    }

    method ReceiveReport(r: Report)
      modifies this`position, this`velocity, this`moveSpeed, this`yaw, this`pitch
      ensures Contents() == Receive(old(Contents()), r)
    {
      position := UnpackPosition(r.position);
      var motion := UnpackVelocityAndSpeed(r.velocitySpeed);
      velocity, moveSpeed := motion.0, motion.1;
      var angles := UnpackRotation(r.rotation);
      yaw, pitch := angles.0, angles.1;
    }

    method CorrectPosition()
      modifies this`renderPosition
      ensures renderPosition == CorrectedPosition(old(Contents()))
    {
      var delta := Minus(position, renderPosition);
      if LengthSquared(delta) > SMOOTH_THRESHOLD * SMOOTH_THRESHOLD {
        renderPosition := position;
      } else {
        var error := Minus(position, Quantized(position));
        renderPosition := Plus(renderPosition, error);
        renderPosition := Lerp(renderPosition, position, SMOOTH_FACTOR);
      }
    }

    method CorrectAngles()
      modifies this`renderYaw, this`renderPitch
      ensures var s := old(Contents());
              && renderYaw == (if TurnedTooFar(s) then s.yaw else LerpAngle(s.renderYaw, s.yaw, SMOOTH_FACTOR))
              && renderPitch == (if TurnedTooFar(s) then s.pitch else LerpReal(s.renderPitch, s.pitch, SMOOTH_FACTOR))
    {
      var yawDiff, pitchDiff := Distance(yaw, renderYaw), Distance(pitch, renderPitch);
      if yawDiff > 1.0 || pitchDiff > 1.0 {
        renderYaw, renderPitch := yaw, pitch;
      } else {
        renderYaw := LerpAngle(renderYaw, yaw, SMOOTH_FACTOR);
        renderPitch := LerpReal(renderPitch, pitch, SMOOTH_FACTOR);
      }
    }

    /** `std::erase_if` over the acknowledged inputs. */
    method ForgetAcknowledged(ack: u32)
      modifies this`pendingInputs
      ensures pendingInputs == Unacked(old(pendingInputs), ack)
    {
      hide Unacked;
      var kept: seq<Input> := [];
      NoneLeft(pendingInputs, ack);
      for i := 0 to |pendingInputs|
        invariant pendingInputs == old(pendingInputs)
        invariant kept + Unacked(pendingInputs[i..], ack) == Unacked(pendingInputs, ack)
      {
        KeepsOneMore(kept, pendingInputs, i, ack);
        if pendingInputs[i].sequence > ack {
          kept := kept + [pendingInputs[i]];
        }
      }
      NoneLeft(pendingInputs, ack);
      pendingInputs := kept;
    }
  }

  lemma KeepsOneMore(kept: seq<Input>, inputs: seq<Input>, i: nat, ack: u32)
    requires i < |inputs|
    ensures kept + Unacked(inputs[i..], ack) ==
            (if inputs[i].sequence > ack then kept + [inputs[i]] else kept) + Unacked(inputs[i + 1..], ack)
  {
    assert inputs[i..][1..] == inputs[i + 1..];
  }

  lemma NoneLeft(inputs: seq<Input>, ack: u32)
    ensures Unacked(inputs[|inputs|..], ack) == [] && inputs[0..] == inputs
  {
  }
}
