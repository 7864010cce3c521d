/**
 * The device control pane's own state: the collapsed header, the orientation
 * label, the rotation lock and the angles it asks the device to rotate to.
 * The device's reported rotation is `None` when there is no device (or no
 * display) in scope.
 */
module DeviceControl {
  import opened Wrappers
  import opened Text

  // ---------------------------------------------------------------------------
  // Orientation
  // ---------------------------------------------------------------------------

  /** `isPortrait(val)`: the value, or the device's rotation when no value is given, is 0 or 180. */
  predicate IsPortrait(val: Option<int>) {
    val == Some(0) || val == Some(180)
  }

  /** `isLandscape(val)`: the value is 90 or 270. */
  predicate IsLandscape(val: Option<int>) {
    val == Some(90) || val == Some(270)
  }

  /** `value` when given, the device's rotation otherwise. */
  function ValueOrDevice(val: Option<int>, deviceRotation: Option<int>): (v: Option<int>)
    ensures val.Some? ==> v == val
    ensures val.None? ==> v == deviceRotation
  {
    if val.Some? then val else deviceRotation
  }

  predicate QuarterTurn(a: int) {
    a == 0 || a == 90 || a == 180 || a == 270
  }

  /** The two tests never both hold, and each of the four angles passes exactly one of them. */
  lemma OrientationsPartition(v: Option<int>)
    ensures !(IsPortrait(v) && IsLandscape(v))
    ensures IsPortrait(v) || IsLandscape(v) <==> v.Some? && QuarterTurn(v.value)
  {
  }

  /** The orientation label after the device reports `v`: changed only by one of the four angles. */
  function RotationLabel(current: string, v: Option<int>): (shown: string)
    ensures IsPortrait(v) ==> shown == "portrait"
    ensures IsLandscape(v) ==> shown == "landscape"
    ensures !(v.Some? && QuarterTurn(v.value)) ==> shown == current
  {
    if IsPortrait(v) then "portrait" else if IsLandscape(v) then "landscape" else current
  }

  // ---------------------------------------------------------------------------
  // Rotating by a quarter turn
  // ---------------------------------------------------------------------------

  /** The angle `rotateLeft` asks for: a missing device counts as 0, and 0 wraps to 270. */
  function RotateLeftAngle(deviceRotation: Option<int>): (angle: int)
    ensures deviceRotation.None? ==> angle == 270
    ensures deviceRotation.Some? && deviceRotation.value != 0 ==> angle == deviceRotation.value - 90
  {
    var a := if deviceRotation.Some? then deviceRotation.value else 0;
    if a == 0 then 270 else a - 90
  }

  /** The angle `rotateRight` asks for: a missing device counts as 0, and 270 wraps to 0. */
  function RotateRightAngle(deviceRotation: Option<int>): (angle: int)
    ensures deviceRotation.None? ==> angle == 90
    ensures deviceRotation.Some? && deviceRotation.value != 270 ==> angle == deviceRotation.value + 90
  {
    var a := if deviceRotation.Some? then deviceRotation.value else 0;
    if a == 270 then 0 else a + 90
  }

  /** On the four angles both rotations stay among them, agree with a quarter turn modulo 360, and undo each other. */
  lemma RotationsAreInverse(a: int)
    requires QuarterTurn(a)
    ensures QuarterTurn(RotateLeftAngle(Some(a))) && QuarterTurn(RotateRightAngle(Some(a)))
    ensures RotateLeftAngle(Some(a)) == (a + 270) % 360
    ensures RotateRightAngle(Some(a)) == (a + 90) % 360
    ensures RotateRightAngle(Some(RotateLeftAngle(Some(a)))) == a
    ensures RotateLeftAngle(Some(RotateRightAngle(Some(a)))) == a
  {
  }

  /** Four right turns come back to the start; a missing device starts from 0. */
  lemma {:induction false} FourTurnsIdentity(a: int)
    requires QuarterTurn(a)
    ensures var r1 := RotateRightAngle(Some(a));
      var r2 := RotateRightAngle(Some(r1));
      var r3 := RotateRightAngle(Some(r2));
      RotateRightAngle(Some(r3)) == a
  {
    var r1 := RotateRightAngle(Some(a));
    RotationsAreInverse(a);
    var r2 := RotateRightAngle(Some(r1));
    RotationsAreInverse(r1);
    RotationsAreInverse(r2);
  }

  /** Any other reported angle is still moved by 90 in the asked direction: nothing snaps it back onto a quarter turn. */
  lemma OffGridAnglesDrift(a: int)
    requires a != 0 && a != 270
    ensures RotateLeftAngle(Some(a)) == a - 90 && RotateRightAngle(Some(a)) == a + 90
  {
  }

  /** `tryToRotate`: the angle asked for, 0 for portrait and 90 for landscape, nothing for anything else. */
  function RequestedAngle(rotation: string): (angle: Option<int>)
    ensures angle.Some? <==> rotation == "portrait" || rotation == "landscape"
    ensures angle.Some? ==> (IsPortrait(angle) <==> rotation == "portrait")
  {
    if rotation == "portrait" then Some(0) else if rotation == "landscape" then Some(90) else None
  }

  /** The check 400 ms after `tryToRotate`: when the device still shows the other orientation, the label follows it. */
  function LabelAfterTry(current: string, rotation: string, deviceRotation: Option<int>): (shown: string)
    ensures rotation == "portrait" && IsLandscape(deviceRotation) ==> shown == "landscape"
    ensures rotation == "landscape" && IsPortrait(deviceRotation) ==> shown == "portrait"
    ensures shown != current ==> shown == "portrait" || shown == "landscape"
  {
    if rotation == "portrait" && IsLandscape(deviceRotation) then "landscape"
    else if rotation == "landscape" && IsPortrait(deviceRotation) then "portrait"
    else current
  }

  // ---------------------------------------------------------------------------
  // Rotation lock
  // ---------------------------------------------------------------------------

  const LockSetting: string := "accelerometer_rotation"

  /** `accelerometer_rotation` 0 means auto-rotation is off: locked exactly when the trimmed output is `0`. */
  function ParseLocked(output: Option<string>): (locked: bool)
    ensures output.None? ==> !locked
    ensures locked <==> output.Some? && Trim(output.value) == "0"
  {
    var value := if output.Some? then Trim(output.value) else "";
    value == "0"
  }

  /** The value a toggle writes: `1` (auto-rotate) to unlock, `0` to lock. */
  function ToggleValue(locked: bool): (value: string)
    ensures value == "0" <==> !locked
  {
    if locked then "1" else "0"
  }

  /** Reading the setting back after a toggle's write gives the flipped flag. */
  lemma ToggleThenReadAgrees(locked: bool)
    ensures ParseLocked(Some(ToggleValue(locked))) == !locked
  {
    var value := ToggleValue(locked);
    assert |value| == 1 && !IsSpace(value[0]);
    TrimOfTrimmed(value);
  }

  /** The shell commands that read and write the setting. */
  function ReadLockCommand(): string {
    "settings get system " + LockSetting
  }

  function WriteLockCommand(locked: bool): (command: string)
    ensures command == "settings put system " + LockSetting + " " + ToggleValue(locked)
  {
    "settings put system " + LockSetting + " " + ToggleValue(locked)
  }

  // ---------------------------------------------------------------------------
  // The pane's state
  // ---------------------------------------------------------------------------

  class ControlPane {
    var deviceHeaderCollapsed: bool
    /** The header flag as last written to local storage, which stores text. */
    var storedHeaderCollapsed: Option<string>
    var currentRotation: string
    var rotationLocked: bool
    /** The angles sent to the device, oldest first. */
    var rotateRequests: seq<int>
    /** The shell commands sent to the device, oldest first. */
    var shellCommands: seq<string>

    /** Every label the pane can show, and local storage holding the flag it stands for. */
    predicate Valid()
      reads this
    {
      && (currentRotation == "portrait" || currentRotation == "landscape")
      && (storedHeaderCollapsed.Some? ==> storedHeaderCollapsed.value == (if deviceHeaderCollapsed then "true" else "false"))
    }

    constructor()
      ensures !deviceHeaderCollapsed && storedHeaderCollapsed.None?
      ensures currentRotation == "portrait" && !rotationLocked
      ensures rotateRequests == [] && shellCommands == []
      ensures Valid()
    {
      deviceHeaderCollapsed := false;
      storedHeaderCollapsed := None;
      currentRotation := "portrait";
      rotationLocked := false;
      rotateRequests := [];
      shellCommands := [];
    }

    method ToggleDeviceHeader()
      requires Valid()
      modifies this
      ensures deviceHeaderCollapsed == !old(deviceHeaderCollapsed)
      ensures storedHeaderCollapsed == Some(if deviceHeaderCollapsed then "true" else "false")
      ensures currentRotation == old(currentRotation) && rotationLocked == old(rotationLocked)
      ensures rotateRequests == old(rotateRequests) && shellCommands == old(shellCommands)
      ensures Valid()
    {
      deviceHeaderCollapsed := !deviceHeaderCollapsed;
      storedHeaderCollapsed := Some(if deviceHeaderCollapsed then "true" else "false");
    }

    /** Collapses the header whatever its state, so doing it twice is doing it once. */
    method ToggleFullscreen()
      requires Valid()
      modifies this
      ensures deviceHeaderCollapsed && storedHeaderCollapsed == Some("true")
      ensures currentRotation == old(currentRotation) && rotationLocked == old(rotationLocked)
      ensures rotateRequests == old(rotateRequests) && shellCommands == old(shellCommands)
      ensures Valid()
    {
      deviceHeaderCollapsed := true;
      storedHeaderCollapsed := Some("true");
    }

    /** The watch on the device's rotation. */
    method OnRotationChanged(newValue: Option<int>)
      requires Valid()
      modifies this
      ensures currentRotation == RotationLabel(old(currentRotation), newValue)
      ensures deviceHeaderCollapsed == old(deviceHeaderCollapsed) && storedHeaderCollapsed == old(storedHeaderCollapsed)
      ensures rotationLocked == old(rotationLocked)
      ensures rotateRequests == old(rotateRequests) && shellCommands == old(shellCommands)
      ensures Valid()
    {
      if IsPortrait(newValue) {
        currentRotation := "portrait";
      } else if IsLandscape(newValue) {
        currentRotation := "landscape";
      }
    }

    method RotateLeft(deviceRotation: Option<int>)
      modifies this
      ensures rotateRequests == old(rotateRequests) + [RotateLeftAngle(deviceRotation)]
      ensures deviceHeaderCollapsed == old(deviceHeaderCollapsed) && storedHeaderCollapsed == old(storedHeaderCollapsed)
      ensures currentRotation == old(currentRotation) && rotationLocked == old(rotationLocked)
      ensures shellCommands == old(shellCommands)
    {
      var angle := 0;
      if deviceRotation.Some? {
        angle := deviceRotation.value;
      }
      if angle == 0 {
        angle := 270;
      } else {
        angle := angle - 90;
      }
      rotateRequests := rotateRequests + [angle];
    }

    method RotateRight(deviceRotation: Option<int>)
      modifies this
      ensures rotateRequests == old(rotateRequests) + [RotateRightAngle(deviceRotation)]
      ensures deviceHeaderCollapsed == old(deviceHeaderCollapsed) && storedHeaderCollapsed == old(storedHeaderCollapsed)
      ensures currentRotation == old(currentRotation) && rotationLocked == old(rotationLocked)
      ensures shellCommands == old(shellCommands)
    {
      var angle := 0;
      if deviceRotation.Some? {
        angle := deviceRotation.value;
      }
      if angle == 270 {
        angle := 0;
      } else {
        angle := angle + 90;
      }
      rotateRequests := rotateRequests + [angle];
    }

    /**
     * `tryToRotate` followed by its 400 ms check, with the device's rotation at
     * that moment as a parameter.
     */
    method TryToRotate(rotation: string, laterRotation: Option<int>)
      requires Valid()
      modifies this
      ensures rotateRequests == old(rotateRequests) + (if RequestedAngle(rotation).Some? then [RequestedAngle(rotation).value] else [])
      ensures currentRotation == LabelAfterTry(old(currentRotation), rotation, laterRotation)
      ensures deviceHeaderCollapsed == old(deviceHeaderCollapsed) && storedHeaderCollapsed == old(storedHeaderCollapsed)
      ensures rotationLocked == old(rotationLocked) && shellCommands == old(shellCommands)
      ensures Valid()
    {
      if rotation == "portrait" {
        rotateRequests := rotateRequests + [0];
        if IsLandscape(laterRotation) {
          currentRotation := "landscape";
        }
      } else if rotation == "landscape" {
        rotateRequests := rotateRequests + [90];
        if IsPortrait(laterRotation) {
          currentRotation := "portrait";
        }
      }
    }

    /**
     * Reading the lock state: nothing without a shell; a failed read (`output`
     * of `None` in `result`) leaves the flag alone.
     */
    method ReadRotationLock(hasShell: bool, result: Option<Option<string>>)
      requires Valid()
      modifies this
      ensures shellCommands == old(shellCommands) + (if hasShell then [ReadLockCommand()] else [])
      ensures rotationLocked == if hasShell && result.Some? then ParseLocked(result.value) else old(rotationLocked)
      ensures deviceHeaderCollapsed == old(deviceHeaderCollapsed) && storedHeaderCollapsed == old(storedHeaderCollapsed)
      ensures currentRotation == old(currentRotation) && rotateRequests == old(rotateRequests)
      ensures Valid()
    {
      if hasShell {
        shellCommands := shellCommands + [ReadLockCommand()];
        if result.Some? {
          var value := if result.value.Some? then Trim(result.value.value) else "";
          rotationLocked := value == "0";
        }
      }
    }

    /** Toggling the lock: the write asks for the opposite state, and the flag flips only when the write succeeds. */
    method ToggleRotationLock(hasShell: bool, succeeded: bool)
      requires Valid()
      modifies this
      ensures shellCommands == old(shellCommands) + (if hasShell then [WriteLockCommand(old(rotationLocked))] else [])
      ensures rotationLocked == if hasShell && succeeded then !old(rotationLocked) else old(rotationLocked)
      ensures deviceHeaderCollapsed == old(deviceHeaderCollapsed) && storedHeaderCollapsed == old(storedHeaderCollapsed)
      ensures currentRotation == old(currentRotation) && rotateRequests == old(rotateRequests)
      ensures Valid()
    {
      if hasShell {
        var newValue := if rotationLocked then "1" else "0";
        shellCommands := shellCommands + ["settings put system " + LockSetting + " " + newValue];
        if succeeded {
          rotationLocked := !rotationLocked;
        }
      }
    }
  }
}
