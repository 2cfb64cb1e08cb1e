/**
 * The camera stage (src/systems/tick_systems/camera_move_system.rs).
 *
 * Each held arrow key pans the camera by a fixed number of pixels per tick.
 */
module CameraMoveSystem {
  import opened Resources

  /** Pixels the camera pans per tick while a key is held. */
  const KeyboardMoveSpeed: int := 8

  /** 1 for a held key, 0 otherwise. */
  function Held(b: bool): int
  {
    if b then 1 else 0
  }

  /**
   * `camera_move`: right and down add the speed to `left` and `top`, left
   * and up subtract it. Opposite keys held together cancel, so an axis
   * stays put exactly when both or neither of its keys are held. The keys
   * are only read.
   */
  method CameraMove(keys: KeysPressed, camera: TdCamera) returns (camera': TdCamera)
    ensures camera'.left == camera.left + KeyboardMoveSpeed * (Held(keys.right) - Held(keys.left))
    ensures camera'.top == camera.top + KeyboardMoveSpeed * (Held(keys.down) - Held(keys.up))
    ensures keys.left == keys.right <==> camera'.left == camera.left
    ensures keys.up == keys.down <==> camera'.top == camera.top
  {
    camera' := camera;
    if keys.right {
      camera' := camera'.(left := camera'.left + KeyboardMoveSpeed);
    }
    if keys.left {
      camera' := camera'.(left := camera'.left - KeyboardMoveSpeed);
    }
    if keys.up {
      camera' := camera'.(top := camera'.top - KeyboardMoveSpeed);
    }
    if keys.down {
      camera' := camera'.(top := camera'.top + KeyboardMoveSpeed);
    }
  }
}
