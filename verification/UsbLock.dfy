/** The USB lock of usb_processing.c. */
module UsbLock {
  import opened Device

  function Lock(s: Sys, ctx: Owner): Result<Sys>
    requires ctx != Free
  {
    if s.owner != Free then Abort(LockWhileLocked) else Ok(s.(owner := ctx))
  }

  function Unlock(s: Sys): Result<Sys> {
    if s.owner == Free then Abort(UnlockWhileFree) else Ok(s.(owner := Free))
  }
}
