/** The user confirmation of a U2F request (u2f_app.c over workflow.rs). */
module U2fApp {
  import opened Device

  datatype AsyncResult = OpFalse | OpTrue | OpNotReady

  function ConfirmStart(s: Sys, kind: Confirm, appId: AppId): Result<Sys> {
    if kind == NoConfirm then Abort(ConfirmKindUnknown)
    else
      Ok(s.(app := App(kind, appId), confirm := Pending,
            confirmId := |s.log|, log := s.log + [Started(kind, appId)]))
  }

  function ConfirmRetry(s: Sys, kind: Confirm, appId: AppId): Result<(Sys, AsyncResult)> {
    if s.app.outstanding != kind || appId != s.app.appId then Abort(ConfirmArbitration)
    else if !s.confirm.Done? then Ok((s, OpNotReady))
    else
      Ok((s.(confirm := NoWorkflow, app := s.app.(outstanding := NoConfirm)),
          if s.confirm.ok then OpTrue else OpFalse))
  }

  /** `rust_workflow_abort_current` drops both workflows. */
  function AbortCurrent(s: Sys): Sys {
    s.(unlock := NoWorkflow, confirm := NoWorkflow)
  }

  function ConfirmAbort(s: Sys): Result<Sys> {
    if s.app.outstanding == NoConfirm then Abort(ConfirmAbortWithoutStart)
    else Ok(AbortCurrent(s).(app := s.app.(outstanding := NoConfirm)))
  }
}
