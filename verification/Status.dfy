/** The two status words of src/overwitch.h and every locked section that changes the one the
    threads share. */
module Status {

  datatype EngineStatus = EsError | EsStop | EsReady | EsSteady | EsBoot | EsClear | EsWait | EsRun

  datatype ResamplerStatus = RsError | RsStop | RsReady | RsBoot | RsTune | RsRun | RsRetune

  /** The source compares statuses as integers. */
  function Level(s: EngineStatus): int {
    match s
    case EsError => -1
    case EsStop => 0
    case EsReady => 1
    case EsSteady => 2
    case EsBoot => 3
    case EsClear => 4
    case EsWait => 5
    case EsRun => 6
  }

  predicate Stopped(s: EngineStatus) {
    Level(s) <= Level(EsStop)
  }

  /** ow_engine_set_status: a stopped engine keeps its status. */
  function Guarded(current: EngineStatus, next: EngineStatus): EngineStatus {
    if Level(current) > Level(EsStop) then next else current
  }

  /** ow_engine_clear_buffers: only a running engine is asked to clear. */
  function ClearRequested(current: EngineStatus): EngineStatus {
    if current == EsRun then EsClear else current
  }

  /** The section before the loop of run_audio. */
  function BootEntered(current: EngineStatus): EngineStatus {
    if Stopped(current) then current else EsBoot
  }

  /** The section at the top of the loop of run_audio. */
  function TopLeft(current: EngineStatus, dll: bool): EngineStatus {
    if Stopped(current) then current
    else if !dll then EsRun
    else if current == EsClear then EsRun
    else if current == EsBoot then EsWait
    else current
  }

  /** The word itself, with the sections that update it in place. */
  class StatusWord {
    var status: EngineStatus

    constructor ()
      ensures status == EsStop
    {
      status := EsStop;
    }

    /** The one write that ignores the guard: it leaves EsStop. */
    method PublishReady()
      modifies this
      ensures status == EsReady
    {
      status := EsReady;
    }

    method Set(next: EngineStatus)
      modifies this
      ensures status == Guarded(old(status), next)
    {
      if Level(status) > Level(EsStop) {
        status := next;
      }
    }

    method RequestClear()
      modifies this
      ensures status == ClearRequested(old(status))
    {
      if status == EsRun {
        status := EsClear;
      }
    }

    method EnterBoot() returns (proceed: bool)
      modifies this
      ensures status == BootEntered(old(status)) && proceed == !Stopped(old(status))
    {
      if Level(status) <= Level(EsStop) {
        return false;
      }
      status := EsBoot;
      return true;
    }

    method LeaveTop(dll: bool) returns (proceed: bool)
      modifies this
      ensures status == TopLeft(old(status), dll) && proceed == !Stopped(old(status))
    {
      if Level(status) <= Level(EsStop) {
        return false;
      }

      if status == EsClear {
        status := EsRun;
      }

      if dll {
        if status == EsBoot {
          status := EsWait;
        }
      } else {
        status := EsRun;
      }
      return true;
    }
  }
}
