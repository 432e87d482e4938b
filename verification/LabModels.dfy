/** The status of a lab and how it follows from what Kubernetes says about its pod. */
module LabModels {

  datatype PodPhase = PhasePending | PhaseRunning | PhaseSucceeded | PhaseFailed | PhaseUnknown

  datatype LabStatus = Pending | Running | Terminating | Terminated | Failed

  /** `LabStatus.from_phase` */
  function FromPhase(phase: PodPhase): LabStatus {
    match phase
    case PhasePending => Pending
    case PhaseRunning => Running
    case PhaseSucceeded => Terminated
    case PhaseFailed => Terminated
    case PhaseUnknown => Failed
  }

  /** `LabState.is_running` */
  predicate IsRunning(status: LabStatus) {
    !status.Terminated? && !status.Failed?
  }

  /** The phases of a pod that is over, or that Kubernetes has lost track of, are those of a lab that does not run. */
  lemma RunningPhases(phase: PodPhase)
    ensures IsRunning(FromPhase(phase)) <==> phase.PhasePending? || phase.PhaseRunning?
    ensures !FromPhase(phase).Terminating?
  {
  }

  /** The status that each phase stands for, and that no other stands for. */
  lemma PhaseTells(phase: PodPhase)
    ensures FromPhase(phase) == Pending <==> phase == PhasePending
    ensures FromPhase(phase) == Running <==> phase == PhaseRunning
    ensures FromPhase(phase) == Terminated <==> phase == PhaseSucceeded || phase == PhaseFailed
    ensures FromPhase(phase) == Failed <==> phase == PhaseUnknown
  {
  }
}
