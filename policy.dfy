/** What the scheduler tells a policy and what a policy advises
  * (kernel/src/scheduling/policy.rs).  Durations are whole nanoseconds. */
module Policy {
  import opened Common
  import opened RoundRobin

  /** `PolicyInformation`: scheduled out after running for a duration (and
    * whether it now waits), done waiting, or started running. */
  datatype Information =
    | ScheduledOut(ran: nat, trigger: SwitchTrigger, waiting: bool)
    | DoneWaiting
    | StartRunning

  /** `PolicyAdvice`: the process to run, for how long, and the triggers
    * that may stop it (`SwitchCondition` as the set of its triggers). */
  datatype Advice = Advice(processId: u64, runtime: Option<nat>, stopCondition: set<SwitchTrigger>)
}
