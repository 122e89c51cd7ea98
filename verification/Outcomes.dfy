/** What a request ends with, and what request-scoped teardown is told about it. */
module Outcomes {
  /** An erased value: providers, inputs and handlers exchange these without looking inside. */
  type Value = int

  datatype DependencyError = RejectedWith(status: nat, code: string) | Internal(code: string)

  datatype ExecutionOutcome =
    | Success(status: nat, body: Value)
    | StreamingSuccess(status: nat, body: Value)
    | Upgrade(protocol: Value)
    | Rejected(status: nat, code: string)
    | DomainError(status: nat, code: string)
    | InternalError(code: string)

  datatype RequestOutcome = Succeeded | Failed(status: nat, code: string)

  datatype Abort = Cancelled | TimedOut

  const ASYNC_RUNNER_CODE := "async_singleton_provider"
  const INVALID_SLOT := "invalid_dependency_slot"

  /** `ExecutionOutcome::request_outcome`. */
  function Told(outcome: ExecutionOutcome): RequestOutcome {
    match outcome
    case Success(_, _) => Succeeded
    case StreamingSuccess(_, _) => Succeeded
    case Upgrade(_) => Succeeded
    case Rejected(status, code) => Failed(status, code)
    case DomainError(status, code) => Failed(status, code)
    case InternalError(code) => Failed(500, code)
  }

  /** `dependency_request_outcome`. */
  function ToldOfError(error: DependencyError): RequestOutcome {
    match error
    case RejectedWith(status, code) => Failed(status, code)
    case Internal(code) => Failed(500, code)
  }

  /** `dependency_error_outcome`. */
  function ErrorAnswer(error: DependencyError): ExecutionOutcome {
    match error
    case RejectedWith(status, code) => DomainError(status, code)
    case Internal(code) => InternalError(code)
  }

  /** `InvocationAbort::request_outcome`. */
  function ToldOfAbort(abort: Abort): RequestOutcome {
    match abort
    case Cancelled => Failed(499, "invocation_cancelled")
    case TimedOut => Failed(504, "invocation_timeout")
  }

  /** `InvocationAbort::into_execution_outcome`. */
  function AbortAnswer(abort: Abort): ExecutionOutcome {
    match abort
    case Cancelled => Rejected(499, "invocation_cancelled")
    case TimedOut => Rejected(504, "invocation_timeout")
  }

  /** Teardown that runs before the answer is built is told the same as the answer says. */
  lemma TeardownToldTheAnswer()
    ensures forall error: DependencyError :: Told(ErrorAnswer(error)) == ToldOfError(error)
    ensures forall abort: Abort :: Told(AbortAnswer(abort)) == ToldOfAbort(abort)
  {
  }
}
