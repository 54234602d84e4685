/** The results that the public calls report (`bound_public_results.cpp`). */
module PublicResults {
  import Client
  import Session

  datatype Result =
    | Ok
    | Busy
    | Retry
    | InvalidArgument
    | InvalidState
    | InvalidResponse
    | OnlineRequired
    | EnrollmentRequired
    | Refused
    | Conflict
    | ProviderError
    | StorageError
    | Cancelled
    | InternalError

  function ResultOfDecision(status: Session.Status): (result: Result)
    ensures result == Ok <==> status == Session.Ok
    ensures result == Refused <==> status == Session.Denied
    ensures result == OnlineRequired <==> status == Session.OnlineRequired
    ensures result == InvalidResponse <==> status == Session.InvalidResponse
    ensures result == ProviderError <==> status == Session.ProviderError
    ensures result == Conflict <==> status == Session.Conflict
    ensures result == InvalidState <==> status == Session.NoPending
    ensures result == InternalError <==> status == Session.InternalError
  {
    match status
    case Ok => Ok
    case OnlineRequired => OnlineRequired
    case InvalidResponse => InvalidResponse
    case NoPending => InvalidState
    case Denied => Refused
    case ProviderError => ProviderError
    case InternalError => InternalError
    case Conflict => Conflict
  }

  /** A decision of the session is reported the same whether it comes through a renewal or directly. */
  function ResultOfRenewal(status: Client.RenewStatus): (result: Result)
    ensures forall decided | Client.SessionResult(decided) == status :: result == ResultOfDecision(decided)
    ensures result == Ok <==> status == Client.RenewStatus.Accepted
    ensures result == Retry <==> status == Client.RenewStatus.Retry
    ensures result == Refused <==> status == Client.RenewStatus.Denied
    ensures result == Conflict <==> status == Client.RenewStatus.Conflict
    ensures result == EnrollmentRequired <==> status == Client.RenewStatus.EnrollmentRequired
    ensures result == OnlineRequired <==>
              status == Client.RenewStatus.RenewalRequired
              || status == Client.RenewStatus.SessionError(Session.OnlineRequired)
    ensures result == InvalidState <==>
              status == Client.RenewStatus.Rejected || status == Client.RenewStatus.SessionError(Session.NoPending)
    ensures result == InvalidResponse <==>
              status == Client.RenewStatus.InvalidResponse
              || status == Client.RenewStatus.SessionError(Session.InvalidResponse)
    ensures result !in {Busy, Cancelled}
  {
    match status
    case Accepted => Ok
    case Retry => Retry
    case Conflict => Conflict
    case Rejected => InvalidState
    case Denied => Refused
    case InvalidResponse => InvalidResponse
    case InternalError => InternalError
    case EnrollmentRequired => EnrollmentRequired
    case RenewalRequired => OnlineRequired
    case SessionError(reason) => ResultOfDecision(reason)
  }
}
