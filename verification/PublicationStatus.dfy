/** The status of a publication: src/storage/workspace-publication-repo.ts. */
module PublicationStatus {
  datatype Status =
    | AwaitingApproval | Pending | Applying | Conflicted | Parked | Integrated | Denied
    | Cancelling | Cancelled | Uncertain

  /** `requestCancellation`: what is in flight is only asked to stop. */
  function AfterCancellation(status: Status): Status {
    match status
    case AwaitingApproval => Cancelled
    case Pending => Cancelled
    case Conflicted => Cancelled
    case Parked => Cancelled
    case Denied => Cancelled
    case Applying => Cancelling
    case Uncertain => Cancelling
    case _ => status
  }
}
