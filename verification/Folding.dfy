/**
 Folded invariants: a large invariant P is kept as "for all b, Unfolding(part, b) implies P".
 Until a proof mentions Unfolding for this part, the solver does not look inside.
 */
module Folding {

  /** The invariants that are kept folded. */
  datatype Part =
    | RulesPart | PortsPart | RedirectsPart | BridgesPart | QueuePart | ProgressPart
    | SubnetsPart | AddressesPart | SharesPart | SlicesPart | DealsPart | AgreementPart | UniformPart
    | SwitchPart | WholePart | RegistrationPart | MappingPart
    | DataPart | LogPart | HistoryPart | QuotaPart
    | RoundPart | SumPart | OrderPart | OwnersPart | ScanPart

  predicate Unfolding(part: Part, b: bool) {
    part == part && (b || !b)
  }
}
