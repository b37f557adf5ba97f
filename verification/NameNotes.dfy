/** Name transitions, their terms and expiries, and the network facts they depend on. */
module NameNotes {
  import opened Basics

  datatype Action = Claim | Update | Release | Sale

  datatype Expiry = Never | At(time: Timestamp)

  /** A request term: no fixed end, or whole Julian years. */
  datatype Term = Forever | Years(n: nat)

  const MAX_TERM_YEARS: nat := 99

  /** A name transition; each action carries exactly its legal fields. */
  datatype NameNote =
    | ClaimNote(name: Name, ua: UnifiedAddress, expiresAt: Expiry)
    | UpdateNote(name: Name, ua: UnifiedAddress, expiresAt: Expiry, prev: Commitment)
    | ReleaseNote(name: Name, ua: UnifiedAddress, prev: Commitment)
    | SaleNote(name: Name, ua: UnifiedAddress, expiresAt: Expiry, prev: Commitment)
  {
    function Act(): Action {
      match this
      case ClaimNote(_, _, _) => Claim
      case UpdateNote(_, _, _, _) => Update
      case ReleaseNote(_, _, _) => Release
      case SaleNote(_, _, _, _) => Sale
    }

    function ExpiryOf(): Expiry {
      if ReleaseNote? then Never else expiresAt
    }

    function PrevOf(): Option<Commitment> {
      if ClaimNote? then None else Some(prev)
    }
  }

  /**
   The commitment function and the standard transaction expiry delta per
   height. Neither is assumed injective or monotone here.
   */
  datatype Network = Network(commit: NameNote -> Commitment, expiryDelta: Height -> nat)

  function Expired(e: Expiry, mtp: Timestamp): bool {
    e.At? && mtp >= e.time
  }

  function ClaimExpiry(t: Term, mtp: Timestamp): Expiry {
    match t
    case Forever => Never
    case Years(n) => At(mtp + n * LIVENESS_INTERVAL)
  }

  /** The farthest expiry the mint signs at `mtp`. */
  function Horizon(mtp: Timestamp): Timestamp {
    mtp + MAX_TERM_YEARS * LIVENESS_INTERVAL
  }

  /** Successor expiry of an update; `None` refuses it. */
  function Extend(e: Expiry, term: Option<Term>, mtp: Timestamp): Option<Expiry> {
    if e.Never? && term.Some? then None
    else
      var extended :=
        if term.None? then e
        else if term.value.Forever? then Never
        else At(e.time + term.value.n * LIVENESS_INTERVAL);
      if extended.At? && extended.time > Horizon(mtp) then None else Some(extended)
  }

  predicate WithinHorizon(e: Expiry, mtp: Timestamp) {
    e.At? ==> e.time <= Horizon(mtp)
  }
}
