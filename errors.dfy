/** The errors the repositories and services return. A Go `error` becomes a value of `Error`;
    `nil` becomes `None` in an `Option<Error>`. Texts are those of the source. */
module Errors {
  import CL = CreditLimitEntity
  import TE = TransactionEntity

  datatype Error =
    /** `gorm.ErrRecordNotFound`: `First` matched no row. */
    | RecordNotFound
    /** The database refuses an insert whose primary key is already taken. */
    | DuplicateKey
    /** gorm refuses to insert an empty batch of rows ("empty slice found"). */
    | EmptySlice
    /** An error made from a fixed text. */
    | Message(text: string)
    /** "insufficient credit limit: available %.2f, requested %.2f". */
    | Insufficient(available: real, requested: real)
    /** "validation failed: " followed by the messages joined with "||". */
    | ValidationFailed(messages: seq<string>)
    /** One of the coded credit-limit errors. */
    | CreditLimitFailure(limitError: CL.CreditLimitError)
    /** One of the coded transaction errors. */
    | TransactionFailure(transactionError: TE.TransactionError)
    /** "no credit limit found for tenor %d months". */
    | NoCreditLimitForTenor(tenorMonth: int)
    /** "cannot delete asset: asset is used in %d transactions". */
    | AssetInUse(count: nat)
    /** "customer with NIK %s already exists". */
    | DuplicateNik(nik: string)
    /** "document type %s already exists for customer". */
    | DuplicateDocument(documentType: string)
    /** `fmt.Errorf("<context>: %w", cause)`. */
    | Wrapped(context: string, cause: Error)

  /** The result of one lookup a service makes: the repository failed, found nothing
      (a nil pointer), or found a row. */
  datatype Fetch<+T> = Errored(cause: Error) | Nil | Found(value: T)
}
