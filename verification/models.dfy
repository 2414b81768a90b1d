/** The provider's movement notification (Models/WebhookNotification.cs).
    It is a plain data-transfer object with no behaviour of its own; the
    receiver never inspects its fields except to log the transaction id. */
module Models {
  import opened Options

  /** The string fields are declared non-nullable but initialised to
      `default!`, so a payload that omits them still decodes, leaving them
      null: they are `Option<string>` here. `id` and `amount` default to zero
      when omitted. `amount` is a C# `decimal`; it is held as an exact `real`
      here, so no rounding is introduced. `movementDate` is a nullable
      `DateTime`, held as a tick count. */
  datatype Notification = Notification(
    id: int,
    movementType: Option<string>,
    idTransaction: Option<string>,
    amount: real,
    currency: Option<string>,
    description: Option<string>,
    movementDate: Option<int>
  )
}
