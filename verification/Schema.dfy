/** The tables. Row ids are positions in the table, times are seconds.
    Two fields are history: no operation reads them, theorems do. `origin` is the
    object key an email row was inserted with (its `key` is nulled by the purge);
    `tries` and `lost` are the POSTs the receiver of an event has really seen. */
module Schema {
  import opened Common
  import Fingerprint
  import Money

  datatype Alias = Alias(user: string, apiKey: Option<nat>, active: bool, received: nat)

  datatype MailStatus = Arrived | Processed | Failed | NonFinancial | Verification | Error

  datatype Email = Email(
    alias: string, key: Option<string>, messageId: Option<string>,
    receivedAt: Option<int>, createdAt: int, deadline: Option<int>, status: MailStatus,
    origin: string)

  datatype Band = High | Low | NotApplicable

  datatype Fields = Fields(
    amount: Option<Money.Decimal>, currency: Option<string>, merchantRaw: Option<string>,
    merchant: Option<string>, suggestion: Option<string>, date: Option<Fingerprint.Date>,
    card: Option<string>, band: Band)

  datatype ReviewStatus = Pending | ExtractionFailed | Confirmed | Dismissed

  datatype Extraction = Extraction(
    email: nat, user: string, alias: string, createdAt: int,
    fields: Fields, fingerprint: Option<string>, status: ReviewStatus,
    flagged: nat, category: Option<string>, reason: Option<string>)

  datatype Match = Match(extraction: nat, candidate: nat)

  datatype Kind =
    | FirstEmail(email: nat)
    | ForwardingCode(email: nat)
    | ExtractionEvent(row: nat, created: bool, status: ReviewStatus, amount: Option<string>, flagged: nat)

  datatype Delivery = Waiting | Delivered | GivenUp

  // a POST: its batch began at `at`, when the first `since` configs were registered, and
  // ended at `ended`; its receiver was looked up when the first `seen` were
  datatype Try = Try(at: int, ended: int, url: string, ok: bool, since: nat, seen: nat)

  datatype Event = Event(
    apiKey: Option<nat>, alias: string, kind: Kind,
    status: Delivery, attempts: nat, nextAt: int,
    lastError: Option<string>, target: Option<string>, deliveredAt: Option<int>,
    tries: seq<Try>, lost: seq<Try>)

  datatype Config = Config(apiKey: Option<nat>, url: string, createdAt: int)

  datatype Tables = Tables(
    aliases: map<string, Alias>, emails: seq<Email>,
    rows: seq<Extraction>, matches: seq<Match>, outbox: seq<Event>)

  // a new outbox row: pending, due at once
  function NewEvent(apiKey: Option<nat>, alias: string, kind: Kind, at: int): Event {
    Event(apiKey, alias, kind, Waiting, 0, at, None, None, None, [], [])
  }
}
