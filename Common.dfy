/**
 * The shapes the IAM SDK hands to the modelled code, and the read side of the
 * IAM service as an abstract value: every answer the service would give is an
 * input. Instants are whole seconds on one clock; time zones only change how an
 * instant is displayed, so the model keeps the instant and records only whether
 * the zone name can be loaded.
 */
module Common {
  import opened Wrappers

  /** The errors the modelled code can see or produce. */
  datatype Error =
    | NoSuchEntity                 // the service's NoSuchEntity API error
    | ServiceFault(code: string)   // any other API error
    | Transport(reason: string)    // an error that is not an API error
    | UnknownTimeZone(name: string)
    | LastUsedUnavailable          // "couldn't get last used data for access key"

  /** `types.StatusType` of an access key. */
  datatype KeyStatus = Active | Inactive | Expired

  /** The wire spelling of a status. */
  function StatusName(s: KeyStatus): string
  {
    match s
    case Active => "Active"
    case Inactive => "Inactive"
    case Expired => "Expired"
  }

  /** A `time.Time` that may be Go's zero value. */
  datatype Time = Zero | At(seconds: int)

  /** `types.User`, reduced to its name. */
  datatype User = User(userName: string)

  /** `types.AccessKeyMetadata`. */
  datatype KeyMetadata = KeyMetadata(accessKeyId: string, createDate: int, status: KeyStatus)

  /** `types.AccessKeyLastUsed`: the service name is read only when a date is present. */
  datatype LastUsed = LastUsed(lastUsedDate: Option<int>, serviceName: string)

  /** One `ListUsers` response page. */
  datatype UsersPage = UsersPage(users: seq<User>, isTruncated: bool, marker: Option<string>)

  /** One `ListUsers` request: `MaxItems` and `Marker`. */
  datatype UsersRequest = UsersRequest(maxItems: int, marker: Option<string>)

  /** The read side of IAM. `pages` are the answers to successive `ListUsers`
      requests, in the order they are asked. */
  datatype Directory = Directory(
    pages: seq<Result<UsersPage, Error>>,
    getUser: string -> Result<User, Error>,
    listAccessKeys: string -> Result<seq<KeyMetadata>, Error>,
    getAccessKeyLastUsed: string -> Result<LastUsed, Error>)

  /** The wall clock and the time-zone database. */
  datatype Clock = Clock(now: int, knownZone: string -> bool)

  const SecondsPerDay: int := 24 * 3600
}
