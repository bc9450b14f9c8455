/**
 * cmd/keys.go: the options of the `get-keys` command, the check of its flags
 * that runs before the command, and the inputs the command passes on to the
 * aggregator and the display.
 */
module KeysCommand {
  import opened Wrappers
  import Users
  import Keys
  import Output

  /** The flag values of the command, as parsed from the command line. */
  datatype Flags = Flags(
    quantity: int,
    timeZone: string,
    format: string,
    userName: string,
    outputFile: string,
    age: int,
    expiredOnly: bool)

  /** The declared defaults; `quantity` is declared by the root command. */
  const DefaultFlags: Flags := Flags(50, "America/Santo_Domingo", "json", "", "./output.json", 90, false)

  /** `ListCommandOptions`. */
  datatype ListCommandOptions = ListCommandOptions(
    quantity: int,
    path: string,
    user: string,
    timeZone: string,
    format: string,
    age: int,
    expired: bool)

  /** `configureListFlags`: each flag lands, unchanged, in its option field. */
  function ConfigureListFlags(flags: Flags): (o: ListCommandOptions)
    ensures o.quantity == flags.quantity && o.path == flags.outputFile && o.user == flags.userName
    ensures o.timeZone == flags.timeZone && o.format == flags.format
    ensures o.age == flags.age && o.expired == flags.expiredOnly
  {
    ListCommandOptions(flags.quantity, flags.outputFile, flags.userName, flags.timeZone, flags.format, flags.age, flags.expiredOnly)
  }

  /** The aggregator's inputs the command builds from its options. */
  function AggregatorInputs(o: ListCommandOptions): (input: Keys.GetWrapperInputs)
    ensures input.maxUsers == o.quantity && input.timeZone == o.timeZone && input.userName == o.user
    ensures input.age == o.age && input.expired == o.expired
  {
    Keys.GetWrapperInputs(o.quantity, o.timeZone, o.user, o.age, o.expired)
  }

  /** The errors of the flag check. */
  datatype FlagError =
    | AgeTooSmall(age: int)          // "age must be greater than 0"
    | InvalidFormat(format: string)  // "invalid format ... Valid options are: json, table, text"
    | EmptyTimeZone                  // "timezone cannot be empty"

  /** The formats the flag check accepts. */
  const ValidFormats: set<string> := {"json", "table", "text"}

  /** The flag check that runs before the command: age, then format, then
      time zone; the first failure is returned, and none when all pass. */
  function Validate(flags: Flags): (r: Option<FlagError>)
    ensures r.None? <==> flags.age >= 1 && flags.format in ValidFormats && flags.timeZone != ""
    ensures r == Some(AgeTooSmall(flags.age)) <==> flags.age < 1
    ensures r == Some(InvalidFormat(flags.format)) <==> flags.age >= 1 && flags.format !in ValidFormats
    ensures r == Some(EmptyTimeZone) <==> flags.age >= 1 && flags.format in ValidFormats && flags.timeZone == ""
  {
    if flags.age < 1 then Some(AgeTooSmall(flags.age))
    else if flags.format !in ValidFormats then Some(InvalidFormat(flags.format))
    else if flags.timeZone == "" then Some(EmptyTimeZone)
    else None
  }

  /** The defaults pass the check, and the listing they ask for pages through
      every user. */
  lemma DefaultsAccepted()
    ensures Validate(DefaultFlags).None?
    ensures AggregatorInputs(ConfigureListFlags(DefaultFlags)).maxUsers == Users.DefaultMaxUsers
    ensures !AggregatorInputs(ConfigureListFlags(DefaultFlags)).expired
  {
    assert "json" in ValidFormats;
  }

  /** Of the formats the check accepts, "text" is the one the display does not
      render: with data to show, the command only logs an output error.
      Conversely "file", which the display renders, never passes the check. */
  lemma AcceptedFormatsRendered(flags: Flags, value: seq<Keys.UserData>, stamp: int -> string)
    requires Validate(flags).None? && |value| > 0
    ensures var o := ConfigureListFlags(flags);
      Output.DisplayData(o.format, o.path, o.age, value, stamp).FormatError? <==> flags.format == "text"
    ensures Validate(flags.(format := "file")).Some?
  {
    assert "text" !in Output.RenderedFormats;
    assert "file" !in ValidFormats;
  }
}
