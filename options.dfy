/**
 * The checks `handle_label` makes on its options before it touches the
 * catalog: the four required options, the two defaults and the length of
 * the area type code.
 */
module ImportOptions {
  import opened Wrappers

  /** The four options the command cannot run without, in the order it reports them. */
  datatype RequiredOption = GenerationId | AreaTypeCode | NameTypeCode | CountryCode

  /** Position of an option in the order the command checks them. */
  function Rank(k: RequiredOption): nat {
    match k
    case GenerationId => 0
    case AreaTypeCode => 1
    case NameTypeCode => 2
    case CountryCode => 3
  }

  const RequiredOrder: seq<RequiredOption> := [GenerationId, AreaTypeCode, NameTypeCode, CountryCode]

  /** The parsed command line; an option not given is `None`. */
  datatype CommandOptions = CommandOptions(
    commit: bool,
    generationId: Option<string>,
    countryCode: Option<string>,
    areaTypeCode: Option<string>,
    nameTypeCode: Option<string>,
    nameField: Option<string>,
    encoding: Option<string>)

  /** An option counts as given when it is present and not the empty string. */
  predicate Supplied(o: Option<string>) {
    o.Some? && o.value != ""
  }

  function Value(opts: CommandOptions, k: RequiredOption): Option<string> {
    match k
    case GenerationId => opts.generationId
    case AreaTypeCode => opts.areaTypeCode
    case NameTypeCode => opts.nameTypeCode
    case CountryCode => opts.countryCode
  }

  /** The options the command runs with once the checks have passed. */
  datatype Settings = Settings(
    commit: bool,
    generationId: string,
    areaTypeCode: string,
    nameTypeCode: string,
    countryCode: string,
    nameField: string,
    encoding: string)

  datatype OptionError =
    | MissingOptions(missing: seq<RequiredOption>)
    | AreaTypeCodeTooLong(code: string)

  const DefaultNameField: string := "Name"
  const DefaultEncoding: string := "utf-8"
  const MaxAreaTypeCodeLength: nat := 3

  /** The options among `ks` that were not given, each reported once, in order. */
  function MissingAmong(opts: CommandOptions, ks: seq<RequiredOption>): (ms: seq<RequiredOption>)
    ensures forall k :: k in ms <==> k in ks && !Supplied(Value(opts, k))
    ensures forall i :: 0 <= i < |ms| ==> ms[i] in ks
    ensures (forall i, j :: 0 <= i < j < |ks| ==> Rank(ks[i]) < Rank(ks[j])) ==>
              forall i, j :: 0 <= i < j < |ms| ==> Rank(ms[i]) < Rank(ms[j])
  {
    if ks == [] then []
    else if Supplied(Value(opts, ks[0])) then MissingAmong(opts, ks[1..])
    else [ks[0]] + MissingAmong(opts, ks[1..])
  }

  /** The required options that were not given, in the order the command reports them. */
  function Missing(opts: CommandOptions): (ms: seq<RequiredOption>)
    ensures forall k :: k in ms <==> !Supplied(Value(opts, k))
    ensures forall i, j :: 0 <= i < j < |ms| ==> Rank(ms[i]) < Rank(ms[j])
    ensures forall i, j :: 0 <= i < j < |ms| ==> ms[i] != ms[j]
  {
    MissingAmong(opts, RequiredOrder)
  }

  /**
   * Every missing required option is reported, and the run stops there;
   * otherwise the defaults are filled in and an area type code longer than
   * three characters stops the run.
   */
  function CheckOptions(opts: CommandOptions): (r: Result<Settings, OptionError>)
    ensures r.Failure? && r.error.MissingOptions? <==> exists k :: !Supplied(Value(opts, k))
    ensures r.Failure? && r.error.MissingOptions? ==>
              && (forall k :: k in r.error.missing <==> !Supplied(Value(opts, k)))
              && (forall i, j :: 0 <= i < j < |r.error.missing| ==> Rank(r.error.missing[i]) < Rank(r.error.missing[j]))
    ensures r.Failure? && r.error.AreaTypeCodeTooLong? <==>
              Missing(opts) == [] && |opts.areaTypeCode.value| > MaxAreaTypeCodeLength
    ensures r.Success? ==>
              && Missing(opts) == []
              && r.value.commit == opts.commit
              && Some(r.value.generationId) == opts.generationId
              && Some(r.value.areaTypeCode) == opts.areaTypeCode
              && Some(r.value.nameTypeCode) == opts.nameTypeCode
              && Some(r.value.countryCode) == opts.countryCode
              && |r.value.areaTypeCode| <= MaxAreaTypeCodeLength
              && r.value.nameField == (if Supplied(opts.nameField) then opts.nameField.value else DefaultNameField)
              && r.value.encoding == (if Supplied(opts.encoding) then opts.encoding.value else DefaultEncoding)
  {
    var missing := Missing(opts);
    if missing != [] then
      assert missing[0] in missing;
      Failure(MissingOptions(missing))
    else
      assert !Supplied(Value(opts, GenerationId)) ==> GenerationId in missing;
      assert !Supplied(Value(opts, AreaTypeCode)) ==> AreaTypeCode in missing;
      assert !Supplied(Value(opts, NameTypeCode)) ==> NameTypeCode in missing;
      assert !Supplied(Value(opts, CountryCode)) ==> CountryCode in missing;
      var s := Settings(
        opts.commit,
        opts.generationId.value,
        opts.areaTypeCode.value,
        opts.nameTypeCode.value,
        opts.countryCode.value,
        if Supplied(opts.nameField) then opts.nameField.value else DefaultNameField,
        if Supplied(opts.encoding) then opts.encoding.value else DefaultEncoding);
      if |s.areaTypeCode| > MaxAreaTypeCodeLength then Failure(AreaTypeCodeTooLong(s.areaTypeCode))
      else Success(s)
  }
}
