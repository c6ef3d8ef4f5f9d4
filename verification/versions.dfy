/** The strategy selector of `src/main.rs`: the `VERSIONS` table, the
    `valid_version` parser that turns a one-based version number into an index,
    and the lookup `VERSIONS[args.version]` with clap's default. */
module Versions {
  import opened Wrappers
  import opened Numerals

  /** The generator strategies compiled in. Only `one::run` exists. */
  datatype Generator = One

  const Versions: seq<Generator> := [One]

  datatype VersionError =
    | NotANumber(input: string)   // "`{s}` isn't a number"
    | OutOfRange(count: nat)      // "Version not in range 1..{count}"

  /** `valid_version`: parse `s` as a `usize` and accept it when it lies in
      `1..=VERSIONS.len()`, answering the zero-based index. An accepted index
      is always in bounds for `VERSIONS`, and it is the parsed number minus
      one; everything that does not parse, and every number outside the range,
      is refused with the matching error. */
  function ValidVersion(s: string): (r: Result<nat, VersionError>)
    ensures r.Ok? ==> r.value < |Versions|
    ensures r.Ok? ==> ParseUsize(s) == Some(r.value + 1)
    ensures ParseUsize(s).None? ==> r == Err(NotANumber(s))
    ensures ParseUsize(s).Some? && 1 <= ParseUsize(s).value <= |Versions| ==> r == Ok(ParseUsize(s).value - 1)
    ensures ParseUsize(s).Some? && !(1 <= ParseUsize(s).value <= |Versions|) ==> r == Err(OutOfRange(|Versions|))
  {
    match ParseUsize(s)
    case None => Err(NotANumber(s))
    case Some(version) =>
      if 1 <= version <= |Versions| then Ok(version - 1) else Err(OutOfRange(|Versions|))
  }

  /** Every version number in range, written in decimal, selects the entry one
      below it; every other number is refused. */
  lemma {:induction false} ValidVersionOfDecimal(n: nat)
    requires n <= UsizeMax
    ensures 1 <= n <= |Versions| ==> ValidVersion(Decimal(n)) == Ok(n - 1)
    ensures (n == 0 || n > |Versions|) ==> ValidVersion(Decimal(n)) == Err(OutOfRange(|Versions|))
  {
    ParseDecimal(n);
    var parsed := ParseUsize(Decimal(n));
    assert parsed.Some? && parsed.value == n;
  }

  /** `"0"` is refused, and so is the first number past the table. */
  lemma ValidVersionRejects()
    ensures ValidVersion("0") == Err(OutOfRange(|Versions|))
    ensures ValidVersion("2") == Err(OutOfRange(|Versions|))
    ensures ValidVersion("") == Err(NotANumber(""))
    ensures ValidVersion("-1") == Err(NotANumber("-1"))
  {
    ValidVersionOfDecimal(0);
    ValidVersionOfDecimal(2);
    ParseRejectsNonNumerals();
  }

  /** Any spelling `usize::from_str` accepts selects the same entry: a leading
      `'+'` and leading zeros are allowed.
      The literals are passed as parameters pinned by `requires`: the solver
      then treats them as names and spells out their characters only where a
      step needs them, which keeps these proofs small. */
  lemma ValidVersionAcceptsSpellings(plusZeroOne: string, one: string)
    requires plusZeroOne == "+01" && one == "1"
    ensures ValidVersion(plusZeroOne) == Ok(0)
    ensures ValidVersion(one) == Ok(0)
  {
    assert plusZeroOne[1..] == Zeros(1) + Decimal(1);
    ParseUsizeExactly(plusZeroOne, 1);
    ValidVersionOfDecimal(1);
  }

  /** clap renders `default_value_t = VERSIONS.len()` in decimal and runs it
      through `valid_version` like a typed argument; `main` then indexes
      `VERSIONS`. Without an argument the newest (last) strategy is chosen; with
      one, the strategy is the entry at the parsed number minus one. */
  function SelectVersion(arg: Option<string>): (r: Result<Generator, VersionError>)
    ensures arg.None? ==> r == Ok(Versions[|Versions| - 1])
    ensures r.Ok? ==> r.value in Versions
    ensures arg.Some? ==> (r.Ok? <==> ValidVersion(arg.value).Ok?)
    ensures arg.Some? && r.Ok? ==> r.value == Versions[ValidVersion(arg.value).value]
  {
    ValidVersionOfDecimal(|Versions|);
    match ValidVersion(arg.GetOr(Decimal(|Versions|)))
    case Ok(k) => Ok(Versions[k])
    case Err(e) => Err(e)
  }
}
