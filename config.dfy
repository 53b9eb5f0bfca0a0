/** The converter's configuration record, its defaults, and the partial record callers pass in. */
module Config {
  import opened Wrappers

  /** `'error' | 'ignore'`: whether a condition is reported or silently encoded. */
  datatype ErrorPolicy = Error | Ignore

  /** A tuple of exactly nine strings, matched against the first prerelease component. */
  type OverrideTable = t: seq<string> | |t| == 9 witness ["", "", "", "", "", "", "", "", ""]

  datatype SemverIntConfig = SemverIntConfig(
    numMajorDigits: int,
    numMinorDigits: int,
    numPatchDigits: int,
    numPrereleaseDigits: int,
    numPrereleaseComponentDigits: int,
    majorVersionErrors: ErrorPolicy,
    minorVersionErrors: ErrorPolicy,
    patchVersionErrors: ErrorPolicy,
    prereleaseErrors: ErrorPolicy,
    prereleaseNumericComponentErrors: ErrorPolicy,
    maxSemverInt: Option<int>,
    firstPrereleaseComponentToDigit: Option<OverrideTable>)
  {
    /** Every digit budget is non-negative: what the converter's constructor insists on. */
    predicate Valid() {
      && numMajorDigits >= 0
      && numMinorDigits >= 0
      && numPatchDigits >= 0
      && numPrereleaseDigits >= 0
      && numPrereleaseComponentDigits >= 0
    }
  }

  const DefaultConfig: SemverIntConfig := SemverIntConfig(
    3, 3, 3, 6, 4,
    Error, Error, Error, Error, Error,
    None, None)

  /** `Partial<SemverIntConfig>`: `None` is a key the caller left out. */
  datatype PartialConfig = PartialConfig(
    numMajorDigits: Option<int>,
    numMinorDigits: Option<int>,
    numPatchDigits: Option<int>,
    numPrereleaseDigits: Option<int>,
    numPrereleaseComponentDigits: Option<int>,
    majorVersionErrors: Option<ErrorPolicy>,
    minorVersionErrors: Option<ErrorPolicy>,
    patchVersionErrors: Option<ErrorPolicy>,
    prereleaseErrors: Option<ErrorPolicy>,
    prereleaseNumericComponentErrors: Option<ErrorPolicy>,
    maxSemverInt: Option<int>,
    firstPrereleaseComponentToDigit: Option<OverrideTable>)

  /** `{}`: the caller sets nothing. */
  const NoOverrides: PartialConfig := PartialConfig(
    None, None, None, None, None, None, None, None, None, None, None, None)

  function OrElse<T>(o: Option<T>, default: T): T {
    if o.Some? then o.value else default
  }

  /** `{ ...DefaultConfig, ...newConfig }`: every key the caller gives wins over the default. */
  function Merge(newConfig: PartialConfig): SemverIntConfig {
    SemverIntConfig(
      OrElse(newConfig.numMajorDigits, DefaultConfig.numMajorDigits),
      OrElse(newConfig.numMinorDigits, DefaultConfig.numMinorDigits),
      OrElse(newConfig.numPatchDigits, DefaultConfig.numPatchDigits),
      OrElse(newConfig.numPrereleaseDigits, DefaultConfig.numPrereleaseDigits),
      OrElse(newConfig.numPrereleaseComponentDigits, DefaultConfig.numPrereleaseComponentDigits),
      OrElse(newConfig.majorVersionErrors, DefaultConfig.majorVersionErrors),
      OrElse(newConfig.minorVersionErrors, DefaultConfig.minorVersionErrors),
      OrElse(newConfig.patchVersionErrors, DefaultConfig.patchVersionErrors),
      OrElse(newConfig.prereleaseErrors, DefaultConfig.prereleaseErrors),
      OrElse(newConfig.prereleaseNumericComponentErrors, DefaultConfig.prereleaseNumericComponentErrors),
      if newConfig.maxSemverInt.Some? then newConfig.maxSemverInt else DefaultConfig.maxSemverInt,
      if newConfig.firstPrereleaseComponentToDigit.Some? then newConfig.firstPrereleaseComponentToDigit
      else DefaultConfig.firstPrereleaseComponentToDigit)
  }

  /** A partial record that sets every key of `c`. */
  function Everything(c: SemverIntConfig): PartialConfig {
    PartialConfig(
      Some(c.numMajorDigits), Some(c.numMinorDigits), Some(c.numPatchDigits),
      Some(c.numPrereleaseDigits), Some(c.numPrereleaseComponentDigits),
      Some(c.majorVersionErrors), Some(c.minorVersionErrors), Some(c.patchVersionErrors),
      Some(c.prereleaseErrors), Some(c.prereleaseNumericComponentErrors),
      c.maxSemverInt, c.firstPrereleaseComponentToDigit)
  }

  /** The defaults: budgets 3, 3, 3, 6 and 4, every policy 'error', no ceiling and no override table. */
  lemma {:induction false} DefaultsAre()
    ensures DefaultConfig.Valid()
    ensures DefaultConfig.numMajorDigits == 3 && DefaultConfig.numMinorDigits == 3
    ensures DefaultConfig.numPatchDigits == 3 && DefaultConfig.numPrereleaseDigits == 6
    ensures DefaultConfig.numPrereleaseComponentDigits == 4
    ensures DefaultConfig.majorVersionErrors == Error && DefaultConfig.minorVersionErrors == Error
    ensures DefaultConfig.patchVersionErrors == Error && DefaultConfig.prereleaseErrors == Error
    ensures DefaultConfig.prereleaseNumericComponentErrors == Error
    ensures DefaultConfig.maxSemverInt.None? && DefaultConfig.firstPrereleaseComponentToDigit.None?
  {
  }

  /** Merging nothing gives the defaults; merging a whole record gives that record back. */
  lemma {:induction false} MergeOverDefaults(c: SemverIntConfig)
    ensures Merge(NoOverrides) == DefaultConfig
    ensures Merge(Everything(c)) == c
  {
  }

  /** A key the caller sets is taken as given; a key left out keeps its default. */
  lemma {:induction false} MergeKeys(newConfig: PartialConfig)
    ensures newConfig.numMajorDigits.Some? ==> Merge(newConfig).numMajorDigits == newConfig.numMajorDigits.value
    ensures newConfig.numMajorDigits.None? ==> Merge(newConfig).numMajorDigits == 3
    ensures newConfig.numMinorDigits.Some? ==> Merge(newConfig).numMinorDigits == newConfig.numMinorDigits.value
    ensures newConfig.numMinorDigits.None? ==> Merge(newConfig).numMinorDigits == 3
    ensures newConfig.numPatchDigits.Some? ==> Merge(newConfig).numPatchDigits == newConfig.numPatchDigits.value
    ensures newConfig.numPatchDigits.None? ==> Merge(newConfig).numPatchDigits == 3
    ensures newConfig.numPrereleaseDigits.Some? ==> Merge(newConfig).numPrereleaseDigits == newConfig.numPrereleaseDigits.value
    ensures newConfig.numPrereleaseDigits.None? ==> Merge(newConfig).numPrereleaseDigits == 6
    ensures newConfig.numPrereleaseComponentDigits.Some? ==> Merge(newConfig).numPrereleaseComponentDigits == newConfig.numPrereleaseComponentDigits.value
    ensures newConfig.numPrereleaseComponentDigits.None? ==> Merge(newConfig).numPrereleaseComponentDigits == 4
    ensures newConfig.majorVersionErrors.Some? ==> Merge(newConfig).majorVersionErrors == newConfig.majorVersionErrors.value
    ensures newConfig.majorVersionErrors.None? ==> Merge(newConfig).majorVersionErrors == Error
    ensures newConfig.minorVersionErrors.Some? ==> Merge(newConfig).minorVersionErrors == newConfig.minorVersionErrors.value
    ensures newConfig.minorVersionErrors.None? ==> Merge(newConfig).minorVersionErrors == Error
    ensures newConfig.patchVersionErrors.Some? ==> Merge(newConfig).patchVersionErrors == newConfig.patchVersionErrors.value
    ensures newConfig.patchVersionErrors.None? ==> Merge(newConfig).patchVersionErrors == Error
    ensures newConfig.prereleaseErrors.Some? ==> Merge(newConfig).prereleaseErrors == newConfig.prereleaseErrors.value
    ensures newConfig.prereleaseErrors.None? ==> Merge(newConfig).prereleaseErrors == Error
    ensures newConfig.prereleaseNumericComponentErrors.Some? ==> Merge(newConfig).prereleaseNumericComponentErrors == newConfig.prereleaseNumericComponentErrors.value
    ensures newConfig.prereleaseNumericComponentErrors.None? ==> Merge(newConfig).prereleaseNumericComponentErrors == Error
    ensures Merge(newConfig).maxSemverInt == newConfig.maxSemverInt
    ensures Merge(newConfig).firstPrereleaseComponentToDigit == newConfig.firstPrereleaseComponentToDigit
  {
  }
}
