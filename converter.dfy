/**
 * The orchestrator: a converter that validates its configuration once, then encodes the major,
 * minor and patch numbers and the prerelease label into one digit string, saturating with nines
 * on the first numeric overflow, keeping the prerelease errors its policies report, and applying
 * an optional ceiling.
 */
module Converter {
  import opened Wrappers
  import opened Digits
  import opened Errors
  import opened Config
  import opened NumericUtils
  import opened PrereleaseUtils

  /** `{ versionStr, errs }`. */
  datatype SemverIntResult = SemverIntResult(versionStr: string, errs: seq<SemverIntError>)

  /** A configuration the constructor accepts. */
  type ValidConfig = c: SemverIntConfig | c.Valid() witness DefaultConfig

  // ---------------------------------------------------------------------------------------------
  // Construction

  /** The constructor's messages for a negative budget. */
  const NegativeMajor: string := "numMajorDigits must be greater than or equal to zero."
  const NegativeMinor: string := "numMinorDigits must be greater than or equal to zero."
  const NegativePatch: string := "numPatchDigits must be greater than or equal to zero."
  const NegativePrerelease: string := "numPrereleaseDigits must be greater than or equal to zero."
  const NegativeComponent: string := "numPrereleaseNumericComponentDigits must be greater than or equal to zero."

  /** The constructor's checks, in order: the message for the first negative budget, if any. */
  function ConfigError(newCfg: SemverIntConfig): (m: Option<string>)
    ensures m.None? <==> newCfg.Valid()
    ensures newCfg.numMajorDigits < 0 ==> m == Some(NegativeMajor)
    ensures newCfg.numMajorDigits >= 0 && newCfg.numMinorDigits < 0 ==> m == Some(NegativeMinor)
    ensures (newCfg.numMajorDigits >= 0 && newCfg.numMinorDigits >= 0 && newCfg.numPatchDigits < 0)
            ==> m == Some(NegativePatch)
    ensures (newCfg.numMajorDigits >= 0 && newCfg.numMinorDigits >= 0 && newCfg.numPatchDigits >= 0
             && newCfg.numPrereleaseDigits < 0) ==> m == Some(NegativePrerelease)
    ensures (newCfg.numMajorDigits >= 0 && newCfg.numMinorDigits >= 0 && newCfg.numPatchDigits >= 0
             && newCfg.numPrereleaseDigits >= 0 && newCfg.numPrereleaseComponentDigits < 0)
            ==> m == Some(NegativeComponent)
  {
    if newCfg.numMajorDigits < 0 then
      Some(NegativeMajor)
    else if newCfg.numMinorDigits < 0 then
      Some(NegativeMinor)
    else if newCfg.numPatchDigits < 0 then
      Some(NegativePatch)
    else if newCfg.numPrereleaseDigits < 0 then
      Some(NegativePrerelease)
    else if newCfg.numPrereleaseComponentDigits < 0 then
      Some(NegativeComponent)
    else
      None
  }

  // ---------------------------------------------------------------------------------------------
  // Error filtering

  /** `[e]` when the policy is 'error', nothing when it is 'ignore'. */
  function IfReported(policy: ErrorPolicy, e: SemverIntError): seq<SemverIntError> {
    if policy == Error then [e] else []
  }

  /** The filter on prerelease errors: each tag is kept exactly when its own policy is 'error'. */
  predicate Reported(cfg: SemverIntConfig, e: SemverIntError) {
    || (cfg.prereleaseErrors == Error && e.componentName == Prerelease)
    || (cfg.prereleaseNumericComponentErrors == Error && e.componentName == PrereleaseComponent)
  }

  /** `errs.filter(...)`: the reported errors, in their original order. */
  function FilterReported(cfg: SemverIntConfig, errs: seq<SemverIntError>): (kept: seq<SemverIntError>)
    ensures |kept| <= |errs|
    ensures forall e :: e in kept <==> e in errs && Reported(cfg, e)
    ensures |errs| == 1 ==> kept == if Reported(cfg, errs[0]) then errs else []
  {
    if errs == [] then
      []
    else
      var last := errs[|errs| - 1];
      var front := errs[..|errs| - 1];
      assert errs == front + [last];
      FilterReported(cfg, front) + if Reported(cfg, last) then [last] else []
  }

  /** Filtering a concatenation filters each part and keeps them in order. */
  lemma {:induction false} FilterAppend(cfg: SemverIntConfig, a: seq<SemverIntError>, b: seq<SemverIntError>)
    ensures FilterReported(cfg, a + b) == FilterReported(cfg, a) + FilterReported(cfg, b)
    decreases |b|
  {
    if b == [] {
      assert a + b == a;
    } else {
      var front := b[..|b| - 1];
      assert (a + b)[..|a + b| - 1] == a + front;
      assert (a + b)[|a + b| - 1] == b[|b| - 1];
      FilterAppend(cfg, a, front);
    }
  }

  // ---------------------------------------------------------------------------------------------
  // Encoding

  /** The ceiling applies when it is present and nonzero (`0n` is falsy) and the value exceeds it. */
  predicate CeilingApplies(cfg: SemverIntConfig, versionStr: string)
    requires AllDigits(versionStr)
  {
    cfg.maxSemverInt.Some? && cfg.maxSemverInt.value != 0 && Value(versionStr) > cfg.maxSemverInt.value
  }

  /** A strict integer never makes a formatter throw, and both give digits. */
  lemma {:induction false} FormattersAccept(s: string, desiredDigits: nat)
    requires IsStrictInt(s)
    ensures FmtLimitSizeNumeric(s, desiredDigits).Success? && FmtFixedSizeNumeric(s, desiredDigits).Success?
    ensures AllDigits(FmtLimitSizeNumeric(s, desiredDigits).value.strNum)
    ensures AllDigits(FmtFixedSizeNumeric(s, desiredDigits).value.strNum)
  {
    StrictIntIsCanonical(s);
    LimitSizeSpec(s, desiredDigits);
    FixedSizeSpec(s, desiredDigits);
  }

  lemma {:induction false} NumbersAreDigits(majorPart: string, minorPart: string, patchPart: string)
    requires AllDigits(majorPart) && AllDigits(minorPart) && AllDigits(patchPart)
    ensures AllDigits(majorPart + minorPart + patchPart)
  {
    ValueConcat(majorPart, minorPart);
    ValueConcat(majorPart + minorPart, patchPart);
  }

  /** The messages for a major, minor or patch number that is not a strict integer. */
  const BadMajor: string := "major version must be an integer >= 0, got: "
  const BadMinor: string := "minor version must be an integer >= 0"
  const BadPatch: string := "patch version must be an integer >= 0"

  /**
   * `semverToInt` as a function: the input checks, the major, minor and patch formatting with an
   * early return on the first overflow, the prerelease encoding and its filtered errors, and the
   * ceiling.
   */
  function Encoding(cfg: ValidConfig, majorStr: string, minorStr: string, patchStr: string,
                    prerelease: string): (r: Result<SemverIntResult, string>)
  {
    if !IsStrictInt(majorStr) then
      Failure(BadMajor + majorStr)
    else if !IsStrictInt(minorStr) then
      Failure(BadMinor)
    else if !IsStrictInt(patchStr) then
      Failure(BadPatch)
    else
      NumbersEncoding(cfg, majorStr, minorStr, patchStr, prerelease)
  }

  /**
   * The rest of `semverToInt` once the three numbers are strict integers: the major, minor and
   * patch formatting, each returning at once with nines on overflow, then the prerelease.
   */
  function NumbersEncoding(cfg: ValidConfig, majorStr: string, minorStr: string, patchStr: string,
                           prerelease: string): (r: Result<SemverIntResult, string>)
    requires IsStrictInt(majorStr) && IsStrictInt(minorStr) && IsStrictInt(patchStr)
  {
      FormattersAccept(majorStr, cfg.numMajorDigits);
      // the formatters only throw on a negative budget or a non-digit, both excluded by now
      var majorResult := FmtLimitSizeNumeric(majorStr, cfg.numMajorDigits).value;
      if majorResult.hasOverflow then
        Success(SemverIntResult(
          majorResult.strNum + Repeat('9', cfg.numMinorDigits + cfg.numPatchDigits + cfg.numPrereleaseDigits),
          IfReported(cfg.majorVersionErrors, OverflowError(Major, majorStr))))
      else
        FormattersAccept(minorStr, cfg.numMinorDigits);
        var minorResult := FmtFixedSizeNumeric(minorStr, cfg.numMinorDigits).value;
        if minorResult.hasOverflow then
          Success(SemverIntResult(
            majorResult.strNum + minorResult.strNum + Repeat('9', cfg.numPatchDigits + cfg.numPrereleaseDigits),
            IfReported(cfg.minorVersionErrors, OverflowError(Minor, minorStr))))
        else
          FormattersAccept(patchStr, cfg.numPatchDigits);
          var patchResult := FmtFixedSizeNumeric(patchStr, cfg.numPatchDigits).value;
          if patchResult.hasOverflow then
            Success(SemverIntResult(
              majorResult.strNum + minorResult.strNum + patchResult.strNum + Repeat('9', cfg.numPrereleaseDigits),
              IfReported(cfg.patchVersionErrors, OverflowError(Patch, patchStr))))
          else
            NumbersAreDigits(majorResult.strNum, minorResult.strNum, patchResult.strNum);
            WithPrerelease(cfg, majorResult.strNum + minorResult.strNum + patchResult.strNum, prerelease)
  }

  /**
   * The tail of `semverToInt` once no numeric part overflowed: the prerelease digits are appended,
   * its reported errors kept, and the ceiling applied.
   */
  function WithPrerelease(cfg: ValidConfig, numbers: string, prerelease: string): (r: Result<SemverIntResult, string>)
    requires AllDigits(numbers)
  {
    var prereleaseResult :- PrereleaseEncoding(prerelease, cfg.numPrereleaseDigits,
                                               cfg.numPrereleaseComponentDigits,
                                               cfg.firstPrereleaseComponentToDigit);
    var versionStr := numbers + prereleaseResult.strNum;
    var errs := FilterReported(cfg, prereleaseResult.errs);
    ValueConcat(numbers, prereleaseResult.strNum);
    if CeilingApplies(cfg, versionStr) then
      Success(SemverIntResult(IntToString(cfg.maxSemverInt.value), errs + [OverflowError(SemverInt, versionStr)]))
    else
      Success(SemverIntResult(versionStr, errs))
  }

  /** A converter holding the configuration its constructor validated. */
  class SemverIntConverter {
    const cfg: ValidConfig

    /** The defaults overlaid with the caller's keys; the budgets must all be non-negative. */
    constructor(newConfig: PartialConfig)
      requires Merge(newConfig).Valid()
      ensures cfg == Merge(newConfig)
    {
      cfg := Merge(newConfig);
    }

    /** `new SemverIntConverter(newConfig)`, with the constructor's throw as a `Failure`. */
    static method Create(newConfig: PartialConfig) returns (r: Result<SemverIntConverter, string>)
      ensures r.Failure? <==> !Merge(newConfig).Valid()
      ensures r.Failure? ==> ConfigError(Merge(newConfig)) == Some(r.error)
      ensures r.Success? ==> fresh(r.value) && r.value.cfg == Merge(newConfig)
    {
      var newCfg := Merge(newConfig);
      if newCfg.numMajorDigits < 0 {
        return Failure(NegativeMajor);
      }
      if newCfg.numMinorDigits < 0 {
        return Failure(NegativeMinor);
      }
      if newCfg.numPatchDigits < 0 {
        return Failure(NegativePatch);
      }
      if newCfg.numPrereleaseDigits < 0 {
        return Failure(NegativePrerelease);
      }
      if newCfg.numPrereleaseComponentDigits < 0 {
        return Failure(NegativeComponent);
      }
      var converter := new SemverIntConverter(newConfig);
      return Success(converter);
    }

    /**
     * `semverToInt`: `versionStr` grows part by part and `errs` by pushes; the first numeric
     * overflow returns at once; the ceiling replaces `versionStr` at the end.
     */
    method SemverToInt(majorStr: string, minorStr: string, patchStr: string, prerelease: string)
      returns (r: Result<SemverIntResult, string>)
      ensures r == Encoding(cfg, majorStr, minorStr, patchStr, prerelease)
    {
      if !IsStrictInt(majorStr) {
        return Failure(BadMajor + majorStr);
      }
      if !IsStrictInt(minorStr) {
        return Failure(BadMinor);
      }
      if !IsStrictInt(patchStr) {
        return Failure(BadPatch);
      }

      assert Encoding(cfg, majorStr, minorStr, patchStr, prerelease) == NumbersEncoding(cfg, majorStr, minorStr, patchStr, prerelease);
      FormattersAccept(majorStr, cfg.numMajorDigits);
      var versionStr := "";
      var errs: seq<SemverIntError> := [];
      var majorResult := FmtLimitSizeNumeric(majorStr, cfg.numMajorDigits).value;
      versionStr := versionStr + majorResult.strNum;
      assert versionStr == majorResult.strNum;
      if majorResult.hasOverflow {
        if cfg.majorVersionErrors == Error {
          errs := errs + [OverflowError(Major, majorStr)];
        }
        assert errs == IfReported(cfg.majorVersionErrors, OverflowError(Major, majorStr));
        versionStr := versionStr + Repeat('9', cfg.numMinorDigits + cfg.numPatchDigits + cfg.numPrereleaseDigits);
        assert NumbersEncoding(cfg, majorStr, minorStr, patchStr, prerelease) == Success(SemverIntResult(versionStr, errs));
        return Success(SemverIntResult(versionStr, errs));
      }

      FormattersAccept(minorStr, cfg.numMinorDigits);
      var minorResult := FmtFixedSizeNumeric(minorStr, cfg.numMinorDigits).value;
      versionStr := versionStr + minorResult.strNum;
      if minorResult.hasOverflow {
        if cfg.minorVersionErrors == Error {
          errs := errs + [OverflowError(Minor, minorStr)];
        }
        assert errs == IfReported(cfg.minorVersionErrors, OverflowError(Minor, minorStr));
        versionStr := versionStr + Repeat('9', cfg.numPatchDigits + cfg.numPrereleaseDigits);
        assert NumbersEncoding(cfg, majorStr, minorStr, patchStr, prerelease) == Success(SemverIntResult(versionStr, errs));
        return Success(SemverIntResult(versionStr, errs));
      }

      FormattersAccept(patchStr, cfg.numPatchDigits);
      var patchResult := FmtFixedSizeNumeric(patchStr, cfg.numPatchDigits).value;
      versionStr := versionStr + patchResult.strNum;
      if patchResult.hasOverflow {
        if cfg.patchVersionErrors == Error {
          errs := errs + [OverflowError(Patch, patchStr)];
        }
        assert errs == IfReported(cfg.patchVersionErrors, OverflowError(Patch, patchStr));
        versionStr := versionStr + Repeat('9', cfg.numPrereleaseDigits);
        assert NumbersEncoding(cfg, majorStr, minorStr, patchStr, prerelease) == Success(SemverIntResult(versionStr, errs));
        return Success(SemverIntResult(versionStr, errs));
      }

      assert versionStr == majorResult.strNum + minorResult.strNum + patchResult.strNum;
      NumbersAreDigits(majorResult.strNum, minorResult.strNum, patchResult.strNum);
      assert NumbersEncoding(cfg, majorStr, minorStr, patchStr, prerelease) == WithPrerelease(cfg, versionStr, prerelease);
      ghost var numbers := versionStr;
      var prereleaseResult :- PrereleaseToInt(prerelease, cfg.numPrereleaseDigits, cfg.numPrereleaseComponentDigits,
                                              cfg.firstPrereleaseComponentToDigit);
      versionStr := versionStr + prereleaseResult.strNum;
      errs := errs + FilterReported(cfg, prereleaseResult.errs);
      assert errs == FilterReported(cfg, prereleaseResult.errs);
      ValueConcat(numbers, prereleaseResult.strNum);

      if cfg.maxSemverInt.Some? && cfg.maxSemverInt.value != 0 && Value(versionStr) > cfg.maxSemverInt.value {
        errs := errs + [OverflowError(SemverInt, versionStr)];
        versionStr := IntToString(cfg.maxSemverInt.value);
      }
      return Success(SemverIntResult(versionStr, errs));
    }
  }

  // ---------------------------------------------------------------------------------------------
  // The overflow cascade and the layout of the digits

  /** The sum of the four digit budgets. */
  function TotalDigits(cfg: ValidConfig): nat {
    cfg.numMajorDigits + cfg.numMinorDigits + cfg.numPatchDigits + cfg.numPrereleaseDigits
  }

  /** One of the three numbers is longer than its budget, so the encoding returns before the prerelease. */
  predicate EarlyOverflow(cfg: ValidConfig, majorStr: string, minorStr: string, patchStr: string) {
    |majorStr| > cfg.numMajorDigits || |minorStr| > cfg.numMinorDigits || |patchStr| > cfg.numPatchDigits
  }

  /**
   * The encoding fails exactly when a number is not a strict integer, or when all three fit and
   * the prerelease does not encode; the number checks come first, with their own messages.
   */
  lemma {:induction false} EncodingFailure(cfg: ValidConfig, majorStr: string, minorStr: string, patchStr: string, prerelease: string)
    ensures var r := Encoding(cfg, majorStr, minorStr, patchStr, prerelease);
      && (r.Failure? <==>
            || !IsStrictInt(majorStr) || !IsStrictInt(minorStr) || !IsStrictInt(patchStr)
            || (!EarlyOverflow(cfg, majorStr, minorStr, patchStr)
                && PrereleaseEncoding(prerelease, cfg.numPrereleaseDigits, cfg.numPrereleaseComponentDigits,
                                      cfg.firstPrereleaseComponentToDigit).Failure?))
      && (!IsStrictInt(majorStr) ==> r == Failure(BadMajor + majorStr))
      && (IsStrictInt(majorStr) && !IsStrictInt(minorStr) ==> r == Failure(BadMinor))
      && (IsStrictInt(majorStr) && IsStrictInt(minorStr) && !IsStrictInt(patchStr) ==>
            r == Failure(BadPatch))
  {
    if IsStrictInt(majorStr) && IsStrictInt(minorStr) && IsStrictInt(patchStr) {
      StrictIntFormatting(majorStr, cfg.numMajorDigits);
      StrictIntFormatting(minorStr, cfg.numMinorDigits);
      StrictIntFormatting(patchStr, cfg.numPatchDigits);
    }
  }

  /**
   * A major number longer than its budget saturates every digit of the encoding to '9', and the
   * only error is its own overflow, when that is reported.
   */
  lemma {:induction false} MajorOverflow(cfg: ValidConfig, majorStr: string, minorStr: string, patchStr: string, prerelease: string)
    requires IsStrictInt(majorStr) && IsStrictInt(minorStr) && IsStrictInt(patchStr)
    requires |majorStr| > cfg.numMajorDigits
    ensures Encoding(cfg, majorStr, minorStr, patchStr, prerelease)
         == Success(SemverIntResult(Repeat('9', TotalDigits(cfg)),
                                    IfReported(cfg.majorVersionErrors, OverflowError(Major, majorStr))))
  {
    StrictIntFormatting(majorStr, cfg.numMajorDigits);
    RepeatAdd('9', cfg.numMajorDigits, cfg.numMinorDigits + cfg.numPatchDigits + cfg.numPrereleaseDigits);
  }

  /** A fitting major number and a minor number longer than its budget: the major digits, then nines. */
  lemma {:induction false} MinorOverflow(cfg: ValidConfig, majorStr: string, minorStr: string, patchStr: string, prerelease: string)
    requires IsStrictInt(majorStr) && IsStrictInt(minorStr) && IsStrictInt(patchStr)
    requires |majorStr| <= cfg.numMajorDigits && |minorStr| > cfg.numMinorDigits
    ensures Encoding(cfg, majorStr, minorStr, patchStr, prerelease)
         == Success(SemverIntResult(majorStr + Repeat('9', cfg.numMinorDigits + cfg.numPatchDigits + cfg.numPrereleaseDigits),
                                    IfReported(cfg.minorVersionErrors, OverflowError(Minor, minorStr))))
  {
    StrictIntFormatting(majorStr, cfg.numMajorDigits);
    StrictIntFormatting(minorStr, cfg.numMinorDigits);
    RepeatAdd('9', cfg.numMinorDigits, cfg.numPatchDigits + cfg.numPrereleaseDigits);
    assert majorStr + (Repeat('9', cfg.numMinorDigits) + Repeat('9', cfg.numPatchDigits + cfg.numPrereleaseDigits))
        == majorStr + Repeat('9', cfg.numMinorDigits) + Repeat('9', cfg.numPatchDigits + cfg.numPrereleaseDigits);
  }

  /**
   * Fitting major and minor numbers and a patch number longer than its budget: the major digits,
   * the zero-padded minor digits, then nines.
   */
  lemma {:induction false} PatchOverflow(cfg: ValidConfig, majorStr: string, minorStr: string, patchStr: string, prerelease: string)
    requires IsStrictInt(majorStr) && IsStrictInt(minorStr) && IsStrictInt(patchStr)
    requires |majorStr| <= cfg.numMajorDigits && |minorStr| <= cfg.numMinorDigits && |patchStr| > cfg.numPatchDigits
    ensures Encoding(cfg, majorStr, minorStr, patchStr, prerelease)
         == Success(SemverIntResult(majorStr + PadStart(minorStr, cfg.numMinorDigits, '0')
                                      + Repeat('9', cfg.numPatchDigits + cfg.numPrereleaseDigits),
                                    IfReported(cfg.patchVersionErrors, OverflowError(Patch, patchStr))))
  {
    StrictIntFormatting(majorStr, cfg.numMajorDigits);
    StrictIntFormatting(minorStr, cfg.numMinorDigits);
    StrictIntFormatting(patchStr, cfg.numPatchDigits);
    var front := majorStr + PadStart(minorStr, cfg.numMinorDigits, '0');
    RepeatAdd('9', cfg.numPatchDigits, cfg.numPrereleaseDigits);
    assert front + (Repeat('9', cfg.numPatchDigits) + Repeat('9', cfg.numPrereleaseDigits))
        == front + Repeat('9', cfg.numPatchDigits) + Repeat('9', cfg.numPrereleaseDigits);
  }

  /** The four parts of an encoding in which no number overflowed: major unpadded, minor and patch zero-padded. */
  function Layout(cfg: ValidConfig, majorStr: string, minorStr: string, patchStr: string, prereleaseDigits: string): string {
    majorStr + PadStart(minorStr, cfg.numMinorDigits, '0') + PadStart(patchStr, cfg.numPatchDigits, '0') + prereleaseDigits
  }

  /**
   * When all three numbers fit, a successful encoding is the four parts with the reported
   * prerelease errors, unless the nonzero ceiling is exceeded: then it is the ceiling's digits and
   * an overflow of the four parts is appended.
   */
  lemma {:induction false} NoOverflowLayout(cfg: ValidConfig, majorStr: string, minorStr: string, patchStr: string, prerelease: string)
    requires IsStrictInt(majorStr) && IsStrictInt(minorStr) && IsStrictInt(patchStr)
    requires !EarlyOverflow(cfg, majorStr, minorStr, patchStr)
    ensures var p := PrereleaseEncoding(prerelease, cfg.numPrereleaseDigits, cfg.numPrereleaseComponentDigits,
                                        cfg.firstPrereleaseComponentToDigit);
      var r := Encoding(cfg, majorStr, minorStr, patchStr, prerelease);
      && (p.Failure? ==> r == Failure(p.error))
      && (p.Success? ==>
            var v := Layout(cfg, majorStr, minorStr, patchStr, p.value.strNum);
            var kept := FilterReported(cfg, p.value.errs);
            && AllDigits(v)
            && |v| == |majorStr| + cfg.numMinorDigits + cfg.numPatchDigits + cfg.numPrereleaseDigits
            && (CeilingApplies(cfg, v) ==>
                  r == Success(SemverIntResult(IntToString(cfg.maxSemverInt.value), kept + [OverflowError(SemverInt, v)])))
            && (!CeilingApplies(cfg, v) ==> r == Success(SemverIntResult(v, kept))))
  {
    NumbersFit(cfg, majorStr, minorStr, patchStr, prerelease);
  }

  /** When all three numbers fit, the encoding continues with the major part and the zero-padded minor and patch parts. */
  lemma {:induction false} NumbersFit(cfg: ValidConfig, majorStr: string, minorStr: string, patchStr: string, prerelease: string)
    requires IsStrictInt(majorStr) && IsStrictInt(minorStr) && IsStrictInt(patchStr)
    requires !EarlyOverflow(cfg, majorStr, minorStr, patchStr)
    ensures var numbers := majorStr + PadStart(minorStr, cfg.numMinorDigits, '0') + PadStart(patchStr, cfg.numPatchDigits, '0');
      && AllDigits(numbers)
      && |numbers| == |majorStr| + cfg.numMinorDigits + cfg.numPatchDigits
      && Encoding(cfg, majorStr, minorStr, patchStr, prerelease) == WithPrerelease(cfg, numbers, prerelease)
  {
    StrictIntFormatting(majorStr, cfg.numMajorDigits);
    StrictIntFormatting(minorStr, cfg.numMinorDigits);
    StrictIntFormatting(patchStr, cfg.numPatchDigits);
    ValuePadStart(minorStr, cfg.numMinorDigits);
    ValuePadStart(patchStr, cfg.numPatchDigits);
    NumbersAreDigits(majorStr, PadStart(minorStr, cfg.numMinorDigits, '0'), PadStart(patchStr, cfg.numPatchDigits, '0'));
  }

  /**
   * Every successful encoding is a digit string no longer than the four budgets together, exactly
   * that long when the major number fills or overflows its budget, or else the ceiling's own
   * string with a ceiling overflow reported last.
   */
  lemma {:induction false} Width(cfg: ValidConfig, majorStr: string, minorStr: string, patchStr: string, prerelease: string)
    ensures var r := Encoding(cfg, majorStr, minorStr, patchStr, prerelease);
      r.Success? ==>
        var v := r.value.versionStr;
        || (&& AllDigits(v)
            && |v| <= TotalDigits(cfg)
            && (|v| == TotalDigits(cfg) <==> |majorStr| >= cfg.numMajorDigits))
        || (&& cfg.maxSemverInt.Some?
            && v == IntToString(cfg.maxSemverInt.value)
            && |r.value.errs| >= 1
            && r.value.errs[|r.value.errs| - 1].OverflowError?
            && r.value.errs[|r.value.errs| - 1].componentName == SemverInt)
  {
    var r := Encoding(cfg, majorStr, minorStr, patchStr, prerelease);
    if r.Success? {
      EncodingFailure(cfg, majorStr, minorStr, patchStr, prerelease);
      if |majorStr| > cfg.numMajorDigits {
        MajorOverflow(cfg, majorStr, minorStr, patchStr, prerelease);
        ValueNines(TotalDigits(cfg));
      } else if |minorStr| > cfg.numMinorDigits {
        MinorOverflow(cfg, majorStr, minorStr, patchStr, prerelease);
        StrictIntFormatting(majorStr, cfg.numMajorDigits);
        ValueNines(cfg.numMinorDigits + cfg.numPatchDigits + cfg.numPrereleaseDigits);
        DigitsConcat(majorStr, Repeat('9', cfg.numMinorDigits + cfg.numPatchDigits + cfg.numPrereleaseDigits));
      } else if |patchStr| > cfg.numPatchDigits {
        PatchOverflow(cfg, majorStr, minorStr, patchStr, prerelease);
        StrictIntFormatting(majorStr, cfg.numMajorDigits);
        StrictIntFormatting(minorStr, cfg.numMinorDigits);
        ValuePadStart(minorStr, cfg.numMinorDigits);
        ValueNines(cfg.numPatchDigits + cfg.numPrereleaseDigits);
        NumbersAreDigits(majorStr, PadStart(minorStr, cfg.numMinorDigits, '0'),
                         Repeat('9', cfg.numPatchDigits + cfg.numPrereleaseDigits));
      } else {
        NoOverflowLayout(cfg, majorStr, minorStr, patchStr, prerelease);
      }
    }
  }

  /**
   * The errors of a successful encoding: a major, minor or patch overflow only when its policy
   * reports it and its number did not fit, and then alone; prerelease errors only when their
   * policy reports them; a ceiling overflow only last; never more than three.
   */
  lemma {:induction false} ReportedErrors(cfg: ValidConfig, majorStr: string, minorStr: string, patchStr: string, prerelease: string)
    ensures var r := Encoding(cfg, majorStr, minorStr, patchStr, prerelease);
      r.Success? ==> WellReported(cfg, majorStr, minorStr, patchStr, r.value.errs)
  {
    var r := Encoding(cfg, majorStr, minorStr, patchStr, prerelease);
    if r.Success? {
      EncodingFailure(cfg, majorStr, minorStr, patchStr, prerelease);
      if |majorStr| > cfg.numMajorDigits {
        MajorOverflow(cfg, majorStr, minorStr, patchStr, prerelease);
        OneNumberError(cfg, majorStr, minorStr, patchStr, Major, majorStr, cfg.majorVersionErrors);
      } else if |minorStr| > cfg.numMinorDigits {
        MinorOverflow(cfg, majorStr, minorStr, patchStr, prerelease);
        OneNumberError(cfg, majorStr, minorStr, patchStr, Minor, minorStr, cfg.minorVersionErrors);
      } else if |patchStr| > cfg.numPatchDigits {
        PatchOverflow(cfg, majorStr, minorStr, patchStr, prerelease);
        OneNumberError(cfg, majorStr, minorStr, patchStr, Patch, patchStr, cfg.patchVersionErrors);
      } else {
        NoOverflowLayout(cfg, majorStr, minorStr, patchStr, prerelease);
        var p := PrereleaseEncoding(prerelease, cfg.numPrereleaseDigits, cfg.numPrereleaseComponentDigits,
                                    cfg.firstPrereleaseComponentToDigit);
        PrereleaseErrorTags(prerelease, cfg.numPrereleaseDigits, cfg.numPrereleaseComponentDigits,
                            cfg.firstPrereleaseComponentToDigit);
        var kept := FilterReported(cfg, p.value.errs);
        var v := Layout(cfg, majorStr, minorStr, patchStr, p.value.strNum);
        KeptErrors(cfg, majorStr, minorStr, patchStr, p.value.errs);
        if CeilingApplies(cfg, v) {
          CeilingError(cfg, majorStr, minorStr, patchStr, kept, v);
        }
      }
    }
  }

  /**
   * What the error list of a successful encoding holds: at most three errors; a major, minor or
   * patch error only alone, for a reported overflow of that number; only reported prerelease
   * errors; and a ceiling error only last, for a nonzero ceiling.
   */
  predicate WellReported(cfg: ValidConfig, majorStr: string, minorStr: string, patchStr: string, errs: seq<SemverIntError>) {
    && |errs| <= 3
    && (forall e | e in errs && e.componentName == Major ::
          cfg.majorVersionErrors == Error && |majorStr| > cfg.numMajorDigits && errs == [OverflowError(Major, majorStr)])
    && (forall e | e in errs && e.componentName == Minor ::
          cfg.minorVersionErrors == Error && |minorStr| > cfg.numMinorDigits && errs == [OverflowError(Minor, minorStr)])
    && (forall e | e in errs && e.componentName == Patch ::
          cfg.patchVersionErrors == Error && |patchStr| > cfg.numPatchDigits && errs == [OverflowError(Patch, patchStr)])
    && (forall e | e in errs && (e.componentName == Prerelease || e.componentName == PrereleaseComponent) ::
          Reported(cfg, e))
    && (forall n | 0 <= n < |errs| && errs[n].componentName == SemverInt ::
          && errs[n].OverflowError? && n == |errs| - 1
          && cfg.maxSemverInt.Some? && cfg.maxSemverInt.value != 0)
  }

  /** The saturating return of an overflowing number reports at most its own overflow. */
  lemma {:induction false} OneNumberError(cfg: ValidConfig, majorStr: string, minorStr: string, patchStr: string,
                                          tag: SemverComponent, s: string, policy: ErrorPolicy)
    requires (tag == Major && s == majorStr && policy == cfg.majorVersionErrors && |majorStr| > cfg.numMajorDigits)
          || (tag == Minor && s == minorStr && policy == cfg.minorVersionErrors && |minorStr| > cfg.numMinorDigits)
          || (tag == Patch && s == patchStr && policy == cfg.patchVersionErrors && |patchStr| > cfg.numPatchDigits)
    ensures WellReported(cfg, majorStr, minorStr, patchStr, IfReported(policy, OverflowError(tag, s)))
  {
  }

  /** Filtered prerelease errors are well reported. */
  lemma {:induction false} KeptErrors(cfg: ValidConfig, majorStr: string, minorStr: string, patchStr: string,
                                      errs: seq<SemverIntError>)
    requires |errs| <= 2
    requires forall e | e in errs :: e.componentName == Prerelease || e.componentName == PrereleaseComponent
    ensures WellReported(cfg, majorStr, minorStr, patchStr, FilterReported(cfg, errs))
  {
    var kept := FilterReported(cfg, errs);
    assert forall n | 0 <= n < |kept| :: kept[n] in kept;
  }

  /** The ceiling's error comes last, after well-reported prerelease errors. */
  lemma {:induction false} CeilingError(cfg: ValidConfig, majorStr: string, minorStr: string, patchStr: string,
                                        kept: seq<SemverIntError>, v: string)
    requires |kept| <= 2 && AllDigits(v) && CeilingApplies(cfg, v)
    requires forall e | e in kept :: (e.componentName == Prerelease || e.componentName == PrereleaseComponent) && Reported(cfg, e)
    ensures WellReported(cfg, majorStr, minorStr, patchStr, kept + [OverflowError(SemverInt, v)])
  {
    var errs := kept + [OverflowError(SemverInt, v)];
    assert forall n | 0 <= n < |kept| :: errs[n] == kept[n] && kept[n] in kept;
  }


  /**
   * With a positive ceiling, an encoding that reaches the ceiling check (no number overflowed)
   * never exceeds it; with a negative one the check always fires and the result is the ceiling's
   * string, sign included.
   */
  lemma {:induction false} CeilingBound(cfg: ValidConfig, majorStr: string, minorStr: string, patchStr: string, prerelease: string)
    requires !EarlyOverflow(cfg, majorStr, minorStr, patchStr)
    requires cfg.maxSemverInt.Some? && cfg.maxSemverInt.value != 0
    ensures var r := Encoding(cfg, majorStr, minorStr, patchStr, prerelease);
      && (r.Success? && cfg.maxSemverInt.value > 0 ==>
            AllDigits(r.value.versionStr) && Value(r.value.versionStr) <= cfg.maxSemverInt.value)
      && (r.Success? && cfg.maxSemverInt.value < 0 ==>
            r.value.versionStr == "-" + ToDecimal(-cfg.maxSemverInt.value))
  {
    var r := Encoding(cfg, majorStr, minorStr, patchStr, prerelease);
    if r.Success? {
      EncodingFailure(cfg, majorStr, minorStr, patchStr, prerelease);
      NoOverflowLayout(cfg, majorStr, minorStr, patchStr, prerelease);
      if cfg.maxSemverInt.value > 0 {
        ToDecimalValue(cfg.maxSemverInt.value);
      }
    }
  }

  /**
   * A zero prerelease budget with a present label adds no digits and one prerelease overflow,
   * kept exactly when 'prereleaseErrors' reports it.
   */
  lemma {:induction false} ZeroPrereleaseBudget(cfg: ValidConfig, majorStr: string, minorStr: string, patchStr: string, prerelease: string)
    requires IsStrictInt(majorStr) && IsStrictInt(minorStr) && IsStrictInt(patchStr)
    requires !EarlyOverflow(cfg, majorStr, minorStr, patchStr)
    requires cfg.numPrereleaseDigits == 0 && prerelease != ""
    requires cfg.maxSemverInt.None? || cfg.maxSemverInt.value == 0
    ensures Encoding(cfg, majorStr, minorStr, patchStr, prerelease)
         == Success(SemverIntResult(Layout(cfg, majorStr, minorStr, patchStr, ""),
                                    IfReported(cfg.prereleaseErrors, OverflowError(Prerelease, prerelease))))
  {
    NoOverflowLayout(cfg, majorStr, minorStr, patchStr, prerelease);
    var e := OverflowError(Prerelease, prerelease);
    var p := PrereleaseEncoding(prerelease, cfg.numPrereleaseDigits, cfg.numPrereleaseComponentDigits,
                                cfg.firstPrereleaseComponentToDigit);
    assert p == Success(PrereleaseResult("", [e]));
    assert [e][..0] == [];
    assert FilterReported(cfg, [e]) == IfReported(cfg.prereleaseErrors, e);
    var v := Layout(cfg, majorStr, minorStr, patchStr, "");
    assert AllDigits(v);
    assert !CeilingApplies(cfg, v);
  }

  // ---------------------------------------------------------------------------------------------
  // The encoded value and its order

  /** A part of value `x` does not fit a `w`-digit budget, so its formatter saturates it. */
  predicate Overflows(x: nat, w: nat) {
    w == 0 || x >= Pow10(w)
  }

  /**
   * The value of a `w`-digit part `x` followed by `rw` more digits worth `rest`; once `x`
   * overflows, the cascade fills all `w + rw` digits with nines.
   */
  function Level(x: nat, w: nat, rest: nat, rw: nat): nat {
    if Overflows(x, w) then Pow10(w + rw) - 1 else x * Pow10(rw) + rest
  }

  /** The key of three parts that fit their budgets, written out in positional form. */
  lemma {:induction false} KeyOfFitting(cfg: ValidConfig, a: nat, b: nat, c: nat, p: nat)
    requires !Overflows(a, cfg.numMajorDigits) && !Overflows(b, cfg.numMinorDigits) && !Overflows(c, cfg.numPatchDigits)
    ensures VersionKey(cfg, a, b, c, p)
         == a * Pow10(cfg.numMinorDigits + cfg.numPatchDigits + cfg.numPrereleaseDigits)
            + (b * Pow10(cfg.numPatchDigits + cfg.numPrereleaseDigits) + (c * Pow10(cfg.numPrereleaseDigits) + p))
  {
  }

  /** The key of a version whose patch number overflows, written out in positional form. */
  lemma {:induction false} KeyOfPatchOverflow(cfg: ValidConfig, a: nat, b: nat, c: nat, p: nat)
    requires !Overflows(a, cfg.numMajorDigits) && !Overflows(b, cfg.numMinorDigits) && Overflows(c, cfg.numPatchDigits)
    ensures VersionKey(cfg, a, b, c, p)
         == a * Pow10(cfg.numMinorDigits + cfg.numPatchDigits + cfg.numPrereleaseDigits)
            + (b * Pow10(cfg.numPatchDigits + cfg.numPrereleaseDigits) + (Pow10(cfg.numPatchDigits + cfg.numPrereleaseDigits) - 1))
  {
  }

  /** A strict integer overflows a budget exactly when its literal is longer than the budget. */
  lemma {:induction false} StrictOverflows(s: string, w: nat)
    requires IsStrictInt(s)
    ensures AllDigits(s) && (Overflows(Value(s), w) <==> |s| > w)
  {
    ValueBound(s);
    if |s| <= w {
      Pow10Monotone(|s|, w);
    } else if w > 0 {
      ValueLowerBound(s);
      Pow10Monotone(w, |s| - 1);
    }
  }

  /** A level stays within its `w + rw` digits. */
  lemma {:induction false} LevelBound(x: nat, w: nat, rest: nat, rw: nat)
    requires rest < Pow10(rw)
    ensures Level(x, w, rest, rw) < Pow10(w + rw)
  {
    Pow10Add(w, rw);
    if !Overflows(x, w) {
      MulMonotone(Pow10(w) - 1, x, Pow10(rw));
      assert (Pow10(w) - 1) * Pow10(rw) == Pow10(w) * Pow10(rw) - Pow10(rw);
    }
  }

  /** Levels are ordered by the part first and by the rest when the parts are equal. */
  lemma {:induction false} LevelMonotone(x1: nat, x2: nat, w: nat, rest1: nat, rest2: nat, rw: nat)
    requires rest1 < Pow10(rw) && rest2 < Pow10(rw)
    requires x1 <= x2 && (x1 == x2 ==> rest1 <= rest2)
    ensures Level(x1, w, rest1, rw) <= Level(x2, w, rest2, rw)
  {
    LevelBound(x1, w, rest1, rw);
    if !Overflows(x2, w) && x1 < x2 {
      MulMonotone(x2, x1 + 1, Pow10(rw));
      assert (x1 + 1) * Pow10(rw) == x1 * Pow10(rw) + Pow10(rw);
    }
  }

  /** The value the four budgets give a version with these part values, before the ceiling. */
  function VersionKey(cfg: ValidConfig, major: nat, minor: nat, patch: nat, prereleaseValue: nat): nat {
    Level(major, cfg.numMajorDigits,
          Level(minor, cfg.numMinorDigits,
                Level(patch, cfg.numPatchDigits, prereleaseValue, cfg.numPrereleaseDigits),
                cfg.numPatchDigits + cfg.numPrereleaseDigits),
          cfg.numMinorDigits + cfg.numPatchDigits + cfg.numPrereleaseDigits)
  }

  /** The value of the prerelease digits (0 for a label that does not encode). */
  function PrereleaseValue(cfg: ValidConfig, prerelease: string): nat {
    var p := PrereleaseEncoding(prerelease, cfg.numPrereleaseDigits, cfg.numPrereleaseComponentDigits,
                                cfg.firstPrereleaseComponentToDigit);
    if p.Success? then Value(p.value.strNum) else 0
  }

  /** Prerelease values fit the prerelease budget, and an absent prerelease has the largest one. */
  lemma {:induction false} PrereleaseValueBound(cfg: ValidConfig, prerelease: string)
    ensures PrereleaseValue(cfg, prerelease) < Pow10(cfg.numPrereleaseDigits)
    ensures PrereleaseValue(cfg, "") == Pow10(cfg.numPrereleaseDigits) - 1
  {
    var p := PrereleaseEncoding(prerelease, cfg.numPrereleaseDigits, cfg.numPrereleaseComponentDigits,
                                cfg.firstPrereleaseComponentToDigit);
    if p.Success? {
      ValueBound(p.value.strNum);
    }
    ValueNines(cfg.numPrereleaseDigits);
  }

  lemma {:induction false} Horner(a: nat, b: nat, c: nat, p: nat, pb: nat, pc: nat, pd: nat)
    ensures ((a * pb + b) * pc + c) * pd + p == a * (pb * (pc * pd)) + (b * (pc * pd) + (c * pd + p))
  {
    calc {
      ((a * pb + b) * pc + c) * pd + p;
      (a * pb * pc + b * pc + c) * pd + p;
      a * pb * pc * pd + b * pc * pd + c * pd + p;
      a * (pb * (pc * pd)) + (b * (pc * pd) + (c * pd + p));
    }
  }

  lemma {:induction false} Horner2(a: nat, b: nat, pb: nat, pc: nat, q: nat)
    ensures (a * pb + b) * pc + q == a * (pb * pc) + (b * pc + q)
  {
    calc {
      (a * pb + b) * pc + q;
      a * pb * pc + b * pc + q;
      a * (pb * pc) + (b * pc + q);
    }
  }

  /** A string that is its key's digits, or the ceiling's string where the encoding caps it. */
  predicate KeyOrCeiling(ceiling: Option<int>, early: bool, key: nat, versionStr: string) {
    if !early && ceiling.Some? && ceiling.value != 0 && key > ceiling.value
    then versionStr == IntToString(ceiling.value)
    else AllDigits(versionStr) && Value(versionStr) == key
  }

  /**
   * The value of a successful encoding is the version key of its parts, except that a version
   * reaching the ceiling check with a key above a nonzero ceiling gets the ceiling's string.
   */
  lemma {:induction false} EncodedValue(cfg: ValidConfig, majorStr: string, minorStr: string, patchStr: string, prerelease: string,
                     r: SemverIntResult)
    requires IsStrictInt(majorStr) && IsStrictInt(minorStr) && IsStrictInt(patchStr)
    requires Encoding(cfg, majorStr, minorStr, patchStr, prerelease) == Success(r)
    ensures KeyOrCeiling(cfg.maxSemverInt, EarlyOverflow(cfg, majorStr, minorStr, patchStr),
                         VersionKey(cfg, Value(majorStr), Value(minorStr), Value(patchStr), PrereleaseValue(cfg, prerelease)),
                         r.versionStr)
  {
    var pv := PrereleaseValue(cfg, prerelease);
    if |majorStr| > cfg.numMajorDigits {
      MajorOverflow(cfg, majorStr, minorStr, patchStr, prerelease);
      MajorOverflowKey(cfg, majorStr, minorStr, patchStr, pv);
    } else if |minorStr| > cfg.numMinorDigits {
      MinorOverflow(cfg, majorStr, minorStr, patchStr, prerelease);
      MinorOverflowKey(cfg, majorStr, minorStr, patchStr, pv);
    } else if |patchStr| > cfg.numPatchDigits {
      PatchOverflow(cfg, majorStr, minorStr, patchStr, prerelease);
      PatchOverflowKey(cfg, majorStr, minorStr, patchStr, pv);
    } else {
      EncodingFailure(cfg, majorStr, minorStr, patchStr, prerelease);
      var pr := PrereleaseEncoding(prerelease, cfg.numPrereleaseDigits, cfg.numPrereleaseComponentDigits,
                                   cfg.firstPrereleaseComponentToDigit);
      NoOverflowLayout(cfg, majorStr, minorStr, patchStr, prerelease);
      LayoutKey(cfg, majorStr, minorStr, patchStr, pr.value.strNum);
    }
  }

  /** A major number that overflows: all nines, the key of the version. */
  lemma {:induction false} MajorOverflowKey(cfg: ValidConfig, majorStr: string, minorStr: string, patchStr: string, pv: nat)
    requires IsStrictInt(majorStr) && IsStrictInt(minorStr) && IsStrictInt(patchStr)
    requires |majorStr| > cfg.numMajorDigits
    ensures var v := Repeat('9', TotalDigits(cfg));
      AllDigits(v) && Value(v) == VersionKey(cfg, Value(majorStr), Value(minorStr), Value(patchStr), pv)
  {
    StrictOverflows(majorStr, cfg.numMajorDigits);
    ValueNines(TotalDigits(cfg));
    KeyOfMajorOverflow(cfg, Value(majorStr), Value(minorStr), Value(patchStr), pv);
  }

  /** The key of a version whose major number overflows: all nines. */
  lemma {:induction false} KeyOfMajorOverflow(cfg: ValidConfig, a: nat, b: nat, c: nat, p: nat)
    requires Overflows(a, cfg.numMajorDigits)
    ensures VersionKey(cfg, a, b, c, p) == Pow10(TotalDigits(cfg)) - 1
  {
    assert cfg.numMajorDigits + (cfg.numMinorDigits + cfg.numPatchDigits + cfg.numPrereleaseDigits) == TotalDigits(cfg);
  }

  /** A minor number that overflows: the major part then nines, the key of the version. */
  lemma {:induction false} MinorOverflowKey(cfg: ValidConfig, majorStr: string, minorStr: string, patchStr: string, pv: nat)
    requires IsStrictInt(majorStr) && IsStrictInt(minorStr) && IsStrictInt(patchStr)
    requires |majorStr| <= cfg.numMajorDigits && |minorStr| > cfg.numMinorDigits
    ensures var v := majorStr + Repeat('9', cfg.numMinorDigits + cfg.numPatchDigits + cfg.numPrereleaseDigits);
      AllDigits(v) && Value(v) == VersionKey(cfg, Value(majorStr), Value(minorStr), Value(patchStr), pv)
  {
    StrictOverflows(majorStr, cfg.numMajorDigits);
    StrictOverflows(minorStr, cfg.numMinorDigits);
    NinesAfter(majorStr, cfg.numMinorDigits + cfg.numPatchDigits + cfg.numPrereleaseDigits);
    KeyOfMinorOverflow(cfg, Value(majorStr), Value(minorStr), Value(patchStr), pv);
  }

  /** The key of a version whose minor number overflows: the major part, then nines. */
  lemma {:induction false} KeyOfMinorOverflow(cfg: ValidConfig, a: nat, b: nat, c: nat, p: nat)
    requires !Overflows(a, cfg.numMajorDigits) && Overflows(b, cfg.numMinorDigits)
    ensures VersionKey(cfg, a, b, c, p)
         == a * Pow10(cfg.numMinorDigits + cfg.numPatchDigits + cfg.numPrereleaseDigits)
            + (Pow10(cfg.numMinorDigits + cfg.numPatchDigits + cfg.numPrereleaseDigits) - 1)
  {
    assert cfg.numMinorDigits + (cfg.numPatchDigits + cfg.numPrereleaseDigits)
        == cfg.numMinorDigits + cfg.numPatchDigits + cfg.numPrereleaseDigits;
  }

  /** The value of a digit string followed by `rw` nines. */
  lemma {:induction false} NinesAfter(front: string, rw: nat)
    requires AllDigits(front)
    ensures AllDigits(front + Repeat('9', rw))
    ensures Value(front + Repeat('9', rw)) == Value(front) * Pow10(rw) + (Pow10(rw) - 1)
  {
    ValueNines(rw);
    ValueConcat(front, Repeat('9', rw));
  }

  /** A patch number that overflows: the major part, the padded minor part, then nines. */
  lemma {:induction false} PatchOverflowKey(cfg: ValidConfig, majorStr: string, minorStr: string, patchStr: string, pv: nat)
    requires IsStrictInt(majorStr) && IsStrictInt(minorStr) && IsStrictInt(patchStr)
    requires |majorStr| <= cfg.numMajorDigits && |minorStr| <= cfg.numMinorDigits && |patchStr| > cfg.numPatchDigits
    ensures var v := majorStr + PadStart(minorStr, cfg.numMinorDigits, '0')
                     + Repeat('9', cfg.numPatchDigits + cfg.numPrereleaseDigits);
      AllDigits(v) && Value(v) == VersionKey(cfg, Value(majorStr), Value(minorStr), Value(patchStr), pv)
  {
    StrictOverflows(majorStr, cfg.numMajorDigits);
    StrictOverflows(minorStr, cfg.numMinorDigits);
    StrictOverflows(patchStr, cfg.numPatchDigits);
    PaddedThenNines(majorStr, minorStr, cfg.numMinorDigits, cfg.numPatchDigits + cfg.numPrereleaseDigits);
    KeyOfPatchOverflow(cfg, Value(majorStr), Value(minorStr), Value(patchStr), pv);
  }

  /** The value of a major part, a zero-padded minor part and `rw` nines. */
  lemma {:induction false} PaddedThenNines(majorStr: string, minorStr: string, wb: nat, rw: nat)
    requires AllDigits(majorStr) && AllDigits(minorStr) && |minorStr| <= wb
    ensures var v := majorStr + PadStart(minorStr, wb, '0') + Repeat('9', rw);
      AllDigits(v) && Value(v) == Value(majorStr) * Pow10(wb + rw) + (Value(minorStr) * Pow10(rw) + (Pow10(rw) - 1))
  {
    var minorPart := PadStart(minorStr, wb, '0');
    ValuePadStart(minorStr, wb);
    ValueNines(rw);
    ValueConcat(majorStr, minorPart);
    ValueConcat(majorStr + minorPart, Repeat('9', rw));
    Pow10Add(wb, rw);
    Horner2(Value(majorStr), Value(minorStr), Pow10(wb), Pow10(rw), Pow10(rw) - 1);
  }

  /** When all three numbers fit, the layout of the four parts has the version key as its value. */
  lemma {:induction false} LayoutKey(cfg: ValidConfig, majorStr: string, minorStr: string, patchStr: string, prereleaseDigits: string)
    requires IsStrictInt(majorStr) && IsStrictInt(minorStr) && IsStrictInt(patchStr)
    requires !EarlyOverflow(cfg, majorStr, minorStr, patchStr)
    requires AllDigits(prereleaseDigits) && |prereleaseDigits| == cfg.numPrereleaseDigits
    ensures var v := Layout(cfg, majorStr, minorStr, patchStr, prereleaseDigits);
      AllDigits(v) && Value(v) == VersionKey(cfg, Value(majorStr), Value(minorStr), Value(patchStr), Value(prereleaseDigits))
  {
    StrictOverflows(majorStr, cfg.numMajorDigits);
    StrictOverflows(minorStr, cfg.numMinorDigits);
    StrictOverflows(patchStr, cfg.numPatchDigits);
    LayoutValue(majorStr, minorStr, patchStr, prereleaseDigits, cfg.numMinorDigits, cfg.numPatchDigits, cfg.numPrereleaseDigits);
    KeyOfFitting(cfg, Value(majorStr), Value(minorStr), Value(patchStr), Value(prereleaseDigits));
  }

  /** The value of the four parts, each scaled by the digits after it. */
  lemma {:induction false} LayoutValue(majorStr: string, minorStr: string, patchStr: string, prereleaseDigits: string, wb: nat, wc: nat, wd: nat)
    requires AllDigits(majorStr) && AllDigits(minorStr) && AllDigits(patchStr) && AllDigits(prereleaseDigits)
    requires |minorStr| <= wb && |patchStr| <= wc && |prereleaseDigits| == wd
    ensures var v := majorStr + PadStart(minorStr, wb, '0') + PadStart(patchStr, wc, '0') + prereleaseDigits;
      && AllDigits(v)
      && Value(v) == Value(majorStr) * Pow10(wb + wc + wd)
                     + (Value(minorStr) * Pow10(wc + wd) + (Value(patchStr) * Pow10(wd) + Value(prereleaseDigits)))
  {
    var minorPart, patchPart := PadStart(minorStr, wb, '0'), PadStart(patchStr, wc, '0');
    ValuePadStart(minorStr, wb);
    ValuePadStart(patchStr, wc);
    ValueConcat(majorStr, minorPart);
    ValueConcat(majorStr + minorPart, patchPart);
    ValueConcat(majorStr + minorPart + patchPart, prereleaseDigits);
    Pow10Add(wc, wd);
    Pow10Add(wb, wc + wd);
    Horner(Value(majorStr), Value(minorStr), Value(patchStr), Value(prereleaseDigits), Pow10(wb), Pow10(wc), Pow10(wd));
  }

  /** Version numbers ordered by major, then minor, then patch. */
  predicate TripleLe(a1: nat, b1: nat, c1: nat, a2: nat, b2: nat, c2: nat) {
    a1 < a2 || (a1 == a2 && (b1 < b2 || (b1 == b2 && c1 <= c2)))
  }

  /** The version key respects version order, with the prerelease value breaking ties. */
  lemma {:induction false} KeyMonotone(cfg: ValidConfig, a1: nat, b1: nat, c1: nat, p1: nat, a2: nat, b2: nat, c2: nat, p2: nat)
    requires TripleLe(a1, b1, c1, a2, b2, c2)
    requires a1 == a2 && b1 == b2 && c1 == c2 ==> p1 <= p2
    requires p1 < Pow10(cfg.numPrereleaseDigits) && p2 < Pow10(cfg.numPrereleaseDigits)
    ensures VersionKey(cfg, a1, b1, c1, p1) <= VersionKey(cfg, a2, b2, c2, p2)
  {
    var wa, wb, wc, wd := cfg.numMajorDigits, cfg.numMinorDigits, cfg.numPatchDigits, cfg.numPrereleaseDigits;
    var i1, i2 := Level(c1, wc, p1, wd), Level(c2, wc, p2, wd);
    LevelBound(c1, wc, p1, wd);
    LevelBound(c2, wc, p2, wd);
    if a1 == a2 && b1 == b2 {
      LevelMonotone(c1, c2, wc, p1, p2, wd);
    }
    var m1, m2 := Level(b1, wb, i1, wc + wd), Level(b2, wb, i2, wc + wd);
    LevelBound(b1, wb, i1, wc + wd);
    LevelBound(b2, wb, i2, wc + wd);
    if a1 == a2 {
      LevelMonotone(b1, b2, wb, i1, i2, wc + wd);
    }
    LevelMonotone(a1, a2, wa, m1, m2, wb + wc + wd);
  }

  /**
   * Encoding preserves version order: a version that is not greater encodes to a number that is
   * not greater. An absent or nonzero-negative ceiling is excluded, and so is a positive ceiling
   * when the smaller version takes an early overflow return (which skips the ceiling).
   */
  lemma {:induction false} Monotone(cfg: ValidConfig, majorStr1: string, minorStr1: string, patchStr1: string, prerelease1: string,
                 majorStr2: string, minorStr2: string, patchStr2: string, prerelease2: string,
                 r1: SemverIntResult, r2: SemverIntResult)
    requires IsStrictInt(majorStr1) && IsStrictInt(minorStr1) && IsStrictInt(patchStr1)
    requires IsStrictInt(majorStr2) && IsStrictInt(minorStr2) && IsStrictInt(patchStr2)
    requires Encoding(cfg, majorStr1, minorStr1, patchStr1, prerelease1) == Success(r1)
    requires Encoding(cfg, majorStr2, minorStr2, patchStr2, prerelease2) == Success(r2)
    requires TripleLe(Value(majorStr1), Value(minorStr1), Value(patchStr1), Value(majorStr2), Value(minorStr2), Value(patchStr2))
    requires Value(majorStr1) == Value(majorStr2) && Value(minorStr1) == Value(minorStr2) && Value(patchStr1) == Value(patchStr2)
             ==> PrereleaseValue(cfg, prerelease1) <= PrereleaseValue(cfg, prerelease2)
    requires cfg.maxSemverInt.None? || cfg.maxSemverInt.value == 0
             || (cfg.maxSemverInt.value > 0 && !EarlyOverflow(cfg, majorStr1, minorStr1, patchStr1))
    ensures AllDigits(r1.versionStr) && AllDigits(r2.versionStr)
    ensures Value(r1.versionStr) <= Value(r2.versionStr)
  {
    StrictIntIsDigits(majorStr1);
    StrictIntIsDigits(minorStr1);
    StrictIntIsDigits(patchStr1);
    StrictIntIsDigits(majorStr2);
    StrictIntIsDigits(minorStr2);
    StrictIntIsDigits(patchStr2);
    EncodedNumber(cfg, majorStr1, minorStr1, patchStr1, prerelease1, r1);
    EncodedNumber(cfg, majorStr2, minorStr2, patchStr2, prerelease2, r2);
    PrereleaseValueBound(cfg, prerelease1);
    PrereleaseValueBound(cfg, prerelease2);
    OrderedKeys(cfg, Value(majorStr1), Value(minorStr1), Value(patchStr1), PrereleaseValue(cfg, prerelease1),
                EarlyOverflow(cfg, majorStr1, minorStr1, patchStr1),
                Value(majorStr2), Value(minorStr2), Value(patchStr2), PrereleaseValue(cfg, prerelease2),
                EarlyOverflow(cfg, majorStr2, minorStr2, patchStr2));
  }

  /** The key, or the ceiling when that is positive, the check is reached and the key exceeds it. */
  function CappedKey(ceiling: Option<int>, early: bool, key: nat): nat {
    if !early && ceiling.Some? && ceiling.value > 0 && key > ceiling.value then ceiling.value else key
  }

  /** With no negative ceiling, every successful encoding is a digit string worth its capped key. */
  lemma {:induction false} EncodedNumber(cfg: ValidConfig, majorStr: string, minorStr: string, patchStr: string, prerelease: string,
                      r: SemverIntResult)
    requires IsStrictInt(majorStr) && IsStrictInt(minorStr) && IsStrictInt(patchStr)
    requires Encoding(cfg, majorStr, minorStr, patchStr, prerelease) == Success(r)
    requires cfg.maxSemverInt.None? || cfg.maxSemverInt.value >= 0
    ensures AllDigits(r.versionStr)
    ensures Value(r.versionStr)
         == CappedKey(cfg.maxSemverInt, EarlyOverflow(cfg, majorStr, minorStr, patchStr),
                      VersionKey(cfg, Value(majorStr), Value(minorStr), Value(patchStr), PrereleaseValue(cfg, prerelease)))
  {
    EncodedValue(cfg, majorStr, minorStr, patchStr, prerelease, r);
    if cfg.maxSemverInt.Some? && cfg.maxSemverInt.value > 0 {
      ToDecimalValue(cfg.maxSemverInt.value);
    }
  }

  /** Ordered versions have ordered capped keys, unless the smaller one escapes a positive ceiling. */
  lemma {:induction false} OrderedKeys(cfg: ValidConfig, a1: nat, b1: nat, c1: nat, p1: nat, early1: bool,
                                       a2: nat, b2: nat, c2: nat, p2: nat, early2: bool)
    requires TripleLe(a1, b1, c1, a2, b2, c2)
    requires a1 == a2 && b1 == b2 && c1 == c2 ==> p1 <= p2
    requires p1 < Pow10(cfg.numPrereleaseDigits) && p2 < Pow10(cfg.numPrereleaseDigits)
    requires cfg.maxSemverInt.None? || cfg.maxSemverInt.value == 0 || (cfg.maxSemverInt.value > 0 && !early1)
    ensures CappedKey(cfg.maxSemverInt, early1, VersionKey(cfg, a1, b1, c1, p1))
         <= CappedKey(cfg.maxSemverInt, early2, VersionKey(cfg, a2, b2, c2, p2))
  {
    KeyMonotone(cfg, a1, b1, c1, p1, a2, b2, c2, p2);
  }

  /** A version without a prerelease encodes to at least the same version with any prerelease. */
  lemma {:induction false} AbsentPrereleaseIsGreatest(cfg: ValidConfig, majorStr: string, minorStr: string, patchStr: string,
                                   prerelease: string, r: SemverIntResult, release: SemverIntResult)
    requires IsStrictInt(majorStr) && IsStrictInt(minorStr) && IsStrictInt(patchStr)
    requires Encoding(cfg, majorStr, minorStr, patchStr, prerelease) == Success(r)
    requires Encoding(cfg, majorStr, minorStr, patchStr, "") == Success(release)
    requires cfg.maxSemverInt.None? || cfg.maxSemverInt.value >= 0
    ensures AllDigits(r.versionStr) && AllDigits(release.versionStr)
    ensures Value(r.versionStr) <= Value(release.versionStr)
  {
    if EarlyOverflow(cfg, majorStr, minorStr, patchStr) {
      EarlyOverflowIgnoresPrerelease(cfg, majorStr, minorStr, patchStr, prerelease);
      EncodedNumber(cfg, majorStr, minorStr, patchStr, prerelease, r);
    } else {
      PrereleaseValueBound(cfg, prerelease);
      PrereleaseValueBound(cfg, "");
      Monotone(cfg, majorStr, minorStr, patchStr, prerelease, majorStr, minorStr, patchStr, "", r, release);
    }
  }

  /** An early overflow return never looks at the prerelease. */
  lemma {:induction false} EarlyOverflowIgnoresPrerelease(cfg: ValidConfig, majorStr: string, minorStr: string,
                                                          patchStr: string, prerelease: string)
    requires IsStrictInt(majorStr) && IsStrictInt(minorStr) && IsStrictInt(patchStr)
    requires EarlyOverflow(cfg, majorStr, minorStr, patchStr)
    ensures Encoding(cfg, majorStr, minorStr, patchStr, prerelease) == Encoding(cfg, majorStr, minorStr, patchStr, "")
  {
    if |majorStr| > cfg.numMajorDigits {
      MajorOverflow(cfg, majorStr, minorStr, patchStr, prerelease);
      MajorOverflow(cfg, majorStr, minorStr, patchStr, "");
    } else if |minorStr| > cfg.numMinorDigits {
      MinorOverflow(cfg, majorStr, minorStr, patchStr, prerelease);
      MinorOverflow(cfg, majorStr, minorStr, patchStr, "");
    } else {
      PatchOverflow(cfg, majorStr, minorStr, patchStr, prerelease);
      PatchOverflow(cfg, majorStr, minorStr, patchStr, "");
    }
  }

  /** One-digit budgets (and one digit per prerelease component), every policy 'error' and a ceiling of 1500. */
  const SmallBudgets: ValidConfig := SemverIntConfig(1, 1, 1, 1, 1, Error, Error, Error, Error, Error, Some(1500), None)

  /**
   * The ceiling is checked only on the path where all three numbers fit: 1.10.0 saturates to 1999,
   * above the ceiling, while the greater 2.0.0 is capped to 1500.
   */
  lemma {:induction false} CeilingSkippedOnOverflow()
    ensures AllDigits("1999") && AllDigits("1500") && Value("1999") > Value("1500")
    ensures Encoding(SmallBudgets, "1", "10", "0", "") == Success(SemverIntResult("1999", [OverflowError(Minor, "10")]))
    ensures Encoding(SmallBudgets, "2", "0", "0", "") == Success(SemverIntResult("1500", [OverflowError(SemverInt, "2009")]))
  {
    SaturatedVersionEscapesCeiling();
    FittingVersionIsCapped();
    LiteralValues();
  }

  lemma {:induction false} SaturatedVersionEscapesCeiling()
    ensures Encoding(SmallBudgets, "1", "10", "0", "") == Success(SemverIntResult("1999", [OverflowError(Minor, "10")]))
  {
    assert "1" + Repeat('9', 3) == "1999";
    MinorOverflow(SmallBudgets, "1", "10", "0", "");
  }

  lemma {:induction false} FittingVersionIsCapped()
    ensures Encoding(SmallBudgets, "2", "0", "0", "") == Success(SemverIntResult("1500", [OverflowError(SemverInt, "2009")]))
  {
    assert Repeat('9', 1) == "9" by {
      assert Repeat('9', 0) == [];
    }
    assert PrereleaseEncoding("", 1, 1, None) == Success(PrereleaseResult("9", []));
    assert Layout(SmallBudgets, "2", "0", "0", "9") == "2009";
    LiteralValues();
    assert CeilingApplies(SmallBudgets, "2009");
    assert IntToString(1500) == "1500";
    assert FilterReported(SmallBudgets, []) == [];
    assert [] + [OverflowError(SemverInt, "2009")] == [OverflowError(SemverInt, "2009")];
    NoOverflowLayout(SmallBudgets, "2", "0", "0", "");
  }

  /** The values of the literals the counterexample compares. */
  lemma {:induction false} LiteralValues()
    ensures AllDigits("1999") && AllDigits("1500") && AllDigits("2009")
    ensures Value("1999") == 1999 && Value("1500") == 1500 && Value("2009") == 2009
    ensures ToDecimal(1500) == "1500"
  {
    FourDigitValue("1999", 1, 9, 9, 9);
    FourDigitValue("1500", 1, 5, 0, 0);
    FourDigitValue("2009", 2, 0, 0, 9);
    DecimalOf1500();
  }

  lemma {:induction false} DecimalOf1500()
    ensures ToDecimal(1500) == "1500"
  {
    assert ToDecimal(1) == "1";
    assert ToDecimal(15) == "1" + "5";
    assert ToDecimal(150) == "15" + "0";
    assert ToDecimal(1500) == "150" + "0";
  }

  /** The value of a four-digit literal. */
  lemma {:induction false} FourDigitValue(s: string, a: nat, b: nat, c: nat, d: nat)
    requires |s| == 4 && AllDigits(s)
    requires DigitValue(s[0]) == a && DigitValue(s[1]) == b && DigitValue(s[2]) == c && DigitValue(s[3]) == d
    ensures Value(s) == 1000 * a + 100 * b + 10 * c + d
  {
    var s1, s2, s3 := s[..1], s[..2], s[..3];
    assert s1[..0] == [] && s1[0] == s[0];
    assert Value(s1) == a;
    assert s2[..1] == s1 && s2[1] == s[1];
    assert Value(s2) == 10 * a + b;
    assert s3[..2] == s2 && s3[2] == s[2];
    assert Value(s3) == 100 * a + 10 * b + c;
    assert s[..3] == s3;
  }

  /** With both prerelease policies 'error', filtering keeps a list of prerelease errors whole. */
  lemma {:induction false} FilterKeepsAll(cfg: SemverIntConfig, errs: seq<SemverIntError>)
    requires cfg.prereleaseErrors == Error && cfg.prereleaseNumericComponentErrors == Error
    requires forall i | 0 <= i < |errs| :: errs[i].componentName == Prerelease || errs[i].componentName == PrereleaseComponent
    ensures FilterReported(cfg, errs) == errs
  {
    if errs != [] {
      var front, last := errs[..|errs| - 1], errs[|errs| - 1];
      assert forall i | 0 <= i < |front| :: front[i] == errs[i];
      FilterKeepsAll(cfg, front);
      assert Reported(cfg, last);
      assert front + [last] == errs;
    }
  }

  /** With both prerelease policies 'ignore', filtering drops everything. */
  lemma {:induction false} FilterDropsAll(cfg: SemverIntConfig, errs: seq<SemverIntError>)
    requires cfg.prereleaseErrors == Ignore && cfg.prereleaseNumericComponentErrors == Ignore
    ensures FilterReported(cfg, errs) == []
  {
    if errs != [] {
      FilterDropsAll(cfg, errs[..|errs| - 1]);
    }
  }
}
