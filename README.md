# semverint in Dafny

A model of the core of `semverint`, a library that turns a semantic version
(`major.minor.patch` plus an optional prerelease label) into one decimal digit string whose
integer value is meant to sort like the versions do. Each part has a digit budget. A part that
does not fit saturates with nines and ends the encoding. Each part has an error policy that
decides whether its overflow is reported or silently encoded. The prerelease label is encoded
one dot-separated component at a time: numerically, as two-digit character codes, or through a
nine-entry override table for its first component. An optional ceiling caps the final number.

The project has seven modules, one per file:

- `Wrappers` (`wrappers.dfy`): `Option` and `Result`. An exception thrown by the source is a
  `Failure` carrying its message.
- `Digits` (`digits.dfy`): digit strings and their exact integer value. It models `Number(s)`
  on digit strings, `String(n)`, `padStart`, `padEnd` and `repeat`.
- `Errors` (`errors.dfy`): the component tags, the two error kinds and their messages.
- `Config` (`config.dfy`): the configuration record, its defaults and the
  `{ ...DefaultConfig, ...newConfig }` merge.
- `NumericUtils` (`numeric_utils.dfy`): `isStrictInt`, `fmtLimitSizeNumeric` and
  `fmtFixedSizeNumeric`.
- `PrereleaseUtils` (`prerelease_utils.dfy`): the character table, `fmtFixedSizePrerelease`
  and `prereleaseToInt`.
- `Converter` (`converter.dfy`): the `SemverIntConverter` class with its validating
  constructor and `semverToInt`.

**Pure and imperative parts.** The pure parts are functions with lemmas about them. These are
the formatters, the table, the configuration merge and the error messages.

`prereleaseToInt` and `semverToInt` build their results step by step, so they are
methods with loops or sequential updates:

- `PrereleaseUtils.AsciiComponentNum`, `PrereleaseUtils.EncodeComponent`,
  `PrereleaseUtils.EncodeComponentsLoop` and `PrereleaseUtils.PrereleaseToInt`;
- `Converter.SemverIntConverter.SemverToInt`.

Each method is proved equal to a specification function: `EncodeStep`, `EncodeComponents`,
`PrereleaseEncoding` and `Encoding`. The properties are then proved about those functions.

**Numbers.** They are exact. `Number(s)` of an all-digit string is `Digits.Value(s)`. The
`Math.log10` digit count is `|ToDecimal(n)|`. `Math.round(x / f) * f` is half-up integer
rounding. `BigInt(versionStr)` is `Value(versionStr)`. A ceiling is an arbitrary integer
(`Option<int>`). The source tests it with `this.cfg.maxSemverInt && …`, so a ceiling of `0`
is treated as absent.

**Behaviour worth knowing.**

- **Early returns skip the ceiling.** The three early returns on a major, minor or patch
  overflow (`src/converter.ts:59`, `:69`, `:79`) come before the ceiling check
  (`src/converter.ts:97-100`), so the ceiling applies only when no number overflowed. Under
  budgets 1/1/1/1 and ceiling 1500 (`Converter.SmallBudgets`), `1.10.0` encodes to `1999`,
  above the ceiling, while `2.0.0` is capped to `1500` (`Converter.CeilingSkippedOnOverflow`).
  Order preservation (`Converter.Monotone`) therefore excludes this case.
- **The major number is not padded.** `fmtLimitSizeNumeric` never pads
  (`src/numericUtils.ts:40`, used at `src/converter.ts:52-53`). The result is exactly
  `TotalDigits` long only when the major number fills its budget (`Converter.Width`).
- **A release and a prerelease can tie.** A version without a prerelease gets all nines for
  its prerelease digits (`src/prereleaseUtils.ts:110-112`). A prerelease whose component
  overflows is also filled with nines (`src/prereleaseUtils.ts:144-147`, `:161-164`), so the
  two can encode equally (`Converter.AbsentPrereleaseIsGreatest` states `>=`).
- **A short prerelease number is padded with `'0'` on the right** (`src/prereleaseUtils.ts:82`).
- **The fixed-width formatter accepts width 0.** It passes width 0 to `fmtLimitSizeNumeric`,
  which returns no digits and overflow (`src/numericUtils.ts:7`, `:19-21`).

## Model

| member | source | states |
|---|---|---|
| Config.DefaultsAre | src/types/config.ts:23-35 | the defaults are budgets 3, 3, 3, 6 and 4, every policy 'error', no ceiling and no override table; they are valid |
| Config.MergeOverDefaults | src/converter.ts:15 | merging nothing yields the defaults, and merging a complete record yields that record |
| Config.MergeKeys | src/converter.ts:15 | every key the caller sets wins; every key left out keeps its default value |
| Errors.TagInjective | src/types/errors.ts:1-8 | the six component tags have six different string values |
| Errors.NameDistinguishesKinds | src/types/errors.ts:16-26 | the `name` set by each constructor is the same for two errors exactly when they are of the same kind |
| Errors.MessageInjective | src/types/errors.ts:10-30 | an error message `<tag> overflow of <s>` / `<tag> precision loss of <s>` determines the tag, the kind and the string |
| Errors.PrefixFree | src/types/errors.ts:10-28 | when one message's tag-and-kind prefix begins another's, the two errors have the same tag and the same kind |
| Digits.ToDecimalValue | src/numericUtils.ts:34 | `String(n)` read back with `Number` is `n` |
| Digits.ToDecimalLength | src/numericUtils.ts:29 | the number of decimal digits of `n` is at most `k` exactly when `n < 10^k` |
| Digits.ToDecimalNines | src/numericUtils.ts:32-37 | `String(10^d - 1)` is `d` nines |
| Digits.ValueConcat | src/converter.ts:53-88 | the value of a concatenation of digit strings is the front shifted by the back's length plus the back |
| Digits.ValuePadStart | src/numericUtils.ts:9 | left-padding with '0' keeps the value and gives the width (or the string's own length if longer) |
| Digits.ValueNines | src/converter.ts:58-78 | a run of `n` nines is worth `10^n - 1` |
| NumericUtils.StrictIntIsCanonical | src/numericUtils.ts:1-4 | a string is the literal "0" or digits not starting with '0' exactly when it is digits and `String(Number(s))` gives it back |
| NumericUtils.RoundingKeepsMagnitude | src/numericUtils.ts:29-31 | rounding a value of at least 10^d to d significant digits keeps it at least 10^d |
| NumericUtils.FmtLimitSizeNumeric | src/numericUtils.ts:14-41 | it throws exactly for a negative width, or for a positive width and a string that is not digits |
| NumericUtils.LimitSizeSpec | src/numericUtils.ts:14-41 | width 0 gives ("", overflow); otherwise the digits are at most the width, overflow holds exactly when the value needs more digits than the width, an overflow is all nines, a non-overflow keeps the value, and a string that fits is returned unchanged |
| NumericUtils.FmtFixedSizeNumeric | src/numericUtils.ts:6-12 | it throws exactly when the limit-width formatter throws |
| NumericUtils.FixedSizeSpec | src/numericUtils.ts:6-12 | overflow holds exactly when the value needs more digits than the width and is then all nines; a string that fits is left-padded with '0' to the width; a strict integer always comes out exactly the width long |
| NumericUtils.StrictIntFormatting | src/numericUtils.ts:1-41 | for a strict integer both formatters succeed; they overflow to nines exactly when the literal is longer than the width, and otherwise keep it (limit) or zero-pad it (fixed) |
| PrereleaseUtils.TableKeys | src/prereleaseUtils.ts:4-68 | the table has an entry exactly for '0'-'9', '-', 'A'-'Z' and 'a'-'z' |
| PrereleaseUtils.TableCodes | src/prereleaseUtils.ts:4-68 | each listed character's code is the two digits of 37 plus its position in the table |
| PrereleaseUtils.CodeRange | src/prereleaseUtils.ts:4-68 | each code is two digits between 37 and 99 |
| PrereleaseUtils.TableOrder | src/prereleaseUtils.ts:4-68 | codes compare as the characters are listed (digits, '-', upper case, lower case), and distinct characters have distinct codes |
| PrereleaseUtils.RankOrder | src/prereleaseUtils.ts:4-68 | a character's position in the table orders the characters as they are listed, and determines the character |
| PrereleaseUtils.CharCodeIsLookup | src/prereleaseUtils.ts:155 | the text appended for a character is its table entry, or "undefined" for an unlisted one |
| PrereleaseUtils.AsciiCodesOfListedChars | src/prereleaseUtils.ts:153-156 | a component of listed characters encodes to exactly two digits per character |
| PrereleaseUtils.AsciiComponentNum | src/prereleaseUtils.ts:153-156 | the character loop builds the concatenation of the characters' codes |
| PrereleaseUtils.SplitDots | src/prereleaseUtils.ts:121 | `split('.')` gives at least one part, no part contains '.', and joining the parts with '.' gives the label back |
| PrereleaseUtils.SplitJoin | src/prereleaseUtils.ts:121 | splitting the join of dot-free parts gives those parts back |
| PrereleaseUtils.SplitAppendPart | src/prereleaseUtils.ts:121 | appending "." and a dot-free part appends that part to the split |
| PrereleaseUtils.FmtFixedSizePrerelease | src/prereleaseUtils.ts:70-96 | it throws exactly for a non-positive width or a string that is not digits; otherwise the result is exactly the width long and all digits; precision is lost exactly when the input is longer; a shorter input is right-padded with '0'; a longer one is rounded half-up at the width, with a carry out of the width dropped |
| PrereleaseUtils.RoundingCarry | src/prereleaseUtils.ts:86-92 | rounding a digit string at position d adds one to its first d digits exactly when digit d is '5' or more |
| PrereleaseUtils.RoundedDigits | src/prereleaseUtils.ts:88-92 | the rounded front is at most 10^d; it is written as d digits with its leading zeros kept, and a carry to 10^d becomes d zeros |
| PrereleaseUtils.ZeroPadding | src/prereleaseUtils.ts:80-83 | right-padding a short digit string with '0' appends zeros and keeps it digits |
| PrereleaseUtils.FindIndex | src/prereleaseUtils.ts:124 | `findIndex` is -1 exactly when the component is absent; otherwise it is the first position holding it |
| PrereleaseUtils.MinAsciiComponent | src/prereleaseUtils.ts:133-135 | '37' repeated and cut to the component width: digits, no longer than the width, and starting with '3' when the width is positive |
| PrereleaseUtils.MinAsciiComponentBounds | src/prereleaseUtils.ts:133-135 | for a positive width its value lies between 3 and 10^width |
| PrereleaseUtils.MaxNumericComponentNum | src/prereleaseUtils.ts:133-136 | the numeric-component ceiling is -1 for width 0, and otherwise between 2 and 10^width - 2 |
| PrereleaseUtils.ClampedFormatting | src/prereleaseUtils.ts:130-141 | the clamped number always formats: to ("", overflow) for width 0, and otherwise left-padded with '0' to the width with no overflow |
| PrereleaseUtils.NumericComponent | src/prereleaseUtils.ts:129-141 | a numeric component gives exactly the component width of digits: the value clamped below the smallest ASCII code, zero-padded, and an overflow only for width 0 |
| PrereleaseUtils.EncodeComponent | src/prereleaseUtils.ts:122-172 | one pass of the component loop equals the step function: override digit, numeric component, ASCII overflow, or ASCII append |
| PrereleaseUtils.OverrideComponent | src/prereleaseUtils.ts:122-127 | with an override table, the first component contributes one digit: 0 when it is absent from the table, otherwise 1 + its first position; then the loop continues |
| PrereleaseUtils.NumericComponentEndsLoop | src/prereleaseUtils.ts:129-151 | a numeric component ends the loop: with a positive width it appends its clamped, zero-padded value with no error; with width 0 it pads with nines and records one component overflow |
| PrereleaseUtils.AsciiComponentOverflow | src/prereleaseUtils.ts:158-167 | a component whose codes exceed the width is cut to the width, nines fill up to the budget, one component overflow is recorded, and the loop ends |
| PrereleaseUtils.AsciiComponentFits | src/prereleaseUtils.ts:169-172 | a component whose codes fit is appended, and the loop stops exactly when the budget is reached |
| PrereleaseUtils.StepAppendsOnly | src/prereleaseUtils.ts:121-173 | a step only appends to the digits, and adds at most one component overflow (only when it has reached the budget) |
| PrereleaseUtils.LoopAppendsOnly | src/prereleaseUtils.ts:121-173 | the loop only appends digits and errors; it adds at most one error, a component overflow naming one of the remaining components, and only once the budget is reached |
| PrereleaseUtils.LoopDigits | src/prereleaseUtils.ts:121-173 | over listed characters the loop produces only digits |
| PrereleaseUtils.EncodeComponentsLoop | src/prereleaseUtils.ts:121-173 | the `for` loop over the split label computes the recursive component encoding |
| PrereleaseUtils.PrereleaseEncoding | src/prereleaseUtils.ts:98-180 | an empty label gives all nines and no error; a zero budget gives "" and one prerelease overflow; every success is exactly the budget long and all digits |
| PrereleaseUtils.ListedCharsEncode | src/prereleaseUtils.ts:98-180 | a label made only of listed characters and dots never throws |
| PrereleaseUtils.PrereleaseFailure | src/prereleaseUtils.ts:175 | the encoding throws exactly when the loop's digits are not all digits (an unlisted character's "undefined") |
| PrereleaseUtils.PrereleaseErrors | src/prereleaseUtils.ts:143-179 | a success has at most one component overflow naming one of the components, then a precision loss exactly when the loop produced more than the budget; otherwise the digits are zero-padded |
| PrereleaseUtils.PrereleaseErrorTags | src/prereleaseUtils.ts:98-180 | a success carries at most two errors, each tagged prerelease or prerelease component |
| PrereleaseUtils.PrereleaseToInt | src/prereleaseUtils.ts:98-180 | the imperative encoding equals the prerelease encoding function |
| Converter.ConfigError | src/converter.ts:17-31 | the constructor throws exactly when some digit budget is negative, with the message of the first negative one |
| Converter.SemverIntConverter.Create | src/converter.ts:14-34 | fails exactly on an invalid merged configuration, with that message; otherwise returns a fresh converter holding the merged configuration |
| Converter.SemverIntConverter.constructor | src/converter.ts:14-34 | the converter holds the merge of the defaults and the caller's keys |
| Converter.SemverIntConverter.SemverToInt | src/converter.ts:36-103 | the sequential encoding equals the encoding function on the held configuration |
| Converter.FilterReported | src/converter.ts:89-95 | the filter keeps exactly the errors whose tag's policy is 'error', never grows the list, and keeps or drops a single error by its policy (with `FilterAppend`, order is kept) |
| Converter.FilterAppend | src/converter.ts:89-95 | filtering distributes over concatenation |
| Converter.FilterKeepsAll | src/converter.ts:89-95 | with both prerelease policies 'error' every prerelease error is kept |
| Converter.FilterDropsAll | src/converter.ts:89-95 | with both prerelease policies 'ignore' nothing is kept |
| Converter.FormattersAccept | src/converter.ts:52-72 | a strict integer never makes a formatter throw, and both formatters return digits |
| Converter.EncodingFailure | src/converter.ts:37-87 | the encoding throws exactly for a number that is not a strict integer (with that number's message, checked major first), or when no number overflowed and the prerelease encoding throws |
| Converter.MajorOverflow | src/converter.ts:52-60 | a major number longer than its budget gives `TotalDigits` nines and its overflow error when its policy is 'error' |
| Converter.MinorOverflow | src/converter.ts:62-70 | a minor overflow gives the major digits followed by nines for the rest, and its overflow when reported |
| Converter.PatchOverflow | src/converter.ts:72-80 | a patch overflow gives major, zero-padded minor, then nines, and its overflow when reported |
| Converter.NoOverflowLayout | src/converter.ts:82-100 | when all numbers fit, a success is major, padded minor, padded patch and prerelease digits with the reported prerelease errors, unless a nonzero ceiling is exceeded: then it is the ceiling's string with a SemverInt overflow appended |
| Converter.Width | src/converter.ts:36-103 | a success is either digits no longer than `TotalDigits`, exactly that long when the major number fills its budget, or the ceiling's string with a final SemverInt overflow |
| Converter.ReportedErrors | src/converter.ts:36-103 | every error of a success comes from its source: a number overflow only alone, with its policy 'error' and its number too long; prerelease errors only when their policy reports them; a SemverInt overflow only last, with a nonzero ceiling; at most three errors |
| Converter.CeilingBound | src/converter.ts:97-100 | when no number overflowed, a positive ceiling is never exceeded, and a negative one always replaces the result |
| Converter.ZeroPrereleaseBudget | src/converter.ts:82-95 | with no ceiling, a zero prerelease budget with a non-empty label contributes no digits and one prerelease overflow exactly when that policy is 'error' |
| Converter.StrictOverflows | src/numericUtils.ts:28 | a strict integer overflows a budget exactly when it is longer than the budget |
| Converter.EncodedValue | src/converter.ts:36-103 | the value of a success is the version key (numbers and prerelease value placed by their budgets, saturated at the first overflow), or the ceiling's string when the ceiling check is reached and exceeded |
| Converter.EncodedNumber | src/converter.ts:36-103 | with no negative ceiling each success is digits worth its capped key |
| Converter.KeyMonotone | src/converter.ts:52-88 | the version key respects the order of major, minor, patch and then the prerelease value |
| Converter.OrderedKeys | src/converter.ts:52-100 | ordered versions have ordered capped keys unless the smaller one skips a positive ceiling |
| Converter.Monotone | src/converter.ts:36-103 | for versions in order (prerelease value breaking ties), the encoded integers are in order |
| Converter.AbsentPrereleaseIsGreatest | src/converter.ts:82-88 | with no negative ceiling, within one major.minor.patch the release encodes at least as high as any prerelease |
| Converter.EarlyOverflowIgnoresPrerelease | src/converter.ts:52-80 | once a number overflows, the result does not depend on the prerelease label |
| Converter.CeilingSkippedOnOverflow | src/converter.ts:62-100 | under budgets 1/1/1/1 and ceiling 1500, `1.10.0` encodes to 1999 while `2.0.0` encodes to 1500 |

## Left out

- Floating point is not modelled. The source computes with JavaScript numbers: `Number`,
  `Math.log10`, `Math.round`, `Math.pow` and `toFixed`. The model uses exact integers, so
  results for values beyond 2^53, where doubles lose precision, are not captured. A major, minor
  or patch literal above `Number.MAX_VALUE` (309 digits or more) parses to `Infinity`, so
  `fmtLimitSizeNumeric` throws at `src/numericUtils.ts:23-25`; the model instead saturates it to
  nines and reports an overflow.
- Only digit strings are numbers. `Number(s)` also accepts blanks, exponents, hexadecimal and
  fractions, but the model treats any other string as "not an integer >= 0". Two other strings
  do reach the formatters. `prereleaseToInt` passes loop digits containing "undefined" from an
  unlisted character (`src/prereleaseUtils.ts:155`, `:175`) to `fmtFixedSizePrerelease`, where
  `Number` gives NaN and the source throws, as the model's `Failure` does. It also passes "-1"
  to `fmtFixedSizeNumeric` at component width 0 (`src/prereleaseUtils.ts:133-141`), which
  returns at `src/numericUtils.ts:19-21` before `Number` runs. Every other string that reaches
  `Number` is a strict integer or all digits, except the exponent form of a large numeric
  prerelease component described under `PrereleaseUtils.FmtFixedSizePrerelease` below.
- The all-zeros NaN paths take a different value. For an all-zero string longer than the
  width, `log10(0)` is `-Infinity` and the source produces NaN-derived results. The model
  treats zero as one significant digit instead.
  - `fmtLimitSizeNumeric` returns nines with overflow in the source, and "0" without overflow
    in the model. The converter never reaches this case, since it passes only strict integers.
  - `fmtFixedSizePrerelease` returns "N" in the source (`src/prereleaseUtils.ts:86-92`), and
    zeros of the full width in the model. The converter does reach this case whenever the
    loop's digits are all zeros and longer than `numPrereleaseDigits`. With budget 3 and
    component width 4, the label `0` gives "0000"; an unlisted first component matched against
    an override table, followed by `0`, gives "00000". `semverToInt` then returns a string
    ending in "N", or throws in `BigInt` when a ceiling is set (`src/converter.ts:97`).
  - In that case the conclusions that a result is all digits and has a given value
    (`Converter.Width`, `Converter.EncodedValue`, `Converter.EncodedNumber`,
    `Converter.Monotone`, `Converter.AbsentPrereleaseIsGreatest`) hold for the model, not for
    the source.
- Digit budgets are modelled as integers. The source also rejects a budget that is not an
  integer (`!Number.isInteger`, `src/numericUtils.ts:15-17`, `src/prereleaseUtils.ts:71-73`).
  Its constructor checks only `< 0` (`src/converter.ts:17-31`), so a budget such as `2.5`
  passes construction and makes `semverToInt` throw. That error path is not modelled.
- PrereleaseUtils.FmtFixedSizePrerelease: the long-input branch is stated by its value. The
  contract gives the value of the rounded digits (half-up at the width, carry dropped) rather
  than the exact `toFixed` string for inputs where doubles lose digits.
- PrereleaseUtils.FmtFixedSizePrerelease: returns digits in three cases where the source
  throws or returns non-digits, because the model has no JavaScript number limits.
  - A width above 100 on the long branch. `toFixed(desiredDigits)` throws a `RangeError`
    (`src/prereleaseUtils.ts:92`). For example, budget 101, component width 4 and a label of
    26 components `aa` give 104 loop digits, so `semverToInt` throws. The model returns 101
    digits with a precision loss.
  - A loop result of 309 digits or more. `Number(strNumIn)` is `Infinity`, so the source throws
    "strNum must be an integer >= 0" (`src/prereleaseUtils.ts:75-78`). For example, budget
    400, width 4 and 78 components `aa` give 312 digits. The model pads them to 400 and
    succeeds.
  - A numeric component of `10^21` or more at component width 22 or more. `String(num)`
    (`src/prereleaseUtils.ts:141`) writes it in exponent form such as `1e+21`, so the loop result
    contains `e+`. When the prerelease budget is at least that result's length, the source
    returns it with `e+` in it. The model writes the component as digits.
  - In these cases `Converter.Width`, `Converter.EncodedValue` and `Converter.EncodedNumber`
    hold for the model, not for the source. So do `PrereleaseUtils.PrereleaseEncoding`'s exact
    width and `PrereleaseUtils.ListedCharsEncode`.
- The error classes' runtime mechanics are left out: the `Error` base class, stack traces and
  `instanceof`. Only the tag, the kind, the string and the message are modelled.
- A key passed explicitly as `undefined` is not modelled. `{ ...DefaultConfig, ...newConfig }`
  would then overwrite the default with `undefined`. The model's partial record can only
  leave a key out.
- Reassigning the public `cfg` field after construction is left out. The model holds it as a
  constant of valid type.
- `src/index.ts` (the process-wide default converter and its setter) and the test files are
  not part of this model.
- NumericUtils.FmtLimitSizeNumeric and NumericUtils.FmtFixedSizeNumeric: each function's own
  `ensures` states only when it throws. The full behaviour is stated as separate lemmas
  (`LimitSizeSpec`, `FixedSizeSpec`), not on the functions.
- PrereleaseUtils.AsciiCodesOfListedChars: states length and digits only. It does not state
  that each pair of digits at position `2k` is the code of character `k`.
- Converter.Monotone: excludes a positive ceiling when the smaller version takes an early
  overflow return. It also excludes negative ceilings, which always replace the result with a
  non-digit string. With a positive ceiling and an early return, order is not preserved
  (`Converter.CeilingSkippedOnOverflow`).
- Converter.AbsentPrereleaseIsGreatest: states `>=`, not `>`. A prerelease that saturates
  encodes to all nines, the same digits as no prerelease. It excludes negative ceilings, which
  replace every result that reaches the ceiling check with a non-digit string.
