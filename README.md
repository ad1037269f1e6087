# caldera-validation, modelled in Dafny

Caldera Validation is a PHP field-validation layer. It has three parts:

- **Condition:** a caller gives a `Validation` one `Condition` per field. A condition holds an ordered chain of rule descriptors, each parsed from a rule expression such as `'between:5,10'`, a closure, or an array of these. It also holds an error bag.
- **check:** resolves each descriptor to a callable: a class implementing `RuleInterface`, or else a built-in method found by a normalised name. It then runs the rules in order, appends one message per failing rule to the condition's bag (which is never cleared), and stops after the first failure under bail.
- **validate:** checks every field in the order its condition was added. It merges the bag of every field that failed into a fresh run-level bag, stops at the first failing field under bail, and either returns true or throws `ValidationException` carrying that bag.

The built-in rules (required, alpha, alphanum, num, slug, regex, email, same, different, after, before, between, min, max, size, array, numeric, string) are pure predicates over the field value and the rule options.

Modules, following the program's structure:

- `Wrappers`: `Option` and `Result`.
- `Text`: PHP's `trim`, the `\s` class of PCRE, splitting and joining on one character, and ASCII lower-casing.
- `Values`: PHP field values and the parts of PHP 8's semantics the rules rely on: `empty`, numeric strings, the decimal form of integers, `<=>`, and loose `==`.
- `Environment`: the exceptions, what a rule call reports, and the collaborators outside the library. These are class loading, user rules and closures, the regex engine for user patterns, `strtotime` and `time()`, all given as functions in an `Env` value.
- `ValidatesData`: every built-in rule and the lookup of a built-in by rule type.
- `Conditions`: the rule-expression parser, the expansion of `rule()` tokens, resolution and evaluation of one rule chain, and the class `Condition`. That class has the fields `rules` and `errors`, a recursive `Rule` method, an `AddError` method and a `Check` loop.
- `Validations`: the class `Validation`, with the ordered field list, each field's rules and bag, and the run-level bag. It has `Condition`, `GetConditions` and `Validate`. `Validate` runs the loop method `CheckAll`, which is proved equal to the recursive specification `Sweep`, and the lemmas about a run are stated on `Sweep`.

An exception is modelled as a value: `Option<Error>` from `rule()` and `condition()`, `Result<bool, Error>` from `check()`, and `Outcome` (`Accepted`, `Rejected(bag)` for `ValidationException`, `Raised(error)`) from `validate()`.

Three behaviours of the code shape the model:

- There is no registry of rule handlers. Each check resolves every rule anew: a closure is called as given, and a string type becomes a class instance or a built-in method (src/Validation/Condition.php:99-118).
- A rule type that names a class is tried as a class before the built-ins are consulted (src/Validation/Condition.php:99-118).
- Checking a condition twice is not free of state. Each failing check appends to the condition's bag (src/Validation/Condition.php:129-132), and the next `validate()` reports the messages of both runs (src/Validation/Validation.php:66-72; `TwoRunsAccumulate`).

## Model

| member | source | states |
|---|---|---|
| Text.TrimLeft | src/Validation/Condition.php:58-59 | the result is the suffix of the input after a run of trim characters, and does not itself start with one |
| Text.TrimRight | src/Validation/Condition.php:58-59 | the result is the prefix of the input before a run of trim characters, and does not itself end with one |
| Text.TrimIsInfix | src/Validation/Condition.php:58-59 | `trim` yields the infix left after removing only trim characters from both ends; the result neither starts nor ends with one |
| Text.TrimIdempotent | src/Validation/Condition.php:58-59 | trimming twice is trimming once |
| Text.DropSpaces | src/Validation/Condition.php:60 | the `\s*` after a comma removes exactly the leading PCRE white space of a piece |
| Text.IndexOf | src/Validation/Condition.php:57 | the first occurrence of a character: none occurs before it, and it is the character when within bounds |
| Text.DropFinalNewline | src/Validation/Condition.php:57 | the subject part a PCRE `$` can end at: the string itself or the string minus one final "\n" |
| Text.SplitOn | src/Validation/Condition.php:60 | splitting yields at least one piece and no piece holds the separator |
| Text.JoinSplitOn | src/Validation/Condition.php:60 | joining the pieces of a split with the separator gives the string back |
| Text.SplitOnJoin | src/Validation/Condition.php:60 | splitting a join of separator-free pieces gives the pieces back |
| Text.Lower | src/Validation/Condition.php:111-112 | ASCII lower-casing keeps the length and maps each character independently |
| Values.FalsyValues | src/Validation/ValidatesData.php:27 | `empty()` holds exactly for null, false, 0, "", "0" and the empty array |
| Values.DigitRunIsNumeric | src/Validation/ValidatesData.php:208 | an unsigned run of digits is a numeric string whose value is the digits' number |
| Values.NumericStringsAccepted | tests/Validation/ValidationTest.php:341-351 | "6", "6.0", "-6" and "-6.0" are numeric strings |
| Values.NumericStringsRejected | tests/Validation/ValidationTest.php:341-351 | "v6.0", "", "." and "-" are not numeric strings |
| Values.IntToStringIsNumeric | src/Validation/ValidatesData.php:209 | the decimal form of an integer is a numeric string denoting that integer |
| Values.LexCompareZero | src/Validation/ValidatesData.php:140 | two strings compare as equal under `strcmp` exactly when they are identical |
| Values.CompareAntisymmetric | src/Validation/ValidatesData.php:209 | `<=>` negates when its operands swap, and an operand equals itself |
| Values.CompareIntegers | src/Validation/ValidatesData.php:214-215 | integers compare by value, also against the decimal string of an integer |
| Values.LooseEqReflexive | src/Validation/ValidatesData.php:140 | every value is loosely equal to itself |
| Values.LooseEqSymmetric | src/Validation/ValidatesData.php:157 | loose equality does not depend on operand order |
| Values.LooseEqStrings | src/Validation/ValidatesData.php:140 | two strings that are not both numeric are loosely equal exactly when identical |
| ValidatesData.StripSeparators | src/Validation/Condition.php:111 | the method-name synthesis leaves no '-', '_' or ' ' |
| ValidatesData.Lookup | src/Validation/Condition.php:110-112 | a found built-in's name is the rule type's normal form; no built-in is found only if none has that name |
| ValidatesData.LookupExactly | src/Validation/Condition.php:110-116 | a rule type finds a built-in if and only if its normal form is that built-in's name |
| ValidatesData.LookupIgnoresCaseAndSeparators | src/Validation/Condition.php:111 | lower-casing a rule type, or removing a separator from it, does not change the built-in found |
| ValidatesData.MixedCaseLookup | tests/Validation/ValidationTest.php:106-112 | 'aLPhAnum' resolves to the alphanum built-in |
| ValidatesData.MatchesRunNewline | src/Validation/ValidatesData.php:42-43 | on a string without "\n" the fixed patterns match iff every character is in the class; one final "\n" is ignored, two are not |
| ValidatesData.MatchRule | src/Validation/ValidatesData.php:40-95 | alpha, alphanum, num and slug pass iff the value is a truthy string made of the class; a truthy non-string raises a type error; every failure carries the rule's message |
| ValidatesData.ValidateRequired | src/Validation/ValidatesData.php:25-31 | passes iff the key is present with a truthy value; otherwise fails with 'validation.required' |
| ValidatesData.RequiredFailsOnEmpty | src/Validation/ValidatesData.php:25-31 | fails exactly on a missing key and on null, false, 0, "", "0" and []; 'foo' passes |
| ValidatesData.AlphaExamples | tests/Validation/ValidationTest.php:96-104 | 'test', 'Test' and 'TEST' pass alpha and 'test123' fails; a missing key fails and an integer raises a TypeError |
| ValidatesData.AlphanumExamples | tests/Validation/ValidationTest.php:106-112 | 'test123!' fails alphanum, and 'test123' passes |
| ValidatesData.NumExamples | tests/Validation/ValidationTest.php:114-120 | '123' passes num and 'test' fails; the falsy '0' fails too |
| ValidatesData.SlugExamples | tests/Validation/ValidationTest.php:122-129 | 'valid-slug' and 'valid_slug' pass slug, and 'non valid slug' fails |
| ValidatesData.ValidateRegex | src/Validation/ValidatesData.php:104-111 | passes iff the value is a truthy string, options[0] is truthy and the pattern matches; with no options it fails |
| ValidatesData.ValidateEmail | src/Validation/ValidatesData.php:120-127 | passes iff the value is a truthy string of the email shape; a truthy non-string raises a type error |
| ValidatesData.EmailFromParts | src/Validation/ValidatesData.php:122 | every local part followed by '@' and one or more labels joined by '.' matches the email pattern |
| ValidatesData.EmailToParts | src/Validation/ValidatesData.php:122 | everything the email pattern matches is such a local part, '@' and labels |
| ValidatesData.SimpleAddress | tests/Validation/ValidationTest.php:143 | 'test@example.com' matches |
| ValidatesData.DottedAddress | tests/Validation/ValidationTest.php:144 | 'another.test@example.com' matches |
| ValidatesData.NotAnAddress | tests/Validation/ValidationTest.php:146 | 'not an email' does not match |
| ValidatesData.ValidateSame | src/Validation/ValidatesData.php:136-144 | passes iff the value is loosely equal to the field named by options[1], an absent field reading as null |
| ValidatesData.ValidateDifferent | src/Validation/ValidatesData.php:153-161 | passes iff the value is not loosely equal to that field |
| ValidatesData.SameDifferentComplement | src/Validation/ValidatesData.php:136-161 | on any input, a bare token with no option included, exactly one of same and different fails |
| ValidatesData.SameSymmetric | src/Validation/ValidatesData.php:136-144 | swapping the field and the field named by options[1] does not change the verdict of same |
| ValidatesData.SameOnItself | src/Validation/ValidatesData.php:137-140 | a field is the same as itself; with no option, a missing field is the same as the missing field "" |
| ValidatesData.SameIsCaseSensitive | tests/Validation/ValidationTest.php:149-163 | 'FooBarBaz!' is not the same as 'fOObARbAZ!' and is different from it; equal strings are the same |
| ValidatesData.ValidateAfter | src/Validation/ValidatesData.php:170-178 | passes iff a limit option is given and the value's time (now when falsy) is strictly after the limit's time |
| ValidatesData.ValidateBefore | src/Validation/ValidatesData.php:187-195 | passes iff a limit option is given and the value's time is strictly before the limit's time |
| ValidatesData.AfterBeforeExclusive | src/Validation/ValidatesData.php:170-195 | after and before never both pass, both fail without a limit, and both fail when the times are equal |
| ValidatesData.Measure | src/Validation/ValidatesData.php:208-218 | exactly integers, strings and arrays have a measure, and every measure is numeric |
| ValidatesData.MeasureByType | src/Validation/ValidatesData.php:208-218 | an integer measures as itself, a numeric string as its numeral, another string by its length, an array by its count |
| ValidatesData.MeasureValue | src/Validation/ValidatesData.php:208-215 | the number a value is compared by: an integer's value, a numeric string's value, a string's length, an array's count |
| ValidatesData.ValidateBetween | src/Validation/ValidatesData.php:204-222 | passes or fails with 'validation.between'; a value with no measure fails; with numeric bounds it passes iff the measure lies between them (`BetweenByValue`) |
| ValidatesData.ValidateMin | src/Validation/ValidatesData.php:231-248 | passes or fails with 'validation.min'; a value with no measure fails; with a numeric threshold it passes iff the measure is at least the threshold (`MinMaxSizeByValue`) |
| ValidatesData.ValidateMax | src/Validation/ValidatesData.php:257-274 | passes or fails with 'validation.max'; a value with no measure fails; with a numeric threshold it passes iff the measure is at most the threshold (`MinMaxSizeByValue`) |
| ValidatesData.ValidateSize | src/Validation/ValidatesData.php:283-300 | passes or fails with 'validation.size'; a value with no measure fails; with a numeric threshold it passes iff the measure is exactly the threshold (`MinMaxSizeByValue`) |
| ValidatesData.CompareNumbers | src/Validation/ValidatesData.php:209 | between two numeric operands `<=>` is the order of their numbers |
| ValidatesData.BetweenByValue | src/Validation/ValidatesData.php:204-222 | with numeric options[1] and options[2], between passes iff the value has a measure lying between the two, both ends included |
| ValidatesData.MinMaxSizeByValue | src/Validation/ValidatesData.php:231-300 | with a numeric options[1], as in 'min:3', min, max and size pass iff the value has a measure at least, at most, or exactly that number |
| ValidatesData.BetweenWithoutMaximum | src/Validation/ValidatesData.php:206-207 | with only a positive minimum the maximum defaults to 0 and between accepts nothing |
| ValidatesData.MaxSizeWithoutOption | src/Validation/ValidatesData.php:257-300 | with no threshold, max accepts exactly numbers at most 0, "" and []; size exactly the numbers equal to 0, "" and [] |
| ValidatesData.BetweenFiveAndTen | tests/Validation/ValidationTest.php:185 | 'between:5,10' passes iff the measure lies between 5 and 10 |
| ValidatesData.BetweenExamples | tests/Validation/ValidationTest.php:183-220 | the tests' values: 6, 'Contosso' and a six-element array pass; 12, a long sentence and a three-element array fail |
| ValidatesData.ThresholdThree | tests/Validation/ValidationTest.php:224 | 'min:3', 'max:3' and 'size:3' pass iff the measure is at least, at most, or exactly 3 |
| ValidatesData.ThresholdFive | tests/Validation/ValidationTest.php:261 | 'max:5' passes iff the measure is at most 5 |
| ValidatesData.MinExamples | tests/Validation/ValidationTest.php:222-257 | under 'min:3', 6, 'Contosso' and a six-element array pass; 2, 'No', a two-element array and an object fail with 'validation.min' |
| ValidatesData.MaxExamples | tests/Validation/ValidationTest.php:259-294 | under 'max:5', 3, 'Yes' and a four-element array pass; 6, 'Lorem ipsum', a six-element array and an object fail with 'validation.max' |
| ValidatesData.SizeExamples | tests/Validation/ValidationTest.php:296-331 | under 'size:3', 3, 'Yes' and a three-element array pass; 6, 'Lorem ipsum', a six-element array and an object fail with 'validation.size' |
| ValidatesData.ValidateArray | src/Validation/ValidatesData.php:309-315 | passes iff the value is an array |
| ValidatesData.ValidateNumeric | src/Validation/ValidatesData.php:324-330 | passes iff the value is an integer or a numeric string |
| ValidatesData.ValidateString | src/Validation/ValidatesData.php:339-345 | passes iff the value is a string |
| ValidatesData.Apply | src/Validation/ValidatesData.php:25-345 | a failing built-in always passes its own 'validation.<name>' key; only the rules calling preg_match or strtotime raise, and only a type error |
| Conditions.SplitOptions | src/Validation/Condition.php:60 | `preg_split('/,\s*/')` yields at least one piece, none holding a comma, none after the first starting with white space |
| Conditions.SplitOptionsJoin | src/Validation/Condition.php:60 | with no white space after a comma, joining the split pieces with ',' gives the text back |
| Conditions.SplitOptionsOfJoin | src/Validation/Condition.php:60 | comma-free pieces, none after the first starting with white space, split back out of their join |
| Conditions.ParseOptions | src/Validation/Condition.php:59-63 | null iff the trimmed remainder is "" or "0"; otherwise the raw remainder followed by the split of the trimmed one |
| Conditions.ParseExpression | src/Validation/Condition.php:57-70 | a parsed expression is a named descriptor; the only error is 'Invalid rule expression specified' |
| Conditions.ParseNoColon | src/Validation/Condition.php:57-67 | an expression without a colon is the trimmed type with null options |
| Conditions.ParseColon | src/Validation/Condition.php:57-67 | 'ty:raw' has type trim(ty) and the options of raw, whatever colons raw holds; a final "\n" changes nothing |
| Conditions.ParseRejects | src/Validation/Condition.php:57-69 | the empty string, a leading colon, and a "\n" before the end of the remainder are rejected |
| Conditions.ParseOptionsRoundTrip | src/Validation/Condition.php:59-62 | options[0] is the untrimmed remainder; with no white space after a comma the other options join back to the trimmed remainder |
| Conditions.ParseMaxExample | tests/Validation/ValidationTest.php:76 | 'max:255' parses to type 'max' with options ['255', '255'] |
| Conditions.ParseBetweenExample | tests/Validation/ValidationTest.php:185 | 'between:5,10' parses to type 'between' with options ['5,10', '5', '10'] |
| Conditions.ExpandString | src/Validation/Condition.php:56-70 | a string token appends its one descriptor, or nothing and an error |
| Conditions.Then | src/Validation/Condition.php:52-54 | an array element that raised ends the array; otherwise the next elements' descriptors follow its own |
| Conditions.ThenAssociative | src/Validation/Condition.php:52-54 | chaining array elements does not depend on grouping |
| Conditions.ExpandListAppend | src/Validation/Condition.php:52-54 | the descriptors of an array `a + b` are those of `a` followed, unless one of `a` raised, by those of `b` |
| Conditions.ExpandListStops | src/Validation/Condition.php:52-54 | once an element raises, later elements are not appended and earlier ones stay |
| Conditions.Resolve | src/Validation/Condition.php:99-118 | a closure is itself; a class must implement RuleInterface; otherwise the built-in of the normalised name, else 'Unknown rule type' |
| Conditions.Run | src/Validation/Condition.php:91-137 | under bail at most one message is added, and then no exception; never more messages than rules |
| Conditions.RunPassesIff | src/Validation/Condition.php:90-139 | a chain adds no message and raises nothing iff every rule resolves and passes |
| Conditions.RunAppend | src/Validation/Condition.php:92-136 | without bail the messages of `a + b` are those of `a` then those of `b`, unless `a` raised |
| Conditions.RunOne | src/Validation/Condition.php:127-132 | a failing rule adds exactly one message, its own |
| Conditions.BailIsPrefix | src/Validation/Condition.php:133-135 | with bail the run keeps only the first message of the full run, and is the full run when that adds none |
| Conditions.AppendErrors | src/Validation/Condition.php:129-132 | the key's entry is created on its first message and extended after; other keys are untouched |
| Conditions.AppendErrorsTwice | src/Validation/Condition.php:129-132 | appending in two steps is appending the concatenation |
| Conditions.Condition.constructor | src/Validation/Condition.php:29-35 | a new condition has no rules and an empty bag |
| Conditions.Condition.GetErrors | src/Validation/Condition.php:41-43 | returns the bag |
| Conditions.Condition.Rule | src/Validation/Condition.php:50-81 | appends what the token expands to, element by element, and returns the exception that stopped it; earlier elements stay appended |
| Conditions.Condition.AddError | src/Validation/Condition.php:129-132 | appends one message to the key's entry, creating it when missing |
| Conditions.Condition.Check | src/Validation/Condition.php:90-139 | the bag gains exactly the messages of the run of the rules; the result is the run's exception, else whether no rule failed |
| Validations.OutcomeOf | src/Validation/Validation.php:78-81 | `validate()` throws exactly the check's exception if there was one, throws ValidationException when a field failed, and returns true only on a pass |
| Validations.SweepPassesIff | src/Validation/Validation.php:67-77 | a run ends passed and without an exception iff every field's chain added nothing and raised nothing |
| Validations.ValidatePassesIff | src/Validation/Validation.php:65-81 | `validate()` returns true iff every rule of every field resolves and passes |
| Validations.SweepErrorFrom | src/Validation/Validation.php:69 | an exception out of `validate()` is one some field's chain raised, and there is none if no chain raises |
| Validations.SweepOwnKeys | src/Validation/Validation.php:68-69 | a run keeps the set of conditions, and each condition's bag holds at most its own field |
| Validations.BailReportsFirstFailure | src/Validation/Validation.php:70-75 | under bail a failing run stops at the first failing field; every earlier field passed, the bag holds that field alone with its condition's messages, and no other condition's bag changes, so later fields go unchecked |
| Validations.SweepBag | src/Validation/Validation.php:70-72 | without bail the bag holds exactly the fields that failed in this run, each with its condition's earlier and new messages; a field that passed is absent |
| Validations.SweepErrors | src/Validation/Validation.php:68-77 | without bail every listed condition's bag gains its chain's messages; other bags are untouched |
| Validations.TwoRunsAccumulate | src/Validation/Validation.php:66-72 | a field failing in two runs without bail reports the messages of both |
| Validations.CheckAll | src/Validation/Validation.php:66-77 | the loop over the conditions computes the run `Sweep` specifies: the bags, the run-level bag, `$passed` and the exception |
| Validations.DistinctPairwise | src/Validation/Validation.php:48-50 | no field is listed twice |
| Validations.TableAdd | src/Validation/Validation.php:48-52 | adding a condition for a new field, or rules to an existing one, keeps every field listed once with a rule list and a bag of its own |
| Validations.Validation.constructor | src/Validation/Validation.php:25-31 | a new validation has no conditions and an empty bag |
| Validations.Validation.GetConditions | src/Validation/Validation.php:37-39 | one entry per field, in first-insertion order, none twice, each with that field's rule list and bag |
| Validations.Validation.Condition | src/Validation/Validation.php:47-57 | creates the field's condition on first use, then appends the token's expansion; an invalid token raises after the condition exists |
| Validations.Validation.Validate | src/Validation/Validation.php:65-82 | the conditions' bags, the run-level bag and the outcome are those of the run over the fields in insertion order; the conditions are unchanged |

## Left out

- Regular expressions given by the user (the `regex` rule) go to PCRE. The model takes the match as the oracle `Env.pregMatch`. The fixed patterns of alpha, alphanum, num, slug and email are written out as recognisers, including PCRE's `$` before one final "\n".
- `strtotime` and `time()` are the oracles `Env.strtotime` and `Env.now`. The date grammar is not modelled.
- Values.IsNumericStr: recognises only an optional sign, digits and an optional fractional part. PHP's exponents and surrounding white space are not, and floats are not a field value type.
- Values.NumValue: a numeric string is valued as an exact rational. PHP reads a numeral with a fraction, or one beyond the 64-bit integer range, as a double. So numerals that differ only beyond double precision or beyond 64 bits (such as '0.1' and '0.10000000000000001') are equal in PHP's `==`, `<`, `>` and `<=>`, but unequal in the model. That difference in same, different, between, min, max and size is not modelled.
- Values.LooseEq: covers null, booleans, integers, strings, lists and objects by identity. It has no float comparison, and arrays compare position by position rather than by key.
- `mb_strlen` counts the characters of the Dafny string. Encodings are not modelled.
- `class_exists`, `new $type()` and autoloading are the oracle `Env.classes`. The body of a user rule class or closure is the oracle `Env.user`, which includes the `filter_var` checks of the tests' custom rules.
- Integer-like field names, which PHP turns into integer array keys and `array_merge` renumbers, are not modelled. Keys are strings and bags are maps, so the order of the keys inside a bag is not modelled either.
- ValidationException and RuleInterface are not part of this model as classes. The exception is the `Rejected(bag)` outcome, and a rule implementation is an `Env.user` call.
- A failure callback called several times keeps its last argument. A rule's outcome is that argument (`Fail(Some(m))`, with `''` when called without one), or `Fail(None)` for null.
- Validations.Validation.GetConditions: `Validation` holds each field's condition as values, its rule list and its bag. So aliasing is not captured, and neither is a change made through the Condition objects that `getConditions()` returns. `Conditions.Condition` models Condition.php on its own.
- Validations.Validation.Condition: it states its effect through `Expand`, what `Condition.Rule` is proved to append, rather than by calling `rule()` on a held object.
