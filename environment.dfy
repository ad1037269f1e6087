/**
 * What the validation pipeline gets from outside the library: the errors it
 * raises, what a rule reports, and the collaborators it cannot see (class
 * loading, user-supplied rules, the regex engine, date parsing and the clock).
 */
module Environment {
  import opened Wrappers
  import opened Values

  /** The exceptions the pipeline raises; none of them is recorded in an error bag. */
  datatype Error =
    | InvalidRuleExpression        // 'Invalid rule expression specified'
    | InvalidRuleType              // 'Invalid rule type specified'
    | MustImplementRuleInterface   // 'Must implement RuleInterface'
    | UnknownRuleType              // 'Unknown rule type'
    | TypeError                    // a string-only library call given another type under strict_types
    | UserException                // anything a custom rule or closure throws

  /**
   * What calling one rule amounts to: it never called the failure callback,
   * it called it (the last argument it passed; `None` when that was null), or
   * it threw.
   */
  datatype RuleOutcome = Pass | Fail(message: Option<string>) | Raise(error: Error)

  /** How `class_exists` and `instanceof RuleInterface` see a rule type name. */
  datatype ClassKind = NoClass | RuleClass | PlainClass

  /** A rule the library does not define: a class implementing RuleInterface, or a closure. */
  datatype UserRule = ClassRule(name: string) | ClosureRule(id: nat)

  /**
   * The collaborators, as functions:
   * `classes` answers class loading for a name, `user` is the behaviour of a
   * custom rule or closure on (fields, key, options), `pregMatch(pattern,
   * subject)` is `preg_match(...) == 1` for a user pattern, `strtotime` is
   * the date parser (`None` for its `false`), and `now` is `time()`.
   */
  datatype Env = Env(
    classes: string -> ClassKind,
    user: (UserRule, Fields, string, seq<string>) -> RuleOutcome,
    pregMatch: (string, string) -> bool,
    strtotime: string -> Option<int>,
    now: int)
}
