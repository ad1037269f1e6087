/**
 * The orchestrator: an insertion-ordered table from field name to its
 * Condition, and the validation run that checks every field in that order
 * and gathers the failing fields' bags into one.
 */
module Validations {
  import opened Wrappers
  import opened Values
  import opened Environment
  import opened Conditions

  /**
   * How `validate()` ends: it returns true, it throws ValidationException
   * carrying the bag, or an exception from `check()` passes through.
   */
  datatype Outcome = Accepted | Rejected(bag: Bag) | Raised(error: Error)

  /**
   * The state a run over some fields leaves behind: the run-level bag, every
   * condition's own bag, the `$passed` flag, and the exception that ended it.
   */
  datatype Swept = Swept(bag: Bag, errs: map<string, Bag>, passed: bool, error: Option<Error>)


  /** Every field from position `i` on has a bag. */
  predicate Covers(keys: seq<string>, i: nat, errs: map<string, Bag>) {
    forall j :: i <= j < |keys| ==> keys[j] in errs
  }

  /** No field occurs twice: the first is not among the rest, which are distinct again. */
  predicate Distinct(keys: seq<string>)
    decreases |keys|
  {
    |keys| == 0 || (keys[0] !in keys[1..] && Distinct(keys[1..]))
  }

  /** No two positions of a distinct list hold the same field. */
  lemma {:induction false} DistinctPairwise(keys: seq<string>)
    requires Distinct(keys)
    ensures forall i, j :: 0 <= i < j < |keys| ==> keys[i] != keys[j]
    decreases |keys|
  {
    if keys != [] {
      var tail := keys[1..];
      DistinctPairwise(tail);
      forall i, j | 0 <= i < j < |keys| ensures keys[i] != keys[j] {
        if i == 0 {
          assert keys[j] == tail[j - 1];
        } else {
          assert keys[i] == tail[i - 1] && keys[j] == tail[j - 1];
        }
      }
    }
  }

  /** Appending a field that is not yet listed keeps the list distinct. */
  lemma {:induction false} DistinctSnoc(keys: seq<string>, k: string)
    requires Distinct(keys) && k !in keys
    ensures Distinct(keys + [k])
    decreases |keys|
  {
    if keys != [] {
      assert (keys + [k])[1..] == keys[1..] + [k];
      DistinctSnoc(keys[1..], k);
    }
  }

  /** Each condition's bag holds at most its own field: `check()` is only ever called with that key. */
  predicate OwnKeys(errs: map<string, Bag>) {
    forall k :: k in errs ==> errs[k].Keys <= {k}
  }

  /** The entry a bag already holds for `key`. */
  function Prior(b: Bag, key: string): seq<string> {
    if key in b then b[key] else []
  }

  /** What `$condition->check()` gives for field `k`: its rule chain checked against the fields. */
  function CheckOf(env: Env, rules: map<string, seq<Descriptor>>, fields: Fields, bail: bool): string -> Checked {
    k => if k in rules then Run(env, rules[k], fields, k, bail) else Checked([], None)
  }

  /**
   * The fields from position `i` on are checked in order, `check(k)` being
   * what checking field `k` does. A field whose check returns false has its
   * condition's whole bag merged into the run-level bag (later keys win, as
   * with `array_merge`), and under bail ends the loop; an exception ends it
   * at once.
   */
  function Sweep(keys: seq<string>, i: nat, check: string -> Checked, errs: map<string, Bag>,
                 bail: bool, bag: Bag, passed: bool): (s: Swept)
    requires i <= |keys| && Covers(keys, i, errs)
    decreases |keys| - i
  {
    if i == |keys| then Swept(bag, errs, passed, None)
    else
      var k := keys[i];
      var c := check(k);
      var mine := AppendErrors(errs[k], k, c.messages);
      var next := errs[k := mine];
      if c.error.Some? then Swept(bag, next, passed, c.error)
      else if c.messages == [] then Sweep(keys, i + 1, check, next, bail, bag, passed)
      else if bail then Swept(bag + mine, next, false, None)
      else Sweep(keys, i + 1, check, next, bail, bag + mine, false)
  }

  /** The value `validate()` returns or the exception it throws, after a run. */
  function OutcomeOf(s: Swept): (o: Outcome)
    ensures o.Raised? <==> s.error.Some?
    ensures o.Raised? ==> o.error == s.error.value
    ensures o.Rejected? ==> o.bag == s.bag && !s.passed
    ensures o == Accepted ==> s.passed
  {
    if s.error.Some? then Raised(s.error.value)
    else if !s.passed then Rejected(s.bag)
    else Accepted
  }

  /** The validation of `keys` from a fresh run-level bag. */
  function ValidateAll(env: Env, keys: seq<string>, rules: map<string, seq<Descriptor>>, errs: map<string, Bag>,
                       fields: Fields, bail: bool): Swept
    requires forall i :: 0 <= i < |keys| ==> keys[i] in errs
  {
    Sweep(keys, 0, CheckOf(env, rules, fields, bail), errs, bail, map[], true)
  }

  // ---------------------------------------------------------------- what a run promises

  /**
   * A run ends with `$passed` still true and no exception exactly when it
   * started true and every field's rule chain added nothing and raised nothing.
   */
  lemma {:induction false} SweepPassesIff(keys: seq<string>, i: nat, check: string -> Checked,
                                          errs: map<string, Bag>, bail: bool, bag: Bag, passed: bool)
    requires i <= |keys| && Covers(keys, i, errs)
    ensures var s := Sweep(keys, i, check, errs, bail, bag, passed);
      s.error.None? && s.passed <==> passed && forall j :: i <= j < |keys| ==> check(keys[j]) == Checked([], None)
    decreases |keys| - i
  {
    if i < |keys| {
      var k := keys[i];
      var c := check(k);
      var mine := AppendErrors(errs[k], k, c.messages);
      var next := errs[k := mine];
      if c.error.None? && c.messages == [] {
        SweepPassesIff(keys, i + 1, check, next, bail, bag, passed);
        assert c == Checked([], None);
      } else if c.error.None? && !bail {
        SweepPassesIff(keys, i + 1, check, next, bail, bag + mine, false);
      }
    }
  }

  /**
   * `validate()` returns true exactly when every rule of every field
   * resolves and passes; otherwise it throws, so it never returns false.
   */
  lemma ValidatePassesIff(env: Env, keys: seq<string>, rules: map<string, seq<Descriptor>>,
                          errs: map<string, Bag>, fields: Fields, bail: bool)
    requires forall i :: 0 <= i < |keys| ==> keys[i] in rules && keys[i] in errs
    ensures OutcomeOf(ValidateAll(env, keys, rules, errs, fields, bail)) == Accepted <==>
      forall i, j :: 0 <= i < |keys| && 0 <= j < |rules[keys[i]]| ==> Passes(env, rules[keys[i]][j], fields, keys[i])
  {
    var check := CheckOf(env, rules, fields, bail);
    SweepPassesIff(keys, 0, check, errs, bail, map[], true);
    forall i | 0 <= i < |keys|
      ensures check(keys[i]) == Checked([], None) <==>
        forall j :: 0 <= j < |rules[keys[i]]| ==> Passes(env, rules[keys[i]][j], fields, keys[i])
    {
      RunPassesIff(env, rules[keys[i]], fields, keys[i], bail);
    }
  }

  /**
   * An exception out of a run is one a field's rule chain raised, and a run
   * in which no field's chain raises ends without one.
   */
  lemma {:induction false} SweepErrorFrom(keys: seq<string>, i: nat, check: string -> Checked,
                                          errs: map<string, Bag>, bail: bool, bag: Bag, passed: bool)
    requires i <= |keys| && Covers(keys, i, errs)
    ensures var s := Sweep(keys, i, check, errs, bail, bag, passed);
      s.error.Some? ==> exists j :: i <= j < |keys| && check(keys[j]).error == s.error
    ensures var s := Sweep(keys, i, check, errs, bail, bag, passed);
      (forall j :: i <= j < |keys| ==> check(keys[j]).error.None?) ==> s.error.None?
    decreases |keys| - i
  {
    if i < |keys| {
      var k := keys[i];
      var c := check(k);
      var mine := AppendErrors(errs[k], k, c.messages);
      var next := errs[k := mine];
      if c.error.None? && c.messages == [] {
        SweepErrorFrom(keys, i + 1, check, next, bail, bag, passed);
      } else if c.error.None? && !bail {
        SweepErrorFrom(keys, i + 1, check, next, bail, bag + mine, false);
      }
    }
  }

  /** Appending one field's messages to a bag holding only that field keeps the bag so. */
  lemma AppendOwnKey(errs: map<string, Bag>, k: string, msgs: seq<string>)
    requires OwnKeys(errs) && k in errs
    ensures AppendErrors(errs[k], k, msgs).Keys <= {k}
    ensures OwnKeys(errs[k := AppendErrors(errs[k], k, msgs)])
  {
  }

  /**
   * A run leaves every condition in place, each bag holding at most its own
   * field.
   */
  lemma {:induction false} SweepOwnKeys(keys: seq<string>, i: nat, check: string -> Checked,
                                        errs: map<string, Bag>, bail: bool, bag: Bag, passed: bool)
    requires i <= |keys| && Covers(keys, i, errs) && OwnKeys(errs)
    ensures Sweep(keys, i, check, errs, bail, bag, passed).errs.Keys == errs.Keys
    ensures OwnKeys(Sweep(keys, i, check, errs, bail, bag, passed).errs)
    decreases |keys| - i
  {
    if i < |keys| {
      var k := keys[i];
      var c := check(k);
      var mine := AppendErrors(errs[k], k, c.messages);
      var next := errs[k := mine];
      AppendOwnKey(errs, k, c.messages);
      if c.error.None? && c.messages == [] {
        SweepOwnKeys(keys, i + 1, check, next, bail, bag, passed);
      } else if c.error.None? && !bail {
        SweepOwnKeys(keys, i + 1, check, next, bail, bag + mine, false);
      }
    }
  }

  /**
   * Under bail, a run that fails without an exception stops at the first
   * failing field: the bag it reports is that field's bag alone, and the
   * later fields are not checked, so only that field's condition gains
   * messages.
   */
  lemma {:induction false} BailReportsFirstFailure(keys: seq<string>, i: nat, check: string -> Checked,
                                                   errs: map<string, Bag>)
    requires i <= |keys| && Covers(keys, i, errs) && OwnKeys(errs)
    ensures var s := Sweep(keys, i, check, errs, true, map[], true);
      s.error.None? && !s.passed ==>
        exists f :: i <= f < |keys| &&
          (forall j :: i <= j < f ==> check(keys[j]) == Checked([], None)) &&
          check(keys[f]).messages != [] &&
          s.bag.Keys == {keys[f]} &&
          s.bag[keys[f]] == Prior(errs[keys[f]], keys[f]) + check(keys[f]).messages &&
          s.errs == errs[keys[f] := AppendErrors(errs[keys[f]], keys[f], check(keys[f]).messages)]
    decreases |keys| - i
  {
    if i < |keys| {
      var k := keys[i];
      var c := check(k);
      var mine := AppendErrors(errs[k], k, c.messages);
      var next := errs[k := mine];
      AppendOwnKey(errs, k, c.messages);
      var s := Sweep(keys, i, check, errs, true, map[], true);
      if c.error.None? && c.messages == [] {
        BailReportsFirstFailure(keys, i + 1, check, next);
        if s.error.None? && !s.passed {
          var f :| i + 1 <= f < |keys| &&
            (forall j :: i + 1 <= j < f ==> check(keys[j]) == Checked([], None)) &&
            check(keys[f]).messages != [] &&
            s.bag.Keys == {keys[f]} &&
            s.bag[keys[f]] == Prior(next[keys[f]], keys[f]) + check(keys[f]).messages &&
            s.errs == next[keys[f] := AppendErrors(next[keys[f]], keys[f], check(keys[f]).messages)];
          assert next == errs;
          assert keys[f] != k;
          assert next[keys[f]] == errs[keys[f]];
        }
      } else if c.error.None? {
        assert map[] + mine == mine;
        assert s.bag == mine;
      }
    }
  }

  lemma BagMerge(bag: Bag, mine: Bag, k: string)
    requires mine.Keys <= {k}
    ensures forall x :: x != k ==> (x in bag + mine <==> x in bag) && (x in bag ==> (bag + mine)[x] == bag[x])
  {
  }

  /** The fields from position `i` on are the one at `i` and those after it. */
  lemma LaterKeys(keys: seq<string>, i: nat)
    requires i < |keys|
    ensures forall x :: x in keys[i..] <==> x == keys[i] || x in keys[i + 1..]
  {
    assert keys[i..] == [keys[i]] + keys[i + 1..];
  }

  /** In a distinct list, the field at `i` does not come again. */
  lemma DistinctLater(keys: seq<string>, i: nat)
    requires Distinct(keys) && i < |keys|
    ensures keys[i] !in keys[i + 1..]
  {
    DistinctPairwise(keys);
  }

  /**
   * Without bail, and with no exception, the run-level bag holds exactly the
   * fields whose chain added a message (besides what it held before), each
   * with its condition's earlier messages followed by this run's: a field
   * that passes this time is absent, whatever its condition recorded before.
   */
  lemma {:induction false} SweepBag(keys: seq<string>, i: nat, check: string -> Checked, errs: map<string, Bag>,
                                    bag: Bag, passed: bool)
    requires i <= |keys| && Covers(keys, i, errs) && OwnKeys(errs) && Distinct(keys)
    requires forall j :: i <= j < |keys| ==> keys[j] !in bag
    ensures var s := Sweep(keys, i, check, errs, false, bag, passed);
      s.error.None? ==>
        (forall k :: k in s.bag <==> k in bag || (k in keys[i..] && check(k).messages != [])) &&
        (forall k :: k in bag ==> s.bag[k] == bag[k]) &&
        (forall k :: k in keys[i..] && check(k).messages != [] ==> s.bag[k] == Prior(errs[k], k) + check(k).messages)
    decreases |keys| - i
  {
    if i < |keys| {
      var k := keys[i];
      var c := check(k);
      var mine := AppendErrors(errs[k], k, c.messages);
      var next := errs[k := mine];
      AppendOwnKey(errs, k, c.messages);
      LaterKeys(keys, i);
      DistinctLater(keys, i);
      if c.error.None? && c.messages == [] {
        SweepBag(keys, i + 1, check, next, bag, passed);
      } else if c.error.None? {
        var merged := bag + mine;
        BagMerge(bag, mine, k);
        assert forall j :: i + 1 <= j < |keys| ==> keys[j] in keys[i + 1..];
        SweepBag(keys, i + 1, check, next, merged, false);
      }
    } else {
      assert keys[i..] == [];
    }
  }

  /**
   * What a run does to each condition's own bag: without bail and with no
   * exception, every listed field's chain appended its messages; the bags of
   * other fields are untouched.
   */
  lemma {:induction false} SweepErrors(keys: seq<string>, i: nat, check: string -> Checked, errs: map<string, Bag>,
                                       bag: Bag, passed: bool)
    requires i <= |keys| && Covers(keys, i, errs) && Distinct(keys)
    ensures var s := Sweep(keys, i, check, errs, false, bag, passed);
      s.error.None? ==>
        (forall k :: k in keys[i..] ==> k in s.errs && s.errs[k] == AppendErrors(errs[k], k, check(k).messages)) &&
        (forall k :: k in errs && k !in keys[i..] ==> k in s.errs && s.errs[k] == errs[k])
    decreases |keys| - i
  {
    if i < |keys| {
      var k := keys[i];
      var c := check(k);
      var mine := AppendErrors(errs[k], k, c.messages);
      var next := errs[k := mine];
      LaterKeys(keys, i);
      DistinctLater(keys, i);
      if c.error.None? && c.messages == [] {
        SweepErrors(keys, i + 1, check, next, bag, passed);
      } else if c.error.None? {
        SweepErrors(keys, i + 1, check, next, bag + mine, false);
      }
    } else {
      assert keys[i..] == [];
    }
  }

  /**
   * The run-level bag is rebuilt on every call, but the messages come from
   * the conditions' bags, which are never cleared: a field that fails in two
   * runs without bail reports the messages of both.
   */
  lemma TwoRunsAccumulate(keys: seq<string>, check: string -> Checked, errs: map<string, Bag>, k: string)
    requires Covers(keys, 0, errs) && OwnKeys(errs) && Distinct(keys)
    requires k in keys && check(k).messages != []
    ensures var first := Sweep(keys, 0, check, errs, false, map[], true);
      first.error.None? ==>
        && Covers(keys, 0, first.errs)
        && var second := Sweep(keys, 0, check, first.errs, false, map[], true);
          second.error.None? ==>
            k in second.bag && second.bag[k] == Prior(errs[k], k) + check(k).messages + check(k).messages
  {
    assert keys[0..] == keys;
    var first := Sweep(keys, 0, check, errs, false, map[], true);
    var m := check(k).messages;
    if first.error.None? {
      SweepErrors(keys, 0, check, errs, map[], true);
      SweepOwnKeys(keys, 0, check, errs, false, map[], true);
      assert first.errs[k] == AppendErrors(errs[k], k, m);
      assert Covers(keys, 0, first.errs);
      var second := Sweep(keys, 0, check, first.errs, false, map[], true);
      SweepBag(keys, 0, check, first.errs, map[], true);
      if second.error.None? {
        assert second.bag[k] == Prior(first.errs[k], k) + m;
        assert Prior(first.errs[k], k) == Prior(errs[k], k) + m;
      }
    }
  }

  /**
   * The loop of `validate()`: each field's condition is checked in order,
   * `check(k)` being what checking field `k` does (an exception ending the
   * loop, and the check failing when its chain added messages), appending to
   * that condition's bag; a failing field clears `$passed`, has its
   * condition's bag merged into the run-level bag, and under bail ends the
   * loop.
   */
  method CheckAll(keys: seq<string>, check: string -> Checked, errs: map<string, Bag>, bail: bool)
    returns (s: Swept)
    requires forall i :: 0 <= i < |keys| ==> keys[i] in errs
    ensures s == Sweep(keys, 0, check, errs, bail, map[], true)
  {
    ghost var total := Sweep(keys, 0, check, errs, bail, map[], true);
    var bags, bag, passed := errs, map[], true;
    var i := 0;
    while i < |keys|
      invariant 0 <= i <= |keys|
      invariant Covers(keys, i, bags)
      invariant total == Sweep(keys, i, check, bags, bail, bag, passed)
    {
      var key := keys[i];
      var c := check(key);
      bags := bags[key := AppendErrors(bags[key], key, c.messages)];
      if c.error.Some? {
        return Swept(bag, bags, passed, c.error);
      }
      if c.messages != [] {
        bag := bag + bags[key];
        passed := false;
        if bail {
          return Swept(bag, bags, passed, None);
        }
      }
      i := i + 1;
    }
    return Swept(bag, bags, passed, None);
  }

  /**
   * The conditions table: every field is listed once in `keys`, has a rule
   * list and a bag, and its bag holds at most its own field.
   */
  ghost predicate Table(keys: seq<string>, rules: map<string, seq<Descriptor>>, bags: map<string, Bag>) {
    && Distinct(keys)
    && (forall k :: k in rules <==> k in keys)
    && bags.Keys == rules.Keys
    && OwnKeys(bags)
  }

  /** Adding a condition for a new field, or rules to an existing one, keeps the table. */
  lemma TableAdd(keys: seq<string>, rules: map<string, seq<Descriptor>>, bags: map<string, Bag>,
                 field: string, added: seq<Descriptor>)
    requires Table(keys, rules, bags)
    ensures field !in rules ==> Table(keys + [field], rules[field := added], bags[field := map[]])
    ensures field in rules ==> Table(keys, rules[field := rules[field] + added], bags)
  {
    if field !in rules {
      DistinctSnoc(keys, field);
    }
  }

  // ---------------------------------------------------------------- the orchestrator object

  /** What one field's Condition object holds: its rule list and its bag. */
  datatype ConditionState = ConditionState(rules: seq<Descriptor>, errors: Bag)

  /**
   * `Validation`: the conditions array, keyed by field in insertion order,
   * and the run-level bag. Each field's condition is held as its state: its
   * rule list in `rules` and its bag in `bags`.
   */
  class Validation {
    /** The fields in the order their condition was first added. */
    var keys: seq<string>
    var rules: map<string, seq<Descriptor>>
    var bags: map<string, Bag>
    var errors: Bag

    /** The fields and their conditions form a table. */
    ghost predicate Valid()
      reads this
    {
      Table(keys, rules, bags)
    }

    constructor ()
      ensures Valid()
      ensures keys == [] && rules == map[] && bags == map[] && errors == map[]
    {
      keys := [];
      rules := map[];
      bags := map[];
      errors := map[];
    }

    /** `getConditions()`: every field's condition once, in insertion order. */
    function GetConditions(): (r: seq<(string, ConditionState)>)
      reads this
      requires Valid()
      ensures |r| == |keys|
      ensures forall i :: 0 <= i < |r| ==> r[i].0 == keys[i]
      ensures forall i, j :: 0 <= i < j < |r| ==> r[i].0 != r[j].0
      ensures forall i :: 0 <= i < |r| ==> r[i].0 in rules && r[i].1 == ConditionState(rules[r[i].0], bags[r[i].0])
      ensures forall k :: k in rules ==> exists i :: 0 <= i < |r| && r[i].0 == k
    {
      DistinctPairwise(keys);
      var ks, rs, bs := keys, rules, bags;
      seq(|ks|, i requires 0 <= i < |ks| => (ks[i], ConditionState(rs[ks[i]], bs[ks[i]])))
    }

    /**
     * `condition(field, rules)`: creates the field's condition on first use,
     * then appends what the token expands to, as `rule()` does; a token that
     * is not a string, array or closure is refused once the condition exists.
     */
    method Condition(field: string, t: Token) returns (err: Option<Error>)
      requires Valid()
      modifies this`keys, this`rules, this`bags
      ensures Valid()
      ensures keys == if field in old(rules) then old(keys) else old(keys) + [field]
      ensures rules == old(rules)[field := (if field in old(rules) then old(rules)[field] else []) + Expand(t).added]
      ensures bags == old(bags)[field := if field in old(rules) then old(bags)[field] else map[]]
      ensures err == Expand(t).error
    {
      var x := Expand(t);
      TableAdd(keys, rules, bags, field, x.added);
      if field !in rules {
        assert [] + x.added == x.added;
        keys, rules, bags := keys + [field], rules[field := x.added], bags[field := map[]];
      } else {
        rules := rules[field := rules[field] + x.added];
      }
      err := x.error;
    }

    /**
     * `validate(fields, bail)`: resets the run-level bag, runs the loop over
     * the conditions, and throws when a field failed; an exception from a
     * check passes through.
     */
    method Validate(env: Env, fields: Fields, bail: bool) returns (o: Outcome)
      requires Valid()
      modifies this
      ensures Valid()
      ensures keys == old(keys) && rules == old(rules)
      ensures var s := ValidateAll(env, old(keys), old(rules), old(bags), fields, bail);
        bags == s.errs && errors == s.bag && o == OutcomeOf(s)
    {
      var s := CheckAll(keys, CheckOf(env, rules, fields, bail), bags, bail);
      SweepOwnKeys(keys, 0, CheckOf(env, rules, fields, bail), bags, bail, map[], true);
      bags, errors := s.errs, s.bag;
      if s.error.Some? {
        return Raised(s.error.value);
      }
      if !s.passed {
        return Rejected(errors);
      }
      return Accepted;
    }
  }
}
