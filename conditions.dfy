/**
 * One field's rule chain: the parser that turns rule tokens into stored
 * descriptors, the resolution of a descriptor to something callable, and the
 * evaluation loop that fills the condition's error bag.
 */
module Conditions {
  import opened Wrappers
  import opened Text
  import opened Values
  import opened Environment
  import opened ValidatesData

  /** What `rule()` may be given: a rule expression, a closure, an array of tokens, or anything else. */
  datatype Token = Str(text: string) | Closure(id: nat) | List(items: seq<Token>) | Other

  /** A stored rule: a type name with its options (`None` for null), or a closure. */
  datatype Descriptor = Named(ty: string, options: Option<seq<string>>) | Callback(id: nat)

  /** An error bag: field key to the messages recorded for it. */
  type Bag = map<string, seq<string>>

  // ---------------------------------------------------------------- parsing a rule expression

  function DropSpacesEach(ps: seq<string>): (r: seq<string>)
    ensures |r| == |ps|
    ensures forall k :: 0 <= k < |r| ==> r[k] == DropSpaces(ps[k])
  {
    seq(|ps|, k requires 0 <= k < |ps| => DropSpaces(ps[k]))
  }

  /** The piece does not start with a `\s` character. */
  predicate Unspaced(p: string) {
    p == [] || !IsPcreSpace(p[0])
  }

  lemma SuffixHasNoComma(p: string, q: string)
    requires ',' !in p && |q| <= |p| && q == p[|p| - |q|..]
    ensures ',' !in q
  {
    assert forall i :: 0 <= i < |q| ==> q[i] == p[|p| - |q| + i];
  }

  /**
   * `preg_split('/,\s*\/', t)`: the pieces between the commas of `t`, each
   * piece after the first without the white space the `\s*` consumed.
   */
  function SplitOptions(t: string): (r: seq<string>)
    ensures |r| >= 1
    ensures forall k :: 0 <= k < |r| ==> ',' !in r[k]
    ensures forall k :: 1 <= k < |r| ==> Unspaced(r[k])
  {
    var ps := SplitOn(t, ',');
    var r := [ps[0]] + DropSpacesEach(ps[1..]);
    CleanPieces(ps, r);
    r
  }

  lemma CleanPieces(ps: seq<string>, r: seq<string>)
    requires |ps| >= 1 && forall k :: 0 <= k < |ps| ==> ',' !in ps[k]
    requires r == [ps[0]] + DropSpacesEach(ps[1..])
    ensures |r| >= 1
    ensures forall k :: 0 <= k < |r| ==> ',' !in r[k]
    ensures forall k :: 1 <= k < |r| ==> Unspaced(r[k])
  {
    var tail := DropSpacesEach(ps[1..]);
    forall k | 1 <= k < |r| ensures ',' !in r[k] && (Unspaced(r[k])) {
      assert r[k] == tail[k - 1] == DropSpaces(ps[k]);
      SuffixHasNoComma(ps[k], r[k]);
    }
  }

  /** No comma of `t` is followed by a `\s` character. */
  predicate NoSpaceAfterComma(t: string) {
    forall i :: 0 <= i < |t| - 1 && t[i] == ',' ==> !IsPcreSpace(t[i + 1])
  }

  lemma {:induction false} SplitOnAfterComma(t: string)
    requires NoSpaceAfterComma(t)
    ensures forall k :: 1 <= k < |SplitOn(t, ',')| ==> Unspaced(SplitOn(t, ',')[k])
    decreases |t|
  {
    var i := IndexOf(t, ',');
    if i < |t| {
      var rest := t[i + 1..];
      assert forall j :: 0 <= j < |rest| ==> rest[j] == t[i + 1 + j];
      assert NoSpaceAfterComma(rest);
      SplitOnAfterComma(rest);
      var ps := SplitOn(t, ',');
      assert ps == [t[..i]] + SplitOn(rest, ',');
      var first := SplitOn(rest, ',')[0];
      if first != [] {
        var j := IndexOf(rest, ',');
        assert first == (if j == |rest| then rest else rest[..j]);
        assert first[0] == t[i + 1];
      }
    }
  }

  lemma DropSpacesEachKeeps(ps: seq<string>)
    requires forall k :: 0 <= k < |ps| ==> Unspaced(ps[k])
    ensures DropSpacesEach(ps) == ps
  {
  }

  /** With no white space after a comma, joining the pieces with ',' gives `t` back. */
  lemma SplitOptionsJoin(t: string)
    requires NoSpaceAfterComma(t)
    ensures Join(SplitOptions(t), ',') == t
  {
    var ps := SplitOn(t, ',');
    SplitOnAfterComma(t);
    forall k | 0 <= k < |ps| - 1 ensures Unspaced(ps[1..][k]) {
      assert ps[1..][k] == ps[k + 1];
      assert Unspaced(ps[k + 1]);
    }
    DropSpacesEachKeeps(ps[1..]);
    assert SplitOptions(t) == ps;
    JoinSplitOn(t, ',');
  }

  /** Pieces without commas, none after the first starting with white space, are split back out of their join. */
  lemma SplitOptionsOfJoin(ps: seq<string>)
    requires |ps| >= 1
    requires forall k :: 0 <= k < |ps| ==> ',' !in ps[k]
    requires forall k :: 1 <= k < |ps| ==> Unspaced(ps[k])
    ensures SplitOptions(Join(ps, ',')) == ps
  {
    SplitOnJoin(ps, ',');
    DropSpacesEachKeeps(ps[1..]);
  }

  /**
   * The options of an expression whose remainder is `raw`: null when the
   * trimmed remainder is PHP-falsy, otherwise `raw` followed by the split.
   */
  function ParseOptions(raw: string): (r: Option<seq<string>>)
    ensures r.None? <==> Trim(raw) == "" || Trim(raw) == "0"
    ensures r.Some? ==> |r.value| >= 2 && r.value[0] == raw && r.value[1..] == SplitOptions(Trim(raw))
  {
    var t := Trim(raw);
    if TruthyStr(t) then Some([raw] + SplitOptions(t)) else None
  }

  /**
   * `preg_match('/^([^:]+):?(.*)$/', s)` and what `rule()` makes of the
   * match. The type is everything before the first colon; the remainder
   * after it cannot hold a "\n" except as its last character, which the
   * match leaves out.
   */
  function ParseExpression(s: string): (r: Result<Descriptor, Error>)
    ensures r.Success? ==> r.value.Named?
    ensures r.Failure? ==> r.error == InvalidRuleExpression
  {
    if s == [] || s[0] == ':' then Failure(InvalidRuleExpression)
    else
      var i := IndexOf(s, ':');
      if i == |s| then Success(Named(Trim(s), None))
      else
        var raw := DropFinalNewline(s[i + 1..]);
        if '\n' in raw then Failure(InvalidRuleExpression)
        else Success(Named(Trim(s[..i]), ParseOptions(raw)))
  }

  /** An expression without a colon is all type and has null options. */
  lemma ParseNoColon(s: string)
    requires s != [] && ':' !in s
    ensures ParseExpression(s) == Success(Named(Trim(s), None))
  {
  }

  /**
   * `ty:raw` has type `trim(ty)` and the options of `raw`, whatever colons
   * `raw` holds; one final "\n" after `raw` changes nothing.
   */
  lemma ParseColon(ty: string, raw: string)
    requires ty != [] && ':' !in ty && '\n' !in raw
    ensures ParseExpression(ty + ":" + raw) == Success(Named(Trim(ty), ParseOptions(raw)))
    ensures ParseExpression(ty + ":" + raw + "\n") == Success(Named(Trim(ty), ParseOptions(raw)))
  {
    ColonSplit(ty, raw);
    assert DropFinalNewline(raw) == raw;
    ColonSplit(ty, raw + "\n");
    assert ty + ":" + raw + "\n" == ty + ":" + (raw + "\n");
    assert DropFinalNewline(raw + "\n") == raw;
  }

  /** The text around the first colon of `ty:rest`. */
  lemma ColonSplit(ty: string, rest: string)
    requires ty != [] && ':' !in ty
    ensures var s := ty + ":" + rest;
      s != [] && s[0] != ':' && IndexOf(s, ':') == |ty| && s[..|ty|] == ty && s[|ty| + 1..] == rest
  {
    IndexOfAfterPrefix(ty, ':', rest);
    var s := ty + ":" + rest;
    assert s[0] == ty[0];
    assert s[..|ty|] == ty;
    assert s[|ty| + 1..] == rest;
  }

  /**
   * The expression is rejected when it is empty, when it starts with a colon,
   * and when a "\n" that is not the last character follows the first colon.
   */
  lemma ParseRejects(ty: string, a: string, b: string)
    ensures ParseExpression("").Failure?
    ensures ParseExpression(":" + a).Failure?
    ensures ty != [] && ':' !in ty && b != [] ==> ParseExpression(ty + ":" + a + "\n" + b).Failure?
  {
    assert (":" + a)[0] == ':';
    if ty != [] && ':' !in ty && b != [] {
      var rest := a + "\n" + b;
      ColonSplit(ty, rest);
      assert ty + ":" + a + "\n" + b == ty + ":" + rest;
      var raw := DropFinalNewline(rest);
      assert |raw| > |a| && raw[|a|] == '\n';
    }
  }

  /**
   * The options always start with the untouched remainder, and, when no
   * white space follows a comma, the pieces after it join back into the
   * trimmed remainder.
   */
  lemma ParseOptionsRoundTrip(raw: string)
    requires ParseOptions(raw).Some?
    ensures ParseOptions(raw).value[0] == raw
    ensures NoSpaceAfterComma(Trim(raw)) ==> Join(ParseOptions(raw).value[1..], ',') == Trim(raw)
  {
    if NoSpaceAfterComma(Trim(raw)) {
      SplitOptionsJoin(Trim(raw));
    }
  }

  lemma TrimPlain(s: string)
    requires s != [] && !IsTrimSpace(s[0]) && !IsTrimSpace(s[|s| - 1])
    ensures Trim(s) == s
  {
  }

  /** A type name with no surrounding spaces, with options that split into `opts`. */
  lemma ParseUntrimmed(ty: string, raw: string, opts: seq<string>)
    requires ty != [] && ':' !in ty && '\n' !in raw && !IsTrimSpace(ty[0]) && !IsTrimSpace(ty[|ty| - 1])
    requires ParseOptions(raw) == Some(opts)
    ensures ParseExpression(ty + ":" + raw) == Success(Named(ty, Some(opts)))
  {
    ParseColon(ty, raw);
    TrimPlain(ty);
  }

  lemma SingleOption(raw: string)
    requires raw == "255"
    ensures ParseOptions(raw) == Some([raw, raw])
  {
    TrimPlain(raw);
    assert Join([raw], ',') == raw;
    SplitOptionsOfJoin([raw]);
    assert ParseOptions(raw) == Some([raw] + SplitOptions(raw));
    assert [raw] + [raw] == [raw, raw];
  }

  /** 'max:255' gives the options ['255', '255']. */
  lemma ParseMaxExample(ty: string, raw: string)
    requires ty == "max" && raw == "255"
    ensures ParseExpression(ty + ":" + raw) == Success(Named(ty, Some([raw, raw])))
  {
    SingleOption(raw);
    ParseUntrimmed(ty, raw, [raw, raw]);
  }

  lemma TwoOptions(raw: string, a: string, b: string)
    requires raw == "5,10" && a == "5" && b == "10"
    ensures ParseOptions(raw) == Some([raw, a, b])
  {
    TrimPlain(raw);
    assert Join([a, b], ',') == a + [','] + b == raw;
    SplitOptionsOfJoin([a, b]);
    assert ParseOptions(raw) == Some([raw] + SplitOptions(raw));
    assert [raw] + [a, b] == [raw, a, b];
  }

  /** 'between:5,10' gives the options ['5,10', '5', '10']. */
  lemma ParseBetweenExample(ty: string, raw: string, a: string, b: string)
    requires ty == "between" && raw == "5,10" && a == "5" && b == "10"
    ensures ParseExpression(ty + ":" + raw) == Success(Named(ty, Some([raw, a, b])))
  {
    TwoOptions(raw, a, b);
    ParseUntrimmed(ty, raw, [raw, a, b]);
  }

  lemma ConcatAssociative<T>(a: seq<T>, b: seq<T>, c: seq<T>)
    ensures a + (b + c) == (a + b) + c
  {
  }

  // ---------------------------------------------------------------- appending tokens

  /** What one `rule()` call appends, and the exception that ended it, if any. */
  datatype Appended = Appended(added: seq<Descriptor>, error: Option<Error>)

  /** What `rule(t)` appends to the rule list. */
  function Expand(t: Token): (r: Appended)
    decreases t, 1
  {
    match t
    case Str(s) =>
      (match ParseExpression(s)
       case Success(d) => Appended([d], None)
       case Failure(e) => Appended([], Some(e)))
    case Closure(id) => Appended([Callback(id)], None)
    case List(items) => ExpandList(items)
    case Other => Appended([], Some(InvalidRuleType))
  }

  /** `h` followed by `rest`, unless `h` ended in an exception. */
  function Then(h: Appended, rest: Appended): (r: Appended)
    ensures h.error.Some? ==> r == h
    ensures h.error.None? ==> |h.added| <= |r.added| && r.added[..|h.added|] == h.added && r.added[|h.added|..] == rest.added && r.error == rest.error
  {
    if h.error.Some? then h else Appended(h.added + rest.added, rest.error)
  }

  /** Chaining is associative, so an array can be split anywhere. */
  lemma ThenAssociative(x: Appended, y: Appended, z: Appended)
    ensures Then(x, Then(y, z)) == Then(Then(x, y), z)
  {
    if x.error.None? && y.error.None? {
      assert x.added + (y.added + z.added) == (x.added + y.added) + z.added;
    }
  }

  /** The elements of an array token, appended in order up to the first that raises. */
  function ExpandList(ts: seq<Token>): (r: Appended)
    decreases ts, 0
  {
    if ts == [] then Appended([], None)
    else Then(Expand(ts[0]), ExpandList(ts[1..]))
  }

  /**
   * The elements of `a + b` are those of `a` and then, unless one of `a`
   * raised, those of `b`: the error stops the array where it occurs and
   * keeps what came before it.
   */
  lemma {:induction false} ExpandListAppend(a: seq<Token>, b: seq<Token>)
    ensures ExpandList(a + b) == Then(ExpandList(a), ExpandList(b))
  {
    if a == [] {
      assert a + b == b;
      assert [] + ExpandList(b).added == ExpandList(b).added;
    } else {
      assert (a + b)[0] == a[0];
      assert (a + b)[1..] == a[1..] + b;
      ExpandListAppend(a[1..], b);
      ThenAssociative(Expand(a[0]), ExpandList(a[1..]), ExpandList(b));
    }
  }

  lemma ExpandListSnoc(ts: seq<Token>, x: Token)
    requires ExpandList(ts).error.None?
    ensures ExpandList(ts + [x]) == Appended(ExpandList(ts).added + Expand(x).added, Expand(x).error)
  {
    ExpandListAppend(ts, [x]);
    assert [x][1..] == [];
  }

  lemma ExpandListStops(ts: seq<Token>, rest: seq<Token>)
    requires ExpandList(ts).error.Some?
    ensures ExpandList(ts + rest) == ExpandList(ts)
  {
    ExpandListAppend(ts, rest);
  }

  /** A string token appends one descriptor or raises; nothing else. */
  lemma ExpandString(s: string)
    ensures Expand(Str(s)).error.None? <==> ParseExpression(s).Success?
    ensures Expand(Str(s)).added == if ParseExpression(s).Success? then [ParseExpression(s).value] else []
  {
  }

  // ---------------------------------------------------------------- resolving and calling

  /** What a descriptor resolves to: a built-in method, or a rule the library does not define. */
  datatype Callable = Builtin(b: Builtin) | User(rule: UserRule)

  /**
   * The callable for a descriptor: a closure is itself; a type naming a class
   * must implement RuleInterface; otherwise the built-in of that name, if any.
   */
  function Resolve(env: Env, d: Descriptor): (r: Result<Callable, Error>)
    ensures d.Callback? ==> r == Success(User(ClosureRule(d.id)))
    ensures d.Named? && env.classes(d.ty) == RuleClass ==> r == Success(User(ClassRule(d.ty)))
    ensures d.Named? && env.classes(d.ty) == PlainClass ==> r == Failure(MustImplementRuleInterface)
    ensures d.Named? && env.classes(d.ty) == NoClass ==>
      (r.Success? <==> Lookup(d.ty).Some?) && (r.Failure? ==> r.error == UnknownRuleType)
    ensures r.Success? && r.value.Builtin? ==> d.Named? && NormalizeName(d.ty) == Name(r.value.b)
  {
    match d
    case Callback(id) => Success(User(ClosureRule(id)))
    case Named(ty, _) =>
      match env.classes(ty)
      case RuleClass => Success(User(ClassRule(ty)))
      case PlainClass => Failure(MustImplementRuleInterface)
      case NoClass =>
        match Lookup(ty)
        case Some(b) => Success(Builtin(b))
        case None => Failure(UnknownRuleType)
  }

  /** `$rule['options'] ?? []`. */
  function OptionsOf(d: Descriptor): seq<string> {
    match d
    case Named(_, Some(o)) => o
    case _ => []
  }

  /** Calling the callable with the fields, the key and the options. */
  function Invoke(env: Env, c: Callable, fields: Fields, key: string, options: seq<string>): RuleOutcome {
    match c
    case Builtin(b) => Apply(env, b, fields, key, options)
    case User(u) => env.user(u, fields, key, options)
  }

  /** The message recorded when the failure callback was given null. */
  function DefaultMessage(d: Descriptor): string {
    match d
    case Callback(_) => "Failed validation for Closure rule"
    case Named(ty, _) => "validation." + ty
  }

  /** The message a failing rule adds to the bag: what it passed to the callback, or the default for null. */
  function MessageFor(d: Descriptor, message: Option<string>): string {
    match message
    case Some(m) => m
    case None => DefaultMessage(d)
  }

  /** What one rule does to the loop: it raises, passes, or fails with the message it adds. */
  datatype Step = Halted(error: Error) | Passed | Failed(message: string)

  /** Resolving one rule and calling it. */
  function Evaluate(env: Env, d: Descriptor, fields: Fields, key: string): Step {
    match Resolve(env, d)
    case Failure(e) => Halted(e)
    case Success(callable) =>
      match Invoke(env, callable, fields, key, OptionsOf(d))
      case Raise(e) => Halted(e)
      case Pass => Passed
      case Fail(m) => Failed(MessageFor(d, m))
  }

  /** A rule resolves and its call does not touch the failure callback. */
  predicate Passes(env: Env, d: Descriptor, fields: Fields, key: string) {
    Evaluate(env, d, fields, key) == Passed
  }

  // ---------------------------------------------------------------- the evaluation loop

  /** What `check()` does to the bag (the messages it appends) and the exception that ends it, if any. */
  datatype Checked = Checked(messages: seq<string>, error: Option<Error>)

  /**
   * Evaluating the rules in order: a passing rule adds nothing, a failing one
   * adds its message and, under bail, ends the loop; an exception ends it
   * with the messages added so far left in the bag.
   */
  function Run(env: Env, rs: seq<Descriptor>, fields: Fields, key: string, bail: bool): (c: Checked)
    ensures bail ==> |c.messages| <= 1
    ensures bail && c.messages != [] ==> c.error.None?
    ensures |c.messages| <= |rs|
    decreases |rs|
  {
    if rs == [] then Checked([], None)
    else
      match Evaluate(env, rs[0], fields, key)
      case Halted(e) => Checked([], Some(e))
      case Passed => Run(env, rs[1..], fields, key, bail)
      case Failed(m) =>
        if bail then Checked([m], None)
        else
          var rest := Run(env, rs[1..], fields, key, bail);
          Checked([m] + rest.messages, rest.error)
  }

  /**
   * A run adds no message and raises nothing exactly when every rule
   * resolves and passes.
   */
  lemma {:induction false} RunPassesIff(env: Env, rs: seq<Descriptor>, fields: Fields, key: string, bail: bool)
    ensures Run(env, rs, fields, key, bail) == Checked([], None) <==>
      forall i :: 0 <= i < |rs| ==> Passes(env, rs[i], fields, key)
    decreases |rs|
  {
    if rs != [] {
      RunPassesIff(env, rs[1..], fields, key, bail);
      assert forall i :: 1 <= i < |rs| ==> rs[i] == rs[1..][i - 1];
    }
  }

  /**
   * Without bail the rules of `a + b` are those of `a` followed by those of
   * `b`: the messages concatenate in rule order, unless `a` raised.
   */
  lemma {:induction false} RunAppend(env: Env, a: seq<Descriptor>, b: seq<Descriptor>, fields: Fields, key: string)
    ensures Run(env, a + b, fields, key, false) ==
      if Run(env, a, fields, key, false).error.Some? then Run(env, a, fields, key, false)
      else Checked(Run(env, a, fields, key, false).messages + Run(env, b, fields, key, false).messages,
                   Run(env, b, fields, key, false).error)
    decreases |a|
  {
    if a == [] {
      assert a + b == b;
    } else {
      assert (a + b)[0] == a[0];
      assert (a + b)[1..] == a[1..] + b;
      RunAppend(env, a[1..], b, fields, key);
      var ra := Run(env, a[1..], fields, key, false);
      var rb := Run(env, b, fields, key, false);
      var step := Evaluate(env, a[0], fields, key);
      if step.Failed? && ra.error.None? {
        assert [step.message] + (ra.messages + rb.messages) == ([step.message] + ra.messages) + rb.messages;
      }
    }
  }

  /** A single failing rule adds exactly one message, its own. */
  lemma RunOne(env: Env, d: Descriptor, fields: Fields, key: string, bail: bool)
    requires Evaluate(env, d, fields, key).Failed?
    ensures Run(env, [d], fields, key, bail) == Checked([Evaluate(env, d, fields, key).message], None)
  {
    assert [d][1..] == [];
  }

  /**
   * Bail only cuts the loop short: it keeps the first message of the full
   * run, and when the full run adds none the two runs agree.
   */
  lemma {:induction false} BailIsPrefix(env: Env, rs: seq<Descriptor>, fields: Fields, key: string)
    ensures var full := Run(env, rs, fields, key, false);
      Run(env, rs, fields, key, true) ==
        if full.messages == [] then full else Checked([full.messages[0]], None)
    decreases |rs|
  {
    if rs != [] {
      BailIsPrefix(env, rs[1..], fields, key);
    }
  }

  /** One step of the loop: the run from rule `i` on, in terms of rule `i` and the run after it. */
  lemma RunAt(env: Env, rs: seq<Descriptor>, i: nat, fields: Fields, key: string, bail: bool)
    requires i < |rs|
    ensures var rest := Run(env, rs[i + 1..], fields, key, bail);
      Run(env, rs[i..], fields, key, bail) ==
        match Evaluate(env, rs[i], fields, key)
        case Halted(e) => Checked([], Some(e))
        case Passed => rest
        case Failed(m) => if bail then Checked([m], None) else Checked([m] + rest.messages, rest.error)
  {
    assert rs[i..][0] == rs[i] && rs[i..][1..] == rs[i + 1..];
  }

  /**
   * The bag after appending `msgs` for `key`: the key's entry is created on
   * the first message and extended after that.
   */
  function AppendErrors(errs: Bag, key: string, msgs: seq<string>): (r: Bag)
    ensures msgs == [] ==> r == errs
    ensures msgs != [] ==> key in r && r[key] == (if key in errs then errs[key] else []) + msgs
    ensures forall k :: k != key ==> (k in r <==> k in errs) && (k in r ==> r[k] == errs[k])
    ensures key in errs ==> key in r
  {
    if msgs == [] then errs
    else errs[key := (if key in errs then errs[key] else []) + msgs]
  }

  /** Appending in two steps is appending the concatenation. */
  lemma AppendErrorsTwice(errs: Bag, key: string, a: seq<string>, b: seq<string>)
    ensures AppendErrors(AppendErrors(errs, key, a), key, b) == AppendErrors(errs, key, a + b)
  {
    if a == [] {
      assert a + b == b;
    } else if b == [] {
      assert a + b == a;
    } else {
      var e := if key in errs then errs[key] else [];
      assert e + a + b == e + (a + b);
    }
  }

  // ---------------------------------------------------------------- the condition object

  /** A field's rule list and error bag. The bag is never cleared. */
  class Condition {
    var rules: seq<Descriptor>
    var errors: Bag

    constructor ()
      ensures rules == [] && errors == map[]
    {
      rules := [];
      errors := map[];
    }

    function GetErrors(): (e: Bag)
      reads this
      ensures e == errors
    {
      errors
    }

    /**
     * `rule(t)`: appends what the token expands to, element by element; an
     * exception raised part-way leaves the earlier elements appended.
     */
    method Rule(t: Token) returns (err: Option<Error>)
      modifies this`rules
      ensures rules == old(rules) + Expand(t).added
      ensures err == Expand(t).error
      decreases t
    {
      match t
      case List(items) =>
        var i := 0;
        while i < |items|
          invariant 0 <= i <= |items|
          invariant ExpandList(items[..i]).error.None?
          invariant rules == old(rules) + ExpandList(items[..i]).added
        {
          assert items[..i + 1] == items[..i] + [items[i]];
          ExpandListSnoc(items[..i], items[i]);
          ghost var done := ExpandList(items[..i]).added;
          var e := Rule(items[i]);
          ConcatAssociative(old(rules), done, Expand(items[i]).added);
          if e.Some? {
            assert items == items[..i + 1] + items[i + 1..];
            ExpandListStops(items[..i + 1], items[i + 1..]);
            return e;
          }
          i := i + 1;
        }
        assert items[..i] == items;
        return None;
      case Str(s) =>
        var parsed := ParseExpression(s);
        if parsed.Failure? {
          return Some(parsed.error);
        }
        rules := rules + [parsed.value];
        return None;
      case Closure(id) =>
        rules := rules + [Callback(id)];
        return None;
      case Other =>
        return Some(InvalidRuleType);
    }

    /** Appends one message to the key's entry of the bag, creating the entry first if it is missing. */
    method AddError(key: string, message: string)
      modifies this`errors
      ensures errors == AppendErrors(old(errors), key, [message])
    {
      if key !in errors {
        errors := errors[key := []];
      }
      errors := errors[key := errors[key] + [message]];
    }

    /**
     * `check(fields, key, bail)`: evaluates the rules in order, appending one
     * message per failure to `errors[key]`. The result is whether no rule
     * failed, or the exception a rule raised.
     */
    method Check(env: Env, fields: Fields, key: string, bail: bool) returns (r: Result<bool, Error>)
      modifies this`errors
      ensures var c := Run(env, old(rules), fields, key, bail);
        && errors == AppendErrors(old(errors), key, c.messages)
        && r == (if c.error.Some? then Failure(c.error.value) else Success(c.messages == []))
    {
      // foreach iterates over a copy of the array
      var rs := rules;
      ghost var total := Run(env, rs, fields, key, bail);
      var passed := true;
      var added: seq<string> := [];
      var i := 0;
      while i < |rs|
        invariant 0 <= i <= |rs|
        invariant errors == AppendErrors(old(errors), key, added)
        invariant passed <==> added == []
        invariant bail ==> added == []
        invariant var rest := Run(env, rs[i..], fields, key, bail);
          total == Checked(added + rest.messages, rest.error)
      {
        RunAt(env, rs, i, fields, key, bail);
        var step := Evaluate(env, rs[i], fields, key);
        if step.Halted? {
          assert added + [] == added;
          return Failure(step.error);
        }
        if step.Failed? {
          passed := false;
          AppendErrorsTwice(old(errors), key, added, [step.message]);
          AddError(key, step.message);
          ghost var rest := Run(env, rs[i + 1..], fields, key, bail);
          ConcatAssociative(added, [step.message], rest.messages);
          added := added + [step.message];
          if bail {
            return Success(false);
          }
        }
        i := i + 1;
      }
      assert rs[i..] == [];
      assert added + [] == added;
      return Success(passed);
    }
  }
}
