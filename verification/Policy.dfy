/**
 The native policy evaluator (provenex/policy/yaml_evaluator.py): path resolution, rule scopes,
 constraints and the first-violation loop, on rules that passed validation at load time.
 */
module Policy {
  import opened Basics

  /** A value as YAML or a context holds it. A Record is a frozen dataclass instance. */
  datatype Value =
    | Null
    | Bool(b: bool)
    | Int(n: int)
    | Str(s: string)
    | List(items: seq<Value>)
    | Dict(entries: map<string, Value>)
    | Record(fields: map<string, Value>)

  /** Library calls: `getattr` on names that are not dataclass fields, `fnmatchcase`, and the
      parsers of ISO-8601 instants and of durations (None where they raise). */
  datatype Library = Library(
    attribute: (Value, string) -> Option<Value>,
    glob: (string, string) -> bool,
    instant: string -> Option<int>,
    duration: string -> Option<int>)

  /** A dotted path by its segments, of which there is always one. */
  type Path = p: seq<string> | p != [] witness [""]

  datatype Clause = Clause(path: Path, value: Value)

  datatype Rule = Rule(name: string, when: seq<Clause>, require: seq<Clause>)

  datatype Request = Request(caller: map<string, Value>, jurisdiction: Option<string>, purpose: Option<string>,
                             timestamp: string, sessionId: Option<string>)

  /** What a rule is evaluated against; retrieval supplies a chunk, admission a tool call. */
  datatype Context = Context(chunk: Option<Value>, tool: Option<Value>, request: Request)

  datatype PolicyError = UnknownRoot

  datatype Decision = Decision(allow: bool, rulesFired: seq<string>)

  const MAX_PATTERN_INPUT_LEN := 65536

  const REQUEST_FIELDS := {"caller", "jurisdiction", "purpose", "timestamp", "session_id"}
  const CHUNK_ROOTS := {"chunk", "request"}
  const ROOTS := {"chunk", "tool", "request"}
  const RESERVED_KEYS := {"any_of", "all_of", "not", "nested"}
  const REQUIRE_OPERATORS := {"in", "not_in", "not_older_than", "matches_pattern", "not_matches_pattern",
                              "length_at_most"}

  /** Python's `==`: a truth value equals the number it stands for. */
  predicate PyEq(a: Value, b: Value) {
    match (a, b)
    case (Bool(x), Int(n)) => (if x then 1 else 0) == n
    case (Int(n), Bool(x)) => (if x then 1 else 0) == n
    case (List(xs), List(ys)) => |xs| == |ys| && forall i :: 0 <= i < |xs| ==> PyEq(xs[i], ys[i])
    case (Dict(m), Dict(k)) => m.Keys == k.Keys && forall key :: key in m ==> PyEq(m[key], k[key])
    case (Record(m), Record(k)) => m.Keys == k.Keys && forall key :: key in m ==> PyEq(m[key], k[key])
    case _ => a == b
  }

  predicate Member(v: Value, items: seq<Value>) {
    exists i :: 0 <= i < |items| && PyEq(v, items[i])
  }

  // ---------------------------------------------------------------- what validation accepts

  /** A path with a dot must start at a root of the rule's domain; one without is only checked
      against the reserved names. */
  predicate ValidPath(p: Path, roots: set<string>) {
    if |p| >= 2 then p[0] in roots else p[0] !in RESERVED_KEYS
  }

  predicate ValidScope(expected: Value) {
    expected.Dict? ==> expected.entries.Keys <= {"in"} && ("in" in expected.entries ==> expected.entries["in"].List?)
  }

  predicate ValidConstraint(lib: Library, c: Value) {
    c.Dict? ==>
      && c.entries.Keys <= REQUIRE_OPERATORS
      && ("in" in c.entries ==> c.entries["in"].List?)
      && ("not_in" in c.entries ==> c.entries["not_in"].List?)
      && ("not_older_than" in c.entries ==>
            c.entries["not_older_than"].Str? && lib.duration(c.entries["not_older_than"].s).Some?)
      && ("matches_pattern" in c.entries ==> c.entries["matches_pattern"].Str?)
      && ("not_matches_pattern" in c.entries ==> c.entries["not_matches_pattern"].Str?)
      && ("length_at_most" in c.entries ==> c.entries["length_at_most"].Int? && c.entries["length_at_most"].n >= 0)
  }

  /** The rule passes validation at load time. */
  predicate ValidRule(lib: Library, rule: Rule, roots: set<string>) {
    && rule.name != ""
    && (forall c :: c in rule.when ==> ValidPath(c.path, roots) && ValidScope(c.value))
    && (forall c :: c in rule.require ==> ValidPath(c.path, roots) && ValidConstraint(lib, c.value))
  }

  predicate ValidRules(lib: Library, rules: seq<Rule>, roots: set<string>) {
    forall r :: r in rules ==> ValidRule(lib, r, roots)
  }

  // ---------------------------------------------------------------- resolution

  function OrNull(v: Option<string>): Value {
    if v.Some? then Str(v.value) else Null
  }

  function RequestRecord(r: Request): Value {
    Record(map["caller" := Dict(r.caller), "jurisdiction" := OrNull(r.jurisdiction), "purpose" := OrNull(r.purpose),
               "timestamp" := Str(r.timestamp), "session_id" := OrNull(r.sessionId)])
  }

  /** One segment: a key of a mapping, or an attribute of anything else. */
  function Child(lib: Library, v: Value, seg: string): Option<Value> {
    match v
    case Dict(entries) => if seg in entries then Some(entries[seg]) else None
    case Record(fields) => if seg in fields then Some(fields[seg]) else lib.attribute(v, seg)
    case _ => lib.attribute(v, seg)
  }

  /** Where the segments lead; None once one of them is missing. */
  function Follow(lib: Library, v: Value, segs: seq<string>): Option<Value>
    decreases |segs|
  {
    if segs == [] then Some(v)
    else
      var next := Child(lib, v, segs[0]);
      if next == None then None else Follow(lib, next.value, segs[1..])
  }

  function Root(ctx: Context, name: string): Result<Option<Value>, PolicyError> {
    if name == "chunk" then Ok(ctx.chunk)
    else if name == "tool" then Ok(ctx.tool)
    else if name == "request" then Ok(Some(RequestRecord(ctx.request)))
    else Err(UnknownRoot)
  }

  function Resolve(lib: Library, ctx: Context, path: Path): Result<Option<Value>, PolicyError> {
    match Root(ctx, path[0])
    case Err(e) => Err(e)
    case Ok(None) => Ok(None)
    case Ok(Some(v)) => Ok(Follow(lib, v, path[1..]))
  }

  method ResolvePath(lib: Library, path: Path, ctx: Context) returns (res: Result<Option<Value>, PolicyError>)
    ensures res == Resolve(lib, ctx, path)
  {
    var root := Root(ctx, path[0]);
    if root.Err? || root.value == None {
      return root;
    }
    var current := root.value.value;
    for i := 1 to |path|
      invariant Follow(lib, root.value.value, path[1..]) == Follow(lib, current, path[i..])
    {
      assert path[i..][1..] == path[i + 1..];
      var next := Child(lib, current, path[i]);
      if next == None {
        return Ok(None);
      }
      current := next.value;
    }
    res := Ok(Some(current));
  }

  // ---------------------------------------------------------------- scopes and constraints

  /** A `when` entry: plain equality, or membership. */
  predicate Matches(expected: Value, actual: Value)
    requires ValidScope(expected)
  {
    if expected.Dict?
    then "in" in expected.entries && Member(actual, expected.entries["in"].items)
    else PyEq(actual, expected)
  }

  /** A missing path means that the rule does not apply. */
  function Applies(lib: Library, when: seq<Clause>, ctx: Context): Result<bool, PolicyError>
    requires forall c :: c in when ==> ValidScope(c.value)
  {
    if when == [] then Ok(true)
    else
      match Resolve(lib, ctx, when[0].path)
      case Err(e) => Err(e)
      case Ok(None) => Ok(false)
      case Ok(Some(v)) => if Matches(when[0].value, v) then Applies(lib, when[1..], ctx) else Ok(false)
  }

  method WhenMatches(lib: Library, when: seq<Clause>, ctx: Context) returns (res: Result<bool, PolicyError>)
    requires forall c :: c in when ==> ValidScope(c.value)
    ensures res == Applies(lib, when, ctx)
  {
    for i := 0 to |when|
      invariant Applies(lib, when, ctx) == Applies(lib, when[i..], ctx)
    {
      assert when[i..][1..] == when[i + 1..];
      assert when[i] in when;
      var actual := ResolvePath(lib, when[i].path, ctx);
      if actual.Err? {
        return Err(actual.error);
      }
      if actual.value == None || !Matches(when[i].value, actual.value.value) {
        return Ok(false);
      }
    }
    res := Ok(true);
  }

  /** A `require` entry against a value that is present. Of several operators only the first
      recognised one is looked at, and a value of the wrong type never passes. */
  predicate Holds(lib: Library, c: Value, actual: Value, now: string)
    requires ValidConstraint(lib, c)
  {
    if !c.Dict? then PyEq(actual, c)
    else
      var ops := c.entries;
      if "in" in ops then Member(actual, ops["in"].items)
      else if "not_in" in ops then !Member(actual, ops["not_in"].items)
      else if !actual.Str? then false
      else if "not_older_than" in ops then
        FreshEnough(lib.instant(actual.s), lib.instant(now), lib.duration(ops["not_older_than"].s).value)
      else if "matches_pattern" in ops then
        |actual.s| <= MAX_PATTERN_INPUT_LEN && lib.glob(actual.s, ops["matches_pattern"].s)
      else if "not_matches_pattern" in ops then
        |actual.s| <= MAX_PATTERN_INPUT_LEN && !lib.glob(actual.s, ops["not_matches_pattern"].s)
      else if "length_at_most" in ops then |actual.s| <= ops["length_at_most"].n
      else false
  }

  predicate FreshEnough(then_: Option<int>, now: Option<int>, maxAge: int) {
    then_.Some? && now.Some? && now.value - then_.value <= maxAge
  }

  /** A missing path is decided by `defaults.unknown_metadata`. */
  predicate CheckConstraint(lib: Library, c: Value, actual: Option<Value>, now: string, unknownAllowed: bool)
    requires ValidConstraint(lib, c)
  {
    if actual == None then unknownAllowed else Holds(lib, c, actual.value, now)
  }

  /** All of a rule's constraints, up to the first that fails. */
  function Satisfied(lib: Library, require: seq<Clause>, ctx: Context, unknownAllowed: bool): Result<bool, PolicyError>
    requires forall c :: c in require ==> ValidConstraint(lib, c.value)
  {
    if require == [] then Ok(true)
    else
      match Resolve(lib, ctx, require[0].path)
      case Err(e) => Err(e)
      case Ok(actual) =>
        if CheckConstraint(lib, require[0].value, actual, ctx.request.timestamp, unknownAllowed)
        then Satisfied(lib, require[1..], ctx, unknownAllowed)
        else Ok(false)
  }

  // ---------------------------------------------------------------- one rule, and a list of rules

  datatype Verdict = Skipped | Passed | Violated | Raised(error: PolicyError)

  /** Evaluation goes on after the rule. */
  predicate Quiet(v: Verdict) {
    v.Skipped? || v.Passed?
  }

  /** The rule's scope matched. */
  predicate Applied(v: Verdict) {
    v.Passed? || v.Violated?
  }

  /** What one rule says on its own. */
  function Judge(lib: Library, rule: Rule, ctx: Context, unknownAllowed: bool): Verdict
    requires ValidRule(lib, rule, CHUNK_ROOTS)
  {
    match Applies(lib, rule.when, ctx)
    case Err(e) => Raised(e)
    case Ok(false) => Skipped
    case Ok(true) =>
      match Satisfied(lib, rule.require, ctx, unknownAllowed)
      case Err(e) => Raised(e)
      case Ok(ok) => if ok then Passed else Violated
  }

  /** The names of the rules that apply, in file order. */
  function Fired(lib: Library, rules: seq<Rule>, ctx: Context, unknownAllowed: bool): seq<string>
    requires ValidRules(lib, rules, CHUNK_ROOTS)
  {
    if rules == [] then []
    else
      var n := |rules| - 1;
      assert rules[n] in rules;
      Fired(lib, rules[..n], ctx, unknownAllowed) +
      (if Applied(Judge(lib, rules[n], ctx, unknownAllowed)) then [rules[n].name] else [])
  }

  /** `k` is where the evaluation stops: at the first rule violated or raising, or past the end. */
  ghost predicate StopsAt(lib: Library, rules: seq<Rule>, ctx: Context, unknownAllowed: bool, k: nat)
    requires ValidRules(lib, rules, CHUNK_ROOTS)
  {
    && k <= |rules|
    && (forall i :: 0 <= i < k ==> Quiet(Judge(lib, rules[i], ctx, unknownAllowed)))
    && (k < |rules| ==> !Quiet(Judge(lib, rules[k], ctx, unknownAllowed)))
  }

  /** The decision that stopping at `k` stands for. */
  function Outcome(lib: Library, rules: seq<Rule>, ctx: Context, unknownAllowed: bool,
                   k: nat): Result<Decision, PolicyError>
    requires ValidRules(lib, rules, CHUNK_ROOTS) && k <= |rules|
  {
    if k == |rules| then Ok(Decision(true, Fired(lib, rules, ctx, unknownAllowed)))
    else
      match Judge(lib, rules[k], ctx, unknownAllowed)
      case Raised(e) => Err(e)
      case _ => Ok(Decision(false, Fired(lib, rules[..k + 1], ctx, unknownAllowed)))
  }

  function Stop(lib: Library, rules: seq<Rule>, ctx: Context, unknownAllowed: bool): (k: nat)
    requires ValidRules(lib, rules, CHUNK_ROOTS)
    ensures StopsAt(lib, rules, ctx, unknownAllowed, k)
  {
    if rules == [] then 0
    else
      var n := |rules| - 1;
      assert rules == rules[..n] + [rules[n]];
      var k := Stop(lib, rules[..n], ctx, unknownAllowed);
      if k < n then k
      else if Quiet(Judge(lib, rules[n], ctx, unknownAllowed)) then n + 1
      else n
  }

  lemma StopUnique(lib: Library, rules: seq<Rule>, ctx: Context, unknownAllowed: bool, k: nat, j: nat)
    requires ValidRules(lib, rules, CHUNK_ROOTS)
    requires StopsAt(lib, rules, ctx, unknownAllowed, k) && StopsAt(lib, rules, ctx, unknownAllowed, j)
    ensures k == j
  {
  }

  /** The decision of a rule list. */
  function Decide(lib: Library, rules: seq<Rule>, ctx: Context, unknownAllowed: bool): Result<Decision, PolicyError>
    requires ValidRules(lib, rules, CHUNK_ROOTS)
  {
    Outcome(lib, rules, ctx, unknownAllowed, Stop(lib, rules, ctx, unknownAllowed))
  }

  lemma DecidedAt(lib: Library, rules: seq<Rule>, ctx: Context, unknownAllowed: bool, k: nat)
    requires ValidRules(lib, rules, CHUNK_ROOTS) && StopsAt(lib, rules, ctx, unknownAllowed, k)
    ensures Decide(lib, rules, ctx, unknownAllowed) == Outcome(lib, rules, ctx, unknownAllowed, k)
  {
    StopUnique(lib, rules, ctx, unknownAllowed, k, Stop(lib, rules, ctx, unknownAllowed));
  }

  /** The loop has passed the first `i` rules. */
  ghost predicate Reached(lib: Library, rules: seq<Rule>, ctx: Context, unknownAllowed: bool, i: nat,
                          fired: seq<string>)
    requires ValidRules(lib, rules, CHUNK_ROOTS)
  {
    && i <= |rules|
    && (forall j :: 0 <= j < i ==> Quiet(Judge(lib, rules[j], ctx, unknownAllowed)))
    && fired == Fired(lib, rules[..i], ctx, unknownAllowed)
  }

  lemma NextRule(lib: Library, rules: seq<Rule>, ctx: Context, unknownAllowed: bool, i: nat, fired: seq<string>)
    requires ValidRules(lib, rules, CHUNK_ROOTS) && i < |rules| && Reached(lib, rules, ctx, unknownAllowed, i, fired)
    ensures var verdict := Judge(lib, rules[i], ctx, unknownAllowed);
            var more := if Applied(verdict) then fired + [rules[i].name] else fired;
            if Quiet(verdict)
            then Reached(lib, rules, ctx, unknownAllowed, i + 1, more)
            else Decide(lib, rules, ctx, unknownAllowed) ==
                   if verdict.Raised? then Err(verdict.error) else Ok(Decision(false, more))
  {
    FiredNext(lib, rules, ctx, unknownAllowed, i);
    if !Quiet(Judge(lib, rules[i], ctx, unknownAllowed)) {
      DecidedAt(lib, rules, ctx, unknownAllowed, i);
    }
  }

  lemma LastRule(lib: Library, rules: seq<Rule>, ctx: Context, unknownAllowed: bool, fired: seq<string>)
    requires ValidRules(lib, rules, CHUNK_ROOTS) && Reached(lib, rules, ctx, unknownAllowed, |rules|, fired)
    ensures Decide(lib, rules, ctx, unknownAllowed) == Ok(Decision(true, fired))
  {
    DecidedAt(lib, rules, ctx, unknownAllowed, |rules|);
    assert rules[..|rules|] == rules;
  }

  class NativeYamlEvaluator {
    const lib: Library
    const rules: seq<Rule>
    const unknownAllowed: bool

    ghost predicate Valid() {
      ValidRules(lib, rules, CHUNK_ROOTS)
    }

    constructor (lib: Library, rules: seq<Rule>, unknownAllowed: bool)
      requires ValidRules(lib, rules, CHUNK_ROOTS)
      ensures Valid() && this.lib == lib && this.rules == rules && this.unknownAllowed == unknownAllowed
    {
      this.lib := lib;
      this.rules := rules;
      this.unknownAllowed := unknownAllowed;
    }

    /** The first violation denies and ends the evaluation. */
    method Evaluate(chunk: Value, request: Request) returns (res: Result<Decision, PolicyError>)
      requires Valid()
      ensures res == Decide(lib, rules, Context(Some(chunk), None, request), unknownAllowed)
    {
      var ctx := Context(Some(chunk), None, request);
      var rulesFired := [];
      assert rules[..0] == [];
      for i := 0 to |rules|
        invariant Reached(lib, rules, ctx, unknownAllowed, i, rulesFired)
      {
        var rule := rules[i];
        assert rule in rules;
        var verdict := JudgeRule(rule, ctx);
        NextRule(lib, rules, ctx, unknownAllowed, i, rulesFired);
        if Applied(verdict) {
          rulesFired := rulesFired + [rule.name];
        }
        if !Quiet(verdict) {
          return if verdict.Raised? then Err(verdict.error) else Ok(Decision(false, rulesFired));
        }
      }
      LastRule(lib, rules, ctx, unknownAllowed, rulesFired);
      res := Ok(Decision(true, rulesFired));
    }

    /** One turn of the loop over the rules. */
    method JudgeRule(rule: Rule, ctx: Context) returns (verdict: Verdict)
      requires ValidRule(lib, rule, CHUNK_ROOTS)
      ensures verdict == Judge(lib, rule, ctx, unknownAllowed)
    {
      var applies := WhenMatches(lib, rule.when, ctx);
      if applies.Err? {
        return Raised(applies.error);
      }
      if !applies.value {
        return Skipped;
      }
      var ok := CheckAll(rule.require, ctx);
      verdict := if ok.Err? then Raised(ok.error) else if ok.value then Passed else Violated;
    }

    /** The inner loop over a rule's constraints. */
    method CheckAll(require: seq<Clause>, ctx: Context) returns (res: Result<bool, PolicyError>)
      requires forall c :: c in require ==> ValidConstraint(lib, c.value)
      ensures res == Satisfied(lib, require, ctx, unknownAllowed)
    {
      for i := 0 to |require|
        invariant Satisfied(lib, require, ctx, unknownAllowed) == Satisfied(lib, require[i..], ctx, unknownAllowed)
      {
        assert require[i] in require && require[i..][1..] == require[i + 1..];
        var actual := ResolvePath(lib, require[i].path, ctx);
        if actual.Err? {
          return Err(actual.error);
        }
        if !CheckConstraint(lib, require[i].value, actual.value, ctx.request.timestamp, unknownAllowed) {
          return Ok(false);
        }
      }
      res := Ok(true);
    }
  }

  lemma FiredNext(lib: Library, rules: seq<Rule>, ctx: Context, unknownAllowed: bool, i: nat)
    requires ValidRules(lib, rules, CHUNK_ROOTS) && i < |rules|
    ensures rules[..i + 1] == rules[..i] + [rules[i]]
    ensures Fired(lib, rules[..i + 1], ctx, unknownAllowed) ==
              Fired(lib, rules[..i], ctx, unknownAllowed) +
              (if Applied(Judge(lib, rules[i], ctx, unknownAllowed)) then [rules[i].name] else [])
  {
    assert rules[..i + 1][..i] == rules[..i];
  }

  // ---------------------------------------------------------------- what a decision depends on

  /** A list allows exactly when no rule of it, taken alone, is violated or raises. */
  lemma AllowsIffAllPass(lib: Library, rules: seq<Rule>, ctx: Context, unknownAllowed: bool)
    requires ValidRules(lib, rules, CHUNK_ROOTS)
    ensures Allows(Decide(lib, rules, ctx, unknownAllowed)) <==>
            (forall r :: r in rules ==> Quiet(Judge(lib, r, ctx, unknownAllowed)))
  {
    var k := Stop(lib, rules, ctx, unknownAllowed);
    if k == |rules| {
      assert rules[..k] == rules;
    } else {
      assert rules[k] in rules;
    }
  }

  predicate Allows(d: Result<Decision, PolicyError>) {
    d.Ok? && d.value.allow
  }

  /** A list made of two allows exactly when both do. */
  lemma ConcatAllowsIffBoth(lib: Library, one: seq<Rule>, two: seq<Rule>, ctx: Context, unknownAllowed: bool)
    requires ValidRules(lib, one, CHUNK_ROOTS) && ValidRules(lib, two, CHUNK_ROOTS)
    ensures Allows(Decide(lib, one + two, ctx, unknownAllowed)) <==>
            Allows(Decide(lib, one, ctx, unknownAllowed)) && Allows(Decide(lib, two, ctx, unknownAllowed))
  {
    AllowsIffAllPass(lib, one, ctx, unknownAllowed);
    AllowsIffAllPass(lib, two, ctx, unknownAllowed);
    AllowsIffAllPass(lib, one + two, ctx, unknownAllowed);
    assert forall r :: r in one ==> r in one + two;
    assert forall r :: r in two ==> r in one + two;
  }

  lemma {:induction false} FiredAppend(lib: Library, one: seq<Rule>, two: seq<Rule>, ctx: Context, unknownAllowed: bool)
    requires ValidRules(lib, one, CHUNK_ROOTS) && ValidRules(lib, two, CHUNK_ROOTS)
    ensures Fired(lib, one + two, ctx, unknownAllowed) ==
              Fired(lib, one, ctx, unknownAllowed) + Fired(lib, two, ctx, unknownAllowed)
  {
    if two == [] {
      assert one + two == one;
    } else {
      FiredAppend(lib, one, two[..|two| - 1], ctx, unknownAllowed);
      assert (one + two)[..|one + two| - 1] == one + two[..|two| - 1];
    }
  }

  /** The decision of two lists in a row, trace and exceptions included: the first list's own unless
      it allows, and otherwise the second's with the first's trace before it. */
  lemma ConcatDecision(lib: Library, one: seq<Rule>, two: seq<Rule>, ctx: Context, unknownAllowed: bool)
    requires ValidRules(lib, one, CHUNK_ROOTS) && ValidRules(lib, two, CHUNK_ROOTS)
    ensures var first, second := Decide(lib, one, ctx, unknownAllowed), Decide(lib, two, ctx, unknownAllowed);
            Decide(lib, one + two, ctx, unknownAllowed) ==
              if !Allows(first) then first
              else if second.Err? then second
              else Ok(second.value.(rulesFired := first.value.rulesFired + second.value.rulesFired))
  {
    ConcatValid(lib, one, two);
    var k := Stop(lib, one, ctx, unknownAllowed);
    if k < |one| {
      ConcatStopsEarly(lib, one, one + two, ctx, unknownAllowed, k);
      DecidedAt(lib, one + two, ctx, unknownAllowed, k);
    } else {
      ConcatGoesOn(lib, one, two, ctx, unknownAllowed);
    }
  }

  lemma ConcatValid(lib: Library, one: seq<Rule>, two: seq<Rule>)
    requires ValidRules(lib, one, CHUNK_ROOTS) && ValidRules(lib, two, CHUNK_ROOTS)
    ensures ValidRules(lib, one + two, CHUNK_ROOTS)
  {
  }

  /** A list that begins with one that stops early decides like it. */
  lemma ConcatStopsEarly(lib: Library, one: seq<Rule>, whole: seq<Rule>, ctx: Context, unknownAllowed: bool, k: nat)
    requires ValidRules(lib, one, CHUNK_ROOTS) && ValidRules(lib, whole, CHUNK_ROOTS) && k < |one| <= |whole|
    requires StopsAt(lib, one, ctx, unknownAllowed, k) && forall i :: 0 <= i < |one| ==> whole[i] == one[i]
    ensures StopsAt(lib, whole, ctx, unknownAllowed, k)
    ensures Outcome(lib, whole, ctx, unknownAllowed, k) == Outcome(lib, one, ctx, unknownAllowed, k)
  {
    assert whole[..k + 1] == one[..k + 1];
    assert whole[k] == one[k];
  }

  lemma {:induction false} ConcatGoesOn(lib: Library, one: seq<Rule>, two: seq<Rule>, ctx: Context,
                                        unknownAllowed: bool)
    requires ValidRules(lib, one, CHUNK_ROOTS) && ValidRules(lib, two, CHUNK_ROOTS)
    requires ValidRules(lib, one + two, CHUNK_ROOTS)
    requires Stop(lib, one, ctx, unknownAllowed) == |one|
    ensures Decide(lib, one + two, ctx, unknownAllowed) ==
              match Decide(lib, two, ctx, unknownAllowed)
              case Err(e) => Err(e)
              case Ok(d) => Ok(Decision(d.allow, Fired(lib, one, ctx, unknownAllowed) + d.rulesFired))
  {
    var j := Stop(lib, two, ctx, unknownAllowed);
    ConcatStop(lib, one, two, ctx, unknownAllowed, j);
    DecidedAt(lib, one + two, ctx, unknownAllowed, |one| + j);
    if j < |two| {
      OutcomeWithin(lib, one, two, ctx, unknownAllowed, j);
    } else {
      FiredAppend(lib, one, two, ctx, unknownAllowed);
    }
  }

  /** Stopping inside the second of two lists. */
  lemma OutcomeWithin(lib: Library, one: seq<Rule>, two: seq<Rule>, ctx: Context, unknownAllowed: bool, j: nat)
    requires ValidRules(lib, one, CHUNK_ROOTS) && ValidRules(lib, two, CHUNK_ROOTS)
    requires ValidRules(lib, one + two, CHUNK_ROOTS)
    requires j < |two|
    ensures Outcome(lib, one + two, ctx, unknownAllowed, |one| + j) ==
              match Outcome(lib, two, ctx, unknownAllowed, j)
              case Err(e) => Err(e)
              case Ok(d) => Ok(Decision(d.allow, Fired(lib, one, ctx, unknownAllowed) + d.rulesFired))
  {
    var upTo := two[..j + 1];
    assert (one + two)[..|one| + j + 1] == one + upTo && (one + two)[|one| + j] == two[j];
    FiredAppend(lib, one, upTo, ctx, unknownAllowed);
  }

  lemma ConcatStop(lib: Library, one: seq<Rule>, two: seq<Rule>, ctx: Context, unknownAllowed: bool, j: nat)
    requires ValidRules(lib, one, CHUNK_ROOTS) && ValidRules(lib, two, CHUNK_ROOTS)
    requires ValidRules(lib, one + two, CHUNK_ROOTS)
    requires StopsAt(lib, one, ctx, unknownAllowed, |one|) && StopsAt(lib, two, ctx, unknownAllowed, j)
    ensures StopsAt(lib, one + two, ctx, unknownAllowed, |one| + j)
  {
    forall i | 0 <= i < |one| + j
      ensures Quiet(Judge(lib, (one + two)[i], ctx, unknownAllowed))
    {
      assert (one + two)[i] == if i < |one| then one[i] else two[i - |one|];
    }
  }

  /** The trace of a decision: the matching rules in file order, up to and including the first one
      violated, which is the last name of a denial. */
  lemma {:induction false} TraceOfDecision(lib: Library, rules: seq<Rule>, ctx: Context, unknownAllowed: bool)
    returns (k: nat)
    requires ValidRules(lib, rules, CHUNK_ROOTS) && Decide(lib, rules, ctx, unknownAllowed).Ok?
    ensures k <= |rules| && forall i :: 0 <= i < k ==> !Judge(lib, rules[i], ctx, unknownAllowed).Violated?
    ensures var d := Decide(lib, rules, ctx, unknownAllowed).value;
            if d.allow then k == |rules| && d.rulesFired == Fired(lib, rules, ctx, unknownAllowed)
            else k < |rules| && Judge(lib, rules[k], ctx, unknownAllowed).Violated?
                 && d.rulesFired == Fired(lib, rules[..k], ctx, unknownAllowed) + [rules[k].name]
  {
    k := Stop(lib, rules, ctx, unknownAllowed);
    if k < |rules| {
      FiredNext(lib, rules, ctx, unknownAllowed, k);
    }
  }

  /** The order of the rules, and how often one is repeated, never decides whether a list allows. */
  lemma OrderIrrelevant(lib: Library, one: seq<Rule>, two: seq<Rule>, ctx: Context, unknownAllowed: bool)
    requires ValidRules(lib, one, CHUNK_ROOTS) && forall r :: r in one <==> r in two
    ensures ValidRules(lib, two, CHUNK_ROOTS)
    ensures Allows(Decide(lib, one, ctx, unknownAllowed)) <==> Allows(Decide(lib, two, ctx, unknownAllowed))
  {
    AllowsIffAllPass(lib, one, ctx, unknownAllowed);
    AllowsIffAllPass(lib, two, ctx, unknownAllowed);
  }

  /** Every path names a root that resolution knows. */
  predicate WellRooted(rule: Rule) {
    && (forall c :: c in rule.when ==> c.path[0] in ROOTS)
    && (forall c :: c in rule.require ==> c.path[0] in ROOTS)
  }

  lemma {:induction false} AppliesNeverRaises(lib: Library, when: seq<Clause>, ctx: Context)
    requires forall c :: c in when ==> ValidScope(c.value) && c.path[0] in ROOTS
    ensures Applies(lib, when, ctx).Ok?
  {
    if when == [] {
    } else {
      assert when[0] in when;
      AppliesNeverRaises(lib, when[1..], ctx);
    }
  }

  lemma {:induction false} SatisfiedNeverRaises(lib: Library, require: seq<Clause>, ctx: Context, unknownAllowed: bool)
    requires forall c :: c in require ==> ValidConstraint(lib, c.value) && c.path[0] in ROOTS
    ensures Satisfied(lib, require, ctx, unknownAllowed).Ok?
  {
    if require == [] {
    } else {
      assert require[0] in require;
      SatisfiedNeverRaises(lib, require[1..], ctx, unknownAllowed);
    }
  }

  /** A well-rooted list always reaches a decision. */
  lemma WellRootedDecides(lib: Library, rules: seq<Rule>, ctx: Context, unknownAllowed: bool)
    requires ValidRules(lib, rules, CHUNK_ROOTS) && forall r :: r in rules ==> WellRooted(r)
    ensures Decide(lib, rules, ctx, unknownAllowed).Ok?
  {
    var k := Stop(lib, rules, ctx, unknownAllowed);
    if k < |rules| {
      assert rules[k] in rules;
      AppliesNeverRaises(lib, rules[k].when, ctx);
      SatisfiedNeverRaises(lib, rules[k].require, ctx, unknownAllowed);
    }
  }

  /** And its decision does not depend on its order. */
  lemma WellRootedOrderIrrelevant(lib: Library, one: seq<Rule>, two: seq<Rule>, ctx: Context, unknownAllowed: bool)
    requires ValidRules(lib, one, CHUNK_ROOTS) && forall r :: r in one ==> WellRooted(r)
    requires forall r :: r in one <==> r in two
    ensures ValidRules(lib, two, CHUNK_ROOTS)
    ensures var d, e := Decide(lib, one, ctx, unknownAllowed), Decide(lib, two, ctx, unknownAllowed);
            d.Ok? && e.Ok? && d.value.allow == e.value.allow
  {
    OrderIrrelevant(lib, one, two, ctx, unknownAllowed);
    WellRootedDecides(lib, one, ctx, unknownAllowed);
    WellRootedDecides(lib, two, ctx, unknownAllowed);
  }

  /** Of the paths that validation accepts, resolution raises on those without a dot whose name is
      no root, and on no others. */
  lemma AcceptedPathRaisesIff(lib: Library, ctx: Context, path: Path)
    requires ValidPath(path, CHUNK_ROOTS)
    ensures Resolve(lib, ctx, path).Err? <==> |path| == 1 && path[0] !in ROOTS
  {
  }

  /** A rule without a scope and with one constraint. */
  lemma JudgeSingle(lib: Library, rule: Rule, ctx: Context, unknownAllowed: bool)
    requires ValidRule(lib, rule, CHUNK_ROOTS) && rule.when == [] && |rule.require| == 1
    ensures var c := rule.require[0];
            Judge(lib, rule, ctx, unknownAllowed) ==
              match Resolve(lib, ctx, c.path)
              case Err(e) => Raised(e)
              case Ok(v) => if CheckConstraint(lib, c.value, v, ctx.request.timestamp,
                                               unknownAllowed) then Passed else Violated
  {
    assert rule.require[1..] == [];
    assert Satisfied(lib, rule.require[1..], ctx, unknownAllowed) == Ok(true);
    assert Applies(lib, rule.when, ctx) == Ok(true);
  }

  lemma DecideSingle(lib: Library, rules: seq<Rule>, ctx: Context, unknownAllowed: bool)
    requires ValidRules(lib, rules, CHUNK_ROOTS) && |rules| == 1
    ensures Decide(lib, rules, ctx, unknownAllowed) ==
              match Judge(lib, rules[0], ctx, unknownAllowed)
              case Raised(e) => Err(e)
              case Skipped => Ok(Decision(true, []))
              case Passed => Ok(Decision(true, [rules[0].name]))
              case Violated => Ok(Decision(false, [rules[0].name]))
  {
    assert rules[..0] == [] && [] + [rules[0].name] == [rules[0].name];
    NextRule(lib, rules, ctx, unknownAllowed, 0, []);
    if Quiet(Judge(lib, rules[0], ctx, unknownAllowed)) {
      var passed := Judge(lib, rules[0], ctx, unknownAllowed).Passed?;
      LastRule(lib, rules, ctx, unknownAllowed, if passed then [rules[0].name] else []);
    }
  }

  /** A list whose first rule applies and does not pass stops there. */
  lemma DecideAtFirst(lib: Library, rules: seq<Rule>, ctx: Context, unknownAllowed: bool)
    requires ValidRules(lib, rules, CHUNK_ROOTS) && rules != []
    requires !Quiet(Judge(lib, rules[0], ctx, unknownAllowed))
    ensures Decide(lib, rules, ctx, unknownAllowed) ==
              match Judge(lib, rules[0], ctx, unknownAllowed)
              case Raised(e) => Err(e)
              case _ => Ok(Decision(false, [rules[0].name]))
  {
    DecidedAt(lib, rules, ctx, unknownAllowed, 0);
    FiredNext(lib, rules, ctx, unknownAllowed, 0);
    assert rules[..0] == [] && [] + [rules[0].name] == [rules[0].name];
  }

  /** Where such a path is met, the order of the rules decides between a denial and an exception. */
  lemma OrderMattersWhenRaising(lib: Library, ctx: Context, name: string)
    requires name !in ROOTS + RESERVED_KEYS
    ensures var raising := Rule("r", [], [Clause([name], Null)]);
            var denying := Rule("d", [], [Clause(["request"], Null)]);
            && ValidRules(lib, [denying, raising], CHUNK_ROOTS)
            && Decide(lib, [denying, raising], ctx, false) == Ok(Decision(false, ["d"]))
            && Decide(lib, [raising, denying], ctx, false) == Err(UnknownRoot)
  {
    var raising := Rule("r", [], [Clause([name], Null)]);
    var denying := Rule("d", [], [Clause(["request"], Null)]);
    assert ValidRule(lib, raising, CHUNK_ROOTS) && ValidRule(lib, denying, CHUNK_ROOTS);
    JudgeSingle(lib, raising, ctx, false);
    JudgeSingle(lib, denying, ctx, false);
    DecideAtFirst(lib, [denying, raising], ctx, false);
    DecideAtFirst(lib, [raising, denying], ctx, false);
  }

  // ---------------------------------------------------------------- unknown metadata

  lemma {:induction false} SatisfiedMonotone(lib: Library, require: seq<Clause>, ctx: Context)
    requires forall c :: c in require ==> ValidConstraint(lib, c.value)
    ensures Satisfied(lib, require, ctx, false) == Ok(true) ==> Satisfied(lib, require, ctx, true) == Ok(true)
  {
    if require == [] {
    } else {
      SatisfiedMonotone(lib, require[1..], ctx);
    }
  }

  /** What is allowed while missing metadata denies is allowed, with the same trace, once it does
      not: going from allow to deny only removes allows. */
  lemma DenyingUnknownOnlyRemoves(lib: Library, rules: seq<Rule>, ctx: Context)
    requires ValidRules(lib, rules, CHUNK_ROOTS) && Allows(Decide(lib, rules, ctx, false))
    ensures Decide(lib, rules, ctx, true) == Decide(lib, rules, ctx, false)
  {
    AllowsIffAllPass(lib, rules, ctx, false);
    forall r | r in rules
      ensures Judge(lib, r, ctx, true) == Judge(lib, r, ctx, false)
    {
      SatisfiedMonotone(lib, r.require, ctx);
    }
    AllowsIffAllPass(lib, rules, ctx, true);
    SameFired(lib, rules, ctx);
    assert rules[..|rules|] == rules;
  }

  lemma {:induction false} SameFired(lib: Library, rules: seq<Rule>, ctx: Context)
    requires ValidRules(lib, rules, CHUNK_ROOTS)
    requires forall r :: r in rules ==> Judge(lib, r, ctx, true) == Judge(lib, r, ctx, false)
    ensures Fired(lib, rules, ctx, true) == Fired(lib, rules, ctx, false)
  {
    if rules == [] {
    } else {
      assert rules[|rules| - 1] in rules;
      SameFired(lib, rules[..|rules| - 1], ctx);
    }
  }

  // ---------------------------------------------------------------- the session id

  /** The documentation says that `session_id` is no policy input. This holds of paths that lead
      elsewhere or into another field of the request, and of no others: see `SessionBlindIff`. */
  predicate SessionBlind(p: Path) {
    p[0] == "request" ==> |p| >= 2 && p[1] in REQUEST_FIELDS - {"session_id"}
  }

  predicate RuleSessionBlind(rule: Rule) {
    && (forall c :: c in rule.when ==> SessionBlind(c.path))
    && (forall c :: c in rule.require ==> SessionBlind(c.path))
  }

  function WithSession(ctx: Context, id: Option<string>): Context {
    ctx.(request := ctx.request.(sessionId := id))
  }

  lemma ResolveBlind(lib: Library, ctx: Context, id: Option<string>, path: Path)
    requires SessionBlind(path)
    ensures Resolve(lib, WithSession(ctx, id), path) == Resolve(lib, ctx, path)
  {
    if path[0] == "request" {
      var a, b := RequestRecord(ctx.request), RequestRecord(WithSession(ctx, id).request);
      assert path[1..][0] == path[1];
      assert Child(lib, a, path[1]) == Child(lib, b, path[1]) && Child(lib, a, path[1]).Some?;
    }
  }

  /** Two session ids that a path tells apart. */
  ghost predicate Separates(lib: Library, ctx: Context, id: Option<string>, p: Path) {
    Resolve(lib, WithSession(ctx, id), p) != Resolve(lib, ctx, p)
  }

  /** An attribute lookup that finds the session id on a request, and every other value on itself. */
  function SessionAttribute(v: Value, seg: string): Option<Value> {
    Some(if v.Record? && "session_id" in v.fields then v.fields["session_id"] else v)
  }

  function Revealing(): Library {
    Library(SessionAttribute, (s, p) => false, s => None, s => None)
  }

  function Bare(): Context {
    Context(None, None, Request(map[], None, None, "", None))
  }

  lemma {:induction false} FollowScalar(v: Value, segs: seq<string>)
    requires v.Null? || v.Str?
    ensures Follow(Revealing(), v, segs) == Some(v)
    decreases |segs|
  {
    if segs == [] {
    } else {
      assert Child(Revealing(), v, segs[0]) == Some(v);
      FollowScalar(v, segs[1..]);
    }
  }

  /** A path that is not blind leads to the request itself or to its session id. */
  lemma FollowsSession(ctx: Context, path: Path)
    requires !SessionBlind(path)
    ensures var record, id := RequestRecord(ctx.request), OrNull(ctx.request.sessionId);
            Resolve(Revealing(), ctx, path) == Ok(Some(if |path| == 1 then record else id))
  {
    var record, id := RequestRecord(ctx.request), OrNull(ctx.request.sessionId);
    assert Root(ctx, path[0]) == Ok(Some(record));
    if |path| == 1 {
      assert path[1..] == [];
    } else {
      assert path[1..][0] == path[1];
      assert Child(Revealing(), record, path[1]) == Some(id);
      FollowScalar(id, path[1..][1..]);
    }
  }

  /** A path is independent of the session id, for every request and whatever attributes there are,
      if and only if it is blind. */
  lemma SessionBlindIff(path: Path)
    ensures SessionBlind(path) <==> !exists lib, ctx, id :: Separates(lib, ctx, id, path)
  {
    if SessionBlind(path) {
      forall lib, ctx, id ensures !Separates(lib, ctx, id, path) {
        ResolveBlind(lib, ctx, id, path);
      }
    } else {
      var ctx, id := Bare(), Some("a");
      FollowsSession(ctx, path);
      FollowsSession(WithSession(ctx, id), path);
      SessionShows(ctx, id);
      assert Separates(Revealing(), ctx, id, path);
    }
  }

  lemma SessionShows(ctx: Context, id: Option<string>)
    requires ctx.request.sessionId == None && id.Some?
    ensures OrNull(WithSession(ctx, id).request.sessionId) != OrNull(ctx.request.sessionId)
    ensures RequestRecord(WithSession(ctx, id).request) != RequestRecord(ctx.request)
  {
    assert RequestRecord(WithSession(ctx, id).request).fields["session_id"] == Str(id.value);
    assert RequestRecord(ctx.request).fields["session_id"] == Null;
  }

  lemma {:induction false} AppliesBlind(lib: Library, ctx: Context, id: Option<string>, when: seq<Clause>)
    requires forall c :: c in when ==> ValidScope(c.value) && SessionBlind(c.path)
    ensures Applies(lib, when, WithSession(ctx, id)) == Applies(lib, when, ctx)
  {
    if when == [] {
    } else {
      assert when[0] in when;
      ResolveBlind(lib, ctx, id, when[0].path);
      AppliesBlind(lib, ctx, id, when[1..]);
    }
  }

  lemma {:induction false} SatisfiedBlind(lib: Library, ctx: Context, id: Option<string>, require: seq<Clause>,
                                          unknownAllowed: bool)
    requires forall c :: c in require ==> ValidConstraint(lib, c.value) && SessionBlind(c.path)
    ensures Satisfied(lib, require, WithSession(ctx, id), unknownAllowed) ==
              Satisfied(lib, require, ctx, unknownAllowed)
  {
    if require == [] {
    } else {
      assert require[0] in require;
      ResolveBlind(lib, ctx, id, require[0].path);
      SatisfiedBlind(lib, ctx, id, require[1..], unknownAllowed);
    }
  }

  lemma {:induction false} FiredBlind(lib: Library, rules: seq<Rule>, ctx: Context, id: Option<string>,
                                      unknownAllowed: bool)
    requires ValidRules(lib, rules, CHUNK_ROOTS) && forall r :: r in rules ==> RuleSessionBlind(r)
    ensures forall r :: r in rules ==>
              Judge(lib, r, WithSession(ctx, id), unknownAllowed) == Judge(lib, r, ctx, unknownAllowed)
    ensures Fired(lib, rules, WithSession(ctx, id), unknownAllowed) == Fired(lib, rules, ctx, unknownAllowed)
  {
    if rules == [] {
    } else {
      var n := |rules| - 1;
      var r := rules[n];
      assert r in rules && rules == rules[..n] + [r];
      AppliesBlind(lib, ctx, id, r.when);
      SatisfiedBlind(lib, ctx, id, r.require, unknownAllowed);
      FiredBlind(lib, rules[..n], ctx, id, unknownAllowed);
    }
  }

  /** Two requests that differ only in their session id get the same decision and trace. */
  lemma SessionIdIrrelevant(lib: Library, rules: seq<Rule>, ctx: Context, id: Option<string>, unknownAllowed: bool)
    requires ValidRules(lib, rules, CHUNK_ROOTS) && forall r :: r in rules ==> RuleSessionBlind(r)
    ensures Decide(lib, rules, WithSession(ctx, id), unknownAllowed) == Decide(lib, rules, ctx, unknownAllowed)
  {
    var k := Stop(lib, rules, ctx, unknownAllowed);
    FiredBlind(lib, rules, ctx, id, unknownAllowed);
    assert StopsAt(lib, rules, WithSession(ctx, id), unknownAllowed, k);
    StopUnique(lib, rules, WithSession(ctx, id), unknownAllowed, k,
               Stop(lib, rules, WithSession(ctx, id), unknownAllowed));
    if k < |rules| {
      FiredBlind(lib, rules[..k + 1], ctx, id, unknownAllowed);
    }
  }

  /** But a rule may name it: whatever two session ids are, an accepted rule tells them apart. */
  lemma SessionIdDecides(lib: Library, ctx: Context, one: string, two: string, unknownAllowed: bool)
    requires one != two
    ensures var rules := [Rule("r", [], [Clause(["request", "session_id"], Str(one))])];
            && ValidRules(lib, rules, CHUNK_ROOTS)
            && Decide(lib, rules, WithSession(ctx, Some(one)), unknownAllowed) == Ok(Decision(true, ["r"]))
            && Decide(lib, rules, WithSession(ctx, Some(two)), unknownAllowed) == Ok(Decision(false, ["r"]))
  {
    SessionRule(lib, WithSession(ctx, Some(one)), one, unknownAllowed);
    SessionRule(lib, WithSession(ctx, Some(two)), one, unknownAllowed);
  }

  lemma SessionRule(lib: Library, ctx: Context, wanted: string, unknownAllowed: bool)
    requires ctx.request.sessionId.Some?
    ensures var rules := [Rule("r", [], [Clause(["request", "session_id"], Str(wanted))])];
            && ValidRules(lib, rules, CHUNK_ROOTS)
            && Decide(lib, rules, ctx, unknownAllowed) == Ok(Decision(ctx.request.sessionId.value == wanted, ["r"]))
  {
    var path: Path := ["request", "session_id"];
    var rule := Rule("r", [], [Clause(path, Str(wanted))]);
    ResolveSession(lib, ctx, path);
    JudgeSingle(lib, rule, ctx, unknownAllowed);
    DecideSingle(lib, [rule], ctx, unknownAllowed);
  }

  lemma ResolveSession(lib: Library, ctx: Context, path: Path)
    requires path == ["request", "session_id"]
    ensures Resolve(lib, ctx, path) == Ok(Some(OrNull(ctx.request.sessionId)))
  {
    var request, id := RequestRecord(ctx.request), OrNull(ctx.request.sessionId);
    assert path[1..] == ["session_id"] && path[1..][1..] == [];
    assert Child(lib, request, "session_id") == Some(id);
    assert Follow(lib, id, path[1..][1..]) == Some(id);
    assert Follow(lib, request, path[1..]) == Some(id);
  }

  // ---------------------------------------------------------------- several operators

  const OPERATOR_ORDER := ["in", "not_in", "not_older_than", "matches_pattern", "not_matches_pattern", "length_at_most"]

  /** Operators beside the first recognised one have no effect. */
  lemma OnlyFirstOperatorCounts(lib: Library, c: Value, i: nat, actual: Value, now: string)
    requires c.Dict? && ValidConstraint(lib, c)
    requires i < |OPERATOR_ORDER| && OPERATOR_ORDER[i] in c.entries
    requires forall j :: 0 <= j < i ==> OPERATOR_ORDER[j] !in c.entries
    ensures var first := Dict(map[OPERATOR_ORDER[i] := c.entries[OPERATOR_ORDER[i]]]);
            ValidConstraint(lib, first) && Holds(lib, c, actual, now) == Holds(lib, first, actual, now)
  {
    var op := OPERATOR_ORDER[i];
    var first := map[op := c.entries[op]];
    assert op in first && first[op] == c.entries[op] && first.Keys == {op};
    assert i > 0 ==> OPERATOR_ORDER[0] !in c.entries;
    assert i > 1 ==> OPERATOR_ORDER[1] !in c.entries;
    assert i > 2 ==> OPERATOR_ORDER[2] !in c.entries;
    assert i > 3 ==> OPERATOR_ORDER[3] !in c.entries;
    assert i > 4 ==> OPERATOR_ORDER[4] !in c.entries;
  }

  /** The two pattern operators are opposites on strings of bounded length, and both fail on
      everything else. */
  lemma PatternOperatorsOpposed(lib: Library, pattern: string, actual: Value, now: string)
    ensures var pos := Dict(map["matches_pattern" := Str(pattern)]);
            var neg := Dict(map["not_matches_pattern" := Str(pattern)]);
            if actual.Str? && |actual.s| <= MAX_PATTERN_INPUT_LEN
            then Holds(lib, neg, actual, now) == !Holds(lib, pos, actual, now)
            else !Holds(lib, neg, actual, now) && !Holds(lib, pos, actual, now)
  {
  }

  lemma {:induction false} PyEqReflexive(v: Value)
    ensures PyEq(v, v)
  {
    match v {
      case List(items) =>
        forall i | 0 <= i < |items| ensures PyEq(items[i], items[i]) {
          PyEqReflexive(items[i]);
        }
      case Dict(m) =>
        forall key | key in m ensures PyEq(m[key], m[key]) {
          PyEqReflexive(m[key]);
        }
      case Record(m) =>
        forall key | key in m ensures PyEq(m[key], m[key]) {
          PyEqReflexive(m[key]);
        }
      case _ =>
    }
  }

  lemma {:induction false} PyEqSymmetric(a: Value, b: Value)
    requires PyEq(a, b)
    ensures PyEq(b, a)
    decreases a
  {
    match (a, b) {
      case (List(xs), List(ys)) =>
        forall i | 0 <= i < |ys| ensures PyEq(ys[i], xs[i]) {
          PyEqSymmetric(xs[i], ys[i]);
        }
      case (Dict(m), Dict(k)) =>
        forall key | key in k ensures PyEq(k[key], m[key]) {
          PyEqSymmetric(m[key], k[key]);
        }
      case (Record(m), Record(k)) =>
        forall key | key in k ensures PyEq(k[key], m[key]) {
          PyEqSymmetric(m[key], k[key]);
        }
      case _ =>
    }
  }

  /** The membership operators are opposites, and a listed value is always in. */
  lemma MembershipOperatorsOpposed(lib: Library, items: seq<Value>, actual: Value, now: string)
    ensures var pos, neg := Dict(map["in" := List(items)]), Dict(map["not_in" := List(items)]);
            && Holds(lib, neg, actual, now) == !Holds(lib, pos, actual, now)
            && (actual in items ==> Holds(lib, pos, actual, now))
  {
    if actual in items {
      var i :| 0 <= i < |items| && items[i] == actual;
      PyEqReflexive(actual);
      assert PyEq(actual, items[i]);
    }
  }

  /** A value at least as recent as one that is fresh enough is fresh enough too, also for a longer
      maximal age and an earlier request. */
  lemma FresherPasses(lib: Library, age: string, longer: string, older: string, newer: string, now: string,
                      before: string)
    requires lib.duration(age).Some? && lib.duration(longer).Some?
    requires lib.duration(age).value <= lib.duration(longer).value
    requires lib.instant(older).Some? && lib.instant(newer).Some?
    requires lib.instant(older).value <= lib.instant(newer).value
    requires lib.instant(now).Some? && lib.instant(before).Some? && lib.instant(before).value <= lib.instant(now).value
    requires Holds(lib, Dict(map["not_older_than" := Str(age)]), Str(older), now)
    ensures Holds(lib, Dict(map["not_older_than" := Str(longer)]), Str(newer), before)
  {
  }
}
