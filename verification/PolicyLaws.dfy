/**
 What accepted rules decide, from the values a chunk and a request hold to the decision and its trace
 (provenex/policy/yaml_evaluator.py): one law for every root, every operator, scopes, several entries and
 missing metadata, and the rules that validation turns down.
 */
module PolicyLaws {
  import opened Basics
  import opened Policy

  /** The rule list that asks one thing of one path, within a scope. */
  function Within(scope: seq<Clause>, path: Path, want: Value): seq<Rule> {
    [Rule("r", scope, [Clause(path, want)])]
  }

  function Asks(path: Path, want: Value): seq<Rule> {
    Within([], path, want)
  }

  /** A retrieved chunk with these attributes, for this request. */
  function OnChunk(fields: map<string, Value>, request: Request): Context {
    Context(Some(Record(fields)), None, request)
  }

  /** The decision of a single rule that applies. */
  function Fires(allow: bool): Result<Decision, PolicyError> {
    Ok(Decision(allow, ["r"]))
  }

  lemma AskDecides(lib: Library, ctx: Context, path: Path, want: Value, found: Option<Value>, unknownAllowed: bool)
    requires ValidPath(path, CHUNK_ROOTS) && ValidConstraint(lib, want) && Resolve(lib, ctx, path) == Ok(found)
    ensures ValidRules(lib, Asks(path, want), CHUNK_ROOTS)
    ensures Decide(lib, Asks(path, want), ctx, unknownAllowed) ==
              Fires(CheckConstraint(lib, want, found, ctx.request.timestamp, unknownAllowed))
  {
    JudgeSingle(lib, Asks(path, want)[0], ctx, unknownAllowed);
    DecideSingle(lib, Asks(path, want), ctx, unknownAllowed);
  }

  lemma FollowOne(lib: Library, v: Value, path: Path)
    requires |path| == 2
    ensures Follow(lib, v, path[1..]) == Child(lib, v, path[1])
  {
    assert path[1..][0] == path[1] && path[1..][1..] == [];
    var next := Child(lib, v, path[1]);
    if next.Some? {
      assert Follow(lib, next.value, path[1..][1..]) == next;
    }
  }

  lemma FollowTwo(lib: Library, v: Value, path: Path)
    requires |path| == 3
    ensures Follow(lib, v, path[1..]) ==
              if Child(lib, v, path[1]) == None then None else Child(lib, Child(lib, v, path[1]).value, path[2])
  {
    assert path[1..][0] == path[1] && path[1..][1..] == path[2..] && path[2..][0] == path[2] && path[2..][1..] == [];
    var next := Child(lib, v, path[1]);
    if next.Some? {
      var last := Child(lib, next.value, path[2]);
      if last.Some? {
        assert Follow(lib, last.value, path[2..][1..]) == last;
      }
      assert Follow(lib, next.value, path[2..]) == last;
    }
  }

  /** Longer paths: the rest of a path is followed from where its beginning leads. */
  lemma {:induction false} FollowFurther(lib: Library, v: Value, one: seq<string>, two: seq<string>)
    ensures Follow(lib, v, one + two) ==
              if Follow(lib, v, one) == None then None else Follow(lib, Follow(lib, v, one).value, two)
    decreases |one|
  {
    if one == [] {
      assert one + two == two;
    } else {
      assert (one + two)[0] == one[0] && (one + two)[1..] == one[1..] + two;
      var next := Child(lib, v, one[0]);
      if next.Some? {
        FollowFurther(lib, next.value, one[1..], two);
      }
    }
  }

  // ---------------------------------------------------------------- where paths lead

  /** `chunk.<field>` is the chunk's attribute. */
  lemma ChunkField(lib: Library, fields: map<string, Value>, request: Request, key: string, want: Value,
                   unknownAllowed: bool)
    requires key in fields && !want.Dict?
    ensures ValidRules(lib, Asks(["chunk", key], want), CHUNK_ROOTS)
    ensures Decide(lib, Asks(["chunk", key], want), OnChunk(fields, request), unknownAllowed) ==
              Fires(PyEq(fields[key], want))
  {
    FollowOne(lib, Record(fields), ["chunk", key]);
    AskDecides(lib, OnChunk(fields, request), ["chunk", key], want, Some(fields[key]), unknownAllowed);
  }

  /** An attribute the chunk does not have is decided by the default. */
  lemma ChunkFieldMissing(lib: Library, fields: map<string, Value>, request: Request, key: string, want: Value,
                          unknownAllowed: bool)
    requires key !in fields && lib.attribute(Record(fields), key) == None && ValidConstraint(lib, want)
    ensures ValidRules(lib, Asks(["chunk", key], want), CHUNK_ROOTS)
    ensures Decide(lib, Asks(["chunk", key], want), OnChunk(fields, request), unknownAllowed) == Fires(unknownAllowed)
  {
    FollowOne(lib, Record(fields), ["chunk", key]);
    AskDecides(lib, OnChunk(fields, request), ["chunk", key], want, None, unknownAllowed);
  }

  /** `chunk.<field>.<key>` looks the key up in a mapping, such as the chunk's metadata. */
  lemma ChunkEntry(lib: Library, fields: map<string, Value>, request: Request, field: string, key: string, want: Value,
                   unknownAllowed: bool)
    requires field in fields && fields[field].Dict? && !want.Dict?
    ensures ValidRules(lib, Asks(["chunk", field, key], want), CHUNK_ROOTS)
    ensures Decide(lib, Asks(["chunk", field, key], want), OnChunk(fields, request), unknownAllowed) ==
              Fires(if key in fields[field].entries then PyEq(fields[field].entries[key], want) else unknownAllowed)
  {
    var path, entries := ["chunk", field, key], fields[field].entries;
    FollowTwo(lib, Record(fields), path);
    AskDecides(lib, OnChunk(fields, request), path, want, if key in entries then Some(entries[key]) else None,
               unknownAllowed);
  }

  /** The four plain fields of a request, absent ones being null. */
  function RequestField(request: Request, key: string): Value
    requires key in {"jurisdiction", "purpose", "timestamp", "session_id"}
  {
    if key == "timestamp" then Str(request.timestamp)
    else
      var v := if key == "jurisdiction" then request.jurisdiction
               else if key == "purpose" then request.purpose else request.sessionId;
      if v == None then Null else Str(v.value)
  }

  lemma RequestFieldIs(lib: Library, ctx: Context, key: string, want: Value, unknownAllowed: bool)
    requires key in {"jurisdiction", "purpose", "timestamp", "session_id"} && !want.Dict?
    ensures ValidRules(lib, Asks(["request", key], want), CHUNK_ROOTS)
    ensures Decide(lib, Asks(["request", key], want), ctx, unknownAllowed) ==
              Fires(PyEq(RequestField(ctx.request, key), want))
  {
    FollowOne(lib, RequestRecord(ctx.request), ["request", key]);
    AskDecides(lib, ctx, ["request", key], want, Some(RequestField(ctx.request, key)), unknownAllowed);
  }

  /** `request.caller.<key>` */
  lemma CallerEntry(lib: Library, ctx: Context, key: string, want: Value, unknownAllowed: bool)
    requires !want.Dict?
    ensures ValidRules(lib, Asks(["request", "caller", key], want), CHUNK_ROOTS)
    ensures Decide(lib, Asks(["request", "caller", key], want), ctx, unknownAllowed) ==
              Fires(if key in ctx.request.caller then PyEq(ctx.request.caller[key], want) else unknownAllowed)
  {
    var path, entries := ["request", "caller", key], ctx.request.caller;
    FollowTwo(lib, RequestRecord(ctx.request), path);
    AskDecides(lib, ctx, path, want, if key in entries then Some(entries[key]) else None, unknownAllowed);
  }

  /** `tool.<field>` is the tool call's attribute, for callers that supply a tool call; a root that was not
      supplied is missing, and a name that is no root raises. */
  lemma OtherRoots(lib: Library, fields: map<string, Value>, request: Request, key: string, name: string)
    requires key in fields && name !in {"chunk", "tool", "request"}
    ensures Resolve(lib, Context(None, Some(Record(fields)), request), ["tool", key]) == Ok(Some(fields[key]))
    ensures Resolve(lib, Context(None, Some(Record(fields)), request), ["chunk", key]) == Ok(None)
    ensures Resolve(lib, OnChunk(fields, request), ["tool", key]) == Ok(None)
    ensures Resolve(lib, OnChunk(fields, request), [name, key]) == Err(UnknownRoot)
  {
    FollowOne(lib, Record(fields), ["tool", key]);
  }

  // ---------------------------------------------------------------- operators

  /** What an operator decides about a chunk's attribute. */
  lemma OperatorDecides(lib: Library, fields: map<string, Value>, request: Request, key: string, want: Value, u: bool)
    requires key in fields && ValidConstraint(lib, want)
    ensures ValidRules(lib, Asks(["chunk", key], want), CHUNK_ROOTS)
    ensures Decide(lib, Asks(["chunk", key], want), OnChunk(fields, request), u) ==
              Fires(Holds(lib, want, fields[key], request.timestamp))
  {
    FollowOne(lib, Record(fields), ["chunk", key]);
    AskDecides(lib, OnChunk(fields, request), ["chunk", key], want, Some(fields[key]), u);
  }

  /** `in`: equal to a listed value. */
  lemma InDecides(lib: Library, fields: map<string, Value>, request: Request, key: string, items: seq<Value>, u: bool)
    requires key in fields
    ensures ValidRules(lib, Asks(["chunk", key], Dict(map["in" := List(items)])), CHUNK_ROOTS)
    ensures Decide(lib, Asks(["chunk", key], Dict(map["in" := List(items)])), OnChunk(fields, request), u) ==
              Fires(exists i :: 0 <= i < |items| && PyEq(fields[key], items[i]))
  {
    OperatorDecides(lib, fields, request, key, Dict(map["in" := List(items)]), u);
  }

  /** `not_in`: equal to no listed value. */
  lemma NotInDecides(lib: Library, fields: map<string, Value>, request: Request, key: string, items: seq<Value>,
                     u: bool)
    requires key in fields
    ensures ValidRules(lib, Asks(["chunk", key], Dict(map["not_in" := List(items)])), CHUNK_ROOTS)
    ensures Decide(lib, Asks(["chunk", key], Dict(map["not_in" := List(items)])), OnChunk(fields, request), u) ==
              Fires(forall i :: 0 <= i < |items| ==> !PyEq(fields[key], items[i]))
  {
    OperatorDecides(lib, fields, request, key, Dict(map["not_in" := List(items)]), u);
  }

  /** `length_at_most`: a string of at most that many characters. */
  lemma LengthDecides(lib: Library, fields: map<string, Value>, request: Request, key: string, cap: nat, u: bool)
    requires key in fields
    ensures ValidRules(lib, Asks(["chunk", key], Dict(map["length_at_most" := Int(cap)])), CHUNK_ROOTS)
    ensures Decide(lib, Asks(["chunk", key], Dict(map["length_at_most" := Int(cap)])), OnChunk(fields, request), u) ==
              Fires(fields[key].Str? && |fields[key].s| <= cap)
  {
    OperatorDecides(lib, fields, request, key, Dict(map["length_at_most" := Int(cap)]), u);
  }

  /** `not_older_than`: a time stamp that, like the request's, can be read, and lies at most that long
      before it. */
  lemma AgeDecides(lib: Library, fields: map<string, Value>, request: Request, key: string, age: string, u: bool)
    requires key in fields && lib.duration(age).Some?
    ensures ValidRules(lib, Asks(["chunk", key], Dict(map["not_older_than" := Str(age)])), CHUNK_ROOTS)
    ensures Decide(lib, Asks(["chunk", key], Dict(map["not_older_than" := Str(age)])), OnChunk(fields, request), u) ==
              Fires(&& fields[key].Str? && lib.instant(fields[key].s).Some? && lib.instant(request.timestamp).Some?
                    && lib.instant(request.timestamp).value - lib.instant(fields[key].s).value
                         <= lib.duration(age).value)
  {
    OperatorDecides(lib, fields, request, key, Dict(map["not_older_than" := Str(age)]), u);
  }

  /** `matches_pattern` and `not_matches_pattern`: a string of at most 65536 characters that does, or does
      not, match the glob. */
  lemma PatternDecides(lib: Library, fields: map<string, Value>, request: Request, key: string, pattern: string,
                       u: bool)
    requires key in fields
    ensures ValidRules(lib, Asks(["chunk", key], Dict(map["matches_pattern" := Str(pattern)])), CHUNK_ROOTS)
    ensures ValidRules(lib, Asks(["chunk", key], Dict(map["not_matches_pattern" := Str(pattern)])), CHUNK_ROOTS)
    ensures Decide(lib, Asks(["chunk", key], Dict(map["matches_pattern" := Str(pattern)])), OnChunk(fields, request),
                   u) ==
              Fires(fields[key].Str? && |fields[key].s| <= 65536 && lib.glob(fields[key].s, pattern))
    ensures Decide(lib, Asks(["chunk", key], Dict(map["not_matches_pattern" := Str(pattern)])),
                   OnChunk(fields, request), u) ==
              Fires(fields[key].Str? && |fields[key].s| <= 65536 && !lib.glob(fields[key].s, pattern))
  {
    OperatorDecides(lib, fields, request, key, Dict(map["matches_pattern" := Str(pattern)]), u);
    OperatorDecides(lib, fields, request, key, Dict(map["not_matches_pattern" := Str(pattern)]), u);
  }

  /** An operator mapping without an operator is never met. */
  lemma NoOperatorDenies(lib: Library, fields: map<string, Value>, request: Request, key: string, u: bool)
    requires key in fields
    ensures ValidRules(lib, Asks(["chunk", key], Dict(map[])), CHUNK_ROOTS)
    ensures Decide(lib, Asks(["chunk", key], Dict(map[])), OnChunk(fields, request), u) == Fires(false)
  {
    OperatorDecides(lib, fields, request, key, Dict(map[]), u);
  }

  // ---------------------------------------------------------------- scopes

  lemma ScopeDecides(lib: Library, scope: seq<Clause>, path: Path, want: Value, ctx: Context, u: bool)
    requires ValidRules(lib, Within(scope, path, want), CHUNK_ROOTS) && ValidRules(lib, Asks(path, want), CHUNK_ROOTS)
    requires forall c :: c in scope ==> ValidScope(c.value)
    requires Applies(lib, scope, ctx).Ok?
    ensures Decide(lib, Within(scope, path, want), ctx, u) ==
              if Applies(lib, scope, ctx).value then Decide(lib, Asks(path, want), ctx, u) else Ok(Decision(true, []))
  {
    assert Applies(lib, [], ctx) == Ok(true);
    assert Asks(path, want)[0].require == Within(scope, path, want)[0].require;
    DecideSingle(lib, Within(scope, path, want), ctx, u);
    DecideSingle(lib, Asks(path, want), ctx, u);
  }

  lemma AppliesOne(lib: Library, c: Clause, ctx: Context)
    requires ValidScope(c.value)
    ensures Applies(lib, [c], ctx) ==
              match Resolve(lib, ctx, c.path)
              case Err(e) => Err(e)
              case Ok(v) => Ok(v.Some? && Matches(c.value, v.value))
  {
    assert [c][1..] == [];
    assert Applies(lib, [c][1..], ctx) == Ok(true);
  }

  /** Whether a scope entry admits a value: equality, or with an `in` mapping, membership. */
  predicate Admits(expected: Value, v: Value) {
    if !expected.Dict? then PyEq(v, expected)
    else "in" in expected.entries && expected.entries["in"].List?
         && exists i :: 0 <= i < |expected.entries["in"].items| && PyEq(v, expected.entries["in"].items[i])
  }

  /** A rule with a scope on an attribute: where the attribute is admitted it decides as without the scope,
      and where it is not it allows without appearing in the trace. */
  lemma ScopeOnField(lib: Library, fields: map<string, Value>, request: Request, key: string, expected: Value,
                     path: Path, want: Value, u: bool)
    requires key in fields && ValidScope(expected) && ValidRules(lib, Asks(path, want), CHUNK_ROOTS)
    ensures ValidRules(lib, Within([Clause(["chunk", key], expected)], path, want), CHUNK_ROOTS)
    ensures Decide(lib, Within([Clause(["chunk", key], expected)], path, want), OnChunk(fields, request), u) ==
              if Admits(expected, fields[key]) then Decide(lib, Asks(path, want), OnChunk(fields, request), u)
              else Ok(Decision(true, []))
  {
    var scope, ctx := [Clause(["chunk", key], expected)], OnChunk(fields, request);
    FollowOne(lib, Record(fields), ["chunk", key]);
    AppliesOne(lib, scope[0], ctx);
    ScopedIsValid(lib, scope, path, want);
    ScopeDecides(lib, scope, path, want, ctx, u);
  }

  lemma ScopedIsValid(lib: Library, scope: seq<Clause>, path: Path, want: Value)
    requires ValidRules(lib, Asks(path, want), CHUNK_ROOTS)
    requires forall c :: c in scope ==> ValidPath(c.path, CHUNK_ROOTS) && ValidScope(c.value)
    ensures ValidRules(lib, Within(scope, path, want), CHUNK_ROOTS)
  {
    assert Asks(path, want)[0] in Asks(path, want);
    assert Within(scope, path, want)[0].require == Asks(path, want)[0].require;
  }

  /** A scope on metadata that is not there never applies, whatever the default is. */
  lemma ScopeOnMissing(lib: Library, fields: map<string, Value>, request: Request, field: string, key: string,
                       expected: Value, path: Path, want: Value, u: bool)
    requires field in fields && fields[field].Dict? && key !in fields[field].entries
    requires ValidScope(expected) && ValidRules(lib, Asks(path, want), CHUNK_ROOTS)
    ensures ValidRules(lib, Within([Clause(["chunk", field, key], expected)], path, want), CHUNK_ROOTS)
    ensures Decide(lib, Within([Clause(["chunk", field, key], expected)], path, want), OnChunk(fields, request), u) ==
              Ok(Decision(true, []))
  {
    var scope, ctx := [Clause(["chunk", field, key], expected)], OnChunk(fields, request);
    FollowTwo(lib, Record(fields), ["chunk", field, key]);
    AppliesOne(lib, scope[0], ctx);
    ScopedIsValid(lib, scope, path, want);
    ScopeDecides(lib, scope, path, want, ctx, u);
  }

  // ---------------------------------------------------------------- several entries

  /** A scope of several entries applies where all of them do. */
  lemma {:induction false} AppliesAll(lib: Library, when: seq<Clause>, ctx: Context)
    requires forall c :: c in when ==> ValidScope(c.value) && c.path[0] in {"chunk", "tool", "request"}
    ensures Applies(lib, when, ctx) == Ok(forall c :: c in when ==> Applies(lib, [c], ctx) == Ok(true))
  {
    if when == [] {
    } else {
      var c := when[0];
      assert c in when && when == [c] + when[1..];
      AppliesOne(lib, c, ctx);
      AppliesAll(lib, when[1..], ctx);
      assert forall x :: x in when <==> x == c || x in when[1..];
    }
  }

  /** A rule that asks several things is met where each is met on its own. */
  lemma {:induction false} SatisfiedAll(lib: Library, require: seq<Clause>, ctx: Context, u: bool)
    requires forall c :: c in require ==> ValidConstraint(lib, c.value) && c.path[0] in {"chunk", "tool", "request"}
    ensures Satisfied(lib, require, ctx, u) == Ok(forall c :: c in require ==> Satisfied(lib, [c], ctx, u) == Ok(true))
  {
    if require == [] {
    } else {
      var c := require[0];
      assert c in require && require == [c] + require[1..];
      assert [c][1..] == [];
      assert Satisfied(lib, [c][1..], ctx, u) == Ok(true);
      SatisfiedAll(lib, require[1..], ctx, u);
      assert forall x :: x in require <==> x == c || x in require[1..];
    }
  }

  /** So a rule allows if it does not apply or all it asks is met, and shows in the trace if it applies. */
  lemma RuleDecides(lib: Library, rule: Rule, ctx: Context, u: bool)
    requires ValidRule(lib, rule, CHUNK_ROOTS) && WellRooted(rule)
    ensures var applies := forall c :: c in rule.when ==> Applies(lib, [c], ctx) == Ok(true);
            var met := forall c :: c in rule.require ==> Satisfied(lib, [c], ctx, u) == Ok(true);
            Decide(lib, [rule], ctx, u) == Ok(Decision(!applies || met, if applies then [rule.name] else []))
  {
    AppliesAll(lib, rule.when, ctx);
    SatisfiedAll(lib, rule.require, ctx, u);
    DecideSingle(lib, [rule], ctx, u);
  }

  // ---------------------------------------------------------------- equality of values

  /** Scalars are equal when they are the same, except that a truth value equals the number 1 or 0. */
  lemma EqualScalars(a: Value, b: Value)
    requires !a.List? && !a.Dict? && !a.Record?
    ensures PyEq(a, b) <==> a == b || (a.Bool? && b.Int? && b.n == (if a.b then 1 else 0))
                                   || (a.Int? && b.Bool? && a.n == (if b.b then 1 else 0))
  {
  }

  /** Lists are equal item by item, mappings key by key, and values of different kinds are not. */
  lemma EqualCollections(xs: seq<Value>, ys: seq<Value>, m: map<string, Value>, k: map<string, Value>)
    ensures PyEq(List(xs), List(ys)) <==> |xs| == |ys| && forall i :: 0 <= i < |xs| ==> PyEq(xs[i], ys[i])
    ensures PyEq(Dict(m), Dict(k)) <==> m.Keys == k.Keys && forall key :: key in m ==> PyEq(m[key], k[key])
    ensures !PyEq(List(xs), Dict(m)) && !PyEq(Dict(m), List(xs)) && !PyEq(Record(m), Dict(k))
    ensures !PyEq(Record(m), List(xs))
  {
  }

  // ---------------------------------------------------------------- what validation accepts

  /** What each operator of a constraint must be given. */
  predicate BadArgument(lib: Library, op: string, arg: Value) {
    match op
    case "in" => !arg.List?
    case "not_in" => !arg.List?
    case "not_older_than" => !arg.Str? || lib.duration(arg.s) == None
    case "matches_pattern" => !arg.Str?
    case "not_matches_pattern" => !arg.Str?
    case "length_at_most" => !arg.Int? || arg.n < 0
    case _ => true
  }

  /** A path outside the rule's domain, or one without a dot that is a reserved name. */
  predicate BadPath(path: Path) {
    if |path| == 1 then path[0] in {"any_of", "all_of", "not", "nested"}
    else path[0] != "chunk" && path[0] != "request"
  }

  lemma ConstraintAcceptedIff(lib: Library, c: Value)
    ensures ValidConstraint(lib, c) <==>
              !c.Dict? || forall op :: op in c.entries ==> !BadArgument(lib, op, c.entries[op])
  {
    if c.Dict? && ValidConstraint(lib, c) {
      forall op | op in c.entries ensures !BadArgument(lib, op, c.entries[op]) {
        assert op in REQUIRE_OPERATORS;
      }
    }
    if c.Dict? && forall op :: op in c.entries ==> !BadArgument(lib, op, c.entries[op]) {
      forall op | op in c.entries ensures op in REQUIRE_OPERATORS {
        assert !BadArgument(lib, op, c.entries[op]);
      }
    }
  }

  lemma ScopeAcceptedIff(v: Value)
    ensures ValidScope(v) <==> !v.Dict? || forall op :: op in v.entries ==> op == "in" && v.entries[op].List?
  {
  }

  /** A rule list is accepted exactly when every rule has a name, no path is bad, scopes use no operator but
      `in` with a list, and constraints use known operators with arguments of the right kind. */
  lemma RulesAcceptedIff(lib: Library, rules: seq<Rule>)
    ensures ValidRules(lib, rules, CHUNK_ROOTS) <==>
              forall r :: r in rules ==>
                && r.name != ""
                && (forall c :: c in r.when ==> !BadPath(c.path))
                && (forall c :: c in r.require ==> !BadPath(c.path))
                && (forall c, op :: c in r.when && c.value.Dict? && op in c.value.entries ==>
                      op == "in" && c.value.entries[op].List?)
                && (forall c, op :: c in r.require && c.value.Dict? && op in c.value.entries ==>
                      !BadArgument(lib, op, c.value.entries[op]))
  {
    forall path: Path ensures ValidPath(path, CHUNK_ROOTS) <==> !BadPath(path) {
    }
    forall v
      ensures ValidConstraint(lib, v) <==>
                !v.Dict? || forall op :: op in v.entries ==> !BadArgument(lib, op, v.entries[op])
    {
      ConstraintAcceptedIff(lib, v);
    }
    forall v ensures ValidScope(v) <==> !v.Dict? || forall op :: op in v.entries ==> op == "in" && v.entries[op].List? {
      ScopeAcceptedIff(v);
    }
  }
}
