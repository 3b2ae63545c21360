/** Evaluation of the selected policies against one resource, with the Rego engine as a parameter. */
module PolicyEval {
  import opened Collections
  import opened Strings
  import opened Kube
  import opened Policy

  datatype Metadata = Metadata(id: string, title: string, severity: string, category: string, description: string)

  /** A resource: its identity, its controller, the part that the hash of a workload covers, and the rest. */
  datatype Resource = Resource(ref: ObjectRef, controller: Option<string>, podSpec: string, rest: string)

  /** What a query binds its result variable to. */
  datatype Binding = Unbound | NotAnObject | Values(message: Option<string>)

  datatype QueryResult = QueryFailed | Bindings(rows: seq<Binding>)

  /** The Rego library: every function depends only on its arguments. */
  datatype Engine = Engine(
    parses: (string, string) -> bool,
    compiles: Data -> bool,
    metadata: (Data, string) -> Option<Metadata>,
    deny: (Data, string, Resource) -> QueryResult,
    warn: (Data, string, Resource) -> QueryResult)

  datatype CheckResult = CheckResult(metadata: Metadata, success: bool, messages: seq<string>)

  datatype EvalError = ParseError | CompileError | MetadataError | QueryError | MessageError | SelectionError

  // ---------------------------------------------------------------- the result of one policy

  /** A query has results when it has rows and every row binds the variable to an object. */
  predicate HasBindings(rows: seq<Binding>) {
    rows != [] && forall i :: 0 <= i < |rows| ==> rows[i].Values?
  }

  predicate AllHaveMessages(rows: seq<Binding>) {
    forall i :: 0 <= i < |rows| ==> rows[i].Values? && rows[i].message.Some? && rows[i].message.value != ""
  }

  function MessagesOf(rows: seq<Binding>): seq<string>
    requires AllHaveMessages(rows)
  {
    seq(|rows|, i requires 0 <= i < |rows| => rows[i].message.value)
  }

  function Failure(md: Metadata, rows: seq<Binding>): Result<CheckResult, EvalError> {
    if AllHaveMessages(rows) then Ok(CheckResult(md, false, MessagesOf(rows))) else Err(MessageError)
  }

  /** A policy fails through its deny rule, else through its warn rule, else it succeeds. */
  function EvalPolicy(e: Engine, libs: Data, name: string, code: string, r: Resource): Result<CheckResult, EvalError> {
    var modules := libs[name := code];
    if (exists lib :: lib in libs && !e.parses(lib, libs[lib])) || !e.parses(name, code) then Err(ParseError)
    else if !e.compiles(modules) then Err(CompileError)
    else match e.metadata(modules, name)
      case None => Err(MetadataError)
      case Some(md) =>
        match e.deny(modules, name, r)
        case QueryFailed => Err(QueryError)
        case Bindings(denied) =>
          if HasBindings(denied) then Failure(md, denied)
          else match e.warn(modules, name, r)
            case QueryFailed => Err(QueryError)
            case Bindings(warned) =>
              if HasBindings(warned) then Failure(md, warned) else Ok(CheckResult(md, true, []))
  }

  /** Everything up to the queries of the rules succeeds. */
  predicate Loads(e: Engine, libs: Data, name: string, code: string) {
    && (forall lib :: lib in libs ==> e.parses(lib, libs[lib])) && e.parses(name, code)
    && e.compiles(libs[name := code]) && e.metadata(libs[name := code], name).Some?
  }

  /** A policy whose deny rule has results passes all the same exactly when one of these results is not an
      object, and its warn rule has no result or one that is not an object either. */
  lemma DeniedYetPassesIff(e: Engine, libs: Data, name: string, code: string, r: Resource,
                           denied: seq<Binding>, warned: seq<Binding>)
    requires Loads(e, libs, name, code) && denied != []
    requires e.deny(libs[name := code], name, r) == Bindings(denied)
    requires e.warn(libs[name := code], name, r) == Bindings(warned)
    ensures var result := EvalPolicy(e, libs, name, code, r);
            result.Ok? && result.value.success <==>
              && (exists i :: 0 <= i < |denied| && !denied[i].Values?)
              && (warned == [] || exists i :: 0 <= i < |warned| && !warned[i].Values?)
  {
    assert !(exists lib :: lib in libs && !e.parses(lib, libs[lib]));
  }

  /** A rule with results that are all objects fails the policy with the message of each result, in order, or is
      an error when some result has no message. The warn rule is asked only when the deny rule has no results or
      some that are not objects. */
  lemma FailureIs(e: Engine, libs: Data, name: string, code: string, r: Resource, rows: seq<Binding>)
    requires Loads(e, libs, name, code) && rows != [] && forall i :: 0 <= i < |rows| ==> rows[i].Values?
    requires var deny, warn := e.deny(libs[name := code], name, r), e.warn(libs[name := code], name, r);
             || deny == Bindings(rows)
             || (&& deny.Bindings? && warn == Bindings(rows)
                 && (deny.rows == [] || exists i :: 0 <= i < |deny.rows| && !deny.rows[i].Values?))
    ensures var result := EvalPolicy(e, libs, name, code, r);
            if forall i :: 0 <= i < |rows| ==> rows[i].message.Some? && rows[i].message.value != ""
            then && result.Ok? && !result.value.success
                 && Some(result.value.metadata) == e.metadata(libs[name := code], name)
                 && |result.value.messages| == |rows|
                 && forall i :: 0 <= i < |rows| ==> Some(result.value.messages[i]) == rows[i].message
            else result == Err(MessageError)
  {
    assert !(exists lib :: lib in libs && !e.parses(lib, libs[lib]));
  }

  /** The stage that fails gives the error, the earliest first; after loading it is a query that fails. */
  lemma StagesFail(e: Engine, libs: Data, name: string, code: string, r: Resource)
    ensures var result, modules := EvalPolicy(e, libs, name, code, r), libs[name := code];
            && ((exists lib :: lib in libs && !e.parses(lib, libs[lib])) || !e.parses(name, code) ==>
                  result == Err(ParseError))
            && (Loads(e, libs, name, code) && e.deny(modules, name, r).QueryFailed? ==> result == Err(QueryError))
            && (result == Err(CompileError) ==> !e.compiles(modules))
            && (result == Err(MetadataError) ==> e.compiles(modules) && e.metadata(modules, name).None?)
            && (!Loads(e, libs, name, code) ==>
                  result == Err(ParseError) || result == Err(CompileError) || result == Err(MetadataError))
  {
    if Loads(e, libs, name, code) {
      assert !(exists lib :: lib in libs && !e.parses(lib, libs[lib]));
    }
  }

  /** One such result hides all the messages of the others. */
  lemma OddResultHidesMessages(e: Engine, libs: Data, name: string, code: string, r: Resource, message: string)
    requires Loads(e, libs, name, code)
    requires e.deny(libs[name := code], name, r) == Bindings([Values(Some(message)), NotAnObject])
    requires e.warn(libs[name := code], name, r) == Bindings([])
    ensures EvalPolicy(e, libs, name, code, r)
            == Ok(CheckResult(e.metadata(libs[name := code], name).value, true, []))
  {
    var denied := [Values(Some(message)), NotAnObject];
    assert !denied[1].Values?;
    DeniedYetPassesIff(e, libs, name, code, r, denied, []);
  }

  /** The result of a policy depends on the resource through its two rules only. */
  lemma RulesDecide(e: Engine, libs: Data, name: string, code: string, r: Resource, r': Resource)
    requires e.deny(libs[name := code], name, r) == e.deny(libs[name := code], name, r')
    requires e.warn(libs[name := code], name, r) == e.warn(libs[name := code], name, r')
    ensures EvalPolicy(e, libs, name, code, r) == EvalPolicy(e, libs, name, code, r')
  {
  }

  // ---------------------------------------------------------------- all policies of a kind

  function PolicyResult(
    e: Engine, data: Data, kind: string, name: string, r: Resource): Result<CheckResult, EvalError> {
    if name in Selected(data, kind) then EvalPolicy(e, LibrariesOf(data), name, Selected(data, kind)[name], r)
    else Err(SelectionError)
  }

  /** The evaluation succeeds when every selected policy does. */
  predicate Evaluates(e: Engine, data: Data, kind: string, r: Resource) {
    && !Malformed(data, kind)
    && forall name :: name in Selected(data, kind) ==> PolicyResult(e, data, kind, name, r).Ok?
  }

  function ResultOrDefault(e: Engine, data: Data, kind: string, r: Resource, name: string): CheckResult {
    ValueOr(PolicyResult(e, data, kind, name, r), CheckResult(Metadata("", "", "", "", ""), false, []))
  }

  /** The results in the order in which the policies were visited. */
  function ResultsIn(e: Engine, data: Data, kind: string, r: Resource, order: seq<string>): seq<CheckResult> {
    MapSeq(name => ResultOrDefault(e, data, kind, r, name), order)
  }

  /** One result for each selected policy, whatever the order. */
  lemma ResultsPermute(e: Engine, data: Data, kind: string, r: Resource, a: seq<string>, b: seq<string>)
    requires Enumerates(a, Selected(data, kind).Keys) && Enumerates(b, Selected(data, kind).Keys)
    ensures multiset(ResultsIn(e, data, kind, r, a)) == multiset(ResultsIn(e, data, kind, r, b))
    ensures |ResultsIn(e, data, kind, r, a)| == |Selected(data, kind)|
  {
    var f := name => ResultOrDefault(e, data, kind, r, name);
    EnumerationsPermute(a, b, Selected(data, kind).Keys);
    EnumerationCounts(a, Selected(data, kind).Keys);
    MapPermutation(f, a, b);
  }

  /** Evaluation factors through the hashed modules: equal modules and equal selected libraries give
      the same outcome and the same results on every resource of the kind. */
  lemma EqualModulesEvaluateAlike(e: Engine, a: Data, b: Data, kind: string, r: Resource, order: seq<string>)
    requires !Malformed(a, kind) && !Malformed(b, kind)
    requires ModulesOf(a, kind) == ModulesOf(b, kind) && SelectedLibraries(a, kind) == SelectedLibraries(b, kind)
    ensures Selected(a, kind) == Selected(b, kind)
    ensures Evaluates(e, a, kind, r) <==> Evaluates(e, b, kind, r)
    ensures ResultsIn(e, a, kind, r, order) == ResultsIn(e, b, kind, r, order)
  {
    EqualModulesIff(a, b, kind);
    assert forall name :: PolicyResult(e, a, kind, name, r) == PolicyResult(e, b, kind, name, r);
  }

  /** When every list of kinds belongs to a policy, the hashed modules alone decide the outcome: the
      evaluations under two ConfigMaps with equal modules succeed together and give the same results,
      whatever the order in which each visits its policies. */
  lemma ModulesDecideEvaluation(
    e: Engine, a: Data, b: Data, kind: string, r: Resource, orderA: seq<string>, orderB: seq<string>)
    requires !Malformed(a, kind) && !Malformed(b, kind) && ModulesOf(a, kind) == ModulesOf(b, kind)
    requires forall key :: key in a && IsKindsKey(key) ==> HasPrefix(key, "policy.")
    requires forall key :: key in b && IsKindsKey(key) ==> HasPrefix(key, "policy.")
    requires Enumerates(orderA, Selected(a, kind).Keys) && Enumerates(orderB, Selected(b, kind).Keys)
    ensures Evaluates(e, a, kind, r) <==> Evaluates(e, b, kind, r)
    ensures multiset(ResultsIn(e, a, kind, r, orderA)) == multiset(ResultsIn(e, b, kind, r, orderB))
  {
    PolicyKindsSelectNoLibrary(a, kind);
    PolicyKindsSelectNoLibrary(b, kind);
    EqualModulesEvaluateAlike(e, a, b, kind, r, orderB);
    ResultsPermute(e, a, kind, r, orderA, orderB);
  }

  function Outcome(e: Engine, data: Data, kind: string, r: Resource): string -> Result<CheckResult, EvalError> {
    name => PolicyResult(e, data, kind, name, r)
  }

  function ValueOr<T, E>(r: Result<T, E>, default: T): T {
    if r.Ok? then r.value else default
  }

  lemma CollectedResults(
    e: Engine, data: Data, kind: string, r: Resource, names: seq<string>, results: seq<CheckResult>)
    requires Succeed(Outcome(e, data, kind, r), names, results)
    ensures results == ResultsIn(e, data, kind, r, names)
    ensures forall name :: name in names ==> Outcome(e, data, kind, r)(name).Ok?
  {
    SucceedMeans(Outcome(e, data, kind, r), names, results);
  }

  // ---------------------------------------------------------------- the evaluation loop

  class Evaluator {
    const engine: Engine
    const policies: Policies

    constructor (engine: Engine, policies: Policies)
      ensures this.engine == engine && this.policies == policies
    {
      this.engine, this.policies := engine, policies;
    }

    method CollectBindings(rows: seq<Binding>) returns (values: seq<Binding>, all: bool)
      ensures all == HasBindings(rows)
      ensures all ==> values == rows
    {
      if |rows| == 0 {
        return [], false;
      }
      values := [];
      for i := 0 to |rows|
        invariant |values| <= i
        invariant |values| == i <==> forall j :: 0 <= j < i ==> rows[j].Values?
        invariant |values| == i ==> values == rows[..i]
      {
        if rows[i].Values? {
          values := values + [rows[i]];
        }
      }
      all := |rows| == |values|;
    }

    method ValuesToResults(md: Metadata, values: seq<Binding>) returns (r: Result<CheckResult, EvalError>)
      requires forall i :: 0 <= i < |values| ==> values[i].Values?
      ensures r == Failure(md, values)
    {
      var messages: seq<string> := [];
      for i := 0 to |values|
        invariant AllHaveMessages(values[..i]) && messages == MessagesOf(values[..i])
      {
        if values[i].message.None? || values[i].message.value == "" {
          return Err(MessageError);
        }
        messages := messages + [values[i].message.value];
      }
      assert values[..|values|] == values;
      r := Ok(CheckResult(md, false, messages));
    }

    method EvalOne(libs: Data, name: string, code: string, resource: Resource)
      returns (r: Result<CheckResult, EvalError>)
      ensures r == EvalPolicy(engine, libs, name, code, resource)
    {
      var parsed: Data := map[];
      var order := Enumerate(libs.Keys);
      for i := 0 to |order|
        invariant forall j :: 0 <= j < i ==> engine.parses(order[j], libs[order[j]])
        invariant forall lib :: lib in parsed ==> lib in libs && parsed[lib] == libs[lib]
        invariant forall j :: 0 <= j < i ==> order[j] in parsed
      {
        if !engine.parses(order[i], libs[order[i]]) {
          return Err(ParseError);
        }
        parsed := parsed[order[i] := libs[order[i]]];
      }
      assert parsed == libs;
      if !engine.parses(name, code) {
        return Err(ParseError);
      }
      parsed := parsed[name := code];
      if !engine.compiles(parsed) {
        return Err(CompileError);
      }
      var md := engine.metadata(parsed, name);
      if md.None? {
        return Err(MetadataError);
      }
      var deny := engine.deny(parsed, name, resource);
      if deny.QueryFailed? {
        return Err(QueryError);
      }
      var denied, hasDenied := CollectBindings(deny.rows);
      if hasDenied {
        r := ValuesToResults(md.value, denied);
        return;
      }
      var warn := engine.warn(parsed, name, resource);
      if warn.QueryFailed? {
        return Err(QueryError);
      }
      var warned, hasWarned := CollectBindings(warn.rows);
      if hasWarned {
        r := ValuesToResults(md.value, warned);
        return;
      }
      r := Ok(CheckResult(md.value, true, []));
    }

    method EvalNamed(kind: string, selected: Data, name: string, resource: Resource)
      returns (r: Result<CheckResult, EvalError>)
      requires selected == Selected(policies.data, kind) && name in selected
      ensures r == Outcome(engine, policies.data, kind, resource)(name)
    {
      var libs := policies.Libraries();
      r := EvalOne(libs, name, selected[name], resource);
    }

    /** Evaluates policies one by one and stops at the first error. */
    method EvalAll(kind: string, selected: Data, names: seq<string>, resource: Resource)
      returns (r: Result<seq<CheckResult>, EvalError>, ghost failed: string)
      requires selected == Selected(policies.data, kind) && forall i :: 0 <= i < |names| ==> names[i] in selected
      ensures r.Err? ==> failed in names && Outcome(engine, policies.data, kind, resource)(failed).Err?
      ensures r.Ok? ==> Succeed(Outcome(engine, policies.data, kind, resource), names, r.value)
    {
      var results: seq<CheckResult> := [];
      failed := "";
      ghost var outcome, visited: seq<string> := Outcome(engine, policies.data, kind, resource), [];
      for i := 0 to |names|
        invariant visited == names[..i] && Succeed(outcome, visited, results)
      {
        var result := EvalNamed(kind, selected, names[i], resource);
        if result.Err? {
          return Err(result.error), names[i];
        }
        SucceedAppend(outcome, visited, results, names[i], result.value);
        PrefixStep(names, i);
        visited, results := visited + [names[i]], results + [result.value];
      }
      WholePrefix(names);
      r := Ok(results);
    }

    /** Evaluates the selected policies in the order of a map iteration. */
    method Eval(resource: Resource) returns (r: Result<seq<CheckResult>, EvalError>, ghost order: seq<string>)
      ensures r.Ok? <==> resource.ref.kind != "" && Evaluates(engine, policies.data, resource.ref.kind, resource)
      ensures r.Ok? ==>
                && Enumerates(order, Selected(policies.data, resource.ref.kind).Keys)
                && r.value == ResultsIn(engine, policies.data, resource.ref.kind, resource, order)
    {
      var kind := resource.ref.kind;
      order := [];
      if kind == "" {
        return Err(SelectionError), order;
      }
      var selected := policies.PoliciesByKind(kind);
      if selected.Err? {
        return Err(SelectionError), order;
      }
      var names := Enumerate(selected.value.Keys);
      order := names;
      ghost var failed;
      r, failed := EvalAll(kind, selected.value, names, resource);
      if r.Ok? {
        CollectedResults(engine, policies.data, kind, resource, names, r.value);
      }
    }
  }
}
