/** Rego policies kept in a ConfigMap: which of them apply to a kind, their hash, and evaluation. */
module Policy {
  import opened Collections
  import opened Strings
  import opened Kube

  /** The entries of the policies ConfigMap. */
  type Data = map<string, string>

  predicate IsRegoKey(key: string) {
    HasSuffix(key, ".rego")
  }

  predicate IsPolicyKey(key: string) {
    IsRegoKey(key) && HasPrefix(key, "policy.")
  }

  predicate IsLibraryKey(key: string) {
    IsRegoKey(key) && HasPrefix(key, "library.")
  }

  predicate IsKindsKey(key: string) {
    HasSuffix(key, ".kinds")
  }

  function KindsKey(regoKey: string): string {
    TrimSuffix(regoKey, ".rego") + ".kinds"
  }

  function RegoKey(kindsKey: string): string {
    TrimSuffix(kindsKey, ".kinds") + ".rego"
  }

  lemma KeysPair(key: string)
    ensures IsKindsKey(key) ==> IsRegoKey(RegoKey(key)) && KindsKey(RegoKey(key)) == key
    ensures IsRegoKey(key) ==> IsKindsKey(KindsKey(key)) && RegoKey(KindsKey(key)) == key
  {
  }

  /** Whether one entry of a comma separated list of kinds covers `kind`. */
  predicate CoversKind(entry: string, kind: string) {
    entry == "*" || (entry == "Workload" && IsWorkload(kind)) || (entry != "Workload" && entry == kind)
  }

  predicate Selects(kinds: string, kind: string) {
    exists i :: 0 <= i < |Split(kinds, ',')| && CoversKind(Split(kinds, ',')[i], kind)
  }

  /** Some policy has no list of kinds, or some list of kinds that covers `kind` has no policy. */
  predicate Malformed(data: Data, kind: string) {
    || (exists key :: key in data && IsPolicyKey(key) && KindsKey(key) !in data)
    || (exists key :: key in data && IsKindsKey(key) && Selects(data[key], kind) && RegoKey(key) !in data)
  }

  predicate IsSelected(data: Data, kind: string, key: string) {
    key in data && IsRegoKey(key) && KindsKey(key) in data && Selects(data[KindsKey(key)], kind)
  }

  /** The policies for `kind`: the Rego entries whose list of kinds covers it. */
  function Selected(data: Data, kind: string): Data {
    map key | key in data && IsSelected(data, kind, key) :: data[key]
  }

  function LibrariesOf(data: Data): Data {
    map key | key in data && IsLibraryKey(key) :: data[key]
  }

  function ModulesOf(data: Data, kind: string): Data {
    Selected(data, kind) + LibrariesOf(data)
  }

  datatype PolicyError = KindsNotDefined(key: string) | PolicyNotFound(key: string) | BlankKind

  datatype Policies = Policies(data: Data) {

    method Libraries() returns (libs: Data)
      ensures libs == LibrariesOf(data)
    {
      var order := Enumerate(data.Keys);
      libs := map[];
      for i := 0 to |order|
        invariant libs == map key | key in order[..i] && IsLibraryKey(key) :: data[key]
      {
        var key := order[i];
        assert order[..i + 1] == order[..i] + [key];
        if !HasPrefix(key, "library.") {
          continue;
        }
        if !HasSuffix(key, ".rego") {
          continue;
        }
        libs := libs[key := data[key]];
      }
      assert order[..|order|] == order;
    }

    /** Adds the policy that belongs to one list of kinds if the list covers `kind`. */
    method SelectPolicy(kind: string, kindsKey: string, policies: Data) returns (r: Result<Data, PolicyError>)
      requires kindsKey in data
      ensures r.Err? <==> Selects(data[kindsKey], kind) && RegoKey(kindsKey) !in data
      ensures r.Err? ==> r.error == PolicyNotFound(RegoKey(kindsKey))
      ensures r.Ok? ==> r.value == if Selects(data[kindsKey], kind)
                                   then policies[RegoKey(kindsKey) := data[RegoKey(kindsKey)]] else policies
    {
      var entries := Split(data[kindsKey], ',');
      var selected := policies;
      for j := 0 to |entries|
        invariant (exists e :: 0 <= e < j && CoversKind(entries[e], kind)) ==> RegoKey(kindsKey) in data
        invariant selected == if exists e :: 0 <= e < j && CoversKind(entries[e], kind)
                              then policies[RegoKey(kindsKey) := data[RegoKey(kindsKey)]] else policies
      {
        var entry := entries[j];
        if entry == "Workload" && !IsWorkload(kind) {
          continue;
        }
        if entry != "*" && entry != "Workload" && entry != kind {
          continue;
        }
        assert CoversKind(entry, kind);
        var policyKey := TrimSuffix(kindsKey, ".kinds") + ".rego";
        if policyKey !in data {
          return Err(PolicyNotFound(policyKey));
        }
        selected := selected[policyKey := data[policyKey]];
      }
      r := Ok(selected);
    }

    /** What the loop does with one entry. */
    method Visit(kind: string, key: string, policies: Data) returns (r: Result<Data, PolicyError>)
      requires key in data
      ensures r.Err? <==> || (IsPolicyKey(key) && KindsKey(key) !in data)
                          || (IsKindsKey(key) && Selects(data[key], kind) && RegoKey(key) !in data)
      ensures r.Err? ==> r.error == if IsPolicyKey(key) && KindsKey(key) !in data then KindsNotDefined(key)
                                    else PolicyNotFound(RegoKey(key))
      ensures r.Ok? ==> r.value == if IsKindsKey(key) && Selects(data[key], kind)
                                   then policies[RegoKey(key) := data[RegoKey(key)]] else policies
    {
      if HasSuffix(key, ".rego") && HasPrefix(key, "policy.") {
        var kindsKey := TrimSuffix(key, ".rego") + ".kinds";
        if kindsKey !in data {
          return Err(KindsNotDefined(key));
        }
      }
      if !HasSuffix(key, ".kinds") {
        return Ok(policies);
      }
      r := SelectPolicy(kind, key, policies);
    }

    /** For every iteration order the loop fails exactly on malformed data and otherwise returns
        exactly the selected policies. */
    method PoliciesByKind(kind: string) returns (r: Result<Data, PolicyError>)
      ensures r.Err? <==> Malformed(data, kind)
      ensures r.Err? && r.error.KindsNotDefined? ==>
                r.error.key in data && IsPolicyKey(r.error.key) && KindsKey(r.error.key) !in data
      ensures r.Err? && r.error.PolicyNotFound? ==> r.error.key !in data
      ensures r.Ok? ==> r.value == Selected(data, kind)
    {
      var order := Enumerate(data.Keys);
      var policies: Data := map[];
      for i := 0 to |order|
        invariant Collects(kind, policies)
        invariant forall j :: 0 <= j < i ==> Visited(kind, order[j], policies)
      {
        var extended := Visit(kind, order[i], policies);
        if extended.Err? {
          MalformedEntry(kind, order[i]);
          return Err(extended.error);
        }
        CollectsAfter(kind, order[i], policies, extended.value);
        VisitedAfter(kind, order, i, policies, extended.value);
        policies := extended.value;
      }
      AllVisited(kind, order, policies);
      r := Ok(policies);
    }

    /** Only selected policies have been collected. */
    ghost predicate Collects(kind: string, policies: Data) {
      forall key :: key in policies ==> IsSelected(data, kind, key) && policies[key] == data[key]
    }

    lemma MalformedEntry(kind: string, key: string)
      requires key in data
      requires || (IsPolicyKey(key) && KindsKey(key) !in data)
               || (IsKindsKey(key) && Selects(data[key], kind) && RegoKey(key) !in data)
      ensures Malformed(data, kind)
    {
    }

    lemma CollectsAfter(kind: string, key: string, policies: Data, extended: Data)
      requires key in data && Collects(kind, policies)
      requires if IsKindsKey(key) && Selects(data[key], kind)
               then RegoKey(key) in data && extended == policies[RegoKey(key) := data[RegoKey(key)]]
               else extended == policies
      ensures Collects(kind, extended)
    {
      if IsKindsKey(key) && Selects(data[key], kind) {
        CollectOne(kind, key, policies);
      }
    }

    lemma VisitedAfter(kind: string, order: seq<string>, i: nat, policies: Data, extended: Data)
      requires i < |order| && (forall j :: 0 <= j <= i ==> order[j] in data) && policies.Keys <= extended.Keys
      requires (forall j :: 0 <= j < i ==> Visited(kind, order[j], policies)) && Visited(kind, order[i], extended)
      ensures forall j :: 0 <= j <= i ==> Visited(kind, order[j], extended)
    {
      forall j | 0 <= j < i
        ensures Visited(kind, order[j], extended)
      {
        StaysVisited(kind, order[j], policies, extended);
      }
    }

    lemma CollectOne(kind: string, key: string, policies: Data)
      requires key in data && IsKindsKey(key) && Selects(data[key], kind) && RegoKey(key) in data
      requires Collects(kind, policies)
      ensures Collects(kind, policies[RegoKey(key) := data[RegoKey(key)]])
    {
      KeysPair(key);
      assert IsSelected(data, kind, RegoKey(key));
    }

    lemma StaysVisited(kind: string, key: string, policies: Data, extended: Data)
      requires key in data && Visited(kind, key, policies) && policies.Keys <= extended.Keys
      ensures Visited(kind, key, extended)
    {
    }

    lemma AllVisited(kind: string, order: seq<string>, policies: Data)
      requires Enumerates(order, data.Keys) && Collects(kind, policies)
      requires forall j :: 0 <= j < |order| ==> Visited(kind, order[j], policies)
      ensures policies == Selected(data, kind) && !Malformed(data, kind)
    {
      forall key | key in data
        ensures Visited(kind, key, policies)
      {
        var j :| 0 <= j < |order| && order[j] == key;
      }
      forall key | key in data && IsSelected(data, kind, key)
        ensures key in policies
      {
        KeysPair(key);
        assert Visited(kind, KindsKey(key), policies);
      }
    }

    /** The entry is well-formed, and its policy has been collected if it selects one. */
    ghost predicate Visited(kind: string, key: string, policies: Data)
      requires key in data
    {
      && (IsPolicyKey(key) ==> KindsKey(key) in data)
      && (IsKindsKey(key) && Selects(data[key], kind) ==> RegoKey(key) in data && RegoKey(key) in policies)
    }

    method ModulesByKind(kind: string) returns (r: Result<Data, PolicyError>)
      ensures r.Err? <==> Malformed(data, kind)
      ensures r.Ok? ==> r.value == ModulesOf(data, kind)
    {
      var policies := PoliciesByKind(kind);
      if policies.Err? {
        return policies;
      }
      var libs := Libraries();
      var modules := Merge(policies.value, libs);
      r := Ok(modules);
    }

    /** Adds the entries of `extra` one by one. */
    static method Merge(base: Data, extra: Data) returns (merged: Data)
      ensures merged == base + extra
    {
      var order := Enumerate(extra.Keys);
      merged := base;
      for i := 0 to |order|
        invariant merged.Keys <= base.Keys + extra.Keys
        invariant forall key :: key in base && key !in extra ==> key in merged && merged[key] == base[key]
        invariant forall j :: 0 <= j < i ==> order[j] in merged && merged[order[j]] == extra[order[j]]
        invariant base.Keys <= merged.Keys
      {
        merged := merged[order[i] := extra[order[i]]];
      }
      forall key | key in extra
        ensures key in merged && merged[key] == extra[key]
      {
        var j :| 0 <= j < |order| && order[j] == key;
      }
      assert merged.Keys == base.Keys + extra.Keys;
    }

    method Applicable(kind: string) returns (r: Result<bool, PolicyError>)
      ensures r.Err? <==> kind == "" || Malformed(data, kind)
      ensures r.Ok? ==> r.value == (Selected(data, kind) != map[])
    {
      if kind == "" {
        return Err(BlankKind);
      }
      var policies := PoliciesByKind(kind);
      if policies.Err? {
        return Err(policies.error);
      }
      r := Ok(|policies.value| != 0);
    }
  }

  // ---------------------------------------------------------------- which entries are policies and libraries

  /** An entry is the name for everything, the name of a group with `kind` in it, or another name: `kind` itself. */
  predicate Covers(entry: string, everything: string, group: string, inGroup: bool, kind: string) {
    entry == everything || (entry == group && inGroup) || (entry != group && entry == kind)
  }

  lemma CoversIff(entries: seq<string>, everything: string, group: string, inGroup: bool, kind: string)
    ensures (exists i :: 0 <= i < |entries| && Covers(entries[i], everything, group, inGroup, kind)) <==>
            everything in entries || (kind in entries && kind != group) || (group in entries && inGroup)
  {
    if everything in entries || (kind in entries && kind != group) || (group in entries && inGroup) {
      var entry :| entry in entries && Covers(entry, everything, group, inGroup, kind);
      var i :| 0 <= i < |entries| && entries[i] == entry;
    }
  }

  lemma CoversKindIs(entry: string, kind: string)
    ensures CoversKind(entry, kind) <==> Covers(entry, "*", "Workload", IsWorkload(kind), kind)
  {
  }

  lemma CoveredIff(kinds: string, entries: seq<string>, kind: string)
    requires Split(kinds, ',') == entries
    ensures Selects(kinds, kind) <==>
            exists i :: 0 <= i < |entries| && Covers(entries[i], "*", "Workload", IsWorkload(kind), kind)
  {
    forall i | 0 <= i < |entries|
      ensures CoversKind(entries[i], kind) <==> Covers(entries[i], "*", "Workload", IsWorkload(kind), kind)
    {
      CoversKindIs(entries[i], kind);
    }
  }

  /** What a list of kinds covers, said of its entries. */
  lemma SelectsIff(entries: seq<string>, kind: string)
    requires entries != [] && forall i :: 0 <= i < |entries| ==> ',' !in entries[i]
    ensures Selects(Join(entries, ','), kind) <==>
            || "*" in entries
            || (kind in entries && kind != "Workload")
            || ("Workload" in entries &&
                (kind == "Pod" || kind == "Deployment" || kind == "ReplicaSet" || kind == "ReplicationController" ||
                 kind == "StatefulSet" || kind == "DaemonSet" || kind == "Job" || kind == "CronJob"))
  {
    SplitJoin(entries, ',');
    CoveredIff(Join(entries, ','), entries, kind);
    CoversIff(entries, "*", "Workload", IsWorkload(kind), kind);
    WorkloadIff(kind);
  }

  lemma RegoKeyIff(key: string)
    ensures IsRegoKey(key) <==> exists stem :: key == stem + ".rego"
    ensures IsKindsKey(key) <==> exists stem :: key == stem + ".kinds"
  {
    SuffixIff(key, ".rego");
    SuffixIff(key, ".kinds");
  }

  lemma KeysOfStem(stem: string)
    ensures IsRegoKey(stem + ".rego") && KindsKey(stem + ".rego") == stem + ".kinds"
    ensures IsKindsKey(stem + ".kinds") && RegoKey(stem + ".kinds") == stem + ".rego"
  {
    TrimmedStem(stem, ".rego");
    TrimmedStem(stem, ".kinds");
  }

  /** An entry is a policy for `kind` exactly when it is the `.rego` entry beside a `.kinds` entry that lists all
      kinds, the kind itself, or workloads when the kind is one of the eight workload kinds. A kind that is called
      `Workload` is not listed by its name. */
  lemma SelectedIff(data: Data, kind: string, stem: string, entries: seq<string>)
    requires entries != [] && forall i :: 0 <= i < |entries| ==> ',' !in entries[i]
    requires stem + ".kinds" in data && data[stem + ".kinds"] == Join(entries, ',')
    ensures stem + ".rego" in Selected(data, kind) <==>
            && stem + ".rego" in data
            && (|| "*" in entries
                || (kind in entries && kind != "Workload")
                || ("Workload" in entries &&
                    (kind == "Pod" || kind == "Deployment" || kind == "ReplicaSet" || kind == "ReplicationController" ||
                     kind == "StatefulSet" || kind == "DaemonSet" || kind == "Job" || kind == "CronJob")))
  {
    KeysOfStem(stem);
    SelectsIff(entries, kind);
  }

  /** Nothing else is selected, and every list of kinds is such a joined list. */
  lemma SelectedHasKinds(data: Data, kind: string, key: string) returns (stem: string, entries: seq<string>)
    requires key in Selected(data, kind)
    ensures key == stem + ".rego" && key in data && Selected(data, kind)[key] == data[key]
    ensures stem + ".kinds" in data && data[stem + ".kinds"] == Join(entries, ',')
    ensures entries != [] && forall i :: 0 <= i < |entries| ==> ',' !in entries[i]
  {
    RegoKeyIff(key);
    stem :| key == stem + ".rego";
    KeysOfStem(stem);
    entries := Split(data[stem + ".kinds"], ',');
    JoinSplit(data[stem + ".kinds"], ',');
  }

  /** The data is refused exactly when some policy has no list of kinds or some list that covers the kind has no
      policy. */
  lemma MalformedIff(data: Data, kind: string)
    ensures Malformed(data, kind) <==>
            || (exists stem :: stem + ".rego" in data && "policy." <= stem + ".rego" && stem + ".kinds" !in data)
            || (exists stem ::
                  stem + ".kinds" in data && stem + ".rego" !in data && Selects(data[stem + ".kinds"], kind))
  {
    if key :| key in data && IsPolicyKey(key) && KindsKey(key) !in data {
      RegoKeyIff(key);
      var stem :| key == stem + ".rego";
      KeysOfStem(stem);
    }
    if key :| key in data && IsKindsKey(key) && Selects(data[key], kind) && RegoKey(key) !in data {
      RegoKeyIff(key);
      var stem :| key == stem + ".kinds";
      KeysOfStem(stem);
    }
    if stem :| stem + ".rego" in data && "policy." <= stem + ".rego" && stem + ".kinds" !in data {
      KeysOfStem(stem);
      assert IsPolicyKey(stem + ".rego");
    }
    if stem :| stem + ".kinds" in data && stem + ".rego" !in data && Selects(data[stem + ".kinds"], kind) {
      KeysOfStem(stem);
    }
  }

  /** The modules are the selected policies and every library, each with its own code. */
  lemma ModulesIff(data: Data, kind: string, key: string)
    ensures key in LibrariesOf(data) <==> key in data && "library." <= key && exists stem :: key == stem + ".rego"
    ensures key in ModulesOf(data, kind) <==> key in Selected(data, kind) || key in LibrariesOf(data)
    ensures key in ModulesOf(data, kind) ==> key in data && ModulesOf(data, kind)[key] == data[key]
    ensures key in LibrariesOf(data) ==> LibrariesOf(data)[key] == data[key]
  {
    RegoKeyIff(key);
  }

  // ---------------------------------------------------------------- what the hash of the modules decides

  /** Policies that were selected through a list of kinds that belongs to a library. */
  function SelectedLibraries(data: Data, kind: string): set<string> {
    set key | key in Selected(data, kind) && IsLibraryKey(key)
  }

  lemma ModulesSplit(data: Data, kind: string)
    ensures LibrariesOf(data) ==
            map key | key in ModulesOf(data, kind) && IsLibraryKey(key) :: ModulesOf(data, kind)[key]
    ensures Selected(data, kind) ==
            map key | key in ModulesOf(data, kind) && (!IsLibraryKey(key) || key in SelectedLibraries(data, kind))
              :: ModulesOf(data, kind)[key]
  {
  }

  /** Two ConfigMaps with equal modules always have equal libraries; they have equal policies exactly
      when they select the same libraries as policies. */
  lemma EqualModulesIff(a: Data, b: Data, kind: string)
    requires ModulesOf(a, kind) == ModulesOf(b, kind)
    ensures LibrariesOf(a) == LibrariesOf(b)
    ensures Selected(a, kind) == Selected(b, kind) <==> SelectedLibraries(a, kind) == SelectedLibraries(b, kind)
  {
    ModulesSplit(a, kind);
    ModulesSplit(b, kind);
  }

  /** A ConfigMap whose lists of kinds all belong to policies selects no library. */
  lemma PolicyKindsSelectNoLibrary(data: Data, kind: string)
    requires forall key :: key in data && IsKindsKey(key) ==> HasPrefix(key, "policy.")
    ensures SelectedLibraries(data, kind) == {}
  {
    forall key | key in Selected(data, kind)
      ensures !IsLibraryKey(key)
    {
      KeysPair(key);
      assert KindsKey(key)[0] == 'p';
    }
  }

  /** The data without the lists of kinds that select libraries. */
  function WithoutLibraryKinds(data: Data): Data {
    map key | key in data && !(IsKindsKey(key) && IsLibraryKey(RegoKey(key))) :: data[key]
  }

  lemma WithoutLibraryKindsSelection(data: Data, kind: string)
    requires !Malformed(data, kind)
    ensures var stripped := WithoutLibraryKinds(data);
            && !Malformed(stripped, kind) && SelectedLibraries(stripped, kind) == {}
            && ModulesOf(stripped, kind) == ModulesOf(data, kind)
  {
    StrippedIsWellFormed(data, kind);
    forall key
      ensures key in ModulesOf(WithoutLibraryKinds(data), kind) <==> key in ModulesOf(data, kind)
      ensures key in ModulesOf(data, kind) ==>
                ModulesOf(WithoutLibraryKinds(data), kind)[key] == ModulesOf(data, kind)[key]
      ensures key !in SelectedLibraries(WithoutLibraryKinds(data), kind)
    {
      StrippedModule(data, kind, key);
    }
  }

  lemma StrippedSelects(data: Data, kind: string, key: string)
    ensures IsSelected(WithoutLibraryKinds(data), kind, key) <==> IsSelected(data, kind, key) && !IsLibraryKey(key)
  {
    if IsRegoKey(key) {
      StrippedKeys(data, key);
    }
  }

  lemma StrippedModule(data: Data, kind: string, key: string)
    ensures var stripped := WithoutLibraryKinds(data);
            && (key in ModulesOf(stripped, kind) <==> key in ModulesOf(data, kind))
            && (key in ModulesOf(data, kind) ==> ModulesOf(stripped, kind)[key] == ModulesOf(data, kind)[key])
            && key !in SelectedLibraries(stripped, kind)
  {
    StrippedSelects(data, kind, key);
    if IsRegoKey(key) {
      StrippedKeys(data, key);
    }
  }

  lemma StrippedKeys(data: Data, key: string)
    requires IsRegoKey(key)
    ensures var stripped := WithoutLibraryKinds(data);
            && (key in stripped <==> key in data)
            && (KindsKey(key) in stripped <==> KindsKey(key) in data && !IsLibraryKey(key))
  {
    KeysPair(key);
    RegoIsNotKinds(key);
  }

  lemma RegoIsNotKinds(key: string)
    requires IsRegoKey(key)
    ensures !IsKindsKey(key)
  {
    assert key[|key| - 1] == 'o';
  }

  lemma StrippedIsWellFormed(data: Data, kind: string)
    requires !Malformed(data, kind)
    ensures !Malformed(WithoutLibraryKinds(data), kind)
  {
    var stripped := WithoutLibraryKinds(data);
    forall key | key in stripped && IsKindsKey(key)
      ensures Selects(stripped[key], kind) ==> RegoKey(key) in stripped
    {
      KeysPair(key);
      StrippedKeys(data, RegoKey(key));
    }
    forall key | key in stripped && IsPolicyKey(key)
      ensures KindsKey(key) in stripped
    {
      assert key[0] == 'p' && !HasPrefix(key, "library.");
      StrippedKeys(data, key);
    }
  }

  /** Equal modules force equal policies on every other clean ConfigMap exactly when this ConfigMap,
      too, selects no library through its lists of kinds. */
  lemma ModulesDecidePoliciesIff(data: Data, kind: string)
    requires !Malformed(data, kind)
    ensures SelectedLibraries(data, kind) == {} <==>
            forall other: Data :: !Malformed(other, kind) && SelectedLibraries(other, kind) == {}
                                  && ModulesOf(other, kind) == ModulesOf(data, kind)
                                  ==> Selected(other, kind) == Selected(data, kind)
  {
    forall other: Data | SelectedLibraries(data, kind) == {} && SelectedLibraries(other, kind) == {}
                         && ModulesOf(other, kind) == ModulesOf(data, kind)
      ensures Selected(other, kind) == Selected(data, kind)
    {
      EqualModulesIff(other, data, kind);
    }
    WithoutLibraryKindsSelection(data, kind);
    EqualModulesIff(WithoutLibraryKinds(data), data, kind);
  }

  lemma NoLibrarySelectsNone(data: Data, kind: string)
    requires LibrariesOf(data) == map[]
    ensures SelectedLibraries(data, kind) == {}
  {
    forall key | key in Selected(data, kind)
      ensures !IsLibraryKey(key)
    {
      assert IsLibraryKey(key) ==> key in LibrariesOf(data);
    }
  }

  /** The data with a list of all kinds for one library. */
  function WithLibraryKinds(data: Data, lib: string): Data {
    data[KindsKey(lib) := "*"]
  }

  lemma WithLibraryKindsEntry(data: Data, kind: string, lib: string, key: string)
    requires lib in data && IsLibraryKey(lib)
    ensures var other := WithLibraryKinds(data, lib);
            && (IsRegoKey(key) ==> (key in other <==> key in data) && (key in data ==> other[key] == data[key]))
            && (IsSelected(other, kind, key) <==> key == lib || IsSelected(data, kind, key))
  {
    KeysPair(lib);
    SplitStar();
    assert CoversKind(Split("*", ',')[0], kind);
    if IsRegoKey(key) {
      KeysPair(key);
      RegoIsNotKinds(key);
    }
  }

  lemma WithLibraryKindsIsWellFormed(data: Data, kind: string, lib: string)
    requires !Malformed(data, kind) && lib in data && IsLibraryKey(lib)
    ensures !Malformed(WithLibraryKinds(data, lib), kind)
  {
    var other := WithLibraryKinds(data, lib);
    KeysPair(lib);
    forall key | key in other && IsPolicyKey(key)
      ensures KindsKey(key) in other
    {
      WithLibraryKindsEntry(data, kind, lib, key);
    }
    forall key | key in other && IsKindsKey(key) && Selects(other[key], kind)
      ensures RegoKey(key) in other
    {
      if key != KindsKey(lib) {
        assert key in data && data[key] == other[key];
      }
    }
  }

  /** Selecting a library as a policy changes the policies and not the modules. */
  lemma LibraryKindsChangePolicies(data: Data, kind: string, lib: string)
    requires !Malformed(data, kind) && lib in data && IsLibraryKey(lib) && !IsSelected(data, kind, lib)
    ensures var other := WithLibraryKinds(data, lib);
            && !Malformed(other, kind) && ModulesOf(other, kind) == ModulesOf(data, kind)
            && Selected(other, kind) != Selected(data, kind)
  {
    var other := WithLibraryKinds(data, lib);
    WithLibraryKindsIsWellFormed(data, kind, lib);
    forall key
      ensures key in ModulesOf(other, kind) <==> key in ModulesOf(data, kind)
      ensures key in ModulesOf(data, kind) ==> ModulesOf(other, kind)[key] == ModulesOf(data, kind)[key]
    {
      WithLibraryKindsModule(data, kind, lib, key);
    }
    WithLibraryKindsEntry(data, kind, lib, lib);
    assert lib in Selected(other, kind) && lib !in Selected(data, kind);
  }

  lemma WithLibraryKindsModule(data: Data, kind: string, lib: string, key: string)
    requires lib in data && IsLibraryKey(lib)
    ensures var other := WithLibraryKinds(data, lib);
            && (key in ModulesOf(other, kind) <==> key in ModulesOf(data, kind))
            && (key in ModulesOf(data, kind) ==> ModulesOf(other, kind)[key] == ModulesOf(data, kind)[key])
  {
    WithLibraryKindsEntry(data, kind, lib, key);
  }

  /** Equal modules force equal policies on every other ConfigMap exactly when there is no library at all. */
  lemma ModulesDecideAllPoliciesIff(data: Data, kind: string)
    requires !Malformed(data, kind)
    ensures LibrariesOf(data) == map[] <==>
            forall other: Data :: !Malformed(other, kind) && ModulesOf(other, kind) == ModulesOf(data, kind)
                                  ==> Selected(other, kind) == Selected(data, kind)
  {
    if LibrariesOf(data) == map[] {
      forall other: Data | ModulesOf(other, kind) == ModulesOf(data, kind)
        ensures Selected(other, kind) == Selected(data, kind)
      {
        EqualModulesIff(other, data, kind);
        NoLibrarySelectsNone(data, kind);
        NoLibrarySelectsNone(other, kind);
      }
    } else if SelectedLibraries(data, kind) == {} {
      var lib :| lib in LibrariesOf(data);
      assert lib in Selected(data, kind) ==> lib in SelectedLibraries(data, kind);
      LibraryKindsChangePolicies(data, kind, lib);
    } else {
      WithoutLibraryKindsSelection(data, kind);
      EqualModulesIff(WithoutLibraryKinds(data), data, kind);
    }
  }

  /** The hash does miss changes: with a list of kinds for a library, dropping that list leaves the
      modules as they are but changes which of them are evaluated as policies. */
  lemma EqualModulesDifferentPolicies(lib: string, code: string, kind: string)
    requires IsLibraryKey(lib)
    ensures var data := map[lib := code, KindsKey(lib) := "*"];
            var stripped := WithoutLibraryKinds(data);
            && !Malformed(data, kind) && !Malformed(stripped, kind)
            && ModulesOf(stripped, kind) == ModulesOf(data, kind)
            && Selected(stripped, kind) != Selected(data, kind)
  {
    var data := map[lib := code, KindsKey(lib) := "*"];
    LibraryKindsData(lib, code, kind);
    WithoutLibraryKindsSelection(data, kind);
    assert lib in Selected(data, kind) && lib !in SelectedLibraries(WithoutLibraryKinds(data), kind);
  }

  lemma LibraryKindsData(lib: string, code: string, kind: string)
    requires IsLibraryKey(lib)
    ensures var data := map[lib := code, KindsKey(lib) := "*"];
            !Malformed(data, kind) && IsSelected(data, kind, lib)
  {
    var kinds := KindsKey(lib);
    var data := map[lib := code, kinds := "*"];
    KeysPair(lib);
    SplitStar();
    assert lib[0] == 'l' && kinds[0] == 'l';
    assert lib[|lib| - 1] == 'o' && kinds[|kinds| - 1] == 's';
    assert CoversKind(Split("*", ',')[0], kind);
    forall key | key in data
      ensures !IsPolicyKey(key) && (IsKindsKey(key) ==> key == kinds)
    {
      assert key == lib || key == kinds;
    }
  }

  /** A ConfigMap with one policy, for all kinds. */
  function OnePolicy(key: string, code: string): Data {
    map[key := code, KindsKey(key) := "*"]
  }

  lemma OnePolicyData(key: string, code: string, kind: string)
    requires IsPolicyKey(key)
    ensures !Malformed(OnePolicy(key, code), kind) && Selected(OnePolicy(key, code), kind) == map[key := code]
  {
    var kinds, data := KindsKey(key), OnePolicy(key, code);
    KeysPair(key);
    SplitStar();
    assert key[|key| - 1] == 'o' && kinds[|kinds| - 1] == 's';
    assert CoversKind(Split("*", ',')[0], kind);
    forall k | k in data
      ensures IsRegoKey(k) ==> k == key
      ensures IsKindsKey(k) ==> k == kinds
    {
      assert k == key || k == kinds;
    }
    assert IsSelected(data, kind, key);
  }

  lemma SplitStar()
    ensures Split("*", ',') == ["*"]
  {
    var s := "*";
    assert s[1..] == [];
    var rest := Split(s[1..], ',');
    assert rest == [[]] && rest[1..] == [];
    assert Split(s, ',') == [[s[0]] + rest[0]] + rest[1..];
    assert [s[0]] + rest[0] == s;
  }
}
