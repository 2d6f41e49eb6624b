/** The registry of configurable settings and its reverse dependency index. */
module SettingsRegistry {
  import opened Wrappers

  datatype Registration = Registration(
    categorySlug: Option<string>, hasFieldClass: bool,
    encrypted: bool, readOnly: bool,
    dependsOn: set<string>)

  datatype Outcome = Registered | AlreadyRegistered | ReservedSlug | MissingFieldClass

  const RESERVED_SLUGS := {"all", "changed", "user-defaults"}

  /** `dependents` maps a setting to the settings that named it in depends_on. */
  datatype Index = Index(entries: map<string, Registration>, dependents: map<string, set<string>>) {

    function DependentsOf(key: string): set<string> {
      if key in dependents then dependents[key] else {}
    }

    /** The index is exactly the inverse of depends_on over the registered settings. */
    ghost predicate Inverse() {
      forall a, b :: b in DependentsOf(a) <==> b in entries && a in entries[b].dependsOn
    }

    function Check(setting: string, r: Registration): Outcome {
      if setting in entries then AlreadyRegistered
      else if r.categorySlug.Some? && r.categorySlug.value in RESERVED_SLUGS then ReservedSlug
      else if !r.hasFieldClass then MissingFieldClass
      else Registered
    }

    function Register(setting: string, r: Registration): Index {
      if Check(setting, r) == Registered then
        Index(entries[setting := r], AddDependent(dependents, r.dependsOn, setting))
      else this
    }

    function Unregister(setting: string): Index {
      Index(entries - {setting}, map k | k in dependents :: dependents[k] - {setting})
    }

    /** The cache keys dropped when `key` changes. */
    function StaleKeys(key: string): set<string> {
      {key} + DependentsOf(key)
    }
  }

  function AddDependent(m: map<string, set<string>>, keys: set<string>, setting: string): map<string, set<string>> {
    map k | k in m.Keys + keys ::
      (if k in m then m[k] else {}) + (if k in keys then {setting} else {})
  }

  lemma AddToNone(m: map<string, set<string>>, setting: string)
    ensures AddDependent(m, {}, setting) == m
  {
    assert forall k :: k in m ==> m[k] + {} == m[k];
  }

  lemma AddOneMore(m: map<string, set<string>>, keys: set<string>, dep: string, setting: string)
    requires dep !in keys
    ensures var done := AddDependent(m, keys, setting);
            AddDependent(m, keys + {dep}, setting) ==
            done[dep := (if dep in done then done[dep] else {}) + {setting}]
  {
    var done, next := AddDependent(m, keys, setting), AddDependent(m, keys + {dep}, setting);
    var step := done[dep := (if dep in done then done[dep] else {}) + {setting}];
    assert next.Keys == step.Keys;
    forall k | k in next ensures next[k] == step[k] {
    }
  }

  datatype Op = DoRegister(setting: string, r: Registration) | DoUnregister(setting: string)

  function Apply(x: Index, op: Op): Index {
    match op
    case DoRegister(s, r) => x.Register(s, r)
    case DoUnregister(s) => x.Unregister(s)
  }

  function Run(x: Index, ops: seq<Op>): Index
    decreases |ops|
  {
    if ops == [] then x else Run(Apply(x, ops[0]), ops[1..])
  }

  /** A run ends with its last call. */
  lemma {:induction false} RunEnds(x: Index, ops: seq<Op>, op: Op)
    ensures Run(x, []) == x && Run(x, ops + [op]) == Apply(Run(x, ops), op)
    decreases |ops|
  {
    if ops == [] {
      assert [] + [op] == [op] && [op][1..] == [];
    } else {
      assert (ops + [op])[1..] == ops[1..] + [op];
      RunEnds(Apply(x, ops[0]), ops[1..], op);
    }
  }

  const EMPTY := Index(map[], map[])

  lemma {:induction false} RunKeepsInverse(x: Index, ops: seq<Op>)
    requires x.Inverse()
    ensures Run(x, ops).Inverse()
    decreases |ops|
  {
    if ops == [] {
    } else {
      var y := Apply(x, ops[0]);
      match ops[0]
      case DoRegister(s, r) =>
        if x.Check(s, r) == Registered {
          forall a, b ensures b in y.DependentsOf(a) <==> b in y.entries && a in y.entries[b].dependsOn {
            assert b in y.DependentsOf(a) <==> b in x.DependentsOf(a) || (b == s && a in r.dependsOn);
          }
        }
        RunKeepsInverse(y, ops[1..]);
      case DoUnregister(s) =>
        forall a, b ensures b in y.DependentsOf(a) <==> b in y.entries && a in y.entries[b].dependsOn {
          assert b in y.DependentsOf(a) <==> b in x.DependentsOf(a) && b != s;
        }
        RunKeepsInverse(y, ops[1..]);
    }
  }

  /** From an empty registry, after any calls, a change to `key` makes stale exactly `key` itself and
      the registered settings whose depends_on names it. */
  lemma StaleKeysExact(ops: seq<Op>, key: string)
    ensures forall k :: k in Run(EMPTY, ops).StaleKeys(key) <==>
              k == key ||
              (k in Run(EMPTY, ops).entries && key in Run(EMPTY, ops).entries[k].dependsOn)
  {
    assert EMPTY.Inverse();
    RunKeepsInverse(EMPTY, ops);
    var x := Run(EMPTY, ops);
    forall k ensures k in x.StaleKeys(key) <==> k == key || (k in x.entries && key in x.entries[k].dependsOn) {
      assert k in x.DependentsOf(key) <==> k in x.entries && key in x.entries[k].dependsOn;
    }
  }

  /** Unregistering undoes a successful registration, as far as any lookup can tell. */
  lemma UnregisterUndoesRegister(x: Index, setting: string, r: Registration)
    requires x.Inverse() && x.Check(setting, r) == Registered
    ensures x.Register(setting, r).Unregister(setting).entries == x.entries
    ensures forall k :: x.Register(setting, r).Unregister(setting).DependentsOf(k) == x.DependentsOf(k)
  {
    var y := x.Register(setting, r).Unregister(setting);
    assert y.entries == x.entries;
    forall k ensures y.DependentsOf(k) == x.DependentsOf(k) {
      assert setting !in x.DependentsOf(k);
    }
  }

  class Registry {
    var entries: map<string, Registration>
    var dependents: map<string, set<string>>

    function View(): Index
      reads this
    {
      Index(entries, dependents)
    }

    constructor ()
      ensures View() == EMPTY
    {
      entries, dependents := map[], map[];
    }

    method Register(setting: string, r: Registration) returns (outcome: Outcome)
      modifies this
      ensures outcome == old(View()).Check(setting, r)
      ensures View() == old(View()).Register(setting, r)
      ensures outcome == AlreadyRegistered <==> setting in old(entries)
      ensures outcome == ReservedSlug <==>
                setting !in old(entries) && r.categorySlug in {Some("all"), Some("changed"), Some("user-defaults")}
      ensures outcome == MissingFieldClass ==> !r.hasFieldClass
      ensures outcome == Registered ==> r.hasFieldClass && entries == old(entries)[setting := r]
      ensures outcome != Registered ==> entries == old(entries) && dependents == old(dependents)
    {
      if setting in entries {
        return AlreadyRegistered;
      }
      if r.categorySlug.Some? && r.categorySlug.value in RESERVED_SLUGS {
        return ReservedSlug;
      }
      if !r.hasFieldClass {
        return MissingFieldClass;
      }
      entries := entries[setting := r];
      AddDependents(setting, r.dependsOn);
      return Registered;
    }

    method AddDependents(setting: string, keys: set<string>)
      modifies this`dependents
      ensures dependents == AddDependent(old(dependents), keys, setting)
    {
      var todo := keys;
      AddToNone(dependents, setting);
      assert keys - todo == {};
      while todo != {}
        invariant todo <= keys
        invariant dependents == AddDependent(old(dependents), keys - todo, setting)
      {
        var dep :| dep in todo;
        AddOneMore(old(dependents), keys - todo, dep, setting);
        assert keys - (todo - {dep}) == keys - todo + {dep};
        todo := todo - {dep};
        if dep !in dependents {
          dependents := dependents[dep := {}];
        }
        dependents := dependents[dep := dependents[dep] + {setting}];
      }
      assert keys - todo == keys;
    }

    method Unregister(setting: string)
      modifies this
      ensures View() == old(View()).Unregister(setting)
      ensures entries == old(entries) - {setting}
    {
      entries := entries - {setting};
      var todo := dependents.Keys;
      while todo != {}
        invariant todo <= old(dependents).Keys == dependents.Keys
        invariant entries == old(entries) - {setting}
        invariant forall k :: k in dependents ==>
                    dependents[k] == if k in todo then old(dependents)[k] else old(dependents)[k] - {setting}
      {
        var k :| k in todo;
        todo := todo - {k};
        dependents := dependents[k := dependents[k] - {setting}];
      }
    }

    method GetDependentSettings(setting: string) returns (keys: set<string>)
      ensures keys == View().DependentsOf(setting)
      ensures View().Inverse() ==> forall k :: k in keys <==> k in entries && setting in entries[k].dependsOn
    {
      if setting in dependents {
        return dependents[setting];
      }
      return {};
    }
  }
}
