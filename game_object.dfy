/** The trigger subscriptions and the lifecycle of a scripted game object
    (src/Core/Script/GameObject.cpp), over an abstract trigger database. */
module GameObjects {
  import opened Wrappers
  import TriggerGroups

  /** A trigger is known by its namespace, its group and its name. */
  datatype TriggerId = TriggerId(nsp: string, group: string, name: string)

  datatype GroupKey = GroupKey(nsp: string, group: string)

  /** A live trigger as the database holds it: a serial that tells this
      trigger apart from any earlier trigger with the same identity, and
      the callback name registered by each environment index. */
  datatype TriggerCell = TriggerCell(serial: nat, environments: map<nat, string>)

  /** `std::weak_ptr<Trigger>`: it still points to a trigger exactly when the
      database holds a cell under `id` with the same serial. */
  datatype WeakTrigger = WeakTrigger(id: TriggerId, serial: nat)

  /** One entry of `m_registeredTriggers`. */
  datatype Registration = Registration(trigger: WeakTrigger, callback: string)

  datatype Error =
    | TriggerGroupNotFound(nsp: string, group: string)
    | TriggerNotFound(id: TriggerId)
    | NoLocalTriggers

  type Cells = map<TriggerId, TriggerCell>

  predicate Alive(cells: Cells, w: WeakTrigger)
  {
    w.id in cells && cells[w.id].serial == w.serial
  }

  predicate NoDuplicates<T(==)>(s: seq<T>)
  {
    forall i, j :: 0 <= i < j < |s| ==> s[i] != s[j]
  }

  lemma AscendingNoDuplicates(s: seq<string>)
    requires TriggerGroups.Ascending(s)
    ensures NoDuplicates(s)
  {
    forall i, j | 0 <= i < j < |s|
      ensures s[i] != s[j]
    {
      TriggerGroups.BelowIrreflexive(s[i]);
    }
  }

  // ---------------------------------------------------------------------
  // Callback names and the "*" alias.

  /** The callback an environment registers: the alias, or `nsp.grp.name`
      when the alias is empty. */
  function CallbackName(nsp: string, grp: string, name: string, alias: string): (callback: string)
    ensures alias != "" ==> callback == alias
    ensures alias == "" ==> (|callback| == |nsp| + |grp| + |name| + 2
      && callback[..|nsp|] == nsp && callback[|callback| - |name|..] == name)
  {
    if alias == "" then nsp + "." + grp + "." + name else alias
  }

  /** Default callback names of different triggers of one group never clash. */
  lemma DefaultCallbackNamesDistinct(nsp: string, grp: string, a: string, b: string)
    requires a != b
    ensures CallbackName(nsp, grp, a, "") != CallbackName(nsp, grp, b, "")
  {
    var prefix := nsp + "." + grp + ".";
    assert CallbackName(nsp, grp, a, "") == prefix + a;
    assert CallbackName(nsp, grp, b, "") == prefix + b;
    assert (prefix + a)[|prefix|..] == a && (prefix + b)[|prefix|..] == b;
  }

  /** The number of "*" in `s`. */
  function StarCount(s: string): (n: nat)
    ensures n <= |s|
  {
    if s == [] then 0 else (if s[0] == '*' then 1 else 0) + StarCount(s[1..])
  }

  /** `Utils::String::replace(s, "*", name)`: every "*" replaced by `name`. */
  function ReplaceStar(s: string, name: string): (r: string)
    ensures |r| == |s| - StarCount(s) + StarCount(s) * |name|
  {
    if s == [] then []
    else
      assert (StarCount(s[1..]) + 1) * |name| == StarCount(s[1..]) * |name| + |name|;
      (if s[0] == '*' then name else [s[0]]) + ReplaceStar(s[1..], name)
  }

  /** The alias used for one trigger of a wildcard subscription: `alias` with
      "*" replaced by the trigger's name, or "" when `alias` has no "*". */
  function WildcardAlias(alias: string, name: string): (r: string)
    ensures '*' !in alias ==> r == ""
    ensures name == "*" && '*' in alias ==> r == alias
  {
    if '*' in alias then ReplaceStarByStar(alias); ReplaceStar(alias, name) else ""
  }

  lemma {:induction false} ReplaceStarWithoutStar(s: string, name: string)
    requires '*' !in s
    ensures ReplaceStar(s, name) == s
  {
    if s != [] {
      assert s[0] != '*' && '*' !in s[1..];
      ReplaceStarWithoutStar(s[1..], name);
    }
  }

  lemma {:induction false} ReplaceStarByStar(s: string)
    ensures ReplaceStar(s, "*") == s
  {
    if s != [] {
      ReplaceStarByStar(s[1..]);
      assert (if s[0] == '*' then "*" else [s[0]]) == [s[0]];
    }
  }

  /** After substitution by a name without "*", no "*" is left. */
  lemma {:induction false} ReplaceStarRemovesStars(s: string, name: string)
    requires '*' !in name
    ensures '*' !in ReplaceStar(s, name)
  {
    if s != [] {
      ReplaceStarRemovesStars(s[1..], name);
    }
  }

  /** A wildcard alias never contains a "*" when the trigger name has none. */
  lemma WildcardAliasHasNoStar(alias: string, name: string)
    requires '*' !in name
    ensures '*' !in WildcardAlias(alias, name)
  {
    if '*' in alias {
      ReplaceStarRemovesStars(alias, name);
    }
  }

  // ---------------------------------------------------------------------
  // Subscriptions as values: the object's records and the database's cells.

  datatype Subscriptions = Subscriptions(registered: seq<Registration>, cells: Cells)

  /** Some record of `regs` points to `w`. */
  predicate Subscribed(regs: seq<Registration>, w: WeakTrigger)
  {
    exists i :: 0 <= i < |regs| && regs[i].trigger == w
  }

  /** At most one record per trigger. */
  predicate UniqueRegistrations(regs: seq<Registration>)
  {
    forall i, j :: 0 <= i < j < |regs| ==> regs[i].trigger != regs[j].trigger
  }

  function Register(cells: Cells, id: TriggerId, env: nat, callback: string): (r: Cells)
    requires id in cells
    ensures r.Keys == cells.Keys && forall t :: t in cells ==> r[t].serial == cells[t].serial
  {
    cells[id := cells[id].(environments := cells[id].environments[env := callback])]
  }

  function Unregister(cells: Cells, id: TriggerId, env: nat): (r: Cells)
    requires id in cells
    ensures r.Keys == cells.Keys && forall t :: t in cells ==> r[t].serial == cells[t].serial
  {
    cells[id := cells[id].(environments := cells[id].environments - {env})]
  }

  lemma SubscribedPrefix(regs: seq<Registration>, more: seq<Registration>, w: WeakTrigger)
    requires Subscribed(regs, w) && regs <= more
    ensures Subscribed(more, w)
  {
    var i :| 0 <= i < |regs| && regs[i].trigger == w;
    assert more[i] == regs[i];
  }

  /** The non-wildcard branch of useTrigger for trigger `id` of the database:
      a trigger without a record gains one record and is registered; an
      already subscribed trigger is unregistered and registered again. Either
      way the environment ends up registered under the new callback name. */
  function Subscribe(s: Subscriptions, env: nat, id: TriggerId, alias: string): (r: Subscriptions)
    requires id in s.cells
    ensures r.cells.Keys == s.cells.Keys
    ensures forall t :: t in s.cells ==> r.cells[t].serial == s.cells[t].serial
    ensures r.cells[id].environments == s.cells[id].environments[env := CallbackName(id.nsp, id.group, id.name, alias)]
    ensures forall t :: t in s.cells && t != id ==> r.cells[t] == s.cells[t]
    ensures s.registered <= r.registered
    ensures Subscribed(r.registered, WeakTrigger(id, s.cells[id].serial))
    ensures Subscribed(s.registered, WeakTrigger(id, s.cells[id].serial)) ==> r.registered == s.registered
    ensures !Subscribed(s.registered, WeakTrigger(id, s.cells[id].serial)) ==>
      r.registered == s.registered + [Registration(WeakTrigger(id, s.cells[id].serial), CallbackName(id.nsp, id.group, id.name, alias))]
  {
    var current := WeakTrigger(id, s.cells[id].serial);
    var callback := CallbackName(id.nsp, id.group, id.name, alias);
    if Subscribed(s.registered, current) then
      Subscriptions(s.registered, Register(Unregister(s.cells, id, env), id, env, callback))
    else
      var r := Subscriptions(s.registered + [Registration(current, callback)], Register(s.cells, id, env, callback));
      assert r.registered[|s.registered|].trigger == current;
      r
  }

  /** Subscribing keeps at most one record per trigger. */
  lemma SubscribeKeepsUnique(s: Subscriptions, env: nat, id: TriggerId, alias: string)
    requires id in s.cells && UniqueRegistrations(s.registered)
    ensures UniqueRegistrations(Subscribe(s, env, id, alias).registered)
  {
  }

  /** Subscribing twice with the same alias is subscribing once. */
  lemma SubscribeTwice(s: Subscriptions, env: nat, id: TriggerId, alias: string)
    requires id in s.cells
    ensures Subscribe(Subscribe(s, env, id, alias), env, id, alias) == Subscribe(s, env, id, alias)
  {
    var r := Subscribe(s, env, id, alias);
    var r2 := Subscribe(r, env, id, alias);
    assert r2.registered == r.registered;
    assert r2.cells[id] == r.cells[id];
    assert r2.cells == r.cells;
  }

  /** The wildcard branch: one subscription per trigger name, in order, each
      with its own substituted alias. */
  function SubscribeAll(s: Subscriptions, env: nat, nsp: string, grp: string, names: seq<string>, alias: string): (r: Subscriptions)
    requires forall n :: n in names ==> TriggerId(nsp, grp, n) in s.cells
    ensures r.cells.Keys == s.cells.Keys
    ensures forall t :: t in s.cells ==> r.cells[t].serial == s.cells[t].serial
    ensures forall t :: t in s.cells && (t.nsp != nsp || t.group != grp || t.name !in names) ==> r.cells[t] == s.cells[t]
    ensures s.registered <= r.registered
    decreases |names|
  {
    if names == [] then s
    else
      var s' := Subscribe(s, env, TriggerId(nsp, grp, names[0]), WildcardAlias(alias, names[0]));
      SubscribeAll(s', env, nsp, grp, names[1..], alias)
  }

  /** Trigger `id` is registered in `r` for `env` under `callback`, with a
      record pointing to the cell `id` had in `s`. */
  ghost predicate SubscribedAs(s: Subscriptions, r: Subscriptions, env: nat, id: TriggerId, callback: string)
  {
    id in s.cells && id in r.cells
    && r.cells[id].environments == s.cells[id].environments[env := callback]
    && Subscribed(r.registered, WeakTrigger(id, s.cells[id].serial))
  }

  /** After a wildcard subscription over distinct names, every trigger of the
      group is registered under `alias` with "*" replaced by its name (or the
      default name), and has a record. */
  lemma {:induction false} SubscribeAllEffect(s: Subscriptions, env: nat, nsp: string, grp: string, names: seq<string>, alias: string)
    requires forall n :: n in names ==> TriggerId(nsp, grp, n) in s.cells
    requires NoDuplicates(names)
    ensures forall n :: n in names ==>
      SubscribedAs(s, SubscribeAll(s, env, nsp, grp, names, alias), env, TriggerId(nsp, grp, n),
                   CallbackName(nsp, grp, n, WildcardAlias(alias, n)))
    decreases |names|
  {
    if names != [] {
      var n0 := names[0];
      var id0 := TriggerId(nsp, grp, n0);
      var s' := Subscribe(s, env, id0, WildcardAlias(alias, n0));
      var rest := names[1..];
      assert forall n :: n in rest ==> n in names;
      assert NoDuplicates(rest) by {
        forall i, j | 0 <= i < j < |rest| ensures rest[i] != rest[j] {
          assert rest[i] == names[i + 1] && rest[j] == names[j + 1];
        }
      }
      assert n0 !in rest by {
        forall j | 0 <= j < |rest| ensures rest[j] != n0 {
          assert rest[j] == names[j + 1];
        }
      }
      SubscribeAllEffect(s', env, nsp, grp, rest, alias);
      var r := SubscribeAll(s', env, nsp, grp, rest, alias);
      assert r == SubscribeAll(s, env, nsp, grp, names, alias);
      forall n | n in names
        ensures SubscribedAs(s, r, env, TriggerId(nsp, grp, n), CallbackName(nsp, grp, n, WildcardAlias(alias, n)))
      {
        if n == n0 {
          assert r.cells[id0] == s'.cells[id0];
          SubscribedPrefix(s'.registered, r.registered, WeakTrigger(id0, s.cells[id0].serial));
        } else {
          assert n in rest;
          assert s'.cells[TriggerId(nsp, grp, n)] == s.cells[TriggerId(nsp, grp, n)];
        }
      }
    }
  }

  /** A wildcard subscription keeps at most one record per trigger. */
  lemma {:induction false} SubscribeAllKeepsUnique(s: Subscriptions, env: nat, nsp: string, grp: string, names: seq<string>, alias: string)
    requires forall n :: n in names ==> TriggerId(nsp, grp, n) in s.cells
    requires UniqueRegistrations(s.registered)
    ensures UniqueRegistrations(SubscribeAll(s, env, nsp, grp, names, alias).registered)
    decreases |names|
  {
    if names != [] {
      var s' := Subscribe(s, env, TriggerId(nsp, grp, names[0]), WildcardAlias(alias, names[0]));
      SubscribeKeepsUnique(s, env, TriggerId(nsp, grp, names[0]), WildcardAlias(alias, names[0]));
      assert forall n :: n in names[1..] ==> n in names;
      SubscribeAllKeepsUnique(s', env, nsp, grp, names[1..], alias);
    }
  }

  /** `useTrigger(nsp, grp, "*", "on_*")` over triggers "A" and "B" registers
      the callbacks "on_A" and "on_B". */
  lemma WildcardScenario(s: Subscriptions, env: nat, nsp: string, grp: string)
    requires TriggerId(nsp, grp, "A") in s.cells && TriggerId(nsp, grp, "B") in s.cells
    ensures var r := SubscribeAll(s, env, nsp, grp, ["A", "B"], "on_*");
      r.cells[TriggerId(nsp, grp, "A")].environments[env] == "on_A"
      && r.cells[TriggerId(nsp, grp, "B")].environments[env] == "on_B"
  {
    assert WildcardAlias("on_*", "A") == "on_A" && WildcardAlias("on_*", "B") == "on_B";
    SubscribeAllEffect(s, env, nsp, grp, ["A", "B"], "on_*");
    assert "A" in ["A", "B"] && "B" in ["A", "B"];
  }

  /** removeTrigger leaves the record in place, so subscribing again adds no
      record and only registers the environment anew. */
  lemma ResubscribeAfterRemoveAddsNoRecord(s: Subscriptions, env: nat, id: TriggerId, alias: string)
    requires id in s.cells && Subscribed(s.registered, WeakTrigger(id, s.cells[id].serial))
    ensures var r := Subscribe(Subscriptions(s.registered, Unregister(s.cells, id, env)), env, id, alias);
      r.registered == s.registered
      && r.cells[id].environments[env] == CallbackName(id.nsp, id.group, id.name, alias)
  {
  }

  // The wildcard branch as written calls useTrigger itself for every name.

  /** The arguments of the call the wildcard branch makes for trigger `name`
      of the group, as written: useTrigger again, with the substituted alias. */
  function WildcardRecursiveCall(name: string, alias: string): (call: (string, string))
    ensures call.0 == name
    ensures '*' in alias ==> call.1 == ReplaceStar(alias, name)
    ensures '*' !in alias ==> call.1 == ""
  {
    (name, WildcardAlias(alias, name))
  }

  /** If the group holds a trigger named "*", the call made for it is again a
      wildcard call on the same group, and the call that one makes for the
      same name is identical to it: the recursion never ends. */
  lemma StarTriggerRecursesForever(alias: string)
    ensures var call := WildcardRecursiveCall("*", alias);
      call.0 == "*" && WildcardRecursiveCall(call.0, call.1) == call
  {
    ReplaceStarByStar(alias);
  }

  // ---------------------------------------------------------------------
  // deleteObject as a value.

  /** Every trigger that some record still points to loses `env`; triggers
      no live record points to, and expired records, change nothing. */
  function DetachAll(cells: Cells, regs: seq<Registration>, env: nat): (r: Cells)
    ensures r.Keys == cells.Keys
    ensures forall t :: t in cells ==> r[t].serial == cells[t].serial
  {
    map t | t in cells ::
      if Subscribed(regs, WeakTrigger(t, cells[t].serial))
      then cells[t].(environments := cells[t].environments - {env})
      else cells[t]
  }

  lemma DetachAllStep(cells: Cells, regs: seq<Registration>, r: Registration, env: nat)
    ensures var d := DetachAll(cells, regs, env);
      DetachAll(cells, regs + [r], env) == if Alive(d, r.trigger) then Unregister(d, r.trigger.id, env) else d
  {
    var d := DetachAll(cells, regs, env);
    var d' := DetachAll(cells, regs + [r], env);
    var e := if Alive(d, r.trigger) then Unregister(d, r.trigger.id, env) else d;
    forall t | t in cells
      ensures d'[t] == e[t]
    {
      var w := WeakTrigger(t, cells[t].serial);
      if Subscribed(regs, w) {
        SubscribedPrefix(regs, regs + [r], w);
      }
      if r.trigger == w {
        assert (regs + [r])[|regs|].trigger == w;
      }
      if Subscribed(regs + [r], w) && r.trigger != w {
        var i :| 0 <= i < |regs + [r]| && (regs + [r])[i].trigger == w;
        assert i < |regs| && regs[i] == (regs + [r])[i];
      }
      assert Subscribed(regs + [r], w) <==> Subscribed(regs, w) || r.trigger == w;
    }
    assert d' == e;
  }

  /** After deleteObject the environment is registered on no trigger that a
      record still points to, and every other environment keeps its callbacks. */
  lemma DetachAllUnregisters(cells: Cells, regs: seq<Registration>, env: nat)
    ensures forall i :: 0 <= i < |regs| && Alive(cells, regs[i].trigger) ==>
      env !in DetachAll(cells, regs, env)[regs[i].trigger.id].environments
    ensures forall t, e :: t in cells && e != env && e in cells[t].environments ==>
      e in DetachAll(cells, regs, env)[t].environments
      && DetachAll(cells, regs, env)[t].environments[e] == cells[t].environments[e]
  {
  }

  /** A wildcard subscription followed by deleteObject leaves the environment
      registered on no trigger of the group. */
  lemma WildcardThenDeleteLeavesNoTrace(s: Subscriptions, env: nat, nsp: string, grp: string, names: seq<string>, alias: string)
    requires forall n :: n in names ==> TriggerId(nsp, grp, n) in s.cells
    requires NoDuplicates(names)
    ensures var r := SubscribeAll(s, env, nsp, grp, names, alias);
      forall n :: n in names ==> env !in DetachAll(r.cells, r.registered, env)[TriggerId(nsp, grp, n)].environments
  {
    SubscribeAllEffect(s, env, nsp, grp, names, alias);
  }

  /** The triggers of namespace `nsp` removed. */
  function WithoutNamespace(cells: Cells, nsp: string): (r: Cells)
    ensures forall w: WeakTrigger :: w.id.nsp == nsp ==> !Alive(r, w)
    ensures forall t :: t in cells && t.nsp != nsp ==> t in r && r[t] == cells[t]
    ensures forall t :: t in r ==> t in cells && t.nsp != nsp
  {
    map t | t in cells && t.nsp != nsp :: cells[t]
  }

  // ---------------------------------------------------------------------
  // The lifecycle flags.

  /** The activity flag after a call, and whether the call fired local Init. */
  datatype Step = Step(active: bool, firesInit: bool)

  /** initialize: an inactive object becomes active and fires Init when it
      has a script engine; an active one stays as it is. */
  function InitializeStep(active: bool, hasScriptEngine: bool): (r: Step)
    ensures r.active
    ensures r.firesInit <==> !active && hasScriptEngine
  {
    if active then Step(true, false) else Step(true, hasScriptEngine)
  }

  /** update: initializes only an updatable, inactive object. */
  function UpdateStep(active: bool, canUpdate: bool, hasScriptEngine: bool): (r: Step)
    ensures !canUpdate ==> r == Step(active, false)
    ensures r.firesInit <==> canUpdate && !active && hasScriptEngine
    ensures r.active == (active || canUpdate)
  {
    if canUpdate && !active then InitializeStep(active, hasScriptEngine) else Step(active, false)
  }

  /** `n` consecutive updates: the final activity flag and how often Init fired. */
  function UpdateRun(active: bool, canUpdate: bool, hasScriptEngine: bool, n: nat): (bool, nat)
    decreases n
  {
    if n == 0 then (active, 0)
    else
      var step := UpdateStep(active, canUpdate, hasScriptEngine);
      var rest := UpdateRun(step.active, canUpdate, hasScriptEngine, n - 1);
      (rest.0, rest.1 + if step.firesInit then 1 else 0)
  }

  /** Init fires at most once however often the object is updated, and
      exactly once when it starts inactive, can update and has a script. */
  lemma {:induction false} InitFiresAtMostOnce(active: bool, canUpdate: bool, hasScriptEngine: bool, n: nat)
    ensures UpdateRun(active, canUpdate, hasScriptEngine, n).1 <= 1
    ensures UpdateRun(active, canUpdate, hasScriptEngine, n).1 == 1 <==> !active && canUpdate && hasScriptEngine && n > 0
    ensures UpdateRun(active, canUpdate, hasScriptEngine, n).0 == (active || (canUpdate && n > 0))
    decreases n
  {
    if n > 0 {
      var step := UpdateStep(active, canUpdate, hasScriptEngine);
      InitFiresAtMostOnce(step.active, canUpdate, hasScriptEngine, n - 1);
    }
  }

  // ---------------------------------------------------------------------
  // Environment lists.

  /** The list with every occurrence of `e` removed, the rest in order. */
  function Without(s: seq<nat>, e: nat): (r: seq<nat>)
    ensures |r| == |s| - multiset(s)[e]
  {
    if s == [] then []
    else
      assert s == [s[0]] + s[1..];
      (if s[0] == e then [] else [s[0]]) + Without(s[1..], e)
  }

  lemma {:induction false} WithoutConcat(a: seq<nat>, b: seq<nat>, e: nat)
    ensures Without(a + b, e) == Without(a, e) + Without(b, e)
  {
    if a == [] {
      assert a + b == b;
    } else {
      assert (a + b)[0] == a[0] && (a + b)[1..] == a[1..] + b;
      WithoutConcat(a[1..], b, e);
    }
  }

  /** No occurrence of `e` is left and every other entry keeps its count. */
  lemma {:induction false} WithoutRemovesOnly(s: seq<nat>, e: nat)
    ensures e !in Without(s, e)
    ensures forall x :: x != e ==> multiset(Without(s, e))[x] == multiset(s)[x]
    ensures e !in s ==> Without(s, e) == s
  {
    if s != [] {
      WithoutRemovesOnly(s[1..], e);
      assert s == [s[0]] + s[1..];
    }
  }

  /** `GameObject::AllEnvs`, the indices of the environments of all objects. */
  class EnvironmentList {
    var envs: seq<nat>

    constructor ()
      ensures envs == []
    {
      envs := [];
    }

    method Add(e: nat)
      modifies this`envs
      ensures envs == old(envs) + [e]
    {
      envs := envs + [e];
    }

    /** `erase(remove_if(...))`: drops every occurrence of `e`. */
    method RemoveAll(e: nat)
      modifies this`envs
      ensures envs == Without(old(envs), e)
    {
      var kept := [];
      var i := 0;
      while i < |envs|
        invariant envs == old(envs) && 0 <= i <= |envs|
        invariant kept == Without(envs[..i], e)
      {
        assert envs[..i + 1] == envs[..i] + [envs[i]];
        WithoutConcat(envs[..i], [envs[i]], e);
        assert Without([envs[i]], e) == if envs[i] == e then [] else [envs[i]];
        if envs[i] != e {
          kept := kept + [envs[i]];
        }
        i := i + 1;
      }
      assert envs[..i] == envs;
      envs := kept;
    }
  }

  // ---------------------------------------------------------------------

  /** `name` placed among the ascending names of a group, as `std::map`
      orders its keys; a name already present is not added twice. */
  function InsertSorted(s: seq<string>, name: string): (r: seq<string>)
    ensures forall n :: n in r <==> n in s || n == name
    ensures TriggerGroups.Ascending(s) ==> TriggerGroups.Ascending(r)
    ensures TriggerGroups.Ascending(s) && name in s ==> r == s
    decreases |s|
  {
    if s == [] then [name]
    else if TriggerGroups.Below(name, s[0]) then
      var r := [name] + s;
      assert TriggerGroups.Ascending(s) ==> TriggerGroups.Ascending(r) by {
        if TriggerGroups.Ascending(s) {
          forall i, j | 0 <= i < j < |r|
            ensures TriggerGroups.Below(r[i], r[j])
          {
            if i == 0 && j > 1 {
              TriggerGroups.BelowTransitive(name, s[0], s[j - 1]);
            }
          }
        }
      }
      assert TriggerGroups.Ascending(s) ==> name !in s by {
        if TriggerGroups.Ascending(s) && name in s {
          var j :| 0 <= j < |s| && s[j] == name;
          if j > 0 {
            TriggerGroups.BelowTransitive(name, s[0], s[j]);
          }
          TriggerGroups.BelowIrreflexive(name);
        }
      }
      r
    else if name == s[0] then s
    else
      var rest := InsertSorted(s[1..], name);
      var r := [s[0]] + rest;
      assert TriggerGroups.Ascending(s) ==> TriggerGroups.Ascending(r) by {
        if TriggerGroups.Ascending(s) {
          TriggerGroups.BelowTotal(name, s[0]);
          forall i, j | 0 <= i < j < |r|
            ensures TriggerGroups.Below(r[i], r[j])
          {
            if i == 0 {
              assert rest[j - 1] in rest;
            } else {
              assert r[i] == rest[i - 1] && r[j] == rest[j - 1];
            }
          }
        }
      }
      assert s == [s[0]] + s[1..];
      r
  }

  /** Every group lists its names in ascending order, each naming a live trigger. */
  ghost predicate GroupsListed(groups: map<GroupKey, seq<string>>, cells: Cells)
  {
    forall k :: k in groups ==>
      TriggerGroups.Ascending(groups[k])
      && forall n :: n in groups[k] ==> TriggerId(k.nsp, k.group, n) in cells
  }

  /** Every live trigger has a serial below `bound`. */
  ghost predicate SerialsBelow(cells: Cells, bound: nat)
  {
    forall t :: t in cells ==> cells[t].serial < bound
  }

  /** The listing with one more name is the map order of the old names and the new one. */
  lemma InsertSortedIsSortedKeys(listed: seq<string>, name: string)
    requires TriggerGroups.Ascending(listed)
    ensures InsertSorted(listed, name) == TriggerGroups.SortedKeys((set n | n in listed) + {name})
  {
    var names := InsertSorted(listed, name);
    TriggerGroups.AscendingIsSortedKeys(names);
    assert (set n | n in names) == (set n | n in listed) + {name};
  }

  /** Declaring a trigger keeps every group listing ascending and live. */
  lemma GroupsListedAfterAdd(groups: map<GroupKey, seq<string>>, cells: Cells, cells': Cells, k: GroupKey, name: string)
    requires GroupsListed(groups, cells)
    requires cells.Keys <= cells'.Keys && TriggerId(k.nsp, k.group, name) in cells'
    ensures var listed := if k in groups then groups[k] else [];
      GroupsListed(groups[k := InsertSorted(listed, name)], cells')
  {
    var listed := if k in groups then groups[k] else [];
    var g' := groups[k := InsertSorted(listed, name)];
    forall g | g in g'
      ensures TriggerGroups.Ascending(g'[g])
      ensures forall n :: n in g'[g] ==> TriggerId(g.nsp, g.group, n) in cells'
    {
      if g != k {
        assert g'[g] == groups[g];
      }
    }
  }

  /** The trigger database as the game object sees it: the trigger names of
      each group, in ascending order as each group's map lists them, and the
      live triggers. */
  class TriggerDatabase {
    var groups: map<GroupKey, seq<string>>
    var cells: Cells
    var nextSerial: nat

    ghost predicate Valid()
      reads this
    {
      GroupsListed(groups, cells) && SerialsBelow(cells, nextSerial)
    }

    constructor ()
      ensures Valid() && groups == map[] && cells == map[]
    {
      groups := map[];
      cells := map[];
      nextSerial := 0;
    }

    /** Declares a trigger, creating its group when needed; an existing
        trigger is left as it is. A group lists its names in ascending order,
        as the group's `std::map` iterates them. */
    method AddTrigger(nsp: string, grp: string, name: string)
      requires Valid()
      modifies this
      ensures Valid()
      ensures var listed := if GroupKey(nsp, grp) in old(groups) then old(groups)[GroupKey(nsp, grp)] else [];
        groups == old(groups)[GroupKey(nsp, grp) := InsertSorted(listed, name)]
        && groups[GroupKey(nsp, grp)] == TriggerGroups.SortedKeys((set n | n in listed) + {name})
        && (name in listed ==> groups == old(groups))
      ensures TriggerId(nsp, grp, name) in old(cells) ==> cells == old(cells) && nextSerial == old(nextSerial)
      ensures TriggerId(nsp, grp, name) !in old(cells) ==>
        cells == old(cells)[TriggerId(nsp, grp, name) := TriggerCell(old(nextSerial), map[])]
        && nextSerial == old(nextSerial) + 1
      ensures forall w: WeakTrigger :: w.serial < old(nextSerial) && !Alive(old(cells), w) ==> !Alive(cells, w)
    {
      var k := GroupKey(nsp, grp);
      var listed := if k in groups then groups[k] else [];
      InsertSortedIsSortedKeys(listed, name);
      var t := TriggerId(nsp, grp, name);
      if t !in cells {
        cells := cells[t := TriggerCell(nextSerial, map[])];
        nextSerial := nextSerial + 1;
      }
      GroupsListedAfterAdd(groups, old(cells), cells, k, name);
      groups := groups[k := InsertSorted(listed, name)];
    }

    /** A weak handle to a live trigger; unknown triggers raise TriggerNotFound. */
    function GetTrigger(id: TriggerId): (r: Result<WeakTrigger, Error>)
      reads this
      ensures r.Ok? <==> id in cells
      ensures r.Ok? ==> r.value.id == id && Alive(cells, r.value)
      ensures r.Err? ==> r.error == TriggerNotFound(id)
    {
      if id in cells then Ok(WeakTrigger(id, cells[id].serial)) else Err(TriggerNotFound(id))
    }

    function GetAllTriggersNameFromTriggerGroup(nsp: string, grp: string): (r: Result<seq<string>, Error>)
      reads this
      requires Valid()
      ensures r.Ok? <==> GroupKey(nsp, grp) in groups
      ensures r.Ok? ==> (r.value == groups[GroupKey(nsp, grp)]
        && TriggerGroups.Ascending(r.value) && NoDuplicates(r.value)
        && forall n :: n in r.value ==> TriggerId(nsp, grp, n) in cells)
      ensures r.Err? ==> r.error == TriggerGroupNotFound(nsp, grp)
    {
      var k := GroupKey(nsp, grp);
      if k in groups then AscendingNoDuplicates(groups[k]); Ok(groups[k])
      else Err(TriggerGroupNotFound(nsp, grp))
    }

    /** `Trigger::registerEnvironment`: the environment's callback is set, replacing an earlier one. */
    method RegisterEnvironment(id: TriggerId, env: nat, callback: string)
      requires id in cells
      modifies this`cells
      ensures cells == Register(old(cells), id, env, callback)
    {
      cells := Register(cells, id, env, callback);
    }

    /** `Trigger::unregisterEnvironment`: removes the environment if present. */
    method UnregisterEnvironment(id: TriggerId, env: nat)
      requires id in cells
      modifies this`cells
      ensures cells == Unregister(old(cells), id, env)
    {
      cells := Unregister(cells, id, env);
    }

    /** Drops every group and trigger of a namespace; weak handles to them expire. */
    method RemoveNamespace(nsp: string)
      requires Valid()
      modifies this`groups, this`cells
      ensures Valid()
      ensures groups == map k | k in old(groups) && k.nsp != nsp :: old(groups)[k]
      ensures cells == WithoutNamespace(old(cells), nsp)
    {
      groups := map k | k in groups && k.nsp != nsp :: groups[k];
      cells := WithoutNamespace(cells, nsp);
    }
  }

  // ---------------------------------------------------------------------

  class GameObject {
    const objectType: string
    const id: string
    var active: bool
    var canUpdate: bool
    var deletable: bool
    var permanent: bool
    var hasScriptEngine: bool
    var privateKey: string
    var envIndex: nat
    /** The object's "Local" group, holding its Init and Delete triggers. */
    var localTriggers: TriggerGroups.TriggerGroup?
    var registeredTriggers: seq<Registration>

    ghost predicate Valid()
      reads this, localTriggers
    {
      (hasScriptEngine <==> localTriggers != null)
      && (localTriggers != null ==> "Init" in localTriggers.triggerMap && "Delete" in localTriggers.triggerMap)
    }

    constructor (objectType: string, id: string)
      ensures Valid()
      ensures this.objectType == objectType && this.id == id
      ensures !active && canUpdate && !deletable && !permanent && !hasScriptEngine
      ensures localTriggers == null && registeredTriggers == []
    {
      this.objectType := objectType;
      this.id := id;
      active := false;
      canUpdate := true;
      deletable := false;
      permanent := false;
      hasScriptEngine := false;
      privateKey := "";
      envIndex := 0;
      localTriggers := null;
      registeredTriggers := [];
    }

    /** The bookkeeping of loading a Script section: the private key and the
        environment index (both produced elsewhere) are recorded, the Local
        group with Init and Delete is created, and the environment is listed. */
    method LoadScript(key: string, env: nat, all: EnvironmentList)
      modifies this`hasScriptEngine, this`privateKey, this`localTriggers, this`envIndex, all`envs
      ensures Valid()
      ensures hasScriptEngine && privateKey == key && envIndex == env
      ensures fresh(localTriggers)
      ensures localTriggers.fromNsp == key && localTriggers.name == "Local"
      ensures localTriggers.triggerMap == map["Init" := TriggerGroups.NewTrigger, "Delete" := TriggerGroups.NewTrigger]
      ensures all.envs == old(all.envs) + [env]
      ensures active == old(active) && registeredTriggers == old(registeredTriggers)
    {
      hasScriptEngine := true;
      privateKey := key;
      var group := new TriggerGroups.TriggerGroup(key, "Local");
      localTriggers := group;
      envIndex := env;
      all.Add(env);
      var chained := group.AddTrigger("Init");
      chained := chained.AddTrigger("Delete");
    }

    method Initialize()
      requires Valid()
      modifies this`active, (if localTriggers != null then {localTriggers} else {})`triggerMap
      ensures Valid()
      ensures active == InitializeStep(old(active), hasScriptEngine).active
      ensures InitializeStep(old(active), hasScriptEngine).firesInit ==>
        localTriggers.triggerMap == old(localTriggers.triggerMap)["Init" := old(localTriggers.triggerMap)["Init"].(active := true)]
      ensures !InitializeStep(old(active), hasScriptEngine).firesInit && localTriggers != null ==>
        localTriggers.triggerMap == old(localTriggers.triggerMap)
    {
      if !active {
        active := true;
        if hasScriptEngine {
          var _ := localTriggers.Trigger("Init");
        }
      }
    }

    method Update()
      requires Valid()
      modifies this`active, (if localTriggers != null then {localTriggers} else {})`triggerMap
      ensures Valid()
      ensures active == UpdateStep(old(active), canUpdate, hasScriptEngine).active
      ensures UpdateStep(old(active), canUpdate, hasScriptEngine).firesInit ==>
        localTriggers.triggerMap == old(localTriggers.triggerMap)["Init" := old(localTriggers.triggerMap)["Init"].(active := true)]
      ensures !UpdateStep(old(active), canUpdate, hasScriptEngine).firesInit && localTriggers != null ==>
        localTriggers.triggerMap == old(localTriggers.triggerMap)
    {
      if canUpdate {
        if !active {
          Initialize();
        }
      }
    }

    /** Whether some record points to `w` (the loop of useTrigger). */
    method IsRegistered(w: WeakTrigger) returns (found: bool)
      ensures found == Subscribed(registeredTriggers, w)
    {
      found := false;
      var i := 0;
      while i < |registeredTriggers|
        invariant 0 <= i <= |registeredTriggers|
        invariant found == Subscribed(registeredTriggers[..i], w)
      {
        assert registeredTriggers[..i + 1] == registeredTriggers[..i] + [registeredTriggers[i]];
        if registeredTriggers[i].trigger == w {
          found := true;
          assert registeredTriggers[..i + 1][i].trigger == w;
        } else if found {
          SubscribedPrefix(registeredTriggers[..i], registeredTriggers[..i + 1], w);
        }
        i := i + 1;
      }
      assert registeredTriggers[..i] == registeredTriggers;
    }

    method RegisterTrigger(trigger: WeakTrigger, callbackName: string)
      modifies this`registeredTriggers
      ensures registeredTriggers == old(registeredTriggers) + [Registration(trigger, callbackName)]
    {
      registeredTriggers := registeredTriggers + [Registration(trigger, callbackName)];
    }

    /** The non-wildcard branch of useTrigger. */
    method SubscribeOne(db: TriggerDatabase, t: TriggerId, callAlias: string) returns (o: Outcome<Error>)
      requires db.Valid()
      modifies this`registeredTriggers, db`cells
      ensures db.Valid() && db.cells.Keys == old(db.cells).Keys
      ensures t !in old(db.cells) ==> (o == Fail(TriggerNotFound(t))
        && registeredTriggers == old(registeredTriggers) && db.cells == old(db.cells))
      ensures t in old(db.cells) ==> (o == Pass
        && Subscriptions(registeredTriggers, db.cells) == Subscribe(Subscriptions(old(registeredTriggers), old(db.cells)), envIndex, t, callAlias))
    {
      var current := db.GetTrigger(t);
      if current.Err? {
        return Fail(current.error);
      }
      var found := IsRegistered(current.value);
      var callbackName := CallbackName(t.nsp, t.group, t.name, callAlias);
      if !found {
        RegisterTrigger(current.value, callbackName);
        db.RegisterEnvironment(t, envIndex, callbackName);
      } else {
        db.UnregisterEnvironment(t, envIndex);
        db.RegisterEnvironment(t, envIndex, callbackName);
      }
      o := Pass;
    }

    /** The wildcard loop of useTrigger: each listed trigger subscribed
        directly, in order, under its substituted alias. */
    method SubscribeEach(db: TriggerDatabase, trNsp: string, trGrp: string, names: seq<string>, callAlias: string)
      requires db.Valid()
      requires forall n :: n in names ==> TriggerId(trNsp, trGrp, n) in db.cells
      modifies this`registeredTriggers, db`cells
      ensures db.Valid() && db.cells.Keys == old(db.cells).Keys
      ensures Subscriptions(registeredTriggers, db.cells)
        == SubscribeAll(Subscriptions(old(registeredTriggers), old(db.cells)), envIndex, trNsp, trGrp, names, callAlias)
    {
      ghost var goal := SubscribeAll(Subscriptions(registeredTriggers, db.cells), envIndex, trNsp, trGrp, names, callAlias);
      var i := 0;
      while i < |names|
        invariant 0 <= i <= |names|
        invariant db.Valid() && db.cells.Keys == old(db.cells).Keys
        invariant forall n :: n in names[i..] ==> TriggerId(trNsp, trGrp, n) in db.cells
        invariant SubscribeAll(Subscriptions(registeredTriggers, db.cells), envIndex, trNsp, trGrp, names[i..], callAlias) == goal
      {
        ghost var before := Subscriptions(registeredTriggers, db.cells);
        assert names[i..][1..] == names[i + 1..];
        assert names[i..][0] == names[i];
        var _ := SubscribeOne(db, TriggerId(trNsp, trGrp, names[i]), WildcardAlias(callAlias, names[i]));
        assert Subscriptions(registeredTriggers, db.cells)
          == Subscribe(before, envIndex, TriggerId(trNsp, trGrp, names[i]), WildcardAlias(callAlias, names[i]));
        i := i + 1;
      }
      assert names[i..] == [];
    }

    /** Subscribes the object's environment to a trigger, or with name "*" to
        every trigger of the group in the database's order, each under its
        own substituted alias. */
    method UseTrigger(db: TriggerDatabase, trNsp: string, trGrp: string, trName: string, callAlias: string)
      returns (o: Outcome<Error>)
      requires db.Valid()
      modifies this`registeredTriggers, db`cells
      ensures db.Valid() && db.cells.Keys == old(db.cells).Keys
      ensures trName == "*" && GroupKey(trNsp, trGrp) !in old(db.groups) ==>
        o == Fail(TriggerGroupNotFound(trNsp, trGrp))
        && registeredTriggers == old(registeredTriggers) && db.cells == old(db.cells)
      ensures trName == "*" && GroupKey(trNsp, trGrp) in old(db.groups) ==>
        o == Pass
        && Subscriptions(registeredTriggers, db.cells)
           == SubscribeAll(Subscriptions(old(registeredTriggers), old(db.cells)), envIndex, trNsp, trGrp,
                           old(db.groups)[GroupKey(trNsp, trGrp)], callAlias)
      ensures trName != "*" && TriggerId(trNsp, trGrp, trName) !in old(db.cells) ==>
        o == Fail(TriggerNotFound(TriggerId(trNsp, trGrp, trName)))
        && registeredTriggers == old(registeredTriggers) && db.cells == old(db.cells)
      ensures trName != "*" && TriggerId(trNsp, trGrp, trName) in old(db.cells) ==>
        o == Pass
        && Subscriptions(registeredTriggers, db.cells)
           == Subscribe(Subscriptions(old(registeredTriggers), old(db.cells)), envIndex,
                        TriggerId(trNsp, trGrp, trName), callAlias)
    {
      if trName == "*" {
        var listing := db.GetAllTriggersNameFromTriggerGroup(trNsp, trGrp);
        if listing.Err? {
          return Fail(listing.error);
        }
        SubscribeEach(db, trNsp, trGrp, listing.value, callAlias);
        o := Pass;
      } else {
        o := SubscribeOne(db, TriggerId(trNsp, trGrp, trName), callAlias);
      }
    }

    /** Unregisters the environment from a trigger; the record stays. */
    method RemoveTrigger(db: TriggerDatabase, trNsp: string, trGrp: string, trName: string) returns (o: Outcome<Error>)
      modifies db`cells
      ensures TriggerId(trNsp, trGrp, trName) !in old(db.cells) ==>
        o == Fail(TriggerNotFound(TriggerId(trNsp, trGrp, trName))) && db.cells == old(db.cells)
      ensures TriggerId(trNsp, trGrp, trName) in old(db.cells) ==>
        o == Pass && db.cells == Unregister(old(db.cells), TriggerId(trNsp, trGrp, trName), envIndex)
    {
      var t := TriggerId(trNsp, trGrp, trName);
      if t !in db.cells {
        return Fail(TriggerNotFound(t));
      }
      db.UnregisterEnvironment(t, envIndex);
      o := Pass;
    }

    /** Fires local Delete, marks the object deletable and inactive, and
        unregisters its environment from every trigger still alive. Without a
        local group the source dereferences a null pointer; here that is Fail
        and nothing changes. */
    method DeleteObject(db: TriggerDatabase) returns (o: Outcome<Error>)
      requires Valid() && db.Valid()
      modifies this`deletable, this`active, (if localTriggers != null then {localTriggers} else {})`triggerMap, db`cells
      ensures Valid() && db.Valid() && db.cells.Keys == old(db.cells).Keys
      ensures o.Fail? <==> localTriggers == null
      ensures o.Fail? ==> (o.error == NoLocalTriggers
        && active == old(active) && deletable == old(deletable) && db.cells == old(db.cells))
      ensures o.Pass? ==> (deletable && !active
        && localTriggers.triggerMap == old(localTriggers.triggerMap)["Delete" := old(localTriggers.triggerMap)["Delete"].(active := true)]
        && db.cells == DetachAll(old(db.cells), registeredTriggers, envIndex))
    {
      if localTriggers == null {
        return Fail(NoLocalTriggers);
      }
      var _ := localTriggers.Trigger("Delete");
      assert localTriggers.triggerMap == old(localTriggers.triggerMap)["Delete" := old(localTriggers.triggerMap)["Delete"].(active := true)];
      deletable := true;
      active := false;
      DetachFromAll(db);
      o := Pass;
    }

    /** The unregistering loop of deleteObject: expired records are skipped. */
    method DetachFromAll(db: TriggerDatabase)
      requires db.Valid()
      modifies db`cells
      ensures db.Valid() && db.cells == DetachAll(old(db.cells), registeredTriggers, envIndex)
    {
      var i := 0;
      while i < |registeredTriggers|
        invariant 0 <= i <= |registeredTriggers|
        invariant db.cells == DetachAll(old(db.cells), registeredTriggers[..i], envIndex)
      {
        assert registeredTriggers[..i + 1] == registeredTriggers[..i] + [registeredTriggers[i]];
        DetachAllStep(old(db.cells), registeredTriggers[..i], registeredTriggers[i], envIndex);
        var w := registeredTriggers[i].trigger;
        if w.id in db.cells && db.cells[w.id].serial == w.serial {
          db.UnregisterEnvironment(w.id, envIndex);
        }
        i := i + 1;
      }
      assert registeredTriggers[..i] == registeredTriggers;
    }

    /** The destructor: deleteObject, then the environment leaves the global
        list, and an object with a script engine drops its namespace. */
    method Destroy(db: TriggerDatabase, all: EnvironmentList) returns (o: Outcome<Error>)
      requires Valid() && db.Valid()
      modifies this`localTriggers, this`deletable, this`active, (if localTriggers != null then {localTriggers} else {})`triggerMap, db`groups, db`cells, all`envs
      ensures db.Valid()
      ensures o.Fail? <==> old(localTriggers) == null
      ensures o.Fail? ==> (db.cells == old(db.cells) && db.groups == old(db.groups) && all.envs == old(all.envs)
        && active == old(active) && deletable == old(deletable))
      ensures o.Pass? ==> deletable && !active && all.envs == Without(old(all.envs), old(envIndex))
      ensures o.Pass? && old(hasScriptEngine) ==> (localTriggers == null
        && db.cells == WithoutNamespace(DetachAll(old(db.cells), old(registeredTriggers), old(envIndex)), old(privateKey))
        && db.groups == map k | k in old(db.groups) && k.nsp != old(privateKey) :: old(db.groups)[k])
      ensures o.Pass? && !old(hasScriptEngine) ==> (localTriggers == old(localTriggers)
        && db.cells == DetachAll(old(db.cells), old(registeredTriggers), old(envIndex))
        && db.groups == old(db.groups))
    {
      o := DeleteObject(db);
      if o.Fail? {
        return;
      }
      all.RemoveAll(envIndex);
      if hasScriptEngine {
        localTriggers := null;
        db.RemoveNamespace(privateKey);
      }
    }

    function GetEnvIndex(): (e: nat)
      reads this
      ensures e == envIndex
    {
      envIndex
    }

    function GetType(): (t: string)
      ensures t == objectType
    {
      objectType
    }

    function DoesHaveScriptEngine(): (b: bool)
      reads this
      ensures b == hasScriptEngine
    {
      hasScriptEngine
    }

    function GetUpdateState(): (b: bool)
      reads this
      ensures b == canUpdate
    {
      canUpdate
    }

    function IsPermanent(): (b: bool)
      reads this
      ensures b == permanent
    {
      permanent
    }

    method SetUpdateState(state: bool)
      modifies this`canUpdate
      ensures GetUpdateState() == state
    {
      canUpdate := state;
    }

    method SetPermanent(permanent: bool)
      modifies this`permanent
      ensures IsPermanent() == permanent
    {
      this.permanent := permanent;
    }

    /** Sets the activity flag directly. */
    method SetState(state: bool)
      modifies this`active
      ensures active == state
    {
      active := state;
    }
  }
}
