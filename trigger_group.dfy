/** A trigger group (include/Triggers/TriggerGroup.hpp): a named collection of
    triggers inside a namespace, its delayed activations, its joinable flag and
    the reference count kept by the TriggerGroupPtr handles that point to it. */
module TriggerGroups {
  import opened Wrappers

  /** A parameter value handed to the scripts of the listening environments. */
  datatype Value = Boolean(b: bool) | Number(n: int) | Text(s: string) | Handle(h: nat)

  /** What the group knows about one of its triggers: whether it is enabled,
      whether it stays enabled, the parameters pushed to it, and the callback
      name registered by each listening environment (by environment index). */
  datatype TriggerRecord = TriggerRecord(
    active: bool,
    permanent: bool,
    parameters: map<string, Value>,
    environments: map<nat, string>)

  /** A trigger as `addTrigger` creates it. */
  const NewTrigger := TriggerRecord(false, false, map[], map[])

  /** A delayed activation: the trigger it will enable and the delay in milliseconds. */
  datatype TriggerDelay = TriggerDelay(target: string, delay: nat)

  /** The failure raised when a trigger name is not in the group; it carries
      the namespace, the group and the trigger name. */
  datatype Error = TriggerNotFound(nsp: string, group: string, trigger: string)

  /** `m_references` is an `unsigned int`: counting is modulo 2^32. */
  const UIntModulus: nat := 0x1_0000_0000

  function Increment(n: nat): (r: nat)
    requires n < UIntModulus
    ensures r < UIntModulus
    ensures r == (n + 1) % UIntModulus
  {
    if n == UIntModulus - 1 then 0 else n + 1
  }

  function Decrement(n: nat): (r: nat)
    requires n < UIntModulus
    ensures r < UIntModulus
    ensures (r + 1) % UIntModulus == n
  {
    if n == 0 then UIntModulus - 1 else n - 1
  }

  /** Releasing a handle undoes acquiring it, whatever the count was, and the
      other way round. */
  lemma ReleaseUndoesAcquire(n: nat)
    requires n < UIntModulus
    ensures Decrement(Increment(n)) == n
    ensures Increment(Decrement(n)) == n
  {
  }

  /** With counted copies, any number of handles acquired and then released
      leaves the count where it was. */
  lemma {:induction false} CountedCopiesBalance(n: nat, copies: nat)
    requires n < UIntModulus
    ensures ReleaseTimes(AcquireTimes(n, copies), copies) == n
    decreases copies
  {
    if copies > 0 {
      CountedCopiesBalance(n, copies - 1);
      AcquireTimesLast(n, copies - 1);
      ReleaseUndoesAcquire(AcquireTimes(n, copies - 1));
      assert ReleaseTimes(AcquireTimes(n, copies), copies)
        == ReleaseTimes(Decrement(AcquireTimes(n, copies)), copies - 1);
    }
  }

  function AcquireTimes(n: nat, k: nat): (r: nat)
    requires n < UIntModulus
    ensures r < UIntModulus
    decreases k
  {
    if k == 0 then n else AcquireTimes(Increment(n), k - 1)
  }

  function ReleaseTimes(n: nat, k: nat): (r: nat)
    requires n < UIntModulus
    ensures r < UIntModulus
    decreases k
  {
    if k == 0 then n else ReleaseTimes(Decrement(n), k - 1)
  }

  lemma {:induction false} AcquireTimesLast(n: nat, k: nat)
    requires n < UIntModulus
    ensures AcquireTimes(n, k + 1) == Increment(AcquireTimes(n, k))
    ensures AcquireTimes(n, k + 1) == AcquireTimes(Increment(n), k)
    decreases k
  {
    if k > 0 {
      AcquireTimesLast(Increment(n), k - 1);
    }
  }

  // ---------------------------------------------------------------------
  // The order of `std::map<std::string, ...>`: lexicographic on characters.

  /** `a < b` for `std::string`: the first differing character decides, and a
      proper prefix comes first. */
  predicate Below(a: string, b: string)
  {
    if |a| == 0 then |b| > 0
    else if |b| == 0 then false
    else if a[0] != b[0] then a[0] < b[0]
    else Below(a[1..], b[1..])
  }

  lemma {:induction false} BelowIrreflexive(a: string)
    ensures !Below(a, a)
  {
    if |a| > 0 {
      BelowIrreflexive(a[1..]);
    }
  }

  lemma {:induction false} BelowTransitive(a: string, b: string, c: string)
    requires Below(a, b) && Below(b, c)
    ensures Below(a, c)
  {
    if |a| > 0 && |b| > 0 && |c| > 0 && a[0] == b[0] && b[0] == c[0] {
      BelowTransitive(a[1..], b[1..], c[1..]);
    }
  }

  lemma {:induction false} BelowTotal(a: string, b: string)
    requires a != b
    ensures Below(a, b) || Below(b, a)
  {
    if |a| > 0 && |b| > 0 && a[0] == b[0] {
      assert a == [a[0]] + a[1..] && b == [b[0]] + b[1..];
      BelowTotal(a[1..], b[1..]);
    }
  }

  predicate Ascending(s: seq<string>)
  {
    forall i, j :: 0 <= i < j < |s| ==> Below(s[i], s[j])
  }

  /** `m` is the first key of `keys` in map order. */
  predicate IsLeast(m: string, keys: set<string>)
  {
    m in keys && forall k :: k in keys ==> k == m || Below(m, k)
  }

  lemma {:induction false} LeastExists(keys: set<string>)
    requires keys != {}
    ensures exists m :: IsLeast(m, keys)
    decreases keys
  {
    var x :| x in keys;
    if keys == {x} {
      assert IsLeast(x, keys);
    } else {
      LeastExists(keys - {x});
      var y :| IsLeast(y, keys - {x});
      if Below(x, y) {
        forall k | k in keys && k != x
          ensures Below(x, k)
        {
          if k != y {
            BelowTransitive(x, y, k);
          }
        }
        assert IsLeast(x, keys);
      } else {
        BelowTotal(x, y);
        assert IsLeast(y, keys);
      }
    }
  }

  lemma LeastUnique(m: string, m': string, keys: set<string>)
    requires IsLeast(m, keys) && IsLeast(m', keys)
    ensures m == m'
  {
    if m != m' {
      BelowTransitive(m, m', m);
      BelowIrreflexive(m);
    }
  }

  /** The keys of a map in the order in which `std::map` iterates them. */
  ghost function SortedKeys(keys: set<string>): seq<string>
    decreases keys
  {
    if keys == {} then []
    else
      LeastExists(keys);
      var m :| IsLeast(m, keys);
      [m] + SortedKeys(keys - {m})
  }

  lemma SortedKeysUnfold(keys: set<string>, m: string)
    requires IsLeast(m, keys)
    ensures SortedKeys(keys) == [m] + SortedKeys(keys - {m})
  {
    LeastExists(keys);
    var m' :| IsLeast(m', keys) && SortedKeys(keys) == [m'] + SortedKeys(keys - {m'});
    LeastUnique(m, m', keys);
  }

  /** The listing holds every key exactly once, in ascending order. */
  lemma {:induction false} SortedKeysListsKeys(keys: set<string>)
    ensures forall k :: k in SortedKeys(keys) <==> k in keys
    ensures Ascending(SortedKeys(keys))
    ensures |SortedKeys(keys)| == |keys|
    decreases keys
  {
    if keys != {} {
      LeastExists(keys);
      var m :| IsLeast(m, keys);
      SortedKeysUnfold(keys, m);
      SortedKeysListsKeys(keys - {m});
      var rest := SortedKeys(keys - {m});
      assert SortedKeys(keys) == [m] + rest;
      forall i, j | 0 <= i < j < |[m] + rest|
        ensures Below(([m] + rest)[i], ([m] + rest)[j])
      {
        if i == 0 {
          assert rest[j - 1] in keys - {m};
        } else {
          assert ([m] + rest)[i] == rest[i - 1] && ([m] + rest)[j] == rest[j - 1];
        }
      }
    }
  }

  /** A strictly ascending listing is the map order of its own elements. */
  lemma {:induction false} AscendingIsSortedKeys(s: seq<string>)
    requires Ascending(s)
    ensures s == SortedKeys(set n | n in s)
    decreases |s|
  {
    var keys := set n | n in s;
    if s != [] {
      forall k | k in keys
        ensures k == s[0] || Below(s[0], k)
      {
        var i :| 0 <= i < |s| && s[i] == k;
        assert i == 0 || Below(s[0], s[i]);
      }
      assert IsLeast(s[0], keys);
      SortedKeysUnfold(keys, s[0]);
      assert s[0] !in s[1..] by {
        forall j | 0 <= j < |s[1..]|
          ensures s[1..][j] != s[0]
        {
          assert Below(s[0], s[j + 1]);
          BelowIrreflexive(s[0]);
        }
      }
      assert keys - {s[0]} == set n | n in s[1..] by {
        assert s == [s[0]] + s[1..];
      }
      AscendingIsSortedKeys(s[1..]);
    }
  }

  // ---------------------------------------------------------------------

  class TriggerGroup {
    /** `m_name` and `m_fromNsp`: fixed by the constructor. */
    const name: string
    const fromNsp: string
    /** `m_triggerMap`: keyed by trigger name, so at most one trigger per name. */
    var triggerMap: map<string, TriggerRecord>
    /** `m_delayedTriggers`. */
    var delayedTriggers: seq<TriggerDelay>
    /** `m_joinable`. */
    var joinable: bool
    /** `m_references`, maintained by TriggerGroupPtr. */
    var references: nat

    ghost predicate Valid()
      reads this
    {
      references < UIntModulus
    }

    constructor (triggerGroupNamespace: string, triggerGroupName: string)
      ensures Valid()
      ensures fromNsp == triggerGroupNamespace && name == triggerGroupName
      ensures triggerMap == map[] && delayedTriggers == []
      ensures !joinable && references == 0
    {
      fromNsp := triggerGroupNamespace;
      name := triggerGroupName;
      triggerMap := map[];
      delayedTriggers := [];
      joinable := false;
      references := 0;
    }

    function GetNamespace(): (nsp: string)
      ensures nsp == fromNsp
    {
      fromNsp
    }

    function GetName(): (n: string)
      ensures n == name
    {
      name
    }

    method SetJoinable(j: bool)
      modifies this`joinable
      ensures IsJoinable() == j
    {
      joinable := j;
    }

    function IsJoinable(): (j: bool)
      reads this
      ensures j == joinable
    {
      joinable
    }

    /** The trigger stored under `triggerName`; unknown names raise TriggerNotFound. */
    function GetTrigger(triggerName: string): (r: Result<TriggerRecord, Error>)
      reads this
      ensures r.Ok? <==> triggerName in triggerMap
      ensures r.Ok? ==> r.value == triggerMap[triggerName]
      ensures r.Err? ==> r.error == TriggerNotFound(fromNsp, name, triggerName)
    {
      if triggerName in triggerMap then Ok(triggerMap[triggerName])
      else Err(TriggerNotFound(fromNsp, name, triggerName))
    }

    /** Chainable: creates the trigger when the name is new and leaves an
        existing trigger untouched. */
    method AddTrigger(triggerName: string) returns (g: TriggerGroup)
      modifies this`triggerMap
      ensures g == this
      ensures triggerName in triggerMap
      ensures triggerMap == if triggerName in old(triggerMap) then old(triggerMap)
                            else old(triggerMap)[triggerName := NewTrigger]
    {
      if triggerName !in triggerMap {
        triggerMap := triggerMap[triggerName := NewTrigger];
      }
      g := this;
    }

    /** Chainable: queues a delayed activation of a known trigger. */
    method DelayTriggerState(triggerName: string, delay: nat) returns (r: Result<TriggerGroup, Error>)
      modifies this`delayedTriggers
      ensures r.Ok? <==> triggerName in triggerMap
      ensures r.Ok? ==> r.value == this && delayedTriggers == old(delayedTriggers) + [TriggerDelay(triggerName, delay)]
      ensures r.Err? ==> r.error == TriggerNotFound(fromNsp, name, triggerName) && delayedTriggers == old(delayedTriggers)
    {
      var t := GetTrigger(triggerName);
      if t.Err? {
        return Err(t.error);
      }
      delayedTriggers := delayedTriggers + [TriggerDelay(triggerName, delay)];
      r := Ok(this);
    }

    /** Chainable: enables a known trigger; no other trigger changes. */
    method Trigger(triggerName: string) returns (r: Result<TriggerGroup, Error>)
      modifies this`triggerMap
      ensures r.Ok? <==> triggerName in old(triggerMap)
      ensures r.Ok? ==> r.value == this
      ensures r.Err? ==> r.error == TriggerNotFound(fromNsp, name, triggerName)
      ensures triggerMap.Keys == old(triggerMap).Keys
      ensures triggerName in triggerMap ==> triggerMap[triggerName] == old(triggerMap)[triggerName].(active := true)
      ensures forall n :: n in triggerMap && n != triggerName ==> triggerMap[n] == old(triggerMap)[n]
    {
      var t := GetTrigger(triggerName);
      if t.Err? {
        return Err(t.error);
      }
      triggerMap := triggerMap[triggerName := t.value.(active := true)];
      r := Ok(this);
    }

    function GetState(triggerName: string): (r: Result<bool, Error>)
      reads this
      ensures r.Ok? <==> triggerName in triggerMap
      ensures r.Ok? ==> r.value == triggerMap[triggerName].active
    {
      match GetTrigger(triggerName)
      case Ok(t) => Ok(t.active)
      case Err(e) => Err(e)
    }

    /** Chainable: sets whether a known trigger stays enabled. */
    method SetPermanent(triggerName: string, permanent: bool) returns (r: Result<TriggerGroup, Error>)
      modifies this`triggerMap
      ensures r.Ok? <==> triggerName in old(triggerMap)
      ensures r.Ok? ==> r.value == this
      ensures r.Err? ==> r.error == TriggerNotFound(fromNsp, name, triggerName)
      ensures triggerMap.Keys == old(triggerMap).Keys
      ensures triggerName in triggerMap ==> triggerMap[triggerName] == old(triggerMap)[triggerName].(permanent := permanent)
      ensures forall n :: n in triggerMap && n != triggerName ==> triggerMap[n] == old(triggerMap)[n]
    {
      var t := GetTrigger(triggerName);
      if t.Err? {
        return Err(t.error);
      }
      triggerMap := triggerMap[triggerName := t.value.(permanent := permanent)];
      r := Ok(this);
    }

    /** Forwards to the named trigger, overwriting a parameter of the same name;
        fails exactly when GetTrigger fails, and then changes nothing. */
    method PushParameter(triggerName: string, parameterName: string, parameter: Value) returns (o: Outcome<Error>)
      modifies this`triggerMap
      ensures o.Pass? <==> old(GetTrigger(triggerName)).Ok?
      ensures o.Fail? ==> o.error == old(GetTrigger(triggerName)).error && triggerMap == old(triggerMap)
      ensures o.Pass? ==> triggerMap == old(triggerMap)[triggerName :=
                old(triggerMap)[triggerName].(parameters := old(triggerMap)[triggerName].parameters[parameterName := parameter])]
    {
      var t := GetTrigger(triggerName);
      if t.Err? {
        return Fail(t.error);
      }
      triggerMap := triggerMap[triggerName := t.value.(parameters := t.value.parameters[parameterName := parameter])];
      o := Pass;
    }

    /** The names of all triggers, in the map's (ascending) order. */
    method GetAllTriggersName() returns (names: seq<string>)
      ensures names == SortedKeys(triggerMap.Keys)
      ensures forall n :: n in names <==> n in triggerMap
      ensures Ascending(names) && |names| == |triggerMap|
    {
      names := [];
      var rest := triggerMap.Keys;
      while rest != {}
        invariant rest <= triggerMap.Keys
        invariant names + SortedKeys(rest) == SortedKeys(triggerMap.Keys)
        decreases rest
      {
        LeastExists(rest);
        var m :| IsLeast(m, rest);
        SortedKeysUnfold(rest, m);
        names := names + [m];
        rest := rest - {m};
      }
      SortedKeysListsKeys(triggerMap.Keys);
    }

    /** One trigger per stored name, in the same order as GetAllTriggersName. */
    method GetAllTriggers() returns (all: seq<TriggerRecord>)
      ensures |all| == |triggerMap|
      ensures var ks := SortedKeys(triggerMap.Keys);
        |ks| == |all| && forall i :: 0 <= i < |all| ==> ks[i] in triggerMap && all[i] == triggerMap[ks[i]]
    {
      var names := GetAllTriggersName();
      assert forall i :: 0 <= i < |names| ==> names[i] in names;
      all := seq(|names|, i requires 0 <= i < |names| && names[i] in triggerMap reads this => triggerMap[names[i]]);
    }
  }

  /** A counted handle to a trigger group. */
  class TriggerGroupPtr {
    /** `m_link`; null when the handle points nowhere. */
    var link: TriggerGroup?

    /** Links to `target` and counts itself as one more holder of it; only
        the target's count changes. */
    constructor (target: TriggerGroup?)
      requires target != null ==> target.Valid()
      modifies (if target != null then {target} else {})`references
      ensures link == target
      ensures target != null ==> target.Valid() && target.references == Increment(old(target.references))
    {
      link := target;
      new;
      if target != null {
        target.references := Increment(target.references);
      }
    }

    /** The copy constructor the compiler generates, since the class declares
        none: it copies the link and leaves the count as it is. */
    constructor ImplicitCopy(other: TriggerGroupPtr)
      ensures link == other.link
    {
      link := other.link;
    }

    /** A copy that counts itself as one more holder, as the converting
        constructor does. */
    constructor CountedCopy(other: TriggerGroupPtr)
      requires other.link != null ==> other.link.Valid()
      modifies (if other.link != null then {other.link} else {})`references
      ensures link == other.link
      ensures link != null ==> link.Valid() && link.references == Increment(old(other.link.references))
    {
      link := other.link;
      new;
      if link != null {
        link.references := Increment(link.references);
      }
    }

    /** Assignment: releases the group held so far, then acquires the new one;
        the groups' other fields stay. */
    method Assign(other: TriggerGroupPtr)
      requires link != null ==> link.Valid()
      requires other.link != null ==> other.link.Valid()
      modifies this`link, (if link != null then {link} else {})`references,
        (if other.link != null then {other.link} else {})`references
      ensures link == old(other.link)
      ensures link != null ==> link.Valid()
      ensures old(link) != null ==> old(link).Valid()
      ensures old(link) == link && link != null ==> link.references == old(link.references)
      ensures old(link) != link && old(link) != null ==> old(link).references == Decrement(old(link.references))
      ensures old(link) != link && link != null ==> link.references == Increment(old(other.link.references))
    {
      var target := other.link;
      if link != null {
        ReleaseUndoesAcquire(link.references);
        link.references := Decrement(link.references);
      }
      if target != null {
        target.references := Increment(target.references);
      }
      link := target;
    }

    /** The destructor: the held group loses one holder and nothing else changes. */
    method Release()
      requires link != null ==> link.Valid()
      modifies (if link != null then {link} else {})`references
      ensures link != null ==> link.Valid() && link.references == Decrement(old(link.references))
    {
      if link != null {
        link.references := Decrement(link.references);
      }
    }
  }

  /** One handle, one compiler-generated copy, both destroyed: the copy added
      nothing, so the count of the fresh group wraps from 0 to 2^32 - 1. */
  method ImplicitCopyUnderflows() returns (g: TriggerGroup)
    ensures g.references == UIntModulus - 1
  {
    g := new TriggerGroup("nsp", "grp");
    var p := new TriggerGroupPtr(g);
    var q := new TriggerGroupPtr.ImplicitCopy(p);
    p.Release();
    q.Release();
  }

  /** The same sequence with a counted copy gives the fresh group's count back. */
  method CountedCopyBalances() returns (g: TriggerGroup)
    ensures g.references == 0
  {
    g := new TriggerGroup("nsp", "grp");
    var p := new TriggerGroupPtr(g);
    var q := new TriggerGroupPtr.CountedCopy(p);
    p.Release();
    q.Release();
  }
}
