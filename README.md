# ObEngine triggers, game-object subscriptions and base paths, in Dafny

This project models three parts of ObEngine, a 2D game engine whose game
objects are scripted in Lua and talk to each other through *triggers*.

- **Trigger groups** (`trigger_group.dfy`, module `TriggerGroups`). A
  `TriggerGroup` is a named set of triggers inside a namespace. It has a list
  of delayed activations, a joinable flag, and a reference count that the
  `TriggerGroupPtr` handles keep. Every operation that names an unknown
  trigger fails with `TriggerNotFound`. `getAllTriggersName` lists the trigger
  names in the ascending order of `std::map<std::string, …>`, and the model
  proves that this order is strict and total. The reference count is an
  `unsigned int`, so it wraps around modulo 2^32.
- **Game-object subscriptions and lifecycle** (`game_object.dfy`, module
  `GameObjects`).
  - A `GameObject` subscribes its script environment to triggers of the trigger
    database, one by one or with the wildcard name `"*"`. The callback name is
    the alias, or `nsp.group.name` when the alias is empty; a wildcard alias
    has its `"*"` replaced by each trigger's name. Each object keeps one record
    (a weak reference and a callback name) per subscribed trigger.
  - `deleteObject` fires the local `Delete` trigger and unregisters the
    environment from every trigger that is still alive. The destructor then
    removes the environment from the global list and drops the object's
    private namespace.
  - Over a run of `update` calls with no `setState(false)` or `deleteObject`
    in between, the local `Init` trigger fires at most once. Either of those
    resets the activity flag. After that, the next `initialize` of an object
    with a script engine fires `Init` again, and so does the next `update`
    when the object can also update.
  - The database is modelled abstractly, with only the queries and updates the
    game object uses (`TriggerDatabase`): the names of each group, in ascending
    order as the group's map lists them, and one cell per live trigger. A cell
    holds a serial, so a weak reference is alive exactly when its serial
    matches, and the callback each environment registered.
- **Prioritised base paths** (`path_resolver.dfy`, module `PathResolver`).
  - The static base-path list is an array, and `orderPriorizedPaths` is the
    source's in-place bubble sort on it. The model proves that it ends sorted
    by non-increasing priority, is a permutation of its input, and keeps equal
    priorities in their original order. It terminates because each pass that
    swaps removes at least one inversion.
  - `addPath` appends a path and sorts again.
  - `Path` is a relative path: `add`, `toString`, the copy constructor, and
    `getPath`, which resolves the path against the base at an index.

`wrappers.dfy` holds `Option`, `Result` and `Outcome`, which model the
exceptions the source raises and the error paths it takes.

Where the model departs from the code, or assumes something about code not
shown:

- `TriggerGroup.cpp`, `Trigger.cpp` and `TriggerDatabase.cpp` are not part
  of this model. The trigger-group operations follow the header's
  documentation where it has some. That `getAllTriggersName` lists names in
  map order is an assumption about its implementation.
- The header declares `setPermanent` and the `TriggerGroupPtr` members
  without documenting them, and their bodies are in `TriggerGroup.cpp`. That
  the converting constructor and `operator=` add one to `m_references` and the
  destructor takes one off is inferred from that field; the model assumes it.
- `Utils::String::replace` is taken to replace every occurrence.
- The initial values of `m_canUpdate`, `m_active`, `deletable`, `m_permanent`
  and `m_hasScriptEngine` are declared in a header that is not part of this
  model. They are taken to be `true` for `m_canUpdate` and `false` for the rest.
- `deleteObject` dereferences the local trigger group without checking it.
  For an object without a script engine that pointer is null, and the model
  returns `Fail(NoLocalTriggers)` and changes nothing at that point.

## Model

| member | source | states |
|---|---|---|
| TriggerGroups.Increment | include/Triggers/TriggerGroup.hpp:21 | acquiring a handle adds one to the unsigned count modulo 2^32 and stays below 2^32 |
| TriggerGroups.Decrement | include/Triggers/TriggerGroup.hpp:21 | releasing a handle subtracts one modulo 2^32 (0 wraps to 2^32-1) |
| TriggerGroups.ReleaseUndoesAcquire | include/Triggers/TriggerGroup.hpp:123-126 | release after acquire, and acquire after release, give back the count, including at the wrap-around points |
| TriggerGroups.SortedKeysListsKeys | include/Triggers/TriggerGroup.hpp:18 | the map's iteration order lists every key once, strictly ascending under the `std::string` order |
| TriggerGroups.TriggerGroup.constructor | include/Triggers/TriggerGroup.hpp:16-29 | a new group has the given namespace and name, no triggers, no delays, is not joinable and has no references |
| TriggerGroups.TriggerGroup.GetNamespace | include/Triggers/TriggerGroup.hpp:98-102 | gives the namespace fixed at construction |
| TriggerGroups.TriggerGroup.GetName | include/Triggers/TriggerGroup.hpp:103-107 | gives the name fixed at construction |
| TriggerGroups.TriggerGroup.SetJoinable | include/Triggers/TriggerGroup.hpp:30-34 | isJoinable afterwards reads the value set; only the joinable flag changes |
| TriggerGroups.TriggerGroup.IsJoinable | include/Triggers/TriggerGroup.hpp:35-39 | gives the joinable flag |
| TriggerGroups.TriggerGroup.GetTrigger | include/Triggers/TriggerGroup.hpp:40-45 | succeeds exactly for a stored name and yields that trigger; otherwise TriggerNotFound with namespace, group and name |
| TriggerGroups.TriggerGroup.AddTrigger | include/Triggers/TriggerGroup.hpp:46-51 | returns the group itself for chaining; a new name gets a fresh disabled trigger, an existing one is left alone (idempotent) |
| TriggerGroups.TriggerGroup.DelayTriggerState | include/Triggers/TriggerGroup.hpp:52-58 | for a known trigger appends one delayed activation with its delay and returns the group; an unknown one raises TriggerNotFound and queues nothing |
| TriggerGroups.TriggerGroup.Trigger | include/Triggers/TriggerGroup.hpp:59-64 | enables exactly the named trigger, no other trigger changes and the set of names stays; unknown names raise TriggerNotFound |
| TriggerGroups.TriggerGroup.GetState | include/Triggers/TriggerGroup.hpp:65-70 | the enabled flag of a known trigger; fails for an unknown one |
| TriggerGroups.TriggerGroup.SetPermanent | include/Triggers/TriggerGroup.hpp:71 | sets the permanent flag of exactly the named trigger; unknown names raise TriggerNotFound |
| TriggerGroups.TriggerGroup.PushParameter | include/Triggers/TriggerGroup.hpp:129-133 | stores the parameter on the named trigger, replacing one of the same name; fails exactly when getTrigger fails and then changes nothing |
| TriggerGroups.TriggerGroup.GetAllTriggersName | include/Triggers/TriggerGroup.hpp:88-92 | every stored name exactly once, in ascending map order |
| TriggerGroups.TriggerGroup.GetAllTriggers | include/Triggers/TriggerGroup.hpp:93-97 | one trigger per stored name, position by position in the same order as the names |
| TriggerGroups.TriggerGroupPtr.constructor | include/Triggers/TriggerGroup.hpp:123 | links to the target and adds one to its count; only the target's count may change |
| TriggerGroups.TriggerGroupPtr.ImplicitCopy | include/Triggers/TriggerGroup.hpp:115-127 | the compiler-generated copy constructor, since the class declares none: the link is copied and no count changes |
| TriggerGroups.ImplicitCopyUnderflows | include/Triggers/TriggerGroup.hpp:115-127 | a fresh group, one handle on it, an implicit copy of that handle, both released: the group's count ends at 2^32 - 1 |
| TriggerGroups.CountedCopyBalances | include/Triggers/TriggerGroup.hpp:115-127 | the same sequence with a counted copy leaves the fresh group's count at 0 |
| TriggerGroups.TriggerGroupPtr.CountedCopy | include/Triggers/TriggerGroup.hpp:123 | a copy that adds one to the group's count, as the converting constructor does; only that count may change |
| TriggerGroups.CountedCopiesBalance | include/Triggers/TriggerGroup.hpp:123-126 | with counted copies, acquiring any number of handles and releasing them all gives back the original count |
| TriggerGroups.TriggerGroupPtr.Assign | include/Triggers/TriggerGroup.hpp:124 | takes the other handle's group; the old group loses one count and the new one gains one; assigning the same group leaves its count unchanged; only the two counts and the link may change |
| TriggerGroups.TriggerGroupPtr.Release | include/Triggers/TriggerGroup.hpp:126 | the destructor takes one count off the held group; only that count may change |
| PathResolver.PriorizedPathStoresArguments | src/PathResolver.cpp:25-35 | the constructor keeps kind, base and priority, and getPath gives back the base |
| PathResolver.Path.Add | src/PathResolver.cpp:66-69 | the new path is the old one, a "/" and the component; the old path is its prefix |
| PathResolver.Path.GetPath | src/PathResolver.cpp:70-76 | for an index of the list: the base, one "/" when the base is non-empty, then the path, which is always a suffix; no path for an index outside the list, negative ones included |
| PathResolver.PriorizedPath.GetPath | src/PathResolver.cpp:32-35 | gives the base path stored by the constructor |
| PathResolver.Path.ToString | src/PathResolver.cpp:77-80 | gives the stored relative path |
| PathResolver.EmptyPath | src/PathResolver.cpp:54-57 | the default path is empty |
| PathResolver.EmptyPathResolvesToBase | src/PathResolver.cpp:54-76 | the empty path resolves to the base followed by "/", or to "" for an empty base |
| PathResolver.CopyPath | src/PathResolver.cpp:58-61 | copying through toString gives an equal path |
| PathResolver.ToStringRoundTrip | src/PathResolver.cpp:62-65 | toString gives back the string a path was built from, also after a copy |
| PathResolver.GetPathOfAdd | src/PathResolver.cpp:66-76 | resolving `p.add(c)` is resolving `p` and appending "/" and `c`, at every index |
| PathResolver.Swap | src/PathResolver.cpp:48 | `iter_swap` of neighbours: positions i and i+1 are exchanged, every other position and the length stay |
| PathResolver.AdjacentSortedIsSorted | src/PathResolver.cpp:41-52 | a pass with no swap leaves the list sorted, since non-increasing neighbours mean non-increasing overall |
| PathResolver.InversionsSwap | src/PathResolver.cpp:46-49 | swapping a pair with lower priority first removes exactly one inversion, which is why the loop ends |
| PathResolver.SwapKeepsMultiset | src/PathResolver.cpp:48 | a swap keeps the same paths with the same multiplicities |
| PathResolver.SwapKeepsStable | src/PathResolver.cpp:46-48 | swapping only strictly out-of-order neighbours keeps equal priorities in their original relative order |
| PathResolver.BasePathList.constructor | src/PathResolver.cpp:37 | the static list starts empty |
| PathResolver.BasePathList.SweepOnce | src/PathResolver.cpp:43-51 | one pass over the list: with no swap, the list is unchanged and every pair of neighbours is in order; otherwise fewer inversions, same multiset, stability kept |
| PathResolver.BasePathList.OrderPriorizedPaths | src/PathResolver.cpp:38-53 | the list ends sorted by non-increasing priority, as a stable permutation of the original |
| PathResolver.BasePathList.AddPath | src/PathResolver.cpp:81-85 | the list grows by one, contains the new path, keeps all old ones, and is the stable sort of the old list followed by the new path |
| GameObjects.CallbackName | src/Core/Script/GameObject.cpp:375-376 | the alias when there is one; otherwise `nsp.grp.name`, which starts with the namespace, ends with the trigger name and is two dots longer than the three parts |
| GameObjects.StarCount | src/Core/Script/GameObject.cpp:356 | the number of "*" in a string, at most its length |
| GameObjects.ReplaceStar | src/Core/Script/GameObject.cpp:356 | replacing every "*" by the name gives a string whose length is the original's, less one per "*", plus the name's length per "*" |
| GameObjects.WildcardAlias | src/Core/Script/GameObject.cpp:355-357 | "" for an alias without "*"; for the trigger name "*", the alias itself |
| GameObjects.DefaultCallbackNamesDistinct | src/Core/Script/GameObject.cpp:375-376 | the default callback names `nsp.grp.name` of different triggers of a group differ |
| GameObjects.ReplaceStarWithoutStar | src/Core/Script/GameObject.cpp:355-357 | an alias without "*" is left unchanged by the replacement |
| GameObjects.ReplaceStarByStar | src/Core/Script/GameObject.cpp:356 | replacing "*" by "*" changes nothing |
| GameObjects.ReplaceStarRemovesStars | src/Core/Script/GameObject.cpp:356 | after replacement by a name without "*", no "*" is left |
| GameObjects.WildcardAliasHasNoStar | src/Core/Script/GameObject.cpp:355-357 | the alias passed on for a name without "*" has no "*", so the nested call is never a wildcard alias |
| GameObjects.Subscribe | src/Core/Script/GameObject.cpp:360-398 | the environment ends up registered on the trigger under the alias or the default name; a trigger without a record gains exactly one record, an already recorded one gains none; no other trigger changes |
| GameObjects.SubscribeKeepsUnique | src/Core/Script/GameObject.cpp:362-384 | subscribing keeps at most one record per trigger |
| GameObjects.SubscribeTwice | src/Core/Script/GameObject.cpp:385-397 | subscribing again with the same alias changes nothing (the unregister-then-register path is idempotent) |
| GameObjects.SubscribeAll | src/Core/Script/GameObject.cpp:347-359 | the wildcard subscription keeps the trigger set and serials, leaves triggers outside the listed names alone and only adds records |
| GameObjects.SubscribeAllEffect | src/Core/Script/GameObject.cpp:347-359 | every trigger of the group is registered under the alias with "*" replaced by its name (or its default name when the alias has no "*") and has a record |
| GameObjects.SubscribeAllKeepsUnique | src/Core/Script/GameObject.cpp:347-384 | a wildcard subscription keeps at most one record per trigger |
| GameObjects.WildcardScenario | src/Core/Script/GameObject.cpp:352-358 | over triggers "A" and "B" with alias "on_*" the callbacks are "on_A" and "on_B" |
| GameObjects.ResubscribeAfterRemoveAddsNoRecord | src/Core/Script/GameObject.cpp:401-408 | removeTrigger keeps the record, so a later useTrigger registers again without adding a record |
| GameObjects.WildcardRecursiveCall | src/Core/Script/GameObject.cpp:352-358 | as written, the wildcard loop calls useTrigger with the listed name; the alias passed is the alias with every "*" replaced by the name, or "" when the alias has no "*" |
| GameObjects.StarTriggerRecursesForever | src/Core/Script/GameObject.cpp:347-358 | as written, for a trigger named "*" the nested call is again a wildcard call whose own call for that name is identical, so the recursion never ends |
| GameObjects.DetachAll | src/Core/Script/GameObject.cpp:421-427 | unregistering never adds or removes triggers |
| GameObjects.DetachAllStep | src/Core/Script/GameObject.cpp:421-427 | one more record unregisters the environment from its trigger when, and only when, that trigger is still alive |
| GameObjects.DetachAllUnregisters | src/Core/Script/GameObject.cpp:421-427 | afterwards the environment is on no alive recorded trigger, and every other environment keeps its callbacks |
| GameObjects.WildcardThenDeleteLeavesNoTrace | src/Core/Script/GameObject.cpp:415-429 | a wildcard subscription followed by deleteObject leaves the environment on no trigger of the group |
| GameObjects.WithoutNamespace | src/Core/Script/GameObject.cpp:139-143 | after removeNamespace no weak reference into the namespace is alive, triggers of other namespaces are kept unchanged, and no trigger is added |
| GameObjects.InitializeStep | src/Core/Script/GameObject.cpp:113-130 | afterwards the object is active; Init fires exactly when it was inactive and has a script engine |
| GameObjects.UpdateStep | src/Core/Script/GameObject.cpp:257-278 | a non-updatable object is left alone; Init fires exactly for an updatable, inactive, scripted object; the object ends active when it was or when it can update |
| GameObjects.InitFiresAtMostOnce | src/Core/Script/GameObject.cpp:257-278 | over any number of updates Init fires at most once, and exactly once when the object starts inactive, updatable and scripted and is updated at least once |
| GameObjects.Without | src/Core/Script/GameObject.cpp:136-138 | `erase(remove_if(...))` shortens the list by exactly the number of occurrences of the index |
| GameObjects.WithoutConcat | src/Core/Script/GameObject.cpp:136-138 | removing an index from a concatenation is removing it from each part |
| GameObjects.WithoutRemovesOnly | src/Core/Script/GameObject.cpp:136-138 | `remove_if` leaves no occurrence of the index, keeps every other index with its multiplicity, and is the identity when the index is absent |
| GameObjects.EnvironmentList.constructor | src/Core/Script/GameObject.cpp:104 | `AllEnvs` starts empty |
| GameObjects.EnvironmentList.Add | src/Core/Script/GameObject.cpp:181 | the index is appended |
| GameObjects.EnvironmentList.RemoveAll | src/Core/Script/GameObject.cpp:136-138 | the list becomes the old list with every occurrence of the index removed, in order |
| GameObjects.TriggerDatabase.AddTrigger | include/Triggers/TriggerGroup.hpp:46-51 | declares a trigger in the database: its group lists the names in ascending map order (the SortedKeys of the old names and the new one), as the group's `std::map` does; a new trigger gets a fresh cell with the next serial, an existing one is left alone, and a weak handle that had expired stays expired |
| GameObjects.InsertSorted | include/Triggers/TriggerGroup.hpp:18 | placing a name in an ascending listing keeps it ascending, adds exactly that name, and leaves a listing that holds it unchanged |
| TriggerGroups.AscendingIsSortedKeys | include/Triggers/TriggerGroup.hpp:18 | a strictly ascending listing is exactly the map order of its own names |
| GameObjects.InsertSortedIsSortedKeys | include/Triggers/TriggerGroup.hpp:18 | placing a name in an ascending listing gives the map order of the old names and the new one |
| GameObjects.TriggerDatabase.GetTrigger | src/Core/Script/GameObject.cpp:366-367 | a live weak reference to the trigger, or TriggerNotFound |
| GameObjects.TriggerDatabase.GetAllTriggersNameFromTriggerGroup | src/Core/Script/GameObject.cpp:349-351 | the group's names in ascending order, each naming a live trigger, or TriggerGroupNotFound |
| GameObjects.TriggerDatabase.RegisterEnvironment | src/Core/Script/GameObject.cpp:380-383 | the environment's callback on the trigger is set, replacing an earlier one |
| GameObjects.TriggerDatabase.UnregisterEnvironment | src/Core/Script/GameObject.cpp:389-392 | the environment is removed from the trigger if present |
| GameObjects.TriggerDatabase.RemoveNamespace | src/Core/Script/GameObject.cpp:142 | every group and trigger of the namespace is dropped and the others are kept |
| GameObjects.GameObject.constructor | src/Core/Script/GameObject.cpp:106-111 | type and id as given, no local trigger group, no records, inactive, not deletable |
| GameObjects.GameObject.GetEnvIndex | src/Core/Script/GameObject.cpp:22-25 | gives the environment index |
| GameObjects.GameObject.GetType | src/Core/Script/GameObject.cpp:280-283 | gives the type fixed at construction |
| GameObjects.GameObject.DoesHaveScriptEngine | src/Core/Script/GameObject.cpp:300-303 | gives whether a Script section was loaded |
| GameObjects.GameObject.GetUpdateState | src/Core/Script/GameObject.cpp:305-308 | gives whether the object can update |
| GameObjects.GameObject.IsPermanent | src/Core/Script/GameObject.cpp:436-439 | gives the permanent flag |
| GameObjects.GameObject.LoadScript | src/Core/Script/GameObject.cpp:168-190 | with a Script section: the object has a script engine, the private key and environment index are recorded, a new "Local" group in that namespace holds exactly Init and Delete, and the index joins AllEnvs; no other field of the object changes |
| GameObjects.GameObject.Initialize | src/Core/Script/GameObject.cpp:113-130 | the flags follow InitializeStep, and local Init is enabled exactly when it fires; only the activity flag and the local group's triggers may change |
| GameObjects.GameObject.Update | src/Core/Script/GameObject.cpp:257-278 | the flags follow UpdateStep, and local Init is enabled exactly when it fires; only the activity flag and the local group's triggers may change |
| GameObjects.GameObject.IsRegistered | src/Core/Script/GameObject.cpp:362-372 | true exactly when some record points to the trigger |
| GameObjects.GameObject.RegisterTrigger | src/Core/Script/GameObject.cpp:154-158 | appends one record |
| GameObjects.GameObject.SubscribeOne | src/Core/Script/GameObject.cpp:360-398 | the object's records and the database follow Subscribe; an unknown trigger raises TriggerNotFound and changes nothing |
| GameObjects.GameObject.SubscribeEach | src/Core/Script/GameObject.cpp:349-358 | the records and the database follow SubscribeAll over the listed names |
| GameObjects.GameObject.UseTrigger | src/Core/Script/GameObject.cpp:344-399 | "*" subscribes every trigger of the group (SubscribeAll) or raises TriggerGroupNotFound; any other name subscribes that trigger (Subscribe) or raises TriggerNotFound; failures change nothing |
| GameObjects.GameObject.RemoveTrigger | src/Core/Script/GameObject.cpp:401-408 | the environment is unregistered from the trigger and the records stay; unknown triggers raise TriggerNotFound |
| GameObjects.GameObject.DetachFromAll | src/Core/Script/GameObject.cpp:421-427 | the database becomes DetachAll of the records: only alive triggers are touched |
| GameObjects.GameObject.DeleteObject | src/Core/Script/GameObject.cpp:415-429 | local Delete is enabled, the object is deletable and inactive, and the environment leaves every alive recorded trigger; only those flags, the local group's triggers and the database cells may change; without a local group it fails and changes nothing |
| GameObjects.GameObject.Destroy | src/Core/Script/GameObject.cpp:132-144 | deleteObject, then the object's own environment index leaves AllEnvs; a scripted object drops its local group, and the groups and triggers of its own namespace, keeping every other namespace; without a local group (no script engine) it fails and changes nothing |
| GameObjects.GameObject.SetUpdateState | src/Core/Script/GameObject.cpp:305-313 | getUpdateState afterwards reads the value set |
| GameObjects.GameObject.SetPermanent | src/Core/Script/GameObject.cpp:431-439 | isPermanent afterwards reads the value set |
| GameObjects.GameObject.SetState | src/Core/Script/GameObject.cpp:440-443 | the activity flag is the value set |

## Left out

- Lua: the environment table assignments (`GAMEOBJECTENV[...]`), `executeFile`, `exec`, `sendInitArgFromLua`, `pushParameterFromLua` and the Lua access helpers. They run code outside this model.
- How a trigger delivers its parameters to the registered callbacks, and the `&m_active` pointer passed with each registration: that happens in `Trigger.cpp`, which is not part of this model.
- The private key's random generation and `CreateNewEnvironment`. LoadScript takes the key and the index as parameters.
- The rest of `loadGameObject`: the permanent flag read from the file, and the animator, sprite, collider and dependency loading.
- The animator and sprite update in `update`, and the animator, level-sprite, collider and scene-node getters. They belong to subsystems outside this core.
- Logging, including the out-of-range message of `Path::getPath`.
- PathResolver.Path.GetPath: for an index outside the list the source prints its message and then leaves a non-void function without returning, which is undefined behaviour in C++; the model gives `None` there.
- The file loaders at the top of `src/PathResolver.cpp`. They are file I/O.
- `TriggerGroupPtr::operator->`, and the handle ids with the static `amount` counter: they carry no state this model reasons about.
- `GameObjectDatabase`, and `TriggerDatabase` beyond what the game object asks of it. `TriggerDatabase.AddTrigger` declares a trigger, together with its group, so that the database can be set up. `createNamespace` and `createTriggerGroup` are not modelled. The local group is a fresh `TriggerGroup` kept by the object rather than stored in the database.
- TriggerGroups.TriggerGroup.DelayTriggerState: the delay is a whole number of milliseconds, not the engine's time unit type.
- GameObjects.GameObject.DeleteObject: returns Fail on a null local group, where the source dereferences a null pointer.
- Concurrency: the source is single-threaded. The database is a singleton here, passed explicitly.

## Findings

| source | as written | input that shows it | evidently intended | confidence | as-written member | corrected member |
|---|---|---|---|---|---|---|
| include/Triggers/TriggerGroup.hpp:115-127 | the handle declares a converting constructor, an assignment and a destructor, taken to count, but no copy constructor, so the generated copy copies the link without counting | one handle on a group with count 0 is copied and both handles are destroyed: the count drops twice and wraps to 2^32 - 1 | a copy counts as one more holder, so every release matches an acquire | not executed; that the declared members count is inferred from `m_references`, since their bodies in `TriggerGroup.cpp` are not part of this model; whether any caller copies a handle is not visible here | TriggerGroups.ImplicitCopyUnderflows | TriggerGroups.TriggerGroupPtr.CountedCopy |
| src/Core/Script/GameObject.cpp:347-358 | the wildcard branch subscribes each listed name by calling useTrigger again with that name | a trigger group that holds a trigger named "*": the nested call is again a wildcard over the same, unchanged group, and so on forever | each listed trigger is subscribed once, "*" included as a plain name | not executed | GameObjects.StarTriggerRecursesForever | GameObjects.GameObject.UseTrigger |
