# ServerAddressMacroRegistrar in Dafny

A model of Eclipse Che's `ServerAddressMacroRegistrar`, the IDE component
that publishes one macro per server of the workspace's dev machine. A macro
named `${server.port.<id>}` expands to the server's external url. It
registers these macros when the workspace runs and unregisters them when the
workspace stops.

The project has four modules:

- `Wrappers` (`wrappers.dfy`): the `Option` type for the optional dev machine and the field that starts out null.
- `ServerAddressMacros` (`server_address_macros.dfy`): the pure part. It holds the name template
  `${server.port.%}`, the `/tcp` suffix rule, the `ServerAddressMacro`
  constructor and the `getMacros` loop (`GetMacros`). The loop is proved equal to
  `ServerMacros`, a specification that gathers the entries in an unspecified
  order. Lemmas cover what every server publishes, where every macro comes
  from, how many macros there are, that the order of iteration does not matter,
  and that names can collide.
- `MacroRegistryModel` (`macro_registry.dfy`): the registry as the registrar sees it. It
  records each `register(batch)` and `unregister(macro)` call it receives.
  `Registered` reads that record as a count of live macros. This count is used
  to state that a stop withdraws what the last run added.
- `Registrar` (`registrar.dfy`): the class itself. It has the mutable `macros` field (null
  until the first registration), `registerMacros` and the three event
  handlers. The workspace status and the dev machine's server map are passed
  to the handlers as parameters.

Two behaviours of the code differ from how the component is usually
described, and the model follows the code in both:

- The stopped handler dereferences `macros` without a null check. If no dev
  machine has been registered yet, it throws a NullPointerException
  (`ServerAddressMacroRegistrar.java:51`, `:69`). So it is not a no-op when
  nothing ran. `OnWorkspaceStopped` reports this as `npe` and changes nothing,
  and `RunThenStop` shows that a running event without a dev machine, followed
  by a stop, ends this way.
- `registerMacros` overwrites `macros` (`ServerAddressMacroRegistrar.java:79`)
  without unregistering the previous batch. If registration happens twice
  with no stop in between (the IDE-initialized handler sees a running
  workspace, then a workspace-running event arrives), the first batch's
  macros are never passed to `unregister`: the stop withdraws only the
  second batch. A registry that counts registrations therefore keeps the
  first batch, as `InitializedRunningThenStop` shows; what a registry keyed
  by name would keep is not part of this model.

## Model

All source paths are under `ide/che-core-ide-app/src/main/java/org/eclipse/che/ide/macro/`.

| member | source | states |
|---|---|---|
| `ServerAddressMacros.TemplateParts` | ide/che-core-ide-app/src/main/java/org/eclipse/che/ide/macro/ServerAddressMacroRegistrar.java:46 | The name template is `${server.port.` then one `%` then `}`, and `%` occurs nowhere else in it. |
| `ServerAddressMacros.ReplaceAll` | ide/che-core-ide-app/src/main/java/org/eclipse/che/ide/macro/ServerAddressMacroRegistrar.java:101 | Replacing a character that does not occur in the string leaves the string unchanged. |
| `ServerAddressMacros.ReplaceAllAppend` | ide/che-core-ide-app/src/main/java/org/eclipse/che/ide/macro/ServerAddressMacroRegistrar.java:101 | Replace-all distributes over concatenation, so each part of the template can be filled in on its own. |
| `ServerAddressMacros.MacroName` | ide/che-core-ide-app/src/main/java/org/eclipse/che/ide/macro/ServerAddressMacroRegistrar.java:101 | Replacing the template's `%` by a port with no `$` or `\` gives exactly `${server.port.` + port + `}`. |
| `ServerAddressMacros.MacroNameInjective` | ide/che-core-ide-app/src/main/java/org/eclipse/che/ide/macro/ServerAddressMacroRegistrar.java:101 | Two ports give the same macro name if and only if they are equal. |
| `ServerAddressMacros.ServerAddressMacro` | ide/che-core-ide-app/src/main/java/org/eclipse/che/ide/macro/ServerAddressMacroRegistrar.java:99-105 | The macro for (port, address) is exactly `Macro("${server.port." + port + "}", address, "Returns external address of the server running on port " + port)`: the template filled in with the port, the address as value. |
| `ServerAddressMacros.StripTcp` | ide/che-core-ide-app/src/main/java/org/eclipse/che/ide/macro/ServerAddressMacroRegistrar.java:90-91 | `EndsWithTcp` models `endsWith("/tcp")`. For an id it accepts, the stripped id is 4 characters shorter, and the stripped id followed by `/tcp` is the original id (so every accepted id is some port + `/tcp`). |
| `ServerAddressMacros.TcpRoundTrip` | ide/che-core-ide-app/src/main/java/org/eclipse/che/ide/macro/ServerAddressMacroRegistrar.java:90-91 | Any port followed by `/tcp` is accepted by `EndsWithTcp`, and stripping the suffix gives the port back; with `StripTcp`, `EndsWithTcp(id)` holds exactly when id is some port + `/tcp`. |
| `ServerAddressMacros.Contribution` | ide/che-core-ide-app/src/main/java/org/eclipse/che/ide/macro/ServerAddressMacroRegistrar.java:87-92 | As a multiset, one entry's contribution is its full-id macro, plus its stripped-id macro exactly when the id ends in `/tcp`. |
| `ServerAddressMacros.DerivedPick` | ide/che-core-ide-app/src/main/java/org/eclipse/che/ide/macro/ServerAddressMacroRegistrar.java:86 | Any entry may be visited first and the gathered macros are the same, so the result does not depend on the map's iteration order. |
| `ServerAddressMacros.DerivedOnlyFrom` | ide/che-core-ide-app/src/main/java/org/eclipse/che/ide/macro/ServerAddressMacroRegistrar.java:84-96 | Every gathered macro was contributed by one of the visited entries. |
| `ServerAddressMacros.DerivedSize` | ide/che-core-ide-app/src/main/java/org/eclipse/che/ide/macro/ServerAddressMacroRegistrar.java:85-96 | The number of macros built is the number of servers plus the number of server ids ending in `/tcp`. |
| `ServerAddressMacros.EveryServerPublished` | ide/che-core-ide-app/src/main/java/org/eclipse/che/ide/macro/ServerAddressMacroRegistrar.java:86-92 | Every server (id, url) yields the macro `${server.port.id}` with value url and the id in its description. A `/tcp` server also yields the same macro built from its id minus the last 4 characters. |
| `ServerAddressMacros.EveryMacroFromAServer` | ide/che-core-ide-app/src/main/java/org/eclipse/che/ide/macro/ServerAddressMacroRegistrar.java:84-96 | Every produced macro is valued at the url of some server. It is that server's full-id macro, or, for a `/tcp` id, its stripped-id macro. |
| `ServerAddressMacros.OneMacroPerServer` | ide/che-core-ide-app/src/main/java/org/eclipse/che/ide/macro/ServerAddressMacroRegistrar.java:85-96 | With no id ending in `/tcp`, there are exactly as many macros as servers. |
| `ServerAddressMacros.TcpAndPlainServer` | ide/che-core-ide-app/src/main/java/org/eclipse/che/ide/macro/ServerAddressMacroRegistrar.java:86-92 | A machine with `port/tcp` at url1 and a non-`/tcp` server at url2 yields exactly three macros. They are the full and stripped macros at url1 and one macro at url2; "8080/tcp" and "wsagent/http" are one instance. |
| `ServerAddressMacros.NamesCanCollide` | ide/che-core-ide-app/src/main/java/org/eclipse/che/ide/macro/ServerAddressMacroRegistrar.java:90-92 | Servers `port` and `port/tcp` both produce a macro with the same name, so names are not kept distinct. |
| `ServerAddressMacros.GatherStep` | ide/che-core-ide-app/src/main/java/org/eclipse/che/ide/macro/ServerAddressMacroRegistrar.java:86-93 | One pass of the loop keeps "macros gathered so far plus macros of the entries not yet visited" unchanged. |
| `ServerAddressMacros.GetMacros` | ide/che-core-ide-app/src/main/java/org/eclipse/che/ide/macro/ServerAddressMacroRegistrar.java:84-97 | The loop, visiting entries in any order, returns exactly the specified multiset of macros for the server map. |
| `MacroRegistryModel.MacroRegistry.Register` | ide/che-core-ide-app/src/main/java/org/eclipse/che/ide/macro/ServerAddressMacroRegistrar.java:80 | A bulk register call is recorded with exactly the batch it was given. |
| `MacroRegistryModel.MacroRegistry.Unregister` | ide/che-core-ide-app/src/main/java/org/eclipse/che/ide/macro/ServerAddressMacroRegistrar.java:69 | A single unregister call is recorded with the macro it was given. |
| `MacroRegistryModel.WithdrawAll` | ide/che-core-ide-app/src/main/java/org/eclipse/che/ide/macro/ServerAddressMacroRegistrar.java:69 | A run of unregister calls removes, from a counting registry, exactly the macros it names. |
| `MacroRegistryModel.StopUndoesRun` | ide/che-core-ide-app/src/main/java/org/eclipse/che/ide/macro/ServerAddressMacroRegistrar.java:68-71 | A batch registered and then unregistered macro by macro leaves a counting registry as it was before. |
| `MacroRegistryModel.SecondBatchWithdrawn` | ide/che-core-ide-app/src/main/java/org/eclipse/che/ide/macro/ServerAddressMacroRegistrar.java:78-80 | After two batches, withdrawing the second leaves the first registered. |
| `Registrar.ServerAddressMacroRegistrar.constructor` | ide/che-core-ide-app/src/main/java/org/eclipse/che/ide/macro/ServerAddressMacroRegistrar.java:51-58 | A new registrar holds no macro set yet (null) and is bound to its registry. |
| `Registrar.ServerAddressMacroRegistrar.RegisterMacros` | ide/che-core-ide-app/src/main/java/org/eclipse/che/ide/macro/ServerAddressMacroRegistrar.java:74-82 | Without a dev machine, neither `macros` nor the registry changes. With one, `macros` becomes the derived set, exactly that set is registered in one call, and nothing is unregistered. |
| `Registrar.ServerAddressMacroRegistrar.OnIdeInitialized` | ide/che-core-ide-app/src/main/java/org/eclipse/che/ide/macro/ServerAddressMacroRegistrar.java:60-64 | When the status is RUNNING, the effect is the same as a registration with the same dev machine. Otherwise nothing changes, whatever the dev machine (no requirement on its ids). |
| `Registrar.ServerAddressMacroRegistrar.OnWorkspaceRunning` | ide/che-core-ide-app/src/main/java/org/eclipse/che/ide/macro/ServerAddressMacroRegistrar.java:66 | Always has the effect of a registration with the current dev machine. |
| `Registrar.ServerAddressMacroRegistrar.OnWorkspaceStopped` | ide/che-core-ide-app/src/main/java/org/eclipse/che/ide/macro/ServerAddressMacroRegistrar.java:68-71 | With a held set, only unregister calls are issued, one per held macro, and then the held set is empty. With `macros` still null, it fails (NullPointerException) and nothing changes. |
| `Registrar.RunThenStop` | ide/che-core-ide-app/src/main/java/org/eclipse/che/ide/macro/ServerAddressMacroRegistrar.java:66-71 | For a fresh registrar, running then stopping leaves a counting registry empty. The stop fails exactly when there was no dev machine. |
| `Registrar.InitializedRunningThenStop` | ide/che-core-ide-app/src/main/java/org/eclipse/che/ide/macro/ServerAddressMacroRegistrar.java:60-71 | After the IDE-initialized handler sees RUNNING, then a running event, then a stop, a counting registry still holds the first batch. |

## Left out

- Guice injection and the lazy `Provider<MacroRegistry>`: the registrar holds its registry directly.
- `EventBus.addHandler` subscription and dispatch: the three handlers are methods the caller invokes in sequence.
- `AppContext`, `WorkspaceImpl`, `MachineImpl` and `Server` are not part of this model. The handlers take the workspace status and the dev machine, as an optional map from server id to url, as parameters.
- The `WorkspaceStatus` enum is not part of this model either. The registrar only compares against RUNNING, and the other values listed are placeholders.
- The `MacroRegistry`'s storage and lookup: the model records the calls it receives. `Registered` reads them under one interpretation, a registry that counts registrations; the real registry's behaviour may differ.
- `BaseMacro` expansion, `equals` and `hashCode`: a `HashSet` that could merge equal macros is modelled as a multiset, so no duplicates are collapsed.
- The regular-expression semantics of `String.replaceAll`: ids that contain `$` or `\` are excluded by a precondition (`LiteralIds`, `NameableMachine`). For such ids, Java would read a group reference or an escape, or throw.
- Iteration order of the server map: entries are visited in an arbitrary order, chosen nondeterministically.
- Aliasing: the registry is handed the same `Set` object that the stopped handler later clears in place. The model passes the batch as a value.
- Exceptions raised by collaborators, and how the event bus handles the NullPointerException of the stopped handler. The model reports that exception as an outcome and goes no further.
