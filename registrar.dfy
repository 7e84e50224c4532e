/**
 * ServerAddressMacroRegistrar: registers the server-address macros of the
 * workspace's dev machine when the workspace is running, and unregisters
 * them when it stops. The three event handlers are plain methods; the
 * workspace status and dev machine they read are passed in.
 */
module Registrar {
  import opened Wrappers
  import opened ServerAddressMacros
  import opened MacroRegistryModel

  /** The workspace statuses; the registrar only compares against RUNNING. */
  datatype WorkspaceStatus = Starting | Running | Stopping | Stopped

  /** A dev machine whose server ids can all be put into a macro name. */
  predicate NameableMachine(devMachine: Option<Servers>)
  {
    devMachine.Some? ==> LiteralIds(devMachine.value)
  }

  class ServerAddressMacroRegistrar {
    const registry: MacroRegistry
    /** The macros of the last registration; None (null) until the first one. */
    var macros: Option<multiset<Macro>>

    constructor (registry: MacroRegistry)
      ensures this.registry == registry
      ensures macros == None
    {
      this.registry := registry;
      macros := None;
    }

    /**
     * registerMacros: with a dev machine, its macros replace the held ones and
     * are registered as one batch; the previously held ones are not
     * unregistered. Without one, nothing happens.
     */
    method RegisterMacros(devMachine: Option<Servers>)
      requires NameableMachine(devMachine)
      modifies this`macros, registry
      ensures devMachine.None? ==> macros == old(macros) && registry.calls == old(registry.calls)
      ensures devMachine.Some? ==>
        macros == Some(ServerMacros(devMachine.value)) &&
        registry.calls == old(registry.calls) + [RegisterCall(ServerMacros(devMachine.value))]
    {
      if devMachine.Some? {
        var derived := GetMacros(devMachine.value);
        macros := Some(derived);
        registry.Register(derived);
      }
    }

    /** The IDE-initialized handler: registers only if the workspace is already running. */
    method OnIdeInitialized(status: WorkspaceStatus, devMachine: Option<Servers>)
      requires status == Running ==> NameableMachine(devMachine)
      modifies this`macros, registry
      ensures status != Running || devMachine.None? ==>
        macros == old(macros) && registry.calls == old(registry.calls)
      ensures status == Running && devMachine.Some? ==>
        macros == Some(ServerMacros(devMachine.value)) &&
        registry.calls == old(registry.calls) + [RegisterCall(ServerMacros(devMachine.value))]
    {
      if status == Running {
        RegisterMacros(devMachine);
      }
    }

    /** The workspace-running handler: always attempts registration. */
    method OnWorkspaceRunning(devMachine: Option<Servers>)
      requires NameableMachine(devMachine)
      modifies this`macros, registry
      ensures devMachine.None? ==> macros == old(macros) && registry.calls == old(registry.calls)
      ensures devMachine.Some? ==>
        macros == Some(ServerMacros(devMachine.value)) &&
        registry.calls == old(registry.calls) + [RegisterCall(ServerMacros(devMachine.value))]
    {
      RegisterMacros(devMachine);
    }

    /**
     * The workspace-stopped handler: unregisters each held macro, in an
     * unspecified order, then empties the held set. With no set yet
     * (`macros` still null) it fails with a NullPointerException before
     * doing anything; `npe` reports that outcome.
     */
    method OnWorkspaceStopped() returns (npe: bool, ghost withdrawn: seq<RegistryCall>)
      modifies this`macros, registry
      ensures npe <==> old(macros).None?
      ensures npe ==> macros == old(macros) && registry.calls == old(registry.calls)
      ensures !npe ==> macros == Some(multiset{})
      ensures !npe ==> registry.calls == old(registry.calls) + withdrawn
      ensures !npe ==> AllUnregister(withdrawn) && Unregistered(withdrawn) == old(macros).value
    {
      withdrawn := [];
      if macros.None? {
        npe := true;
        return;
      }
      npe := false;
      var held := macros.value;
      var rest := held;
      while rest != multiset{}
        invariant registry.calls == old(registry.calls) + withdrawn
        invariant AllUnregister(withdrawn)
        invariant Unregistered(withdrawn) + rest == held
        decreases |rest|
      {
        var m :| m in rest;
        registry.Unregister(m);
        ghost var before := withdrawn;
        withdrawn := withdrawn + [UnregisterCall(m)];
        assert withdrawn[..|withdrawn| - 1] == before;
        assert Unregistered(withdrawn) == Unregistered(before) + multiset{m};
        assert AllUnregister(withdrawn) by {
          forall i | 0 <= i < |withdrawn| ensures withdrawn[i].UnregisterCall? {
            if i < |before| { assert withdrawn[i] == before[i]; }
          }
        }
        rest := rest - multiset{m};
      }
      macros := Some(multiset{});
    }
  }

  /**
   * A fresh registrar that sees the workspace start and then stop leaves a
   * counting registry empty; it fails on the stop exactly when there was no
   * dev machine to register.
   */
  method RunThenStop(devMachine: Option<Servers>) returns (npe: bool, left: multiset<Macro>)
    requires NameableMachine(devMachine)
    ensures npe <==> devMachine.None?
    ensures left == multiset{}
  {
    var registry := new MacroRegistry();
    var registrar := new ServerAddressMacroRegistrar(registry);
    registrar.OnWorkspaceRunning(devMachine);
    ghost var withdrawn;
    npe, withdrawn := registrar.OnWorkspaceStopped();
    if !npe {
      StopUndoesRun([], ServerMacros(devMachine.value), withdrawn);
      assert [] + [RegisterCall(ServerMacros(devMachine.value))] == [RegisterCall(ServerMacros(devMachine.value))];
    }
    left := Registered(registry.calls);
  }

  /**
   * Two registrations with no stop between them (the IDE-initialized handler
   * seeing a running workspace, then a workspace-running event): the stop
   * withdraws only the second batch, so a counting registry keeps the first.
   */
  method InitializedRunningThenStop(first: Servers, second: Servers) returns (left: multiset<Macro>)
    requires LiteralIds(first) && LiteralIds(second)
    ensures left == ServerMacros(first)
  {
    var registry := new MacroRegistry();
    var registrar := new ServerAddressMacroRegistrar(registry);
    ghost var b1, b2 := ServerMacros(first), ServerMacros(second);
    registrar.OnIdeInitialized(Running, Some(first));
    assert registry.calls == [RegisterCall(b1)];
    registrar.OnWorkspaceRunning(Some(second));
    ghost var runs := registry.calls;
    assert runs == [RegisterCall(b1), RegisterCall(b2)];
    assert registrar.macros == Some(b2);
    var npe, withdrawn := registrar.OnWorkspaceStopped();
    assert registry.calls == runs + withdrawn;
    SecondBatchWithdrawn(b1, b2, withdrawn);
    left := Registered(registry.calls);
  }
}
