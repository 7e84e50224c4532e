/**
 * The macro registry as the registrar sees it: something it hands a batch of
 * macros to (`register`) and withdraws single macros from (`unregister`).
 * Its storage is not part of this model; the registry records the calls it
 * receives, and `Registered` reads that record as a count of live macros.
 */
module MacroRegistryModel {
  import opened ServerAddressMacros

  datatype RegistryCall = RegisterCall(batch: multiset<Macro>) | UnregisterCall(macro: Macro)

  class MacroRegistry {
    /** Every call received so far, oldest first. */
    var calls: seq<RegistryCall>

    constructor ()
      ensures calls == []
    {
      calls := [];
    }

    method Register(batch: multiset<Macro>)
      modifies this
      ensures calls == old(calls) + [RegisterCall(batch)]
    {
      calls := calls + [RegisterCall(batch)];
    }

    method Unregister(m: Macro)
      modifies this
      ensures calls == old(calls) + [UnregisterCall(m)]
    {
      calls := calls + [UnregisterCall(m)];
    }
  }

  /** The macros a counting registry holds after `calls`. */
  function Registered(calls: seq<RegistryCall>): multiset<Macro>
  {
    if calls == [] then multiset{}
    else
      var prior := Registered(calls[..|calls| - 1]);
      match calls[|calls| - 1]
      case RegisterCall(batch) => prior + batch
      case UnregisterCall(m) => prior - multiset{m}
  }

  predicate AllUnregister(calls: seq<RegistryCall>)
  {
    forall i :: 0 <= i < |calls| ==> calls[i].UnregisterCall?
  }

  /** The macros withdrawn by `calls`. */
  function Unregistered(calls: seq<RegistryCall>): multiset<Macro>
  {
    if calls == [] then multiset{}
    else
      var prior := Unregistered(calls[..|calls| - 1]);
      match calls[|calls| - 1]
      case RegisterCall(_) => prior
      case UnregisterCall(m) => prior + multiset{m}
  }

  /** A run of unregister calls withdraws what it names, each once. */
  lemma {:induction false} WithdrawAll(prefix: seq<RegistryCall>, tail: seq<RegistryCall>)
    requires AllUnregister(tail)
    ensures Registered(prefix + tail) == Registered(prefix) - Unregistered(tail)
    decreases |tail|
  {
    if tail == [] {
      assert prefix + tail == prefix;
    } else {
      var init := tail[..|tail| - 1];
      assert AllUnregister(init) by {
        forall i | 0 <= i < |init| ensures init[i].UnregisterCall? {
          assert init[i] == tail[i];
        }
      }
      WithdrawAll(prefix, init);
      assert (prefix + tail)[..|prefix + tail| - 1] == prefix + init;
      assert tail[|tail| - 1].UnregisterCall?;
      var m := tail[|tail| - 1].macro;
      assert (prefix + tail)[|prefix + tail| - 1] == UnregisterCall(m);
      var r, u := Registered(prefix), Unregistered(init);
      assert (r - u) - multiset{m} == r - (u + multiset{m});
    }
  }

  /**
   * Registering a batch and then unregistering each of its macros once leaves
   * a counting registry as it was before the batch.
   */
  lemma StopUndoesRun(log: seq<RegistryCall>, batch: multiset<Macro>, tail: seq<RegistryCall>)
    requires AllUnregister(tail) && Unregistered(tail) == batch
    ensures Registered(log + [RegisterCall(batch)] + tail) == Registered(log)
  {
    var withBatch := log + [RegisterCall(batch)];
    WithdrawAll(withBatch, tail);
    assert withBatch[..|withBatch| - 1] == log;
    assert (Registered(log) + batch) - batch == Registered(log);
  }

  /**
   * Two batches registered back to back, then every macro of the second
   * withdrawn once: a counting registry still holds the first batch.
   */
  lemma SecondBatchWithdrawn(first: multiset<Macro>, second: multiset<Macro>, tail: seq<RegistryCall>)
    requires AllUnregister(tail) && Unregistered(tail) == second
    ensures Registered([RegisterCall(first), RegisterCall(second)] + tail) == first
  {
    var log := [RegisterCall(first)];
    StopUndoesRun(log, second, tail);
    assert log + [RegisterCall(second)] == [RegisterCall(first), RegisterCall(second)];
    assert log[..0] == [];
  }
}
