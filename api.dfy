/** The crate's entry points, which hand over to the platform bridge. */
module AccessibleApi {
  import opened AccessibleTypes
  import Osx
  import Linux

  /** A typed shared reference to a node, seen through the capability
      interface: the same data, with the table of the node type's
      implementation. */
  function Upcast(data: Address, implementation: nat): (accessible: SharedRef)
    ensures NativeId(accessible) == data
  {
    SharedRef(data, implementation)
  }

  /** The native object of a node on macOS. */
  method ToNativeRef(data: Address, implementation: nat, cache: Osx.NativeRefCache) returns (h: Handle)
    requires cache.Valid()
    modifies cache
    ensures cache.Valid()
    ensures (cache.State(), h) == Osx.Resolve(old(cache.State()), Upcast(data, implementation))
  {
    h := cache.ToNativeRef(Upcast(data, implementation));
  }

  /** The native handle of a node on Linux. */
  method ToNativeRefLinux(data: Address, implementation: nat, cache: Linux.NativeRefCache) returns (h: Handle)
    modifies cache
    ensures (cache.entries, h) == Linux.Resolve(old(cache.entries), Upcast(data, implementation))
  {
    h := cache.ToNativeRef(Upcast(data, implementation));
  }

  /** Start-up: the Linux probe of the accessibility bus, given the bus's
      reply. */
  function Init(reply: Linux.Message): (r: Result<bool, Linux.ProbeError>)
    ensures r.Success? ==> reply == Linux.EnabledReply(r.value)
    ensures forall enabled :: reply == Linux.EnabledReply(enabled) ==> r == Success(enabled)
  {
    Linux.CheckProbeReply(reply)
  }

  /** Whichever implementation a node type has, the handle and the cache
      keys depend on the node's data alone. */
  lemma HandleIgnoresImplementation(st: Osx.CacheState, data: Address, i1: nat, i2: nat)
    ensures Osx.Resolve(st, Upcast(data, i1)).1 == Osx.Resolve(st, Upcast(data, i2)).1
    ensures Osx.Resolve(st, Upcast(data, i1)).0.entries == Osx.Resolve(st, Upcast(data, i2)).0.entries
  {
    Osx.ResolveFollowsIdentity(st, Upcast(data, i1), Upcast(data, i2));
  }
}
