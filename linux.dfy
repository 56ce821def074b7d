/** The Linux bridge: a handle cache that records every node under the
    constant handle 0, and the start-up probe of the accessibility bus. */
module Linux {
  import opened AccessibleTypes

  /** The cached handle of a node, and the cache after the call. */
  function Resolve(entries: map<Address, Handle>, accessible: SharedRef): (r: (map<Address, Handle>, Handle))
    ensures NativeId(accessible) in entries ==> r == (entries, entries[NativeId(accessible)])
    ensures NativeId(accessible) !in entries ==> r == (entries[NativeId(accessible) := 0], 0)
    ensures NativeId(accessible) in r.0 && r.0[NativeId(accessible)] == r.1
    ensures r.0.Keys == entries.Keys + {NativeId(accessible)}
    ensures forall id | id in entries :: r.0[id] == entries[id]
  {
    var aid := NativeId(accessible);
    if aid in entries then (entries, entries[aid]) else (entries[aid := 0], 0)
  }

  /** A second call on the same node returns the same handle and changes
      nothing. */
  lemma ResolveIdempotent(entries: map<Address, Handle>, accessible: SharedRef)
    ensures Resolve(Resolve(entries, accessible).0, accessible) == Resolve(entries, accessible)
  {
  }

  predicate AllZero(entries: map<Address, Handle>)
  {
    forall id | id in entries :: entries[id] == 0
  }

  /** A run of calls, one node after another. */
  function ResolveMany(entries: map<Address, Handle>, nodes: seq<SharedRef>): (map<Address, Handle>, seq<Handle>)
    decreases |nodes|
  {
    if nodes == [] then (entries, [])
    else
      var first := Resolve(entries, nodes[0]);
      var rest := ResolveMany(first.0, nodes[1..]);
      (rest.0, [first.1] + rest.1)
  }

  /** A cache filled only by these calls holds nothing but 0, and every call
      returns 0. */
  lemma {:induction false} OnlyZeroHandles(entries: map<Address, Handle>, nodes: seq<SharedRef>)
    requires AllZero(entries)
    decreases |nodes|
    ensures var (final, handles) := ResolveMany(entries, nodes);
            && AllZero(final)
            && |handles| == |nodes|
            && (forall i | 0 <= i < |handles| :: handles[i] == 0)
  {
    if nodes != [] {
      var (first, h) := Resolve(entries, nodes[0]);
      OnlyZeroHandles(first, nodes[1..]);
    }
  }

  /** Unlike the macOS bridge, two distinct nodes share one handle. */
  lemma DistinctNodesShareHandle(a: SharedRef, b: SharedRef)
    requires NativeId(a) != NativeId(b)
    ensures var (first, ha) := Resolve(map[], a);
            Resolve(first, b).1 == ha == 0
  {
  }

  /** The handle cache. */
  class NativeRefCache {
    var entries: map<Address, Handle>

    constructor ()
      ensures entries == map[]
    {
      entries := map[];
    }

    /** The cached handle of a node, recording 0 for a node not seen before. */
    method ToNativeRef(accessible: SharedRef) returns (h: Handle)
      modifies this
      ensures (entries, h) == Resolve(old(entries), accessible)
      ensures old(NativeId(accessible) in entries) ==>
                h == old(entries[NativeId(accessible)]) && unchanged(this)
      ensures old(NativeId(accessible) !in entries) ==>
                h == 0 && entries == old(entries)[NativeId(accessible) := 0]
    {
      var aid := NativeId(accessible);
      if aid in entries {
        return entries[aid];
      }
      h := 0;
      entries := entries[aid := h];
    }
  }

  /** The kinds of message the bus delivers. */
  datatype MessageType = MethodCall | MethodReturn | Error | Signal

  /** The items a message carries. */
  datatype MessageItem =
    | Bool(b: bool)
    | Str(s: string)
    | Int(i: int)
    | Variant(inner: MessageItem)
    | Array(items: seq<MessageItem>)

  datatype Message = Message(msgType: MessageType, items: seq<MessageItem>)

  /** Why the probe's reply is refused. */
  datatype ProbeError =
    | NotMethodReturn(msgType: MessageType)
    | WrongItemCount(count: nat)
    | UnexpectedReturnType(item: MessageItem)

  /** The reply a bus sends to the "IsEnabled" property request: a method
      return holding one variant that wraps the flag. */
  function EnabledReply(enabled: bool): Message
  {
    Message(MethodReturn, [Variant(Bool(enabled))])
  }

  /** The start-up probe's check of the bus's reply, in the order the checks
      are made: the message type, then the item count, then the item's shape.
      A refused reply is where the source aborts. */
  function CheckProbeReply(reply: Message): (r: Result<bool, ProbeError>)
    ensures r.Success? ==> reply == EnabledReply(r.value)
    ensures forall enabled :: reply == EnabledReply(enabled) ==> r == Success(enabled)
    ensures reply.msgType != MethodReturn ==> r == Failure(NotMethodReturn(reply.msgType))
    ensures reply.msgType == MethodReturn && |reply.items| != 1 ==> r == Failure(WrongItemCount(|reply.items|))
  {
    if reply.msgType != MethodReturn then Failure(NotMethodReturn(reply.msgType))
    else if |reply.items| != 1 then Failure(WrongItemCount(|reply.items|))
    else match reply.items[0]
      case Variant(Bool(b)) => Success(b)
      case _ => Failure(UnexpectedReturnType(reply.items[0]))
  }

  /** Every well-shaped reply is accepted with its flag. */
  lemma ProbeAcceptsEnabledReply(enabled: bool)
    ensures CheckProbeReply(EnabledReply(enabled)) == Success(enabled)
  {
  }

  /** A single item that is not a variant wrapping a boolean is refused. */
  lemma ProbeRefusesOtherShapes(item: MessageItem)
    requires !(item.Variant? && item.inner.Bool?)
    ensures CheckProbeReply(Message(MethodReturn, [item])) == Failure(UnexpectedReturnType(item))
  {
  }
}
