# accessible: a verified model of the platform bridge

The `accessible` crate lets an application describe a tree of UI elements
through one capability interface (`Accessible`). It exposes that tree to the
host's accessibility stack. This project models the crate's platform bridge
in Dafny:

- **Data model** (`types.dfy`, module `AccessibleTypes`). This covers the six
  roles, a parent that is either a native handle or another node, and
  optional title and value. A node is reached through a shared reference that
  carries its data address and its implementation table. A node's identity
  (`native_id`) is the data address.
- **macOS bridge** (`osx.dfy`, module `Osx`).
  - The identity cache is a class, `NativeRefCache`. It maps each identity to
    its one native object and records which node each object stands for
    (the object's hidden `native` field).
  - Its method `ToNativeRef` is proved against a pure specification,
    `Resolve`.
  - The object's method table is the pure `Respond`, run by the method `Send`.
    The attribute-value query is `AttributeValue`, run by
    `AccessibilityAttributeValue`. That method resolves the children one at a
    time in a loop that grows the cache.
- **Linux bridge** (`linux.dfy`, module `Linux`). Its cache records every node
  under the constant handle 0. The start-up probe's check of the bus reply is
  a function returning the flag or the reason the reply is refused.
- **Entry points** (`api.dfy`, module `AccessibleApi`). The public
  `to_native_ref` upcasts the node and delegates to the platform. `init`
  delegates to the Linux probe.

Every call is modelled as sequential, so `Resolve` is one uninterrupted
look-up-then-register. The "## Findings" section shows what the source's two
separate lock acquisitions allow instead.

The model follows the code as written, including where it looks unfinished:
- On Linux, every node gets handle 0, as `src/platform/linux.rs:16-18` does.
  So distinct nodes share a handle (`Linux.DistinctNodesShareHandle`).
- `src/platform/osx.rs` defines no `init`. `src/lib.rs:69-71` calls the
  platform's `init`, and among the modelled files only
  src/platform/linux.rs defines one; `src/platform/mod.rs`
  is not part of this model.

## Model

| member | source | states |
|---|---|---|
| AccessibleTypes.RolesAreSix | src/lib.rs:21-28 | Every role is one of exactly six, each listed once |
| AccessibleTypes.ParentIsOneOfTwo | src/lib.rs:30-33 | A parent is exactly one of a native handle or an accessible node |
| AccessibleTypes.NativeIdIsAllocation | src/lib.rs:55-60 | Two references have the same identity exactly when they point at the same allocation (aliases agree, distinct nodes differ); this holds by construction of the identity, and its consequences for the cache are `Osx.ResolveFollowsIdentity` and `AccessibleApi.HandleIgnoresImplementation` |
| AccessibleApi.Upcast | src/lib.rs:62-67 | Seeing a node through the capability interface keeps its data address, hence its identity |
| AccessibleApi.ToNativeRef | src/lib.rs:62-67 | The public entry gives the same handle and the same cache effect as the macOS `to_native_ref` on the upcast node |
| AccessibleApi.ToNativeRefLinux | src/lib.rs:62-67 | The public entry gives the same handle and cache effect as the Linux `to_native_ref` on the upcast node |
| AccessibleApi.HandleIgnoresImplementation | src/lib.rs:55-67 | The handle and the cache keys depend on the node's data alone, not on which implementation the reference carries |
| AccessibleApi.Init | src/lib.rs:69-71 | `init` is the Linux probe: accepted exactly for a well-shaped reply, with its flag |
| Osx.Resolve | src/platform/osx.rs:20-35 | Hit: the stored object is returned and nothing changes. Miss: a new object that no identity holds is recorded under the node's identity, and no other entry changes. Afterwards the identity maps to the result, and that object stands for the node. The one-object-per-identity invariant is kept and no entry is replaced |
| Osx.NativeRefCache.constructor | src/platform/osx.rs:13 | A new cache is empty and satisfies the invariant |
| Osx.NativeRefCache.ToNativeRef | src/platform/osx.rs:20-35 | The in-place cache follows `Resolve`. A hit returns the stored object and leaves the cache unchanged; a miss inserts exactly one fresh entry |
| Osx.ResolveIdempotent | src/platform/osx.rs:21-24 | Resolving a node twice gives the same object, and the second call changes nothing |
| Osx.ResolveFollowsIdentity | src/lib.rs:55-60 | Two shared references to one node resolve to the same object, with the same cache keys |
| Osx.WellFormedInjective | src/platform/osx.rs:20-35 | In any well-formed cache, two distinct identities hold two distinct objects: no object is shared |
| Osx.ResolveSeparatesIdentities | src/platform/osx.rs:26-33 | Nodes of different identities get different objects |
| Osx.ResolveAllInOrder | src/platform/osx.rs:100-106 | Resolving children left to right keeps length and order: handle i is the cached object of child i and stands for it. The invariant holds and earlier entries are kept |
| Osx.ResolveAllKeys | src/platform/osx.rs:100-106 | Resolving children adds exactly the children's identities to the cache keys |
| Osx.AxRole | src/platform/osx.rs:41-52 | Every role, with no default case, maps to an "AX" role string |
| Osx.AxRoleInjective | src/platform/osx.rs:41-52 | The role string reads back to its role, and two roles share a string only if they are the same role |
| Osx.AttributeValue | src/platform/osx.rs:96-154 | Any attribute query keeps the invariant and replaces no entry. Only Children and Parent can change the cache. A name outside the advertised list answers nil |
| Osx.ChildrenAttribute | src/platform/osx.rs:100-107 | Children answers an array as long as the node's children. Element i is the cached object of child i, which stands for that child. Every child identity is then a key, and no other key is added |
| Osx.ParentAttribute | src/platform/osx.rs:109-114 | A native parent is returned unchanged with no cache effect. An accessible parent is resolved through the cache to the object that stands for it |
| Osx.DescriptiveAttributes | src/platform/osx.rs:116-150 | Role, Title, Value, Position and Size answer the role string, the text or nil when absent, and the point and size passed through. None of them changes the cache |
| Osx.AccessibilityAttributeValue | src/platform/osx.rs:96-154 | The query as run, children resolved one by one in a loop, gives the answer and the cache that `AttributeValue` specifies |
| Osx.AttributeNamesReply | src/platform/osx.rs:73-94 | The names reply is the seven distinct "AX" names AXChildren, AXParent, AXRole, AXTitle, AXValue, AXSize, AXPosition in that order; any unlisted name answers nil |
| Osx.Respond | src/platform/osx.rs:195-212 | Every message of the object's method table keeps the invariant. Only the attribute-value query can change the bridge state |
| Osx.StubReplies | src/platform/osx.rs:156-185 | Hit test and focused element answer nil, is-ignored and is-settable answer false, action names an empty array, action description "", and perform-action nothing. None of them changes state |
| Osx.StubsIgnoreContext | src/platform/osx.rs:156-185 | A stub's reply depends on its selector alone, not on the receiver, its node, the cache or the argument |
| Osx.Send | src/platform/osx.rs:195-212 | Sending a message gives the reply and the state that `Respond` specifies; every message other than attribute-value leaves the cache untouched |
| Osx.RacingResolutionsOrphanAnObject | src/platform/osx.rs:20-33 | If two callers both find an unseen node missing and then both register, the second object replaces the first. The first still stands for the node but the cache no longer reaches it, which breaks the invariant |
| Osx.ThreeTextChildren | examples/a11y/src/main.rs:113-121 | For the three-text tree: the root's Children are three objects in order. Each answers its own text as Value and the root's object as Parent, and the root's Parent is the window |
| Linux.Resolve | src/platform/linux.rs:10-19 | Hit: the stored handle is returned and the cache is unchanged. Miss: the identity is recorded with handle 0 and 0 is returned. The identity is then a key, and no other entry changes |
| Linux.NativeRefCache.constructor | src/platform/linux.rs:8 | A new cache is empty |
| Linux.NativeRefCache.ToNativeRef | src/platform/linux.rs:10-19 | The in-place cache follows `Resolve`: a hit leaves it unchanged, a miss inserts identity to 0 and returns 0 |
| Linux.ResolveIdempotent | src/platform/linux.rs:11-18 | A repeated call on the same node returns the same handle and changes nothing |
| Linux.OnlyZeroHandles | src/platform/linux.rs:10-19 | A cache filled only by this function holds only 0, and every call in a run returns 0 |
| Linux.DistinctNodesShareHandle | src/platform/linux.rs:16-18 | Two distinct nodes receive the same handle 0 |
| Linux.CheckProbeReply | src/platform/linux.rs:33-43 | A reply is accepted exactly when it is a method return with one item that is a variant wrapping a boolean, and it yields that boolean. The wrong message type is refused first, then a wrong item count |
| Linux.ProbeAcceptsEnabledReply | src/platform/linux.rs:33-43 | Every well-shaped reply is accepted with its flag |
| Linux.ProbeRefusesOtherShapes | src/platform/linux.rs:35-43 | A single item of any other shape is refused as an unexpected return type |

## Findings

| source | as written | input that shows it | evidently intended | confidence | as-written member | corrected member |
|---|---|---|---|---|---|---|
| src/platform/osx.rs:21-33 | The look-up and the insertion take the cache lock separately | Two threads resolve the same unseen node: look-up, look-up, insert, insert | One native object per identity, none orphaned | not executed | Osx.RacingResolutionsOrphanAnObject | Osx.Resolve |

## Left out

- Objective-C runtime: class registration under a run-once guard (src/platform/osx.rs:187-221), boxing the bridge state into the object's field (src/platform/osx.rs:29, 54-70), `new`/`retain`, and building NSString/NSArray/NSValue. These are foreign calls. An object is a number from a counter kept beside the cache, and its field is the `objects` side table.
- Retain counts and lifetimes: objects are never released, as in the source. Nothing about reclaiming them is modelled.
- Floating point: single-precision coordinates are reals, and widening them to double precision is exact, so Position and Size pass through unchanged. NaN and infinities are not modelled.
- Concurrency: the mutex, `Arc` and lock poisoning are out. Calls run one at a time. The race between the two lock acquisitions appears only as the "## Findings" row.
- `native_id`'s reinterpretation of the trait object's layout (src/lib.rs:55-60) is unsafe memory code. A shared reference is modelled as a pair of a data address and an implementation table, and the identity is the address.
- Linux `init` I/O: the session-bus connection, the request and the blocking send with its 1000 ms timeout (src/platform/linux.rs:22-30). The reply is a parameter, and the abort becomes a `Failure` naming the check that failed. The bus's item kinds are reduced to booleans, strings, integers, variants and arrays.
- Logging (`debug!`, `info!`, `println!`) has no modelled effect.
- The demo application (window, event loop, OpenGL drawing) is not modelled. Only its three-text tree appears, as `Osx.ThreeTextChildren`.
- Osx.ThreeTextChildren: states the scenario for any cache that already holds the root, not only for an empty start, so it does not fix which numbers the children's objects get.
