/** The application-side data model of the accessibility bridge: the capability
    interface every accessible node offers, the values it answers with, and the
    identity the bridge keys its handle caches by. */
module AccessibleTypes {

  datatype Option<+T> = None | Some(value: T)

  datatype Result<+T, +E> = Success(value: T) | Failure(error: E)

  /** The closed classification of an element's semantic kind. */
  datatype Role = Group | StaticText | Image | Button | Window | ScrollArea

  const ALL_ROLES: seq<Role> := [Group, StaticText, Image, Button, Window, ScrollArea]

  /** A platform-native handle (an object pointer on macOS, an integer on Linux). */
  type Handle = nat

  /** The address of a node's backing allocation. */
  type Address = nat

  /** A shared reference to an accessible node: the pointer to the node's data
      together with the table of its capability implementation. Several shared
      references may alias one node; they then agree on `data`. */
  datatype SharedRef = SharedRef(data: Address, vtable: nat)

  /** A node's parent: either a native handle supplied by the host (a window),
      or another accessible node. */
  datatype Parent = Native(handle: Handle) | Accessible(node: SharedRef)

  /** Coordinates are single-precision floats in the source; every such value
      is a real number and widening it to double precision is exact, so a real
      stands for it. */
  datatype Position = Position(x: real, y: real)

  datatype Dimensions = Dimensions(w: real, h: real)

  /** What a node answers to each query of the capability interface. */
  datatype Node = Node(
    parent: Parent,
    children: seq<SharedRef>,
    role: Role,
    title: Option<string>,
    value: Option<string>,
    position: Position,
    dimensions: Dimensions)

  /** The live nodes, by the address of their allocation. */
  type Tree = map<Address, Node>

  /** The stable identity of a node: the address of its data, whatever the
      shared reference it is reached through. */
  function NativeId(accessible: SharedRef): Address
  {
    accessible.data
  }

  /** Two shared references have the same identity exactly when they point at
      the same allocation; distinct allocations give distinct identities. */
  lemma NativeIdIsAllocation(a: SharedRef, b: SharedRef)
    ensures NativeId(a) == NativeId(b) <==> a.data == b.data
  {
  }

  /** The role set is closed: every role is one of six, listed once each. */
  lemma RolesAreSix(r: Role)
    ensures r in ALL_ROLES
    ensures |ALL_ROLES| == 6
    ensures forall i, j | 0 <= i < j < |ALL_ROLES| :: ALL_ROLES[i] != ALL_ROLES[j]
  {
  }

  /** A parent is exactly one of a native handle or an accessible node. */
  lemma ParentIsOneOfTwo(p: Parent)
    ensures p.Native? != p.Accessible?
  {
  }
}
