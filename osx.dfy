/** The macOS bridge: the cache that gives each accessible node exactly one
    native object, and the answers that object gives to the host's
    accessibility queries. */
module Osx {
  import opened AccessibleTypes

  /** The Objective-C value an attribute query answers with. `Nil` is the
      null object the bridge itself answers; a handle passed through from the
      application (a native parent) is answered as `Object` whatever its
      value, so a null native parent is `Object(0)`, as the source returns
      that pointer unexamined. */
  datatype AttrValue =
    | Nil
    | Str(s: string)
    | Object(handle: Handle)
    | Array(items: seq<AttrValue>)
    | Point(x: real, y: real)
    | Size(width: real, height: real)

  /** The bridge's state: the identity cache, the node each native object
      stands for (the object's hidden "native" field), and how many objects
      have been allocated so far. Objects are numbered from 1, so that no
      allocated object is the null object 0. */
  datatype CacheState = CacheState(
    entries: map<Address, Handle>,
    objects: map<Handle, SharedRef>,
    objectCount: nat)

  const EMPTY_CACHE: CacheState := CacheState(map[], map[], 0)

  /** The cache and the objects agree: every identity has one allocated
      object that stands for a node of that identity, and every object is
      the one its node's identity is cached under. In particular no object
      is shared by two identities and none is orphaned. */
  predicate WellFormed(st: CacheState)
  {
    && (forall id | id in st.entries ::
          && 0 < st.entries[id] <= st.objectCount
          && st.entries[id] in st.objects
          && NativeId(st.objects[st.entries[id]]) == id)
    && (forall h | h in st.objects ::
          && 0 < h <= st.objectCount
          && NativeId(st.objects[h]) in st.entries
          && st.entries[NativeId(st.objects[h])] == h)
  }

  /** No object is shared by two identities. */
  lemma WellFormedInjective(st: CacheState, a: Address, b: Address)
    requires WellFormed(st)
    requires a in st.entries && b in st.entries && a != b
    ensures st.entries[a] != st.entries[b]
  {
  }

  /** `st'` keeps every handle `st` has: entries are never replaced or evicted. */
  predicate Extends(st: CacheState, st': CacheState)
  {
    && st.entries.Keys <= st'.entries.Keys
    && (forall id | id in st.entries :: st'.entries[id] == st.entries[id])
  }

  /** The look-up half of resolving a node. */
  function Lookup(st: CacheState, id: Address): Option<Handle>
  {
    if id in st.entries then Some(st.entries[id]) else None
  }

  /** The allocating half of resolving a node: a new object standing for the
      node, retained and recorded under the node's identity. */
  function Register(st: CacheState, accessible: SharedRef): (CacheState, Handle)
  {
    var h := st.objectCount + 1;
    (CacheState(st.entries[NativeId(accessible) := h], st.objects[h := accessible], h), h)
  }

  /** The native object for a node, as one uninterrupted look-up and
      registration. */
  function Resolve(st: CacheState, accessible: SharedRef): (r: (CacheState, Handle))
    ensures NativeId(accessible) in st.entries ==> r == (st, st.entries[NativeId(accessible)])
    ensures NativeId(accessible) !in st.entries ==>
              && r.0.entries == st.entries[NativeId(accessible) := r.1]
              && (WellFormed(st) ==> r.1 !in st.entries.Values && r.1 !in st.objects)
    ensures NativeId(accessible) in r.0.entries && r.0.entries[NativeId(accessible)] == r.1
    ensures WellFormed(st) ==> WellFormed(r.0) && Extends(st, r.0)
    ensures WellFormed(st) ==> r.1 in r.0.objects && NativeId(r.0.objects[r.1]) == NativeId(accessible)
  {
    match Lookup(st, NativeId(accessible))
    case Some(h) => (st, h)
    case None => Register(st, accessible)
  }

  /** Resolving again what was just resolved finds the same object and
      changes nothing. */
  lemma ResolveIdempotent(st: CacheState, accessible: SharedRef)
    ensures Resolve(Resolve(st, accessible).0, accessible) == Resolve(st, accessible)
  {
  }

  /** Two shared references to one node resolve to the same object. */
  lemma ResolveFollowsIdentity(st: CacheState, a: SharedRef, b: SharedRef)
    requires NativeId(a) == NativeId(b)
    ensures Resolve(st, a).1 == Resolve(st, b).1
    ensures Resolve(st, a).0.entries == Resolve(st, b).0.entries
  {
  }

  /** Nodes of different identities, resolved one after the other, get
      different objects. */
  lemma ResolveSeparatesIdentities(st: CacheState, a: SharedRef, b: SharedRef)
    requires WellFormed(st)
    requires NativeId(a) != NativeId(b)
    ensures var (st1, ha) := Resolve(st, a);
            Resolve(st1, b).1 != ha
  {
  }

  /** Resolving a sequence of nodes from left to right. */
  function ResolveAll(st: CacheState, nodes: seq<SharedRef>): (CacheState, seq<Handle>)
    decreases |nodes|
  {
    if nodes == [] then (st, [])
    else
      var (mid, handles) := ResolveAll(st, nodes[..|nodes| - 1]);
      var (last, h) := Resolve(mid, nodes[|nodes| - 1]);
      (last, handles + [h])
  }

  /** Resolving one more node continues from where the sequence left off. */
  lemma ResolveAllAppend(st: CacheState, nodes: seq<SharedRef>, node: SharedRef)
    ensures var (mid, handles) := ResolveAll(st, nodes);
            var (last, h) := Resolve(mid, node);
            ResolveAll(st, nodes + [node]) == (last, handles + [h])
  {
    assert (nodes + [node])[..|nodes|] == nodes;
  }

  /** Resolving a sequence keeps its order and length: the i-th handle is the
      object cached for the i-th node, which stands for that node; only the
      identities of those nodes are added to the cache. */
  lemma {:induction false} ResolveAllInOrder(st: CacheState, nodes: seq<SharedRef>)
    requires WellFormed(st)
    ensures var (st', handles) := ResolveAll(st, nodes);
            && WellFormed(st') && Extends(st, st')
            && |handles| == |nodes|
            && (forall i | 0 <= i < |nodes| ::
                  && NativeId(nodes[i]) in st'.entries
                  && st'.entries[NativeId(nodes[i])] == handles[i]
                  && handles[i] in st'.objects
                  && NativeId(st'.objects[handles[i]]) == NativeId(nodes[i]))
  {
    if nodes != [] {
      var n := |nodes| - 1;
      var prefix := nodes[..n];
      ResolveAllInOrder(st, prefix);
      var (mid, handles) := ResolveAll(st, prefix);
      var (last, h) := Resolve(mid, nodes[n]);
      assert ResolveAll(st, nodes) == (last, handles + [h]);
      assert Extends(mid, last);
      ExtendsTransitive(st, mid, last);
      forall i | 0 <= i < |nodes|
        ensures && NativeId(nodes[i]) in last.entries
                && last.entries[NativeId(nodes[i])] == (handles + [h])[i]
                && (handles + [h])[i] in last.objects
                && NativeId(last.objects[(handles + [h])[i]]) == NativeId(nodes[i])
      {
        if i < n {
          assert nodes[i] == prefix[i];
        }
      }
    }
  }

  /** Resolving a sequence adds the identities of its nodes to the cache and
      no other key. */
  lemma {:induction false} ResolveAllKeys(st: CacheState, nodes: seq<SharedRef>)
    ensures ResolveAll(st, nodes).0.entries.Keys
            == st.entries.Keys + (set i | 0 <= i < |nodes| :: NativeId(nodes[i]))
  {
    if nodes != [] {
      var n := |nodes| - 1;
      var prefix := nodes[..n];
      ResolveAllKeys(st, prefix);
      var ids := set i | 0 <= i < |nodes| :: NativeId(nodes[i]);
      var prefixIds := set i | 0 <= i < n :: NativeId(prefix[i]);
      assert ResolveAll(st, nodes).0.entries.Keys
          == ResolveAll(st, prefix).0.entries.Keys + {NativeId(nodes[n])};
      assert ids == prefixIds + {NativeId(nodes[n])} by {
        forall id | id in ids ensures id in prefixIds + {NativeId(nodes[n])} {
          var i :| 0 <= i < |nodes| && id == NativeId(nodes[i]);
          if i < n { assert nodes[i] == prefix[i]; }
        }
        forall id | id in prefixIds ensures id in ids {
          var i :| 0 <= i < n && id == NativeId(prefix[i]);
          assert prefix[i] == nodes[i];
        }
      }
    }
  }

  lemma ExtendsTransitive(a: CacheState, b: CacheState, c: CacheState)
    requires Extends(a, b) && Extends(b, c)
    ensures Extends(a, c)
  {
  }

  /** The role strings of the platform's accessibility protocol. */
  function AxRole(role: Role): (name: string)
    ensures |name| > 2 && name[..2] == "AX"
  {
    match role
    case Group => "AXGroup"
    case StaticText => "AXStaticText"
    case Image => "AXImage"
    case Button => "AXButton"
    case Window => "AXWindow"
    case ScrollArea => "AXScrollArea"
  }

  /** Reading a role string back. */
  function RoleOfAx(name: string): Option<Role>
  {
    if name == "AXGroup" then Some(Group)
    else if name == "AXStaticText" then Some(StaticText)
    else if name == "AXImage" then Some(Image)
    else if name == "AXButton" then Some(Button)
    else if name == "AXWindow" then Some(Window)
    else if name == "AXScrollArea" then Some(ScrollArea)
    else None
  }

  /** Every role has its own string, so no two roles are confused. */
  lemma AxRoleInjective(a: Role, b: Role)
    ensures RoleOfAx(AxRole(a)) == Some(a)
    ensures AxRole(a) == AxRole(b) <==> a == b
  {
  }

  /** The attributes the bridge advertises, in the order it lists them. */
  const ATTRIBUTE_NAMES: seq<string> :=
    ["AXChildren", "AXParent", "AXRole", "AXTitle", "AXValue", "AXSize", "AXPosition"]

  /** An array of native strings. */
  function Strs(names: seq<string>): (items: seq<AttrValue>)
    ensures |items| == |names|
    ensures forall i | 0 <= i < |names| :: items[i] == Str(names[i])
  {
    seq(|names|, i requires 0 <= i < |names| => Str(names[i]))
  }

  /** An array of native objects. */
  function Objects(handles: seq<Handle>): (items: seq<AttrValue>)
    ensures |items| == |handles|
    ensures forall i | 0 <= i < |handles| :: items[i] == Object(handles[i])
  {
    seq(|handles|, i requires 0 <= i < |handles| => Object(handles[i]))
  }

  /** An optional string, as a native string or the null object. */
  function OptionalStr(s: Option<string>): AttrValue
  {
    match s
    case Some(text) => Str(text)
    case None => Nil
  }

  /** `receiver` is an object of the bridge whose node is alive. */
  predicate Bridged(st: CacheState, tree: Tree, receiver: Handle)
  {
    WellFormed(st) && receiver in st.objects && NativeId(st.objects[receiver]) in tree
  }

  /** The node an object stands for. */
  function NodeOf(st: CacheState, tree: Tree, receiver: Handle): Node
    requires Bridged(st, tree, receiver)
  {
    tree[NativeId(st.objects[receiver])]
  }

  /** The answer to an attribute-value query on `receiver`, and the bridge state
      after it. Only the structural attributes may add objects; everything
      that is not advertised answers the null object. */
  function AttributeValue(st: CacheState, tree: Tree, receiver: Handle, attribute: string): (r: (CacheState, AttrValue))
    requires Bridged(st, tree, receiver)
    ensures WellFormed(r.0) && Extends(st, r.0)
    ensures attribute != "AXChildren" && attribute != "AXParent" ==> r.0 == st
    ensures attribute !in ATTRIBUTE_NAMES ==> r.1 == Nil
  {
    var node := NodeOf(st, tree, receiver);
    if attribute == "AXChildren" then
      ResolveAllInOrder(st, node.children);
      var (st', handles) := ResolveAll(st, node.children);
      (st', Array(Objects(handles)))
    else if attribute == "AXParent" then
      match node.parent
      case Accessible(parent) =>
        var (st', h) := Resolve(st, parent);
        (st', Object(h))
      case Native(h) => (st, Object(h))
    else if attribute == "AXRole" then (st, Str(AxRole(node.role)))
    else if attribute == "AXTitle" then (st, OptionalStr(node.title))
    else if attribute == "AXValue" then (st, OptionalStr(node.value))
    else if attribute == "AXPosition" then (st, Point(node.position.x, node.position.y))
    else if attribute == "AXSize" then (st, Size(node.dimensions.w, node.dimensions.h))
    else (st, Nil)
  }

  /** Children answers an array as long as the node's children, in their
      order, whose i-th element is the object of the i-th child; every child
      then has an object, and no earlier object is replaced. */
  lemma ChildrenAttribute(st: CacheState, tree: Tree, receiver: Handle)
    requires Bridged(st, tree, receiver)
    ensures var children := NodeOf(st, tree, receiver).children;
            var (st', v) := AttributeValue(st, tree, receiver, "AXChildren");
            && v.Array? && |v.items| == |children|
            && Extends(st, st')
            && st'.entries.Keys == st.entries.Keys + (set i | 0 <= i < |children| :: NativeId(children[i]))
            && (forall i | 0 <= i < |children| ::
                  && NativeId(children[i]) in st'.entries
                  && v.items[i] == Object(st'.entries[NativeId(children[i])])
                  && NativeId(st'.objects[st'.entries[NativeId(children[i])]]) == NativeId(children[i]))
  {
    ResolveAllInOrder(st, NodeOf(st, tree, receiver).children);
    ResolveAllKeys(st, NodeOf(st, tree, receiver).children);
  }

  /** Parent passes a native parent through untouched, and resolves an
      accessible parent to the object that stands for it. */
  lemma ParentAttribute(st: CacheState, tree: Tree, receiver: Handle)
    requires Bridged(st, tree, receiver)
    ensures var (st', v) := AttributeValue(st, tree, receiver, "AXParent");
            match NodeOf(st, tree, receiver).parent
            case Native(h) => st' == st && v == Object(h)
            case Accessible(p) =>
              && v == Object(Resolve(st, p).1) && st' == Resolve(st, p).0
              && NativeId(st'.objects[v.handle]) == NativeId(p)
  {
  }

  /** Role, Title, Value, Position and Size read the node and change nothing;
      an absent title or value is the null object, not a failure. */
  lemma DescriptiveAttributes(st: CacheState, tree: Tree, receiver: Handle)
    requires Bridged(st, tree, receiver)
    ensures var node := NodeOf(st, tree, receiver);
            && AttributeValue(st, tree, receiver, "AXRole") == (st, Str(AxRole(node.role)))
            && AttributeValue(st, tree, receiver, "AXTitle")
               == (st, if node.title.Some? then Str(node.title.value) else Nil)
            && AttributeValue(st, tree, receiver, "AXValue")
               == (st, if node.value.Some? then Str(node.value.value) else Nil)
            && AttributeValue(st, tree, receiver, "AXPosition")
               == (st, Point(node.position.x, node.position.y))
            && AttributeValue(st, tree, receiver, "AXSize")
               == (st, Size(node.dimensions.w, node.dimensions.h))
  {
  }

  /** The messages the bridge's native object class answers. */
  datatype Message =
    | AttributeNames
    | AttributeValueOf(attribute: string)
    | HitTest(x: real, y: real)
    | IsIgnored
    | FocusedUIElement
    | IsAttributeSettable(attribute: string)
    | ActionNames
    | ActionDescription(action: string)
    | PerformAction(action: string)

  /** What a message returns: an object, a boolean, or nothing. */
  datatype Reply = Id(value: AttrValue) | Bool(flag: bool) | Void

  /** The selector each message is sent with. */
  function Selector(msg: Message): string
  {
    match msg
    case AttributeNames => "accessibilityAttributeNames"
    case AttributeValueOf(_) => "accessibilityAttributeValue:"
    case HitTest(_, _) => "accessibilityHitTest:"
    case IsIgnored => "accessibilityIsIgnored"
    case FocusedUIElement => "accessibilityFocusedUIElement"
    case IsAttributeSettable(_) => "accessibilityIsAttributeSettable:"
    case ActionNames => "accessibilityActionNames"
    case ActionDescription(_) => "accessibilityActionDescription:"
    case PerformAction(_) => "accessibilityPerformAction:"
  }

  /** The messages that are answered without looking at the node. */
  predicate IsStub(msg: Message)
  {
    !msg.AttributeNames? && !msg.AttributeValueOf?
  }

  /** The bridge object's answer to a message, and the bridge state after it. */
  function Respond(st: CacheState, tree: Tree, receiver: Handle, msg: Message): (r: (CacheState, Reply))
    requires Bridged(st, tree, receiver)
    ensures WellFormed(r.0) && Extends(st, r.0)
    ensures !msg.AttributeValueOf? ==> r.0 == st
  {
    match msg
    case AttributeNames => (st, Id(Array(Strs(ATTRIBUTE_NAMES))))
    case AttributeValueOf(attribute) =>
      var (st', v) := AttributeValue(st, tree, receiver, attribute);
      (st', Id(v))
    case HitTest(_, _) => (st, Id(Nil))
    case IsIgnored => (st, Bool(false))
    case FocusedUIElement => (st, Id(Nil))
    case IsAttributeSettable(_) => (st, Bool(false))
    case ActionNames => (st, Id(Array([])))
    case ActionDescription(_) => (st, Id(Str("")))
    case PerformAction(_) => (st, Void)
  }

  /** The attribute names reply lists seven distinct "AX" names, and every
      name it does not list is answered with the null object. */
  lemma AttributeNamesReply(st: CacheState, tree: Tree, receiver: Handle, attribute: string)
    requires Bridged(st, tree, receiver)
    ensures var reply := Respond(st, tree, receiver, AttributeNames).1;
            && reply.Id? && reply.value.Array? && |reply.value.items| == 7
            && (forall i | 0 <= i < 7 :: reply.value.items[i] == Str(ATTRIBUTE_NAMES[i]))
            && (forall i, j | 0 <= i < j < 7 :: ATTRIBUTE_NAMES[i] != ATTRIBUTE_NAMES[j])
            && (forall i | 0 <= i < 7 :: ATTRIBUTE_NAMES[i][..2] == "AX")
    ensures attribute !in ATTRIBUTE_NAMES ==>
              Respond(st, tree, receiver, AttributeValueOf(attribute)) == (st, Id(Nil))
  {
  }

  /** The stubs' fixed answers. */
  lemma StubReplies(st: CacheState, tree: Tree, receiver: Handle, msg: Message)
    requires Bridged(st, tree, receiver)
    requires IsStub(msg)
    ensures var (st', reply) := Respond(st, tree, receiver, msg);
            && st' == st
            && (msg.HitTest? || msg.FocusedUIElement? ==> reply == Id(Nil))
            && (msg.IsIgnored? || msg.IsAttributeSettable? ==> reply == Bool(false))
            && (msg.ActionNames? ==> reply == Id(Array([])))
            && (msg.ActionDescription? ==> reply == Id(Str("")))
            && (msg.PerformAction? ==> reply == Void)
  {
  }

  /** A stub's answer depends on its selector alone: not on the receiving
      object, its node, the bridge state, or the message's argument. */
  lemma StubsIgnoreContext(st1: CacheState, tree1: Tree, receiver1: Handle, msg1: Message,
                           st2: CacheState, tree2: Tree, receiver2: Handle, msg2: Message)
    requires Bridged(st1, tree1, receiver1) && Bridged(st2, tree2, receiver2)
    requires IsStub(msg1) && Selector(msg1) == Selector(msg2)
    ensures Respond(st1, tree1, receiver1, msg1).1 == Respond(st2, tree2, receiver2, msg2).1
  {
  }

  /** The identity cache shared by all nodes bridged from one root. */
  class NativeRefCache {
    var entries: map<Address, Handle>
    var objects: map<Handle, SharedRef>
    var objectCount: nat

    function State(): CacheState
      reads this
    {
      CacheState(entries, objects, objectCount)
    }

    predicate Valid()
      reads this
    {
      WellFormed(State())
    }

    constructor ()
      ensures Valid() && State() == EMPTY_CACHE
    {
      entries, objects, objectCount := map[], map[], 0;
    }

    /** The object for a node: the cached one if its identity has one,
        otherwise a new object, recorded under its identity. */
    method ToNativeRef(accessible: SharedRef) returns (h: Handle)
      requires Valid()
      modifies this
      ensures Valid()
      ensures (State(), h) == Resolve(old(State()), accessible)
      ensures old(NativeId(accessible) in entries) ==>
                h == old(entries[NativeId(accessible)]) && unchanged(this)
      ensures old(NativeId(accessible) !in entries) ==>
                && h !in old(entries.Values)
                && entries == old(entries)[NativeId(accessible) := h]
    {
      var aid := NativeId(accessible);
      if aid in entries {
        return entries[aid];
      }
      objectCount := objectCount + 1;
      h := objectCount;
      objects := objects[h := accessible];
      entries := entries[aid := h];
    }
  }

  /** The attribute-value query, resolving children one at a time. */
  method AccessibilityAttributeValue(cache: NativeRefCache, tree: Tree, receiver: Handle, attribute: string)
    returns (v: AttrValue)
    requires Bridged(cache.State(), tree, receiver)
    modifies cache
    ensures cache.Valid()
    ensures (cache.State(), v) == AttributeValue(old(cache.State()), tree, receiver, attribute)
  {
    var node := tree[NativeId(cache.objects[receiver])];
    if attribute == "AXChildren" {
      var children := node.children;
      var handles: seq<Handle> := [];
      var i := 0;
      while i < |children|
        invariant 0 <= i <= |children|
        invariant cache.Valid()
        invariant (cache.State(), handles) == ResolveAll(old(cache.State()), children[..i])
      {
        assert children[..i + 1][..i] == children[..i];
        var h := cache.ToNativeRef(children[i]);
        handles := handles + [h];
        i := i + 1;
      }
      assert children[..i] == children;
      return Array(Objects(handles));
    }
    if attribute == "AXParent" {
      match node.parent
      case Accessible(parent) =>
        var h := cache.ToNativeRef(parent);
        return Object(h);
      case Native(h) =>
        return Object(h);
    }
    if attribute == "AXRole" {
      return Str(AxRole(node.role));
    }
    if attribute == "AXTitle" {
      return OptionalStr(node.title);
    }
    if attribute == "AXValue" {
      return OptionalStr(node.value);
    }
    if attribute == "AXPosition" {
      return Point(node.position.x, node.position.y);
    }
    if attribute == "AXSize" {
      return Size(node.dimensions.w, node.dimensions.h);
    }
    return Nil;
  }

  /** Sending a message to a bridge object. */
  method Send(cache: NativeRefCache, tree: Tree, receiver: Handle, msg: Message) returns (reply: Reply)
    requires Bridged(cache.State(), tree, receiver)
    modifies cache
    ensures cache.Valid()
    ensures (cache.State(), reply) == Respond(old(cache.State()), tree, receiver, msg)
    ensures !msg.AttributeValueOf? ==> unchanged(cache)
  {
    match msg
    case AttributeNames =>
      reply := Id(Array(Strs(ATTRIBUTE_NAMES)));
    case AttributeValueOf(attribute) =>
      var v := AccessibilityAttributeValue(cache, tree, receiver, attribute);
      reply := Id(v);
    case HitTest(_, _) =>
      reply := Id(Nil);
    case IsIgnored =>
      reply := Bool(false);
    case FocusedUIElement =>
      reply := Id(Nil);
    case IsAttributeSettable(_) =>
      reply := Bool(false);
    case ActionNames =>
      reply := Id(Array([]));
    case ActionDescription(_) =>
      reply := Id(Str(""));
    case PerformAction(_) =>
      reply := Void;
  }

  /** Two callers resolving the same node that has no object yet may both
      find it missing before either records one, since the look-up and the
      insertion are separate steps. Each then registers an object: the second
      replaces the first in the cache, and the first is left standing for the
      node without being reachable from it. */
  lemma RacingResolutionsOrphanAnObject(st: CacheState, accessible: SharedRef)
    requires WellFormed(st) && NativeId(accessible) !in st.entries
    ensures Lookup(st, NativeId(accessible)).None?
    ensures var (st1, h1) := Register(st, accessible);
            var (st2, h2) := Register(st1, accessible);
            && h1 != h2
            && h1 in st2.objects && NativeId(st2.objects[h1]) == NativeId(accessible)
            && st2.entries[NativeId(accessible)] == h2
            && !WellFormed(st2)
  {
  }

  /** The texts of the demonstration tree's children, left to right. */
  const DEMO_TEXTS: seq<string> := ["first text", "second text", "third text"]

  /** A root with three static-text children, as an application builds it:
      querying the root's Children gives three objects, in the children's
      order; each answers its own text as Value and the root's object as
      Parent, while the root's Parent is the window it was given. */
  lemma ThreeTextChildren(st: CacheState, window: Handle, vtable: nat, rootObject: Handle)
    requires Bridged(st, DemoTree(window, vtable), rootObject)
    requires NativeId(st.objects[rootObject]) == 0
    ensures var tree := DemoTree(window, vtable);
            var (st', v) := AttributeValue(st, tree, rootObject, "AXChildren");
            && v.Array? && |v.items| == 3
            && Bridged(st', tree, rootObject)
            && AttributeValue(st', tree, rootObject, "AXParent") == (st', Object(window))
            && forall i | 0 <= i < 3 ::
                 && v.items[i].Object?
                 && Bridged(st', tree, v.items[i].handle)
                 && AttributeValue(st', tree, v.items[i].handle, "AXValue") == (st', Str(DEMO_TEXTS[i]))
                 && AttributeValue(st', tree, v.items[i].handle, "AXParent") == (st', Object(rootObject))
  {
    var tree := DemoTree(window, vtable);
    ChildrenAttribute(st, tree, rootObject);
    var (st', v) := AttributeValue(st, tree, rootObject, "AXChildren");
    var children := tree[0].children;
    assert 0 in st.entries && st.entries[0] == rootObject;
    assert st'.entries[0] == rootObject;
    forall i | 0 <= i < 3
      ensures && v.items[i].Object?
              && Bridged(st', tree, v.items[i].handle)
              && AttributeValue(st', tree, v.items[i].handle, "AXValue") == (st', Str(DEMO_TEXTS[i]))
              && AttributeValue(st', tree, v.items[i].handle, "AXParent") == (st', Object(rootObject))
    {
      assert NativeId(children[i]) == i + 1;
      DemoChildAnswers(st', window, vtable, rootObject, v.items[i].handle, i);
    }
  }

  /** One child of the demonstration tree, once it has its object. */
  lemma DemoChildAnswers(st: CacheState, window: Handle, vtable: nat, rootObject: Handle, h: Handle, i: nat)
    requires WellFormed(st) && i < 3
    requires 0 in st.entries && st.entries[0] == rootObject
    requires h in st.objects && NativeId(st.objects[h]) == i + 1
    ensures Bridged(st, DemoTree(window, vtable), h)
    ensures AttributeValue(st, DemoTree(window, vtable), h, "AXValue") == (st, Str(DEMO_TEXTS[i]))
    ensures AttributeValue(st, DemoTree(window, vtable), h, "AXParent") == (st, Object(rootObject))
  {
    var tree := DemoTree(window, vtable);
    assert NodeOf(st, tree, h) == tree[i + 1];
    assert NodeOf(st, tree, h).parent == Accessible(SharedRef(0, vtable));
  }

  /** A root window whose children are three lines of static text, each a
      hundred points wide and laid out left to right. The geometry, which the
      application reads from its window, and the single implementation table
      for both node kinds are placeholders: nothing proved about this tree
      depends on them. */
  function DemoTree(window: Handle, vtable: nat): Tree
  {
    var root := SharedRef(0, vtable);
    var text := (s: string, x: real) =>
      Node(Accessible(root), [], StaticText, None, Some(s), Position(x, 50.0), Dimensions(100.0, 50.0));
    map[
      0 := Node(Native(window), [SharedRef(1, vtable), SharedRef(2, vtable), SharedRef(3, vtable)],
                ScrollArea, Some("A fantastic (accessible!) window!"), None,
                Position(0.0, 0.0), Dimensions(300.0, 100.0)),
      1 := text("first text", 0.0),
      2 := text("second text", 100.0),
      3 := text("third text", 200.0)]
  }
}
