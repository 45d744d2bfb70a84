/** The UI node tree's bookkeeping (karm-ui/node.h): reconciling a node
    against a freshly built one of the same type, parent links set by
    `attach` and cleared by `detach`, events offered to children until one
    accepts, and lookups and bubbling up the chain of parents. Every node
    here derives from `LeafNode`; `GroupNode` and `ProxyNode` are its two
    container shapes. */
module Ui {
  import opened Wrappers

  /** `Meta::Id`: the identity of a node's concrete type (`Crtp`). */
  type Kind = nat

  /** The three node templates of the header. */
  datatype Shape = Leaf | Group | Proxy

  /** A UI node. `children` is `GroupNode::_children`, or the single
      `_child` of a `ProxyNode`; a plain leaf has none. */
  class Node {
    const kind: Kind
    const shape: Shape
    var parent: Node?
    var children: seq<Node>

    /** The container shape matches the children. */
    predicate Shaped()
      reads this
    {
      (shape == Leaf ==> children == []) && (shape == Proxy ==> |children| == 1)
    }

    /** A `LeafNode`: no parent yet. */
    constructor LeafNode(kind: Kind)
      ensures this.kind == kind && shape == Shape.Leaf && parent == null && children == []
    {
      this.kind := kind;
      shape := Shape.Leaf;
      parent := null;
      children := [];
    }

    /** `GroupNode(children)`: takes the children and attaches each. */
    constructor GroupNode(kind: Kind, cs: seq<Node>)
      modifies set c | c in cs
      ensures this.kind == kind && shape == Shape.Group && parent == null && children == cs
      ensures forall c :: c in cs ==> c.parent == this
    {
      this.kind := kind;
      shape := Shape.Group;
      parent := null;
      children := cs;
      new;
      for i := 0 to |cs|
        invariant children == cs && parent == null
        invariant forall j :: 0 <= j < i ==> cs[j].parent == this
      {
        cs[i].Attach(this);
      }
    }

    /** `ProxyNode(child)`: takes the child and attaches it. */
    constructor ProxyNode(kind: Kind, child: Node)
      modifies child
      ensures this.kind == kind && shape == Proxy && parent == null && children == [child]
      ensures child.parent == this
    {
      this.kind := kind;
      shape := Proxy;
      parent := null;
      children := [child];
      new;
      child.Attach(this);
    }

    /** `LeafNode::attach`. */
    method Attach(p: Node?)
      modifies this`parent
      ensures parent == p
    {
      parent := p;
    }

    /** `LeafNode::detach`: only the current parent can detach. */
    method Detach(p: Node?)
      modifies this`parent
      ensures old(parent) == p ==> parent == null
      ensures old(parent) != p ==> parent == old(parent)
    {
      if parent == p {
        parent := null;
      }
    }

    /** `LeafNode::reconcile(Other)`: a node of the same type is absorbed
        and this node is kept (`NONE`); any other node replaces this one.
        Absorbing runs the container's own reconcile. */
    method Reconcile(o: Node) returns (r: Option<Node>)
      requires Shaped() && o.Shaped() && (o.kind == kind ==> o.shape == shape)
      modifies this, children, o.children
      ensures r == Outcome(this, o)
      ensures o.kind == kind && shape != Leaf ==> children == Reconciled(old(children), old(o.children))
      ensures o.kind == kind && shape != Leaf ==> forall c :: c in children ==> c.parent == this
      ensures shape == Leaf ==> children == old(children)
      ensures Shaped()
      ensures o.kind != kind ==> children == old(children)
      ensures o.kind != kind ==> forall c :: c in old(children) + old(o.children) ==> c.parent == old(c.parent)
      ensures forall n :: n in old(children) + old(o.children) && n !in children ==> n.parent == old(n.parent)
      ensures this !in old(children) + old(o.children) ==> parent == old(parent)
    {
      if o.kind != kind {
        return Some(o);
      }
      if shape == Group {
        ReconcileGroup(o);
      } else if shape == Proxy {
        ReconcileProxy(o);
      }
      return None;
    }

    /** `GroupNode::reconcile`: child `i` is reconciled against `them[i]`
        while both exist, extra children of `o` are inserted, surplus ones
        of this group are truncated, and every child that remains is
        attached to this group. A child dropped from the list keeps its
        parent link. */
    method ReconcileGroup(o: Node)
      requires shape == Group
      modifies this, children, o.children
      ensures children == Reconciled(old(children), old(o.children))
      ensures forall c :: c in children ==> c.parent == this
      ensures forall n :: n in old(children) + old(o.children) && n !in children ==> n.parent == old(n.parent)
      ensures this !in old(children) + old(o.children) ==> parent == old(parent)
    {
      var them := o.children;
      ghost var us := children;
      var i := 0;
      while i < |them|
        invariant 0 <= i <= |them|
        invariant |children| == if i < |us| then |us| else i
        invariant forall j :: 0 <= j < i ==> children[j] == Pick(us, them, j)
        invariant forall j :: i <= j < |us| ==> children[j] == us[j]
        invariant forall j :: 0 <= j < i ==> children[j].parent == this
        invariant forall n :: n in us + them && n !in children[..i] ==> n.parent == old(n.parent)
        invariant this !in us + them ==> parent == old(parent)
      {
        if i < |children| {
          children := children[i := Outcome(children[i], them[i]).GetOr(children[i])];
        } else {
          children := children[..i] + [them[i]] + children[i..];
        }
        assert children[i] == Pick(us, them, i);
        children[i].Attach(this);
        i := i + 1;
      }
      children := children[..|them|];
    }

    /** `ProxyNode::reconcile`: the child is reconciled against `o`'s and
        attached. */
    method ReconcileProxy(o: Node)
      requires shape == Proxy && |children| == 1 && |o.children| == 1
      modifies this, children, o.children
      ensures children == Reconciled(old(children), old(o.children))
      ensures children[0].parent == this
      ensures forall n :: n in old(children) + old(o.children) && n !in children ==> n.parent == old(n.parent)
      ensures this !in old(children) + old(o.children) ==> parent == old(parent)
    {
      var c := Outcome(children[0], o.children[0]).GetOr(children[0]);
      children := [c];
      c.Attach(this);
    }

    /** `GroupNode::event` and `ProxyNode::event`: nothing happens to an
        accepted event; otherwise the children get it in order until one
        accepts it. How each child handles it is given by `accepts`.
        `delivered` counts the children that received the event. */
    method Event(accepted: bool, accepts: seq<bool>) returns (acc: bool, delivered: nat)
      requires shape != Leaf && Shaped() && |accepts| == |children|
      ensures acc <==> accepted || true in accepts
      ensures delivered == if accepted then 0 else Reached(accepts)
    {
      if accepted {
        return true, 0;
      }
      if shape == Proxy {
        return accepts[0], 1;
      }
      acc, delivered := false, 0;
      for i := 0 to |children|
        invariant !acc && delivered == i
        invariant forall j :: 0 <= j < i ==> !accepts[j]
      {
        delivered := delivered + 1;
        if accepts[i] {
          ReachedAt(accepts, i);
          return true, delivered;
        }
      }
      ReachedAt(accepts, |accepts|);
    }
  }

  /** The outcome of `LeafNode::reconcile(Other)`: `NONE` exactly when
      the other node has this node's type, the other node otherwise. */
  function Outcome(n: Node, o: Node): (r: Option<Node>)
    ensures r.None? <==> n.kind == o.kind
    ensures r.Some? ==> r.value == o
  {
    if o.kind != n.kind then Some(o) else None
  }

  /** Child `i` after a group reconcile. */
  function Pick(us: seq<Node>, them: seq<Node>, i: nat): Node
    requires i < |them|
  {
    if i < |us| then Outcome(us[i], them[i]).GetOr(us[i]) else them[i]
  }

  /** The children after a group reconcile, one per child of the other
      group. */
  function Reconciled(us: seq<Node>, them: seq<Node>): (r: seq<Node>)
    ensures |r| == |them|
  {
    seq(|them|, i requires 0 <= i < |them| => Pick(us, them, i))
  }

  /** After a reconcile, position `i` holds this group's child when the
      two children there have the same type, and the other group's child
      when they differ or this group had no child there. */
  lemma ReconciledChildren(us: seq<Node>, them: seq<Node>, i: nat)
    requires i < |them|
    ensures i < |us| && us[i].kind == them[i].kind ==> Reconciled(us, them)[i] == us[i]
    ensures i < |us| && us[i].kind != them[i].kind ==> Reconciled(us, them)[i] == them[i]
    ensures i >= |us| ==> Reconciled(us, them)[i] == them[i]
    ensures Reconciled(us, them)[i].kind == them[i].kind
  {
  }

  /** Reconciling against a group with the same types everywhere keeps
      every child of this group up to the other group's length. */
  lemma {:induction false} SameShapeKeepsChildren(us: seq<Node>, them: seq<Node>)
    requires |them| <= |us|
    requires forall i :: 0 <= i < |them| ==> us[i].kind == them[i].kind
    ensures Reconciled(us, them) == us[..|them|]
  {
    var r := Reconciled(us, them);
    forall i | 0 <= i < |them|
      ensures r[i] == us[..|them|][i]
    {
      ReconciledChildren(us, them, i);
    }
  }

  /** How many children an unaccepted event reaches: up to and including
      the first that accepts it, or all of them. */
  function Reached(accepts: seq<bool>): (n: nat)
    ensures n <= |accepts|
    decreases |accepts|
  {
    if accepts == [] then 0 else if accepts[0] then 1 else 1 + Reached(accepts[1..])
  }

  /** The event stops at the first accepting child. */
  lemma {:induction false} ReachedAt(accepts: seq<bool>, k: nat)
    requires k <= |accepts| && forall j :: 0 <= j < k ==> !accepts[j]
    requires k < |accepts| ==> accepts[k]
    ensures Reached(accepts) == if k < |accepts| then k + 1 else k
    decreases k
  {
    if k > 0 {
      ReachedAt(accepts[1..], k - 1);
    }
  }

  /** `path` is a node followed by its parents, up to the root. */
  predicate IsChain(path: seq<Node>)
    reads path
  {
    |path| >= 1
    && (forall i :: 0 <= i < |path| - 1 ==> path[i].parent == path[i + 1])
    && path[|path| - 1].parent == null
  }

  /** The first node of a chain has a parent exactly when the chain goes
      on. */
  lemma ChainLinks(path: seq<Node>)
    requires IsChain(path)
    ensures path[0].parent == null <==> |path| == 1
  {
    if |path| > 1 {
      assert path[0].parent == path[1];
    }
  }

  /** `LeafNode::query`: the nearest node of the chain, starting with the
      node itself, whose type is `id`; null when there is none. */
  function Query(path: seq<Node>, id: Kind): (r: Node?)
    requires IsChain(path)
    reads path
    ensures r == null <==> forall i :: 0 <= i < |path| ==> path[i].kind != id
    ensures r != null ==>
      r.kind == id && exists k :: 0 <= k < |path| && path[k] == r && forall j :: 0 <= j < k ==> path[j].kind != id
    decreases |path|
  {
    ChainLinks(path);
    if path[0].kind == id then path[0]
    else if path[0].parent == null then null
    else
      var r := Query(path[1..], id);
      assert forall i :: 1 <= i < |path| ==> path[i] == path[1..][i - 1];
      r
  }

  /** `LeafNode::bubble` along the chain: the nodes whose `bubble` runs
      after the first node's. An accepted event goes nowhere; otherwise
      each node forwards it to its parent, so every ancestor sees it. */
  function Bubbled(path: seq<Node>, accepted: bool): (r: seq<Node>)
    requires IsChain(path)
    reads path
    ensures r == if accepted then [] else path[1..]
    decreases |path|
  {
    if path[0].parent != null && !accepted then [path[1]] + Bubbled(path[1..], accepted) else []
  }
}
