/** The syntax node and the arena that holds a whole syntax graph. A node has
    two child links, four child lists, a discriminant and a payload slot.
    Nodes live in an arena and refer to each other by handle, so several
    parents can share one child: the parser creates a single node per
    variable, type or literal, which makes the "tree" a DAG. */
module Syntax {
  import opened Wrappers
  import opened Fatal
  import opened Ops
  import opened PayloadSlot
  import opened NodeSeq

  /** The generic part of a node. Type, symbol, side tables and scalar flags
      are external or attribute-only and are not represented. */
  datatype Node = Node(
    left: Ptr,
    right: Ptr,
    ninit: Nodes,
    nbody: Nodes,
    list: Nodes,
    rlist: Nodes,
    orig: Ptr,
    op: Op,
    payload: Payload)

  /** The node `&Node{Op: op}`: every other field at its zero value. */
  function NewNode(op: Op): (n: Node)
    ensures n.op == op && n.left == Null && n.right == Null && n.orig == Null
    ensures Len(n.ninit) == 0 && Len(n.nbody) == 0 && Len(n.list) == 0 && Len(n.rlist) == 0
    ensures GetVal(n.payload) == ZeroVal && GetOpt(n.payload) == Nil
    ensures Abs(n.payload) == Unset
    ensures ValidNode(n)
  {
    Node(Null, Null, Empty, Empty, Empty, Empty, Null, op, Fresh)
  }

  /** The invariants of the node's own containers and payload slot. */
  predicate ValidNode(n: Node) {
    && Valid(n.ninit) && Valid(n.nbody) && Valid(n.list) && Valid(n.rlist)
    && Consistent(n.payload)
  }

  /** The four list fields of a node. */
  datatype ListField = Ninit | Nbody | List | Rlist

  function GetList(n: Node, f: ListField): Nodes {
    match f
    case Ninit => n.ninit
    case Nbody => n.nbody
    case List => n.list
    case Rlist => n.rlist
  }

  function WithList(n: Node, f: ListField, v: Nodes): (r: Node)
    ensures GetList(r, f) == v
    ensures forall g :: g != f ==> GetList(r, g) == GetList(n, g)
    ensures r.left == n.left && r.right == n.right && r.orig == n.orig
    ensures r.op == n.op && r.payload == n.payload
  {
    match f
    case Ninit => n.(ninit := v)
    case Nbody => n.(nbody := v)
    case List => n.(list := v)
    case Rlist => n.(rlist := v)
  }

  /** `n.F.MoveNodes(&n.G)` between two list fields of one node. The
      destination is written first and the source cleared second, so moving
      a field onto itself empties it. */
  function MoveList(n: Node, dst: ListField, src: ListField): (r: Node)
    ensures dst != src ==> Slice(GetList(r, dst)) == Slice(GetList(n, src)) && GetList(r, src) == Empty
    ensures dst == src ==> GetList(r, dst) == Empty
    ensures forall g :: g != dst && g != src ==> GetList(r, g) == GetList(n, g)
    ensures r.op == n.op && r.payload == n.payload && r.left == n.left && r.right == n.right && r.orig == n.orig
    ensures ValidNode(n) ==> ValidNode(r)
  {
    var m := MoveNodes(GetList(n, dst), GetList(n, src));
    WithList(WithList(n, dst, m.dst), src, m.src)
  }

  /** `n.F.AppendNodes(&n.G)` between two list fields of one node. As for
      `MoveList`, appending a field to itself empties it. */
  function AppendList(n: Node, dst: ListField, src: ListField): (r: Node)
    ensures dst != src ==> Slice(GetList(r, dst)) == Slice(GetList(n, dst)) + Slice(GetList(n, src))
    ensures GetList(r, src) == Empty
    ensures forall g :: g != dst && g != src ==> GetList(r, g) == GetList(n, g)
    ensures r.op == n.op && r.payload == n.payload && r.left == n.left && r.right == n.right && r.orig == n.orig
    ensures ValidNode(n) ==> ValidNode(r)
  {
    var m := AppendNodes(GetList(n, dst), GetList(n, src));
    WithList(WithList(n, dst, m.dst), src, m.src)
  }

  /** The non-nil pointers of `s`, in order. */
  function NonNull(s: seq<Ptr>): (r: seq<Ptr>)
    ensures forall q :: q in r <==> q in s && q != Null
    ensures |r| <= |s|
  {
    if |s| == 0 then []
    else (if s[0] == Null then [] else [s[0]]) + NonNull(s[1..])
  }

  /** Filtering keeps the order of the parts: the non-nil pointers of
      `s + t` are those of `s` followed by those of `t`. */
  lemma {:induction false} NonNullConcat(s: seq<Ptr>, t: seq<Ptr>)
    ensures NonNull(s + t) == NonNull(s) + NonNull(t)
    decreases |s|
  {
    if |s| == 0 {
      assert s + t == t;
    } else {
      var head: seq<Ptr> := if s[0] == Null then [] else [s[0]];
      assert (s + t)[0] == s[0];
      assert (s + t)[1..] == s[1..] + t;
      NonNullConcat(s[1..], t);
      assert head + (NonNull(s[1..]) + NonNull(t)) == (head + NonNull(s[1..])) + NonNull(t);
    }
  }

  /** The children a generic walk visits: Left, Right, then the entries of
      Ninit, Nbody, List and Rlist, skipping nil pointers. */
  function Children(n: Node): (r: seq<Ptr>)
    ensures forall q :: q in r <==>
      q != Null &&
      (q == n.left || q == n.right ||
       q in Slice(n.ninit) || q in Slice(n.nbody) || q in Slice(n.list) || q in Slice(n.rlist))
    ensures r == NonNull([n.left, n.right]) + NonNull(Slice(n.ninit)) + NonNull(Slice(n.nbody))
                 + NonNull(Slice(n.list)) + NonNull(Slice(n.rlist))
  {
    var a, b, c, d, e := [n.left, n.right], Slice(n.ninit), Slice(n.nbody), Slice(n.list), Slice(n.rlist);
    NonNullConcat(a + b + c + d, e);
    NonNullConcat(a + b + c, d);
    NonNullConcat(a + b, c);
    NonNullConcat(a, b);
    NonNull([n.left, n.right] + Slice(n.ninit) + Slice(n.nbody) + Slice(n.list) + Slice(n.rlist))
  }

  /** All nodes of one compilation, addressed by handle. */
  datatype Arena = Arena(nodes: seq<Node>)

  predicate Owns(a: Arena, p: Ptr) {
    p.Handle? && p.index < |a.nodes|
  }

  /** `*p`: the node a pointer refers to; a nil pointer is a fatal dereference. */
  function Deref(a: Arena, p: Ptr): (r: Result<Node, Fault>)
    requires p.Handle? ==> Owns(a, p)
    ensures r.Failure? <==> p == Null
    ensures r.Failure? ==> r.error == NilDereference
    ensures r.Success? ==> r.value == a.nodes[p.index]
  {
    if p.Null? then Failure(NilDereference) else Success(a.nodes[p.index])
  }

  /** The arena after an allocation and the pointer to the new node. */
  datatype Allocated = Allocated(arena: Arena, ptr: Ptr)

  /** Allocating a node gives it a new identity; every existing pointer keeps
      referring to the node it referred to. */
  function Alloc(a: Arena, n: Node): (r: Allocated)
    ensures Owns(r.arena, r.ptr) && !Owns(a, r.ptr)
    ensures Deref(r.arena, r.ptr) == Success(n)
    ensures forall q :: Owns(a, q) ==> Owns(r.arena, q) && Deref(r.arena, q) == Deref(a, q)
  {
    Allocated(Arena(a.nodes + [n]), Handle(|a.nodes|))
  }

  /** Replacing the payload of the node behind `p`, as the payload accessors
      do through their receiver; every other node is untouched. */
  function WithPayload(a: Arena, p: Ptr, pl: Payload): (r: Arena)
    requires Owns(a, p)
    ensures |r.nodes| == |a.nodes|
    ensures r.nodes[p.index] == a.nodes[p.index].(payload := pl)
    ensures forall k :: 0 <= k < |a.nodes| && k != p.index ==> r.nodes[k] == a.nodes[k]
  {
    Arena(a.nodes[p.index := a.nodes[p.index].(payload := pl)])
  }

  /** `p.SetVal(v)` on a node of the arena: fatal for a nil receiver or a
      node that holds optimizer data. On success the node, and only it,
      now holds `v`. */
  function SetValAt(a: Arena, p: Ptr, v: Val): (r: Result<Arena, Fault>)
    requires p.Handle? ==> Owns(a, p)
    ensures r.Failure? <==> p == Null || Abs(a.nodes[p.index].payload).OptSet?
    ensures r.Success? ==> |r.value.nodes| == |a.nodes| && GetVal(r.value.nodes[p.index].payload) == v
    ensures r.Success? ==> r.value.nodes[p.index].(payload := a.nodes[p.index].payload) == a.nodes[p.index]
    ensures r.Success? ==> forall k :: 0 <= k < |a.nodes| && k != p.index ==> r.value.nodes[k] == a.nodes[k]
    ensures r.Success? && ValidNode(a.nodes[p.index]) ==> ValidNode(r.value.nodes[p.index])
    ensures r.Success? ==> SetVal(a.nodes[p.index].payload, v) == Success(r.value.nodes[p.index].payload)
  {
    var n :- Deref(a, p);
    var pl :- SetVal(n.payload, v);
    Success(WithPayload(a, p, pl))
  }

  /** `p.SetOpt(x)` on a node of the arena: fatal for a nil receiver, or for
      non-nil data on a node that holds a value. On success the node, and
      only it, reports `x` as its optimizer data. */
  function SetOptAt(a: Arena, p: Ptr, x: Iface): (r: Result<Arena, Fault>)
    requires p.Handle? ==> Owns(a, p)
    ensures r.Failure? <==> p == Null || (x != Nil && Abs(a.nodes[p.index].payload).ValueSet?)
    ensures r.Success? ==> |r.value.nodes| == |a.nodes| && GetOpt(r.value.nodes[p.index].payload) == x
    ensures r.Success? ==> r.value.nodes[p.index].(payload := a.nodes[p.index].payload) == a.nodes[p.index]
    ensures r.Success? ==> forall k :: 0 <= k < |a.nodes| && k != p.index ==> r.value.nodes[k] == a.nodes[k]
    ensures r.Success? && ValidNode(a.nodes[p.index]) ==> ValidNode(r.value.nodes[p.index])
    ensures r.Success? ==> SetOpt(a.nodes[p.index].payload, x) == Success(r.value.nodes[p.index].payload)
  {
    var n :- Deref(a, p);
    var pl :- SetOpt(n.payload, x);
    Success(WithPayload(a, p, pl))
  }

  /** Two parents that share an identity node as their left child both see
      a value stored into it: the write happens once, on the shared node. */
  lemma SharedChildSeesValue(a: Arena, p1: Ptr, p2: Ptr, v: Val)
    requires Owns(a, p1) && Owns(a, p2)
    requires a.nodes[p1.index].left == a.nodes[p2.index].left
    requires Owns(a, a.nodes[p1.index].left)
    requires SetValAt(a, a.nodes[p1.index].left, v).Success?
    ensures var b := SetValAt(a, a.nodes[p1.index].left, v).value;
      var x1 := b.nodes[p1.index].left;
      var x2 := b.nodes[p2.index].left;
      x1 == x2 && Owns(b, x1) && GetVal(b.nodes[x1.index].payload) == v
  {
  }

  /** Two additions `a + 3` and `a + …` built over one identity node for
      `a`: both reach that same node as their left child, and the first also
      reaches the literal. A worked instance of `SharedChildSeesValue`, which
      states the sharing property in general. */
  lemma AdditionsShareIdentity(a: Arena, three: Val)
    ensures
      var x := Alloc(a, NewNode(ONAME));
      var lit := Alloc(x.arena, NewNode(OLITERAL).(payload := SetVal(Fresh, three).value));
      var add1 := Alloc(lit.arena, NewNode(OADD).(left := x.ptr, right := lit.ptr));
      var add2 := Alloc(add1.arena, NewNode(OADD).(left := x.ptr));
      var n1 := Deref(add2.arena, add1.ptr).value;
      var n2 := Deref(add2.arena, add2.ptr).value;
      && Children(n1) == [x.ptr, lit.ptr]
      && n1.left == n2.left == x.ptr
      && GetVal(Deref(add2.arena, n1.right).value.payload) == three
      && IsIdentityOp(Deref(add2.arena, n2.left).value.op)
  {
    var x := Alloc(a, NewNode(ONAME));
    var lit := Alloc(x.arena, NewNode(OLITERAL).(payload := SetVal(Fresh, three).value));
    var add1 := Alloc(lit.arena, NewNode(OADD).(left := x.ptr, right := lit.ptr));
    var n1 := NewNode(OADD).(left := x.ptr, right := lit.ptr);
    var all := [n1.left, n1.right] + Slice(n1.ninit) + Slice(n1.nbody) + Slice(n1.list) + Slice(n1.rlist);
    assert all == [x.ptr, lit.ptr];
    assert NonNull(all) == [x.ptr] + NonNull([lit.ptr]);
  }
}
