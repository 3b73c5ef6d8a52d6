/** The `Nodes` container: an ordered sequence of node pointers held behind
    one optional pointer, so that the many list fields a node leaves empty
    cost no backing storage. A nil pointer means "empty". */
module NodeSeq {
  import opened Wrappers
  import opened Fatal

  /** A `*Node`: nil, or a handle to a node in the arena that holds the tree. */
  datatype Ptr = Null | Handle(index: nat)

  /** `Nodes{slice}`: `None` is the nil pointer, `Some(s)` points at slice `s`. */
  datatype Nodes = Nodes(slice: Option<seq<Ptr>>)

  /** The zero value of `Nodes`, as found in a freshly allocated node. */
  const Empty: Nodes := Nodes(None)

  /** The representation invariant kept by every operation below: backing
      storage exists only for a non-empty sequence. */
  predicate Valid(n: Nodes) {
    n.slice.Some? ==> |n.slice.value| > 0
  }

  /** `n.Slice()`: the entries, a nil (empty) slice when there is no backing
      storage. For a valid container the result is empty exactly when no
      storage is held. */
  function Slice(n: Nodes): (s: seq<Ptr>)
    ensures n.slice.Some? ==> s == n.slice.value
    ensures Valid(n) ==> (|s| == 0 <==> n == Empty)
  {
    match n.slice
    case None => []
    case Some(t) => t
  }

  /** `n.Len()`. */
  function Len(n: Nodes): (k: nat)
    ensures k == |Slice(n)|
    ensures Valid(n) ==> (k == 0 <==> n == Empty)
  {
    match n.slice
    case None => 0
    case Some(t) => |t|
  }

  /** `n.Index(i)`: entry `i`. Without backing storage the dereference of the
      nil pointer panics; with it, an index outside the slice panics. */
  function Index(n: Nodes, i: int): (r: Result<Ptr, Fault>)
    ensures r.Success? <==> 0 <= i < Len(n)
    ensures r.Success? ==> r.value == Slice(n)[i]
    ensures n.slice.None? ==> r == Failure(NilDereference)
    ensures n.slice.Some? && r.Failure? ==> r.error == IndexOutOfRange(i, Len(n))
  {
    match n.slice
    case None => Failure(NilDereference)
    case Some(t) => if 0 <= i < |t| then Success(t[i]) else Failure(IndexOutOfRange(i, |t|))
  }

  /** `n.First()`: fails exactly when there is no entry. */
  function First(n: Nodes): (r: Result<Ptr, Fault>)
    ensures r.Success? <==> Len(n) >= 1
    ensures r.Success? ==> r.value == Slice(n)[0]
    ensures r == Index(n, 0)
  {
    match n.slice
    case None => Failure(NilDereference)
    case Some(t) => if 0 < |t| then Success(t[0]) else Failure(IndexOutOfRange(0, |t|))
  }

  /** `n.Second()`: fails exactly when there are fewer than two entries. */
  function Second(n: Nodes): (r: Result<Ptr, Fault>)
    ensures r.Success? <==> Len(n) >= 2
    ensures r.Success? ==> r.value == Slice(n)[1]
    ensures r == Index(n, 1)
  {
    match n.slice
    case None => Failure(NilDereference)
    case Some(t) => if 1 < |t| then Success(t[1]) else Failure(IndexOutOfRange(1, |t|))
  }

  /** `n.Set(s)`: the contents become `s`; an empty `s` drops the backing
      storage, leaving the container as if never populated. */
  function Set(s: seq<Ptr>): (r: Nodes)
    ensures Valid(r)
    ensures Slice(r) == s
    ensures |s| == 0 <==> r == Empty
  {
    if |s| == 0 then Nodes(None) else Nodes(Some(s))
  }

  /** `n.Set1(node)`: the contents become exactly `[node]`. */
  function Set1(node: Ptr): (r: Nodes)
    ensures Valid(r) && r != Empty
    ensures Slice(r) == [node]
  {
    Nodes(Some([node]))
  }

  /** The two containers after a move: the destination and the source. */
  datatype Moved = Moved(dst: Nodes, src: Nodes)

  /** `n.MoveNodes(&n2)` for distinct `n` and `n2`: the destination takes
      over the source's storage and the source is left empty. */
  function MoveNodes(n: Nodes, n2: Nodes): (r: Moved)
    ensures Slice(r.dst) == Slice(n2)
    ensures r.dst.slice.None? <==> n2.slice.None?
    ensures r.src == Empty
    ensures Valid(n2) ==> Valid(r.dst)
  {
    Moved(n2, Nodes(None))
  }

  /** `n.SetIndex(i, node)`: replaces entry `i` and nothing else; fails like
      `Index` outside the bounds. */
  function SetIndex(n: Nodes, i: int, node: Ptr): (r: Result<Nodes, Fault>)
    ensures r.Success? <==> 0 <= i < Len(n)
    ensures r.Failure? ==> Index(n, i) == Failure(r.error)
    ensures r.Success? ==> Len(r.value) == Len(n) && Slice(r.value)[i] == node
    ensures r.Success? ==> forall j :: 0 <= j < Len(n) && j != i ==> Slice(r.value)[j] == Slice(n)[j]
    ensures r.Success? && Valid(n) ==> Valid(r.value)
  {
    match n.slice
    case None => Failure(NilDereference)
    case Some(t) => if 0 <= i < |t| then Success(Nodes(Some(t[i := node]))) else Failure(IndexOutOfRange(i, |t|))
  }

  /** The address of one entry, as handed out by `Addr`. */
  datatype Slot = Slot(index: nat)

  /** `n.Addr(i)`: the address of entry `i`; fails like `Index` outside the
      bounds. */
  function Addr(n: Nodes, i: int): (r: Result<Slot, Fault>)
    ensures r.Success? <==> 0 <= i < Len(n)
    ensures r.Success? ==> r.value.index == i
    ensures r.Failure? ==> Index(n, i) == Failure(r.error)
  {
    match n.slice
    case None => Failure(NilDereference)
    case Some(t) => if 0 <= i < |t| then Success(Slot(i)) else Failure(IndexOutOfRange(i, |t|))
  }

  /** Reading `*a` for an address obtained from `Addr`. */
  function Load(n: Nodes, a: Slot): Ptr
    requires a.index < Len(n)
  {
    Slice(n)[a.index]
  }

  /** Writing `*a = node` for an address obtained from `Addr`. */
  function Store(n: Nodes, a: Slot, node: Ptr): Nodes
    requires a.index < Len(n)
  {
    Nodes(Some(Slice(n)[a.index := node]))
  }

  /** Reading and writing through `Addr(i)` is the same as `Index(i)` and
      `SetIndex(i, node)`. */
  lemma AddrAgreesWithIndex(n: Nodes, i: int, node: Ptr)
    requires Addr(n, i).Success?
    ensures Index(n, i) == Success(Load(n, Addr(n, i).value))
    ensures SetIndex(n, i, node) == Success(Store(n, Addr(n, i).value, node))
  {
  }

  /** `n.Append(a...)`: the contents become the old contents followed by
      `a`; storage is allocated only when there is something to store. */
  function Append(n: Nodes, a: seq<Ptr>): (r: Nodes)
    ensures Slice(r) == Slice(n) + a
    ensures Valid(n) ==> Valid(r)
    ensures n.slice.None? && |a| == 0 ==> r == Empty
    ensures n.slice.Some? ==> r.slice.Some?
  {
    match n.slice
    case None => if |a| > 0 then Nodes(Some(a)) else n
    case Some(t) => Nodes(Some(t + a))
  }

  /** `n.AppendNodes(&n2)` for distinct `n` and `n2`: the destination holds
      its old contents followed by the source's, and the source is empty. */
  function AppendNodes(n: Nodes, n2: Nodes): (r: Moved)
    ensures Slice(r.dst) == Slice(n) + Slice(n2)
    ensures r.src == Empty
    ensures Valid(n) && Valid(n2) ==> Valid(r.dst)
  {
    if n2.slice.None? then Moved(n, Nodes(None))
    else if n.slice.None? then Moved(n2, Nodes(None))
    else Moved(Nodes(Some(n.slice.value + n2.slice.value)), Nodes(None))
  }

  /** A valid container is determined by its contents: an emptied container
      cannot be told apart from one that was never populated, and `Set`
      rebuilds exactly the container whose contents it is given. */
  lemma ValidIsCanonical(n: Nodes, m: Nodes)
    requires Valid(n) && Valid(m)
    requires Slice(n) == Slice(m)
    ensures n == m
    ensures Set(Slice(n)) == n
  {
  }

  /** Appending in two steps is appending the concatenation, down to the
      representation. */
  lemma AppendAssociative(n: Nodes, a: seq<Ptr>, b: seq<Ptr>)
    ensures Append(Append(n, a), b) == Append(n, a + b)
  {
    match n.slice
    case None =>
    case Some(t) => assert t + a + b == t + (a + b);
  }

  /** Moving a valid container's contents over is appending them, and moving
      them into an empty container is `MoveNodes`. */
  lemma AppendNodesIsAppend(n: Nodes, n2: Nodes)
    requires Valid(n2)
    ensures AppendNodes(n, n2).dst == Append(n, Slice(n2))
    ensures n == Empty ==> AppendNodes(n, n2) == MoveNodes(n, n2)
  {
  }

  /** Three appends to an empty container are read back in order. */
  lemma AppendThenRead(a: Ptr, b: Ptr, c: Ptr)
    ensures var n := Append(Empty, [a, b, c]);
      Len(n) == 3 && Index(n, 1) == Success(b) && First(n) == Success(a) && Second(n) == Success(b)
  {
  }

  /** One in-place edit of a container. */
  datatype Edit =
    | EditSet(s: seq<Ptr>)
    | EditSet1(node: Ptr)
    | EditSetIndex(i: int, node: Ptr)
    | EditAppend(a: seq<Ptr>)

  function Apply(n: Nodes, e: Edit): Result<Nodes, Fault> {
    match e
    case EditSet(s) => Success(Set(s))
    case EditSet1(node) => Success(Set1(node))
    case EditSetIndex(i, node) => SetIndex(n, i, node)
    case EditAppend(a) => Success(Append(n, a))
  }

  function ApplyAll(n: Nodes, edits: seq<Edit>): Result<Nodes, Fault>
    decreases |edits|
  {
    if |edits| == 0 then Success(n)
    else match Apply(n, edits[0])
      case Failure(f) => Failure(f)
      case Success(m) => ApplyAll(m, edits[1..])
  }

  /** Reference meaning of an edit on a plain sequence, with no storage
      optimisation; `false` marks an out-of-bounds edit. */
  function RefApply(s: seq<Ptr>, e: Edit): (bool, seq<Ptr>) {
    match e
    case EditSet(t) => (true, t)
    case EditSet1(node) => (true, [node])
    case EditSetIndex(i, node) => if 0 <= i < |s| then (true, s[i := node]) else (false, s)
    case EditAppend(a) => (true, s + a)
  }

  function RefApplyAll(s: seq<Ptr>, edits: seq<Edit>): (bool, seq<Ptr>)
    decreases |edits|
  {
    if |edits| == 0 then (true, s)
    else
      var (ok, t) := RefApply(s, edits[0]);
      if ok then RefApplyAll(t, edits[1..]) else (false, t)
  }

  /** Any sequence of edits on the container behaves as the same edits on a
      plain sequence, fails exactly when those go out of bounds, and keeps
      the container valid. */
  lemma {:induction false} ApplyAllRefines(n: Nodes, edits: seq<Edit>)
    requires Valid(n)
    ensures ApplyAll(n, edits).Success? <==> RefApplyAll(Slice(n), edits).0
    ensures ApplyAll(n, edits).Success? ==>
      Valid(ApplyAll(n, edits).value) && Slice(ApplyAll(n, edits).value) == RefApplyAll(Slice(n), edits).1
    decreases |edits|
  {
    if |edits| > 0 {
      var e := edits[0];
      match Apply(n, e)
      case Failure(_) =>
        assert !RefApply(Slice(n), e).0;
      case Success(m) =>
        if e.EditSetIndex? {
          assert Slice(m) == Slice(n)[e.i := e.node];
        }
        assert RefApply(Slice(n), e) == (true, Slice(m));
        ApplyAllRefines(m, edits[1..]);
    }
  }
}
