/** The payload slot of a syntax node. The compiler stores either a constant
    value or optimizer-private data in one untyped field `E`, and records in a
    small marker `hasVal` which of the two it holds: +1 for a value, -1 for
    optimizer data, 0 while nothing has been stored. The accessors keep the
    two kinds apart and treat a write of the wrong kind as a fatal error.

    The record `Payload` is that concrete representation; `Content` is the
    sum type it encodes, and `Abs` / `Rep` connect the two. */
module PayloadSlot {
  import opened Wrappers
  import opened Fatal

  /** A Go `interface{}` value: nil, or some non-nil dynamic value that is
      known here only by its identity. */
  datatype Iface = Nil | Dyn(id: nat)

  /** A constant value. Its type is external to this core; the only part
      observed here is the untyped field `U` that is stored in `E`. */
  datatype Val = Val(u: Iface)

  /** The zero `Val{}`, returned when a node holds no value. */
  const ZeroVal: Val := Val(Nil)

  /** The `hasVal` marker. Only -1, 0 and +1 are ever written to it. */
  newtype Marker = x: int | -1 <= x <= 1

  /** The pair (E, hasVal) of a node. */
  datatype Payload = Payload(e: Iface, hasVal: Marker)

  /** The payload of a freshly allocated node: both fields at their zero value. */
  const Fresh: Payload := Payload(Nil, 0)

  /** The representation invariant: nothing is stored while the marker is unset. */
  predicate Consistent(p: Payload) {
    p.hasVal == 0 ==> p.e == Nil
  }

  /** What the slot means. `OptSet(Nil)` is a real state, distinct from
      `Unset`: it is what clearing optimizer data leaves behind, and it still
      forbids storing a value. */
  datatype Content = Unset | ValueSet(v: Val) | OptSet(x: Iface)

  function Abs(p: Payload): Content {
    if p.hasVal == 1 then ValueSet(Val(p.e))
    else if p.hasVal == -1 then OptSet(p.e)
    else Unset
  }

  function Rep(c: Content): Payload {
    match c
    case Unset => Fresh
    case ValueSet(v) => Payload(v.u, 1)
    case OptSet(x) => Payload(x, -1)
  }

  /** Every meaning has a consistent encoding that decodes back to it. */
  lemma AbsRep(c: Content)
    ensures Consistent(Rep(c))
    ensures Abs(Rep(c)) == c
  {
  }

  /** The encoding of a consistent payload is unique: it is determined by
      what it means. */
  lemma RepAbs(p: Payload)
    requires Consistent(p)
    ensures Rep(Abs(p)) == p
  {
  }

  /** `n.Val()`: the stored value when the slot holds a value, the zero
      `Val` otherwise. Never fails. */
  function GetVal(p: Payload): (v: Val)
    ensures Abs(p).ValueSet? ==> v == Abs(p).v
    ensures !Abs(p).ValueSet? ==> v == ZeroVal
  {
    if p.hasVal != 1 then ZeroVal else Val(p.e)
  }

  /** `n.Opt()`: the stored optimizer data when the slot holds such data,
      nil otherwise. Never fails. */
  function GetOpt(p: Payload): (x: Iface)
    ensures Abs(p).OptSet? ==> x == Abs(p).x
    ensures !Abs(p).OptSet? ==> x == Nil
  {
    if p.hasVal != -1 then Nil else p.e
  }

  /** `n.SetVal(v)`: fatal when the slot holds optimizer data; otherwise the
      slot holds `v` from now on. */
  function SetVal(p: Payload, v: Val): (r: Result<Payload, Fault>)
    ensures r.Failure? <==> Abs(p).OptSet?
    ensures r.Failure? ==> r.error == HaveOpt
    ensures r.Success? ==> Consistent(r.value) && Abs(r.value) == ValueSet(v)
    ensures r.Success? ==> GetVal(r.value) == v && GetOpt(r.value) == Nil
  {
    if p.hasVal == -1 then Failure(HaveOpt)
    else Success(Payload(v.u, 1))
  }

  /** `n.SetOpt(x)`. Clearing (x nil) is ignored unless the slot already
      holds optimizer data. Otherwise it is fatal when the slot holds a
      value, and else the slot holds `x` as optimizer data from now on. */
  function SetOpt(p: Payload, x: Iface): (r: Result<Payload, Fault>)
    ensures r.Failure? <==> x != Nil && Abs(p).ValueSet?
    ensures r.Failure? ==> r.error == HaveVal
    ensures x == Nil && !Abs(p).OptSet? ==> r == Success(p)
    ensures r.Success? && (x != Nil || Abs(p).OptSet?) ==> Abs(r.value) == OptSet(x)
    ensures r.Success? ==> GetOpt(r.value) == x
    ensures x == Nil ==> r.Success? && GetVal(r.value) == GetVal(p)
    ensures r.Success? && Consistent(p) ==> Consistent(r.value)
  {
    if x == Nil && p.hasVal >= 0 then Success(p)
    else if p.hasVal == 1 then Failure(HaveVal)
    else Success(Payload(x, -1))
  }

  /** A fresh node reports neither a value nor optimizer data. */
  lemma FreshIsEmpty()
    ensures Consistent(Fresh) && Abs(Fresh) == Unset
    ensures GetVal(Fresh) == ZeroVal && GetOpt(Fresh) == Nil
  {
  }

  /** One write to the slot, as a pass performs it. */
  datatype Access = DoSetVal(v: Val) | DoSetOpt(x: Iface)

  function Step(p: Payload, a: Access): Result<Payload, Fault> {
    match a
    case DoSetVal(v) => SetVal(p, v)
    case DoSetOpt(x) => SetOpt(p, x)
  }

  /** A sequence of writes, stopping at the first fatal one. */
  function Run(p: Payload, accesses: seq<Access>): Result<Payload, Fault>
    decreases |accesses|
  {
    if |accesses| == 0 then Success(p)
    else match Step(p, accesses[0])
      case Failure(f) => Failure(f)
      case Success(q) => Run(q, accesses[1..])
  }

  /** No sequence of writes breaks the representation invariant. */
  lemma {:induction false} RunKeepsConsistent(p: Payload, accesses: seq<Access>)
    requires Consistent(p)
    ensures Run(p, accesses).Success? ==> Consistent(Run(p, accesses).value)
    decreases |accesses|
  {
    if |accesses| > 0 {
      match Step(p, accesses[0])
      case Failure(_) =>
      case Success(q) => RunKeepsConsistent(q, accesses[1..]);
    }
  }

  /** Once the marker is set it never changes again: a node that holds a
      value keeps holding a value, and a node that holds optimizer data
      (even cleared data) keeps holding optimizer data, for as long as no
      write is fatal. */
  lemma {:induction false} MarkerIsSticky(p: Payload, accesses: seq<Access>)
    requires p.hasVal != 0
    ensures Run(p, accesses).Success? ==> Run(p, accesses).value.hasVal == p.hasVal
    decreases |accesses|
  {
    if |accesses| > 0 {
      match Step(p, accesses[0])
      case Failure(_) =>
      case Success(q) => MarkerIsSticky(q, accesses[1..]);
    }
  }

  /** After optimizer data has been stored, any later SetVal is fatal,
      whatever happens in between, clearing with SetOpt(nil) included. */
  lemma {:induction false} SetValFatalAfterOpt(p: Payload, accesses: seq<Access>, v: Val)
    requires p.hasVal == -1
    ensures Run(p, accesses + [DoSetVal(v)]) == Failure(HaveOpt)
    decreases |accesses|
  {
    if |accesses| == 0 {
      assert accesses + [DoSetVal(v)] == [DoSetVal(v)];
    } else {
      assert (accesses + [DoSetVal(v)])[1..] == accesses[1..] + [DoSetVal(v)];
      match Step(p, accesses[0])
      case Failure(_) =>
      case Success(q) => SetValFatalAfterOpt(q, accesses[1..], v);
    }
  }

  /** Clearing optimizer data any number of times never fails, leaves the
      slot reporting no optimizer data, and leaves a stored value intact. */
  lemma {:induction false} ClearingIsHarmless(p: Payload, accesses: seq<Access>)
    requires |accesses| > 0
    requires forall i :: 0 <= i < |accesses| ==> accesses[i] == DoSetOpt(Nil)
    ensures Run(p, accesses).Success?
    ensures GetOpt(Run(p, accesses).value) == Nil
    ensures GetVal(Run(p, accesses).value) == GetVal(p)
    decreases |accesses|
  {
    var q := SetOpt(p, Nil).value;
    assert Step(p, accesses[0]) == Success(q);
    if |accesses| > 1 {
      ClearingIsHarmless(q, accesses[1..]);
    }
  }
}
