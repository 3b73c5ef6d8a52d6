# Syntax nodes of the Go compiler's middle end, in Dafny

This project models the core of `src/cmd/compile/internal/gc/syntax.go`: the
one node type that stands for every expression, statement, declaration and
type form between parsing and code generation. Two pieces of that file carry
behaviour, and both are modelled, except as listed under "## Left out":

- **The payload slot.** A node stores either a constant value (`Val`) or
  optimizer-private data (`Opt`) in one untyped field `E`, and a marker
  `hasVal` records which: +1 value, -1 optimizer data, 0 unset. `Val()`,
  `SetVal()`, `Opt()` and `SetOpt()` keep the kinds apart; a write of the
  wrong kind is fatal, and `SetOpt(nil)` is ignored unless the slot already
  holds optimizer data. Module `PayloadSlot` (`payload.dfy`) keeps the
  concrete pair `(E, hasVal)` as the record `Payload`. It relates the pair to
  the sum type `Content = Unset | ValueSet(v) | OptSet(x)` through `Abs` and
  `Rep`, and proves the accessors against that meaning. It also proves, over
  arbitrary sequences of writes, that the marker never changes once set.
- **The `Nodes` container.** This is an ordered list of node pointers kept
  behind one optional pointer, so an empty list costs no storage. Module
  `NodeSeq` (`nodes.dfy`) gives each operation (`Slice`, `Len`, `Index`,
  `First`, `Second`, `Set`, `Set1`, `MoveNodes`, `SetIndex`, `Addr`,
  `Append`, `AppendNodes`) a contract on the list it holds. Every operation
  keeps the representation invariant `Valid`: backing storage only for a
  non-empty list. Any sequence of `Set`, `Set1`, `SetIndex` and `Append`
  calls is proved equivalent to the same edits on a plain sequence, which
  serves as the reference meaning.

Module `Ops` (`ops.dfy`) gives the discriminant `Op` as a `uint8` with every
constant at its declaration-order value. Module `Syntax` (`syntax.dfy`)
gives the node record itself: two child links, four child lists, `Orig`,
`Op` and the payload. It keeps nodes in an arena addressed by handles
(`Ptr = Null | Handle(i)`), so several parents can share one identity node
(`ONAME`, `OTYPE`, `OLITERAL`), as the comment at the head of the file
describes. `wrappers.dfy` holds `Option`/`Result`. `fatal.dfy` lists the
fatal outcomes: `HaveOpt`, `HaveVal`, a nil dereference, and an index out
of range.

Fatal paths (`Fatalf` after a payload-kind conflict, and the runtime panics
of out-of-bounds or nil access) are `Failure` results, not preconditions.
This lets the contracts state exactly when each operation is fatal.

Behaviour of the source worth noting:
- `SetOpt(nil)` is ignored only while the marker is 0 or +1. When the slot
  already holds optimizer data, it stores nil and keeps the marker at -1
  (lines 108 and 116-117).
- No accessor ever sets the marker back to 0. After optimizer data has been
  stored, every later `SetVal` is fatal, even after `SetOpt(nil)`.
- The shared identity operations are the three that the comment at lines
  9-12 names: `ONAME`, `OTYPE` and `OLITERAL`. `OPACK` is not among them.

## Model

| member | source | states |
|---|---|---|
| PayloadSlot.AbsRep | src/cmd/compile/internal/gc/syntax.go:75 | each of the three slot meanings (unset, value, optimizer data) has a consistent (E, hasVal) encoding that decodes back to it |
| PayloadSlot.RepAbs | src/cmd/compile/internal/gc/syntax.go:75 | a consistent (E, hasVal) pair is determined by its meaning, so the marker plus slot is a faithful tagged union |
| PayloadSlot.FreshIsEmpty | src/cmd/compile/internal/gc/syntax.go:75 | a fresh node's slot is unset: `Val()` gives the zero Val and `Opt()` gives nil |
| PayloadSlot.GetVal | src/cmd/compile/internal/gc/syntax.go:78-84 | `Val()` returns the stored value only when the marker is +1, otherwise the zero Val; it never fails |
| PayloadSlot.SetVal | src/cmd/compile/internal/gc/syntax.go:86-95 | `SetVal(v)` is fatal ("have Opt") exactly when the slot holds optimizer data; otherwise the slot holds `v`, `Val()` returns `v` and `Opt()` returns nil |
| PayloadSlot.GetOpt | src/cmd/compile/internal/gc/syntax.go:97-103 | `Opt()` returns the stored data only when the marker is -1, otherwise nil; it never fails |
| PayloadSlot.SetOpt | src/cmd/compile/internal/gc/syntax.go:105-118 | `SetOpt(x)` is fatal ("have Val") exactly when `x` is non-nil and the slot holds a value; `SetOpt(nil)` never fails, changes nothing unless the marker is -1, and keeps a stored value; after any successful call `Opt()` returns `x` |
| PayloadSlot.RunKeepsConsistent | src/cmd/compile/internal/gc/syntax.go:86-118 | no sequence of SetVal/SetOpt calls reaches a state with data stored under an unset marker |
| PayloadSlot.MarkerIsSticky | src/cmd/compile/internal/gc/syntax.go:86-118 | once the marker is +1 or -1, every non-fatal sequence of writes leaves it unchanged |
| PayloadSlot.SetValFatalAfterOpt | src/cmd/compile/internal/gc/syntax.go:86-118 | after the marker becomes -1, a SetVal after any sequence of writes is fatal with "have Opt", including after `SetOpt(nil)` |
| PayloadSlot.ClearingIsHarmless | src/cmd/compile/internal/gc/syntax.go:105-110 | repeated `SetOpt(nil)` never fails, leaves `Opt()` nil and leaves `Val()` unchanged |
| NodeSeq.Slice | src/cmd/compile/internal/gc/syntax.go:376-384 | `Slice()` gives the stored entries; for a valid container it is empty exactly when no storage is held |
| NodeSeq.Len | src/cmd/compile/internal/gc/syntax.go:386-392 | `Len()` is the number of entries `Slice()` returns, zero exactly for an unset container |
| NodeSeq.Index | src/cmd/compile/internal/gc/syntax.go:394-398 | `Index(i)` succeeds exactly when 0 <= i < Len and then returns entry i; without storage it is a nil dereference, otherwise an index-out-of-range panic |
| NodeSeq.First | src/cmd/compile/internal/gc/syntax.go:400-404 | `First()` is `Index(0)`: it fails exactly on an empty container and otherwise returns entry 0 |
| NodeSeq.Second | src/cmd/compile/internal/gc/syntax.go:406-410 | `Second()` is `Index(1)`: it fails exactly with fewer than two entries and otherwise returns entry 1 |
| NodeSeq.Set | src/cmd/compile/internal/gc/syntax.go:412-420 | `Set(s)` makes the contents `s` and keeps the container valid; an empty `s` leaves no storage, the same state as never populated |
| NodeSeq.Set1 | src/cmd/compile/internal/gc/syntax.go:422-425 | `Set1(node)` makes the contents exactly `[node]`, with storage |
| NodeSeq.MoveNodes | src/cmd/compile/internal/gc/syntax.go:427-431 | the destination holds exactly the source's former contents, and has storage exactly when the source did; the source is left empty |
| NodeSeq.SetIndex | src/cmd/compile/internal/gc/syntax.go:433-437 | `SetIndex(i, node)` fails exactly as `Index(i)` does; otherwise it replaces entry i only, keeping the length and every other entry |
| NodeSeq.Addr | src/cmd/compile/internal/gc/syntax.go:439-443 | `Addr(i)` fails exactly as `Index(i)` does; otherwise it designates slot i |
| NodeSeq.AddrAgreesWithIndex | src/cmd/compile/internal/gc/syntax.go:394-443 | reading through `Addr(i)` is `Index(i)` and writing through it is `SetIndex(i, node)` |
| NodeSeq.Append | src/cmd/compile/internal/gc/syntax.go:445-455 | `Append(a...)` makes the contents old ++ a and keeps the container valid; appending nothing to an unset container leaves it without storage |
| NodeSeq.AppendNodes | src/cmd/compile/internal/gc/syntax.go:457-467 | the destination holds its old contents followed by the source's, stays valid, and the source is left empty |
| NodeSeq.ValidIsCanonical | src/cmd/compile/internal/gc/syntax.go:412-420 | two valid containers with the same contents are identical, and `Set` of a valid container's contents rebuilds it |
| NodeSeq.AppendAssociative | src/cmd/compile/internal/gc/syntax.go:445-455 | appending `a` then `b` gives the same container, storage included, as appending `a ++ b` |
| NodeSeq.AppendNodesIsAppend | src/cmd/compile/internal/gc/syntax.go:445-467 | `AppendNodes(n2)` leaves the destination exactly as `Append(n2's entries...)` would; into an unset destination it is `MoveNodes` |
| NodeSeq.AppendThenRead | src/cmd/compile/internal/gc/syntax.go:394-455 | appending a, b, c to an empty container gives length 3, `Index(1)` = b, `First()` = a, `Second()` = b |
| NodeSeq.ApplyAllRefines | src/cmd/compile/internal/gc/syntax.go:412-455 | any sequence of Set, Set1, SetIndex and Append calls on a valid container matches the same edits on a plain sequence; it fails exactly when those go out of bounds and keeps the container valid |
| Syntax.NewNode | src/cmd/compile/internal/gc/syntax.go:13-76 | a freshly allocated node has no children and empty lists; its payload marker is unset (0), so it has no value and no optimizer data and either kind may be stored first; it satisfies the node invariants |
| Syntax.Children | src/cmd/compile/internal/gc/syntax.go:14-21 | a generic walk visits exactly the non-nil pointers among Left, Right and the entries of Ninit, Nbody, List and Rlist, in that field order and in list order |
| Syntax.NonNullConcat | src/cmd/compile/internal/gc/syntax.go:14-21 | skipping nil pointers preserves order across concatenation, so the walk over all six fields is the walks over each field in turn |
| Syntax.MoveList | src/cmd/compile/internal/gc/syntax.go:427-431 | moving one list field of a node into another transfers the contents and empties the source, touches no other field (Orig included), keeps the invariants, and empties a field moved onto itself |
| Syntax.AppendList | src/cmd/compile/internal/gc/syntax.go:457-467 | appending one list field to another concatenates the contents and empties the source, touches no other field (Orig included), and keeps the invariants |
| Syntax.Alloc | src/cmd/compile/internal/gc/syntax.go:9-13 | a new node gets a handle no earlier pointer has, and every earlier pointer still reaches the same node |
| Syntax.SetValAt | src/cmd/compile/internal/gc/syntax.go:86-95 | `p.SetVal(v)` is fatal exactly for a nil receiver or a node holding optimizer data; otherwise that node, and no other, changes, and only in its payload, which undergoes exactly the slot-level `SetVal` (marker +1, value `v`) and stays consistent |
| Syntax.SetOptAt | src/cmd/compile/internal/gc/syntax.go:105-118 | `p.SetOpt(x)` is fatal exactly for a nil receiver or non-nil data on a value node; otherwise only that node's payload changes, exactly as the slot-level `SetOpt` does (so `SetOpt(nil)` on a value node keeps the value), and it stays consistent |
| Syntax.SharedChildSeesValue | src/cmd/compile/internal/gc/syntax.go:9-12 | when two parents share an identity node as Left, a value stored into it is seen through both parents |
| Syntax.AdditionsShareIdentity | src/cmd/compile/internal/gc/syntax.go:9-12 | two additions built over one `ONAME` node reach the same node as Left; the first also reaches its literal, which holds its value |

## Left out

- The diagnostic side effects on the fatal paths (`Debug['h'] = 1`, `Dump`, the `Fatalf` message output) are not modelled; a fatal path is the `Failure` result `HaveOpt` or `HaveVal`.
- Pointer aliasing is not modelled: the slice `Slice()` returns writes through to the container, `Addr` returns a `**Node`, and `Set`/`Append` take over the caller's slice. The model is value-based, and `Addr` is an index (`Slot`) with `Load`/`Store` through it.
- NodeSeq.MoveNodes: models only distinct source and destination containers. `MoveList` and `AppendList` model the self-move between fields of one node (which empties the field).
- NodeSeq.AppendNodes: models only distinct source and destination containers, for the same reason as `MoveNodes`.
- The side tables `Name`, `Param` and `Func` (lines 120-186) are attribute bundles with no behaviour, and they are not represented.
- The external types `Type`, `Sym`, `Pkg`, `Field`, `Pragma`, `Class` and `EType` are opaque to this core and are not represented. `Val` is reduced to its untyped field `U`, and an `interface{}` is either nil or some value known only by identity (`Iface`).
- The scalar fields (`Xoffset`, `Lineno`, `Reg`, `Esc` and the boolean and small-integer flags) are not represented: their meaning is informal and depends on the `Op`.
- Which generic fields each `Op` uses (the comments at lines 191-369) is a convention that nothing in the file enforces, and it is not modelled. `Op` is a bare tag.
- `hasVal` is an `int8` in the source. The model narrows it to -1..1, the only values this file writes to it.
- Go's `int` is 32 or 64 bits wide depending on the platform. Lengths and indices are unbounded here; no list is long enough for the width to matter.
- Cross-node list moves (`a.Nbody.MoveNodes(&b.Nbody)`) are not modelled as arena updates. Container-level `MoveNodes`/`AppendNodes` give their meaning, and node-level moves are modelled only between fields of one node.
