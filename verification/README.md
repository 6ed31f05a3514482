# Verified core of a tensor compiler

This project models the self-contained logic at the heart of RustGrad and proves what that logic is for. Five parts of
the compiler are covered, each in the form its source has: objects whose methods update fields are classes, loops are
loops proved against specification functions, and pure compositions are functions with lemmas about them.

1. **Reverse-mode differentiation over an append-only graph arena** (`Shapes`, `Axes`, `Vectors`, `Graph`, `Meanings`,
   `Builders`, `Rules`, `Reverse`, `Closure`, `Traversal`, `Calculus`, `Derivative`, `Higher`, `Autograd`). Tensors are
   flat real vectors under a row-major shape. The traversal worklist, the reverse sweep and the public gradient
   transforms are methods of the class `Autograd.GraphArena`; no builder the sweep calls can refuse its operands. The
   specification is independent of the sweep: dual-number tangents (`Graph.Tangents`), which are in turn proved to be
   derivatives in the sense of first-order expansion (`Calculus.Slope`). The main results are that every delivered
   gradient node is the adjoint of the tangent at every input point and for every seed (`Traversal.IsGradient`), that
   pruning is invisible, that a gradient exists exactly for nodes the loss depends on, and that a swept graph can be
   differentiated again.
2. **Scan reverse rules** (`Scans`, `Lines`, `ScanLoop`, `Extrema`, `ExtremaLines`, `ExtremaAdjoint`, `ScanAdjoints`,
   `ScanSlopes`): the cumulative sum, product and extremum and their reverse rules on tensors of any rank, exact for
   every line, any number of zeros and any pattern of ties; each rule is an adjoint on the whole tensor, for the
   extremum where no prefix ties.
3. **The generation-checked, double-banked host slot pool** (`HostSlots`, `HostCommits`, `Grants`, `HostPool`,
   `HostClients`). The pool and its leases are classes; live leases, views, mutable windows, issued windows and written
   tensors are tracked in ghost state, every step says exactly what it adds to them, and `Valid` is an invariant of
   every step, drops included. The frontier-ordered and the keyed transaction are two paths through one method whose
   contract names neither. `Grants` says condition by condition which requests, writes and reads are granted, and what
   they show, publish and leave alone.
4. **Collectives** (`Collective`, `Layout`, `Delivery`, `Ordering`, `Executor`, `Contributions`, `DeviceReduce`):
   planner, in-memory executor, order independence with its exact condition, and the in-place device all-reduce with
   failing driver calls and rollback.
5. **Index arithmetic, contraction plans and bit-level numeric helpers** (`Indexing`, `Einsum`, `EinsumPlan`,
   `EinsumOrder`, `EinsumMeaning`, `EinsumBroadcast`, `Powers`, `Half`, `Threefry`).

`Wrappers` holds the option and result types used throughout.

Conventions worth knowing when reading:

- `Graph.Point` gives the value of every input by name and may pin chosen nodes to chosen values; pinning the target is
  how a derivative with respect to an interior node is stated.
- Reciprocal is total (zero maps to zero), so the adjoint theorems need no side condition; the theorems that speak of
  derivatives ask for nonzero divisors and no kink (`Derivative.Smooth`).
- Driver calls succeed or fail as a script says (`DeviceReduce.Driver`); what a reduction reports is a function of it.
- A collective's workspace is described cell by cell (`Delivery.RunCell`): one element of one rank's output and inbox.
- In `Half`, magnitudes are natural numbers in units of 2^-149, the smallest positive binary32 magnitude, and an
  infinity stands at the next power of two, which is how section 4.3.1 of IEEE 754-2019 decides overflow.
- In `Threefry`, words are 32-bit vectors, whose arithmetic wraps around; a 64-bit number is its two halves. The
  published answers are those of the reference implementation of Threefry-2x32 with 20 rounds.

Where the code and its comments differ, the code is followed:

- src/host_buffer.rs:757-779 and 848-869 describe a mutable window as exclusive, but writes and views through a lease do
  not consult it (669-681, 741-754) and a release succeeds while it is open (785-801). A dropped lease whose slot is
  still viewed stays leased with no owner (803-807). `HostClients` shows each at a fresh pool.
- src/collective.rs:78-88 offers `depends_on` as the order of actions. For reductions it is not enough: a later transfer
  may overtake the addition that reads the same inbox. `Executor.OvertakingTransferBreaksAllReduce` exhibits such an
  order, and `Ordering.RightExactlyWhenTimely` says exactly which orders are right.
- src/einsum.rs:115-146 joins lengths operand by operand, so lengths 1, 0, 5 are accepted and 0, 5, 1 are refused.
  `Einsum.OrderIrrelevant` and `Einsum.OrderMatters` say exactly when the order can matter, and
  `EinsumOrder.PlanReordered` that for positive dimensions it never does.

## Model

| member | source | states |
|---|---|---|
| Shapes.OffsetOfCoords | src/index.rs:32-55 | the coordinates of a linear index have that index as their row-major offset |
| Shapes.CoordsOfOffset | src/index.rs:32-55 | the offset of in-range coordinates is below the length and has those coordinates |
| Shapes.FitsIffBroadcast | src/tensor/shape.rs:39-66 | one shape broadcasts into another exactly when joining the two, in either order, gives the larger one |
| Shapes.JoinFits | src/tensor/shape.rs:39-66 | both operands broadcast into their joined shape |
| Meanings.BroadcastFromRight | src/tensor/shape.rs:39-66 | two shapes join exactly when their extents, counted from the right, are equal or one of them is one, and the joined extent is the other |
| Meanings.OperandFromRight | src/tensor/shape.rs:39-66 | a broadcast reads the operand at the same coordinates counted from the right, zero along its unit axes |
| Shapes.PaddedMap | src/autograd.rs:1759-1767 | padding a shape with leading ones changes neither its element count nor any broadcast offset |
| Indexing.New | src/index.rs:10-25 | an index is built exactly when every leading and every trailing product is representable, and then each stride counts the elements of the later axes |
| Indexing.CoordsOfIs | src/index.rs:32-42 | coordinates are refused exactly at or beyond the length, and otherwise are the in-range ones whose row-major offset is the index |
| Indexing.OffsetAtIs | src/index.rs:43-55 | an offset is refused exactly for coordinates out of range, and otherwise is the row-major position, below the length, with no overflow |
| Indexing.IndexRoundTrip | src/index.rs:32-55 | coordinates and offset are mutually inverse at every rank |
| Indexing.BroadcastOffsetIs | src/index.rs:56-70 | a broadcast offset is refused exactly for a wrong rank or a coordinate outside an operand axis that is not one; for a shape that broadcasts it is the operand map at the output's own offset |
| Axes.ReinsertedIsKept | src/autograd.rs:1068-1074 | inserting a one at each reduced axis of the reduced shape restores the kept-dimension shape |
| Axes.InverseInverts | src/autograd.rs:1284-1291 | the scattered inverse permutation inverts on both sides |
| Axes.PermuteMapsInverse | src/autograd.rs:1284-1291 | the element maps of a permutation and of its inverse undo each other |
| Meanings.PermuteReads | src/backend/cpu.rs:2582-2604 | axis `i` of a permuted tensor is axis `axes[i]` of its operand, element by element |
| Vectors.ScatterAdjoint | src/autograd.rs:1736-1796 | adding elements into places is the adjoint of reading them from those places |
| Graph.ValuesExtend | src/autograd.rs:596-614 | old nodes keep their values when the arena grows |
| Meanings.NodeComputes | src/backend/cpu.rs:212-328 | what every node but a reduction or permutation computes, element by element, from operands read at the node's shape |
| Meanings.UnaryMeans | src/backend/cpu.rs:1630-1652 | negation, reciprocal, square, rectifier and step by what defines them |
| Meanings.BinaryMeans | src/backend/cpu.rs:1449-1480 | sum, difference, product and quotient by what defines them, operands in order |
| Meanings.CompareMeans | src/backend/cpu.rs:1269-1300 | the six comparisons |
| Meanings.KinkSlopes | src/autograd.rs:659-691 | at their kinks the rectifier and the step have slope zero |
| Meanings.BarrierStops | src/autograd.rs:621-632 | a gradient barrier carries no tangent |
| Meanings.ReducedNext | src/backend/cpu.rs:1796-1830 | a reduced axis is dropped from the shape, or kept as a one, axis by axis |
| Meanings.ReductionPairs | src/backend/cpu.rs:2520-2560 | a reduction adds every element into the one that a broadcast back would read in its place, for any axes |
| Builders.BroadcastAxes | src/autograd.rs:1754-1782 | exactly the padded axes and the axes stretched from one are summed, in ascending order |
| Builders.UnbroadcastGrown | src/autograd.rs:1736-1796 | un-broadcasting sums every gradient element into the operand element it was read from, at any rank, with padded, unit and empty axes |
| Rules.DownAdjoint | src/autograd.rs:1736-1796 | un-broadcasting is the adjoint of broadcasting |
| Rules.LeftRuleGrown | src/autograd.rs:851-893 | the left reverse rule computes the gradient times the partial derivative, element by element |
| Rules.RightRuleGrown | src/autograd.rs:851-893 | the right reverse rule does, including the quotient rule of division |
| Rules.UnaryRuleGrown | src/autograd.rs:659-691 | the unary reverse rules compute the gradient times the derivative |
| Rules.LinearRuleGrown | src/autograd.rs:633-635 | contiguous, sum, sum-to, reshape, permute and expand reverse to what their adjoints require |
| Rules.BinaryAdjoint | src/autograd.rs:851-893 | the two shares of a binary node account for all of its tangent |
| Rules.UnaryAdjoint | src/autograd.rs:659-691 | the share of a unary node accounts for its tangent |
| Rules.LinearAdjoint | src/autograd.rs:1060-1082 | what a linear operation sends back is its adjoint |
| Rules.SelectAdjoint | src/autograd.rs:1675-1698 | the two masked gradients of a selection account for its tangent |
| Reverse.CreditValue | src/autograd.rs:1970-1981 | accumulating adds to an existing gradient or becomes the gradient, and touches no other node's |
| Reverse.UnreachedTangent | src/autograd.rs:18-61 | a node with no chain to the target carries no tangent |
| Reverse.VisitStep | src/autograd.rs:614-632 | one node's step keeps the balance of gradients against tangents |
| Reverse.SweepIsAdjoint | src/autograd.rs:596-632 | reverse mode is the adjoint of forward mode: the swept gradient paired with any direction is the seed paired with the root's dual-number tangent, for shared nodes, repeated operands and detached parts |
| Reverse.PruningIsExact | src/autograd.rs:41-61 | any two edge lists that serve a target, pruned or not, give it the same gradient |
| Traversal.FrontierDone | src/autograd.rs:27-36 | an exhausted worklist has marked exactly the nodes the root depends on |
| Traversal.ReachesByChain | src/autograd.rs:18-61 | a node depends on another exactly when a chain of differentiated operands leads there: not through comparisons, conditions or barriers |
| Traversal.KeptDecides | src/autograd.rs:41-56 | a node contains a target exactly when it is one or keeps an active edge |
| Traversal.WantedActive | src/autograd.rs:47-53 | filtering a node's operands leaves exactly its edges towards a target |
| Traversal.GradientIffReached | src/autograd.rs:574-594 | the sweep gives a target a gradient exactly when the root depends on it |
| Traversal.SweptIsGradient | src/autograd.rs:515-594 | what the sweep leaves at a target, or a zero where it left nothing, pairs with every direction as the seed pairs with the loss's tangent, at every point |
| Calculus.SlopeProduct | src/autograd.rs:851-893 | the product rule |
| Calculus.SlopeRecip | src/autograd.rs:672-679 | the derivative of a reciprocal away from zero |
| Derivative.TangentIsDerivative | src/autograd.rs:596-632 | a node's dual-number tangent is its derivative wherever the nodes it is computed from are smooth |
| Higher.RouteTames | src/autograd.rs:596-632 | the sweep appends only nodes that are differentiable wherever the node they come from was |
| Closure.RouteCloses | src/autograd.rs:596-632 | one node's step appends only nodes that read appended nodes or nodes of any given set that holds the node, its operands and the gradients so far; the gradients it leaves are such nodes too |
| Higher.SweptKeepsSmooth | src/autograd.rs:596-632 | wherever the nodes that the loss and its seed are computed from are smooth, so are they together with all appended nodes, which hold the gradient |
| Higher.GradientIsDerivative | src/autograd.rs:478-513 | a gradient node's value paired with a direction is the derivative of the seeded loss in that direction, where the nodes the loss is computed from are smooth |
| Higher.ScalarGradient | src/autograd.rs:478-513 | the gradient of a scalar loss without a seed, paired with a direction, is the derivative of the loss itself |
| Higher.ReshapedSeedPairs | src/autograd.rs:545-572 | a seed of as many elements as the loss counts element by element, whatever its shape |
| Higher.BroadcastSeedPairs | src/autograd.rs:545-572 | a smaller seed counts as the seed broadcast to the loss |
| Higher.GradientDetermined | src/autograd.rs:478-513 | where those nodes are smooth, a vector's pairings are the derivatives of the seeded loss in every direction if and only if it is the gradient's value |
| Higher.SecondDerivative | src/autograd.rs:419-424 | applying the transform to its own output gives the derivative of the gradient, with smoothness asked only of the original nodes that the first loss and its seed are computed from |
| Autograd.GraphArena.Ancestors | src/autograd.rs:27-36 | the duplicate-pushing worklist terminates and marks exactly the nodes the root depends on |
| Autograd.GraphArena.Frontier | src/autograd.rs:18-61 | an edge is active exactly when its node is reached from the root and its operand is or reaches a target |
| Autograd.GraphArena.Divide | src/ir/elementwise.rs:3956-4030 | true division appends a reciprocal and a product |
| Autograd.GraphArena.Unbroadcast | src/autograd.rs:1736-1796 | appends the un-broadcasting nodes and returns a node of the target shape |
| Autograd.GraphArena.UnaryLocal | src/autograd.rs:659-691 | builds the unary reverse rule with every operand admissible |
| Autograd.GraphArena.LeftLocal | src/autograd.rs:851-893 | builds the left reverse rule |
| Autograd.GraphArena.RightLocal | src/autograd.rs:851-893 | builds the right reverse rule |
| Autograd.GraphArena.KeptDims | src/autograd.rs:1068-1074 | the insertion loop restores the kept-dimension shape |
| Autograd.GraphArena.LinearLocal | src/autograd.rs:1274-1296 | builds the reverse of the linear operations |
| Autograd.GraphArena.Accumulate | src/autograd.rs:1970-1981 | adds to an existing gradient or stores the first one |
| Autograd.GraphArena.BinaryStep | src/autograd.rs:851-1059 | credits the wanted operands of a binary node, left before right |
| Autograd.GraphArena.SelectStep | src/autograd.rs:1675-1698 | credits the wanted branches of a selection through a shared zero |
| Autograd.GraphArena.RunRule | src/autograd.rs:621-1699 | dispatches a node's rule; no builder it calls refuses its operands |
| Autograd.GraphArena.ReverseSweep | src/autograd.rs:604-632 | the descending loop leaves exactly the arena and gradients of the specification |
| Autograd.GraphArena.ConstLike | src/ir/creation.rs:4725-4745 | a scalar constant expanded to the receiver's shape, whatever the point |
| Autograd.GraphArena.Seed | src/autograd.rs:545-572 | a seed is taken, reshaped or expanded, or refused for its shape, or is one for a rank-zero loss |
| Autograd.GraphArena.Gradient | src/autograd.rs:488-594 | serves exactly the requests whose nodes are known and whose loss has rank zero or whose seed can be read at its shape; refuses the others for the earliest fault, without touching the graph; delivers the gradient of every target, one node per distinct target |
| Autograd.RefusalIs | src/autograd.rs:515-572 | which requests are refused and what each error says of them: a loss of one element but rank one needs a seed, and the earliest unknown node is the one named |
| Autograd.GraphArena.GradWith | src/autograd.rs:425-474 | the strict form delivers the gradient exactly when the request is admissible and the loss depends on the target, and otherwise leaves the graph untouched and says why |
| Autograd.StrictRefusalIs | src/autograd.rs:425-474 | which single-target requests are refused before the sweep, and what each error says of them |
| Scans.SumsVjpIsSuffix | src/autograd.rs:1798-1802 | the cumulative-sum rule is the suffix sum |
| Scans.SumsAdjoint | src/autograd.rs:1798-1802 | it is the exact adjoint of the prefix sum |
| ScanAdjoints.SumsAdjointAlong | src/autograd.rs:1798-1802 | on whole tensors the cumulative-sum rule is the adjoint of the cumulative sum along the axis |
| Scans.ProductsVjpExact | src/autograd.rs:1804-1825 | the cumulative-product rule gives each position the sum over later products of their gradient times their other factors, for any number of zeros anywhere |
| Scans.TangentIsLeaves | src/autograd.rs:1804-1825 | the dual-number tangent of a product is the sum over its factors |
| Scans.ProductsAdjoint | src/autograd.rs:1804-1825 | the cumulative-product rule is the exact adjoint of the dual-number tangent of prefix products |
| ScanSlopes.ProductSlope | src/autograd.rs:1804-1825 | the tangent of a prefix product is its derivative along a movement, zeros or not |
| ScanSlopes.ProductsDerivative | src/autograd.rs:1804-1825 | the cumulative-product rule, paired with a movement, is the derivative of the cumulative product weighted by the gradient |
| ScanAdjoints.ProductsAdjointAlong | src/autograd.rs:1804-1825 | on whole tensors the cumulative-product rule is the adjoint of the dual-number tangent of the cumulative product, zeros or not |
| ScanLoop.PrefixScan | src/backend/cpu.rs:1860-1935 | the nested loops over blocks, lines and the axis give every element the scan of its own line, at every rank and axis: a running sum or product takes each element from the one before it, a cumulative maximum or minimum is an element of its prefix and at least or at most every other; a scalar is returned as it is |
| ScanLoop.ScanFollows | src/backend/cpu.rs:1889-1925 | each scanned element is the one before it, plus, times or bettered by the input at its own place, and the first of a line is the input itself |
| ScanLoop.ScanIsExtreme | src/backend/cpu.rs:1894-1915 | a cumulative maximum is no less, and a cumulative minimum no greater, than every element up to its place, and is one of them |
| Lines.SumsVjpLines | src/autograd.rs:1798-1802 | every line of the tensor-level cumulative-sum rule is the one-line rule |
| Lines.ProductsVjpLines | src/autograd.rs:1804-1825 | every line of the tensor-level cumulative-product composition is the one-line rule |
| Lines.ProductsVjpElement | src/autograd.rs:1804-1825 | each element of the tensor-level rule in closed form |
| Extrema.WinnersExist | src/autograd.rs:1862-1871 | every prefix has at least one winner |
| Extrema.WeightOnlyFromTies | src/autograd.rs:1855-1876 | a position receives weight only from prefixes that contain it and that it ties for |
| Extrema.TiesShareEvenly | src/autograd.rs:1872-1876 | tied positions receive equal amounts |
| Extrema.PrefixConserves | src/autograd.rs:1872-1876 | a prefix sends out exactly its gradient |
| Extrema.MassConserved | src/autograd.rs:1827-1886 | the input gradients of a line sum to its upstream gradients, for any ties |
| ExtremaAdjoint.AdjointExactlyWithoutTies | src/autograd.rs:1827-1886 | the rule is the adjoint of the tangent of the cumulative extremum, for all gradients and movements, if and only if no prefix of the line has a tie |
| ExtremaAdjoint.BestSlope | src/autograd.rs:1827-1886 | the best of a prefix without a tie is differentiable and that tangent is its derivative |
| ExtremaAdjoint.DifferentiableExactlyWithoutTie | src/autograd.rs:1827-1886 | the best of a prefix has a derivative in every direction if and only if the prefix has no tie, so at a tie no tangent would do |
| ScanSlopes.BestsDerivative | src/autograd.rs:1827-1886 | where no prefix is tied, the cumulative-extremum rule paired with a movement is the derivative of the cumulative extremum weighted by the gradient |
| ScanAdjoints.BestsAdjointAlong | src/autograd.rs:1827-1886 | on tensors without ties the permuted, broadcast and reduced composition is the adjoint of the tangent of the cumulative extremum |
| ExtremaLines.SumAlong | src/autograd.rs:1862-1884 | reducing one axis of a tensor sums every line along it, at every rank |
| ExtremaLines.WinnerAt | src/autograd.rs:1847-1861 | the broadcast comparison and prefix mask hold one exactly where a position lies in a prefix and ties for its best |
| ExtremaLines.BestsVjpLines | src/autograd.rs:1827-1886 | every line of the permuted, broadcast and twice reduced composition is the one-line rule, at every rank and axis |
| ExtremaLines.LineMassConserved | src/autograd.rs:1827-1886 | every line of a tensor receives exactly the gradient mass its prefixes were given, for any ties |
| HostSlots.FailureIsInvisible | src/host_buffer.rs:282-420 | a failed transaction changes no generation, descriptor, lease flag or active value, whatever its callback scribbled |
| HostSlots.SuccessPublishes | src/host_buffer.rs:386-418 | a successful transaction publishes the successor of every replaced request, keeps the old value as the inactive bank, and touches nothing else |
| HostSlots.RetryIsFresh | src/host_buffer.rs:282-420 | after any failure, retrying with a callback that fills every successor ends as if the failure never happened |
| HostSlots.AdmitAlike | src/host_buffer.rs:312-381 | tables that differ only in banks to be replaced admit the same requests and show the callback alike banks |
| HostSlots.CollectedSorted | src/host_buffer.rs:337-392 | sorting the banks collected in slot order gives the banks in request order, one for every request |
| HostSlots.FrontierOrdinal | src/host_buffer.rs:294-302 | on a full frontier no slot repeats and every slot exists |
| HostCommits.CommitPublishes | src/host_buffer.rs:216-261 | an accepted batch publishes every written value and touches no other slot |
| HostPool.ReadsSourced | src/host_buffer.rs:473-490 | whatever a read batch shows was written under the requested slot and generation, or is that descriptor's zero |
| HostPool.SlotLeased | src/host_buffer.rs:158-180 | a new lease raises the generation past every earlier handle and empties both banks |
| HostPool.TransactEvolved | src/host_buffer.rs:282-420 | every transaction, whatever its outcome, changes only banks of leased slots, to values written under their generation or its zero |
| HostPool.BanksSourced | src/host_buffer.rs:337-381 | both banks shown to a callback belong to the requested generation or are its zero |
| HostPool.ViewFacts | src/host_buffer.rs:741-754 | a live view is current, counted, and of a leased slot |
| HostPool.HostSlotPool.constructor | src/host_buffer.rs:103-110 | a new pool satisfies the invariant with no handle out, no window issued and nothing written |
| HostPool.HostSlotPool.EveryHandleAccounted | src/host_buffer.rs:112-181 | in every reachable pool: one unreleased lease per slot, which holds it at its generation; views all current and counted; the window flag up exactly for the one open window; capacity the descriptor's bytes; nothing written under a generation yet to begin |
| HostPool.HostSlotPool.Lease | src/host_buffer.rs:112-181 | hands out a lease exactly for a slot that is new, or free and of the same size, dtype, shape, alignment and lanes with a generation to spare; the lease is the slot's only unreleased one, under a generation nothing has been written to, and both banks are empty |
| HostPool.LeaseMeans | src/host_buffer.rs:131-180 | which slots a lease is refused for and with which fault: held, then mis-sized, then of another kind, then out of generations |
| HostPool.HostBufferLease.Write | src/host_buffer.rs:669-681 | replaces the active value of a live lease, leaves its other bank and every other slot alone, and records exactly that write under its generation; a released lease is stale |
| HostPool.HostBufferLease.StagedCommits | src/host_buffer.rs:683-697 | a staged value commits on its own exactly while its lease lives and its slot is neither viewed nor open |
| HostPool.HostBufferLease.View | src/host_buffer.rs:741-755 | adds one live view of the current generation |
| HostPool.HostBufferLease.MutableWindow | src/host_buffer.rs:757-779 | opens and issues the sole mutable window of a slot nobody views |
| HostPool.HostBufferLease.Release | src/host_buffer.rs:781-801 | ends the generation exactly when no view is out, even with a window open |
| HostPool.HostBufferLease.Drop | src/host_buffer.rs:803-807 | a drop releases if it can; a viewed slot stays leased with no owner |
| HostPool.HostSlotPool.StrandedRefused | src/host_buffer.rs:112-181 | a leased slot with no unreleased lease is refused to every later lease; every step of the pool leaves it so, at its generation |
| HostPool.HostSlotPool.ByteWindow | src/host_buffer.rs:828-841 | a checked read-only range within the logical bytes, refused exactly when it ends beyond them |
| HostPool.RangeMeans | src/host_buffer.rs:820-827 | a range is refused exactly when it ends beyond the descriptor's bytes or the 64-bit range |
| HostPool.HostSlotPool.ViewWindow | src/host_buffer.rs:848-869 | opens and issues the sole mutable window through the sole view; a live view is never stale |
| HostPool.HostSlotPool.ViewTensor | src/host_buffer.rs:872-884 | a live view never fails as stale, and sees only a tensor written under its own generation or its zero |
| HostPool.HostSlotPool.Validate | src/host_buffer.rs:899-912 | any window ever issued, after any later steps, is refused exactly when its generation is over, never for its bounds |
| HostPool.HostSlotPool.DropView | src/host_buffer.rs:925-935 | one live view fewer |
| HostPool.HostSlotPool.DropWindow | src/host_buffer.rs:914-924 | the window flag falls with the one live mutable window |
| HostPool.HostSlotPool.PrepareSlot | src/host_buffer.rs:945-978 | readies the inactive bank of exactly those slots that are leased at the requested generation, unviewed, without a window and of the requested descriptor, whose zero is representable unless the bank is retained; a successor starts as the fitting previous value or all zeros |
| HostPool.HostSlotPool.AdmitFrontier | src/host_buffer.rs:312-320 | the side-by-side walk admits or refuses as the specification says |
| HostPool.HostSlotPool.AdmitKeyed | src/host_buffer.rs:321-337 | the keyed walk admits or refuses as the specification says, with the same precedence |
| HostPool.HostSlotPool.CollectFrontier | src/host_buffer.rs:339-385 | the unsorted collection is the transaction's banks, or the lowest slot without a value |
| HostPool.HostSlotPool.CollectKeyed | src/host_buffer.rs:339-392 | so is the keyed and sorted collection |
| HostPool.HostSlotPool.Transact | src/host_buffer.rs:282-420 | both paths give one and the same result, table and callback view and keep the invariant; the callback is reached only if every request names its own live, unviewed, closed slot with a value; no live view or open window ever sees its slot change |
| Grants.OpensExactly | src/host_buffer.rs:312-381 | a transaction reaches its callback exactly when every request names a different slot, leased at its generation and descriptor, without a view or a window, with a value and a representable successor |
| Grants.RejectionMeans | src/host_buffer.rs:945-978 | a rejection names the first fault of the first request at fault, or else the lowest slot without a value |
| Grants.BankShows | src/host_buffer.rs:339-381 | bank by bank, the callback is shown the active value, and as successor the fitting previous value or all zeros; a retained bank has none |
| Grants.OutcomeMeans | src/host_buffer.rs:382-400 | the callback's failure is passed on, and its success counts exactly if everything to publish fits its descriptor |
| Grants.SuccessShows | src/host_buffer.rs:386-418 | what a request's bank held when the callback returned becomes the active value, the old one stays as the other bank, and nothing else of the slot changes |
| Grants.TransactSpares | src/host_buffer.rs:282-420 | a slot that no request may use keeps its whole state, whatever the outcome |
| HostPool.HostSlotPool.Commit | src/host_buffer.rs:216-261 | publishes all of a batch's values and records exactly those writes, exactly when every write names its own live, unviewed, closed slot and fits it; otherwise leaves the pool as it was; no live view or open window sees its slot change |
| HostPool.HostSlotPool.WithActive | src/host_buffer.rs:425-491 | reaches its callback exactly when every request names its own live slot without a window that holds a fitting value, and shows only tensors of the requested generations or their zeros |
| Grants.CommitsExactly | src/host_buffer.rs:216-252 | which batches of writes are accepted |
| Grants.CommitRejectionMeans | src/host_buffer.rs:222-246 | a refused batch names the first fault of its first write at fault |
| Grants.ReadsExactly | src/host_buffer.rs:425-491 | which batches of reads are shown |
| Grants.ReadsShow | src/host_buffer.rs:473-490 | every accepted read shows its slot's active value, in request order |
| Grants.ReadRejectionMeans | src/host_buffer.rs:425-480 | a refused batch of reads names the first fault of its first read at fault; an open window refuses a read, a live view does not |
| HostClients.WindowIsNotExclusive | src/host_buffer.rs:757-801 | with its mutable window open a slot can still be written, viewed and released |
| HostClients.DropStrandsSlot | src/host_buffer.rs:803-807 | dropping a viewed lease leaves its slot leased with no owner: even once its view is gone, leasing it again is refused |
| HostClients.WindowSurvivesSteps | src/host_buffer.rs:828-912 | a read window stays valid after its view is dropped and the slot is written, until the release |
| Collective.ChunksCover | src/collective.rs:803-815 | chunks are contiguous, in order, cover the count exactly, the longer ones first, and differ in length by at most one |
| Layout.ChunksDetermined | src/collective.rs:803-815 | there is only one way to cut such chunks |
| Collective.ChunkStart | src/collective.rs:803-826 | each chunk starts where the lengths before it end |
| Collective.PlanPlaced | src/collective.rs:139-310 | planned actions are numbered in order, depend on earlier actions only, name ranks of the group, and stay inside the workspace and their source |
| Delivery.InterleavingInvariant | src/collective.rs:716-763 | any interleaving that keeps each destination's own actions in plan order gives every element the same value |
| Delivery.BroadcastAnyOrder | src/collective.rs:175-217 | under any order respecting the dependencies every rank ends a broadcast with the root's tensor |
| Delivery.GatherAnyOrder | src/collective.rs:218-256 | under any order respecting the dependencies every rank ends an all-gather with every contribution in place |
| Delivery.ReduceCell | src/collective.rs:257-299 | a reduction plan rebuilds every element as the own-first fold, whatever the workspace held |
| Delivery.OwnFirstIsInOrder | src/collective.rs:257-299 | with a commutative, associative addition the own-first fold is the fold in group order |
| Ordering.RunIsFolded | src/collective.rs:716-763 | under any order an element is the fold of its destination's copies and additions over the contributions that were really in the inbox |
| Ordering.LinearKeepsArithmetic | src/collective.rs:278-296 | every order respecting the dependencies keeps each destination's copies and additions in plan order; only transfers can move |
| Ordering.TimelyReduces | src/collective.rs:257-299 | such an order of a reduction gives the own-first fold, for every addition, if every addition is most recently preceded by its own transfer |
| Ordering.LosesOne | src/collective.rs:278-296 | any other dependency-respecting order adds some rank's contribution nowhere |
| Ordering.UntimelyReducesWrongly | src/collective.rs:278-296 | otherwise some contributions come out wrong, for every addition with an element neutral for itself and for another one |
| Ordering.RightExactlyWhenTimely | src/collective.rs:257-299 | a dependency-respecting order of a reduction is right for all contributions if and only if every addition directly follows, among the transfers to its rank, its own; for every such addition |
| Ordering.SumRightExactlyWhenTimely | src/collective.rs:257-299 | the same for the sum of integers |
| Executor.PlanBroadcast | src/collective.rs:175-217 | the broadcast loop emits the specified actions |
| Executor.PlanGather | src/collective.rs:218-256 | the all-gather loops do |
| Executor.PlanReduce | src/collective.rs:257-299 | the reduction loops do |
| Executor.PlanChunks | src/collective.rs:803-815 | the chunk loop cuts contiguous chunks in order that cover the count, the longer ones first and none more than one longer |
| Executor.Validate | src/collective.rs:778-802 | a request is refused for its first fault |
| Executor.MakePlan | src/collective.rs:139-310 | the planner accepts exactly the requests with one length per rank, equal ones outside all-gather, a root in the group and a representable total; the chunks and output lengths of its plan are the only even sharing with the longer first, and every action stands at its place |
| Layout.InvalidIs | src/collective.rs:778-802 | which requests are refused, and for what |
| Layout.PlanShared | src/collective.rs:139-175 | the chunks of a plan share the total, longer first; a reduce-scatter gives each rank its chunk and every other collective the total |
| Layout.PlanLaidOut | src/collective.rs:175-310 | every action of every kind of plan in closed form, by position: operation, source, destination, range and dependencies |
| Executor.ApplyRow | src/collective.rs:739-762 | one action changes its destination's row as specified, element by element |
| Executor.RunActions | src/collective.rs:716-764 | on a canonical plan no dependency, membership or range check can fail |
| Executor.Execute | src/collective.rs:689-777 | execution is refused exactly for a tampered plan or ill-fitting inputs, with the first such fault, and otherwise returns the plan's outcome |
| Executor.AllReduceOutcome | src/collective.rs:257-299 | every rank of an all-reduce gets the fold of all inputs, its own first |
| Executor.AllReduceAgrees | src/collective.rs:257-299 | with a commutative, associative addition all ranks hold the same elementwise sum |
| Executor.ReduceScatterOutcome | src/collective.rs:264-275 | each rank of a reduce-scatter gets the fold over its own chunk |
| Executor.GatherOutcome | src/collective.rs:218-256 | every rank of an all-gather gets the concatenation |
| Executor.BroadcastOutcome | src/collective.rs:175-217 | every rank of a broadcast gets the root's tensor |
| Contributions.AllReduceSpells | src/collective.rs:257-299 | every element of an all-reduce adds every rank's element at its position exactly once, the rank's own first and the others in group order |
| Contributions.ReduceScatterSpells | src/collective.rs:264-299 | every element of a shard does, at the shard's place in the whole |
| Contributions.GatherJoins | src/collective.rs:218-256 | every rank of an all-gather holds the inputs end to end |
| Executor.ScatterThenGather | src/collective.rs:218-299 | reduce-scatter then all-gather of its uneven outputs equals all-reduce |
| Executor.NoStaleReads | src/collective.rs:710-764 | no output element depends on what the workspace or an inbox held before |
| Executor.OvertakingTransferBreaksAllReduce | src/collective.rs:278-296 | a dependency-respecting order of an all-reduce that computes a different sum |
| DeviceReduce.RunAction | src/collective.rs:538-640 | one device action makes one driver call and succeeds exactly if that call works; it then changes its destination's buffers as the in-memory step does, and never writes past the logical prefix |
| DeviceReduce.RunOnDevices | src/collective.rs:510-660 | the in-place loop tracks the in-memory execution from any workspace content, stops exactly at the first action whose call fails, and keeps the snapshots |
| DeviceReduce.DeviceGroup.EnsurePeers | src/collective.rs:396-430 | one enable call for each missing peer pair, all pairs cached if every call works, and the cache unchanged at the first that fails |
| DeviceReduce.DeviceGroup.Check | src/collective.rs:446-500 | the checks before device work accept exactly the admissible requests and name the first fault of the others |
| DeviceReduce.DeviceGroup.Reduce | src/collective.rs:510-682 | the fault reported is a function of which driver calls fail, and every buffer is as it was unless the rollback's own calls fail |
| DeviceReduce.DeviceGroup.AllReduceSum | src/collective.rs:441-682 | succeeds whenever every driver call works; on success every lease prefix is what the in-memory executor returns and the rest of the lease is untouched; on failure every lease is exactly as before unless two driver calls fail, the second in the rollback; a refused or empty request makes no driver call |
| DeviceReduce.AskingIs | src/collective.rs:396-430 | exactly the missing peer pairs of a plan's transfers are asked for, in order of first use, each once |
| DeviceReduce.EveryActionCalls | src/collective.rs:538-640 | with something to reduce, every action of an all-reduce makes its own driver call, over the whole logical range |
| DeviceReduce.FaultNeedsSlips | src/collective.rs:441-682 | a reduction fails only if a driver call does, and blames the rollback only if two do |
| DeviceReduce.FaultTruthful | src/collective.rs:396-682 | what a reduction reports is true: the peer or action named is the one whose call failed first, and a failed rollback is a failed action and a later failed call |
| Einsum.SubscriptIffRendered | src/einsum.rs:224-259 | a text is a subscript exactly when it renders letters with at most one ellipsis, and then in one way only |
| Einsum.ParseSubscript | src/einsum.rs:224-259 | the scanning loop reads exactly the pieces of its text |
| Einsum.JoinedIff | src/einsum.rs:123-146 | exactly which length lists of a label are accepted |
| Einsum.PositiveExtent | src/einsum.rs:123-160 | without empty axes a label is accepted exactly when its lengths are one or a common value, and its extent is their maximum |
| Einsum.OrderIrrelevant | src/einsum.rs:115-160 | unless an empty, a unit and a common larger length meet, the order of operands decides nothing |
| Einsum.OrderMatters | src/einsum.rs:115-160 | when they meet, one order of the same lengths is accepted and another refused |
| EinsumPlan.OperandsLabelled | src/einsum.rs:46-112 | every operand axis is labelled |
| EinsumPlan.JoinExtents | src/einsum.rs:114-147 | the nested loop joins exactly the labels' lengths and refuses inconsistent repeats |
| EinsumPlan.JoinsByLabel | src/einsum.rs:114-147 | the joined map holds, label by label, the fold of that label's own lengths |
| EinsumPlan.ImplicitOutput | src/einsum.rs:284-302 | the counting loops give all ellipsis axes and then the letters labelling exactly one axis, ascending |
| EinsumPlan.ContractedIs | src/einsum.rs:174-178 | the contracted labels are the labels not in the output, without repetition |
| EinsumPlan.Parse | src/einsum.rs:27-187 | parsing gives exactly the specified plan or error, which EinsumMeaning.ParsesExactly spells out |
| EinsumMeaning.ParsesExactly | src/einsum.rs:27-187 | an equation parses to a plan if and only if its blank-free text spells terms and output whose labels stand in the text's order with every ellipsis ending at the last ellipsis axis, whose lengths join, whose output is the one asked for in place or the ordered implicit one, and whose counts are representable |
| EinsumMeaning.EllipsesAlign | src/einsum.rs:80-108 | in an accepted plan, `j` places from the right end of any operand's ellipsis stands ellipsis axis `w - 1 - j` |
| EinsumBroadcast.EllipsesBroadcast | src/einsum.rs:80-160 | two positive shapes contract under ellipses alone exactly when they broadcast, and then the output has the broadcast shape |
| EinsumMeaning.Blanks | src/einsum.rs:28-34 | white space by code point is what an equation is stripped of |
| EinsumMeaning.ErrorsAre | src/einsum.rs:27-187 | the operand count is reported exactly when it is wrong, and overflow exactly for a plan that is right but for its counts |
| EinsumMeaning.SinglesAre | src/einsum.rs:284-302 | the implicit letters are those that label exactly one axis, ascending |
| EinsumMeaning.ContractedSorted | src/einsum.rs:174-178 | the contracted labels are in order, letters before ellipsis axes |
| EinsumPlan.PlanPartitionsLabels | src/einsum.rs:27-187 | every accepted plan labels each operand axis and splits all labels into duplicate-free output and contracted sets |
| EinsumPlan.ArrowlessIsExplicit | src/einsum.rs:161-164 | an equation without an arrow parses to the same plan as its explicit form |
| EinsumOrder.PlanReordered | src/einsum.rs:27-187 | for positive dimensions, reordering the operands of an equation with their shapes reorders the operand labels of its plan and changes neither extents, nor output, nor contracted labels, nor which error is reported |
| Half.ValueOrdered | src/cpu_jit_random.rs:143 | codes are ordered like their magnitudes |
| Half.NearestUnique | src/cpu_jit_random.rs:143 | rounding to nearest with ties to even determines the code |
| Half.NearestByRemainder | src/cpu_jit_random.rs:143 | comparing a remainder with half a step, ties by parity, gives the nearest code |
| Half.FieldsAre | src/cpu_jit_random.rs:143 | signs, codes and infinities by their place in the word; a bfloat16 is the upper half of a binary32 |
| Half.Magnitudes | src/cpu_jit_random.rs:143 | binary32 magnitudes: one is 2^149 units, and each code adds one unit of its exponent |
| Half.Widened | src/cpu_jit_random.rs:143 | a binary16 code stands for what the binary32 word with its fields moved and its exponent rebased stands for |
| Half.TiesToEven | src/cpu_jit_random.rs:143 | exactly between two neighbouring codes the even one is nearest; otherwise no code is nearer |
| Half.ToBinary16 | src/cpu_jit_random.rs:143 | every finite binary32 value converts to the nearest binary16 value, ties to even, subnormals, carries and overflow included; infinities stay what they are, and a NaN keeps its sign and the upper part of its payload, the lowest bit set |
| Half.ToBfloat16 | src/cpu_jit_random.rs:143 | every finite binary32 value converts to the nearest bfloat16 value, ties to even, and the addition never wraps; a NaN keeps its sign and the upper part of its payload, or the smallest one |
| Half.RoundedWord | src/cpu_jit_random.rs:143 | adding just under half and the code's parity carries exactly when rounding up |
| Threefry.Generate | src/cpu_jit_random.rs:143 | the emitted loop computes the cipher, whose constants the two published answers fix |
| Threefry.ZeroVector | src/cpu_jit_random.rs:143 | the published answer for the zero key and counters |
| Threefry.PiVector | src/cpu_jit_random.rs:143 | the published answer for the digits of pi as counters and key |
| Threefry.Turned | src/cpu_jit_random.rs:143 | the shifts and or of every round are the rotation by that round's amount |
| Threefry.Recover | src/cpu_jit_random.rs:143 | the loop run backwards recovers the counters of any output |
| Threefry.RoundBack | src/cpu_jit_random.rs:143 | a round and its inverse cancel both ways |
| Threefry.CipherIsBijection | src/cpu_jit_random.rs:143 | for every key the generator is a bijection on counter pairs |
| Threefry.Draw | src/cpu_jit_random.rs:143 | a stream's word is one half of its lane's pair under the derived key, first all first halves and then all second halves, the 64-bit counters truncated |
| Threefry.LanesDiffer | src/cpu_jit_random.rs:143 | two lanes produce the same pair exactly when their numbers agree modulo 2^32 |

## Left out

- Floating-point rounding, NaN, dtypes, casts and promotion in the graph: values are real numbers, so the accumulator
  casts of un-broadcasting and the per-node dtype checks do not appear.
- The `requires_grad` flag, the graph-local no-grad mode and the non-differentiable-target error, which depend on
  dtypes.
- Element-count and byte-extent overflow in the graph builders; every model shape has a representable size.
- Reverse rules of the transcendental, power, extremum and integer operations, products and extrema of reductions,
  means, gather, scatter, stride and concatenation, and the matrix, convolution and contraction gradients, whose bodies
  are not part of this model or rest on operations that are not.
- The prefix-scan arms of the sweep dispatch: the scan rules are proved adjoint on tensors and on lines, not routed
  through the arena, so the theorems about whole graphs say nothing of graphs that contain a scan.
- ScanLoop.PrefixScan: the index output of the cumulative extremum; only values are returned.
- The conjunction of the two masks of the cumulative-extremum rule is the product of their zeros and ones.
- Conditions computed by nodes that themselves depend on differentiable operands stay out of the derivative theorems
  unless the condition is a comparison, a constant, an input or a detached node; the adjoint theorems have no such
  limit.
- Reverse.SweepIsAdjoint: pins only the target and nodes without backward edges, since an overridden interior node has
  no tangent of its own.
- HostPool.HostSlotPool.Lease: the sentinel counter and slot numbers are unbounded integers, so running out of 2^64
  sentinel slots is not modelled.
- Mutex poisoning, backing memory, alignment and the pool statistics of the host pool; pool identity is object identity.
- HostPool.HostSlotPool.Transact: the callback is a total function of the banks; it cannot panic or keep a reference.
- Device identity strings, stream lanes, dtypes, cache keys and serialisation of collective plans; ranks stand for
  devices and addition is any binary function, with commutativity and associativity stated where used.
- DeviceReduce.DeviceGroup.AllReduceSum: counts elements, not bytes, and each driver call is one step that works or
  fails with junk in the range it was to write; asynchronous overlap, kernels, dtype support and the four-owner limit
  are not modelled.
- Einsum: the reason text of a refusal; all refusals of an ill-formed equation are one error.
- The other helpers the random renderer emits: uniform and normal variates, integer casts, and the choice of C types.
- Command lines, files, JSON evidence, benchmarks, gradient checking, convolution plans, stable sorting and profiling.
