# improved-greiner-hormann, modelled in Dafny

This project models the clipping core of *improved-greiner-hormann*. That library implements Greiner–Hormann polygon clipping (intersection, union and difference of two simple polygons). It handles degenerate meetings of edges — vertices on edges, shared vertices and shared edges — the way Foster et al. describe.

The model follows the program's structure:

- **`VertexLists`** (vertexlist.dfy): the circular doubly linked `VertexList`.
  - It is a class over an arena `nodes: seq<Node>` whose `next`/`prev` fields are indices, with −1 for `null`.
  - Ghost fields `order`/`pos` record the cycle from the head.
  - `insert`, `insertBefore`, `forEach`, `find`, `every`, `toArray` and `fromArray` are methods proved against `Walk` (the traversal order from a node) and `FirstMatch`.
- **`Util`** (util.dfy): `A` (twice the signed area), the epsilon `sign`, JavaScript's truncating `%`, and the winding number that `inside` counts.
- **`Winding`** (winding.dfy): `inside` as a loop over a list, proved equal to the parity of the winding number of the ring.
- **`Classification`** (classification.dfy): `side` and the edge-pair classification of the intersection phase. It covers the X, T and V intersections, X and T overlaps, and a shared start.
- **`Intersections`** (intersections.dfy): `findInsertionPoint` and the insertion that keeps the intersection nodes between two source vertices sorted by `alpha`.
- **`IntersectionPhase`** (intersectionphase.dfy): phase 1. These are the nested `forEach` loops over subject and clip edges that insert intersection nodes into both lists and link partners.
- **`Labelling`** (labelling.dfy): phase 2, in order:
  - crossing/bouncing and chain tags;
  - delayed resolution of chains;
  - copying labels to the clip;
  - choosing start vertices, including the synthesised midpoint seed;
  - entry/exit alternation.
- **`Tracing`** (tracing.dfy): phase 3. It walks from unprocessed crossing intersections, switching polygons at each intersection, until a component closes.
- **`Collinear`** (collinear.dfy): the post-processing that splices out vertices with zero area against their neighbours.
- **`Engine`** (engine.dfy): `greinerHormann` as a whole. It covers input validation, the three phases, the no-crossing containment fallback and post-processing.
- **`Policies`** (policies.dfy): the `INTERSECT`/`UNION`/`DIFFERENCE` tables with their trivial results and tracing directions.
- **`HoleSplit`** (split.dfy): `DIFFERENCE.CLIP_CONTAINED`. It finds the bisecting line, `Cx`, S1/i1 and S2/i2, then cuts the subject into two pieces.
- **`Operations`** (operations.dfy): the entry points `intersect`, `union` and `difference`.

Coordinates are `real` and `EPSILON` is `1/100000000`. A thrown exception is an outcome of its own: `TooFewPoints` for the explicit `throw`, `TypeError` for a dereference of `null`/`undefined`. A trace that would never close is `Loops`.

## Model

| member | source | states |
|---|---|---|
| VertexLists.VertexList.Insert | src/vertexlist.js:8-13 | the entry becomes `next` of `this` and `prev` of the old successor; the cycle order gains the entry right after `this`; `Valid` (circular, `next`/`prev` inverse) is kept; no node's data changes |
| VertexLists.VertexList.InsertBefore | src/vertexlist.js:15-20 | mirror image: the entry becomes `prev` of `this` and `next` of the old predecessor, spliced into the cycle order before `this`; `Valid` is kept and the cycle grows by one |
| VertexLists.LinkAfter | src/vertexlist.js:8-13 | the three pointer writes of `insert` on the arena: only `this.next`, the old successor's `prev` and the new node's links change |
| VertexLists.LinkBefore | src/vertexlist.js:15-20 | the three pointer writes of `insertBefore`, with every other link unchanged |
| VertexLists.SpliceInverse | src/vertexlist.js:8-20 | splicing one node into the cycle order keeps `order` and `pos` mutually inverse permutations of one more index |
| VertexLists.AfterCycle | src/vertexlist.js:8-13 | the links written by `insert` form a valid cycle whose order is the old one with the entry spliced after `this` |
| VertexLists.BeforeCycle | src/vertexlist.js:15-20 | the links written by `insertBefore` form a valid cycle with the entry spliced before `this` |
| VertexLists.VertexList.ForEach | src/vertexlist.js:22-29 | the callback runs once per node, in `next` order from the start node, threading its state; the result is the fold of the callback over `Walk(start)` |
| VertexLists.VertexList.Sweep | src/vertexlist.js:22-29 | the `forEach` loop with a callback that may rewrite the node it is on, its cursor reading `next` after the callback, equals the fold over the tour |
| VertexLists.FoldAt | src/vertexlist.js:22-29 | the node visited at position k is rewritten from the state the callback had after the first k visits |
| VertexLists.FoldFrame | src/vertexlist.js:22-29 | nodes the walk does not visit are left alone |
| VertexLists.VertexList.Find | src/vertexlist.js:31-40 | returns the first node along `next` from the start that satisfies the predicate (with its index), or null |
| VertexLists.FirstMatchSpec | src/vertexlist.js:31-40 | `find` is null iff no node satisfies the predicate; otherwise it is a node at some index k that satisfies it, with none before k satisfying it |
| VertexLists.VertexList.Every | src/vertexlist.js:42-44 | null iff every node satisfies the predicate; otherwise the first node that fails it (the inverted sense of the name) |
| VertexLists.VertexList.ToArray | src/vertexlist.js:46-50 | the nodes in traversal order from the start, one per node |
| VertexLists.VertexList.FromArray | src/vertexlist.js:52-65 | for a non-empty array: a valid cycle of `|vertices|` nodes in array order, each a source node holding its vertex |
| VertexLists.VerticesRoundTrip | src/vertexlist.js:46-65 | `toArray(fromArray(vs))` gives back exactly the vertices `vs` |
| VertexLists.VertexList.WalkPermutation | src/vertexlist.js:22-29 | the traversal from any node visits every node exactly once |
| VertexLists.VertexList.WalkStep | src/vertexlist.js:25-28 | each visited node's `next` is the following visited node, and the last one's leads back to the start |
| VertexLists.VertexList.WalkReturns | src/vertexlist.js:25 | the walk does not come back to its start before it has seen every node |
| VertexLists.VertexList.RingRotation | src/vertexlist.js:22-29 | the ring of points from another start node is a rotation of the ring from the first |
| Util.ASwap | src/util.js:5-7 | swapping the first two arguments negates `A` |
| Util.ARotate | src/util.js:5-7 | `A` is unchanged under cyclic rotation of its arguments |
| Util.A | src/util.js:5-7 | twice the signed area of P, Q, R, which is zero whenever two of the three points coincide |
| Util.IsLeft | src/util.js:15-21 | for a point offset t normal units from line a→b, `A(a, b, p)` is positive, zero or negative as t is, i.e. left, on, right |
| Util.Sign | src/util.js:45 | `sign` is −1, 0 or 1, and 0 exactly when `abs(x) < EPSILON` |
| Util.SignNegate | src/util.js:45 | `sign(−x) == −sign(x)` |
| Util.JsRemOdd | src/util.js:42 | with JavaScript's truncating `%`, `wn % 2 === 1` holds only for a positive odd count; a negative odd count gives −1 |
| Util.EdgeWindingCases | src/util.js:28-35 | an edge adds +1 when it goes up across the point with the point to its left, −1 when it goes down with the point to its right, and 0 otherwise; horizontal edges never count |
| Util.EdgeWinding | src/util.js:28-35 | one edge adds −1, 0 or +1 to the count; a non-zero contribution needs a non-horizontal edge with the point strictly off its line |
| Util.ChainWinding | src/util.js:24-37 | the count along an open chain of n points stays strictly between −n and n |
| Util.WindingNumber | src/util.js:24-42 | the winding number of a ring of n points lies between −n and n, and is 0 for a ring of fewer than two points |
| Util.InsideOddMeansPositiveOdd | src/util.js:42 | `inside` holds iff the winding number is positive and odd; a count of −1 reads as outside |
| Util.WindingNumberRotation | src/util.js:24-26 | the winding number of a ring does not depend on which vertex the ring starts at |
| Winding.Inside | src/util.js:13-43 | the loop's result is the odd-positive test of the winding number of the ring from the given node |
| Winding.InsideAnyStart | src/util.js:24-26 | `inside` answers the same whichever node of the list is passed |
| Classification.SideReverse | src/greiner-hormann.js:33-45 | walking the chain P3→P2→P1 instead of P1→P2→P3 exchanges LEFT and RIGHT for a point on neither edge's line that, when the chain is nearly straight (the sign of its area is 0), lies on the same side of both lines |
| Classification.Side | src/greiner-hormann.js:33-45 | a point strictly left of both edges is LEFT and one left of neither is RIGHT, whatever the turn; LEFT for a chain that does not turn right means left of the first edge |
| Classification.Classify | src/greiner-hormann.js:110-251 | alpha and beta lie strictly inside (0, 1) wherever the case puts a point inside an edge; the intersection cases arise only for edges that pass the non-parallel test, the overlap cases only for non-degenerate edges whose endpoints are collinear within `EPSILON` |
| Classification.ClassifySymmetric | src/greiner-hormann.js:110-251 | exchanging the roles of subject and clip edges exchanges alpha with beta and the P and Q variants of each case |
| Classification.AreaDifferences | src/greiner-hormann.js:108-121 | `APcurr − APnext == −(AQcurr − AQnext)`, so the non-parallel test protects both divisions |
| Classification.IntersectionOnClipLine | src/greiner-hormann.js:115-125 | the computed point I lies on the clip edge's line, and alpha is 0 exactly when Pcurr does |
| Classification.CrossingSeparates | src/greiner-hormann.js:126 | in an X-intersection each edge's endpoints lie strictly on opposite sides of the other edge's line |
| Intersections.FindInsertionPoint | src/greiner-hormann.js:86-91 | returns the last node of the segment from the lower bound whose alpha does not exceed the new alpha; the next node in the segment, if any, has a larger alpha |
| Intersections.InsertBetween | src/greiner-hormann.js:86-91 | `findInsertionPoint(...).insert(e)` keeps the sources in place, grows the segment by one and keeps its nodes in non-decreasing alpha order; the entry goes after equal alphas |
| Intersections.NextSource | src/greiner-hormann.js:96 | `find(n => n !== curr && n.source)` from a source vertex returns the next source vertex in input order |
| IntersectionPhase.Cross | src/greiner-hormann.js:126-145 | the X-intersection adds exactly one node to each list, at the intersection point with alpha and beta, each linked to the other |
| IntersectionPhase.InsertIntoClip | src/greiner-hormann.js:146-158 | a T-intersection at Pcurr adds one node to the clip only, linked to Pcurr, and marks Pcurr as an intersection |
| IntersectionPhase.InsertIntoSubject | src/greiner-hormann.js:159-171 | a T-intersection at Qcurr adds one node to the subject only and marks Qcurr |
| IntersectionPhase.LinkBoth | src/greiner-hormann.js:172-179 | a V-intersection adds nothing, marks Pcurr and Qcurr and links them to each other |
| IntersectionPhase.Overlap | src/greiner-hormann.js:199-218 | an X-overlap adds a copy of each start to the other list and links them, without setting `intersection` on Pcurr or Qcurr |
| IntersectionPhase.ProcessPair | src/greiner-hormann.js:110-251 | one edge pair is classified as `Classify` says and has exactly that case's effect on both lists; the lists stay well-formed |
| IntersectionPhase.EffectGains | src/greiner-hormann.js:110-251 | each case adds the number of nodes it should: two for X, one for a T case, none for V or no interaction |
| IntersectionPhase.ClipPass | src/greiner-hormann.js:98-254 | the inner `forEach` handles the edge with every clip edge in clip order: the lists pass through one snapshot per pair, each step exactly the `PairEffect` of that pair's case with new points numbered on from `vid` (`RowTrace`), from the lists it starts with to the lists it leaves; they grow by the sum of the gains |
| IntersectionPhase.FindIntersections | src/greiner-hormann.js:93-255 | phase 1 handles every pair of a subject edge and a clip edge exactly once, subject-major: the lists go from the ones it starts with to the ones it leaves through one snapshot per pair, each step exactly the `PairEffect` its case calls for (`PhaseTrace`), although the loops walk lists they are growing |
| IntersectionPhase.EffectDetermined | src/greiner-hormann.js:110-251 | handling one pair from lists holding the same records, links aside, gives lists holding the same records and the same next identity |
| IntersectionPhase.RowDetermined | src/greiner-hormann.js:98-254 | the same for a whole row of pairs |
| IntersectionPhase.PhaseDetermined | src/greiner-hormann.js:93-255 | phase 1 is a function of its inputs: every run from alike lists ends with the same records, links aside, and the same next identity |
| IntersectionPhase.Prepare | src/greiner-hormann.js:68-69 | both inputs become well-formed lists of their source vertices |
| Labelling.ChainTag | src/greiner-hormann.js:280-305 | a node with a neighbour linked to Q+ or Q− gets a chain tag, and one with neither keeps what it had; a new ON_ON needs both neighbours on Q, a new LEFT_ON/RIGHT_ON needs P+ on Q, a new ON_LEFT/ON_RIGHT needs P− on Q |
| Labelling.LabelOne | src/greiner-hormann.js:268-318 | intersection nodes on an overlap get a chain tag; the others become CROSSING iff Q− and Q+ lie on different sides of the chain P−, P, P+, otherwise BOUNCING; other nodes are untouched |
| Labelling.LabelIntersections | src/greiner-hormann.js:268-319 | after the loop every subject node is `LabelOne` of the node as it was before |
| Labelling.ResolvedSide | src/greiner-hormann.js:322-338 | the `chainStartSide` carried across the loop is the first tag of the chain still open at that point |
| Labelling.ResolveOne | src/greiner-hormann.js:323-337 | only the crossing label changes; an untagged node passes the carried side through; X_ON and ON_ON bounce and carry the chain's first tag; ON_LEFT/ON_RIGHT end the chain, bouncing iff it began LEFT_ON/RIGHT_ON respectively, crossing otherwise |
| Labelling.ResolvedLabels | src/greiner-hormann.js:322-338 | nodes off the walk are unchanged; each chain node is resolved as `ResolvedAt` says: X_ON and ON_ON become BOUNCING, ON_X BOUNCING iff `tag − ON_ON` equals the chain's start side |
| Labelling.ResolveChains | src/greiner-hormann.js:322-338 | the second labelling loop is the fold of that resolution step over the subject |
| Labelling.ClassifySubject | src/greiner-hormann.js:268-338 | steps 1 and 2 leave the subject exactly `Classified`: every node labelled by `LabelOne` from the lists as phase 1 left them, then the chain pass `ResolveOne` along the walk from the head; links and partners stay, and each node keeps its step-1 chain tag |
| Labelling.CopiedLabels | src/greiner-hormann.js:344-347 | each clip node takes the crossing label of the last subject intersection linked to it, or keeps its own |
| Labelling.CopyOne | src/greiner-hormann.js:344-347 | an intersection hands its crossing label to its partner; no other clip record, and no other field, changes |
| Labelling.CopyCrossings | src/greiner-hormann.js:344-347 | the copy loop changes only clip crossing labels, never their chain tags |
| Labelling.SubjectStart | src/greiner-hormann.js:357-362 | as corrected: the early return happens iff every subject node is an ON_ON intersection; otherwise the start is chosen as `StartOf` says |
| Labelling.SubjectStartAsWritten | src/greiner-hormann.js:357-362 | as written: the early return happens iff every node is an intersection and some node is not ON_ON |
| Labelling.StartTestsDisagree | src/greiner-hormann.js:361 | the two tests agree exactly when the subject has a plain vertex; otherwise each's early return is the other's seed search |
| Labelling.StartOf | src/greiner-hormann.js:357-377 | a plain vertex if there is one; otherwise the node after which to place a seed, which is not ON_ON; none iff all nodes are ON_ON intersections |
| Labelling.Midpoint | src/greiner-hormann.js:380-385 | the seed is collinear with the anchor and its successor (it spans zero area with them) |
| Labelling.PlaceSeed | src/greiner-hormann.js:366-388 | when there is an anchor, one fresh node at the midpoint is inserted after it; otherwise the list is unchanged |
| Labelling.StartList | src/greiner-hormann.js:363-390 | a start exactly when the list has a plain node or an anchor, and then the list is `StartedAt` it, the identity counter advancing by the seeds placed |
| Labelling.SeedStart | src/greiner-hormann.js:366-388 | for a list without a plain node: a seed exactly when the walk finds a node that is not ON_ON, and then the list is `StartedAt` that seed |
| Labelling.SearchStarts | src/greiner-hormann.js:357-361 | the first plain node of each list along its walk, and the WITH_SELF test as corrected (see Findings); a subject that fails the test has a start |
| Labelling.ChooseStarts | src/greiner-hormann.js:357-390 | as corrected (see Findings): `Identical` iff the corrected subject test fires, `Unstartable` iff the clip has no start; otherwise each list is `StartedAt` its start (the first plain node along the walk with the list unchanged, or else a fresh midpoint node linked in after the anchor), the subject seeded first with identity `vid` and the clip after it |
| Labelling.Toggle | src/greiner-hormann.js:404 | `status = !status` exchanges ENTRY and EXIT |
| Labelling.StartStatus | src/greiner-hormann.js:398 | the status starts at EXIT iff the start is inside the other polygon |
| Labelling.LabelEntry | src/greiner-hormann.js:401-406 | a crossing node under a set status takes it as its entry label and the status flips; otherwise node and status stay; only `entry` is written |
| Labelling.EntriesAlternate | src/greiner-hormann.js:401-406 | the k-th crossing node along the walk gets the start status flipped once per earlier crossing; non-crossing nodes keep their entry |
| Labelling.NextCrossingOpposite | src/greiner-hormann.js:401-406 | consecutive crossing nodes along the walk get opposite labels |
| Labelling.LabelEntries | src/greiner-hormann.js:395-407 | the loop changes only `entry` and leaves the list alternating from the start's status |
| Labelling.LabelBoth | src/greiner-hormann.js:395-407 | both lists alternate, each from the inside test of its start against the other polygon |
| Labelling.CrossingLabels | src/greiner-hormann.js:266-347 | steps 1 to 3: the subject becomes `Classified` and the clip `Copied` from it; every subject node is an ON_ON intersection afterwards exactly when phase 1 left only intersections and step 1 tags them all ON_ON |
| Labelling.StartAndLabel | src/greiner-hormann.js:357-407 | as corrected (see Findings): the start search, then, once both lists have a start, the entry/exit pass, which writes only entry labels of crossings on the seeded lists and leaves them alternating |
| Labelling.LabelPhase | src/greiner-hormann.js:266-408 | as corrected (see Findings), phase 2 from the lists phase 1 left: the subject becomes `Classified` and the clip `Copied` from it; `Identical` iff every subject node is an intersection tagged ON_ON; otherwise both lists are `StartedAt` their starts, then only entry labels of crossings change, alternating along each walk from its start's inside test |
| Policies.InitialDirection | src/index.js:12 | INTERSECT goes `next` iff entry; UNION and DIFFERENCE go `prev` iff entry |
| Policies.Switched | src/index.js:13 | identity for INTERSECT and UNION, a change of direction for DIFFERENCE |
| Policies.Directions | src/index.js:12-13 | UNION and DIFFERENCE start opposite to INTERSECT; switching twice is the identity; DIFFERENCE switches `next`↔`prev` |
| Policies.Table | src/index.js:5-31 | only DIFFERENCE with the clip contained asks for the hole split; every other settled answer is one or two polygons |
| Policies.Containment | src/index.js:9-32 | INTERSECT returns the inner polygon, UNION the outer; DIFFERENCE returns `[[]]` when the subject is contained and asks for the hole split when the clip is |
| Policies.TableShape | src/index.js:5-31 | every trivial answer has one or two polygons, two only for a disjoint UNION, each the subject, the clip or empty; only DIFFERENCE with the clip contained asks for a split |
| HoleSplit.SplitY | src/index.js:57 | the line lies between the clip's lowest and highest y, strictly when they differ |
| HoleSplit.ClipXNone | src/index.js:59-68 | `Cx` is undefined iff no clip edge, the closing one included, straddles the line; otherwise it is the crossing x of a straddling edge |
| HoleSplit.FindClipX | src/index.js:59-68 | the loop finds the first straddling clip edge in index order |
| HoleSplit.NearestUpFound | src/index.js:76-91 | S1 is found iff some subject edge crosses the line upward |
| HoleSplit.NearestUpNearest | src/index.js:76-91 | no upward crossing is nearer to Cx than S1 |
| HoleSplit.NearestUpEarliest | src/index.js:85 | on ties the earliest index wins: every earlier upward crossing is strictly farther from Cx |
| HoleSplit.FindS1 | src/index.js:73-91 | the loop computes S1/i1 as `NearestUp` |
| HoleSplit.FirstS2 | src/index.js:110-123 | S2 is on a different edge from S1 |
| HoleSplit.FindS2 | src/index.js:93-123 | the loop finds the first downward edge after i1, wrapping round, whose crossing differs in sign from S1's |
| HoleSplit.PiecesPartition | src/index.js:135-140 | every original vertex lands in exactly one piece, in order; each piece holds S1 and S2 at the cut; lengths sum to n + 4, each at least 3 |
| HoleSplit.Split | src/index.js:57-140 | the pieces exist iff S1 and S2 do, and are `Halves`: the slices of the subject at the swapped indices |
| Tracing.LegLaps | src/greiner-hormann.js:458-461 | the inner walk fails to stop within one lap iff no node in that lap carries the awaited entry label |
| Tracing.LegPath | src/greiner-hormann.js:458-461 | the vertices pushed by the inner walk are the successive moves in the current direction |
| Tracing.LegClear | src/greiner-hormann.js:458-461 | the inner walk stops at the first node carrying the awaited label |
| Tracing.Move | src/greiner-hormann.js:459 | `curr[dir]` stays on a record of the same list |
| Tracing.Negated | src/greiner-hormann.js:448-468 | `!entry` is never unset: ENTRY negates to EXIT, EXIT and an unset label to ENTRY |
| Tracing.WalkLeg | src/greiner-hormann.js:458-461 | the `do…while` walk computes exactly that leg and its points |
| Tracing.Circuit | src/greiner-hormann.js:456-469 | a closed component is made of legs, each ending at an intersection whose partner it switches to, until the partner is the component's first vertex |
| Tracing.CircuitStep | src/greiner-hormann.js:456-469 | one round of the outer `do…while`: a missing partner is a TypeError, the first vertex closes the component, any other partner starts the next round with switched direction and negated label |
| Tracing.Round | src/greiner-hormann.js:456-469 | one round in the imperative model marks the stop and its partner processed and agrees with `CircuitStep` |
| Tracing.Component | src/greiner-hormann.js:443-469 | a closed component starts at the chosen subject node, and each stop is on the path and linked to its partner |
| Tracing.TraceComponent | src/greiner-hormann.js:443-469 | the loop builds the component as `Component` says and marks exactly its stops and partners processed |
| Tracing.Piece | src/greiner-hormann.js:443-469 | a traced component has at least two vertices and begins at the intersection it started from |
| Tracing.MarkCloses | src/greiner-hormann.js:452-453 | marking the start processed strictly lowers the number of unprocessed crossing subject nodes (the outer loop's measure) |
| Tracing.RemainingStep | src/greiner-hormann.js:439-471 | each outer iteration either raises, never ends, or prepends one component and continues from the marked state |
| Tracing.TraceSpec | src/greiner-hormann.js:426-471 | no component iff no unprocessed crossing subject node; otherwise between one and that many components |
| Tracing.TracedPolygons | src/greiner-hormann.js:439-471 | every traced polygon is the component traced from some unprocessed crossing subject node, with at least two vertices |
| Tracing.Outer | src/greiner-hormann.js:439-471 | the outer `while` loop computes `Remaining` from the state it starts in |
| Tracing.TracePhase | src/greiner-hormann.js:417-471 | phase 3 computes `TraceSpec` of the labelled lists and changes nothing when nothing crosses |
| Collinear.RemoveCollinear | src/greiner-hormann.js:482-487 | the backward `for` with `splice` computes `Pruned`, each step looking at the current cyclic neighbours |
| Collinear.Pass | src/greiner-hormann.js:482-487 | the backward pass from index i removes at most i + 1 vertices |
| Collinear.PassKeepsTail | src/greiner-hormann.js:482-487 | the vertices after the pass's starting index end the result unchanged |
| Collinear.Pruned | src/greiner-hormann.js:481-488 | a pruned component is never longer than the traced one |
| Collinear.PostProcess | src/greiner-hormann.js:481-488 | each component is replaced by its pruned form |
| Collinear.PrunedKeepsOrder | src/greiner-hormann.js:481-488 | the result is the component at strictly increasing indices: a subsequence in the original order, never longer |
| Collinear.PrunedUnchanged | src/greiner-hormann.js:486 | a component without a zero-area vertex is unchanged |
| Collinear.ShortVanishes | src/greiner-hormann.js:482-487 | a component of one or two points disappears entirely |
| Engine.Operand | src/greiner-hormann.js:48-49 | `null`/`undefined` inputs become `[]` |
| Engine.Early | src/greiner-hormann.js:53-58 | empty subject first, then empty clip, answer from the table; otherwise fewer than three points throws; the engine runs iff both have at least three |
| Engine.SomeInside | src/greiner-hormann.js:431-433 | the intended `some` loop: true iff some node of the list is inside the other polygon |
| Engine.Containment | src/greiner-hormann.js:430-436 | CLIP_CONTAINED iff some clip vertex is inside the subject; else SUBJECT_CONTAINED iff some subject vertex is inside the clip; else DISJOINT |
| Engine.Settle | src/greiner-hormann.js:430-436 | the three fallback cases, each as an if-and-only-if |
| Engine.Finish | src/greiner-hormann.js:426-489 | an answer exactly when nothing crossed or the trace closed; a closed trace gives one pruned polygon per component |
| Engine.FallbackAsWritten | src/greiner-hormann.js:431 | as written the fallback never answers: `clip.some` is not a function of a `VertexList` |
| Engine.FallbackDisagrees | src/greiner-hormann.js:430-436 | whenever nothing crosses, the written fallback throws where the intended one answers |
| Engine.SplitOnlyContained | src/greiner-hormann.js:430-436 | only a DIFFERENCE whose clip is contained, with nothing crossing, asks for the hole split |
| Engine.NoCrossingOutcome | src/greiner-hormann.js:430-436 | the no-crossing answers per policy: INTERSECT the contained polygon, UNION both when disjoint, DIFFERENCE splits iff the clip is contained |
| Engine.PruneAllKeepsOrder | src/greiner-hormann.js:481-488 | each returned polygon is an ordered subsequence of its traced component |
| Engine.Conclude | src/greiner-hormann.js:417-489 | as corrected (see Findings): tracing, the intended `some` fallback (`Containment`) and post-processing produce `Finish` of the trace and of the containment case |
| Engine.GreinerHormann | src/greiner-hormann.js:47-490 | as corrected (see Findings), the run `Answers` its inputs: early answers; WITH_SELF when the corrected start test finds identical inputs; a TypeError when no start exists; otherwise `Finish` of the traced components and of the intended containment fallback; the split is asked for exactly in the contained-clip DIFFERENCE case |
| Operations.Joined | src/index.js:141 | concatenation of the two pieces' polygon lists, or the first failure |
| Operations.Intersect | src/index.js:149-151 | `intersect` is the engine's run for INTERSECT (`Answers`), with its early answers, and never asks for a split |
| Operations.Union | src/index.js:153-155 | `union` is the engine's run for UNION (`Answers`), with its early answers, and never asks for a split |
| Operations.Difference | src/index.js:141-159 | the first run `Answers` the operands and a final answer is returned as is; otherwise the pieces are `Halves` of the operands, at least three points each and n + 4 in all, each piece's run `Answers` that piece, and the result joins the two answers |

## Left out

- Floating point: coordinates are reals, so rounding is not modelled, nor the tuning of `EPSILON` against float noise. Exact comparisons such as `alpha === 0` and `A(...) === 0` become exact equalities on reals.
- Geometric correctness of the result (that it really is the intersection, union or difference of the regions) is not stated; it needs planar topology beyond the code's local rules.
- Tracing.TraceSpec: the inner walks have no termination argument in the source. Each leg is limited to one lap of its list, and each component to `Budget` = 2·(subject nodes + clip nodes) + 1 rounds. A walk that would run longer is reported as `Loops` rather than spinning forever. That this bound is large enough for every labelled input is argued, not proved.
- Operations.Difference: one level of the hole split is modelled. A piece that asks for a split of its own stays unresolved in `Joined`, because the recursion of `difference` has no decreasing measure. When S1 or S2 is not found (where JavaScript would dereference `undefined`), the split answer is left unresolved instead of modelling the resulting TypeError.
- Engine.GreinerHormann: the phase reached and the lists after phase 2 are ghost outputs of the run, and `Answers` says what each phase implies. The contract does not chain phases 1 and 2 back to the inputs: `FindIntersections` (with `PhaseDetermined`) states phase 1 from the inputs, and `LabelPhase` states phase 2 from the lists phase 1 leaves.
- IntersectionPhase.FindIntersections: the trace fixes every record's data and partner after each pair, links aside. Where a new record sits in its list is stated when it is inserted (`Intersections.InsertBetween`: inside the segment of its own source edge, after the records of no greater alpha). `Lists` keeps every segment sorted, but the trace does not carry each record's segment across later insertions.
- IntersectionPhase.ClipPass: as for `FindIntersections`, for one row of pairs.
- JavaScript object identity: the tracing test `curr.vertex !== resultComponent[0]` compares point objects. The model gives every input point and every created point its own `vid` and compares those. Input arrays that repeat one point object are treated as distinct points, and so are points shared by the subject and the clip, as when one array is passed as both operands (`difference(subject, subject)`).
- `Object.assign` in the `VertexList` constructor: nodes are records with explicit fields (`vertex`, `source`, `intersection`, `alpha`, `corresponding`, `chain`, `crossing`, `entry`, `processed`).
- `fromArray([])` dereferences `null`; the model requires a non-empty array, which the engine guarantees.
- The tests and their fixture files are not modelled.

## Findings

| source | as written | input that shows it | evidently intended | confidence | as-written member | corrected member |
|---|---|---|---|---|---|---|
| src/greiner-hormann.js:361 | `subject.every(curr => curr.chain === ON_ON)` is truthy when some node is *not* ON_ON, because `every` returns the first failing node | identical triangles (0,0),(4,0),(0,4): every node is an ON_ON intersection, the test is false and the seed search finds nothing (TypeError at line 372); a diamond (2,0),(4,2),(2,4),(0,2) inside the square (0,0),(4,0),(4,4),(0,4) returns WITH_SELF | return WITH_SELF iff every subject node is an ON_ON intersection | not executed | Labelling.SubjectStartAsWritten (Labelling.IdenticalTriangles, Labelling.DiamondInSquare) | Labelling.SubjectStart |
| src/greiner-hormann.js:431-433 | `clip.some(...)` and `subject.some(...)` are called on `VertexList` objects, which have no `some` method | two disjoint squares: no crossing intersection, so the fallback runs and throws a TypeError | CLIP_CONTAINED / SUBJECT_CONTAINED / DISJOINT by whether some vertex of one list is inside the other | not executed | Engine.FallbackAsWritten (Engine.FallbackDisagrees) | Engine.Containment |
