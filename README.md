# Mutual kNN persistent homology, modelled in Dafny

mknn_homology computes the 0-dimensional persistent homology of a point cloud
along the filtration of mutual k-nearest-neighbour graphs. Step k = 1 .. N-1
computes the mutual kNN graph of the N points. Its edges enter the filtration at
the first step where they appear, and the points themselves enter at step 0. An
incremental tracker then gives every clique a homology class:

- a vertex is a new generator of dimension 0;
- an edge whose two end points already share a class closes a cycle and is a
  generator of dimension 1;
- any other edge merges the two classes: the class with fewer representatives
  dies at the edge's step and joins the other.

The class store is a dictionary with a reverse index from each class to its
cliques, so that a whole class can be moved at once.

This project models that core:

| module | file | what it models |
|---|---|---|
| `Wrappers` | wrappers.dfy | `None`/values, the Python exceptions raised, comprehensions that may raise, list helpers |
| `PySet` | py_set.dfy | Python sets whose members compare by a key, `^`, `reduce(xor, …)`, sums over GF(2) |
| `HomologyDict` | homology_dict.dfy | `HomDict` of homology_dict.py, as a class with the dictionary and its reverse index |
| `MknnClique` | mknn_clique.dfy | `Clique` and `Chain` of mknn/clique.py, the versions the tracker uses |
| `MknnCloud` | mknn_cloud.dfy | `Cloud.mknn_graph` and `retrieve_clique` of mknn/cloud.py |
| `DraftCloud` | draft_cloud.dfy | the earlier `Cloud` of cloud.py, which sorts its distance rows in every call |
| `MknnFiltration` | mknn_filtration.dfy | `Filtration` of mknn/filtration.py: `build_complex`, `self[k]` and the tracker, as a class |
| `DraftSimplex` | draft_simplex.dfy | `Simplex` and `Chain` of simplex.py, with `boundary` and `is_cycle` |
| `DraftClique` | draft_clique.dfy | `Clique` and `Chain` of clique.py, with its addition as written and as intended |

How the model stands in for the original:

- **Distances.** The floating-point distance matrix and numpy's `argsort` are
  not computed. A cloud carries the per-row neighbour order that `argsort`
  returns, a permutation of the points for every row.
- **Matrices and graphs.** scipy's sparse matrices and networkx graphs are
  replaced by 0/1 integer matrices and by the set of pairs `i <= j` with a
  non-zero entry.
- **Homology classes.** The class type is not part of this model. A class is a
  record of its dimension, its representative points, its birth and its
  optional death. The `Filtration` object keeps the classes it creates in a list,
  and the homology dictionary maps each clique to an index into that list.
  Two cliques share a class exactly when they map to the same index, and "the
  sum of the face classes is zero" means that both faces map to the same index.
- **Python sets.** A set of cliques or simplices is a Dafny `set` with at most
  one member per point set, because equality compares point sets. Its iteration
  order, where the result depends on it, is an explicit parameter.
- **Errors.** A raised exception is a `Result` error carrying its Python
  exception type.

## Model

| member | source | states |
|---|---|---|
| Wrappers.MapResult | simplex.py:59 | a list comprehension whose calls may raise: it succeeds exactly when every call does, holding each call's value in order; otherwise it raises the first failing call's exception |
| Wrappers.Without | simplex.py:27 | `[q for q in points if q != p]` holds exactly the points other than `p` |
| Wrappers.WithoutKeepsDistinct | simplex.py:27 | removing a point from a list without repeats leaves a list without repeats, exactly one shorter when the point occurs |
| PySet.FromList | mknn/clique.py:83 | `set(list)` keeps no two equal members, only members of the list, and every point set of the list |
| PySet.SymDiff | mknn/clique.py:99 | `a ^ b` holds exactly the point sets present in one operand and not the other, keeps no duplicates and takes its members from the operands |
| PySet.SymDiffCommutes | mknn/clique.py:99 | `a ^ b == b ^ a` |
| PySet.SymDiffSelf | mknn/clique.py:99 | `a ^ a` is empty |
| PySet.SymDiffEmpty | mknn/clique.py:99 | the empty set is the identity of `^` |
| PySet.XorRightCommutative | mknn/clique.py:63 | xor lets its last two operands be swapped, which makes a reduction order-independent |
| PySet.ReducePermutation | mknn/clique.py:63 | with such an operator, `reduce` gives the same value on any permutation of the list |
| PySet.XorOfSameElements | mknn/clique.py:63 | two lists without repeats that hold the same elements have the same xor of hashes |
| PySet.ReduceFromFirst | simplex.py:33 | `reduce(xor, hashes)` without an initial value equals the reduction from 0 on a non-empty list |
| PySet.FlipParity | simplex.py:59 | a GF(2) sum of sets holds a key exactly when the start set and the parity of the summands holding it disagree |
| HomologyDict.Assign | homology_dict.py:7-33 | `d[item] = value`: the keys grow by `item` only; a new key leaves the others alone; re-pointing a present key moves every key of its old value to the new value, keeps the others, and leaves no key on the old value |
| HomologyDict.AssignAllKeys | homology_dict.py:35-37 | `update` adds exactly the keys of its argument, and the last pair's key ends with its value |
| HomologyDict.IndexIsPartition | homology_dict.py:7-33 | the reverse-index invariant means the groups are non-empty and disjoint, their union is the key set, each key lies in its own value's group, and each group is exactly the keys mapped to its value |
| HomologyDict.IndexAfterAdd | homology_dict.py:8-18 | appending a new key to its value's group, creating the group if absent, keeps the reverse index exact |
| HomologyDict.IndexAfterRepoint | homology_dict.py:20-33 | moving the old value's group onto the new value's group and deleting the old group keeps the reverse index exact and gives the dictionary of Assign |
| HomologyDict.HomDict.constructor | homology_dict.py:3-5 | an empty store followed by `update(items)`, with the reverse-index invariant |
| HomologyDict.HomDict.Get | homology_dict.py:22 | a present key's value has a group, and the key lies in it |
| HomologyDict.HomDict.Set | homology_dict.py:7-33 | `__setitem__` keeps the invariant and leaves the dictionary of Assign; it states the new reverse index for a new key and for a re-pointed key; setting a key to its own value changes nothing |
| HomologyDict.HomDict.AddKey | homology_dict.py:8-18 | a new key is stored with its value and appended to that value's group |
| HomologyDict.HomDict.Repoint | homology_dict.py:20-33 | a present key set to a different value: the dictionary is Assign's, and the old group is appended to the new value's group and deleted |
| HomologyDict.HomDict.MoveGroup | homology_dict.py:29-31 | the loop re-points exactly the keys of the old group, keeps every other key's value, and appends the old group to the new one |
| HomologyDict.HomDict.Update | homology_dict.py:35-37 | `update(items)` is the assignment of each pair in turn |
| HomologyDict.ReassignSameValueNeverTerminates | homology_dict.py:29-31 | as written, re-setting a key to its own value appends to the list being iterated, so the loop never ends, whatever number of steps is allowed |
| MknnClique.NewClique | mknn/clique.py:15-22 | the constructor keeps the points and k, and size and dim are the length and one less; without a matrix the diameter is None; with one it is at least 0 and at least every pair's entry, it is some pair's entry unless 0, and it is 0 for one point; an entry outside the matrix raises IndexError |
| MknnClique.MaxOf | mknn/clique.py:21 | `max` of a non-empty list is one of its elements and no element exceeds it |
| MknnClique.PairDistances | mknn/clique.py:21 | one entry per pair of `combinations(points, 2)` |
| MknnClique.PairDistancesCover | mknn/clique.py:21 | every pair's entry is among the pair distances |
| MknnClique.PairDistancesOnlyPairs | mknn/clique.py:21 | every pair distance is some pair's entry |
| MknnClique.EqualCliquesHashEqually | mknn/clique.py:58-63 | cliques equal as point sets, without repeated points, have equal xor hashes, as a Python set needs |
| MknnClique.RepeatedPointSplitsHash | mknn/clique.py:58-63 | `[1, 1]` and `[1]` are equal cliques whose hashes differ (0 and 1) |
| MknnClique.FacePoints | mknn/clique.py:40 | one list per point: the clique's list with that point removed |
| MknnClique.FilterFaces | mknn/clique.py:41 | the filter keeps exactly the members whose list is a target, in filtration order |
| MknnClique.FilterFacesAppend | mknn/clique.py:41 | filtering a concatenation filters each part |
| MknnClique.Faces | mknn/clique.py:35-41 | nothing for a 0-clique; otherwise exactly the filtration members whose point list equals the clique's list with one point removed, compared as lists, in filtration order |
| MknnClique.NewChain | mknn/clique.py:80-83 | ValueError exactly when some clique's dim differs from the first's, so the empty list passes; otherwise the set of the cliques, one per point set, all of one dim |
| MknnClique.Add | mknn/clique.py:98-99 | the symmetric difference by point set through the constructor: ValueError exactly when the leftover cliques differ in dim |
| MknnClique.AddCommutes | mknn/clique.py:98-99 | chain addition is commutative |
| MknnClique.AddSelfIsZero | mknn/clique.py:98-99 | a + a is the empty chain |
| MknnClique.AddZeroIsIdentity | mknn/clique.py:98-99 | the empty chain is the identity on chains of one dim |
| MknnCloud.NearestAt | mknn/cloud.py:47-48 | the k nearest neighbours of i are exactly the points at positions 1..k of its row |
| MknnCloud.NearestCounts | mknn/cloud.py:47-48 | no neighbour list holds a point twice |
| MknnCloud.Directed | mknn/cloud.py:53-54 | the directed matrix has entry (i, j) = 1 exactly when j is at positions 1..k of row i, and 0 otherwise |
| MknnCloud.Mutual | mknn/cloud.py:57 | the element-wise product with the transpose is symmetric and 0/1, with entry 1 exactly for pairs that are each in the other's first k |
| MknnCloud.MutualAtPositions | mknn/cloud.py:57 | the mutual adjacency in terms of the two rows' positions |
| MknnCloud.MknnGraphOf | mknn/cloud.py:47-57 | the graph exists exactly for 1 <= k < N; otherwise IndexError; it is square, symmetric, 0/1 and mutual |
| MknnCloud.MutualDegreeAtMostK | mknn/cloud.py:47-57 | each point has at most k mutual neighbours |
| MknnCloud.MutualGrows | mknn/cloud.py:47-57 | with the order fixed at construction, a mutual edge at k is still there at k+1 |
| MknnCloud.MutualPairGrows | mknn/cloud.py:47-57 | a pair mutual at k is mutual at k+1 |
| MknnCloud.NoSelfLoops | mknn/cloud.py:47-57 | when every point is first in its own row, no point is its own mutual neighbour |
| MknnCloud.CoincidentPointsAtKOne | mknn/cloud.py:47-57 | when two coincident points sort the same way, point 1 gets a self-loop and the pair is not mutual |
| MknnCloud.Edges | mknn/filtration.py:54-55 | `graph.edges` are exactly the pairs i <= j with a non-zero entry |
| MknnCloud.Cloud.MknnGraph | mknn/cloud.py:33-61 | `mknn_graph(k, verbose)` exists exactly for 1 <= k < size and is a square matrix |
| MknnCloud.RetrieveClique | mknn/cloud.py:63-67 | the coordinates of the clique's points, in its order; IndexError exactly when a point is out of range |
| DraftCloud.MknnGraph | cloud.py:29-56 | with rows sorted by distance in the call, exactly for 1 <= k < N; otherwise IndexError; square, symmetric, 0/1, with entry 1 exactly for pairs in each other's first k |
| DraftCloud.DistinctPointsComeFirst | cloud.py:42-46 | with zero self-distances and positive distances between distinct points, each sorted row starts with its own point, which is what skipping position 0 assumes |
| DraftCloud.MknnGraphGrows | cloud.py:42-53 | for a fixed distance matrix the graph at k is a subgraph of the graph at k+1 |
| DraftCloud.MknnDegreeAtMostK | cloud.py:42-53 | each point has at most k mutual neighbours |
| MknnFiltration.Singletons | mknn/filtration.py:40 | the vertices `Clique([i], 0, 0)` for i = 0 .. N-1 |
| MknnFiltration.SingletonIsNewClique | mknn/filtration.py:40 | `Clique([x], 0, 0)` builds the vertex at step 0 with diameter 0 |
| MknnFiltration.BornAtIsFirst | mknn/filtration.py:54-55 | the step at which an edge is born is the first step at which it is mutual |
| MknnFiltration.GraphEdges | mknn/filtration.py:54-55 | the graph's edges at step k are exactly the mutual pairs i < j |
| MknnFiltration.FreshEdgeIsBorn | mknn/filtration.py:54-55 | a mutual pair not yet present is born at k |
| MknnFiltration.AppendEdge | mknn/filtration.py:54-55 | adding a newly born edge keeps the gathered edges well formed |
| MknnFiltration.UniteEdges | mknn/filtration.py:54-55 | the union with step k's edges keeps the edges already present, with their earlier k, and adds exactly the missing mutual pairs, at k |
| MknnFiltration.BuiltFromParts | mknn/filtration.py:40-58 | the vertices followed by the gathered edges form the complex |
| MknnFiltration.BuiltEdgeAt | mknn/filtration.py:54-58 | every member after the vertices is an increasing pair born at its k |
| MknnFiltration.BuiltEdgesOrdered | mknn/filtration.py:58 | two edges of the complex have different point lists, and their ks are in list order |
| MknnFiltration.BuiltShapes | mknn/filtration.py:40-55 | one vertex with k 0 per point, then only 2-point edges: nothing larger |
| MknnFiltration.BuiltSorted | mknn/filtration.py:58 | the complex is sorted by (k, size), and every k lies in 0 .. N-1 |
| MknnFiltration.BuiltDistinct | mknn/filtration.py:54-58 | no two members are equal cliques |
| MknnFiltration.BuiltComplete | mknn/filtration.py:45-58 | every pair mutual at some step up to N-1 is present, with the first step at which it is mutual |
| MknnFiltration.BuiltSortedByStep | mknn/filtration.py:58 | the complex is sorted by step and every step is below N |
| MknnFiltration.PrefixBelow | mknn/filtration.py:140-151 | the longest prefix whose ks are all below n |
| MknnFiltration.AtStep | mknn/filtration.py:140-151 | `self[n]` yields only members with k == n, in complex order; a missing k raises TypeError |
| MknnFiltration.AtStepOfSorted | mknn/filtration.py:140-151 | on a complex sorted by k, `self[n]` is the slice between the prefixes below n and below n+1 |
| MknnFiltration.AtStepMembers | mknn/filtration.py:140-151 | on a sorted complex, `self[n]` holds exactly the cliques with k == n |
| MknnFiltration.Initial | mknn/filtration.py:36-37 | the empty state with `dim` empty generator lists |
| MknnFiltration.SmallLarge | mknn/filtration.py:82-83 | `small` is the face whose class has fewer representatives, the first face on a tie; `large` is the other |
| MknnFiltration.Merge | mknn/filtration.py:84-85 | the large class gains the small one's representatives, the small class dies at k, and no other class changes |
| MknnFiltration.Fresh | mknn/filtration.py:71 | the clique gets the next class: born at k, with its dim and points |
| MknnFiltration.Step | mknn/filtration.py:71-86 | one clique: a new class born at k; the keys grow by the clique; earlier classes keep their dims and births; errors are IndexError or KeyError |
| MknnFiltration.StepKillsAtMostOne | mknn/filtration.py:71-86 | a step kills at most one earlier class, only for an edge, and at the edge's k |
| MknnFiltration.StepGenerators | mknn/filtration.py:75-77 | vertices always go to `generators[0]`; an edge goes to `generators[1]` exactly when its faces share a class; nothing else is appended |
| MknnFiltration.MergeKillsOne | mknn/filtration.py:84-85 | a merge kills the small class at k and nothing else |
| MknnFiltration.Run | mknn/filtration.py:65-86 | the cliques processed in order: one class per clique, the keys are the processed cliques, the first error ends the run |
| MknnFiltration.FacesOfEdge | mknn/filtration.py:72 | in the complex, the faces of edge [i, j] are vertex i, then vertex j |
| MknnFiltration.BuiltProcessable | mknn/filtration.py:40-72 | every member is a vertex or an edge with exactly two faces in the complex |
| MknnFiltration.BuiltLayout | mknn/filtration.py:40-72 | the complex has vertices first, then edges with k >= 1, no member twice, and each edge's faces are its two vertices |
| MknnFiltration.TrackedInitial | mknn/filtration.py:34-37 | the invariant holds before anything is processed |
| MknnFiltration.VertexStep | mknn/filtration.py:71-77 | processing a vertex keeps the tracker invariant |
| MknnFiltration.EdgeStep | mknn/filtration.py:71-86 | processing an edge keeps the tracker invariant |
| MknnFiltration.EdgeSameStep | mknn/filtration.py:75-77 | an edge whose end points already share a class keeps the tracker invariant, with `generators[1]` holding only edge classes |
| MknnFiltration.EdgeMergeStep | mknn/filtration.py:81-86 | an edge joining two components keeps the tracker invariant: every live vertex class represents exactly the vertices mapped to it, and only vertex classes die, never before their birth |
| MknnFiltration.TrackedStep | mknn/filtration.py:65-86 | processing the next member, vertex or edge, keeps the tracker invariant |
| MknnFiltration.RunTracked | mknn/filtration.py:65-86 | processing the first t members succeeds and leaves: one class per member born at its k; each edge with its own live class; every vertex in a live class that represents exactly its component; only vertex classes dead, never before birth; `generators[0]` listing the vertex classes |
| MknnFiltration.BuiltRunTracked | mknn/filtration.py:60-86 | with at least two generator lists, the whole complex is processed without error and the invariant holds at the end |
| MknnFiltration.RunStops | mknn/filtration.py:65-86 | once a step fails, processing more cliques returns that same error |
| MknnFiltration.RunNext | mknn/filtration.py:65-86 | processing member t after those before it is one more Step, and its failure is the failure of the whole run |
| MknnFiltration.BuildComplexAsWritten | mknn/filtration.py:49 | as written, building raises TypeError exactly when there are two or more points; otherwise the complex is the vertices |
| MknnFiltration.BuildComplexAsWrittenFails | mknn/filtration.py:49 | every cloud of two or more points makes the written build_complex fail |
| MknnFiltration.Filtration.constructor | mknn/filtration.py:28-37 | an empty complex, k_max = N-1, an empty homology and `dim` empty generator lists |
| MknnFiltration.Filtration.Reset | mknn/filtration.py:136-138 | a new empty homology and `dim` empty generator lists; the complex is kept |
| MknnFiltration.Filtration.BuildComplex | mknn/filtration.py:39-58 | the complex is left built: the vertices, then every mutual edge up to k_max at its first step, sorted, no point set twice; the homology is untouched |
| MknnFiltration.Filtration.NewClass | mknn/filtration.py:71 | the clique is mapped to a new class born at k with its points |
| MknnFiltration.Filtration.AppendGenerator | mknn/filtration.py:77 | appends to `generators[d]`, or IndexError with the state unchanged when there is no list d |
| MknnFiltration.Filtration.MergeFaces | mknn/filtration.py:84-86 | the state after the merge is Merge on the classes and Assign of small to large's class on the homology |
| MknnFiltration.Filtration.ProcessClique | mknn/filtration.py:71-86 | the state after one clique is Step's, with the same error; after an error the clique keeps its new class |
| MknnFiltration.Filtration.ComputePersistentHomology | mknn/filtration.py:60-86 | builds the complex, then leaves the state of Run over the whole complex, with Run's error if it fails |
| MknnFiltration.Filtration.ProcessSteps | mknn/filtration.py:65-66 | the loop over k = 0 .. k_max of `self[k]` is Run over the sorted complex |
| MknnFiltration.Filtration.ProcessAt | mknn/filtration.py:65-66 | one pass over `self[k]` advances the run to the end of step k, or ends the whole run with its error |
| MknnFiltration.Filtration.ProcessStep | mknn/filtration.py:66-86 | processing the cliques of `self[k]` in turn advances the run by exactly that slice of the complex |
| MknnFiltration.Filtration.ProcessNext | mknn/filtration.py:66-86 | one clique at position t advances the run by one position, or ends the whole run with its error |
| DraftSimplex.NewSimplex | simplex.py:11-14 | ValueError exactly when two points have different lengths; otherwise the points as given |
| DraftSimplex.Faces | simplex.py:22-27 | nothing for one point; otherwise one face per point, with that point removed |
| DraftSimplex.FacesPassConstructor | simplex.py:22-27 | faces of a valid simplex pass the constructor |
| DraftSimplex.FacesDropOnePoint | simplex.py:17-27 | with distinct points, each face drops exactly its own point and has dim one less |
| DraftSimplex.Hash | simplex.py:32-33 | TypeError exactly on an empty point list, since reduce has no initial value; otherwise the xor of the point hashes |
| DraftSimplex.EqualSimplicesHashEqually | simplex.py:29-33 | equal simplices without repeated points hash equally |
| DraftSimplex.NewChain | simplex.py:47-50 | ValueError exactly on mixed dims; else TypeError exactly when a simplex has no points, because `set` hashes it; otherwise the set of the simplices, one per point set |
| DraftSimplex.Add | simplex.py:65-66 | symmetric difference by point set through the constructor, ValueError exactly on mixed dims |
| DraftSimplex.AddCommutes | simplex.py:65-66 | chain addition is commutative |
| DraftSimplex.AddSelfIsZero | simplex.py:65-66 | a + a is the empty chain |
| DraftSimplex.AddZeroIsIdentity | simplex.py:65-66 | the empty chain is the identity on chains of one dim |
| DraftSimplex.FaceChain | simplex.py:59 | `Chain(s.faces)` raises only ValueError or TypeError |
| DraftSimplex.FaceChainRaisesTypeError | simplex.py:22-59 | `Chain(s.faces)` raises TypeError exactly when s is two or more copies of one point, whose faces are all empty |
| DraftSimplex.RepeatedPointBoundaryRaises | simplex.py:57-59 | the boundary of the chain of `[p, p]` raises TypeError |
| DraftSimplex.FaceChains | simplex.py:59 | the face chains of the members raise only ValueError or TypeError |
| DraftSimplex.Sum | simplex.py:59 | `sum(chains, start)` raises only ValueError |
| DraftSimplex.Boundary | simplex.py:57-59 | the boundary raises only ValueError or TypeError, and TypeError only from a member whose face chain raises it |
| DraftSimplex.IsCycle | simplex.py:61-63 | `is_cycle` succeeds exactly when the boundary does (so it raises the boundary's ValueError or TypeError), and is true exactly when the boundary is empty |
| DraftSimplex.SumOfEmpty | simplex.py:59 | adding empty chains to the empty chain leaves it empty |
| DraftSimplex.PointChainsAreCycles | simplex.py:24-25 | every chain of one-point simplices has an empty boundary and is a cycle |
| DraftSimplex.SumKeys | simplex.py:59 | a sum of chains of one dim succeeds, and its point sets are the GF(2) sum of the summands' point sets |
| DraftSimplex.FacesFormChain | simplex.py:22-27 | with distinct points the faces form a chain, each one point smaller |
| DraftSimplex.FaceOfFaceKeys | simplex.py:22-27 | the faces of the face dropping p are exactly the point sets dropping p and one other point |
| DraftSimplex.CodimTwoEven | simplex.py:22-27 | every codimension-2 face arises an even number of times |
| DraftSimplex.DroppedPoints | simplex.py:22-27 | the listed faces of s drop its points, each exactly once |
| DraftSimplex.FaceChainsOfFaces | simplex.py:57-59 | each face's face chain builds, and its point sets are those dropping that face's point and one other |
| DraftSimplex.LargeFaceChainIsCycle | simplex.py:57-63 | for three or more distinct points, the boundary of the chain of faces is empty |
| DraftSimplex.FaceChainIsCycle | simplex.py:57-63 | for any simplex with distinct points, `Chain(s.faces)` has an empty boundary and is a cycle |
| DraftClique.Faces | clique.py:25-32 | nothing for one point; otherwise one face per point with it removed, keeping k, with no diameter |
| DraftClique.FacesDropOnePoint | clique.py:14-32 | with distinct points, each face has size and dim one less, drops exactly its point and keeps k |
| DraftClique.Hash | clique.py:37-39 | TypeError exactly on an empty point list; otherwise the xor of the point hashes |
| DraftClique.EqualCliquesHashEqually | clique.py:34-39 | equal cliques without repeated points hash equally |
| DraftClique.NewChain | clique.py:56-59 | on a list, ValueError exactly on mixed dims; else TypeError exactly when a clique has no points, because `set` hashes it; otherwise the set of the cliques |
| DraftClique.ChainOfSet | clique.py:56-59 | a set passed to the constructor succeeds exactly when it is empty, giving the empty chain, and otherwise raises TypeError |
| DraftClique.AddAsWritten | clique.py:74-75 | as written, addition raises only TypeError |
| DraftClique.AddAsWrittenOnlyCancels | clique.py:74-75 | as written, addition succeeds exactly when both chains hold the same point sets, and the result is the empty chain |
| DraftClique.AddAsWrittenRejectsDisjoint | clique.py:74-75 | the chains of points 1 and 2 raise TypeError as written; the intended sum holds both |
| DraftClique.Add | clique.py:74-75 | corrected: the symmetric difference as a list, ValueError exactly on mixed dims |
| DraftClique.AddCommutes | clique.py:74-75 | both additions are commutative |
| DraftClique.AddSelfIsZero | clique.py:74-75 | a + a is the empty chain, also as written |
| DraftClique.AddZeroIsIdentity | clique.py:74-75 | the empty chain is the identity on chains of one dim |
| DraftClique.FaceChain | clique.py:68 | `Chain(c.faces)` raises only ValueError or TypeError |
| DraftClique.FaceChainRaisesTypeError | clique.py:26-68 | `Chain(c.faces)` raises TypeError exactly when c is two or more copies of one point, whose faces are all empty |
| DraftClique.RepeatedPointBoundaryRaises | clique.py:66-68 | the boundary of the chain of `[1, 1]` raises TypeError, with either addition |
| DraftClique.FaceChains | clique.py:68 | the members' face chains raise only ValueError or TypeError |
| DraftClique.Sum | clique.py:68 | the sum with the corrected addition raises only ValueError |
| DraftClique.SumAsWritten | clique.py:68 | the sum with the addition as written raises only TypeError |
| DraftClique.Boundary | clique.py:66-68 | the boundary with the corrected addition raises only ValueError or TypeError, and TypeError only from a member whose face chain raises it |
| DraftClique.IsCycle | clique.py:70-72 | succeeds exactly when the corrected boundary does (so it raises that boundary's ValueError or TypeError), and is true exactly when the boundary is empty |
| DraftClique.BoundaryAsWritten | clique.py:66-68 | as written, the boundary raises ValueError or TypeError |
| DraftClique.IsCycleAsWritten | clique.py:70-72 | succeeds exactly when the written boundary does, and is true exactly when it is empty |
| DraftClique.SumOfEmpty | clique.py:68 | adding empty chains to the empty chain leaves it empty |
| DraftClique.SumAsWrittenOfEmpty | clique.py:68 | as written, summing onto the empty chain succeeds exactly when every summand is empty, and gives the empty chain |
| DraftClique.PointChainsAreCycles | clique.py:66-72 | every chain of one-point cliques has an empty boundary and is a cycle |
| DraftClique.FaceChainEmptyIffPoints | clique.py:28-32 | a clique's face chain is empty exactly when it has at most one point |
| DraftClique.EmptyFaceChainsIffPoints | clique.py:66-68 | the face chains are all empty exactly when every member has at most one point |
| DraftClique.BoundaryAsWrittenOnlyForPoints | clique.py:66-72 | as written, the boundary succeeds exactly for chains of one-point cliques, is then empty, and `is_cycle` is then true |

## Left out

- Distance matrices (`compute_dist_matrix` in cloud.py and mknn/cloud.py) and numpy's `argsort` are floating point. The sorted neighbour order is an input permutation per row.
- `retrieve_clique` of cloud.py (lines 58-62) is the same code as in mknn/cloud.py; both are `MknnCloud.RetrieveClique` applied to the cloud's points.
- scipy's `coo_matrix` and networkx's `from_numpy_matrix` are foreign libraries. The adjacency is a 0/1 matrix and its edges are the pairs i <= j with a non-zero entry.
- `compute_persistence` (mknn/filtration.py:99-102) is float division and is not modelled.
- The plots (mknn/filtration.py:104-134, persistence_plot.py) are matplotlib output.
- All `print`/`vprint` output, the clique counter `n` and every `__repr__`/`__str__` are output only.
- The dim >= 2 branch (mknn/filtration.py:88-97) is not modelled. `build_complex` only adds edges, so it is never reached; the tracker's `Processable` precondition, which every built complex meets, limits it to vertices and edges.
- The homology class type comes from a module that is not part of this model. Only its dimension, representatives, birth and death are kept, and `+`/`is_zero` on two faces is "both faces map to the same class".
- The order in which a Python set is iterated is a parameter: `graph.edges` in `MknnFiltration.UniteEdges` is picked in any order, and `list(self.simplices)` / `list(self.cliques)` is the `order` argument of the boundary functions.
- MknnFiltration.Filtration.ComputePersistentHomology: requires that every point comes first in its own neighbour row (`SelfFirst`), which holds for distinct points (`DraftCloud.DistinctPointsComeFirst`). Clouds with coincident points are not covered by the tracker invariants (see `MknnCloud.CoincidentPointsAtKOne`).
- The sort at mknn/filtration.py:58 also orders by diameter. All edges have diameter None and all vertices 0, so each key is equal within a step and size; the built complex keeps vertices first and then edges by k.
- Python set membership uses the hash and `__eq__`. The model compares by point set alone, which matches Python when no clique repeats a point; `MknnClique.RepeatedPointSplitsHash` shows where they differ.
- MknnClique.Hash: Python's `hash` of an int is its value modulo 2^61 - 1, taken as a 64-bit pattern. The hash of a point tuple in simplex.py is a parameter `h` of `DraftSimplex.Hash`.
- HomologyDict.HomDict.Get: requires a present key. The tracker only reads present keys; a missing face is checked before the lookup and modelled as KeyError in `MknnFiltration.Step`.
- MknnFiltration.Filtration.BuildComplex: requires `SelfFirst` as well. With coincident points, argsort may not put a point first in its own row, so the graph can hold a self-loop `(i, i)` and the source would add the clique `[i, i]`; such clouds are not covered.
- HomologyDict.HomDict.constructor: requires distinct keys, as `Update` does; a list of pairs with a repeated key, which `dict(...)` would collapse, is not modelled.
- HomologyDict.HomDict.Update: takes the items of a dict, so the keys are distinct; a list of pairs with a repeated key, which `dict(...)` would collapse, is not modelled.
- The state of a `Filtration` after an error is modelled only for one clique (`ProcessClique`); after an error the outer loops return at once.
- `Filtration(cloud=None, data=...)`, which builds its cloud as `Cloud(kwargs["data"])` when no cloud is given (mknn/filtration.py:28-32), is not modelled: `Filtration.constructor` always takes a cloud.
- `MknnFiltration.Singletons` lists the vertices in index order. `build_complex` sorts a set, and the sort is stable, so the source's vertices keep the set's iteration order; the model fixes that order to the indices.
- MknnFiltration.AtStep: `__getitem__` is a generator. The model gives either the whole list or the TypeError, not the items a consumer receives before the error.
- `Chain.dim` (chain properties `dim` in simplex.py, clique.py, mknn/clique.py) is not modelled; the tracker does not use it.
- The shadowed `faces` property, `Clique.boundary` and `Chain.boundary`/`is_cycle` of mknn/clique.py (lines 24-33, 44-46, 90-96) are not modelled: the method at line 35 replaces the property, so they cannot run as written.
- The entry points and broken drafts (__main__.py, mknn/script.py, prova.py, test/test_uci.py, mknn_filtration.py, filtration.py, mknn_cloud.py, homology.py) are not part of this model.

## Findings

| source | as written | input that shows it | evidently intended | confidence | as-written member | corrected member |
|---|---|---|---|---|---|---|
| homology_dict.py:29-31 | re-setting a key to the value it already has iterates over that value's group while appending every key to the same group | any present key set to its own value, e.g. `h[a] = h[a]` | setting a key to its current value changes nothing | high, not executed | HomologyDict.ReassignSameValueNeverTerminates | HomologyDict.HomDict.Set |
| mknn/filtration.py:49 | `self.cloud.mknn_graph(k)` omits the `verbose` argument that mknn/cloud.py:33 requires, so it raises TypeError | any cloud of two or more points | `mknn_graph(k, verbose)` with a flag that only controls output | high, not executed | MknnFiltration.BuildComplexAsWrittenFails | MknnFiltration.Filtration.BuildComplex |
| clique.py:74-75 | `Chain(self.cliques ^ other.cliques)` passes a set to a constructor that reads `cliques[0]` (clique.py:57), so a non-empty sum raises TypeError | `Chain([Clique([1])]) + Chain([Clique([2])])` | `Chain(list(self.cliques ^ other.cliques))`, as at mknn/clique.py:99 | high, not executed | DraftClique.AddAsWrittenRejectsDisjoint | DraftClique.Add |
