# Emergency queue and doctor hierarchy, modelled in Dafny

This project models two small in-memory data structures and proves their
contracts.

1. **The emergency intake queue** (`emergency_queue.dfy`, module
   `EmergencyQueue`). This is a binary min-heap of `Patient(name, urgency)`
   records. A lower urgency is treated first.
   - Class `MinHeap` keeps the backing list as the `seq` field `data`.
   - Its methods `HeapifyUp`, `HeapifyDown`, `Insert`, `Peek` and `RemoveMin`
     follow the original methods for every non-negative index: the same
     loops, the same strict `<` comparisons, the same index arithmetic
     (parent `(i - 1) / 2`, children `2i + 1` and `2i + 2`). Negative
     indices are outside the model (see "Left out").
   - Each loop is proved against a function on sequences: `SiftUp`,
     `SiftDown`, `Inserted` and `MinRemoved`.
   - Lemmas about those functions prove the main properties: the heap
     property is kept, the multiset of patients changes only by the inserted
     or removed patient, and `RemoveMin` returns a patient of minimum urgency.
     They also prove the tie-breaking rule: the current slot wins ties, the
     left child wins over the right, and nothing moves in a valid heap. Going
     further, draining a heap yields its patients sorted by urgency, and
     inserting a sequence then draining returns a sorted permutation of it.
2. **The doctor hierarchy** (`doctor_tree.dfy`, module `DoctorHierarchy`).
   This is an unbalanced binary tree of named nodes, written as the datatype
   `Tree`.
   - `FindNode` models the search: it checks the node itself, then the whole
     left subtree, then the right subtree, and the first match wins.
   - `Preorder`, `Inorder` and `Postorder` are the three traversals.
   - Class `DoctorTree` holds the root. Its `Insert` method is a silent no-op
     when the tree is empty, when the parent is absent, or when the side is
     not exactly `"left"` or `"right"`. Otherwise it replaces one child slot
     of the node that search finds.
   - A one-hole context `Ctx` describes where that node sits. `Locate`
     computes it, and `Plug` fills the hole. The lemmas show three things:
     the found node is the first preorder occurrence of the name; insertion
     yields the same context around the parent with only one slot replaced;
     and the names of the overwritten subtree leave the tree.

`wrappers.dfy` defines the `Option` type. It stands for the original's
`None` returns.

Names are not unique in the original tree, and this model follows the code
on that point. Duplicate names are allowed, and only the first preorder
match is changed by an insert.

## Model

| member | source | states |
|---|---|---|
| `EmergencyQueue.Parent` | emergency_queue.py:15 | the parent index is smaller than the slot, and the slot is one of its two children `2p + 1` or `2p + 2` |
| `EmergencyQueue.Swap` | emergency_queue.py:19 | the tuple swap exchanges exactly two slots, leaves every other slot and the length alone, and keeps the multiset |
| `EmergencyQueue.SiftUp` | emergency_queue.py:12-22 | sifting up only swaps: same length, same multiset of patients |
| `EmergencyQueue.Smallest` | emergency_queue.py:27-37 | the chosen slot is the index or an existing child, holds the least urgency of the three, differs from the index only when strictly smaller, and is the right child only when strictly smaller than the left |
| `EmergencyQueue.SiftDown` | emergency_queue.py:24-44 | sifting down only swaps: same length, same multiset of patients |
| `EmergencyQueue.Inserted` | emergency_queue.py:46-49 | insertion adds one slot and exactly the new patient to the multiset |
| `EmergencyQueue.MinRemoved` | emergency_queue.py:63-79 | an empty list gives `None` and stays empty; otherwise the root is returned, the length drops by one and the multiset loses exactly the root |
| `EmergencyQueue.RootIsMinimum` | emergency_queue.py:68-69 | in a min-heap the root's urgency is no larger than any slot's |
| `EmergencyQueue.SiftUpStep` | emergency_queue.py:14-20 | one swap with a strictly larger parent moves the single heap violation up to the parent |
| `EmergencyQueue.SiftUpRestoresHeap` | emergency_queue.py:12-22 | a sift-up started at the only violation yields a min-heap |
| `EmergencyQueue.SiftDownStep` | emergency_queue.py:26-42 | one swap with the chosen child moves the violation down to that child |
| `EmergencyQueue.SiftDownStop` | emergency_queue.py:40-44 | when no child is strictly smaller, the list is a min-heap |
| `EmergencyQueue.SiftDownRestoresHeap` | emergency_queue.py:24-44 | a sift-down started at the only violation yields a min-heap |
| `EmergencyQueue.InsertKeepsHeap` | emergency_queue.py:46-49 | inserting into a min-heap yields a min-heap |
| `EmergencyQueue.RemoveMinKeepsHeap` | emergency_queue.py:63-79 | removing from a non-empty min-heap returns the root, whose urgency is minimal, and leaves a min-heap |
| `EmergencyQueue.HeapIsFixedPoint` | emergency_queue.py:12-44 | because swaps need a strict `<`, neither sift moves anything in a min-heap, so equal urgencies keep their slots |
| `EmergencyQueue.Drain` | emergency_queue.py:63-79 | calling `remove_min` until `None` returns every patient once (same multiset) |
| `EmergencyQueue.Build` | emergency_queue.py:46-49 | inserting a sequence one patient at a time into an empty heap holds exactly those patients |
| `EmergencyQueue.DrainIsSorted` | emergency_queue.py:63-79 | draining a min-heap returns patients in non-decreasing urgency |
| `EmergencyQueue.BuildIsHeap` | emergency_queue.py:46-49 | repeated insertion from empty always gives a min-heap |
| `EmergencyQueue.InsertThenDrainSorts` | emergency_queue.py:46-79 | inserting patients and then draining returns a permutation of them sorted by urgency |
| `EmergencyQueue.MinHeap.constructor` | emergency_queue.py:9-10 | a new heap is empty, and so a valid heap |
| `EmergencyQueue.MinHeap.HeapifyUp` | emergency_queue.py:12-22 | the loop leaves `data` equal to `SiftUp` of the old list, with the same multiset, and a min-heap when the only violation was at `index` |
| `EmergencyQueue.MinHeap.HeapifyDown` | emergency_queue.py:24-44 | the loop leaves `data` equal to `SiftDown` of the old list, with the same multiset, and a min-heap when the only violation was at `index` |
| `EmergencyQueue.MinHeap.Insert` | emergency_queue.py:46-49 | the new list is the old one plus the patient (as a multiset), and a valid heap stays valid |
| `EmergencyQueue.MinHeap.Peek` | emergency_queue.py:57-61 | `None` on an empty heap, otherwise the root, which in a valid heap has minimal urgency; `data` is not modified |
| `EmergencyQueue.MinHeap.RemoveMin` | emergency_queue.py:63-79 | `None` and an empty list when empty; otherwise the old root, which has minimal urgency in a valid heap, with the length one less, the multiset minus that patient, and the heap kept valid |
| `DoctorHierarchy.Leaf` | doctor_tree.py:2-5 | a new `DoctorNode(name)` is a single node carrying that name with no children (size 1) |
| `DoctorHierarchy.Preorder` | doctor_tree.py:48-56 | the definition of `preorder` (empty for no node, else root, left, right); it lists one name per node and starts with the root's |
| `DoctorHierarchy.Inorder` | doctor_tree.py:58-66 | the definition of `inorder` (empty for no node, else left, root, right); it lists one name per node and puts the root right after the left subtree's names |
| `DoctorHierarchy.Postorder` | doctor_tree.py:68-76 | the definition of `postorder` (empty for no node, else left, right, root); it lists one name per node and ends with the root's |
| `DoctorHierarchy.TraversalsAgree` | doctor_tree.py:48-76 | the three traversals have the node count as length and list the same multiset of names |
| `DoctorHierarchy.SingleNodeTraversals` | doctor_tree.py:48-76 | a one-node tree gives `[name]` from each traversal |
| `DoctorHierarchy.FindNode` | doctor_tree.py:32-46 | the search returns `None` exactly when the name is not in the preorder listing, and otherwise a node carrying that name |
| `DoctorHierarchy.PreorderPlug` | doctor_tree.py:48-56 | the preorder of a tree with a subtree in a given position is the names before that position, the subtree's preorder, then the names after |
| `DoctorHierarchy.PreorderAroundNode` | doctor_tree.py:48-56 | the preorder of a node in a context is the names before the hole, the node's name, its left and right subtrees' names, then the names after |
| `DoctorHierarchy.Locate` | doctor_tree.py:32-46 | the position of the search's match exists exactly when the name occurs; filling it with the found node gives back the tree; no earlier preorder name matches |
| `DoctorHierarchy.FindNodeIsFirstInPreorder` | doctor_tree.py:32-46 | the found node's preorder is a contiguous block of the tree's preorder, starting at the first occurrence of the name |
| `DoctorHierarchy.FindNodeInPlug` | doctor_tree.py:32-46 | a matching node with no earlier preorder match is what the search returns, at that position |
| `DoctorHierarchy.WithChild` | doctor_tree.py:27-30 | the assignment replaces exactly the chosen child slot and keeps the name and the other child |
| `DoctorHierarchy.Attach` | doctor_tree.py:19-30 | with the parent absent, the tree is unchanged |
| `DoctorHierarchy.AttachAtFoundNode` | doctor_tree.py:19-30 | attaching changes only the node that search finds: the same context, with that node's slot replaced |
| `DoctorHierarchy.AttachThenFind` | doctor_tree.py:19-30 | after the insert, the search for the parent finds the same position, holding the parent with its new child |
| `DoctorHierarchy.AttachPreorder` | doctor_tree.py:24-30 | in preorder, the overwritten subtree's names are replaced by the new child's, and everything else stays in place |
| `DoctorHierarchy.AttachNames` | doctor_tree.py:27-30 | the overwritten subtree's names leave the tree, and the new child's name enters it |
| `DoctorHierarchy.SideOf` | doctor_tree.py:27-30 | only `"left"` and `"right"`, exactly, select a slot |
| `DoctorHierarchy.DoctorTree.constructor` | doctor_tree.py:10-11 | a new tree has no root |
| `DoctorHierarchy.DoctorTree.SetRoot` | doctor_tree.py:89 | setting the root gives a one-node tree |
| `DoctorHierarchy.DoctorTree.Insert` | doctor_tree.py:13-30 | an empty tree stays empty; an absent parent or unrecognised side leaves the tree (and so every traversal) unchanged; otherwise the tree becomes `Attach` of the old one with a new leaf on that side |

## Left out

- `MinHeap.print_heap` and the console output of both demonstration drivers. The drivers' scenarios are kept as the client methods `EmergencyQueue.DriverScenarios`, `DoctorHierarchy.DriverBuildScenario`, `DoctorHierarchy.DriverNoOpScenarios` and `DoctorHierarchy.OverwriteScenario`, whose assertions are proved and not executed.
- The closing comment memo of emergency_queue.py, because it is prose.
- Python's dynamic typing. Urgency is an unbounded `int`, as Python's integers are, and names are opaque strings.
- Object identity and aliasing of `DoctorNode`. `_find_node` returns a reference to a node; `FindNode` returns the subtree as a value, and `Locate` gives its position. Outside mutation of nodes is not modelled. Setting `tree.root` directly is modelled by `DoctorTree.SetRoot` only.
- The unused `child_node` allocation before the side check, because it has no observable effect.
- EmergencyQueue.MinHeap.HeapifyDown: takes a `nat` index, so negative indices are left out. Python indexes a list from the end for a negative index: `heapify_down(-1)` compares `data[-1]` with `data[0]` and may swap them before carrying on from 0. The only caller passes 0.
- EmergencyQueue.MinHeap.HeapifyUp: takes a `nat` index, so negative indices are left out (for them `heapify_up` is a no-op in Python). It also requires `index < |data|`. An index past the end raises `IndexError` in Python, and index 0 on an empty list is a no-op there. The only caller passes the last index of a non-empty list.
- Update in place of the heap's list. `data` is a `seq` that each step reassigns, which behaves the same because nothing else holds the list.
