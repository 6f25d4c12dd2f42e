/**
The unbalanced search tree with parent pointers that indexes tasks, threads,
ports and spaces (kernel/tree.h).

The ghost sequence `order` lists the nodes in key order.  Every node has a
`Span`: its own position in that sequence and the range of positions that its
subtree occupies.  All pointer facts are local to a node and its neighbours;
lookup, enumeration and the three removal cases are proved against `order`.
*/
module KeyTrees {
  import opened Common

  class Node {
    var left: Node?
    var right: Node?
    var parent: Node?
    var key: u64
    var value: u64

    constructor ()
      ensures left == null && right == null && parent == null && key == 0 && value == 0
    {
      left, right, parent, key, value := null, null, null, 0, 0;
    }

    ghost function Fields(): Cell
      reads this
    {
      Cell(left, right, parent, key, value)
    }
  }

  /** The fields of a node. */
  datatype Cell = Cell(left: Node?, right: Node?, parent: Node?, key: u64, value: u64)

  type Heap = map<Node, Cell>

  predicate Blank(node: Node)
    reads node
  {
    node.left == null && node.right == null && node.parent == null && node.key == 0 && node.value == 0
  }

  datatype Span = Span(lo: int, pos: int, hi: int)

  type Spans = map<Node, Span>

  // ----- the shape of a tree

  /** The subtree of `n` occupies the positions `[lo, hi)`. */
  ghost predicate Covers(span: Spans, n: Node?, lo: int, hi: int) {
    if n == null then lo == hi else n in span && span[n].lo == lo && span[n].hi == hi
  }

  /** `n` and its children agree. */
  ghost predicate Down(h: Heap, span: Spans, n: Node) {
    && n in span && n in h
    && span[n].lo <= span[n].pos < span[n].hi
    && Covers(span, h[n].left, span[n].lo, span[n].pos)
    && Covers(span, h[n].right, span[n].pos + 1, span[n].hi)
    && (h[n].left != null ==> h[n].left in h && h[h[n].left].parent == n)
    && (h[n].right != null ==> h[n].right in h && h[h[n].right].parent == n)
  }

  /** `n` and its parent agree. */
  ghost predicate Up(h: Heap, root: Node?, n: Node) {
    && n in h
    && if h[n].parent == null then n == root
       else n != root && h[n].parent in h && (h[h[n].parent].left == n || h[h[n].parent].right == n)
  }

  /** The spans number the nodes as `order` lists them. */
  ghost predicate Numbered(span: Spans, order: seq<Node>) {
    && (forall i :: 0 <= i < |order| ==> order[i] in span && span[order[i]].pos == i)
    && (forall n :: n in span ==> 0 <= span[n].pos < |order| && order[span[n].pos] == n)
  }

  ghost predicate Shaped(h: Heap, root: Node?, order: seq<Node>, span: Spans) {
    && Numbered(span, order)
    && span.Keys == h.Keys
    && Covers(span, root, 0, |order|)
    && (root != null ==> root in h && h[root].parent == null)
    && (forall n {:trigger Down(h, span, n)} :: n in h ==> Down(h, span, n))
    && (forall n {:trigger Up(h, root, n)} :: n in h ==> Up(h, root, n))
  }

  ghost predicate Ascending(h: Heap, order: seq<Node>) {
    && (forall i :: 0 <= i < |order| ==> order[i] in h)
    && (forall i, j :: 0 <= i < j < |order| ==> h[order[i]].key < h[order[j]].key)
  }

  ghost predicate Tree(h: Heap, root: Node?, order: seq<Node>, span: Spans) {
    && Shaped(h, root, order, span)
    && Ascending(h, order)
    && (forall n :: n in h ==> h[n].key != 0 && h[n].value != 0)
  }

  /** The finite map that a tree stands for, as a set of pairs. */
  ghost function Pairs(h: Heap): set<(u64, u64)> {
    set n | n in h :: (h[n].key, h[n].value)
  }

  /** No two nodes have the same key. */
  lemma DistinctKeys(h: Heap, root: Node?, order: seq<Node>, span: Spans, m: Node, n: Node)
    requires Tree(h, root, order, span) && m in h && n in h && h[m].key == h[n].key
    ensures m == n
  {
    assert m in span && n in span && order[span[m].pos] == m && order[span[n].pos] == n;
  }

  /** Keys below position `lo` are smaller than `key`, those from `hi` on are larger. */
  ghost predicate Between(h: Heap, order: seq<Node>, key: u64, lo: int, hi: int)
    requires Ascending(h, order)
  {
    && (forall i :: 0 <= i < |order| && i < lo ==> h[order[i]].key < key)
    && (forall i :: 0 <= i < |order| && hi <= i ==> key < h[order[i]].key)
  }

  /** Comparing with the key at position `p` decides on which side of it `key` belongs. */
  lemma Narrow(h: Heap, order: seq<Node>, key: u64, lo: int, p: int, hi: int)
    requires Ascending(h, order) && 0 <= p < |order| && lo <= p < hi && Between(h, order, key, lo, hi)
    ensures key < h[order[p]].key ==> Between(h, order, key, lo, p)
    ensures key > h[order[p]].key ==> Between(h, order, key, p + 1, hi)
  {
  }

  // ----- inserting

  /** `node` hung into the empty slot on one side of `parent`. */
  function Attached(h: Heap, parent: Node?, left: bool, node: Node, key: u64, value: u64): Heap {
    var h' := h[node := Cell(null, null, parent, key, value)];
    if parent == null || parent !in h then h'
    else h'[parent := if left then h[parent].(left := node) else h[parent].(right := node)]
  }

  /** Spans after an insertion at position `k`, into a slot to the left or to the right of its parent. */
  function Shift(s: Span, k: int, left: bool): Span {
    Span(if s.lo > k || (s.lo == k && !left) then s.lo + 1 else s.lo,
         if s.pos >= k then s.pos + 1 else s.pos,
         if s.hi > k || (s.hi == k && !left) then s.hi + 1 else s.hi)
  }

  ghost function Shifted(span: Spans, k: int, left: bool, node: Node): Spans {
    (map n | n in span :: Shift(span[n], k, left))[node := Span(k, k, k + 1)]
  }

  /** The empty slot of `parent` and its position. */
  ghost predicate EmptySlot(h: Heap, span: Spans, parent: Node, left: bool, k: int) {
    && parent in h && parent in span
    && (if left then h[parent].left == null && k == span[parent].pos
        else h[parent].right == null && k == span[parent].pos + 1)
  }

  /** `slot`, which covers `[lo, hi)`, hangs on one side of `parent`. */
  ghost predicate AtSlot(h: Heap, span: Spans, root: Node?, parent: Node?, left: bool, slot: Node?, lo: int, hi: int) {
    && Covers(span, slot, lo, hi)
    && if parent == null then slot == root
       else && parent in h && parent in span
            && (if left then h[parent].left == slot && hi == span[parent].pos
                else h[parent].right == slot && lo == span[parent].pos + 1)
  }

  lemma AttachedDown(h: Heap, span: Spans, parent: Node, left: bool, k: int, node: Node, key: u64, value: u64, n: Node)
    requires Down(h, span, n) && Down(h, span, parent) && (n != parent ==> span[n].pos != span[parent].pos)
    requires node !in h && node !in span && EmptySlot(h, span, parent, left, k)
    ensures Down(Attached(h, parent, left, node, key, value), Shifted(span, k, left, node), n)
  {
  }

  lemma AttachedUp(h: Heap, root: Node?, parent: Node, left: bool, node: Node, key: u64, value: u64, n: Node)
    requires Up(h, root, n) && node !in h && parent in h
    requires if left then h[parent].left == null else h[parent].right == null
    ensures Up(Attached(h, parent, left, node, key, value), root, n)
  {
  }

  lemma InsertNumbered(order: seq<Node>, span: Spans, k: int, left: bool, node: Node)
    requires Numbered(span, order) && node !in span && 0 <= k <= |order|
    ensures Numbered(Shifted(span, k, left, node), InsertAt(order, k, node))
  {
  }

  lemma AttachedShaped(h: Heap, root: Node?, order: seq<Node>, span: Spans, parent: Node, left: bool, k: int,
                       node: Node, key: u64, value: u64)
    requires Shaped(h, root, order, span) && node !in h && EmptySlot(h, span, parent, left, k) && 0 <= k <= |order|
    ensures Shaped(Attached(h, parent, left, node, key, value), root,
                   InsertAt(order, k, node), Shifted(span, k, left, node))
  {
    var h', span' := Attached(h, parent, left, node, key, value), Shifted(span, k, left, node);
    InsertNumbered(order, span, k, left, node);
    assert Down(h, span, parent) && Up(h, root, parent);
    forall n | n in h'
      ensures Down(h', span', n) && Up(h', root, n)
    {
      if n in h {
        assert Down(h, span, n) && Up(h, root, n);
        AttachedDown(h, span, parent, left, k, node, key, value, n);
        AttachedUp(h, root, parent, left, node, key, value, n);
      }
    }
  }

  // ----- removing

  /** The parent of `was`, if any, points to `now` instead. */
  function Hooked(h: Heap, was: Node, now: Node?): Heap
    requires was in h
  {
    var p := h[was].parent;
    if p == null || p !in h then h
    else h[p := if h[p].left == was then h[p].(left := now) else h[p].(right := now)]
  }

  /** u64_tree_transplant: what hangs where `was` hung is now `now`. */
  function Transplanted(h: Heap, was: Node, now: Node?): Heap
    requires was in h
  {
    var h' := Hooked(h, was, now);
    if now == null || now !in h' then h' else h'[now := h'[now].(parent := h[was].parent)]
  }

  function TransplantedRoot(h: Heap, root: Node?, was: Node, now: Node?): Node?
    requires was in h
  {
    if h[was].parent == null then now else root
  }

  function OnlyChild(h: Heap, node: Node): Node?
    requires node in h
  {
    if h[node].left == null then h[node].right else h[node].left
  }

  /** A node with at most one child is replaced by that child. */
  function Spliced(h: Heap, node: Node): Heap
    requires node in h
  {
    Transplanted(h, node, OnlyChild(h, node)) - {node}
  }

  /** Spans after the node at position `k` is gone. */
  function Drop(s: Span, k: int): Span {
    Span(if s.lo > k then s.lo - 1 else s.lo,
         if s.pos > k then s.pos - 1 else s.pos,
         if s.hi > k then s.hi - 1 else s.hi)
  }

  ghost function Dropped(span: Spans, k: int, node: Node): Spans {
    map n | n in span && n != node :: Drop(span[n], k)
  }

  ghost predicate OneChild(h: Heap, node: Node) {
    node in h && (h[node].left == null || h[node].right == null)
  }

  lemma SplicedDown(h: Heap, root: Node?, span: Spans, node: Node, n: Node)
    requires OneChild(h, node) && n != node
    requires Down(h, span, node) && Up(h, root, node) && Down(h, span, n) && span[n].pos != span[node].pos
    ensures Down(Spliced(h, node), Dropped(span, span[node].pos, node), n)
  {
    SplicedCell(h, root, span, node, n);
    SplicedLeft(h, root, span, node, n);
    SplicedRight(h, root, span, node, n);
  }

  lemma SplicedLeft(h: Heap, root: Node?, span: Spans, node: Node, n: Node)
    requires OneChild(h, node) && n != node
    requires Down(h, span, node) && Up(h, root, node) && Down(h, span, n) && span[n].pos != span[node].pos
    ensures
      var h', span' := Spliced(h, node), Dropped(span, span[node].pos, node);
      && n in h' && n in span'
      && Covers(span', h'[n].left, span'[n].lo, span'[n].pos)
      && (h'[n].left != null ==> h'[n].left in h' && h'[h'[n].left].parent == n)
  {
    var h', c := Spliced(h, node), h[n].left;
    SplicedCell(h, root, span, node, n);
    if c != node {
      assert h'[n].left == c;
      if c != null {
        SplicedCell(h, root, span, node, c);
      }
    } else if OnlyChild(h, node) != null {
      SplicedCell(h, root, span, node, OnlyChild(h, node));
    }
  }

  lemma SplicedRight(h: Heap, root: Node?, span: Spans, node: Node, n: Node)
    requires OneChild(h, node) && n != node
    requires Down(h, span, node) && Up(h, root, node) && Down(h, span, n) && span[n].pos != span[node].pos
    ensures
      var h', span' := Spliced(h, node), Dropped(span, span[node].pos, node);
      && n in h' && n in span'
      && Covers(span', h'[n].right, span'[n].pos + 1, span'[n].hi)
      && (h'[n].right != null ==> h'[n].right in h' && h'[h'[n].right].parent == n)
  {
    var h', c := Spliced(h, node), h[n].right;
    SplicedCell(h, root, span, node, n);
    if c != node {
      assert h'[n].right == c;
      if c != null {
        SplicedCell(h, root, span, node, c);
      }
    } else if OnlyChild(h, node) != null {
      SplicedCell(h, root, span, node, OnlyChild(h, node));
    }
  }

  lemma SplicedCell(h: Heap, root: Node?, span: Spans, node: Node, n: Node)
    requires OneChild(h, node) && n != node && n in h && Down(h, span, node) && Up(h, root, node)
    ensures
      var h', c := Spliced(h, node), OnlyChild(h, node);
      && n in h'
      && h'[n].left == (if h[node].parent == n && h[n].left == node then c else h[n].left)
      && h'[n].right == (if h[node].parent == n && h[n].left != node then c else h[n].right)
      && h'[n].parent == (if n == c then h[node].parent else h[n].parent)
  {
  }

  lemma SplicedUp(h: Heap, root: Node?, span: Spans, node: Node, n: Node)
    requires OneChild(h, node) && n != node && Down(h, span, node) && Up(h, root, node) && Up(h, root, n)
    requires root != null ==> root in h && h[root].parent == null
    ensures Up(Spliced(h, node), TransplantedRoot(h, root, node, OnlyChild(h, node)), n)
  {
  }

  lemma RemoveNumbered(order: seq<Node>, span: Spans, node: Node)
    requires Numbered(span, order) && node in span
    ensures Numbered(Dropped(span, span[node].pos, node), RemoveAt(order, span[node].pos))
  {
  }

  lemma SplicedKeys(h: Heap, node: Node)
    requires node in h
    ensures Spliced(h, node).Keys == h.Keys - {node}
  {
  }

  lemma SplicedRoot(h: Heap, root: Node?, order: seq<Node>, span: Spans, node: Node)
    requires Shaped(h, root, order, span) && OneChild(h, node) && node in span
    ensures
      var h', root' := Spliced(h, node), TransplantedRoot(h, root, node, OnlyChild(h, node));
      && Covers(Dropped(span, span[node].pos, node), root', 0, |order| - 1)
      && (root' != null ==> root' in h' && h'[root'].parent == null)
  {
    assert Down(h, span, node) && Up(h, root, node);
  }

  lemma SplicedNode(h: Heap, root: Node?, order: seq<Node>, span: Spans, node: Node, n: Node)
    requires Shaped(h, root, order, span) && OneChild(h, node) && node in span && n in h && n != node
    ensures Down(Spliced(h, node), Dropped(span, span[node].pos, node), n)
    ensures Up(Spliced(h, node), TransplantedRoot(h, root, node, OnlyChild(h, node)), n)
  {
    assert Down(h, span, node) && Up(h, root, node) && Down(h, span, n) && Up(h, root, n);
    SplicedDown(h, root, span, node, n);
    SplicedUp(h, root, span, node, n);
  }

  lemma SplicedShaped(h: Heap, root: Node?, order: seq<Node>, span: Spans, node: Node)
    requires Shaped(h, root, order, span) && OneChild(h, node)
    ensures node in span
    ensures Shaped(Spliced(h, node), TransplantedRoot(h, root, node, OnlyChild(h, node)),
                   RemoveAt(order, span[node].pos), Dropped(span, span[node].pos, node))
  {
    RemoveNumbered(order, span, node);
    SplicedKeys(h, node);
    SplicedRoot(h, root, order, span, node);
    forall n | n in h && n != node {
      SplicedNode(h, root, order, span, node, n);
    }
  }

  /** `next`, which was not in the tree, takes the place of `node`. */
  function Replaced(h: Heap, node: Node, next: Node, key: u64, value: u64): Heap
    requires node in h
  {
    var c := h[node];
    var h1 := if c.left == null || c.left !in h then h else h[c.left := h[c.left].(parent := next)];
    var h2 := if c.right == null || c.right !in h1 then h1 else h1[c.right := h1[c.right].(parent := next)];
    var h3 := if c.parent == null || c.parent !in h2 then h2
              else h2[c.parent := if h2[c.parent].left == node then h2[c.parent].(left := next)
                                  else h2[c.parent].(right := next)];
    (h3 - {node})[next := Cell(c.left, c.right, c.parent, key, value)]
  }

  ghost function Renamed(span: Spans, node: Node, next: Node): Spans
    requires node in span
  {
    (span - {node})[next := span[node]]
  }

  lemma ReplacedDown(h: Heap, root: Node?, span: Spans, node: Node, next: Node, key: u64, value: u64, n: Node)
    requires node in h && next !in h && next !in span
    requires Down(h, span, node) && Up(h, root, node) && n != node && Down(h, span, n)
    requires n in h
    ensures Down(Replaced(h, node, next, key, value), Renamed(span, node, next), n)
  {
  }

  lemma ReplacedUp(h: Heap, root: Node?, span: Spans, node: Node, next: Node, key: u64, value: u64, n: Node)
    requires node in h && next !in h
    requires Down(h, span, node) && Up(h, root, node) && n != node && Up(h, root, n)
    ensures Up(Replaced(h, node, next, key, value), if root == node then next else root, n)
  {
  }

  lemma ReplacedSelf(h: Heap, root: Node?, span: Spans, node: Node, next: Node, key: u64, value: u64)
    requires node in h && next !in h && next !in span && Down(h, span, node) && Up(h, root, node)
    requires h[node].left != node && h[node].right != node && h[node].parent != node
    requires root != next
    ensures Down(Replaced(h, node, next, key, value), Renamed(span, node, next), next)
    ensures Up(Replaced(h, node, next, key, value), if root == node then next else root, next)
  {
  }

  lemma RenamedNumbered(order: seq<Node>, span: Spans, node: Node, next: Node)
    requires Numbered(span, order) && node in span && next !in span
    ensures Numbered(Renamed(span, node, next), order[span[node].pos := next])
  {
  }

  lemma ReplacedKeys(h: Heap, node: Node, next: Node, key: u64, value: u64)
    requires node in h
    ensures Replaced(h, node, next, key, value).Keys == h.Keys - {node} + {next}
  {
  }

  lemma ReplacedRoot(h: Heap, root: Node?, order: seq<Node>, span: Spans, node: Node, next: Node, key: u64, value: u64)
    requires Shaped(h, root, order, span) && node in h && next !in h && node in span
    ensures
      var h', root' := Replaced(h, node, next, key, value), if root == node then next else root;
      && Covers(Renamed(span, node, next), root', 0, |order|)
      && (root' != null ==> root' in h' && h'[root'].parent == null)
  {
    assert Down(h, span, node);
  }

  lemma ReplacedNode(h: Heap, root: Node?, order: seq<Node>, span: Spans, node: Node, next: Node, key: u64, value: u64,
                     n: Node)
    requires Shaped(h, root, order, span) && node in h && next !in h && node in span
    requires n == next || (n in h && n != node)
    ensures Down(Replaced(h, node, next, key, value), Renamed(span, node, next), n)
    ensures Up(Replaced(h, node, next, key, value), if root == node then next else root, n)
  {
    assert Down(h, span, node) && Up(h, root, node);
    if n == next {
      ReplacedSelf(h, root, span, node, next, key, value);
    } else {
      assert Down(h, span, n) && Up(h, root, n);
      ReplacedDown(h, root, span, node, next, key, value, n);
      ReplacedUp(h, root, span, node, next, key, value, n);
    }
  }

  lemma ReplacedShaped(h: Heap, root: Node?, order: seq<Node>, span: Spans, node: Node, next: Node, key: u64,
                       value: u64)
    requires Shaped(h, root, order, span) && node in h && next !in h
    ensures node in span
    ensures Shaped(Replaced(h, node, next, key, value), if root == node then next else root,
                   order[span[node].pos := next], Renamed(span, node, next))
  {
    RenamedNumbered(order, span, node, next);
    ReplacedKeys(h, node, next, key, value);
    ReplacedRoot(h, root, order, span, node, next, key, value);
    forall n | n == next || (n in h && n != node) {
      ReplacedNode(h, root, order, span, node, next, key, value, n);
    }
  }

  /** The successor moves into the place of a node with two children: first out of its own place, then in. */
  function Succeeded(h: Heap, node: Node, next: Node): Heap
    requires node in h && next in h && node != next
  {
    var h' := Spliced(h, next);
    if node in h' then Replaced(h', node, next, h[next].key, h[next].value) else h'
  }

  /** `next` takes over the left subtree of `node`. */
  function WithLeft(h: Heap, node: Node, next: Node): Heap {
    if node !in h || next !in h then h
    else
      var h' := h[next := h[next].(left := h[node].left)];
      var l := h[node].left;
      if l == null || l !in h' then h' else h'[l := h'[l].(parent := next)]
  }

  function WithRight(h: Heap, node: Node, next: Node): Heap {
    if node !in h || next !in h then h
    else
      var h' := h[next := h[next].(right := h[node].right)];
      var r := h[node].right;
      if r == null || r !in h' then h' else h'[r := h'[r].(parent := next)]
  }

  function Detached(h: Heap, node: Node, next: Node): Heap
    requires next in h
  {
    WithRight(Transplanted(h, next, h[next].right), node, next)
  }

  /** The pointer writes that u64_tree_remove_node makes in that case, in their order. */
  function Rewired(h: Heap, node: Node, next: Node): Heap
    requires node in h && next in h
  {
    var h' := if h[next].parent == node then h else Detached(h, node, next);
    if node !in h' then h' else WithLeft(Transplanted(h', node, next), node, next)
  }

  /** `next` follows `node`, which has two children. */
  ghost predicate Successor(h: Heap, span: Spans, node: Node, next: Node) {
    && node in h && next in h && node in span && next in span
    && h[node].left != null && h[node].right != null && h[next].left == null
    && span[next].pos == span[node].pos + 1
  }

  lemma RewiredNear(h: Heap, root: Node?, span: Spans, node: Node, next: Node, n: Node)
    requires Successor(h, span, node, next) && h[next].parent == node && h[node].right == next
    requires Down(h, span, node) && Up(h, root, node) && Down(h, span, next) && Up(h, root, next)
    requires n in h && n != node
    ensures n in Succeeded(h, node, next) && n in Rewired(h, node, next)
    ensures Rewired(h, node, next)[n] == Succeeded(h, node, next)[n]
  {
  }

  /** The cell of `n` once the successor, which was not a child of `node`, has moved. */
  function FarCell(h: Heap, node: Node, next: Node, n: Node): Cell
    requires node in h && next in h && n in h
  {
    Cell(if n == next then h[node].left else if n == h[next].parent then h[next].right
         else if n == h[node].parent && h[n].left == node then next else h[n].left,
         if n == next then h[node].right
         else if n == h[node].parent && h[n].left != node then next else h[n].right,
         if n == next then h[node].parent else if n == h[node].left || n == h[node].right then next
         else if n == h[next].right then h[next].parent else h[n].parent,
         h[n].key, h[n].value)
  }

  /** The successor lies below the right child of `node`. */
  ghost predicate Far(h: Heap, span: Spans, node: Node, next: Node) {
    && Successor(h, span, node, next) && h[next].parent != node && h[next].parent != null
    && h[node].parent != next && h[node].left != next && h[node].right != next
    && h[next].right != node && h[next].parent in h && h[h[next].parent].left == next
  }

  lemma DetachedFar(h: Heap, root: Node?, span: Spans, node: Node, next: Node, n: Node)
    requires Far(h, span, node, next) && Down(h, span, node) && Down(h, span, next) && n in h
    ensures n in Detached(h, node, next)
    ensures
      Detached(h, node, next)[n]
      == Cell(if n == h[next].parent then h[next].right else h[n].left,
              if n == next then h[node].right else h[n].right,
              if n == h[node].right then next else if n == h[next].right then h[next].parent else h[n].parent,
              h[n].key, h[n].value)
  {
  }

  lemma RewiredFar(h: Heap, root: Node?, span: Spans, node: Node, next: Node, n: Node)
    requires Far(h, span, node, next) && Down(h, span, node) && Up(h, root, node) && Down(h, span, next)
    requires Up(h, root, next)
    requires n in h && n != node
    ensures n in Rewired(h, node, next) && Rewired(h, node, next)[n] == FarCell(h, node, next, n)
  {
    DetachedFar(h, root, span, node, next, n);
    DetachedFar(h, root, span, node, next, node);
    DetachedFar(h, root, span, node, next, next);
    DetachedFar(h, root, span, node, next, h[node].left);
    if h[node].parent != null {
      DetachedFar(h, root, span, node, next, h[node].parent);
    }
  }

  lemma SucceededFar(h: Heap, root: Node?, span: Spans, node: Node, next: Node, n: Node)
    requires Far(h, span, node, next) && Down(h, span, node) && Up(h, root, node) && Down(h, span, next)
    requires Up(h, root, next)
    requires n in h && n != node
    ensures n in Succeeded(h, node, next) && Succeeded(h, node, next)[n] == FarCell(h, node, next, n)
  {
    SplicedFar(h, root, span, node, next, n);
    SplicedFar(h, root, span, node, next, node);
    SplicedFar(h, root, span, node, next, h[node].left);
    SplicedFar(h, root, span, node, next, h[node].right);
    if h[node].parent != null {
      SplicedFar(h, root, span, node, next, h[node].parent);
    }
  }

  lemma SplicedFar(h: Heap, root: Node?, span: Spans, node: Node, next: Node, n: Node)
    requires Far(h, span, node, next) && Down(h, span, next) && n in h
    ensures n in Spliced(h, next) <==> n != next
    ensures n != next ==>
              Spliced(h, next)[n] == Cell(if n == h[next].parent then h[next].right else h[n].left, h[n].right,
                                          if n == h[next].right then h[next].parent else h[n].parent,
                                          h[n].key, h[n].value)
  {
  }

  /** The successor of a node with two children is its right child or lies below it, to the left. */
  lemma WhereNext(h: Heap, root: Node?, order: seq<Node>, span: Spans, node: Node, next: Node)
    requires Shaped(h, root, order, span) && Successor(h, span, node, next)
    ensures node != next
    ensures Down(h, span, node) && Up(h, root, node) && Down(h, span, next) && Up(h, root, next)
    ensures h[next].parent == node ==> h[node].right == next
    ensures h[next].parent != node ==> Far(h, span, node, next)
  {
    assert Down(h, span, node) && Up(h, root, node) && Down(h, span, next) && Up(h, root, next);
    if h[next].parent != node && h[next].parent != null {
      NotRight(h, root, order, span, node, next, h[next].parent);
    }
  }

  lemma NotRight(h: Heap, root: Node?, order: seq<Node>, span: Spans, node: Node, next: Node, q: Node)
    requires Shaped(h, root, order, span) && Successor(h, span, node, next) && q in h && q != node
    requires Down(h, span, next) && h[next].left == null
    ensures h[q].right != next
  {
    assert Down(h, span, q);
    assert span[q].pos != span[node].pos;
  }

  /** The code's pointer writes have the effect of splicing the successor out and putting it in. */
  lemma RewiredIs(h: Heap, root: Node?, order: seq<Node>, span: Spans, node: Node, next: Node)
    requires Shaped(h, root, order, span) && Successor(h, span, node, next)
    ensures node != next && Rewired(h, node, next).Keys == h.Keys
    ensures Rewired(h, node, next) - {node} == Succeeded(h, node, next)
  {
    WhereNext(h, root, order, span, node, next);
    forall n | n in h && n != node
      ensures n in Rewired(h, node, next) && n in Succeeded(h, node, next)
      ensures Rewired(h, node, next)[n] == Succeeded(h, node, next)[n]
    {
      if h[next].parent == node {
        RewiredNear(h, root, span, node, next, n);
      } else {
        RewiredFar(h, root, span, node, next, n);
        SucceededFar(h, root, span, node, next, n);
      }
    }
    SucceededKeys(h, node, next);
    RewiredKeys(h, node, next);
  }

  lemma SucceededKeys(h: Heap, node: Node, next: Node)
    requires node in h && next in h && node != next
    ensures Succeeded(h, node, next).Keys == h.Keys - {node}
  {
    ReplacedKeys(Spliced(h, next), node, next, h[next].key, h[next].value);
  }

  lemma RewiredKeys(h: Heap, node: Node, next: Node)
    requires node in h && next in h
    ensures Rewired(h, node, next).Keys == h.Keys
  {
  }

  lemma SucceededShaped(h: Heap, root: Node?, order: seq<Node>, span: Spans, node: Node, next: Node)
    requires Shaped(h, root, order, span) && Successor(h, span, node, next)
    ensures node != next && node in Dropped(span, span[next].pos, next)
    ensures Shaped(Succeeded(h, node, next), if h[node].parent == null then next else root,
                   RemoveAt(order, span[node].pos), Renamed(Dropped(span, span[next].pos, next), node, next))
  {
    var k := span[node].pos;
    SplicedNext(h, root, order, span, node, next);
    ReplacedShaped(Spliced(h, next), root, RemoveAt(order, k + 1), Dropped(span, k + 1, next), node, next,
                   h[next].key, h[next].value);
    SwapOut(order, k, next);
  }

  /** The tree without the successor. */
  lemma SplicedNext(h: Heap, root: Node?, order: seq<Node>, span: Spans, node: Node, next: Node)
    requires Shaped(h, root, order, span) && Successor(h, span, node, next)
    ensures node != next && 0 <= span[node].pos < |order| - 1 && order[span[node].pos + 1] == next
    ensures h[node].parent == null <==> root == node
    ensures Shaped(Spliced(h, next), root, RemoveAt(order, span[node].pos + 1), Dropped(span, span[node].pos + 1, next))
    ensures node in Spliced(h, next) && next !in Spliced(h, next)
    ensures node in Dropped(span, span[node].pos + 1, next)
    ensures Dropped(span, span[node].pos + 1, next)[node].pos == span[node].pos
  {
    WhereNext(h, root, order, span, node, next);
    assert order[span[next].pos] == next && h[next].parent != null;
    SplicedShaped(h, root, order, span, next);
  }

  lemma SwapOut(order: seq<Node>, k: int, next: Node)
    requires 0 <= k < |order| - 1 && order[k + 1] == next
    ensures RemoveAt(order, k + 1)[k := next] == RemoveAt(order, k)
  {
  }

  /** The pointers after the writes of u64_tree_remove_node. */
  ghost predicate UnlinkedBy(h: Heap, root: Node?, span: Spans, node: Node, next: Node?, h': Heap, root': Node?) {
    && node in h && node in span
    && if next == null then
         && OneChild(h, node) && h' == Transplanted(h, node, OnlyChild(h, node))
         && root' == TransplantedRoot(h, root, node, OnlyChild(h, node))
       else
         && Successor(h, span, node, next) && h' == Rewired(h, node, next)
         && root' == if h[node].parent == null then next else root
  }

  lemma UnlinkedShaped(h: Heap, root: Node?, order: seq<Node>, span: Spans, node: Node, next: Node?, h': Heap,
                       root': Node?)
    returns (span': Spans)
    requires Shaped(h, root, order, span) && UnlinkedBy(h, root, span, node, next, h', root')
    ensures Shaped(h' - {node}, root', RemoveAt(order, span[node].pos), span')
  {
    if next == null {
      SplicedShaped(h, root, order, span, node);
      span' := Dropped(span, span[node].pos, node);
    } else {
      SucceededShaped(h, root, order, span, node, next);
      RewiredIs(h, root, order, span, node, next);
      span' := Renamed(Dropped(span, span[next].pos, next), node, next);
    }
  }

  lemma UnlinkedKeeps(h: Heap, root: Node?, span: Spans, node: Node, next: Node?, h': Heap, root': Node?)
    requires UnlinkedBy(h, root, span, node, next, h', root')
    ensures SameEntries(h, h')
  {
    if next == null {
      TransplantKeeps(h, node, OnlyChild(h, node));
    } else {
      RewiredKeeps(h, node, next);
    }
  }

  lemma RemovedAscending(h: Heap, order: seq<Node>, h': Heap, span: Spans, node: Node)
    requires Ascending(h, order) && SameEntries(h, h') && Numbered(span, order) && node in span
    ensures Ascending(h' - {node}, RemoveAt(order, span[node].pos))
  {
  }

  lemma RemovedPairs(h: Heap, root: Node?, order: seq<Node>, span: Spans, node: Node, h': Heap)
    requires Tree(h, root, order, span) && node in h && SameEntries(h, h')
    ensures Pairs(h' - {node}) == Pairs(h) - {(h[node].key, h[node].value)}
  {
    forall n | n in h && n != node
      ensures h[n].key != h[node].key
    {
      if h[n].key == h[node].key {
        DistinctKeys(h, root, order, span, n, node);
      }
    }
    forall n | n in h && n != node
      ensures (h[n].key, h[n].value) in Pairs(h' - {node})
    {
      HasPair(h' - {node}, n);
    }
  }

  /** What remains is a tree of the remaining nodes in the same order. */
  lemma RemovedTree(h: Heap, root: Node?, order: seq<Node>, span: Spans, node: Node, next: Node?, h': Heap,
                    root': Node?)
    returns (span': Spans)
    requires Tree(h, root, order, span) && UnlinkedBy(h, root, span, node, next, h', root')
    ensures Tree(h' - {node}, root', RemoveAt(order, span[node].pos), span')
    ensures Pairs(h' - {node}) == Pairs(h) - {(h[node].key, h[node].value)}
  {
    span' := UnlinkedShaped(h, root, order, span, node, next, h', root');
    UnlinkedKeeps(h, root, span, node, next, h', root');
    RemovedAscending(h, order, h', span, node);
    RemovedPairs(h, root, order, span, node, h');
  }

  ghost predicate SameEntries(h: Heap, h': Heap) {
    h'.Keys == h.Keys && forall n :: n in h ==> h'[n].key == h[n].key && h'[n].value == h[n].value
  }

  lemma TransplantKeeps(h: Heap, was: Node, now: Node?)
    requires was in h
    ensures SameEntries(h, Transplanted(h, was, now))
  {
  }

  lemma AdoptKeeps(h: Heap, node: Node, next: Node)
    ensures SameEntries(h, WithLeft(h, node, next)) && SameEntries(h, WithRight(h, node, next))
  {
  }

  lemma RewiredKeeps(h: Heap, node: Node, next: Node)
    requires node in h && next in h
    ensures SameEntries(h, Rewired(h, node, next))
  {
    TransplantKeeps(h, next, h[next].right);
    AdoptKeeps(Transplanted(h, next, h[next].right), node, next);
    var h' := if h[next].parent == node then h else Detached(h, node, next);
    TransplantKeeps(h', node, next);
    AdoptKeeps(Transplanted(h', node, next), node, next);
  }

  class KeyTree {
    var root: Node?
    var count: nat
    ghost var nodes: set<Node>
    ghost var order: seq<Node>
    ghost var span: Spans

    ghost function Snap(): Heap
      reads nodes, this`nodes
    {
      map n | n in nodes :: n.Fields()
    }

    ghost predicate Valid()
      reads this, nodes
    {
      Tree(Snap(), root, order, span) && count == |order|
    }

    /** u64_tree_init */
    constructor ()
      ensures Valid() && nodes == {} && Pairs(Snap()) == {}
    {
      root, count := null, 0;
      nodes, order, span := {}, [], map[];
    }

    /** u64_tree_find_node */
    method Find(key: u64) returns (node: Node?)
      requires Valid()
      ensures node != null ==> node in nodes && node.key == key
      ensures node == null ==> forall n :: n in nodes ==> n.key != key
    {
      ghost var h := Snap();
      if key == 0 {
        assert forall n :: n in nodes ==> h[n].key == n.key;
        return null;
      }
      node := root;
      ghost var lo, hi := 0, |order|;
      while node != null
        invariant node != null ==> node in nodes
        invariant Covers(span, node, lo, hi) && Between(h, order, key, lo, hi)
        decreases hi - lo, node != null
      {
        assert Down(h, span, node) && h[node] == node.Fields();
        if key == node.key {
          return;
        }
        Narrow(h, order, key, lo, span[node].pos, hi);
        if key < node.key {
          node, hi := node.left, span[node].pos;
        } else {
          node, lo := node.right, span[node].pos + 1;
        }
      }
      Absent(h, order, span, key, lo);
      assert forall n :: n in nodes ==> h[n].key == n.key;
    }

    /** u64_tree_get */
    method Get(key: u64) returns (value: u64)
      requires Valid()
      ensures value != 0 ==> (key, value) in Pairs(Snap())
      ensures value == 0 ==> forall v :: (key, v) !in Pairs(Snap())
    {
      ghost var h := Snap();
      var node := Find(key);
      value := if node != null then node.value else 0;
      assert forall n :: n in nodes ==> h[n].key == n.key && h[n].value == n.value;
    }

    /** u64_tree_transplant */
    method Transplant(was: Node, now: Node?)
      requires was in nodes && (was.parent == null || was.parent in nodes) && (now == null || now in nodes)
      modifies this`root, nodes`left, nodes`right, nodes`parent
      ensures Snap() == Transplanted(old(Snap()), was, now)
      ensures root == TransplantedRoot(old(Snap()), old(root), was, now)
    {
      ghost var h := Snap();
      assert h[was] == was.Fields();
      Hook(was, now);
      if now != null {
        SetParent(now, was.parent);
      }
    }

    method SetParent(node: Node, p: Node?)
      requires node in nodes
      modifies nodes`parent
      ensures Snap() == old(Snap())[node := old(Snap())[node].(parent := p)]
    {
      ghost var h := Snap();
      assert h[node] == node.Fields();
      node.parent := p;
      assert Snap() == h[node := h[node].(parent := p)];
    }

    /** The first half of u64_tree_transplant. */
    method Hook(was: Node, now: Node?)
      requires was in nodes && (was.parent == null || was.parent in nodes)
      modifies this`root, nodes`left, nodes`right
      ensures Snap() == Hooked(old(Snap()), was, now)
      ensures root == TransplantedRoot(old(Snap()), old(root), was, now)
    {
      ghost var h, p := Snap(), was.parent;
      if was.parent == null {
        root := now;
      } else if was == was.parent.left {
        was.parent.left := now;
        assert Snap() == h[p := h[p].(left := now)];
      } else {
        was.parent.right := now;
        assert Snap() == h[p := h[p].(right := now)];
      }
    }

    method AdoptLeft(node: Node, next: Node)
      requires node in nodes && next in nodes && node.left != null && node.left in nodes
      modifies nodes`left, nodes`right, nodes`parent
      ensures Snap() == WithLeft(old(Snap()), node, next)
    {
      next.left := node.left;
      next.left.parent := next;
    }

    method AdoptRight(node: Node, next: Node)
      requires node in nodes && next in nodes && node.right != null && node.right in nodes
      modifies nodes`left, nodes`right, nodes`parent
      ensures Snap() == WithRight(old(Snap()), node, next)
    {
      next.right := node.right;
      next.right.parent := next;
    }

    /** A successor that is not a child of `node` leaves its place and takes over the right subtree. */
    method Detach(node: Node, next: Node)
      requires node in nodes && next in nodes && Far(Snap(), span, node, next)
      requires Down(Snap(), span, node) && Down(Snap(), span, next)
      modifies this`root, nodes`left, nodes`right, nodes`parent
      ensures Snap() == Detached(old(Snap()), node, next) && root == old(root)
    {
      ghost var h := Snap();
      assert h[node] == node.Fields() && h[next] == next.Fields();
      Transplant(next, next.right);
      assert Snap()[node] == node.Fields();
      AdoptRight(node, next);
    }

    /** `next` is hung where `node` hangs and takes over its left subtree. */
    method TakePlace(node: Node, next: Node)
      requires node in nodes && next in nodes && node != next && node.parent != node
      requires (node.parent == null || node.parent in nodes) && node.left != null && node.left in nodes
      modifies this`root, nodes`left, nodes`right, nodes`parent
      ensures Snap() == WithLeft(Transplanted(old(Snap()), node, next), node, next)
      ensures root == if old(node.parent) == null then next else old(root)
    {
      Transplant(node, next);
      assert Snap()[node] == node.Fields();
      AdoptLeft(node, next);
    }

    /** The third case of u64_tree_remove_node. */
    method Rewire(node: Node, next: Node)
      requires node in nodes && next in nodes && node != next && Successor(Snap(), span, node, next)
      requires Down(Snap(), span, node) && Up(Snap(), root, node) && Down(Snap(), span, next)
      requires next.parent != node ==> Far(Snap(), span, node, next)
      requires node.parent != node && node.left != node
      modifies this`root, nodes`left, nodes`right, nodes`parent
      ensures Snap() == Rewired(old(Snap()), node, next)
      ensures root == if old(node.parent) == null then next else old(root)
    {
      ghost var h := Snap();
      assert h[node] == node.Fields() && h[next] == next.Fields();
      if next.parent != node {
        DetachedFar(h, root, span, node, next, node);
        Detach(node, next);
        assert Snap()[node] == node.Fields();
      }
      TakePlace(node, next);
    }

    /** The walk to the left that first, next and remove share. */
    method Leftmost(start: Node) returns (node: Node)
      requires Shaped(Snap(), root, order, span) && start in nodes
      ensures node in nodes && node.left == null && span[node].pos == span[start].lo
    {
      ghost var h := Snap();
      node := start;
      assert Down(h, span, node) && h[node] == node.Fields();
      while node.left != null
        invariant node in nodes && span[node].lo == span[start].lo && Down(h, span, node) && h[node] == node.Fields()
        decreases span[node].hi - span[node].lo
      {
        node := node.left;
        assert Down(h, span, node) && h[node] == node.Fields();
      }
    }

    /** u64_tree_first_node */
    method First() returns (node: Node?)
      requires Valid()
      ensures if order == [] then node == null else node == order[0]
    {
      node := root;
      if node != null {
        node := Leftmost(node);
      }
    }

    /** u64_tree_next_node */
    method Next(node: Node) returns (next: Node?)
      requires Valid() && node in nodes
      ensures var p := span[node].pos + 1;
              if p == |order| then next == null else p < |order| && next == order[p]
    {
      ghost var h := Snap();
      assert Down(h, span, node) && h[node] == node.Fields();
      if node.right != null {
        next := Leftmost(node.right);
        return;
      }
      var current := node;
      assert Up(h, root, current);
      while current.parent != null && current == current.parent.right
        invariant current in nodes && span[current].hi == span[node].pos + 1
        invariant Up(h, root, current) && h[current] == current.Fields()
        decreases span[current].lo
      {
        current := current.parent;
        assert Up(h, root, current) && Down(h, span, current) && h[current] == current.Fields();
      }
      next := current.parent;
      if next != null {
        assert Down(h, span, next) && h[next] == next.Fields();
      }
    }

    /** The loop that callers write with first and next: every node once, in ascending key order. */
    method Visit() returns (visited: seq<Node>)
      requires Valid()
      ensures |visited| == count && (forall n :: n in nodes <==> n in visited)
      ensures forall i, j :: 0 <= i < j < |visited| ==> visited[i].key < visited[j].key
    {
      visited := VisitAll();
      ghost var h := Snap();
      Listed(h, root, order, span);
      forall n | n in nodes
        ensures h[n].key == n.key
      {
        assert h[n] == n.Fields();
      }
      forall i, j | 0 <= i < j < |visited|
        ensures visited[i].key < visited[j].key
      {
        assert h[order[i]].key < h[order[j]].key;
      }
    }

    method VisitAll() returns (visited: seq<Node>)
      requires Valid()
      ensures visited == order
    {
      visited := [];
      var node := First();
      while node != null
        invariant |visited| <= |order| && visited == order[..|visited|]
        invariant if |visited| == |order| then node == null else node == order[|visited|]
        decreases |order| - |visited|
      {
        assert node in span && span[node].pos == |visited|;
        visited := visited + [node];
        node := Next(node);
      }
      assert visited == order;
    }

    /** The pointer writes of u64_tree_remove_node; `next` is the successor that took over, if one did. */
    method Unlink(node: Node) returns (ghost next: Node?)
      requires Shaped(Snap(), root, order, span) && node in nodes
      modifies this`root, nodes`left, nodes`right, nodes`parent
      ensures UnlinkedBy(old(Snap()), old(root), span, node, next, Snap(), root)
    {
      ghost var h := Snap();
      assert h[node] == node.Fields() && Down(h, span, node) && Up(h, root, node);
      next := null;
      if node.left == null {
        Transplant(node, node.right);
      } else if node.right == null {
        Transplant(node, node.left);
      } else {
        next := UnlinkInner(node);
      }
    }

    method UnlinkInner(node: Node) returns (next: Node)
      requires Shaped(Snap(), root, order, span) && node in nodes
      requires node.left != null && node.right != null && node.right in nodes
      modifies this`root, nodes`left, nodes`right, nodes`parent
      ensures UnlinkedBy(old(Snap()), old(root), span, node, next, Snap(), root)
    {
      ghost var h := Snap();
      assert h[node] == node.Fields() && Down(h, span, node) && Up(h, root, node);
      next := Leftmost(node.right);
      assert h[next] == next.Fields();
      WhereNext(h, root, order, span, node, next);
      Rewire(node, next);
    }

    /** A node that is taken out is cleared. */
    method Clear(node: Node)
      requires node in nodes
      modifies this`nodes, node
      ensures nodes == old(nodes) - {node} && Snap() == old(Snap()) - {node}
      ensures Blank(node)
    {
      nodes := nodes - {node};
      node.left, node.right, node.parent, node.key, node.value := null, null, null, 0, 0;
    }

    /** Take the node at position `k` out; what is left is a tree listed by the other nodes. */
    method TakeOut(node: Node, ghost k: int) returns (ghost span': Spans)
      requires Tree(Snap(), root, order, span) && 0 <= k < |order| && order[k] == node && node in nodes
      modifies this`root, nodes`left, nodes`right, nodes`parent
      ensures Tree(Snap() - {node}, root, RemoveAt(order, k), span')
      ensures Pairs(Snap() - {node}) == Pairs(old(Snap())) - {old((node.key, node.value))}
    {
      ghost var h := Snap();
      assert h[node] == node.Fields();
      ghost var next := Unlink(node);
      span' := RemovedTree(h, old(root), order, span, node, next, Snap(), root);
    }

    /** u64_tree_remove_node on a node of the tree. */
    method RemoveNode(node: Node)
      requires Valid() && node in nodes
      modifies this, nodes`left, nodes`right, nodes`parent, node
      ensures Valid() && nodes == old(nodes) - {node}
      ensures Pairs(Snap()) == Pairs(old(Snap())) - {old((node.key, node.value))}
      ensures Blank(node)
    {
      ghost var k := span[node].pos;
      ghost var span' := TakeOut(node, k);
      Finish(node, RemoveAt(order, k), span');
    }

    /** A node that the tree no longer reaches is cleared and forgotten. */
    method Finish(node: Node, ghost order': seq<Node>, ghost span': Spans)
      requires node in nodes && Tree(Snap() - {node}, root, order', span') && count == |order'| + 1
      modifies this`nodes, this`count, this`order, this`span, node
      ensures Valid() && nodes == old(nodes) - {node} && Snap() == old(Snap()) - {node} && Blank(node)
    {
      Clear(node);
      Relist(if count != 0 then count - 1 else count, order', span');
    }

    /** u64_tree_remove_node; no other node's key or value is touched. */
    method Remove(node: Node?)
      requires Valid() && (node == null || node in nodes)
      modifies this, nodes`left, nodes`right, nodes`parent, node
      ensures Valid()
      ensures node == null ==> nodes == old(nodes) && order == old(order) && unchanged(nodes)
      ensures node != null ==>
                nodes == old(nodes) - {node} && Pairs(Snap()) == Pairs(old(Snap())) - {old((node.key, node.value))}
      ensures node != null ==> Blank(node)
    {
      if node != null {
        RemoveNode(node);
      }
    }

    /** The search of u64_tree_insert_node: the empty slot for `key`, or that the key is in use. */
    method FindSlot(key: u64) returns (used: bool, parent: Node?, left: bool, ghost k: int)
      requires Valid()
      ensures used ==> parent != null && parent in nodes && parent.key == key
      ensures !used ==> 0 <= k <= |order| && Between(Snap(), order, key, k, k)
      ensures !used ==>
                if parent == null then root == null
                else parent in nodes && EmptySlot(Snap(), span, parent, left, k)
    {
      ghost var h, hi := Snap(), |order|;
      used, parent, left, k := false, null, false, 0;
      var slot := root;
      while slot != null
        invariant 0 <= k <= hi <= |order| && Between(h, order, key, k, hi)
        invariant AtSlot(h, span, root, parent, left, slot, k, hi)
        decreases hi - k, slot != null
      {
        parent := slot;
        assert Down(h, span, parent) && h[parent] == parent.Fields();
        if key == parent.key {
          used := true;
          return;
        }
        Narrow(h, order, key, k, span[parent].pos, hi);
        left := key < parent.key;
        if left {
          slot, hi := parent.left, span[parent].pos;
        } else {
          slot, k := parent.right, span[parent].pos + 1;
        }
      }
    }

    /** The pointer writes of u64_tree_insert_node. */
    method Attach(parent: Node?, left: bool, node: Node, key: u64, value: u64)
      requires node !in nodes && (parent == null || parent in nodes)
      modifies this`root, this`nodes, nodes`left, nodes`right, node
      ensures nodes == old(nodes) + {node} && root == if parent == null then node else old(root)
      ensures Snap() == Attached(old(Snap()), parent, left, node, key, value)
    {
      node.left, node.right, node.parent, node.key, node.value := null, null, parent, key, value;
      if parent == null {
        root := node;
      } else if left {
        parent.left := node;
      } else {
        parent.right := node;
      }
      nodes := nodes + {node};
    }

    /** The tree as it is now is listed by `order'`. */
    method Relist(n: nat, ghost order': seq<Node>, ghost span': Spans)
      requires Tree(Snap(), root, order', span') && n == |order'|
      modifies this`count, this`order, this`span
      ensures Valid() && order == order' && Snap() == old(Snap())
    {
      count, order, span := n, order', span';
      assert Snap() == old(Snap());
    }

    method InsertAtSlot(parent: Node?, left: bool, node: Node, key: u64, value: u64, ghost k: int)
      requires Valid() && node !in nodes && key != 0 && value != 0
      requires 0 <= k <= |order| && Between(Snap(), order, key, k, k)
      requires if parent == null then root == null else parent in nodes && EmptySlot(Snap(), span, parent, left, k)
      modifies this, nodes`left, nodes`right, node
      ensures Valid() && nodes == old(nodes) + {node} && node.key == key && node.value == value
      ensures Pairs(Snap()) == Pairs(old(Snap())) + {(key, value)}
    {
      InsertedTree(Snap(), root, order, span, parent, left, k, node, key, value);
      SameKeys(Snap(), parent, left, node, key, value);
      AttachAndList(parent, left, node, key, value, InsertAt(order, k, node), Shifted(span, k, left, node));
    }

    method AttachAndList(parent: Node?, left: bool, node: Node, key: u64, value: u64, ghost order': seq<Node>,
                         ghost span': Spans)
      requires node !in nodes && (parent == null || parent in nodes) && |order'| == count + 1
      requires Tree(Attached(Snap(), parent, left, node, key, value), if parent == null then node else root,
                    order', span')
      modifies this, nodes`left, nodes`right, node
      ensures Valid() && nodes == old(nodes) + {node} && node.key == key && node.value == value
      ensures Snap() == Attached(old(Snap()), parent, left, node, key, value)
    {
      Attach(parent, left, node, key, value);
      AttachedNode(old(Snap()), parent, left, node, key, value);
      assert Snap()[node] == node.Fields();
      Relist(count + 1, order', span');
    }

    /** u64_tree_insert_node */
    method Insert(node: Node, key: u64, value: u64) returns (ok: bool)
      requires Valid() && node !in nodes
      modifies this, nodes`left, nodes`right, node
      ensures Valid()
      ensures ok <==> key != 0 && value != 0 && forall v :: (key, v) !in Pairs(old(Snap()))
      ensures !ok ==> nodes == old(nodes) && order == old(order) && unchanged(nodes) && unchanged(node)
      ensures ok ==> Pairs(Snap()) == Pairs(old(Snap())) + {(key, value)}
      ensures ok ==> nodes == old(nodes) + {node} && node.key == key && node.value == value
    {
      if key == 0 || value == 0 {
        return false;
      }
      var used, parent, left;
      ghost var k;
      used, parent, left, k := FindSlot(key);
      if used {
        assert Snap()[parent] == parent.Fields();
        HasPair(Snap(), parent);
        return false;
      }
      Absent(Snap(), order, span, key, k);
      InsertAtSlot(parent, left, node, key, value, k);
      return true;
    }
  }

  /** No node has a key that belongs between positions `p - 1` and `p`. */
  lemma Absent(h: Heap, order: seq<Node>, span: Spans, key: u64, p: int)
    requires Numbered(span, order) && span.Keys == h.Keys && Ascending(h, order) && Between(h, order, key, p, p)
    ensures forall n :: n in h ==> h[n].key != key
    ensures forall v :: (key, v) !in Pairs(h)
  {
    forall n | n in h
      ensures h[n].key != key
    {
      assert n in span && order[span[n].pos] == n;
    }
  }

  lemma Listed(h: Heap, root: Node?, order: seq<Node>, span: Spans)
    requires Tree(h, root, order, span)
    ensures forall n :: n in h <==> n in order
  {
    forall n | n in h
      ensures n in order
    {
      assert n in span && order[span[n].pos] == n;
    }
  }

  lemma HasPair(h: Heap, n: Node)
    requires n in h
    ensures (h[n].key, h[n].value) in Pairs(h)
  {
  }

  lemma InsertedAscending(h: Heap, order: seq<Node>, h': Heap, key: u64, k: int, node: Node)
    requires Ascending(h, order) && 0 <= k <= |order| && Between(h, order, key, k, k)
    requires node !in h && node in h' && h'[node].key == key && forall n :: n in h ==> n in h' && h'[n].key == h[n].key
    ensures Ascending(h', InsertAt(order, k, node))
  {
  }

  lemma InsertedTree(h: Heap, root: Node?, order: seq<Node>, span: Spans, parent: Node?, left: bool, k: int, node: Node,
                     key: u64, value: u64)
    requires Tree(h, root, order, span) && node !in h && key != 0 && value != 0
    requires 0 <= k <= |order| && Between(h, order, key, k, k)
    requires if parent == null then root == null else EmptySlot(h, span, parent, left, k)
    ensures Tree(Attached(h, parent, left, node, key, value), if parent == null then node else root,
                 InsertAt(order, k, node), Shifted(span, k, left, node))
  {
    var h' := Attached(h, parent, left, node, key, value);
    SameKeys(h, parent, left, node, key, value);
    InsertedAscending(h, order, h', key, k, node);
    if parent != null {
      AttachedShaped(h, root, order, span, parent, left, k, node, key, value);
    } else {
      AttachedRoot(h, order, span, k, left, node, key, value);
    }
  }

  lemma AttachedNode(h: Heap, parent: Node?, left: bool, node: Node, key: u64, value: u64)
    requires node !in h
    ensures
      var h' := Attached(h, parent, left, node, key, value);
      node in h' && h'[node].key == key && h'[node].value == value
  {
  }

  lemma SameKeys(h: Heap, parent: Node?, left: bool, node: Node, key: u64, value: u64)
    requires node !in h
    ensures
      var h' := Attached(h, parent, left, node, key, value);
      && h'.Keys == h.Keys + {node} && h'[node].key == key && h'[node].value == value
      && (forall n :: n in h ==> h'[n].key == h[n].key && h'[n].value == h[n].value)
      && Pairs(h') == Pairs(h) + {(key, value)}
  {
    var h' := Attached(h, parent, left, node, key, value);
    assert (h'[node].key, h'[node].value) in Pairs(h');
    assert forall n :: n in h ==> (h'[n].key, h'[n].value) == (h[n].key, h[n].value);
  }

  lemma AttachedRoot(h: Heap, order: seq<Node>, span: Spans, k: int, left: bool, node: Node, key: u64, value: u64)
    requires Shaped(h, null, order, span) && k == 0
    ensures Shaped(Attached(h, null, left, node, key, value), node,
                   InsertAt(order, k, node), Shifted(span, k, left, node))
  {
    assert forall n :: n in span ==> 0 <= span[n].pos < |order|;
    assert h == map[] && span == map[] && order == [];
    SingleShaped(node, key, value);
    assert Attached(h, null, left, node, key, value) == map[node := Cell(null, null, null, key, value)];
    assert Shifted(span, k, left, node) == map[node := Span(0, 0, 1)];
    assert InsertAt(order, k, node) == [node];
  }

  lemma SingleShaped(node: Node, key: u64, value: u64)
    ensures Shaped(map[node := Cell(null, null, null, key, value)], node, [node], map[node := Span(0, 0, 1)])
  {
    var h, span := map[node := Cell(null, null, null, key, value)], map[node := Span(0, 0, 1)];
    assert Down(h, span, node) && Up(h, node, node);
  }
}
