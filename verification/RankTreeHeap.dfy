/** How a rank-balanced tree lies in memory: every node has an entry with its two children,
    its parent and the two red bits. */
module RankTreeLayout {
  import opened RankTree

  datatype Entry = Entry(left: Ptr, right: Ptr, parent: Ptr, redL: bool, redR: bool)

  type Mem = map<Ptr, Entry>

  function IdOf(t: Tree): Ptr {
    if t.Nil? then 0 else t.id
  }

  /** The node above the hole. */
  function Up(c: Context): Ptr {
    if c.Top? then 0 else c.id
  }

  /** One level of the path, with the hole filled. */
  function Attach(c: Context, t: Tree): Tree
    requires !c.Top?
  {
    if c.LeftOf? then Node(t, c.id, c.redL, c.redR, c.sibling) else Node(c.sibling, c.id, c.redL, c.redR, t)
  }

  function RootOf(c: Context, hole: Ptr): Ptr {
    if c.Top? then hole else RootOf(c.up, c.id)
  }

  ghost function Ids(t: Tree): set<Ptr> {
    if t.Nil? then {} else Ids(t.left) + {t.id} + Ids(t.right)
  }

  ghost function PathIds(c: Context): set<Ptr> {
    if c.Top? then {} else Ids(c.sibling) + {c.id} + PathIds(c.up)
  }

  /** No node occurs twice. */
  ghost predicate Distinct(t: Tree) {
    t.Node? ==>
      && Distinct(t.left) && Distinct(t.right)
      && t.id !in Ids(t.left) && t.id !in Ids(t.right) && Ids(t.left) !! Ids(t.right)
  }

  ghost predicate PathDistinct(c: Context) {
    !c.Top? ==>
      && Distinct(c.sibling) && PathDistinct(c.up)
      && c.id !in Ids(c.sibling) && c.id !in PathIds(c.up) && Ids(c.sibling) !! PathIds(c.up)
  }

  /** `t` lies in memory under the parent `up`. */
  ghost predicate Lies(m: Mem, t: Tree, up: Ptr) {
    t.Node? ==>
      && t.id != 0 && t.id in m
      && m[t.id] == Entry(IdOf(t.left), IdOf(t.right), up, t.redL, t.redR)
      && Lies(m, t.left, t.id) && Lies(m, t.right, t.id)
  }

  /** The path `c` lies in memory and its hole holds the pointer `hole`. */
  ghost predicate PathLies(m: Mem, c: Context, hole: Ptr) {
    !c.Top? ==>
      && c.id != 0 && c.id in m
      && m[c.id] == Entry(if c.LeftOf? then hole else IdOf(c.sibling),
                          if c.LeftOf? then IdOf(c.sibling) else hole, Up(c.up), c.redL, c.redR)
      && Lies(m, c.sibling, c.id) && PathLies(m, c.up, c.id)
  }

  /** Memory holds `t` inside the path `c`, reached from `root`. */
  ghost predicate Holds(m: Mem, root: Ptr, c: Context, t: Tree) {
    && Lies(m, t, Up(c)) && PathLies(m, c, IdOf(t)) && root == RootOf(c, IdOf(t))
    && Distinct(t) && PathDistinct(c) && Ids(t) !! PathIds(c)
  }

  /** Looking one level up, or one level down, is the same memory. */
  lemma Refocus(m: Mem, root: Ptr, c: Context, t: Tree)
    requires !c.Top?
    ensures Holds(m, root, c, t) <==> Holds(m, root, c.up, Attach(c, t))
  {
    var u := Attach(c, t);
    assert Ids(u) == Ids(t) + {c.id} + Ids(c.sibling);
    if Holds(m, root, c.up, u) {
      assert Lies(m, u, Up(c.up));
    }
  }

  lemma {:induction false} Whole(m: Mem, root: Ptr, c: Context, t: Tree)
    ensures Holds(m, root, c, t) <==> Holds(m, root, Top, Plug(c, t))
    decreases c
  {
    if !c.Top? {
      Refocus(m, root, c, t);
      Whole(m, root, c.up, Attach(c, t));
    }
  }

  // ---- paths ----

  /** The path `inner`, continued upwards by `outer`. */
  function Compose(inner: Context, outer: Context): Context {
    match inner
    case Top => outer
    case LeftOf(p, a, b, sib, up) => LeftOf(p, a, b, sib, Compose(up, outer))
    case RightOf(sib, p, a, b, up) => RightOf(sib, p, a, b, Compose(up, outer))
  }

  lemma {:induction false} PlugCompose(inner: Context, outer: Context, t: Tree)
    ensures Plug(Compose(inner, outer), t) == Plug(outer, Plug(inner, t))
    decreases inner
  {
    if !inner.Top? {
      PlugCompose(inner.up, outer, Attach(inner, t));
    }
  }

  lemma HoldsCompose(m: Mem, root: Ptr, inner: Context, outer: Context, t: Tree)
    ensures Holds(m, root, Compose(inner, outer), t) <==> Holds(m, root, outer, Plug(inner, t))
  {
    PlugCompose(inner, outer, t);
    Whole(m, root, Compose(inner, outer), t);
    Whole(m, root, outer, Plug(inner, t));
  }

  lemma {:induction false} InIds(t: Tree, x: Ptr)
    ensures x in Ids(t) <==> x in InOrder(t)
  {
    if t.Node? {
      InIds(t.left, x);
      InIds(t.right, x);
    }
  }

  /** Every node of a tree is reached by some path. */
  lemma {:induction false} PathTo(t: Tree, x: Ptr) returns (c: Context, u: Tree)
    requires x in Ids(t)
    ensures u.Node? && u.id == x && Plug(c, u) == t
  {
    if x == t.id {
      c, u := Top, t;
    } else {
      var inner;
      var outer;
      if x in Ids(t.left) {
        inner, u := PathTo(t.left, x);
        outer := LeftOf(t.id, t.redL, t.redR, t.right, Top);
      } else {
        inner, u := PathTo(t.right, x);
        outer := RightOf(t.left, t.id, t.redL, t.redR, Top);
      }
      c := Compose(inner, outer);
      PlugCompose(inner, outer, u);
    }
  }

  // ---- entries as the macros change them ----

  /** RB_SWAP_CHILD below a parent. */
  function SwapMem(m: Mem, up: Ptr, out: Ptr, in_: Ptr): (r: Mem)
    requires up != 0 ==> up in m
    ensures r.Keys == m.Keys
  {
    if up == 0 then m
    else if m[up].left == out then m[up := m[up].(left := in_)]
    else m[up := m[up].(right := in_)]
  }

  /** RB_SET_PARENT of a child that may be null. */
  function ParentMem(m: Mem, child: Ptr, up: Ptr): (r: Mem)
    requires child != 0 ==> child in m
    ensures r.Keys == m.Keys
  {
    if child == 0 then m else m[child := m[child].(parent := up)]
  }

  /** Taking out a node with at most one child puts that child in its place. */
  lemma Splice(m: Mem, m': Mem, root: Ptr, root': Ptr, c: Context, t: Tree, child: Tree)
    requires Holds(m, root, c, t) && t.Node?
    requires (t.left.Nil? && child == t.right) || (t.right.Nil? && child == t.left)
    requires !c.Top? ==> c.id in m
    requires child.Node? ==> child.id in SwapMem(m, Up(c), t.id, IdOf(child))
    requires m' == ParentMem(SwapMem(m, Up(c), t.id, IdOf(child)), IdOf(child), Up(c))
    requires root' == if c.Top? then IdOf(child) else root
    ensures Holds(m', root', c, child)
  {
    if !c.Top? {
      Side(m, root, c, t);
      assert c.id in PathIds(c);
    }
    assert Ids(child) <= Ids(t) && Lies(m, child, t.id) && Distinct(child);
    LiesIds(m, child, t.id);
    PathLiesIds(m, c, t.id);
    assert child.Node? ==> child.id in Ids(child);
    Frame(m, m', child, t.id, Up(c));
    PathFrame(m, m', c, t.id, IdOf(child));
  }

  /** The entries that change when `e` takes the place of `x`. */
  ghost predicate Replaced(m: Mem, m': Mem, x: Ptr, l: Ptr, r: Ptr, c: Context, e: Ptr) {
    && x in m && e in m' && m'[e] == m[x]
    && (forall i :: i in m && i !in {l, r, Up(c), e} ==> i in m' && m'[i] == m[i])
    && (l != 0 ==> l in m && l in m' && m'[l] == m[l].(parent := e))
    && (r != 0 ==> r in m && r in m' && m'[r] == m[r].(parent := e))
    && (!c.Top? ==>
          && c.id in m && c.id in m'
          && m'[c.id] == if c.LeftOf? then m[c.id].(left := e) else m[c.id].(right := e))
  }

  lemma ReplacedMem(m: Mem, x: Ptr, l: Ptr, r: Ptr, c: Context, e: Ptr)
    requires var up := Up(c);
             && x in m && x !in {l, r, up, e} && e !in {l, r, up}
             && (l == 0 || l !in {r, up}) && (r == 0 || r != up)
             && (l != 0 ==> l in m) && (r != 0 ==> r in m)
             && (c.Top? || (up != 0 && up in m && (m[up].left == x <==> c.LeftOf?)))
    ensures Replaced(m, SwapMem(ParentMem(ParentMem(m, l, e), r, e)[e := m[x]], Up(c), x, e), x, l, r, c, e)
  {
  }

  lemma ReplacedHolds(m: Mem, m': Mem, root: Ptr, c: Context, t: Tree, e: Ptr)
    requires Holds(m, root, c, t) && t.Node?
    requires e != 0 && e !in Ids(t) && e !in PathIds(c)
    requires Replaced(m, m', t.id, IdOf(t.left), IdOf(t.right), c, e)
    ensures Holds(m', if c.Top? then e else root, c, t.(id := e))
  {
    ReplacedBelow(m, m', root, c, t, e);
    ReplacedAbove(m, m', root, c, t, e);
    assert Ids(t.(id := e)) == Ids(t.left) + {e} + Ids(t.right);
  }

  lemma ReplacedBelow(m: Mem, m': Mem, root: Ptr, c: Context, t: Tree, e: Ptr)
    requires Holds(m, root, c, t) && t.Node? && e !in Ids(t)
    requires Replaced(m, m', t.id, IdOf(t.left), IdOf(t.right), c, e)
    ensures Lies(m', t.left, e) && Lies(m', t.right, e)
  {
    assert Ids(t) == Ids(t.left) + {t.id} + Ids(t.right);
    assert !c.Top? ==> c.id in PathIds(c);
    LiesIds(m, t, Up(c));
    assert t.left.Node? ==> t.left.id in Ids(t.left);
    assert t.right.Node? ==> t.right.id in Ids(t.right);
    Frame(m, m', t.left, t.id, e);
    Frame(m, m', t.right, t.id, e);
  }

  lemma ReplacedAbove(m: Mem, m': Mem, root: Ptr, c: Context, t: Tree, e: Ptr)
    requires Holds(m, root, c, t) && t.Node? && e !in PathIds(c)
    requires Replaced(m, m', t.id, IdOf(t.left), IdOf(t.right), c, e)
    ensures PathLies(m', c, e) && (!c.Top? ==> RootOf(c, e) == root)
  {
    PathLiesIds(m, c, t.id);
    assert t.left.Node? ==> t.left.id in Ids(t);
    assert t.right.Node? ==> t.right.id in Ids(t);
    PathFrame(m, m', c, t.id, e);
  }

  /** Putting a node from outside in a node's place. */
  lemma Replace(m: Mem, m': Mem, root: Ptr, root': Ptr, c: Context, t: Tree, e: Ptr)
    requires Holds(m, root, c, t) && t.Node?
    requires e != 0 && e !in Ids(t) && e !in PathIds(c)
    requires !c.Top? ==> c.id in m
    requires t.id in m && (t.left.Node? ==> t.left.id in m) && (t.right.Node? ==> t.right.id in m)
    requires m' == SwapMem(ParentMem(ParentMem(m, IdOf(t.left), e), IdOf(t.right), e)[e := m[t.id]], Up(c), t.id, e)
    requires root' == if c.Top? then e else root
    ensures Holds(m', root', c, t.(id := e))
  {
    if !c.Top? {
      Side(m, root, c, t);
      assert c.id in PathIds(c);
    }
    LiesIds(m, t, Up(c));
    PathLiesIds(m, c, t.id);
    assert Ids(t) == Ids(t.left) + {t.id} + Ids(t.right);
    assert t.left.Node? ==> t.left.id in Ids(t.left);
    assert t.right.Node? ==> t.right.id in Ids(t.right);
    ReplacedMem(m, t.id, IdOf(t.left), IdOf(t.right), c, e);
    ReplacedHolds(m, m', root, c, t, e);
  }

  /** Hanging a fresh leaf into an empty hole. */
  lemma Hang(m: Mem, m': Mem, root: Ptr, root': Ptr, c: Context, e: Ptr)
    requires Holds(m, root, c, Nil) && e != 0 && e !in PathIds(c)
    requires !c.Top? ==> c.id in m
    requires var m1 := m[e := Entry(0, 0, Up(c), false, false)];
             m' == match c
                   case Top => m1
                   case LeftOf(p, _, _, _, _) => m1[p := m1[p].(left := e)]
                   case RightOf(_, p, _, _, _) => m1[p := m1[p].(right := e)]
    requires root' == if c.Top? then e else root
    ensures Holds(m', root', c, Node(Nil, e, false, false, Nil))
  {
    PathFrame(m, m', c, 0, e);
    var leaf := Node(Nil, e, false, false, Nil);
    assert Ids(leaf) == {e};
    assert !c.Top? ==> c.id in PathIds(c);
  }

  /** A subtree none of whose entries changes, save for the parent of its root, still lies
      in memory. */
  lemma {:induction false} Frame(m: Mem, m': Mem, t: Tree, up: Ptr, up': Ptr)
    requires Lies(m, t, up) && Distinct(t)
    requires forall i :: i in Ids(t) && i != IdOf(t) && i in m ==> i in m' && m'[i] == m[i]
    requires t.Node? ==> t.id in m' && m'[t.id] == m[t.id].(parent := up')
    ensures Lies(m', t, up')
  {
    if t.Node? {
      Frame(m, m', t.left, t.id, t.id);
      Frame(m, m', t.right, t.id, t.id);
    }
  }

  lemma Same(m: Mem, m': Mem, t: Tree, up: Ptr)
    requires Lies(m, t, up) && Distinct(t)
    requires forall i :: i in Ids(t) && i in m ==> i in m' && m'[i] == m[i]
    ensures Lies(m', t, up)
  {
    Frame(m, m', t, up, up);
  }

  /** A path of whose entries only the hole's pointer changes still lies in memory. */
  lemma {:induction false} PathFrame(m: Mem, m': Mem, c: Context, hole: Ptr, hole': Ptr)
    requires PathLies(m, c, hole) && PathDistinct(c)
    requires forall i :: i in PathIds(c) && i != Up(c) && i in m ==> i in m' && m'[i] == m[i]
    requires c.LeftOf? ==> c.id in m' && m'[c.id] == m[c.id].(left := hole')
    requires c.RightOf? ==> c.id in m' && m'[c.id] == m[c.id].(right := hole')
    ensures PathLies(m', c, hole')
    ensures !c.Top? ==> RootOf(c, hole) == RootOf(c, hole')
  {
    if !c.Top? {
      Same(m, m', c.sibling, c.id);
      PathFrame(m, m', c.up, c.id, c.id);
    }
  }

  /** The nodes of a tree in memory are not null and have entries. */
  lemma {:induction false} LiesIds(m: Mem, t: Tree, up: Ptr)
    requires Lies(m, t, up)
    ensures 0 !in Ids(t) && forall i :: i in Ids(t) ==> i in m
  {
    if t.Node? {
      LiesIds(m, t.left, t.id);
      LiesIds(m, t.right, t.id);
    }
  }

  lemma {:induction false} PathLiesIds(m: Mem, c: Context, hole: Ptr)
    requires PathLies(m, c, hole)
    ensures 0 !in PathIds(c) && forall i :: i in PathIds(c) ==> i in m
  {
    if !c.Top? {
      LiesIds(m, c.sibling, c.id);
      PathLiesIds(m, c.up, c.id);
    }
  }

  /** Which child of its parent a node is can be read off the parent's left pointer. */
  lemma Side(m: Mem, root: Ptr, c: Context, t: Tree)
    requires Holds(m, root, c, t) && !c.Top? && t.Node?
    ensures c.id in m && (m[c.id].left == t.id <==> c.LeftOf?) && (m[c.id].right == t.id <==> c.RightOf?)
  {
    assert t.id in Ids(t);
    assert c.sibling.Node? ==> c.sibling.id in Ids(c.sibling) && c.sibling.id in PathIds(c);
  }
}

/** The tree operations, changing entries in place. */
module RankTreeHeap {
  import opened RankTree
  import opened RankTreeLayout

  class Head {
    var root: Ptr
    var entry: Mem
    var fd: map<Ptr, int>
    ghost var tree: Tree

    /** The tree, seen from the node at which an operation works. */
    ghost predicate At(c: Context, t: Tree)
      reads this`root, this`entry
    {
      Holds(entry, root, c, t)
    }

    method FlipLeft(p: Ptr, ghost c: Context, ghost t: Tree)
      requires At(c, t) && t.Node? && t.id == p
      modifies `entry
      ensures At(c, t.(redL := !t.redL))
    {
      entry := entry[p := entry[p].(redL := !entry[p].redL)];
      Touched(old(entry), entry, c, t);
    }

    method FlipRight(p: Ptr, ghost c: Context, ghost t: Tree)
      requires At(c, t) && t.Node? && t.id == p
      modifies `entry
      ensures At(c, t.(redR := !t.redR))
    {
      entry := entry[p := entry[p].(redR := !entry[p].redR)];
      Touched(old(entry), entry, c, t);
    }

    /** RB_BITS &= ~RB_RED_MASK, or |= RB_RED_MASK. */
    method SetBits(p: Ptr, red: bool, ghost c: Context, ghost t: Tree)
      requires At(c, t) && t.Node? && t.id == p
      modifies `entry
      ensures At(c, t.(redL := red, redR := red))
    {
      entry := entry[p := entry[p].(redL := red, redR := red)];
      Touched(old(entry), entry, c, t);
    }

    /** Nothing but the entry of the node in focus has changed. */
    static lemma Touched(m: Mem, m': Mem, c: Context, t: Tree)
      requires t.Node? && Lies(m, t, Up(c)) && PathLies(m, c, t.id)
      requires Distinct(t) && PathDistinct(c) && Ids(t) !! PathIds(c)
      requires forall i :: i in m && i != t.id ==> i in m' && m'[i] == m[i]
      ensures Lies(m', t.left, t.id) && Lies(m', t.right, t.id) && PathLies(m', c, t.id)
    {
      Same(m, m', t.left, t.id);
      Same(m, m', t.right, t.id);
      assert Up(c) != t.id;
      if !c.Top? {
        assert m[c.id].(left := m[c.id].left) == m[c.id] == m[c.id].(right := m[c.id].right);
      }
      PathFrame(m, m', c, t.id, t.id);
    }

    method SwapChild(out: Ptr, in_: Ptr)
      requires out in entry && (entry[out].parent != 0 ==> entry[out].parent in entry)
      modifies `entry, `root
      ensures var p := old(entry[out].parent);
              if p == 0 then root == in_ && entry == old(entry)
              else root == old(root) && entry == old(entry)[p :=
                if old(entry[p].left) == out then old(entry[p]).(left := in_) else old(entry[p]).(right := in_)]
    {
      var p := entry[out].parent;
      if p == 0 {
        root := in_;
      } else if out == entry[p].left {
        entry := entry[p := entry[p].(left := in_)];
      } else {
        entry := entry[p := entry[p].(right := in_)];
      }
    }

    /** The pointer changes of RB_ROTATE_LEFT. */
    method TurnLeft(elm: Ptr) returns (tmp: Ptr)
      requires elm in entry && elm != 0 && entry[elm].right in entry && entry[elm].right != elm
      requires var tmp := entry[elm].right; var b, up := entry[tmp].left, entry[elm].parent;
               && (b != 0 ==> b in entry && b != elm && b != tmp && b != up)
               && (up != 0 ==> up in entry && up != elm && up != tmp)
      modifies `entry, `root
      ensures tmp == old(entry[elm].right)
      ensures var b, up := old(entry[tmp].left), old(entry[elm].parent);
              && (forall i :: i in old(entry) && i != elm && i != tmp && i != b && (up == 0 || i != up) ==>
                    i in entry && entry[i] == old(entry)[i])
              && (b != 0 ==> b in entry && entry[b] == old(entry)[b].(parent := elm))
              && elm in entry && entry[elm] == old(entry)[elm].(right := b, parent := tmp)
              && tmp in entry && entry[tmp] == old(entry)[tmp].(left := elm, parent := up)
              && (up != 0 ==>
                    && up in entry && root == old(root)
                    && entry[up] == if old(entry[up].left) == elm then old(entry[up]).(left := tmp)
                                    else old(entry[up]).(right := tmp))
              && (up == 0 ==> root == tmp)
    {
      tmp := entry[elm].right;
      entry := entry[elm := entry[elm].(right := entry[tmp].left)];
      if entry[elm].right != 0 {
        entry := entry[entry[elm].right := entry[entry[elm].right].(parent := elm)];
      }
      entry := entry[tmp := entry[tmp].(parent := entry[elm].parent)];
      SwapChild(elm, tmp);
      entry := entry[tmp := entry[tmp].(left := elm)];
      entry := entry[elm := entry[elm].(parent := tmp)];
    }

    method RotateLeft(elm: Ptr, ghost c: Context, ghost t: Tree) returns (tmp: Ptr)
      requires At(c, t) && t.Node? && t.id == elm && t.right.Node?
      modifies `entry, `root
      ensures tmp == t.right.id && At(c, RankTree.RotateLeft(t))
    {
      OpenRight(entry, root, c, t);
      tmp := TurnLeft(elm);
      RotatedLeft(old(entry), entry, old(root), root, c, t);
    }

    /** The pointer changes of RB_ROTATE_RIGHT. */
    method TurnRight(elm: Ptr) returns (tmp: Ptr)
      requires elm in entry && elm != 0 && entry[elm].left in entry && entry[elm].left != elm
      requires var tmp := entry[elm].left; var b, up := entry[tmp].right, entry[elm].parent;
               && (b != 0 ==> b in entry && b != elm && b != tmp && b != up)
               && (up != 0 ==> up in entry && up != elm && up != tmp)
      modifies `entry, `root
      ensures tmp == old(entry[elm].left)
      ensures var b, up := old(entry[tmp].right), old(entry[elm].parent);
              && (forall i :: i in old(entry) && i != elm && i != tmp && i != b && (up == 0 || i != up) ==>
                    i in entry && entry[i] == old(entry)[i])
              && (b != 0 ==> b in entry && entry[b] == old(entry)[b].(parent := elm))
              && elm in entry && entry[elm] == old(entry)[elm].(left := b, parent := tmp)
              && tmp in entry && entry[tmp] == old(entry)[tmp].(right := elm, parent := up)
              && (up != 0 ==>
                    && up in entry && root == old(root)
                    && entry[up] == if old(entry[up].left) == elm then old(entry[up]).(left := tmp)
                                    else old(entry[up]).(right := tmp))
              && (up == 0 ==> root == tmp)
    {
      tmp := entry[elm].left;
      entry := entry[elm := entry[elm].(left := entry[tmp].right)];
      if entry[elm].left != 0 {
        entry := entry[entry[elm].left := entry[entry[elm].left].(parent := elm)];
      }
      entry := entry[tmp := entry[tmp].(parent := entry[elm].parent)];
      SwapChild(elm, tmp);
      entry := entry[tmp := entry[tmp].(right := elm)];
      entry := entry[elm := entry[elm].(parent := tmp)];
    }

    method RotateRight(elm: Ptr, ghost c: Context, ghost t: Tree) returns (tmp: Ptr)
      requires At(c, t) && t.Node? && t.id == elm && t.left.Node?
      modifies `entry, `root
      ensures tmp == t.left.id && At(c, RankTree.RotateRight(t))
    {
      OpenLeft(entry, root, c, t);
      tmp := TurnRight(elm);
      RotatedRight(old(entry), entry, old(root), root, c, t);
    }

    /** Node `y` hangs below `x` with the three subtrees a, b, d around them; the
        nodes and subtrees are pairwise disjoint, and disjoint from the path. */
    static ghost predicate Apart(m: Mem, c: Context, x: Ptr, y: Ptr, a: Tree, b: Tree, d: Tree) {
      && x != 0 && y != 0 && x in m && y in m && x != y && x !in PathIds(c) && y !in PathIds(c)
      && Distinct(a) && Distinct(b) && Distinct(d) && PathDistinct(c) && PathLies(m, c, x)
      && x !in Ids(a) && x !in Ids(b) && x !in Ids(d) && y !in Ids(a) && y !in Ids(b) && y !in Ids(d)
      && Ids(a) !! Ids(b) && Ids(a) !! Ids(d) && Ids(b) !! Ids(d)
      && Ids(a) !! PathIds(c) && Ids(b) !! PathIds(c) && Ids(d) !! PathIds(c)
      && (c.Top? || (c.id in m && c.id != 0 && c.id in PathIds(c)))
      && (b.Nil? || (b.id in Ids(b) && b.id in m && b.id != 0))
    }

    static lemma OpenRight(m: Mem, root: Ptr, c: Context, t: Tree)
      requires Holds(m, root, c, t) && t.Node? && t.right.Node?
      ensures Apart(m, c, t.id, t.right.id, t.left, t.right.left, t.right.right)
      ensures Lies(m, t.left, t.id) && Lies(m, t.right.left, t.right.id) && Lies(m, t.right.right, t.right.id)
      ensures m[t.id] == Entry(IdOf(t.left), t.right.id, Up(c), t.redL, t.redR)
      ensures var y := t.right; m[y.id] == Entry(IdOf(y.left), IdOf(y.right), t.id, y.redL, y.redR)
    {
      var y := t.right;
      assert Lies(m, y, t.id) && Distinct(y);
      assert Ids(t) == Ids(t.left) + {t.id} + Ids(y);
      assert Ids(y) == Ids(y.left) + {y.id} + Ids(y.right);
      assert forall b :: (b == y.left || b == y.right) && b.Node? ==> b.id in Ids(b) && Lies(m, b, y.id);
    }

    static lemma OpenLeft(m: Mem, root: Ptr, c: Context, t: Tree)
      requires Holds(m, root, c, t) && t.Node? && t.left.Node?
      ensures Apart(m, c, t.id, t.left.id, t.left.left, t.left.right, t.right)
      ensures Lies(m, t.right, t.id) && Lies(m, t.left.left, t.left.id) && Lies(m, t.left.right, t.left.id)
      ensures m[t.id] == Entry(t.left.id, IdOf(t.right), Up(c), t.redL, t.redR)
      ensures var y := t.left; m[y.id] == Entry(IdOf(y.left), IdOf(y.right), t.id, y.redL, y.redR)
    {
      var y := t.left;
      assert Lies(m, y, t.id) && Distinct(y);
      assert Ids(t) == Ids(y) + {t.id} + Ids(t.right);
      assert Ids(y) == Ids(y.left) + {y.id} + Ids(y.right);
      assert forall b :: (b == y.left || b == y.right) && b.Node? ==> b.id in Ids(b) && Lies(m, b, y.id);
    }

    /** What memory must look like after `x` and `y` have changed places over subtree `b`. */
    static ghost predicate Turned(m: Mem, m': Mem, root: Ptr, root': Ptr, c: Context, x: Ptr, y: Ptr, b: Ptr) {
      && (forall i :: i in m && i != x && i != y && i != b && (c.Top? || i != c.id) ==> i in m' && m'[i] == m[i])
      && (b != 0 ==> b in m && b in m' && m'[b] == m[b].(parent := x))
      && (c.LeftOf? ==> c.id in m && c.id in m' && m'[c.id] == m[c.id].(left := y))
      && (c.RightOf? ==> c.id in m && c.id in m' && m'[c.id] == m[c.id].(right := y))
      && root' == if c.Top? then y else root
    }

    static lemma PiecesStay(m: Mem, m': Mem, root: Ptr, root': Ptr, c: Context, x: Ptr, y: Ptr,
                            a: Tree, b: Tree, d: Tree, upA: Ptr, upD: Ptr)
      requires Apart(m, c, x, y, a, b, d) && Lies(m, a, upA) && Lies(m, b, y) && Lies(m, d, upD)
      requires Turned(m, m', root, root', c, x, y, IdOf(b))
      ensures Lies(m', a, upA) && Lies(m', b, x) && Lies(m', d, upD) && PathLies(m', c, y)
      ensures !c.Top? ==> RootOf(c, x) == RootOf(c, y)
    {
      LiesIds(m, a, upA);
      LiesIds(m, d, upD);
      PathLiesIds(m, c, x);
      Same(m, m', a, upA);
      Same(m, m', d, upD);
      Frame(m, m', b, y, x);
      PathFrame(m, m', c, x, y);
    }

    static lemma RotatedLeft(m: Mem, m': Mem, root: Ptr, root': Ptr, c: Context, t: Tree)
      requires Holds(m, root, c, t) && t.Node? && t.right.Node?
      requires Turned(m, m', root, root', c, t.id, t.right.id, IdOf(t.right.left))
      requires var y := t.right;
               && t.id in m' && m'[t.id] == Entry(IdOf(t.left), IdOf(y.left), y.id, t.redL, t.redR)
               && y.id in m' && m'[y.id] == Entry(t.id, IdOf(y.right), Up(c), y.redL, y.redR)
      ensures Holds(m', root', c, RankTree.RotateLeft(t))
    {
      OpenRight(m, root, c, t);
      var x, y := t.id, t.right.id;
      var a, b, d := t.left, t.right.left, t.right.right;
      PiecesStay(m, m', root, root', c, x, y, a, b, d, x, y);
      var low := t.(right := b);
      assert Lies(m', low, y) && Distinct(low);
      assert Ids(low) == Ids(a) + {x} + Ids(b);
      assert Ids(RankTree.RotateLeft(t)) == Ids(low) + {y} + Ids(d);
    }

    static lemma RotatedRight(m: Mem, m': Mem, root: Ptr, root': Ptr, c: Context, t: Tree)
      requires Holds(m, root, c, t) && t.Node? && t.left.Node?
      requires Turned(m, m', root, root', c, t.id, t.left.id, IdOf(t.left.right))
      requires var y := t.left;
               && t.id in m' && m'[t.id] == Entry(IdOf(y.right), IdOf(t.right), y.id, t.redL, t.redR)
               && y.id in m' && m'[y.id] == Entry(IdOf(y.left), t.id, Up(c), y.redL, y.redR)
      ensures Holds(m', root', c, RankTree.RotateRight(t))
    {
      OpenLeft(m, root, c, t);
      var x, y := t.id, t.left.id;
      var a, b, d := t.left.left, t.left.right, t.right;
      PiecesStay(m, m', root, root', c, x, y, a, b, d, y, x);
      var low := t.(left := b);
      assert Lies(m', low, y) && Distinct(low);
      assert Ids(low) == Ids(b) + {x} + Ids(d);
      assert Ids(RankTree.RotateRight(t)) == Ids(a) + {y} + Ids(low);
    }

    // ---- RB_INSERT_COLOR ----

    /** One pass of the loop for a left child: true to go on at the parent. */
    method InsertLeft(parent: Ptr, elm: Ptr, ghost c: Context, ghost t: Tree) returns (climb: bool)
      requires At(c, t) && t.Node? && t.id == elm && c.LeftOf? && c.id == parent
      requires Balanced(t) && Grown(t) && Fits(c, Rank(t) - 1)
      modifies `entry, `root
      ensures climb ==> var u := Node(t, parent, false, true, c.sibling);
                && At(c.up, u) && Balanced(u) && Grown(u) && Fits(c.up, Rank(u) - 1)
                && InsertFix(c.up, u) == InsertFix(c, t)
      ensures !climb ==> At(Top, InsertFix(c, t))
    {
      Refocus(entry, root, c, t);
      RankSign(t);
      RankSign(c.sibling);
      ghost var u, up := Attach(c, t), c.up;
      if entry[parent].redL {
        FlipLeft(parent, up, u);
        Whole(entry, root, up, u.(redL := false));
        return false;
      }
      FlipRight(parent, up, u);
      u := u.(redR := !u.redR);
      if entry[parent].redR {
        return true;
      }
      u := FixLeft(parent, elm, up, u, c.sibling, t);
      Whole(entry, root, up, u);
      return false;
    }

    /** One pass of the loop for a right child: true to go on at the parent. */
    method InsertRight(parent: Ptr, elm: Ptr, ghost c: Context, ghost t: Tree) returns (climb: bool)
      requires At(c, t) && t.Node? && t.id == elm && c.RightOf? && c.id == parent
      requires Balanced(t) && Grown(t) && Fits(c, Rank(t) - 1)
      modifies `entry, `root
      ensures climb ==> var u := Node(c.sibling, parent, true, false, t);
                && At(c.up, u) && Balanced(u) && Grown(u) && Fits(c.up, Rank(u) - 1)
                && InsertFix(c.up, u) == InsertFix(c, t)
      ensures !climb ==> At(Top, InsertFix(c, t))
    {
      Refocus(entry, root, c, t);
      RankSign(t);
      RankSign(c.sibling);
      ghost var u, up := Attach(c, t), c.up;
      if entry[parent].redR {
        FlipRight(parent, up, u);
        Whole(entry, root, up, u.(redR := false));
        return false;
      }
      FlipLeft(parent, up, u);
      u := u.(redL := !u.redL);
      if entry[parent].redL {
        return true;
      }
      u := FixRight(parent, elm, up, u, c.sibling, t);
      Whole(entry, root, up, u);
      return false;
    }

    /** One pass of the loop, on whichever side the node is. */
    method InsertPass(parent: Ptr, elm: Ptr, ghost c: Context, ghost t: Tree) returns (climb: bool, ghost u: Tree)
      requires At(c, t) && t.Node? && t.id == elm && !c.Top? && c.id == parent
      requires Balanced(t) && Grown(t) && Fits(c, Rank(t) - 1)
      modifies `entry, `root
      ensures climb ==>
                && At(c.up, u) && u.Node? && u.id == parent && Balanced(u) && Grown(u)
                && Fits(c.up, Rank(u) - 1) && InsertFix(c.up, u) == InsertFix(c, t)
      ensures !climb ==> At(Top, InsertFix(c, t))
    {
      Side(entry, root, c, t);
      if entry[parent].left == elm {
        climb := InsertLeft(parent, elm, c, t);
        u := Node(t, parent, false, true, c.sibling);
      } else {
        climb := InsertRight(parent, elm, c, t);
        u := Node(c.sibling, parent, true, false, t);
      }
    }

    method InsertColor(elm0: Ptr, ghost c0: Context, ghost t0: Tree)
      requires At(c0, t0) && t0.Node? && t0.id == elm0
      requires Balanced(t0) && Grown(t0) && Fits(c0, Rank(t0) - 1)
      modifies `entry, `root
      ensures At(Top, InsertFix(c0, t0))
    {
      var elm := elm0;
      ghost var c, t := c0, t0;
      while entry[elm].parent != 0
        invariant At(c, t) && t.Node? && t.id == elm
        invariant Balanced(t) && Grown(t) && Fits(c, Rank(t) - 1)
        invariant InsertFix(c, t) == InsertFix(c0, t0)
        decreases c
      {
        var parent := entry[elm].parent;
        var climb;
        ghost var u;
        climb, u := InsertPass(parent, elm, c, t);
        if !climb {
          return;
        }
        elm := parent;
        c, t := c.up, u;
      }
    }

    /** The rotations of the left branch, for a node at its parent's rank. */
    method FixLeft(parent: Ptr, elm0: Ptr, ghost up: Context, ghost u0: Tree, ghost sib: Tree, ghost t: Tree)
      returns (ghost u: Tree)
      requires u0 == Node(t, parent, false, false, sib) && At(up, u0) && t.Node? && t.id == elm0
      requires Balanced(t) && Grown(t) && Balanced(sib) && Rank(t) == Rank(sib) + 2
      modifies `entry, `root
      ensures u == RightHeavyFix(t, parent, sib) && At(up, u)
    {
      var elm := elm0;
      u := u0;
      ghost var c := LeftOf(parent, false, false, sib, up);
      RankSign(sib);
      RankSign(t.left);
      RankSign(t.right);
      Refocus(entry, root, c, t);
      if !entry[elm].redR {
        ghost var low := t.(redL := !t.redL);
        FlipLeft(elm, c, t);
        var child := RotateLeft(elm, c, low);
        ghost var high := RankTree.RotateLeft(low);
        RankSign(t.right.left);
        RankSign(t.right.right);
        if entry[child].redL {
          low := high.left;
          ghost var cl := LeftOf(child, high.redL, high.redR, high.right, c);
          Refocus(entry, root, cl, low);
          FlipRight(elm, cl, low);
          high := high.(left := low.(redR := !low.redR));
          Refocus(entry, root, cl, high.left);
          Refocus(entry, root, c, high);
          u := u.(left := high);
        } else if entry[child].redR {
          Refocus(entry, root, c, high);
          u := u.(left := high);
          FlipLeft(parent, up, u);
          u := u.(redL := !u.redL);
        } else {
          Refocus(entry, root, c, high);
          u := u.(left := high);
        }
        elm := child;
      }
      elm := RotateRight(parent, up, u);
      u := RankTree.RotateRight(u);
      SetBits(elm, false, up, u);
      u := u.(redL := false, redR := false);
    }

    method FixRight(parent: Ptr, elm0: Ptr, ghost up: Context, ghost u0: Tree, ghost sib: Tree, ghost t: Tree)
      returns (ghost u: Tree)
      requires u0 == Node(sib, parent, false, false, t) && At(up, u0) && t.Node? && t.id == elm0
      requires Balanced(t) && Grown(t) && Balanced(sib) && Rank(t) == Rank(sib) + 2
      modifies `entry, `root
      ensures u == LeftHeavyFix(sib, parent, t) && At(up, u)
    {
      var elm := elm0;
      u := u0;
      ghost var c := RightOf(sib, parent, false, false, up);
      RankSign(sib);
      RankSign(t.left);
      RankSign(t.right);
      Refocus(entry, root, c, t);
      if !entry[elm].redL {
        ghost var low := t.(redR := !t.redR);
        FlipRight(elm, c, t);
        var child := RotateRight(elm, c, low);
        ghost var high := RankTree.RotateRight(low);
        RankSign(t.left.left);
        RankSign(t.left.right);
        if entry[child].redR {
          low := high.right;
          ghost var cl := RightOf(high.left, child, high.redL, high.redR, c);
          Refocus(entry, root, cl, low);
          FlipLeft(elm, cl, low);
          high := high.(right := low.(redL := !low.redL));
          Refocus(entry, root, cl, high.right);
          Refocus(entry, root, c, high);
          u := u.(right := high);
        } else if entry[child].redL {
          Refocus(entry, root, c, high);
          u := u.(right := high);
          FlipRight(parent, up, u);
          u := u.(redR := !u.redR);
        } else {
          Refocus(entry, root, c, high);
          u := u.(right := high);
        }
        elm := child;
      }
      elm := RotateLeft(parent, up, u);
      u := RankTree.RotateLeft(u);
      SetBits(elm, false, up, u);
      u := u.(redL := false, redR := false);
    }

    // ---- RB_REMOVE_COLOR ----

    /** One pass of the loop for a left child: true to go on at the parent, with tree `u`. */
    method RemoveLeft(parent: Ptr, ghost c: Context, ghost t: Tree) returns (climb: bool, ghost u: Tree)
      requires At(c, t) && c.LeftOf? && c.id == parent
      requires Balanced(t) && Fits(c, Rank(t) + 1) && !(t.Nil? && c.sibling.Nil?)
      modifies `entry, `root
      ensures climb ==>
                && At(c.up, u) && u.Node? && u.id == parent && Balanced(u) && Fits(c.up, Rank(u) + 1)
                && Climb(c.up, u) == Demote(c, t)
      ensures !climb ==> At(Top, Demote(c, t))
    {
      ghost var up := c.up;
      Refocus(entry, root, c, t);
      RankSign(t);
      RankSign(c.sibling);
      u := Attach(c, t);
      if !entry[parent].redL {
        FlipLeft(parent, up, u);
        u := u.(redL := true);
        Whole(entry, root, up, u);
        return false, u;
      }
      if entry[parent].redR {
        FlipRight(parent, up, u);
        u := u.(redR := false);
        return true, u;
      }
      var sib := entry[parent].right;
      ghost var cs := RightOf(t, parent, true, false, up);
      Refocus(entry, root, cs, c.sibling);
      assert entry[sib].redL == c.sibling.redL && entry[sib].redR == c.sibling.redR;
      if entry[sib].redL && entry[sib].redR {
        SetBits(sib, false, cs, c.sibling);
        ghost var low := c.sibling.(redL := false, redR := false);
        assert Rank(low) == Rank(c.sibling) - 1;
        Refocus(entry, root, cs, low);
        u := u.(right := low);
        return true, u;
      }
      u := LightenLeft(parent, sib, up, u, t, c.sibling);
      Whole(entry, root, up, u);
      climb := false;
    }

    /** The rotations of the left branch, for a hole three ranks below its parent. */
    method LightenLeft(parent: Ptr, sib0: Ptr, ghost up: Context, ghost u0: Tree, ghost t: Tree, ghost s: Tree)
      returns (ghost u: Tree)
      requires u0 == Node(t, parent, true, false, s) && At(up, u0)
      requires s.Node? && s.id == sib0 && !(s.redL && s.redR)
      requires Balanced(t) && Balanced(s) && Rank(s) == Rank(t) + 2
      modifies `entry, `root
      ensures u == LeftLightFix(t, parent, s) && At(up, u)
    {
      var sib := sib0;
      RankSign(t);
      RankSign(s);
      RankSign(s.left);
      RankSign(s.right);
      ghost var cs := RightOf(t, parent, true, false, up);
      Refocus(entry, root, cs, s);
      FlipRight(sib, cs, s);
      ghost var v := s.(redR := !s.redR);
      Refocus(entry, root, cs, v);
      u := u0.(right := v);
      Refocus(entry, root, cs, v);
      if entry[sib].redL {
        FlipLeft(parent, up, u);
        u := u.(redL := false);
      } else if !entry[sib].redR {
        FlipLeft(parent, up, u);
        u := u.(redL := false);
        cs := RightOf(t, parent, false, false, up);
        Refocus(entry, root, cs, v);
        sib, v := TurnInnerLeft(sib, cs, v);
        Refocus(entry, root, cs, v);
        u := u.(right := v);
        if entry[sib].redL {
          FlipRight(parent, up, u);
          u := u.(redR := true);
          cs := RightOf(t, parent, false, true, up);
        }
        Refocus(entry, root, cs, v);
        SetBits(sib, true, cs, v);
        v := v.(redL := true, redR := true);
        Refocus(entry, root, cs, v);
        u := u.(right := v);
      }
      sib := RotateLeft(parent, up, u);
      u := RankTree.RotateLeft(u);
    }

    /** The first of the two rotations: the sibling's inner child comes up, and hands the
        outer of its two bits down to the sibling. */
    method TurnInnerLeft(sib: Ptr, ghost cs: Context, ghost v0: Tree) returns (elm: Ptr, ghost v: Tree)
      requires At(cs, v0) && v0.Node? && v0.id == sib && v0.left.Node? && !v0.redL
      modifies `entry, `root
      ensures var e := v0.left;
              && elm == e.id && At(cs, v)
              && v == e.(right := v0.(left := e.right, redL := e.redR))
    {
      elm := RotateRight(sib, cs, v0);
      v := RankTree.RotateRight(v0);
      if entry[elm].redR {
        ghost var ce := RightOf(v.left, elm, v.redL, v.redR, cs);
        Refocus(entry, root, ce, v.right);
        FlipLeft(sib, ce, v.right);
        v := v.(right := v.right.(redL := true));
        Refocus(entry, root, ce, v.right);
      }
    }

    /** One pass of the loop for a right child: true to go on at the parent, with tree `u`. */
    method RemoveRight(parent: Ptr, ghost c: Context, ghost t: Tree) returns (climb: bool, ghost u: Tree)
      requires At(c, t) && c.RightOf? && c.id == parent
      requires Balanced(t) && Fits(c, Rank(t) + 1) && !(t.Nil? && c.sibling.Nil?)
      modifies `entry, `root
      ensures climb ==>
                && At(c.up, u) && u.Node? && u.id == parent && Balanced(u) && Fits(c.up, Rank(u) + 1)
                && Climb(c.up, u) == Demote(c, t)
      ensures !climb ==> At(Top, Demote(c, t))
    {
      ghost var up := c.up;
      Refocus(entry, root, c, t);
      RankSign(t);
      RankSign(c.sibling);
      u := Attach(c, t);
      if !entry[parent].redR {
        FlipRight(parent, up, u);
        u := u.(redR := true);
        Whole(entry, root, up, u);
        return false, u;
      }
      if entry[parent].redL {
        FlipLeft(parent, up, u);
        u := u.(redL := false);
        return true, u;
      }
      var sib := entry[parent].left;
      ghost var cs := LeftOf(parent, false, true, t, up);
      Refocus(entry, root, cs, c.sibling);
      assert entry[sib].redL == c.sibling.redL && entry[sib].redR == c.sibling.redR;
      if entry[sib].redL && entry[sib].redR {
        SetBits(sib, false, cs, c.sibling);
        ghost var low := c.sibling.(redL := false, redR := false);
        assert Rank(low) == Rank(c.sibling) - 1;
        Refocus(entry, root, cs, low);
        u := u.(left := low);
        return true, u;
      }
      u := LightenRight(parent, sib, up, u, t, c.sibling);
      Whole(entry, root, up, u);
      climb := false;
    }

    /** The rotations of the right branch, for a hole three ranks below its parent. */
    method LightenRight(parent: Ptr, sib0: Ptr, ghost up: Context, ghost u0: Tree, ghost t: Tree, ghost s: Tree)
      returns (ghost u: Tree)
      requires u0 == Node(s, parent, false, true, t) && At(up, u0)
      requires s.Node? && s.id == sib0 && !(s.redL && s.redR)
      requires Balanced(t) && Balanced(s) && Rank(s) == Rank(t) + 2
      modifies `entry, `root
      ensures u == RightLightFix(s, parent, t) && At(up, u)
    {
      var sib := sib0;
      RankSign(t);
      RankSign(s);
      RankSign(s.left);
      RankSign(s.right);
      ghost var cs := LeftOf(parent, false, true, t, up);
      Refocus(entry, root, cs, s);
      FlipLeft(sib, cs, s);
      ghost var v := s.(redL := !s.redL);
      Refocus(entry, root, cs, v);
      u := u0.(left := v);
      Refocus(entry, root, cs, v);
      if entry[sib].redR {
        FlipRight(parent, up, u);
        u := u.(redR := false);
      } else if !entry[sib].redL {
        FlipRight(parent, up, u);
        u := u.(redR := false);
        cs := LeftOf(parent, false, false, t, up);
        Refocus(entry, root, cs, v);
        sib, v := TurnInnerRight(sib, cs, v);
        Refocus(entry, root, cs, v);
        u := u.(left := v);
        if entry[sib].redR {
          FlipLeft(parent, up, u);
          u := u.(redL := true);
          cs := LeftOf(parent, true, false, t, up);
        }
        Refocus(entry, root, cs, v);
        SetBits(sib, true, cs, v);
        v := v.(redL := true, redR := true);
        Refocus(entry, root, cs, v);
        u := u.(left := v);
      }
      sib := RotateRight(parent, up, u);
      u := RankTree.RotateRight(u);
    }

    /** The first of the two rotations: the sibling's inner child comes up, and hands the
        outer of its two bits down to the sibling. */
    method TurnInnerRight(sib: Ptr, ghost cs: Context, ghost v0: Tree) returns (elm: Ptr, ghost v: Tree)
      requires At(cs, v0) && v0.Node? && v0.id == sib && v0.right.Node? && !v0.redR
      modifies `entry, `root
      ensures var e := v0.right;
              && elm == e.id && At(cs, v)
              && v == e.(left := v0.(right := e.left, redR := e.redL))
    {
      elm := RotateLeft(sib, cs, v0);
      v := RankTree.RotateLeft(v0);
      if entry[elm].redL {
        ghost var ce := LeftOf(elm, v.redL, v.redR, v.right, cs);
        Refocus(entry, root, ce, v.left);
        FlipRight(sib, ce, v.left);
        v := v.(left := v.left.(redR := true));
        Refocus(entry, root, ce, v.left);
      }
    }

    method RemoveColor(parent0: Ptr, elm0: Ptr, ghost c0: Context, ghost t0: Tree)
      requires At(c0, t0) && !c0.Top? && c0.id == parent0 && elm0 == IdOf(t0)
      requires Balanced(t0) && Fits(c0, Rank(t0) + 1)
      modifies `entry, `root
      ensures At(Top, RemoveFix(c0, t0))
    {
      var parent, elm := parent0, elm0;
      ghost var c, t := c0, t0;
      Children(entry, root, c, t);
      RankSign(t);
      RankSign(c.sibling);
      if entry[parent].left == elm && entry[parent].right == elm {
        Refocus(entry, root, c, t);
        SetBits(parent, false, c.up, Attach(c, t));
        t := Node(Nil, parent, false, false, Nil);
        c := c.up;
        elm := parent;
        parent := entry[elm].parent;
        if parent == 0 {
          return;
        }
      }
      RemoveLoop(parent, elm, c, t);
    }

    method RemoveLoop(parent0: Ptr, elm0: Ptr, ghost c0: Context, ghost t0: Tree)
      requires At(c0, t0) && !c0.Top? && c0.id == parent0 && elm0 == IdOf(t0)
      requires Balanced(t0) && Fits(c0, Rank(t0) + 1) && !(t0.Nil? && c0.sibling.Nil?)
      modifies `entry, `root
      ensures At(Top, Demote(c0, t0))
    {
      var parent, elm := parent0, elm0;
      ghost var c, t := c0, t0;
      while parent != 0
        invariant At(c, t) && elm == IdOf(t) && parent == Up(c)
        invariant Balanced(t) && Fits(c, Rank(t) + 1)
        invariant c.Top? ==> t.Node? && t == Demote(c0, t0)
        invariant !c.Top? ==> !(t.Nil? && c.sibling.Nil?) && Demote(c, t) == Demote(c0, t0)
        decreases c
      {
        var climb;
        ghost var u;
        climb, u := RemovePass(parent, elm, c, t);
        if !climb {
          return;
        }
        elm := parent;
        c, t := c.up, u;
        parent := entry[elm].parent;
      }
    }

    /** One pass of the loop, on whichever side the hole is. */
    method RemovePass(parent: Ptr, elm: Ptr, ghost c: Context, ghost t: Tree) returns (climb: bool, ghost u: Tree)
      requires At(c, t) && !c.Top? && c.id == parent && elm == IdOf(t)
      requires Balanced(t) && Fits(c, Rank(t) + 1) && !(t.Nil? && c.sibling.Nil?)
      modifies `entry, `root
      ensures climb ==>
                && At(c.up, u) && u.Node? && u.id == parent && Balanced(u) && Fits(c.up, Rank(u) + 1)
                && Climb(c.up, u) == Demote(c, t)
      ensures !climb ==> At(Top, Demote(c, t))
    {
      Children(entry, root, c, t);
      if entry[parent].left == elm {
        climb, u := RemoveLeft(parent, c, t);
      } else {
        climb, u := RemoveRight(parent, c, t);
      }
    }

    /** The two child pointers of the node above the hole. */
    static lemma Children(m: Mem, root: Ptr, c: Context, t: Tree)
      requires Holds(m, root, c, t) && !c.Top?
      ensures c.id in m
      ensures m[c.id].left == IdOf(t) && m[c.id].right == IdOf(t) <==> t.Nil? && c.sibling.Nil?
      ensures !(t.Nil? && c.sibling.Nil?) ==> (m[c.id].left == IdOf(t) <==> c.LeftOf?)
    {
      assert t.Node? ==> t.id in Ids(t) && t.id != 0;
      assert c.sibling.Node? ==> c.sibling.id in Ids(c.sibling) && c.sibling.id != 0;
    }

    // ---- the operations ----

    ghost predicate Valid()
      reads this
    {
      At(Top, tree) && Balanced(tree) && Ordered(fd, InOrder(tree))
    }

    ghost function Nodes(): set<Ptr>
      reads this
    {
      Ids(tree)
    }

    constructor (keys: map<Ptr, int>)
      ensures Valid() && Nodes() == {} && fd == keys
    {
      root := 0;
      entry := map[];
      fd := keys;
      tree := Nil;
    }

    /** Every other node of the tree lies on the path, or below, with its key on the right
        side of the node in focus. */
    ghost predicate Narrowed(key: int, c: Context, t: Tree)
      reads this
    {
      && At(c, t) && Plug(c, t) == tree
      && (forall x :: x in Before(c) ==> x in fd && fd[x] < key)
      && (forall x :: x in After(c) ==> x in fd && key < fd[x])
    }

    /** RB_FIND. */
    method Find(key: int) returns (r: Ptr)
      requires Valid()
      ensures r != 0 ==> r in Nodes() && r in fd && fd[r] == key
      ensures r == 0 ==> forall x :: x in Nodes() ==> x in fd && fd[x] != key
    {
      var tmp := root;
      ghost var c, t := Top, tree;
      while tmp != 0
        invariant tmp == IdOf(t) && Narrowed(key, c, t)
        decreases t
      {
        InFocus(c, t);
        if key < fd[tmp] {
          tmp := entry[tmp].left;
          c, t := NarrowLeft(key, c, t);
        } else if key > fd[tmp] {
          tmp := entry[tmp].right;
          c, t := NarrowRight(key, c, t);
        } else {
          return tmp;
        }
      }
      NotFound(key, c, t);
      r := 0;
    }

    lemma NotFound(key: int, c: Context, t: Tree)
      requires Narrowed(key, c, t) && t.Nil?
      ensures forall x :: x in Nodes() ==> x in fd && fd[x] != key
    {
      forall x | x in Nodes() ensures x in fd && fd[x] != key {
        InIds(tree, x);
        PlugInOrder(c, t);
      }
    }

    lemma InFocus(c: Context, t: Tree)
      requires Valid() && At(c, t) && t.Node? && Plug(c, t) == tree
      ensures t.id in Nodes() && t.id in fd && t.id in entry && t.id != 0
    {
      PlugInOrder(c, t);
      InIds(tree, t.id);
      DescendKeys(fd, c, t);
    }

    lemma NarrowLeft(key: int, c: Context, t: Tree) returns (c': Context, t': Tree)
      requires Valid() && Narrowed(key, c, t) && t.Node? && t.id in fd && key < fd[t.id]
      ensures c' == LeftOf(t.id, t.redL, t.redR, t.right, c) && t' == t.left && t' < t
      ensures Narrowed(key, c', t') && t.id in entry && entry[t.id].left == IdOf(t')
    {
      DescendKeys(fd, c, t);
      c', t' := StepLeft(c, t);
    }

    lemma NarrowRight(key: int, c: Context, t: Tree) returns (c': Context, t': Tree)
      requires Valid() && Narrowed(key, c, t) && t.Node? && t.id in fd && key > fd[t.id]
      ensures c' == RightOf(t.left, t.id, t.redL, t.redR, c) && t' == t.right && t' < t
      ensures Narrowed(key, c', t') && t.id in entry && entry[t.id].right == IdOf(t')
    {
      DescendKeys(fd, c, t);
      c', t' := StepRight(c, t);
    }

    lemma StepLeft(c: Context, t: Tree) returns (c': Context, t': Tree)
      requires At(c, t) && t.Node?
      ensures c' == LeftOf(t.id, t.redL, t.redR, t.right, c) && t' == t.left
      ensures At(c', t') && Plug(c', t') == Plug(c, t) && entry[t.id].left == IdOf(t') && t' < t
    {
      c', t' := LeftOf(t.id, t.redL, t.redR, t.right, c), t.left;
      Refocus(entry, root, c', t');
    }

    lemma StepRight(c: Context, t: Tree) returns (c': Context, t': Tree)
      requires At(c, t) && t.Node?
      ensures c' == RightOf(t.left, t.id, t.redL, t.redR, c) && t' == t.right
      ensures At(c', t') && Plug(c', t') == Plug(c, t) && entry[t.id].right == IdOf(t') && t' < t
    {
      c', t' := RightOf(t.left, t.id, t.redL, t.redR, c), t.right;
      Refocus(entry, root, c', t');
    }

    /** RB_INSERT: returns the colliding node and changes nothing, or 0 and adds exactly the
        given node. */
    method Insert(elm: Ptr) returns (r: Ptr)
      requires Valid() && elm != 0 && elm in fd && elm !in Nodes()
      modifies `entry, `root, `tree
      ensures Valid()
      ensures r != 0 ==>
                && r in old(Nodes()) && r in fd && fd[r] == fd[elm]
                && entry == old(entry) && root == old(root) && tree == old(tree)
      ensures r == 0 ==>
                && Nodes() == old(Nodes()) + {elm}
                && forall x :: x in old(Nodes()) ==> x in fd && fd[x] != fd[elm]
    {
      var tmp := root;
      var parent: Ptr := 0;
      var comp := 0;
      ghost var c, t := Top, tree;
      while tmp != 0
        invariant tmp == IdOf(t) && parent == Up(c) && Narrowed(fd[elm], c, t)
        invariant entry == old(entry) && root == old(root) && tree == old(tree)
        invariant !c.Top? ==> comp != 0 && (comp < 0 <==> c.LeftOf?)
        decreases t
      {
        InFocus(c, t);
        parent := tmp;
        comp := if fd[elm] < fd[parent] then -1 else if fd[elm] > fd[parent] then 1 else 0;
        if comp < 0 {
          tmp := entry[tmp].left;
          c, t := NarrowLeft(fd[elm], c, t);
        } else if comp > 0 {
          tmp := entry[tmp].right;
          c, t := NarrowRight(fd[elm], c, t);
        } else {
          return tmp;
        }
      }
      Link(elm, parent, comp, c);
      r := 0;
    }

    /** The second half of RB_INSERT: hang the leaf into the hole found, then fix up. */
    method Link(elm: Ptr, parent: Ptr, comp: int, ghost c: Context)
      requires Valid() && elm != 0 && elm in fd && elm !in Nodes()
      requires Narrowed(fd[elm], c, Nil) && parent == Up(c) && (!c.Top? ==> (comp < 0 <==> c.LeftOf?))
      modifies `entry, `root, `tree
      ensures Valid() && Nodes() == old(Nodes()) + {elm}
      ensures forall x :: x in old(Nodes()) ==> x in fd && fd[x] != fd[elm]
    {
      InsertedNodes(fd, c, elm);
      HangLeaf(elm, parent, comp, c);
      InsertColor(elm, c, Node(Nil, elm, false, false, Nil));
      tree := InsertFix(c, Node(Nil, elm, false, false, Nil));
    }

    method HangLeaf(elm: Ptr, parent: Ptr, comp: int, ghost c: Context)
      requires At(c, Nil) && Plug(c, Nil) == tree && elm != 0 && elm !in Nodes()
      requires parent == Up(c) && (!c.Top? ==> (comp < 0 <==> c.LeftOf?))
      modifies `entry, `root
      ensures At(c, Node(Nil, elm, false, false, Nil))
    {
      PathMembers(c, Nil, elm);
      entry := entry[elm := Entry(0, 0, parent, false, false)];
      if parent == 0 {
        root := elm;
      } else if comp < 0 {
        entry := entry[parent := entry[parent].(left := elm)];
      } else {
        entry := entry[parent := entry[parent].(right := elm)];
      }
      Hang(old(entry), entry, old(root), root, c, elm);
    }

    /** The tree that the fix-up makes of a tree with one more leaf. */
    static lemma InsertedNodes(key: map<Ptr, int>, c: Context, elm: Ptr)
      requires Balanced(Plug(c, Nil)) && Ordered(key, InOrder(Plug(c, Nil))) && elm in key
      requires forall x :: x in Before(c) ==> x in key && key[x] < key[elm]
      requires forall x :: x in After(c) ==> x in key && key[elm] < key[x]
      ensures var leaf := Node(Nil, elm, false, false, Nil);
              && Balanced(leaf) && Grown(leaf) && Fits(c, Rank(leaf) - 1)
              && Balanced(InsertFix(c, leaf)) && Ordered(key, InOrder(InsertFix(c, leaf)))
              && Ids(InsertFix(c, leaf)) == Ids(Plug(c, Nil)) + {elm}
      ensures forall x :: x in Ids(Plug(c, Nil)) ==> x in key && key[x] != key[elm]
    {
      var leaf := Node(Nil, elm, false, false, Nil);
      PlugBalanced(c, Nil);
      assert Rank(leaf) == 0;
      var was, now := Plug(c, Nil), InsertFix(c, leaf);
      InsertFixInOrder(c, leaf);
      PlugInOrder(c, leaf);
      PlugInOrder(c, Nil);
      assert Before(c) + [] + After(c) == Before(c) + After(c);
      assert InOrder(leaf) == [elm];
      OneMore(key, was, now, Before(c), elm, After(c));
    }

    /** A node outside the tree is not on any path through it. */
    lemma PathMembers(c: Context, t: Tree, x: Ptr)
      requires At(c, t) && Plug(c, t) == tree && x !in Nodes()
      ensures x !in PathIds(c) && x !in Ids(t) && (!c.Top? ==> c.id in entry)
    {
      PlugIds(c, t);
    }

    static lemma {:induction false} PlugIds(c: Context, t: Tree)
      ensures Ids(Plug(c, t)) == Ids(t) + PathIds(c)
      decreases c
    {
      if !c.Top? {
        PlugIds(c.up, Attach(c, t));
      }
    }

    /** RB_REMOVE: takes out exactly the given node. */
    method Remove(elm: Ptr) returns (r: Ptr)
      requires Valid() && elm in Nodes()
      modifies `entry, `root, `tree
      ensures Valid() && r == elm && Nodes() == old(Nodes()) - {elm}
    {
      ghost var c, t := PathTo(tree, elm);
      Whole(entry, root, c, t);
      PlugBalanced(c, t);
      assert Lies(entry, t.left, elm) && Lies(entry, t.right, elm);
      var left, right := entry[elm].left, entry[elm].right;
      if left == 0 || right == 0 {
        RemovedNodes(fd, c, t);
        RemoveOuter(elm, if left == 0 then right else left, c, t, if t.left.Nil? then t.right else t.left);
      } else {
        RemovedInner(fd, c, t);
        RemoveInner(elm, c, t);
      }
      r := elm;
    }

    /** Taking one node out of the order takes one node out of the set. */
    static lemma OneLess(key: map<Ptr, int>, was: Tree, now: Tree, before: seq<Ptr>, p: Ptr, after: seq<Ptr>)
      requires Ordered(key, InOrder(was)) && InOrder(was) == before + [p] + after && InOrder(now) == before + after
      ensures Ordered(key, InOrder(now)) && Ids(now) == Ids(was) - {p}
    {
      OrderedRemove(key, before, p, after);
      forall x ensures x in Ids(now) <==> x in Ids(was) - {p} {
        InIds(now, x);
        InIds(was, x);
      }
    }

    static lemma OneMore(key: map<Ptr, int>, was: Tree, now: Tree, before: seq<Ptr>, p: Ptr, after: seq<Ptr>)
      requires Ordered(key, InOrder(was)) && InOrder(was) == before + after && InOrder(now) == before + [p] + after
      requires p in key
      requires forall x :: x in before ==> x in key && key[x] < key[p]
      requires forall x :: x in after ==> x in key && key[p] < key[x]
      ensures Ordered(key, InOrder(now)) && Ids(now) == Ids(was) + {p}
      ensures forall x :: x in Ids(was) ==> x in key && key[x] != key[p]
    {
      OrderedInsert(key, before, p, after);
      forall x ensures x in Ids(now) <==> x in Ids(was) + {p} {
        InIds(now, x);
        InIds(was, x);
      }
      forall x | x in Ids(was) ensures x in key && key[x] != key[p] {
        InIds(was, x);
      }
    }

    /** What the fix-up makes of a tree from which a node with at most one child is gone. */
    static ghost function WithoutOuter(c: Context, child: Tree): Tree
      requires Balanced(child) && Fits(c, Rank(child) + 1)
    {
      if c.Top? then child else RemoveFix(c, child)
    }

    method RemoveOuter(old_: Ptr, child: Ptr, ghost c: Context, ghost t: Tree, ghost ch: Tree)
      requires At(c, t) && t.Node? && t.id == old_ && child == IdOf(ch)
      requires (t.left.Nil? && ch == t.right) || (t.right.Nil? && ch == t.left)
      requires Balanced(ch) && Fits(c, Rank(ch) + 1)
      modifies `entry, `root, `tree
      ensures tree == WithoutOuter(c, ch) && At(Top, tree)
    {
      var parent := entry[old_].parent;
      LiesIds(entry, t, Up(c));
      PathLiesIds(entry, c, old_);
      assert !c.Top? ==> c.id in PathIds(c);
      assert ch.Node? ==> ch.id in Ids(ch) && ch.id in Ids(t);
      SwapChild(old_, child);
      if child != 0 {
        entry := entry[child := entry[child].(parent := parent)];
      }
      Splice(old(entry), entry, old(root), root, c, t, ch);
      if parent != 0 {
        RemoveColor(parent, child, c, ch);
      }
      tree := WithoutOuter(c, ch);
    }

    static lemma RemovedNodes(key: map<Ptr, int>, c: Context, t: Tree)
      requires t.Node? && (t.left.Nil? || t.right.Nil?)
      requires Balanced(t) && Fits(c, Rank(t)) && Ordered(key, InOrder(Plug(c, t)))
      ensures var ch := if t.left.Nil? then t.right else t.left;
              && Balanced(ch) && Fits(c, Rank(ch) + 1)
              && var now := WithoutOuter(c, ch);
                 && Balanced(now) && Ordered(key, InOrder(now)) && Ids(now) == Ids(Plug(c, t)) - {t.id}
    {
      OneChildRank(t);
      var ch := if t.left.Nil? then t.right else t.left;
      WithoutOuterOrder(c, ch);
      InOrderAround(c, t);
      var before, after := Before(c) + InOrder(t.left), InOrder(t.right) + After(c);
      assert Before(c) + InOrder(ch) + After(c) == before + after by {
        if t.left.Nil? {
          assert before == Before(c);
        } else {
          assert after == After(c);
        }
      }
      OneLess(key, Plug(c, t), WithoutOuter(c, ch), before, t.id, after);
    }

    /** The whole order, seen from one node. */
    static lemma InOrderAround(c: Context, t: Tree)
      requires t.Node?
      ensures InOrder(Plug(c, t)) == (Before(c) + InOrder(t.left)) + [t.id] + (InOrder(t.right) + After(c))
    {
      PlugInOrder(c, t);
      Associate(Before(c), InOrder(t.left), [t.id], InOrder(t.right), After(c));
    }

    static lemma Associate(a: seq<Ptr>, b: seq<Ptr>, x: seq<Ptr>, y: seq<Ptr>, z: seq<Ptr>)
      ensures a + (b + x + y) + z == (a + b) + x + (y + z)
    {
    }

    static lemma WithoutOuterOrder(c: Context, ch: Tree)
      requires Balanced(ch) && Fits(c, Rank(ch) + 1)
      ensures Balanced(WithoutOuter(c, ch))
      ensures InOrder(WithoutOuter(c, ch)) == Before(c) + InOrder(ch) + After(c)
    {
      PlugInOrder(c, ch);
      if !c.Top? {
        RemoveFixInOrder(c, ch);
      }
    }

    /** The path to the successor of a node with two children, with `x` in the node's place. */
    static ghost function Successor(c: Context, t: Tree, x: Ptr): (Context, Tree)
      requires t.Node? && t.right.Node?
    {
      var (inner, m) := Leftmost(Top, t.right);
      (Compose(inner, RightOf(t.left, x, t.redL, t.redR, c)), m)
    }

    static lemma {:induction false} FitsRename(inner: Context, l: Tree, x: Ptr, y: Ptr, a: bool, b: bool, c: Context, k: int)
      ensures Fits(Compose(inner, RightOf(l, x, a, b, c)), k) <==> Fits(Compose(inner, RightOf(l, y, a, b, c)), k)
      decreases inner
    {
      if !inner.Top? {
        var up, red := inner.up, if inner.LeftOf? then inner.redL else inner.redR;
        FitsRename(up, l, x, y, a, b, c, k + Diff(red));
        FitsAbove(inner, Compose(up, RightOf(l, x, a, b, c)), k);
        FitsAbove(inner, Compose(up, RightOf(l, y, a, b, c)), k);
      }
    }

    /** Fitting is a question for one level and for the path above it. */
    static lemma FitsAbove(c: Context, up: Context, k: int)
      requires !c.Top?
      ensures Fits(c.(up := up), k) <==>
                Fits(c.(up := Top), k) && Fits(up, k + Diff(if c.LeftOf? then c.redL else c.redR))
    {
    }

    /** What the fix-up makes of a tree in which the successor has taken the node's place. */
    static ghost function WithoutInner(c: Context, t: Tree): Tree
      requires t.Node? && t.right.Node?
      requires var (cc, m) := Successor(c, t, Leftmost(Top, t.right).1.id);
               Balanced(m.right) && !cc.Top? && Fits(cc, Rank(m.right) + 1)
    {
      var (cc, m) := Successor(c, t, Leftmost(Top, t.right).1.id);
      RemoveFix(cc, m.right)
    }

    static lemma RemovedInnerFits(c: Context, t: Tree)
      requires t.Node? && t.right.Node? && Balanced(t) && Fits(c, Rank(t))
      ensures var (cc, m) := Successor(c, t, Leftmost(Top, t.right).1.id);
              Balanced(m.right) && !cc.Top? && Fits(cc, Rank(m.right) + 1)
    {
      var (inner, m) := Leftmost(Top, t.right);
      var outer := RightOf(t.left, t.id, t.redL, t.redR, c);
      PlugCompose(inner, outer, m);
      PlugBalanced(c, t);
      assert Plug(outer, t.right) == Plug(c, t);
      PlugBalanced(Compose(inner, outer), m);
      OneChildRank(m);
      FitsRename(inner, t.left, t.id, m.id, t.redL, t.redR, c, Rank(m.right) + 1);
    }

    static lemma RemovedInnerOrder(c: Context, t: Tree)
      requires t.Node? && t.right.Node? && Balanced(t) && Fits(c, Rank(t))
      ensures var (cc, m) := Successor(c, t, Leftmost(Top, t.right).1.id);
              Balanced(m.right) && !cc.Top? && Fits(cc, Rank(m.right) + 1)
      ensures InOrder(WithoutInner(c, t)) == Before(c) + InOrder(t.left) + (InOrder(t.right) + After(c))
    {
      RemovedInnerFits(c, t);
      var (inner, m) := Leftmost(Top, t.right);
      var outer := RightOf(t.left, m.id, t.redL, t.redR, c);
      RemoveFixInOrder(Compose(inner, outer), m.right);
      PlugCompose(inner, outer, m.right);
      LeftmostBefore(Top, t.right);
      PlugInOrder(inner, m);
      PlugInOrder(inner, m.right);
      PlugInOrder(outer, Plug(inner, m.right));
      Regroup(Before(c), InOrder(t.left), [m.id], InOrder(m.right), After(inner), After(c));
    }

    static lemma Regroup(a: seq<Ptr>, b: seq<Ptr>, x: seq<Ptr>, y: seq<Ptr>, z: seq<Ptr>, d: seq<Ptr>)
      ensures (a + b + x) + ([] + y + z) + d == a + b + (([] + ([] + x + y) + z) + d)
    {
    }

    static lemma RemovedInner(key: map<Ptr, int>, c: Context, t: Tree)
      requires t.Node? && t.right.Node?
      requires Balanced(t) && Fits(c, Rank(t)) && Ordered(key, InOrder(Plug(c, t)))
      ensures var (cc, m) := Successor(c, t, Leftmost(Top, t.right).1.id);
              Balanced(m.right) && !cc.Top? && Fits(cc, Rank(m.right) + 1)
      ensures var now := WithoutInner(c, t);
              Balanced(now) && Ordered(key, InOrder(now)) && Ids(now) == Ids(Plug(c, t)) - {t.id}
    {
      RemovedInnerOrder(c, t);
      InOrderAround(c, t);
      var before, after := Before(c) + InOrder(t.left), InOrder(t.right) + After(c);
      OneLess(key, Plug(c, t), WithoutInner(c, t), before, t.id, after);
    }

    static lemma {:induction false} ComposeIds(inner: Context, outer: Context)
      ensures PathIds(Compose(inner, outer)) == PathIds(inner) + PathIds(outer)
      ensures PathDistinct(Compose(inner, outer)) ==> PathIds(inner) !! PathIds(outer) && PathDistinct(outer)
    {
      if !inner.Top? {
        ComposeIds(inner.up, outer);
      }
    }

    /** The path to the leftmost node starts at the tree's own root. */
    static lemma {:induction false} LeftmostPath(c: Context, t: Tree)
      requires t.Node?
      ensures t.left.Nil? ==> Leftmost(c, t) == (c, t)
      ensures t.left.Node? ==> t.id in PathIds(Leftmost(c, t).0) && Leftmost(c, t).0.LeftOf?
      ensures PathIds(c) <= PathIds(Leftmost(c, t).0)
      decreases t
    {
      if t.left.Node? {
        LeftmostPath(LeftOf(t.id, t.redL, t.redR, t.right, c), t.left);
      }
    }

    /** The nodes that taking a successor out of its place and into another touches. */
    static lemma SuccessorApart(m: Mem, root: Ptr, c: Context, t: Tree)
      requires Holds(m, root, c, t) && t.Node? && t.left.Node? && t.right.Node?
      ensures var (inner, s) := Leftmost(Top, t.right);
              var old_, l, r, child, up := t.id, t.left.id, t.right.id, IdOf(s.right), Up(c);
              var parent := if inner.Top? then old_ else inner.id;
              && {old_, l, r, s.id, parent} <= m.Keys && 0 !in {old_, l, r, s.id, parent}
              && (child == 0 <==> s.right.Nil?)
              && (child != 0 ==> child in m && child !in {old_, l, r, s.id, parent, up})
              && (up != 0 ==> up in m && up !in {old_, l, r, s.id, parent})
              && s.id !in {old_, l, parent} && old_ != l && old_ != r && l != r
              && (inner.Top? <==> t.right.left.Nil?) && (inner.Top? ==> s == t.right)
              && (!inner.Top? ==> inner.LeftOf? && s.id != r && parent != old_ && parent != l)
              && Holds(m, root, Compose(inner, RightOf(t.left, old_, t.redL, t.redR, c)), s)
    {
      var (inner, s) := Leftmost(Top, t.right);
      var outer := RightOf(t.left, t.id, t.redL, t.redR, c);
      Refocus(m, root, outer, t.right);
      HoldsCompose(m, root, inner, outer, s);
      ComposeIds(inner, outer);
      LeftmostPath(Top, t.right);
      var cc := Compose(inner, outer);
      LiesIds(m, s, Up(cc));
      PathLiesIds(m, cc, s.id);
      assert t.left.id in Ids(t.left) && t.right.id in Ids(t.right);
      assert s.right.Node? ==> s.right.id in Ids(s.right);
      assert Ids(s) == Ids(s.left) + {s.id} + Ids(s.right);
      assert !c.Top? ==> c.id in PathIds(c);
      assert !inner.Top? ==> inner.id in PathIds(inner);
    }

    /** Once spliced out, the successor is no longer in the tree. */
    static lemma SuccessorGone(m: Mem, root: Ptr, c: Context, t: Tree)
      requires Holds(m, root, c, t) && t.Node? && t.left.Node? && t.right.Node?
      ensures var (inner, s) := Leftmost(Top, t.right);
              s.id !in Ids(t.(right := Plug(inner, s.right))) && s.id !in PathIds(c)
    {
      var (inner, s) := Leftmost(Top, t.right);
      var outer := RightOf(t.left, t.id, t.redL, t.redR, c);
      SuccessorApart(m, root, c, t);
      ComposeIds(inner, outer);
      PlugIds(inner, s.right);
      assert Ids(s) == Ids(s.left) + {s.id} + Ids(s.right);
      assert Ids(t.(right := Plug(inner, s.right))) == Ids(t.left) + {t.id} + Ids(Plug(inner, s.right));
    }

    /** Filling the hole of the leftmost path leaves the root in place, unless it was the root. */
    static lemma {:induction false} PlugRoot(c: Context, t: Tree, x: Tree) returns (y: Tree)
      requires t.Node?
      ensures Plug(Leftmost(c, t).0, x) == Plug(c, y)
      ensures IdOf(y) == if t.left.Nil? then IdOf(x) else t.id
      decreases t
    {
      if t.left.Nil? {
        y := x;
      } else {
        var z := PlugRoot(LeftOf(t.id, t.redL, t.redR, t.right, c), t.left, x);
        y := Node(z, t.id, t.redL, t.redR, t.right);
      }
    }

    /** Memory after the successor `s` has been spliced out and put in its place. */
    static function SuccessorMem(m: Mem, old_: Ptr, l: Ptr, r: Ptr, s: Ptr, child: Ptr, parent: Ptr, up: Ptr): Mem
      requires {old_, parent} <= m.Keys && l in m && (r != 0 ==> r in m) && (up != 0 ==> up in m)
      requires parent != 0 && (child != 0 ==> child in m)
    {
      var m1 := ParentMem(SwapMem(m, parent, s, child), child, parent);
      SwapMem(ParentMem(ParentMem(m1, l, s), r, s)[s := m1[old_]], up, old_, s)
    }

    static lemma TookSuccessor(m: Mem, m': Mem, root: Ptr, root': Ptr, c: Context, t: Tree)
      requires Holds(m, root, c, t) && t.Node? && t.left.Node? && t.right.Node?
      requires var (inner, s) := Leftmost(Top, t.right);
               var old_, l, child, up := t.id, t.left.id, IdOf(s.right), Up(c);
               var parent := if inner.Top? then old_ else inner.id;
               var r := if inner.Top? then child else t.right.id;
               && {old_, parent} <= m.Keys && l in m && (r != 0 ==> r in m) && (up != 0 ==> up in m)
               && parent != 0 && (child != 0 ==> child in m)
               && m' == SuccessorMem(m, old_, l, r, s.id, child, parent, up)
               && root' == if up == 0 then s.id else root
      ensures var (cc, s) := Successor(c, t, Leftmost(Top, t.right).1.id); Holds(m', root', cc, s.right)
    {
      var (inner, s) := Leftmost(Top, t.right);
      SuccessorApart(m, root, c, t);
      var outer := RightOf(t.left, t.id, t.redL, t.redR, c);
      var cc := Compose(inner, outer);
      var parent := if inner.Top? then t.id else inner.id;
      assert Up(cc) == parent && !cc.Top?;
      var m1 := ParentMem(SwapMem(m, parent, s.id, IdOf(s.right)), IdOf(s.right), parent);
      Splice(m, m1, root, root, cc, s, s.right);
      var rest := Plug(inner, s.right);
      HoldsCompose(m1, root, inner, outer, s.right);
      Refocus(m1, root, outer, rest);
      var t1 := t.(right := rest);
      var rest' := PlugRoot(Top, t.right, s.right);
      assert IdOf(rest) == if inner.Top? then IdOf(s.right) else t.right.id;
      SuccessorGone(m, root, c, t);
      Replace(m1, m', root, root', c, t1, s.id);
      var outer' := RightOf(t.left, s.id, t.redL, t.redR, c);
      Refocus(m', root', outer', rest);
      HoldsCompose(m', root', inner, outer', s.right);
    }

    /** The tail of the splice, for a successor `elm` that is out of its old place: it takes
        over the entry of `old_`, and the pointers to `old_`. */
    method TakeOver(old_: Ptr, elm: Ptr, child: Ptr, parent: Ptr)
      requires {old_, elm} <= entry.Keys && entry[old_].left in entry && entry[old_].left != 0
      requires old_ != entry[old_].left && elm != entry[old_].left
      requires entry[old_].parent != 0 ==> entry[old_].parent in entry && entry[old_].parent !in {old_, elm}
      requires child != 0 ==> child in entry
      modifies `entry, `root
      ensures var up := old(entry[old_].parent);
              && entry == ParentMem(SwapMem(ParentMem(old(entry), old(entry[old_].left), elm)[elm := old(entry[old_])],
                                            up, old_, elm), child, parent)
              && root == if up == 0 then elm else old(root)
    {
      entry := entry[entry[old_].left := entry[entry[old_].left].(parent := elm)];
      entry := entry[elm := entry[old_]];
      SwapChild(old_, elm);
      if child != 0 {
        entry := entry[child := entry[child].(parent := parent)];
      }
    }

    /** Puts the successor of `old_` in its place; what is left to fix is the hole that the
        successor leaves behind. */
    method TakeSuccessor(old_: Ptr, ghost c: Context, ghost t: Tree) returns (parent: Ptr, child: Ptr)
      requires At(c, t) && t.Node? && t.id == old_ && t.left.Node? && t.right.Node?
      modifies `entry, `root
      ensures var (cc, s) := Successor(c, t, Leftmost(Top, t.right).1.id);
              At(cc, s.right) && parent == Up(cc) && child == IdOf(s.right)
    {
      SuccessorApart(entry, root, c, t);
      OpenRight(entry, root, c, t);
      var right := entry[old_].right;
      if entry[right].left == 0 {
        parent, child := TakeRight(old_, right, c, t);
      } else {
        parent, child := TakeInner(old_, right, c, t);
      }
    }

    /** The right child itself is the successor. */
    method TakeRight(old_: Ptr, right: Ptr, ghost c: Context, ghost t: Tree) returns (parent: Ptr, child: Ptr)
      requires At(c, t) && t.Node? && t.id == old_ && t.left.Node? && t.right.Node?
      requires right == t.right.id && t.right.left.Nil?
      modifies `entry, `root
      ensures var (cc, s) := Successor(c, t, Leftmost(Top, t.right).1.id);
              At(cc, s.right) && parent == Up(cc) && child == IdOf(s.right)
    {
      SuccessorApart(entry, root, c, t);
      OpenRight(entry, root, c, t);
      child := entry[right].right;
      entry := entry[old_ := entry[old_].(right := child)];
      parent := right;
      TakeOver(old_, right, child, parent);
      RightMem(old(entry), old_, t.left.id, right, child, Up(c));
      TookSuccessor(old(entry), entry, old(root), root, c, t);
    }

    /** Moving the right child up changes the same entries whether it is spliced out first
        or not. */
    static lemma RightMem(m: Mem, old_: Ptr, l: Ptr, s: Ptr, child: Ptr, up: Ptr)
      requires {old_, l, s} <= m.Keys && old_ != l && old_ != s && l != s && old_ != 0
      requires m[old_].left == l && m[old_].right == s && m[old_].parent == up
      requires up != 0 ==> up in m && up !in {old_, l, s}
      requires child != 0 ==> child in m && child !in {old_, l, s, up}
      ensures var m1 := m[old_ := m[old_].(right := child)];
              ParentMem(SwapMem(ParentMem(m1, l, s)[s := m1[old_]], up, old_, s), child, s)
              == SuccessorMem(m, old_, l, child, s, child, old_, up)
    {
    }

    /** Takes `elm` out from below its parent and has it take over the place of `old_`. */
    method MoveUp(old_: Ptr, elm: Ptr, right: Ptr) returns (parent: Ptr, child: Ptr)
      requires {old_, elm, right} <= entry.Keys && right == entry[old_].right
      requires {entry[old_].left, entry[elm].parent} <= entry.Keys
      requires var l, parent, up := entry[old_].left, entry[elm].parent, entry[old_].parent;
               var child := entry[elm].right;
               && l != 0 && parent != 0 && right != 0 && entry[parent].left == elm
               && elm !in {old_, l, right, parent} && old_ !in {l, right, parent} && l !in {right, parent}
               && (up != 0 ==> up in entry && up !in {old_, l, right, elm, parent})
               && (child != 0 ==> child in entry && child !in {old_, l, right, elm, parent, up})
      modifies `entry, `root
      ensures parent == old(entry[elm].parent) && child == old(entry[elm].right)
      ensures var l, up := old(entry[old_].left), old(entry[old_].parent);
              && entry == SuccessorMem(old(entry), old_, l, right, elm, child, parent, up)
              && root == if up == 0 then elm else old(root)
    {
      child := entry[elm].right;
      parent := entry[elm].parent;
      entry := entry[parent := entry[parent].(left := child)];
      entry := entry[entry[old_].right := entry[entry[old_].right].(parent := elm)];
      TakeOver(old_, elm, child, parent);
    }

    /** The successor is the leftmost node below the right child. */
    method TakeInner(old_: Ptr, right: Ptr, ghost c: Context, ghost t: Tree) returns (parent: Ptr, child: Ptr)
      requires At(c, t) && t.Node? && t.id == old_ && t.left.Node? && t.right.Node?
      requires right == t.right.id && t.right.left.Node?
      modifies `entry, `root
      ensures var (cc, s) := Successor(c, t, Leftmost(Top, t.right).1.id);
              At(cc, s.right) && parent == Up(cc) && child == IdOf(s.right)
    {
      SuccessorApart(entry, root, c, t);
      OpenRight(entry, root, c, t);
      ghost var outer := RightOf(t.left, old_, t.redL, t.redR, c);
      ghost var (inner, s) := Leftmost(Top, t.right);
      Refocus(entry, root, outer, t.right);
      var elm := WalkLeft(entry[right].left, right, outer, t.right);
      assert Up(Compose(inner, outer)) == inner.id;
      parent, child := MoveUp(old_, elm, right);
      TookSuccessor(old(entry), entry, old(root), root, c, t);
    }

    /** The loop down to the leftmost node below `right`. */
    method WalkLeft(first: Ptr, right: Ptr, ghost outer: Context, ghost t: Tree) returns (elm: Ptr)
      requires At(outer, t) && t.Node? && t.id == right && t.left.Node? && first == t.left.id
      ensures elm == Leftmost(Top, t).1.id
    {
      elm := right;
      var child := first;
      ghost var c, u := Top, t;
      while child != 0
        invariant At(Compose(c, outer), u) && u.Node? && elm == u.id && child == IdOf(u.left)
        invariant Leftmost(c, u) == Leftmost(Top, t)
        decreases u
      {
        elm := child;
        ghost var c' := LeftOf(u.id, u.redL, u.redR, u.right, c);
        Refocus(entry, root, Compose(c', outer), u.left);
        c, u := c', u.left;
        child := entry[elm].left;
      }
      assert Lies(entry, u.left, elm);
    }

    method RemoveInner(old_: Ptr, ghost c: Context, ghost t: Tree)
      requires At(c, t) && t.Node? && t.id == old_ && t.left.Node? && t.right.Node?
      requires Balanced(t) && Fits(c, Rank(t))
      modifies `entry, `root, `tree
      ensures var (cc, m) := Successor(c, t, Leftmost(Top, t.right).1.id);
              Balanced(m.right) && !cc.Top? && Fits(cc, Rank(m.right) + 1)
      ensures tree == WithoutInner(c, t) && At(Top, tree)
    {
      RemovedInnerFits(c, t);
      var parent, child := TakeSuccessor(old_, c, t);
      ghost var (cc, m) := Successor(c, t, Leftmost(Top, t.right).1.id);
      RemoveColor(parent, child, cc, m.right);
      tree := WithoutInner(c, t);
    }

    // ---- traversal ----

    /** RB_MINMAX: the first node for a negative argument, else the last. */
    method MinMax(val: int) returns (r: Ptr)
      requires Valid()
      ensures r == 0 <==> InOrder(tree) == []
      ensures r != 0 ==> r == if val < 0 then InOrder(tree)[0] else InOrder(tree)[|InOrder(tree)| - 1]
    {
      var tmp := root;
      r := 0;
      ghost var c, t := Top, tree;
      while tmp != 0
        invariant tmp == IdOf(t) && r == Up(c) && At(c, t) && Plug(c, t) == tree
        invariant val < 0 ==> Before(c) == [] && (!c.Top? ==> After(c) != [] && After(c)[0] == r)
        invariant val >= 0 ==> After(c) == [] && (!c.Top? ==> Before(c) != [] && Before(c)[|Before(c)| - 1] == r)
        decreases t
      {
        r := tmp;
        if val < 0 {
          tmp := entry[tmp].left;
          c, t := StepLeft(c, t);
        } else {
          tmp := entry[tmp].right;
          c, t := StepRight(c, t);
        }
      }
      assert t.Nil?;
      PlugInOrder(c, t);
      assert InOrder(tree) == Before(c) + After(c);
    }

    /** RB_NEXT: the node that follows in the order of the tree. */
    method Next(elm0: Ptr, ghost k: nat) returns (elm: Ptr)
      requires Valid() && k < |InOrder(tree)| && InOrder(tree)[k] == elm0
      ensures elm == if k + 1 < |InOrder(tree)| then InOrder(tree)[k + 1] else 0
    {
      elm := elm0;
      InIds(tree, elm);
      ghost var c, t := PathTo(tree, elm);
      Whole(entry, root, c, t);
      InOrderAround(c, t);
      ghost var before, after := Before(c) + InOrder(t.left), InOrder(t.right) + After(c);
      AtPosition(fd, before, elm, after, k);
      assert Lies(entry, t.left, elm) && Lies(entry, t.right, elm);
      if entry[elm].right != 0 {
        elm := entry[elm].right;
        c, t := StepRight(c, t);
        ghost var c0, t0 := c, t;
        while entry[elm].left != 0
          invariant At(c, t) && t.Node? && elm == t.id && InOrder(t) != [] && InOrder(t)[0] == InOrder(t0)[0]
          decreases t
        {
          assert Lies(entry, t.left, elm);
          elm := entry[elm].left;
          c, t := StepLeft(c, t);
          assert Lies(entry, t, Up(c));
        }
        assert Lies(entry, t.left, elm);
        assert InOrder(t)[0] == elm;
      } else if entry[elm].parent != 0 && elm == entry[entry[elm].parent].left {
        Side(entry, root, c, t);
        elm := entry[elm].parent;
      } else {
        elm := ClimbRight(elm, c, t);
      }
    }

    static lemma AtPosition(key: map<Ptr, int>, before: seq<Ptr>, x: Ptr, after: seq<Ptr>, k: nat)
      requires Ordered(key, before + [x] + after)
      requires k < |before + [x] + after| && (before + [x] + after)[k] == x
      ensures k == |before|
    {
      assert (before + [x] + after)[|before|] == x;
    }

    /** The climb of RB_NEXT: up while the node is a right child, then once more. */
    method ClimbRight(elm0: Ptr, ghost c0: Context, ghost t0: Tree) returns (elm: Ptr)
      requires At(c0, t0) && t0.Node? && t0.id == elm0
      ensures elm == if After(c0) == [] then 0 else After(c0)[0]
    {
      elm := elm0;
      ghost var c, t := c0, t0;
      while entry[elm].parent != 0 && elm == entry[entry[elm].parent].right
        invariant At(c, t) && t.Node? && elm == t.id && After(c) == After(c0)
        decreases c
      {
        Side(entry, root, c, t);
        Refocus(entry, root, c, t);
        elm := entry[elm].parent;
        t := Attach(c, t);
        c := c.up;
      }
      if !c.Top? {
        Side(entry, root, c, t);
      }
      elm := entry[elm].parent;
    }

    /** RB_FOREACH: lists exactly the nodes of the tree, in increasing order of their keys. */
    method ForEach() returns (out: seq<Ptr>)
      requires Valid()
      ensures out == InOrder(tree) && Ordered(fd, out)
      ensures forall x :: x in out <==> x in Nodes()
    {
      out := [];
      var x := MinMax(-1);
      while x != 0
        invariant |out| <= |InOrder(tree)| && out == InOrder(tree)[..|out|]
        invariant x == if |out| < |InOrder(tree)| then InOrder(tree)[|out|] else 0
        decreases |InOrder(tree)| - |out|
      {
        NotNull(x);
        ghost var k := |out|;
        out := out + [x];
        x := Next(x, k);
      }
      if |out| < |InOrder(tree)| {
        NotNull(InOrder(tree)[|out|]);
      }
      forall y ensures y in out <==> y in Nodes() {
        InIds(tree, y);
      }
    }

    lemma NotNull(x: Ptr)
      requires Valid() && x in InOrder(tree)
      ensures x != 0
    {
      InIds(tree, x);
      LiesIds(entry, tree, 0);
    }

    /** The stated bound on the height, for every tree the operations build. */
    lemma HeightAtMost()
      requires Valid()
      ensures Pow2(Height(tree)) <= (|InOrder(tree)| + 1) * (|InOrder(tree)| + 1)
    {
      HeightBound(tree);
      SizeIsLength(tree);
    }

    static lemma {:induction false} SizeIsLength(t: Tree)
      ensures Size(t) == |InOrder(t)|
    {
      if t.Node? {
        SizeIsLength(t.left);
        SizeIsLength(t.right);
      }
    }
  }
}
