/** Rank-balanced trees as values: the shape of a tree, the rank rule its red bits encode,
    and what the two fix-up loops do to a tree with one edge out of rank.

    A red bit on an edge says that the ranks at its ends differ by 2, a clear bit that they
    differ by 1; the missing child has rank -1. */
module RankTree {

  /** A node's address; 0 is the null pointer. */
  type Ptr = nat

  datatype Tree =
    | Nil
    | Node(left: Tree, id: Ptr, redL: bool, redR: bool, right: Tree)

  /** A tree with one subtree taken out: the path from the hole up to the root. */
  datatype Context =
    | Top
    | LeftOf(id: Ptr, redL: bool, redR: bool, sibling: Tree, up: Context)
    | RightOf(sibling: Tree, id: Ptr, redL: bool, redR: bool, up: Context)

  function Plug(c: Context, t: Tree): Tree {
    match c
    case Top => t
    case LeftOf(p, a, b, sib, up) => Plug(up, Node(t, p, a, b, sib))
    case RightOf(sib, p, a, b, up) => Plug(up, Node(sib, p, a, b, t))
  }

  function InOrder(t: Tree): seq<Ptr> {
    match t
    case Nil => []
    case Node(l, p, _, _, r) => InOrder(l) + [p] + InOrder(r)
  }

  /** The nodes before and after the hole, in order. */
  function Before(c: Context): seq<Ptr> {
    match c
    case Top => []
    case LeftOf(_, _, _, _, up) => Before(up)
    case RightOf(sib, p, _, _, up) => Before(up) + InOrder(sib) + [p]
  }

  function After(c: Context): seq<Ptr> {
    match c
    case Top => []
    case LeftOf(p, _, _, sib, up) => [p] + InOrder(sib) + After(up)
    case RightOf(_, _, _, _, up) => After(up)
  }

  lemma {:induction false} PlugInOrder(c: Context, t: Tree)
    ensures InOrder(Plug(c, t)) == Before(c) + InOrder(t) + After(c)
  {
    match c
    case Top =>
    case LeftOf(p, a, b, sib, up) =>
      PlugInOrder(up, Node(t, p, a, b, sib));
      Reassociate(Before(up), InOrder(t), [p], InOrder(sib), After(up));
    case RightOf(sib, p, a, b, up) =>
      PlugInOrder(up, Node(sib, p, a, b, t));
      Reassociate(Before(up), InOrder(sib), [p], InOrder(t), After(up));
  }

  lemma Reassociate<T>(a: seq<T>, b: seq<T>, c: seq<T>, d: seq<T>, e: seq<T>)
    ensures a + (b + c + d) + e == a + b + (c + d + e)
    ensures a + (b + c + d) + e == a + b + c + d + e
    ensures a + (b + c + d) + e == (a + b) + c + (d + e)
  {
  }

  // ---- ranks ----

  function Diff(red: bool): int { if red then 2 else 1 }

  function Rank(t: Tree): int {
    if t.Nil? then -1 else Rank(t.left) + Diff(t.redL)
  }

  /** The weak-AVL rule: both ways down give the same rank, every difference is 1 or 2,
      and no leaf has two red edges. */
  ghost predicate Balanced(t: Tree) {
    t.Node? ==>
      && Balanced(t.left) && Balanced(t.right)
      && Rank(t.left) + Diff(t.redL) == Rank(t.right) + Diff(t.redR)
      && !(t.left.Nil? && t.right.Nil? && t.redL)
  }

  /** Plugging a balanced tree of rank `k` into the hole makes the whole tree balanced. */
  ghost predicate Fits(c: Context, k: int) {
    match c
    case Top => true
    case LeftOf(_, a, b, sib, up) =>
      && Balanced(sib) && k + Diff(a) == Rank(sib) + Diff(b)
      && !(k == -1 && sib.Nil? && a) && Fits(up, k + Diff(a))
    case RightOf(sib, _, a, b, up) =>
      && Balanced(sib) && k + Diff(b) == Rank(sib) + Diff(a)
      && !(k == -1 && sib.Nil? && b) && Fits(up, k + Diff(b))
  }

  lemma {:induction false} RankSign(t: Tree)
    requires Balanced(t)
    ensures Rank(t) >= -1 && (Rank(t) == -1 <==> t.Nil?)
  {
    if t.Node? {
      RankSign(t.left);
    }
  }

  lemma {:induction false} PlugBalanced(c: Context, t: Tree)
    ensures Balanced(Plug(c, t)) <==> Balanced(t) && Fits(c, Rank(t))
  {
    match c
    case Top =>
    case LeftOf(p, a, b, sib, up) =>
      PlugBalanced(up, Node(t, p, a, b, sib));
      LevelBalanced(t, p, a, b, sib);
    case RightOf(sib, p, a, b, up) =>
      PlugBalanced(up, Node(sib, p, a, b, t));
      LevelBalanced(sib, p, a, b, t);
  }

  /** The rule at one node, by ranks. */
  lemma LevelBalanced(l: Tree, p: Ptr, a: bool, b: bool, r: Tree)
    ensures var u, kl, kr := Node(l, p, a, b, r), Rank(l) + Diff(a), Rank(r) + Diff(b);
            && (Balanced(u) <==>
                  && Balanced(l) && Balanced(r) && kl == kr
                  && !(Rank(l) == -1 && r.Nil? && a) && !(Rank(r) == -1 && l.Nil? && b))
            && Rank(u) == kl
  {
    if Balanced(l) && Balanced(r) {
      RankSign(l);
      RankSign(r);
    }
  }

  // ---- the height bound ----

  function Height(t: Tree): nat {
    if t.Nil? then 0 else
      1 + if Height(t.left) >= Height(t.right) then Height(t.left) else Height(t.right)
  }

  function Size(t: Tree): nat {
    if t.Nil? then 0 else Size(t.left) + 1 + Size(t.right)
  }

  function Pow2(n: nat): (p: nat)
    ensures p >= 1
  {
    if n == 0 then 1 else 2 * Pow2(n - 1)
  }

  lemma {:induction false} Pow2Monotone(m: nat, n: nat)
    requires m <= n
    ensures Pow2(m) <= Pow2(n)
  {
    if m < n {
      Pow2Monotone(m, n - 1);
    }
  }

  lemma {:induction false} HeightRank(t: Tree)
    requires Balanced(t)
    ensures Height(t) <= Rank(t) + 1
  {
    if t.Node? {
      HeightRank(t.left);
      HeightRank(t.right);
    }
  }

  lemma MulLe(x: nat, y: nat, z: nat)
    requires y <= z
    ensures x * y <= x * z
  {
  }

  /** Two numbers whose squares reach a bound have a sum whose square reaches four times it. */
  lemma SquareOfSum(a: nat, b: nat, k: nat)
    requires a * a >= k && b * b >= k
    ensures (a + b) * (a + b) >= 4 * k
  {
    if a <= b {
      MulLe(a, a, b);
    } else {
      MulLe(b, b, a);
    }
    assert (a + b) * (a + b) == a * a + 2 * (a * b) + b * b;
  }

  lemma {:induction false} SizeRank(t: Tree)
    requires Balanced(t)
    ensures Rank(t) >= -1
    ensures (Size(t) + 1) * (Size(t) + 1) >= Pow2(Rank(t) + 1)
  {
    RankSign(t);
    if t.Node? {
      RankSign(t.left);
      RankSign(t.right);
      SizeRank(t.left);
      SizeRank(t.right);
      var r := Rank(t);
      if r == 0 {
        assert (Size(t) + 1) * (Size(t) + 1) >= 4;
      } else {
        Pow2Monotone(r - 1, Rank(t.left) + 1);
        Pow2Monotone(r - 1, Rank(t.right) + 1);
        SquareOfSum(Size(t.left) + 1, Size(t.right) + 1, Pow2(r - 1));
        assert Pow2(r + 1) == 4 * Pow2(r - 1);
      }
    }
  }

  /** The stated bound: the height is at most 2 lg(n + 1). */
  lemma HeightBound(t: Tree)
    requires Balanced(t)
    ensures Pow2(Height(t)) <= (Size(t) + 1) * (Size(t) + 1)
  {
    HeightRank(t);
    SizeRank(t);
    Pow2Monotone(Height(t), Rank(t) + 1);
  }

  // ---- rotations ----

  function RotateLeft(t: Tree): Tree
    requires t.Node? && t.right.Node?
  {
    var y := t.right;
    y.(left := t.(right := y.left))
  }

  function RotateRight(t: Tree): Tree
    requires t.Node? && t.left.Node?
  {
    var y := t.left;
    y.(right := t.(left := y.right))
  }

  // ---- insertion ----

  /** The subtree that just grew by one rank: a fresh leaf, or a promoted node, which has
      exactly one red edge and grew on its other side. */
  ghost predicate Grown(t: Tree) {
    && t.Node?
    && if t.left.Nil? && t.right.Nil? then !t.redL && !t.redR
       else t.redL != t.redR && Grown(if t.redL then t.right else t.left)
  }

  /** What the insertion fix-up makes of a tree whose hole holds a subtree one rank higher
      than the bits around it say. */
  function InsertFix(c: Context, t: Tree): (r: Tree)
    requires Balanced(t) && Grown(t) && Fits(c, Rank(t) - 1)
    ensures Balanced(r)
    decreases c
  {
    RankSign(t);
    match c
    case Top => t
    case LeftOf(p, a, b, sib, up) =>
      RankSign(sib);
      if a then
        PlugBalanced(up, Node(t, p, false, b, sib));
        Plug(up, Node(t, p, false, b, sib))
      else if !b then
        InsertFix(up, Node(t, p, false, true, sib))
      else
        var u := RightHeavyFix(t, p, sib);
        PlugBalanced(up, u);
        Plug(up, u)
    case RightOf(sib, p, a, b, up) =>
      RankSign(sib);
      if b then
        PlugBalanced(up, Node(sib, p, a, false, t));
        Plug(up, Node(sib, p, a, false, t))
      else if !a then
        InsertFix(up, Node(sib, p, true, false, t))
      else
        var u := LeftHeavyFix(sib, p, t);
        PlugBalanced(up, u);
        Plug(up, u)
  }

  /** The rotation for a left child at its parent's rank: single when its right edge is red,
      double otherwise. */
  function RightHeavyFix(t: Tree, p: Ptr, sib: Tree): (u: Tree)
    requires Balanced(t) && Grown(t) && Balanced(sib) && Rank(t) == Rank(sib) + 2
    ensures Balanced(u) && Rank(u) == Rank(t)
  {
    RankSign(sib);
    RankSign(t.left);
    RankSign(t.right);
    if t.redR then
      Node(t.left, t.id, false, false, Node(t.right, p, false, false, sib))
    else
      var child := t.right;
      RankSign(child.left);
      RankSign(child.right);
      Node(Node(t.left, t.id, false, child.redL, child.left), child.id, false, false,
           Node(child.right, p, child.redR, false, sib))
  }

  function LeftHeavyFix(sib: Tree, p: Ptr, t: Tree): (u: Tree)
    requires Balanced(t) && Grown(t) && Balanced(sib) && Rank(t) == Rank(sib) + 2
    ensures Balanced(u) && Rank(u) == Rank(t)
  {
    RankSign(sib);
    RankSign(t.left);
    RankSign(t.right);
    if t.redL then
      Node(Node(sib, p, false, false, t.left), t.id, false, false, t.right)
    else
      var child := t.left;
      RankSign(child.left);
      RankSign(child.right);
      Node(Node(sib, p, false, child.redL, child.left), child.id, false, false,
           Node(child.right, t.id, child.redR, false, t.right))
  }

  lemma RightHeavyFixInOrder(t: Tree, p: Ptr, sib: Tree)
    requires Balanced(t) && Grown(t) && Balanced(sib) && Rank(t) == Rank(sib) + 2
    ensures InOrder(RightHeavyFix(t, p, sib)) == InOrder(t) + [p] + InOrder(sib)
  {
    RankSign(sib);
    RankSign(t.left);
    RankSign(t.right);
  }

  lemma LeftHeavyFixInOrder(sib: Tree, p: Ptr, t: Tree)
    requires Balanced(t) && Grown(t) && Balanced(sib) && Rank(t) == Rank(sib) + 2
    ensures InOrder(LeftHeavyFix(sib, p, t)) == InOrder(sib) + [p] + InOrder(t)
  {
    RankSign(sib);
    RankSign(t.left);
    RankSign(t.right);
  }

  /** Only the order within the hole matters to the order of the whole. */
  lemma SameInOrder(c: Context, t: Tree, u: Tree)
    requires InOrder(t) == InOrder(u)
    ensures InOrder(Plug(c, t)) == InOrder(Plug(c, u))
  {
    PlugInOrder(c, t);
    PlugInOrder(c, u);
  }

  /** The insertion fix-up moves no node past another. */
  lemma {:induction false} InsertFixInOrder(c: Context, t: Tree)
    requires Balanced(t) && Grown(t) && Fits(c, Rank(t) - 1)
    ensures InOrder(InsertFix(c, t)) == InOrder(Plug(c, t))
    decreases c, 1
  {
    if c.LeftOf? {
      InsertLeftInOrder(c, t);
    } else if c.RightOf? {
      InsertRightInOrder(c, t);
    }
  }

  lemma {:induction false} InsertLeftInOrder(c: Context, t: Tree)
    requires Balanced(t) && Grown(t) && c.LeftOf? && Fits(c, Rank(t) - 1)
    ensures InOrder(InsertFix(c, t)) == InOrder(Plug(c, t))
    decreases c, 0
  {
    RankSign(t);
    RankSign(c.sibling);
    var LeftOf(p, a, b, sib, up) := c;
    var was := Node(t, p, a, b, sib);
    if a {
      SameInOrder(up, was, Node(t, p, false, b, sib));
    } else if !b {
      InsertFixInOrder(up, Node(t, p, false, true, sib));
      SameInOrder(up, was, Node(t, p, false, true, sib));
    } else {
      RightHeavyFixInOrder(t, p, sib);
      SameInOrder(up, was, RightHeavyFix(t, p, sib));
    }
  }

  lemma {:induction false} InsertRightInOrder(c: Context, t: Tree)
    requires Balanced(t) && Grown(t) && c.RightOf? && Fits(c, Rank(t) - 1)
    ensures InOrder(InsertFix(c, t)) == InOrder(Plug(c, t))
    decreases c, 0
  {
    RankSign(t);
    RankSign(c.sibling);
    var RightOf(sib, p, a, b, up) := c;
    var was := Node(sib, p, a, b, t);
    if b {
      SameInOrder(up, was, Node(sib, p, a, false, t));
    } else if !a {
      InsertFixInOrder(up, Node(sib, p, true, false, t));
      SameInOrder(up, was, Node(sib, p, true, false, t));
    } else {
      LeftHeavyFixInOrder(sib, p, t);
      SameInOrder(up, was, LeftHeavyFix(sib, p, t));
    }
  }

  // ---- removal ----

  /** What the removal fix-up makes of a tree whose hole holds a subtree one rank lower
      than the bits around it say: the first test of the code, for a parent that has become
      a leaf, and then the climb. */
  function RemoveFix(c: Context, t: Tree): (r: Tree)
    requires Balanced(t) && !c.Top? && Fits(c, Rank(t) + 1)
    ensures Balanced(r)
  {
    RankSign(t);
    RankSign(c.sibling);
    if t.Nil? && c.sibling.Nil? then
      Climb(c.up, Node(Nil, c.id, false, false, Nil))
    else
      Demote(c, t)
  }

  /** On to the parent, unless the root is reached. */
  function Climb(c: Context, t: Tree): (r: Tree)
    requires Balanced(t) && Fits(c, Rank(t) + 1) && t.Node?
    ensures Balanced(r)
    decreases c, 2
  {
    RankSign(t);
    if c.Top? then t else Demote(c, t)
  }

  /** One pass of the removal loop. */
  function Demote(c: Context, t: Tree): (r: Tree)
    requires Balanced(t) && !c.Top? && Fits(c, Rank(t) + 1) && !(t.Nil? && c.sibling.Nil?)
    ensures Balanced(r)
    decreases c, 1
  {
    if c.LeftOf? then DemoteLeft(c, t) else DemoteRight(c, t)
  }

  function DemoteLeft(c: Context, t: Tree): (r: Tree)
    requires Balanced(t) && c.LeftOf? && Fits(c, Rank(t) + 1) && !(t.Nil? && c.sibling.Nil?)
    ensures Balanced(r)
    decreases c, 0
  {
    RankSign(t);
    RankSign(c.sibling);
    var LeftOf(p, a, b, sib, up) := c;
    if !a then
      PlugBalanced(up, Node(t, p, true, b, sib));
      Plug(up, Node(t, p, true, b, sib))
    else if b then
      Climb(up, Node(t, p, true, false, sib))
    else if sib.redL && sib.redR then
      var low := sib.(redL := false, redR := false);
      assert Rank(low) == Rank(sib) - 1;
      Climb(up, Node(t, p, true, false, low))
    else
      var u := LeftLightFix(t, p, sib);
      PlugBalanced(up, u);
      Plug(up, u)
  }

  function DemoteRight(c: Context, t: Tree): (r: Tree)
    requires Balanced(t) && c.RightOf? && Fits(c, Rank(t) + 1) && !(t.Nil? && c.sibling.Nil?)
    ensures Balanced(r)
    decreases c, 0
  {
    RankSign(t);
    RankSign(c.sibling);
    var RightOf(sib, p, a, b, up) := c;
    if !b then
      PlugBalanced(up, Node(sib, p, a, true, t));
      Plug(up, Node(sib, p, a, true, t))
    else if a then
      Climb(up, Node(sib, p, false, true, t))
    else if sib.redL && sib.redR then
      var low := sib.(redL := false, redR := false);
      assert Rank(low) == Rank(sib) - 1;
      Climb(up, Node(low, p, false, true, t))
    else
      var u := RightLightFix(sib, p, t);
      PlugBalanced(up, u);
      Plug(up, u)
  }

  /** The rotation for a left child three ranks below its parent. */
  function LeftLightFix(t: Tree, p: Ptr, sib: Tree): (u: Tree)
    requires Balanced(t) && Balanced(sib) && Rank(sib) == Rank(t) + 2
    requires sib.Node? && !(sib.redL && sib.redR)
    ensures Balanced(u) && Rank(u) == Rank(sib) + 1
  {
    RankSign(t);
    RankSign(sib);
    RankSign(sib.left);
    RankSign(sib.right);
    if sib.redL then
      Node(Node(t, p, false, false, sib.left), sib.id, true, true, sib.right)
    else if sib.redR then
      var e := sib.left;
      RankSign(e.left);
      RankSign(e.right);
      Node(Node(t, p, false, e.redL, e.left), e.id, true, true,
           Node(e.right, sib.id, e.redR, false, sib.right))
    else
      Node(Node(t, p, true, false, sib.left), sib.id, false, true, sib.right)
  }

  function RightLightFix(sib: Tree, p: Ptr, t: Tree): (u: Tree)
    requires Balanced(t) && Balanced(sib) && Rank(sib) == Rank(t) + 2
    requires sib.Node? && !(sib.redL && sib.redR)
    ensures Balanced(u) && Rank(u) == Rank(sib) + 1
  {
    RankSign(t);
    RankSign(sib);
    RankSign(sib.left);
    RankSign(sib.right);
    if sib.redR then
      Node(sib.left, sib.id, true, true, Node(sib.right, p, false, false, t))
    else if sib.redL then
      var e := sib.right;
      RankSign(e.left);
      RankSign(e.right);
      Node(Node(sib.left, sib.id, false, e.redL, e.left), e.id, true, true,
           Node(e.right, p, e.redR, false, t))
    else
      Node(sib.left, sib.id, true, false, Node(sib.right, p, false, true, t))
  }

  lemma LeftLightFixInOrder(t: Tree, p: Ptr, sib: Tree)
    requires Balanced(t) && Balanced(sib) && Rank(sib) == Rank(t) + 2
    requires sib.Node? && !(sib.redL && sib.redR)
    ensures InOrder(LeftLightFix(t, p, sib)) == InOrder(t) + [p] + InOrder(sib)
  {
    RankSign(t);
    RankSign(sib.left);
    RankSign(sib.right);
    Turned(InOrder(t), [p], InOrder(sib.left), [sib.id], InOrder(sib.right));
    if !sib.redL && sib.redR {
      var e := sib.left;
      TurnedTwice(InOrder(t), [p], InOrder(e.left), [e.id], InOrder(e.right), [sib.id], InOrder(sib.right));
    }
  }

  lemma Turned<T>(a: seq<T>, p: seq<T>, b: seq<T>, q: seq<T>, c: seq<T>)
    ensures a + p + (b + q + c) == (a + p + b) + q + c
  {
  }

  lemma TurnedTwice<T>(a: seq<T>, p: seq<T>, b: seq<T>, e: seq<T>, c: seq<T>, q: seq<T>, d: seq<T>)
    ensures a + p + ((b + e + c) + q + d) == (a + p + b) + e + (c + q + d)
    ensures (a + p + (b + e + c)) + q + d == (a + p + b) + e + (c + q + d)
  {
  }

  lemma RightLightFixInOrder(sib: Tree, p: Ptr, t: Tree)
    requires Balanced(t) && Balanced(sib) && Rank(sib) == Rank(t) + 2
    requires sib.Node? && !(sib.redL && sib.redR)
    ensures InOrder(RightLightFix(sib, p, t)) == InOrder(sib) + [p] + InOrder(t)
  {
    RankSign(t);
    RankSign(sib.left);
    RankSign(sib.right);
    Turned(InOrder(sib.left), [sib.id], InOrder(sib.right), [p], InOrder(t));
    if !sib.redR && sib.redL {
      var e := sib.right;
      TurnedTwice(InOrder(sib.left), [sib.id], InOrder(e.left), [e.id], InOrder(e.right), [p], InOrder(t));
    }
  }

  /** The removal fix-up moves no node past another. */
  lemma RemoveFixInOrder(c: Context, t: Tree)
    requires Balanced(t) && !c.Top? && Fits(c, Rank(t) + 1)
    ensures InOrder(RemoveFix(c, t)) == InOrder(Plug(c, t))
  {
    RankSign(t);
    RankSign(c.sibling);
    if t.Nil? && c.sibling.Nil? {
      var leaf := Node(Nil, c.id, false, false, Nil);
      ClimbInOrder(c.up, leaf);
      SameInOrder(c.up, leaf, Node(Nil, c.id, c.redL, c.redR, Nil));
    } else {
      DemoteInOrder(c, t);
    }
  }

  lemma {:induction false} ClimbInOrder(c: Context, t: Tree)
    requires Balanced(t) && Fits(c, Rank(t) + 1) && t.Node?
    ensures InOrder(Climb(c, t)) == InOrder(Plug(c, t))
    decreases c, 2
  {
    RankSign(t);
    if !c.Top? {
      DemoteInOrder(c, t);
    }
  }

  lemma {:induction false} DemoteInOrder(c: Context, t: Tree)
    requires Balanced(t) && !c.Top? && Fits(c, Rank(t) + 1) && !(t.Nil? && c.sibling.Nil?)
    ensures InOrder(Demote(c, t)) == InOrder(Plug(c, t))
    decreases c, 1
  {
    if c.LeftOf? {
      DemoteLeftInOrder(c, t);
    } else {
      DemoteRightInOrder(c, t);
    }
  }

  lemma {:induction false} DemoteLeftInOrder(c: Context, t: Tree)
    requires Balanced(t) && c.LeftOf? && Fits(c, Rank(t) + 1) && !(t.Nil? && c.sibling.Nil?)
    ensures InOrder(DemoteLeft(c, t)) == InOrder(Plug(c, t))
    decreases c, 0
  {
    RankSign(t);
    RankSign(c.sibling);
    var LeftOf(p, a, b, sib, up) := c;
    var was := Node(t, p, a, b, sib);
    if !a {
      SameInOrder(up, was, Node(t, p, true, b, sib));
    } else if b {
      ClimbInOrder(up, Node(t, p, true, false, sib));
      SameInOrder(up, was, Node(t, p, true, false, sib));
    } else if sib.redL && sib.redR {
      var low := sib.(redL := false, redR := false);
      assert Rank(low) == Rank(sib) - 1;
      ClimbInOrder(up, Node(t, p, true, false, low));
      SameInOrder(up, was, Node(t, p, true, false, low));
    } else {
      LeftLightFixInOrder(t, p, sib);
      SameInOrder(up, was, LeftLightFix(t, p, sib));
    }
  }

  lemma {:induction false} DemoteRightInOrder(c: Context, t: Tree)
    requires Balanced(t) && c.RightOf? && Fits(c, Rank(t) + 1) && !(t.Nil? && c.sibling.Nil?)
    ensures InOrder(DemoteRight(c, t)) == InOrder(Plug(c, t))
    decreases c, 0
  {
    RankSign(t);
    RankSign(c.sibling);
    var RightOf(sib, p, a, b, up) := c;
    var was := Node(sib, p, a, b, t);
    if !b {
      SameInOrder(up, was, Node(sib, p, a, true, t));
    } else if a {
      ClimbInOrder(up, Node(sib, p, false, true, t));
      SameInOrder(up, was, Node(sib, p, false, true, t));
    } else if sib.redL && sib.redR {
      var low := sib.(redL := false, redR := false);
      assert Rank(low) == Rank(sib) - 1;
      ClimbInOrder(up, Node(low, p, false, true, t));
      SameInOrder(up, was, Node(low, p, false, true, t));
    } else {
      RightLightFixInOrder(sib, p, t);
      SameInOrder(up, was, RightLightFix(sib, p, t));
    }
  }

  // ---- keys ----

  /** The nodes of `s` have keys, in strictly increasing order. */
  ghost predicate Ordered(key: map<Ptr, int>, s: seq<Ptr>) {
    && (forall i :: 0 <= i < |s| ==> s[i] in key)
    && (forall i, j :: 0 <= i < j < |s| ==> key[s[i]] < key[s[j]])
  }

  /** In an ordered sequence, what stands before a node has a smaller key, what stands after
      it a larger one. */
  lemma AroundNode(key: map<Ptr, int>, s: seq<Ptr>, before: seq<Ptr>, p: Ptr, after: seq<Ptr>)
    requires Ordered(key, s) && s == before + [p] + after
    ensures p in key
    ensures forall x :: x in before ==> x in key && key[x] < key[p]
    ensures forall x :: x in after ==> x in key && key[p] < key[x]
  {
    assert s[|before|] == p;
    forall x | x in before ensures x in key && key[x] < key[p] {
      var i :| 0 <= i < |before| && before[i] == x;
      assert s[i] == x;
    }
    forall x | x in after ensures x in key && key[p] < key[x] {
      var i :| 0 <= i < |after| && after[i] == x;
      assert s[|before| + 1 + i] == x;
    }
  }

  lemma OrderedInsert(key: map<Ptr, int>, before: seq<Ptr>, p: Ptr, after: seq<Ptr>)
    requires Ordered(key, before + after) && p in key
    requires forall x :: x in before ==> x in key && key[x] < key[p]
    requires forall x :: x in after ==> x in key && key[p] < key[x]
    ensures Ordered(key, before + [p] + after)
  {
    var s, s' := before + after, before + [p] + after;
    forall i | 0 <= i < |s'| ensures s'[i] in key
    {
      assert i < |before| ==> s'[i] == s[i];
      assert i > |before| ==> s'[i] == s[i - 1];
    }
    forall i, j | 0 <= i < j < |s'| ensures key[s'[i]] < key[s'[j]] {
      var i', j' := if i <= |before| then i else i - 1, if j <= |before| then j else j - 1;
      assert i != |before| ==> s'[i] == s[i'];
      assert j != |before| ==> s'[j] == s[j'];
      assert i < |before| ==> s'[i] in before;
      assert j > |before| ==> s'[j] in after;
    }
  }

  lemma OrderedRemove(key: map<Ptr, int>, before: seq<Ptr>, p: Ptr, after: seq<Ptr>)
    requires Ordered(key, before + [p] + after)
    ensures Ordered(key, before + after) && p !in before + after
  {
    var s, s' := before + [p] + after, before + after;
    forall i | 0 <= i < |s'| ensures s'[i] in key && s'[i] != p {
      var i' := if i < |before| then i else i + 1;
      assert s[i'] == s'[i] && s[|before|] == p;
    }
    forall i, j | 0 <= i < j < |s'| ensures key[s'[i]] < key[s'[j]] {
      var i', j' := if i < |before| then i else i + 1, if j < |before| then j else j + 1;
      assert s[i'] == s'[i] && s[j'] == s'[j];
    }
  }

  /** A node's key separates what is left of it in the whole tree from what is right of it. */
  lemma DescendKeys(key: map<Ptr, int>, c: Context, t: Tree)
    requires t.Node? && Ordered(key, InOrder(Plug(c, t)))
    ensures t.id in key
    ensures forall x :: x in Before(c) || x in InOrder(t.left) ==> x in key && key[x] < key[t.id]
    ensures forall x :: x in InOrder(t.right) || x in After(c) ==> x in key && key[t.id] < key[x]
  {
    PlugInOrder(c, t);
    Reassociate(Before(c), InOrder(t.left), [t.id], InOrder(t.right), After(c));
    var before, after := Before(c) + InOrder(t.left), InOrder(t.right) + After(c);
    AroundNode(key, InOrder(Plug(c, t)), before, t.id, after);
    assert forall x :: x in Before(c) || x in InOrder(t.left) ==> x in before;
    assert forall x :: x in InOrder(t.right) || x in After(c) ==> x in after;
  }

  // ---- the leftmost node ----

  /** The path to the leftmost node of a tree, and the subtree it roots. */
  function Leftmost(c: Context, t: Tree): (r: (Context, Tree))
    requires t.Node?
    ensures r.1.Node? && r.1.left.Nil? && Plug(r.0, r.1) == Plug(c, t)
    decreases t
  {
    if t.left.Nil? then (c, t) else Leftmost(LeftOf(t.id, t.redL, t.redR, t.right, c), t.left)
  }

  lemma {:induction false} LeftmostBefore(c: Context, t: Tree)
    requires t.Node?
    ensures Before(Leftmost(c, t).0) == Before(c)
    decreases t
  {
    if t.left.Node? {
      LeftmostBefore(LeftOf(t.id, t.redL, t.redR, t.right, c), t.left);
    }
  }

  /** A node with at most one child is one rank above that child. */
  lemma OneChildRank(t: Tree)
    requires Balanced(t) && t.Node? && (t.left.Nil? || t.right.Nil?)
    ensures t.left.Nil? ==> Rank(t.right) == Rank(t) - 1
    ensures t.right.Nil? ==> Rank(t.left) == Rank(t) - 1
  {
    RankSign(t.left);
    RankSign(t.right);
  }
}
