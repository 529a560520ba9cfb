/** The table of open descriptions and their reference counts.  A description is a number; its
    table slot, the calls that have looked it up and the epoll nodes that watch it hold a
    reference each.  The table is changed with the reader-writer lock held for writing; atomic
    operations on the counts are steps of their own. */
module Descriptors {
  import opened Collections

  const INT_MAX: int := 0x7fff_ffff
  const UINT32: int := 0x1_0000_0000
  const NULL: int := -1

  datatype Errno = OK | ENOMEM | SystemError

  /** `epoll`: it is an epoll descriptor, which has nodes, and which no node watches.
      `Dying`: the last reference is gone, and the thread that dropped it is about to destroy
      the description. */
  datatype Life = Alive | Dying | Gone

  datatype Description = Description(refcount: int, epoll: bool, life: Life, destroyed: int)

  /** A node of the epoll descriptor `owner` that watches the kqueue of `target`. */
  datatype NodeRef = NodeRef(owner: int, target: int)

  /** A description that is being created: its file, and itself. */
  datatype Creation = Creation(fd: int, desc: int)

  /** `held` are the references of calls in progress. */
  datatype State = State(table: seq<int>, descs: seq<Description>, held: multiset<int>, nodes: seq<NodeRef>,
                         creating: Option<Creation>)

  /** How many nodes watch `d`. */
  function Watchers(nodes: seq<NodeRef>, d: int): nat {
    if nodes == [] then 0 else Watchers(nodes[1..], d) + if nodes[0].target == d then 1 else 0
  }

  /** All references to `d`. */
  function Refs(s: State, d: int): nat {
    multiset(s.table)[d] + s.held[d] + Watchers(s.nodes, d) + if s.creating.Some? && s.creating.value.desc == d then 1 else 0
  }

  /** Every count is the number of references, and a description lives as long as it has any;
      it is destroyed once, afterwards. */
  ghost predicate Inv(s: State) {
    && (forall d :: d != NULL && !(0 <= d < |s.descs|) ==> Refs(s, d) == 0)
    && (forall d :: 0 <= d < |s.descs| ==> Counted(s.descs[d], Refs(s, d)))
    && NULL !in s.held && Watchers(s.nodes, NULL) == 0
    && (forall i :: 0 <= i < |s.nodes| ==> Owned(s, s.nodes[i]))
    && (s.creating.Some? ==>
          && 0 <= s.creating.value.fd < |s.table| && s.table[s.creating.value.fd] == NULL
          && 0 <= s.creating.value.desc < |s.descs| && s.descs[s.creating.value.desc].refcount == 1
          && forall i :: 0 <= i < |s.nodes| ==> s.nodes[i].owner != s.creating.value.desc)
  }

  ghost predicate Counted(d: Description, refs: nat) {
    && d.refcount == refs
    && (d.life == Alive <==> refs > 0)
    && d.destroyed == if d.life == Gone then 1 else 0
  }

  /** An epoll descriptor keeps its nodes until it has been destroyed. */
  ghost predicate Owned(s: State, n: NodeRef) {
    && 0 <= n.owner < |s.descs| && s.descs[n.owner].life != Gone && s.descs[n.owner].epoll
    && 0 <= n.target < |s.descs| && !s.descs[n.target].epoll
  }

  // ---- what the invariant means ----

  /** A description that anybody can still reach is alive, so that the assertions before a
      count is changed hold. */
  lemma ReachableIsAlive(s: State, d: int)
    requires Inv(s) && d != NULL
    requires d in s.table || d in s.held || (exists i :: 0 <= i < |s.nodes| && s.nodes[i].target == d)
    ensures 0 <= d < |s.descs| && s.descs[d].life == Alive && s.descs[d].refcount > 0 && s.descs[d].destroyed == 0
  {
    if exists i :: 0 <= i < |s.nodes| && s.nodes[i].target == d {
      var i :| 0 <= i < |s.nodes| && s.nodes[i].target == d;
      WatchersTerm(s.nodes, i);
    }
    assert d in s.table ==> multiset(s.table)[d] > 0;
    assert Refs(s, d) > 0;
  }

  lemma {:induction false} WatchersTerm(nodes: seq<NodeRef>, i: nat)
    requires i < |nodes|
    ensures Watchers(nodes, nodes[i].target) > 0
  {
    if i > 0 {
      WatchersTerm(nodes[1..], i - 1);
    }
  }

  /** When nothing is open and no call is in progress, everything has been destroyed, once. */
  lemma NothingLeaks(s: State, d: nat)
    requires Inv(s) && d < |s.descs| && s.creating == None && s.held == multiset{}
    requires (forall i :: 0 <= i < |s.table| ==> s.table[i] == NULL)
    requires (forall e :: 0 <= e < |s.descs| ==> s.descs[e].life != Dying)
    ensures s.descs[d].life == Gone && s.descs[d].destroyed == 1
  {
    NoNodes(s);
    assert d !in s.table;
  }

  lemma NoNodes(s: State)
    requires Inv(s) && s.creating == None && s.held == multiset{}
    requires (forall i :: 0 <= i < |s.table| ==> s.table[i] == NULL)
    requires (forall e :: 0 <= e < |s.descs| ==> s.descs[e].life != Dying)
    ensures s.nodes == []
  {
    if s.nodes != [] {
      var e := s.nodes[0].owner;
      assert e !in s.table;
      forall i | 0 <= i < |s.nodes| ensures s.nodes[i].target != e {
        assert Owned(s, s.nodes[0]) && Owned(s, s.nodes[i]);
      }
      NoWatchers(s.nodes, e);
    }
  }

  lemma {:induction false} NoWatchers(nodes: seq<NodeRef>, d: int)
    requires forall i :: 0 <= i < |nodes| ==> nodes[i].target != d
    ensures Watchers(nodes, d) == 0
  {
    if nodes != [] {
      NoWatchers(nodes[1..], d);
    }
  }

  lemma {:induction false} WatchersAppend(nodes: seq<NodeRef>, more: seq<NodeRef>, d: int)
    ensures Watchers(nodes + more, d) == Watchers(nodes, d) + Watchers(more, d)
  {
    if nodes == [] {
      assert nodes + more == more;
    } else {
      assert (nodes + more)[1..] == nodes[1..] + more;
      WatchersAppend(nodes[1..], more, d);
    }
  }

  lemma WatchersWithout(nodes: seq<NodeRef>, i: nat, d: int)
    requires i < |nodes|
    ensures Watchers(nodes, d) == Watchers(Without(nodes, i), d) + if nodes[i].target == d then 1 else 0
  {
    assert nodes == nodes[..i] + ([nodes[i]] + nodes[i + 1..]);
    WatchersAppend(nodes[..i], [nodes[i]] + nodes[i + 1..], d);
    WatchersAppend([nodes[i]], nodes[i + 1..], d);
    WatchersAppend(nodes[..i], nodes[i + 1..], d);
    assert [nodes[i]][1..] == [];
    assert Watchers([nodes[i]], d) == if nodes[i].target == d then 1 else 0;
  }

  /** What an epoll descriptor that is destroyed still watches, and the nodes of the others. */
  function TargetList(nodes: seq<NodeRef>, owner: int): seq<int> {
    if nodes == [] then []
    else (if nodes[0].owner == owner then [nodes[0].target] else []) + TargetList(nodes[1..], owner)
  }

  function TargetsOf(nodes: seq<NodeRef>, owner: int): multiset<int> { multiset(TargetList(nodes, owner)) }

  function OthersOf(nodes: seq<NodeRef>, owner: int): seq<NodeRef> {
    if nodes == [] then [] else (if nodes[0].owner == owner then [] else [nodes[0]]) + OthersOf(nodes[1..], owner)
  }

  /** No reference is lost when the nodes of a descriptor are given up. */
  lemma {:induction false} NodesSplit(nodes: seq<NodeRef>, owner: int, d: int)
    ensures Watchers(nodes, d) == Watchers(OthersOf(nodes, owner), d) + TargetsOf(nodes, owner)[d]
    ensures forall i :: 0 <= i < |OthersOf(nodes, owner)| ==> OthersOf(nodes, owner)[i] in nodes && OthersOf(nodes, owner)[i].owner != owner
  {
    if nodes != [] {
      NodesSplit(nodes[1..], owner, d);
      assert TargetsOf(nodes, owner) == (if nodes[0].owner == owner then multiset{nodes[0].target} else multiset{}) + TargetsOf(nodes[1..], owner);
      WatchersAppend(if nodes[0].owner == owner then [] else [nodes[0]], OthersOf(nodes[1..], owner), d);
      assert [nodes[0]][1..] == [];
      assert Watchers([nodes[0]], d) == if nodes[0].target == d then 1 else 0;
    }
  }

  // ---- the table, changed in place ----

  class Context {
    var openFiles: array<int>
    var descs: seq<Description>
    var held: multiset<int>
    var nodes: seq<NodeRef>
    var creating: Option<Creation>

    ghost function View(): State
      reads this, openFiles
    {
      State(openFiles[..], descs, held, nodes, creating)
    }

    ghost predicate Valid()
      reads this, openFiles
    {
      Inv(View())
    }

    constructor ()
      ensures Valid() && View() == State([], [], multiset{}, [], None) && fresh(openFiles)
    {
      openFiles := new int[0];
      descs, held, nodes, creating := [], multiset{}, [], None;
    }

    /** How long the table becomes: a power of two times 32, above the file.  The doubling does
        not leave 32 bits. */
    method SpaceNeeded(kq: int) returns (space: int)
      requires 0 <= kq <= INT_MAX
      ensures kq < space < UINT32 && space >= 32 && (space == 32 || space <= 2 * kq)
    {
      space := 32;
      while space <= kq
        invariant 32 <= space < UINT32 && (space == 32 || space <= 2 * kq)
        decreases kq - space
      {
        space := space * 2 % UINT32;
      }
    }

    /** The table grows when it must: old slots stay, new ones are empty. */
    method Grow(kq: int, memory: bool) returns (ec: Errno)
      requires Valid() && 0 <= kq <= INT_MAX
      modifies `openFiles
      ensures Valid() && View() == old(View()).(table := openFiles[..])
      ensures openFiles.Length >= old(openFiles.Length) && openFiles[..old(openFiles.Length)] == old(openFiles[..])
      ensures forall i :: old(openFiles.Length) <= i < openFiles.Length ==> openFiles[i] == NULL
      ensures openFiles == old(openFiles) || fresh(openFiles)
      ensures if ec == OK then kq < openFiles.Length else ec == ENOMEM && openFiles == old(openFiles) && !memory
    {
      if openFiles.Length > kq {
        return OK;
      }
      var space := SpaceNeeded(kq);
      if !memory {
        return ENOMEM;
      }
      var length := openFiles.Length;
      var files := new int[space](i => NULL);
      for i := 0 to length
        invariant openFiles == old(openFiles) && openFiles[..] == old(openFiles[..])
        invariant files[..i] == openFiles[..i]
        invariant forall k :: i <= k < space ==> files[k] == NULL
      {
        files[i] := openFiles[i];
      }
      GrownSame(View(), files[..]);
      openFiles := files;
      ec := OK;
    }

    // -- references --

    /** `epoll_shim_ctx_find_desc`, with the table locked for reading. */
    method FindDesc(fd: int) returns (d: int)
      requires Valid() && creating == None
      modifies `descs, `held
      ensures Valid() && openFiles[..] == old(openFiles[..])
      ensures d == if 0 <= fd < openFiles.Length then openFiles[fd] else NULL
      ensures d == NULL ==> View() == old(View())
      ensures d != NULL ==>
                && 0 <= d < |old(descs)| && old(descs[d]).life == Alive
                && held == old(held) + multiset{d}
                && descs == old(descs)[d := old(descs[d]).(refcount := old(descs[d]).refcount + 1)]
    {
      if fd < 0 || fd >= openFiles.Length {
        return NULL;
      }
      d := openFiles[fd];
      if d != NULL {
        ReachableIsAlive(View(), d);
        TakenInv(View(), d);
        descs := descs[d := descs[d].(refcount := descs[d].refcount + 1)];
        held := held + multiset{d};
      }
    }

    /** The first part of `epoll_shim_ctx_remove_desc`, with the table locked for writing: the
        slot's reference is now that of the call. */
    method RemoveDesc(fd: int) returns (d: int)
      requires Valid() && creating == None && fd >= 0
      modifies openFiles, `held
      ensures Valid() && descs == old(descs)
      ensures d == if fd < openFiles.Length then old(openFiles[fd]) else NULL
      ensures d == NULL ==> View() == old(View())
      ensures d != NULL ==> openFiles[..] == old(openFiles[..])[fd := NULL] && held == old(held) + multiset{d}
    {
      d := NULL;
      if fd < openFiles.Length {
        d := openFiles[fd];
        if d != NULL {
          ClearedInv(View(), fd);
          openFiles[fd] := NULL;
          held := held + multiset{d};
        }
        assert openFiles[..] == old(openFiles[..])[fd := NULL];
      }
    }

    /** The atomic operation of `file_description_unref`; `last` says that the description must
        be destroyed now. */
    method Release(d: int) returns (last: bool)
      requires Valid() && d in held
      modifies `descs, `held
      ensures Valid() && 0 <= d < |old(descs)| && held == old(held) - multiset{d}
      ensures last <==> old(descs[d]).refcount == 1
      ensures descs == old(descs)[d := old(descs[d]).(refcount := old(descs[d]).refcount - 1, life := if last then Dying else Alive)]
    {
      ReachableIsAlive(View(), d);
      ReleasedInv(View(), d);
      last := descs[d].refcount == 1;
      descs := descs[d := descs[d].(refcount := descs[d].refcount - 1, life := if last then Dying else Alive)];
      held := held - multiset{d};
    }

    /** `file_description_destroy`: an epoll descriptor gives up its nodes, whose references the
        call has to release. */
    method Destroy(d: int)
      requires Valid() && 0 <= d < |descs| && descs[d].life == Dying
      modifies `descs, `held, `nodes
      ensures Valid() && descs == old(descs)[d := old(descs[d]).(life := Gone, destroyed := 1)]
      ensures held == old(held) + TargetsOf(old(nodes), d) && nodes == OthersOf(old(nodes), d)
      ensures forall i :: 0 <= i < |nodes| ==> nodes[i].owner != d
    {
      GiveUp(d);
      DestroyedInv(View(), d);
      descs := descs[d := descs[d].(life := Gone, destroyed := descs[d].destroyed + 1)];
    }

    method GiveUp(d: int)
      requires Valid()
      modifies `held, `nodes
      ensures Valid() && held == old(held) + TargetsOf(old(nodes), d) && nodes == OthersOf(old(nodes), d)
      ensures forall i :: 0 <= i < |nodes| ==> nodes[i].owner != d
    {
      GivenUpInv(View(), d);
      held := held + TargetsOf(nodes, d);
      nodes := OthersOf(nodes, d);
    }

    /** `file_description_unref`, together with the destruction it may bring: that releases in
        turn what the nodes of an epoll descriptor watch, and leaves nothing half done. */
    method Unref(d: int)
      requires Valid() && d in held
      modifies `descs, `held, `nodes
      ensures Valid() && held == old(held) - multiset{d} && Follows(old(descs), descs) && 0 <= d < |descs|
      ensures if old(descs)[d].refcount == 1 then descs[d].life == Gone && nodes == OthersOf(old(nodes), d)
              else nodes == old(nodes) && descs == old(descs)[d := old(descs)[d].(refcount := old(descs)[d].refcount - 1)]
    {
      ghost var was := descs;
      var last := Release(d);
      if last {
        ghost var mid := descs;
        Bury(d);
        FollowsRelease(was, mid, descs, d);
      }
    }

    method Bury(d: int)
      requires Valid() && 0 <= d < |descs| && descs[d].life == Dying
      modifies `descs, `held, `nodes
      ensures Valid() && held == old(held) && nodes == OthersOf(old(nodes), d)
      ensures Follows(old(descs), descs) && 0 <= d < |descs| && descs[d].life == Gone
    {
      var targets := DestroyForTargets(d);
      PutBack(old(held), multiset(targets));
      ghost var mid := descs;
      ReleaseAll(targets);
      FollowsOn(old(descs), mid, descs);
    }

    method DestroyForTargets(d: int) returns (targets: seq<int>)
      requires Valid() && 0 <= d < |descs| && descs[d].life == Dying
      modifies `descs, `held, `nodes
      ensures Valid() && held == old(held) + multiset(targets) && nodes == OthersOf(old(nodes), d)
      ensures Follows(old(descs), descs) && descs[d].life == Gone
      ensures forall k :: 0 <= k < |targets| ==> 0 <= targets[k] < |descs| && !descs[targets[k]].epoll
    {
      targets := TargetList(nodes, d);
      TargetsPollable(View(), d, targets);
      Destroy(d);
    }

    method ReleaseAll(targets: seq<int>)
      requires Valid() && multiset(targets) <= held
      requires forall k :: 0 <= k < |targets| ==> 0 <= targets[k] < |descs| && !descs[targets[k]].epoll
      modifies `descs, `held, `nodes
      ensures Valid() && held == old(held) - multiset(targets) && nodes == old(nodes)
      ensures Follows(old(descs), descs)
    {
      ghost var rest := held - multiset(targets);
      assert targets[0..] == targets;
      for i := 0 to |targets|
        invariant Valid() && held == rest + multiset(targets[i..])
        invariant nodes == old(nodes) && Follows(old(descs), descs)
      {
        TakeOne(rest, targets, i);
        ReleaseTarget(targets[i]);
      }
    }

    method ReleaseTarget(t: int)
      requires Valid() && t in held && 0 <= t < |descs| && !descs[t].epoll
      modifies `descs, `held, `nodes
      ensures Valid() && held == old(held) - multiset{t} && nodes == old(nodes)
      ensures Follows(old(descs), descs)
    {
      NotAnOwner(View(), t);
      var last := Release(t);
      if last {
        DestroyLeaf(t);
      }
    }

    /** A description without nodes. */
    method DestroyLeaf(t: int)
      requires Valid() && 0 <= t < |descs| && descs[t].life == Dying
      requires forall i :: 0 <= i < |nodes| ==> nodes[i].owner != t
      modifies `descs, `held, `nodes
      ensures Valid() && held == old(held) && nodes == old(nodes)
      ensures descs == old(descs)[t := old(descs[t]).(life := Gone, destroyed := 1)]
    {
      NoneOwned(nodes, t);
      Destroy(t);
    }

    /** A kqueue is registered with an epoll descriptor: its node refers to the description, if
        that is one of this library's that can be polled. */
    method AddNode(e: int, d: int)
      requires Valid() && e in held && 0 <= e < |descs| && descs[e].epoll
      requires d == NULL || (d in held && 0 <= d < |descs|)
      modifies `descs, `nodes
      ensures Valid()
      ensures if d == NULL || old(descs)[d].epoll then View() == old(View())
              else nodes == old(nodes) + [NodeRef(e, d)] && descs == old(descs)[d := old(descs)[d].(refcount := old(descs)[d].refcount + 1)]
    {
      ReachableIsAlive(View(), e);
      if d != NULL && !descs[d].epoll {
        ReachableIsAlive(View(), d);
        WatchedInv(View(), e, d);
        descs := descs[d := descs[d].(refcount := descs[d].refcount + 1)];
        nodes := nodes + [NodeRef(e, d)];
      }
    }

    /** A node is destroyed: its reference is now that of the call. */
    method RemoveNode(i: nat)
      requires Valid() && i < |nodes|
      modifies `held, `nodes
      ensures Valid() && nodes == Without(old(nodes), i) && held == old(held) + multiset{old(nodes[i]).target}
    {
      UnwatchedInv(View(), i);
      held := held + multiset{nodes[i].target};
      nodes := Without(nodes, i);
    }

    // -- creating --

    /** What is left in the slot of a file that was closed behind the library's back is dropped:
        `file_description_unref` and the store of NULL. */
    method DropStale(fd: int)
      requires Valid() && 0 <= fd < openFiles.Length && creating == None
      modifies openFiles, `descs, `held, `nodes
      ensures Valid() && openFiles[..] == old(openFiles[..])[fd := NULL] && held == old(held) && Follows(old(descs), descs)
      ensures old(openFiles[fd]) == NULL ==> View() == old(View())
    {
      var d := openFiles[fd];
      if d == NULL {
        assert openFiles[..] == openFiles[..][fd := NULL];
        return;
      }
      d := RemoveDesc(fd);
      Unref(d);
    }

    /** An empty slot for the file. */
    method MakeSlot(kq: int, memory: bool) returns (ec: Errno)
      requires Valid() && creating == None && 0 <= kq <= INT_MAX
      modifies openFiles, `openFiles, `descs, `held, `nodes
      ensures Valid() && creating == None && openFiles.Length >= old(openFiles.Length)
      ensures forall i :: 0 <= i < openFiles.Length && i != kq ==> openFiles[i] == if i < old(openFiles.Length) then old(openFiles[i]) else NULL
      ensures held == old(held) && Follows(old(descs), descs)
      ensures kq >= old(openFiles.Length) || old(openFiles[kq]) == NULL ==> nodes == old(nodes) && descs == old(descs)
      ensures if ec == OK then kq < openFiles.Length && openFiles[kq] == NULL else ec == ENOMEM && !memory
    {
      ec := Grow(kq, memory);
      if ec == OK {
        DropStale(kq);
      }
    }

    /** `epoll_shim_ctx_create_desc` for the kqueue `kq`; on success the table stays locked. */
    method CreateDesc(kq: int, epoll: bool, memory: bool, descMemory: bool) returns (ec: Errno, d: int)
      requires Valid() && creating == None && 0 <= kq <= INT_MAX
      modifies this, openFiles
      ensures Valid() && openFiles.Length >= old(openFiles.Length)
      ensures forall i :: 0 <= i < openFiles.Length && i != kq ==> openFiles[i] == if i < old(openFiles.Length) then old(openFiles[i]) else NULL
      ensures held == old(held) && |descs| >= |old(descs)| && Follows(old(descs), descs[..|old(descs)|])
      ensures kq >= old(openFiles.Length) || old(openFiles[kq]) == NULL ==> nodes == old(nodes) && descs[..|old(descs)|] == old(descs)
      ensures if ec == OK
              then kq < openFiles.Length && openFiles[kq] == NULL && creating == Some(Creation(kq, d)) && d == |old(descs)|
                   && |descs| == d + 1 && descs[d] == Description(1, epoll, Alive, 0)
              else creating == None && |descs| == |old(descs)| && !(memory && descMemory)
    {
      d := NULL;
      ec := MakeSlot(kq, memory);
      assert descs[..|old(descs)|] == descs;
      if ec == OK {
        if descMemory {
          d := NewDescription(kq, epoll);
        } else {
          ec := ENOMEM;
        }
      }
    }

    method NewDescription(kq: int, epoll: bool) returns (d: int)
      requires Valid() && creating == None && 0 <= kq < openFiles.Length && openFiles[kq] == NULL
      modifies `descs, `creating
      ensures Valid() && d == |old(descs)| && descs == old(descs) + [Description(1, epoll, Alive, 0)]
      ensures creating == Some(Creation(kq, d))
    {
      d := |descs|;
      CreatedInv(View(), kq, epoll);
      descs := descs + [Description(1, epoll, Alive, 0)];
      creating := Some(Creation(kq, d));
    }

    /** `epoll_shim_ctx_install_desc`, which unlocks the table. */
    method InstallDesc()
      requires Valid() && creating.Some?
      modifies openFiles, `creating
      ensures Valid() && creating == None && held == old(held) && descs == old(descs)
      ensures openFiles[..] == old(openFiles[..])[old(creating.value.fd) := old(creating.value.desc)]
    {
      var c := creating.value;
      InstalledInv(View());
      openFiles[c.fd] := c.desc;
      creating := None;
      assert openFiles[..] == old(openFiles[..])[c.fd := c.desc];
    }

    /** `epoll_shim_ctx_drop_desc`, when a creation fails. */
    method DropDesc()
      requires Valid() && creating.Some?
      modifies `descs, `held, `nodes, `creating
      ensures Valid() && creating == None && openFiles[..] == old(openFiles[..])
      ensures held == old(held) && nodes == old(nodes)
      ensures descs == old(descs)[old(creating.value.desc) := old(descs[creating.value.desc]).(refcount := 0, life := Gone, destroyed := 1)]
    {
      var d := creating.value.desc;
      DroppedInv(View());
      held := held + multiset{d};
      creating := None;
      var last := Release(d);
      assert last;
      DestroyLeaf(d);
    }
  }

  lemma CreatedInv(s: State, fd: nat, epoll: bool)
    requires Inv(s) && s.creating == None && fd < |s.table| && s.table[fd] == NULL
    ensures Inv(s.(descs := s.descs + [Description(1, epoll, Alive, 0)], creating := Some(Creation(fd, |s.descs|))))
  {
    var r := s.(descs := s.descs + [Description(1, epoll, Alive, 0)], creating := Some(Creation(fd, |s.descs|)));
    assert Refs(s, |s.descs|) == 0;
    assert forall e :: Refs(r, e) == Refs(s, e) + if e == |s.descs| then 1 else 0;
    OwnedStay(s, r);
  }

  lemma InstalledInv(s: State)
    requires Inv(s) && s.creating.Some?
    ensures var c := s.creating.value; Inv(s.(table := s.table[c.fd := c.desc], creating := None))
  {
    var c := s.creating.value;
    var r := s.(table := s.table[c.fd := c.desc], creating := None);
    assert multiset(r.table) == multiset(s.table) - multiset{NULL} + multiset{c.desc};
    assert forall e :: e != NULL ==> Refs(r, e) == Refs(s, e);
    OwnedStay(s, r);
  }

  lemma DroppedInv(s: State)
    requires Inv(s) && s.creating.Some?
    ensures Inv(s.(held := s.held + multiset{s.creating.value.desc}, creating := None))
  {
    var r := s.(held := s.held + multiset{s.creating.value.desc}, creating := None);
    assert forall e :: Refs(r, e) == Refs(s, e);
    OwnedStay(s, r);
  }

  /** The same descriptions, none of them revived, and none left half destroyed. */
  ghost predicate Follows(was: seq<Description>, now: seq<Description>) {
    && |now| == |was|
    && forall e :: 0 <= e < |was| ==>
         && now[e].epoll == was[e].epoll && (was[e].life == Gone ==> now[e].life == Gone)
         && (now[e].life == Dying ==> was[e].life == Dying)
  }

  lemma FollowsRelease(was: seq<Description>, mid: seq<Description>, now: seq<Description>, d: int)
    requires 0 <= d < |was| && |mid| == |was| && mid == was[d := mid[d]] && mid[d].epoll == was[d].epoll && was[d].life == Alive
    requires Follows(mid, now) && now[d].life == Gone
    ensures Follows(was, now)
  {
  }

  lemma FollowsOn(was: seq<Description>, mid: seq<Description>, now: seq<Description>)
    requires Follows(was, mid) && Follows(mid, now)
    ensures Follows(was, now)
  {
  }

  lemma PutBack(a: multiset<int>, b: multiset<int>)
    ensures b <= a + b && a + b - b == a
  {
  }

  lemma TakeOne(rest: multiset<int>, s: seq<int>, i: nat)
    requires i < |s|
    ensures s[i] in rest + multiset(s[i..]) && rest + multiset(s[i..]) - multiset{s[i]} == rest + multiset(s[i + 1..])
  {
    assert s[i..] == [s[i]] + s[i + 1..];
    assert multiset(s[i..]) == multiset{s[i]} + multiset(s[i + 1..]);
  }

  lemma NotAnOwner(s: State, t: int)
    requires Inv(s) && 0 <= t < |s.descs| && !s.descs[t].epoll
    ensures forall i :: 0 <= i < |s.nodes| ==> s.nodes[i].owner != t
  {
    forall i | 0 <= i < |s.nodes| ensures s.nodes[i].owner != t {
      assert Owned(s, s.nodes[i]);
    }
  }

  lemma {:induction false} NoneOwned(nodes: seq<NodeRef>, t: int)
    requires forall i :: 0 <= i < |nodes| ==> nodes[i].owner != t
    ensures TargetList(nodes, t) == [] && OthersOf(nodes, t) == nodes
  {
    if nodes != [] {
      NoneOwned(nodes[1..], t);
    }
  }

  lemma TargetsPollable(s: State, d: int, targets: seq<int>)
    requires Inv(s) && targets == TargetList(s.nodes, d)
    ensures forall k :: 0 <= k < |targets| ==> 0 <= targets[k] < |s.descs| && !s.descs[targets[k]].epoll
  {
    forall k | 0 <= k < |targets| ensures 0 <= targets[k] < |s.descs| && !s.descs[targets[k]].epoll {
      var i := TargetSource(s.nodes, d, k);
      assert Owned(s, s.nodes[i]);
    }
  }

  lemma {:induction false} TargetSource(nodes: seq<NodeRef>, owner: int, k: nat) returns (i: nat)
    requires k < |TargetList(nodes, owner)|
    ensures i < |nodes| && nodes[i] == NodeRef(owner, TargetList(nodes, owner)[k])
  {
    if nodes[0].owner == owner && k == 0 {
      i := 0;
    } else {
      var j := TargetSource(nodes[1..], owner, if nodes[0].owner == owner then k - 1 else k);
      i := j + 1;
    }
  }

  lemma TakenInv(s: State, d: int)
    requires Inv(s) && s.creating == None && 0 <= d < |s.descs| && s.descs[d].life == Alive
    ensures Inv(s.(descs := s.descs[d := s.descs[d].(refcount := s.descs[d].refcount + 1)], held := s.held + multiset{d}))
  {
    var r := s.(descs := s.descs[d := s.descs[d].(refcount := s.descs[d].refcount + 1)], held := s.held + multiset{d});
    assert forall e :: Refs(r, e) == Refs(s, e) + if e == d then 1 else 0;
    OwnedStay(s, r);
  }

  /** Nodes stay owned as long as nothing is destroyed. */
  lemma OwnedStay(s: State, r: State)
    requires |s.descs| <= |r.descs| && s.nodes == r.nodes
    requires forall i :: 0 <= i < |s.nodes| ==> Owned(s, s.nodes[i])
    requires forall e :: 0 <= e < |s.descs| ==> r.descs[e].epoll == s.descs[e].epoll && (r.descs[e].life == Gone ==> s.descs[e].life == Gone)
    ensures forall i :: 0 <= i < |r.nodes| ==> Owned(r, r.nodes[i])
  {
    forall i | 0 <= i < |r.nodes| ensures Owned(r, r.nodes[i]) {
      assert Owned(s, s.nodes[i]);
    }
  }

  lemma ClearedInv(s: State, fd: nat)
    requires Inv(s) && fd < |s.table| && s.table[fd] != NULL
    ensures Inv(s.(table := s.table[fd := NULL], held := s.held + multiset{s.table[fd]}))
  {
    var d := s.table[fd];
    var r := s.(table := s.table[fd := NULL], held := s.held + multiset{d});
    assert multiset(r.table) == multiset(s.table) - multiset{d} + multiset{NULL};
    assert d in s.table && multiset(s.table)[d] > 0;
    assert forall e :: e != NULL ==> Refs(r, e) == Refs(s, e);
    OwnedStay(s, r);
  }

  lemma ReleasedInv(s: State, d: int)
    requires Inv(s) && d in s.held && 0 <= d < |s.descs| && s.descs[d].life == Alive
    ensures var n := s.descs[d].refcount;
            Inv(s.(descs := s.descs[d := s.descs[d].(refcount := n - 1, life := if n == 1 then Dying else Alive)], held := s.held - multiset{d}))
  {
    var n := s.descs[d].refcount;
    var r := s.(descs := s.descs[d := s.descs[d].(refcount := n - 1, life := if n == 1 then Dying else Alive)], held := s.held - multiset{d});
    assert forall e :: Refs(r, e) == Refs(s, e) - if e == d then 1 else 0;
    forall e | 0 <= e < |r.descs| ensures Counted(r.descs[e], Refs(r, e)) {
      assert Counted(s.descs[e], Refs(s, e));
    }
    OwnedStay(s, r);
  }

  lemma GivenUpInv(s: State, d: int)
    requires Inv(s)
    ensures Inv(s.(held := s.held + TargetsOf(s.nodes, d), nodes := OthersOf(s.nodes, d)))
    ensures forall i :: 0 <= i < |OthersOf(s.nodes, d)| ==> OthersOf(s.nodes, d)[i].owner != d
  {
    var r := s.(held := s.held + TargetsOf(s.nodes, d), nodes := OthersOf(s.nodes, d));
    forall e ensures Watchers(s.nodes, e) == Watchers(r.nodes, e) + TargetsOf(s.nodes, d)[e] {
      NodesSplit(s.nodes, d, e);
    }
    assert forall e :: Refs(r, e) == Refs(s, e);
    OthersOwned(s, d, r);
  }

  lemma OthersOwned(s: State, d: int, r: State)
    requires r.nodes == OthersOf(s.nodes, d) && r.descs == s.descs
    requires forall i :: 0 <= i < |s.nodes| ==> Owned(s, s.nodes[i])
    ensures forall i :: 0 <= i < |r.nodes| ==> Owned(r, r.nodes[i]) && r.nodes[i].owner != d && r.nodes[i] in s.nodes
  {
    NodesSplit(s.nodes, d, d);
    forall i | 0 <= i < |r.nodes| ensures Owned(r, r.nodes[i]) {
      var k :| 0 <= k < |s.nodes| && s.nodes[k] == r.nodes[i];
      assert Owned(s, s.nodes[k]);
    }
  }

  lemma DestroyedInv(s: State, d: int)
    requires Inv(s) && 0 <= d < |s.descs| && s.descs[d].life == Dying
    requires forall i :: 0 <= i < |s.nodes| ==> s.nodes[i].owner != d
    ensures Inv(s.(descs := s.descs[d := s.descs[d].(life := Gone, destroyed := s.descs[d].destroyed + 1)]))
  {
    var r := s.(descs := s.descs[d := s.descs[d].(life := Gone, destroyed := s.descs[d].destroyed + 1)]);
    assert forall e :: Refs(r, e) == Refs(s, e);
    forall i | 0 <= i < |r.nodes| ensures Owned(r, r.nodes[i]) {
      assert Owned(s, s.nodes[i]);
    }
  }

  lemma WatchedInv(s: State, owner: int, d: int)
    requires Inv(s) && d in s.held && 0 <= d < |s.descs| && s.descs[d].life == Alive && !s.descs[d].epoll
    requires owner in s.held && 0 <= owner < |s.descs| && s.descs[owner].life == Alive && s.descs[owner].epoll
    ensures Inv(s.(descs := s.descs[d := s.descs[d].(refcount := s.descs[d].refcount + 1)], nodes := s.nodes + [NodeRef(owner, d)]))
  {
    var n := NodeRef(owner, d);
    var r := s.(descs := s.descs[d := s.descs[d].(refcount := s.descs[d].refcount + 1)], nodes := s.nodes + [n]);
    forall e ensures Watchers(r.nodes, e) == Watchers(s.nodes, e) + if e == d then 1 else 0 {
      WatchersAppend(s.nodes, [n], e);
      assert [n][1..] == [];
      assert Watchers([n], e) == if e == d then 1 else 0;
    }
    assert forall e :: Refs(r, e) == Refs(s, e) + if e == d then 1 else 0;
    forall i | 0 <= i < |r.nodes| ensures Owned(r, r.nodes[i]) {
      if i < |s.nodes| {
        assert Owned(s, s.nodes[i]);
      }
    }
  }

  lemma UnwatchedInv(s: State, i: nat)
    requires Inv(s) && i < |s.nodes|
    ensures Inv(s.(held := s.held + multiset{s.nodes[i].target}, nodes := Without(s.nodes, i)))
  {
    var r := s.(held := s.held + multiset{s.nodes[i].target}, nodes := Without(s.nodes, i));
    assert Owned(s, s.nodes[i]);
    forall e ensures Refs(r, e) == Refs(s, e) && Watchers(r.nodes, e) <= Watchers(s.nodes, e) {
      WatchersWithout(s.nodes, i, e);
    }
    forall k | 0 <= k < |r.nodes| ensures Owned(r, r.nodes[k]) {
      assert Owned(s, s.nodes[if k < i then k else k + 1]);
    }
  }

  lemma GrownSame(s: State, table: seq<int>)
    requires Inv(s) && |s.table| <= |table| && table[..|s.table|] == s.table
    requires forall i :: |s.table| <= i < |table| ==> table[i] == NULL
    ensures Inv(s.(table := table))
  {
    var more := table[|s.table|..];
    assert table == s.table + more;
    assert forall d :: d != NULL ==> d !in more;
    assert forall d :: d != NULL ==> multiset(table)[d] == multiset(s.table)[d];
    assert forall d :: d != NULL ==> Refs(s.(table := table), d) == Refs(s, d);
  }
}
