/** The blocks of a segment on the heap, and the merging walk of lib/Vistor/TU_Vistor.cpp over them. */
module TuVisitors {
  import opened Blocks
  import opened LinkLists
  import opened Tbs
  import opened Merge
  import opened Graphs
  import opened Walks

  // ----- blocks on the heap as a graph value -----

  function Opt(tb: TB?): Option<TB> { if tb == null then None else Some(tb) }

  /** The blocks are separate in memory, have distinct addresses, and link only to each other. */
  ghost predicate Heap(order: seq<TB>)
    reads order, set b | b in order :: b.insns, set b, n | b in order && n in b.insns.Repr :: n
  {
    && (forall b :: b in order ==> b.Valid() && Inside(order, b.trueBranch) && Inside(order, b.falseBranch))
    && (forall a, b :: a in order && b in order && a != b ==>
          a.x86Addr != b.x86Addr && a.insns != b.insns && a.insns.Repr !! b.insns.Repr)
  }

  predicate Inside(order: seq<TB>, b: TB?) { b != null ==> b in order }

  ghost function NodeOf(b: TB): Node<TB>
    requires b.Valid()
    reads b`rels, b`relsValid, b`bInsns, b`bneInsns, b`otherBInsns, b`jmpReset, b`jmpTarget, b.insns, b.insns.Repr,
          b`trueBranch, b`falseBranch
  {
    Node(b.View(), [Opt(b.falseBranch), Opt(b.trueBranch)])
  }

  ghost function Snapshot(order: seq<TB>): (p: map<TB, Node<TB>>)
    requires Heap(order)
    reads order, set b | b in order :: b.insns, set b, n | b in order && n in b.insns.Repr :: n
    ensures p.Keys == set b | b in order
    ensures forall b :: b in order ==> p[b] == NodeOf(b)
  {
    map b | b in order :: NodeOf(b)
  }

  /** What the heap predicate says of the blocks other than cur. */
  ghost predicate Others(order: seq<TB>, cur: TB)
    reads set b | b in order && b != cur, set b | b in order && b != cur :: b.insns,
          set b, n | b in order && b != cur && n in b.insns.Repr :: n
  {
    && (forall b :: b in order && b != cur ==> b.Valid() && Inside(order, b.trueBranch) && Inside(order, b.falseBranch))
    && (forall a, b :: a in order && b in order && a != b ==> a.x86Addr != b.x86Addr && a.insns != b.insns)
    && (forall a, b :: a in order && b in order && a != b && a != cur && b != cur ==> a.insns.Repr !! b.insns.Repr)
  }

  ghost function OtherNodes(order: seq<TB>, cur: TB): map<TB, Node<TB>>
    requires Others(order, cur)
    reads set b | b in order && b != cur, set b | b in order && b != cur :: b.insns,
          set b, n | b in order && b != cur && n in b.insns.Repr :: n
  {
    map b | b in order && b != cur :: NodeOf(b)
  }

  ghost predicate Distant(order: seq<TB>, cur: TB)
    reads cur, cur.insns, order, set b | b in order :: b.insns
  {
    forall b :: b in order && b != cur ==> b.insns != cur.insns && b.insns.Repr !! cur.insns.Repr
  }

  lemma HeapOpen(order: seq<TB>, cur: TB)
    requires Heap(order) && cur in order
    ensures Others(order, cur) && Distant(order, cur) && cur.Valid()
    ensures Snapshot(order) == OtherNodes(order, cur)[cur := NodeOf(cur)]
  {
    hide NodeOf;
  }

  lemma HeapClose(order: seq<TB>, cur: TB)
    requires Others(order, cur) && Distant(order, cur) && cur in order && cur.Valid()
    requires Inside(order, cur.trueBranch) && Inside(order, cur.falseBranch)
    ensures Heap(order) && Snapshot(order) == OtherNodes(order, cur)[cur := NodeOf(cur)]
  {
    hide NodeOf;
  }

  function Unlinked(b: Block): Node<TB> { Node(b, [None, None]) }

  lemma JoinReady(order: seq<TB>, total: nat, cur: TB)
    requires Heap(order) && Sound(Snapshot(order), order, total) && CanJoin(Snapshot(order), cur)
    ensures cur in order && TheSucc(Snapshot(order), cur) in order && TheSucc(Snapshot(order), cur) != cur
    ensures CanMerge(cur, TheSucc(Snapshot(order), cur), OneExit(Snapshot(order)[cur]))
    ensures cur.jmpTarget[OneExit(Snapshot(order)[cur])] / 4 == ExitAt(Snapshot(order)[cur])
    ensures Snapshot(order)[cur].block == cur.View() && TheSucc(Snapshot(order), cur).Valid()
    ensures var s := TheSucc(Snapshot(order), cur);
            Snapshot(order)[s] == Unlinked(s.View()) && NoSuccessor(s) && s.trueBranch == null && s.falseBranch == null
  {
    hide RefsOk, BranchExact, Sound;
    JoinRoom(Snapshot(order), order, total, cur);
  }

  /** One merge of the walk: cur has one successor, and that one has none. */
  method JoinInto(ghost order: seq<TB>, ghost total: nat, cur: TB, succ: TB, w: nat)
    requires Heap(order) && Sound(Snapshot(order), order, total)
    requires CanJoin(Snapshot(order), cur) && succ == TheSucc(Snapshot(order), cur)
    requires w == OneExit(Snapshot(order)[cur])
    modifies cur`rels, cur`relsValid, cur`jmpTarget, cur`jmpReset, cur`bInsns, cur`bneInsns, cur`otherBInsns,
             cur`trueBranch, cur`falseBranch, cur.insns, cur.insns.Repr
    ensures Heap(order) && Snapshot(order) == Joined(old(Snapshot(order)), cur)
    ensures fresh(cur.insns.Repr - old(cur.insns.Repr))
  {
    hide *;
    JoinReady(order, total, cur);
    HeapOpen(order, cur);
    DistantOpen(order, cur);
    ghost var p := Snapshot(order);
    JoinSizes(p, cur);
    var merged := Unify(cur, succ, w);
    assert Others(order, cur);
    assert OtherNodes(order, cur) == old(OtherNodes(order, cur));
    DistantClose(order, cur);
    MergedNode(order, cur, succ);
    HeapClose(order, cur);
    JoinedNodes(p, old(OtherNodes(order, cur)), cur, old(succ.View()), NodeOf(cur));
  }

  lemma DistantOpen(order: seq<TB>, cur: TB)
    requires Distant(order, cur)
    ensures forall b :: b in order && b != cur ==> b.insns != cur.insns && b.insns.Repr !! cur.insns.Repr
  {
  }

  lemma DistantClose(order: seq<TB>, cur: TB)
    requires forall b :: b in order && b != cur ==> b.insns != cur.insns && b.insns.Repr !! cur.insns.Repr
    ensures Distant(order, cur)
  {
  }

  lemma MergedNode(order: seq<TB>, cur: TB, s: TB)
    requires Separate(cur, s) && s.trueBranch == null && s.falseBranch == null && cur.trueBranch == null
    requires cur.falseBranch == null
    ensures cur.Valid() && s.Valid() && NodeOf(cur) == Unlinked(cur.View())
    ensures Inside(order, cur.trueBranch) && Inside(order, cur.falseBranch)
  {
  }

  lemma JoinedNodes(p: map<TB, Node<TB>>, others: map<TB, Node<TB>>, cur: TB, v: Block, n: Node<TB>)
    requires CanJoin(p, cur) && p == others[cur := p[cur]] && Shaped(v) && p[TheSucc(p, cur)] == Unlinked(v)
    requires ExitAt(p[cur]) <= |p[cur].block.code| && n == Unlinked(Merged(p[cur].block, v, ExitAt(p[cur])))
    ensures Joined(p, cur) == others[cur := n]
  {
  }

  // ----- the walk -----

  function Addrs(s: set<TB>): set<nat> { set b | b in s :: b.x86Addr }

  function Members(order: seq<TB>): set<TB> { set b | b in order }

  ghost predicate Names(order: seq<TB>, addrs: set<nat>, s: set<TB>) { addrs == Addrs(s) && s <= Members(order) }

  lemma NamesIt(order: seq<TB>, addrs: set<nat>, s: set<TB>, b: TB)
    requires Heap(order) && Names(order, addrs, s) && b in order
    ensures b.x86Addr in addrs <==> b in s
    ensures Names(order, addrs + {b.x86Addr}, s + {b})
    ensures b !in s ==> addrs + {b.x86Addr} - {b.x86Addr} == addrs
  {
  }

  /** What the walk reads of a block is what the graph value says. */
  lemma ReadNode(order: seq<TB>, total: nat, cur: TB)
    requires Heap(order) && Sound(Snapshot(order), order, total) && cur in order
    ensures cur.Valid() && |cur.jmpReset| == 2 && cur in Snapshot(order)
    ensures Exit(Snapshot(order), cur, 0) == (if cur.falseBranch == null then None else Some(cur.falseBranch))
    ensures Exit(Snapshot(order), cur, 1) == (if cur.trueBranch == null then None else Some(cur.trueBranch))
    ensures cur.falseBranch != null ==> cur.falseBranch in order
    ensures cur.trueBranch != null ==> cur.trueBranch in order
    ensures CanJoin(Snapshot(order), cur) <==>
              var s := TheOnlyOneSuccessor(cur); OnlyOneSuccessor(cur) && s != null && s.Valid() && NoSuccessor(s)
    ensures OnlyOneSuccessor(cur) ==>
              && TheOnlyOneSuccessor(cur) != null && TheOnlyOneSuccessor(cur) in order
              && TheOnlyOneSuccessor(cur).Valid() && |TheOnlyOneSuccessor(cur).jmpReset| == 2
    ensures CanJoin(Snapshot(order), cur) ==>
              && TheOnlyOneSuccessor(cur) == TheSucc(Snapshot(order), cur)
              && OneExit(Snapshot(order)[cur]) == if cur.jmpReset[1] != INVALID then 1 else 0
  {
    hide RefsOk, BranchExact;
    assert NodeOk(Snapshot(order)[cur]);
  }

  lemma ReadExit(order: seq<TB>, total: nat, cur: TB, w: nat)
    requires Heap(order) && Sound(Snapshot(order), order, total) && cur in order && w < 2
    ensures cur in Snapshot(order)
    ensures var next := if w == 0 then cur.falseBranch else cur.trueBranch;
            if next == null then Exit(Snapshot(order), cur, w) == None
            else next in order && Exit(Snapshot(order), cur, w) == Some(next)
  {
    hide *;
    ReadNode(order, total, cur);
  }

  /** unify_one_successor.  The ghost arguments name the blocks behind the two address sets. */
  method UnifyOneSuccessor(ghost order: seq<TB>, ghost total: nat, cur: TB,
                           parents: set<nat>, finished: set<nat>, ghost stack: set<TB>, ghost done: set<TB>)
    returns (parents': set<nat>, finished': set<nat>, ghost done': set<TB>)
    requires Heap(order) && Sound(Snapshot(order), order, total) && cur in order
    requires Names(order, parents, stack) && Names(order, finished, done)
    modifies order, set b | b in order :: b.insns, set b, n | b in order && n in b.insns.Repr :: n
    ensures Heap(order) && Sound(Snapshot(order), order, total)
    ensures forall b :: b in order ==> fresh(b.insns.Repr - old(b.insns.Repr)) && b.parents == old(b.parents)
    ensures parents' == parents && Names(order, finished', done')
    ensures var (joins, known) := Walk(old(Snapshot(order)), cur, stack, done);
            Snapshot(order) == After(old(Snapshot(order)), joins) && done' == known
    decreases Members(order) - stack - done
  {
    hide *;
    parents', finished', done' := parents, finished, done;
    ghost var p := Snapshot(order);
    ReadNode(order, total, cur);
    NamesIt(order, parents, stack, cur);
    NamesIt(order, finished, done, cur);
    if cur.x86Addr in parents || cur.x86Addr in finished {
      WalkStops(p, cur, stack, done);
      return;
    }
    if OnlyOneSuccessor(cur) {
      var succ := TheOnlyOneSuccessor(cur);
      if NoSuccessor(succ) {
        JoinInto(order, total, cur, succ, if cur.jmpReset[1] != INVALID then 1 else 0);
        WalkJoins(p, order, total, cur, stack, done);
        return;
      }
    }
    parents', finished', done' := UnifyBranches(order, total, cur, parents', finished', stack, done');
  }

  /** The rest of it, for a block that is not merged: it goes onto the stack, both links are followed,
      and it is finished. */
  method UnifyBranches(ghost order: seq<TB>, ghost total: nat, cur: TB,
                       parents: set<nat>, finished: set<nat>, ghost stack: set<TB>, ghost done: set<TB>)
    returns (parents': set<nat>, finished': set<nat>, ghost done': set<TB>)
    requires Heap(order) && Sound(Snapshot(order), order, total) && cur in order
    requires Names(order, parents, stack) && Names(order, finished, done)
    requires cur !in stack && cur !in done && !CanJoin(Snapshot(order), cur)
    modifies order, set b | b in order :: b.insns, set b, n | b in order && n in b.insns.Repr :: n
    ensures Heap(order) && Sound(Snapshot(order), order, total)
    ensures forall b :: b in order ==> fresh(b.insns.Repr - old(b.insns.Repr)) && b.parents == old(b.parents)
    ensures parents' == parents && Names(order, finished', done')
    ensures var (joins, known) := Walk(old(Snapshot(order)), cur, stack, done);
            Snapshot(order) == After(old(Snapshot(order)), joins) && done' == known
    decreases Members(order) - stack - done, 1
  {
    hide *;
    ghost var p := Snapshot(order);
    NamesIt(order, parents, stack, cur);
    parents', finished', done' := parents + {cur.x86Addr}, finished, done;
    WalkExitNext(p, order, total, cur, 0, stack, done);
    parents', finished', done' := UnifyExit(order, total, cur, 0, parents', finished', stack, done');
    Fewer(order, stack, done, done');
    parents', finished', done' := UnifyExit(order, total, cur, 1, parents', finished', stack, done');
    parents' := parents' - {cur.x86Addr};
    NamesIt(order, finished', done', cur);
    finished' := finished' + {cur.x86Addr};
    done' := done' + {cur};
    WalkBoth(p, order, total, cur, stack, done);
  }

  /** The recursive call for the block linked to exit w of cur, if there is one. */
  method UnifyExit(ghost order: seq<TB>, ghost total: nat, cur: TB, w: nat,
                   parents: set<nat>, finished: set<nat>, ghost stack: set<TB>, ghost done: set<TB>)
    returns (parents': set<nat>, finished': set<nat>, ghost done': set<TB>)
    requires Heap(order) && Sound(Snapshot(order), order, total) && cur in order && cur !in stack && cur !in done
    requires cur in Snapshot(order) && w < 2
    requires Names(order, parents, stack + {cur}) && Names(order, finished, done)
    modifies order, set b | b in order :: b.insns, set b, n | b in order && n in b.insns.Repr :: n
    ensures Heap(order) && Sound(Snapshot(order), order, total)
    ensures forall b :: b in order ==> fresh(b.insns.Repr - old(b.insns.Repr)) && b.parents == old(b.parents)
    ensures parents' == parents && Names(order, finished', done')
    ensures var (joins, known) := WalkExit(old(Snapshot(order)), cur, w, stack, done);
            Snapshot(order) == After(old(Snapshot(order)), joins) && done' == known
    decreases Members(order) - stack - done, 0
  {
    hide *;
    parents', finished', done' := parents, finished, done;
    ReadExit(order, total, cur, w);
    Shrinks(order, cur, stack, done);
    WalkExitNext(Snapshot(order), order, total, cur, w, stack, done);
    var next := if w == 0 then cur.falseBranch else cur.trueBranch;
    if next != null {
      parents', finished', done' := UnifyOneSuccessor(order, total, next, parents', finished', stack + {cur}, done');
    }
  }

  lemma Fewer(order: seq<TB>, stack: set<TB>, done: set<TB>, done': set<TB>)
    requires done <= done'
    ensures Members(order) - stack - done' <= Members(order) - stack - done
  {
  }

  lemma Shrinks(order: seq<TB>, cur: TB, stack: set<TB>, done: set<TB>)
    requires cur in order && cur !in stack && cur !in done
    ensures Members(order) - (stack + {cur}) - done < Members(order) - stack - done
  {
    assert cur in Members(order) - stack - done;
  }

  // ----- the visitor -----

  ghost function EntryBlocks(tbs: seq<TB>): seq<TB>
    reads tbs
  {
    if tbs == [] then []
    else EntryBlocks(tbs[..|tbs| - 1]) + if tbs[|tbs| - 1].parents == [] then [tbs[|tbs| - 1]] else []
  }

  /** get_all_entrys_block: exactly the blocks without parents, in their order; `at` says where they stand. */
  method GetAllEntryBlocks(tbs: seq<TB>) returns (result: seq<TB>, ghost at: seq<nat>)
    ensures result == EntryBlocks(tbs)
    ensures |at| == |result| && Increasing(at) && forall k :: 0 <= k < |at| ==> at[k] < |tbs| && tbs[at[k]] == result[k]
    ensures forall i :: 0 <= i < |tbs| ==> (i in at <==> tbs[i].parents == [])
  {
    result, at := [], [];
    for i := 0 to |tbs|
      invariant result == EntryBlocks(tbs[..i])
      invariant |at| == |result| && Increasing(at) && forall k :: 0 <= k < |at| ==> at[k] < i && tbs[at[k]] == result[k]
      invariant forall j :: 0 <= j < i ==> (j in at <==> tbs[j].parents == [])
    {
      assert tbs[..i + 1][..i] == tbs[..i];
      if tbs[i].parents == [] {
        result, at := result + [tbs[i]], at + [i];
      }
    }
    assert tbs[..|tbs|] == tbs;
  }

  /** TU_Vistor::start: one walk from every entry block of the segment, each with empty sets.  The
      blocks of all segments are in order, since links may lead from one to another. */
  method Start(ghost order: seq<TB>, ghost total: nat, tbs: seq<TB>)
    requires Heap(order) && Sound(Snapshot(order), order, total) && forall b :: b in tbs ==> b in order
    modifies order, set b | b in order :: b.insns, set b, n | b in order && n in b.insns.Repr :: n
    ensures Heap(order) && Sound(Snapshot(order), order, total)
    ensures Snapshot(order) == After(old(Snapshot(order)), WalkAll(old(Snapshot(order)), old(EntryBlocks(tbs))))
    ensures forall b :: b in order ==> fresh(b.insns.Repr - old(b.insns.Repr)) && b.parents == old(b.parents)
  {
    var entryBlocks, _ := GetAllEntryBlocks(tbs);
    hide *;
    ghost var p := Snapshot(order);
    WalkAllNone(p);
    for i := 0 to |entryBlocks|
      invariant Heap(order) && Sound(Snapshot(order), order, total)
      invariant Snapshot(order) == After(p, WalkAll(p, entryBlocks[..i]))
      invariant forall b :: b in order ==> fresh(b.insns.Repr - old(b.insns.Repr)) && b.parents == old(b.parents)
    {
      StartOne(order, total, p, entryBlocks, i);
    }
    assert entryBlocks[..|entryBlocks|] == entryBlocks;
  }

  /** One round: the walk from entry block i. */
  method StartOne(ghost order: seq<TB>, ghost total: nat, ghost p: map<TB, Node<TB>>, entries: seq<TB>, i: nat)
    requires Heap(order) && Sound(Snapshot(order), order, total) && i < |entries|
    requires Sound(p, order, total) && Snapshot(order) == After(p, WalkAll(p, entries[..i]))
    requires forall b :: b in entries ==> b in order && b in p
    modifies order, set b | b in order :: b.insns, set b, n | b in order && n in b.insns.Repr :: n
    ensures Heap(order) && Sound(Snapshot(order), order, total)
    ensures Snapshot(order) == After(p, WalkAll(p, entries[..i + 1]))
    ensures forall b :: b in order ==> fresh(b.insns.Repr - old(b.insns.Repr)) && b.parents == old(b.parents)
  {
    hide *;
    NamesNone(order);
    var _, _, _ := UnifyOneSuccessor(order, total, entries[i], {}, {}, {}, {});
    WalkAllNext(p, order, total, entries, i);
  }

  lemma NamesNone(order: seq<TB>)
    ensures Names(order, {}, {})
  {
  }
}
