/** The depth-first walk of unify_one_successor (lib/Vistor/TU_Vistor.cpp) as a function on
    graph values, and what it guarantees although it edits the graph under its feet. */
module Walks {
  import opened Isa
  import opened Blocks
  import opened LinkLists
  import opened Merge
  import opened Graphs

  function Exit<K(==)>(p: map<K, Node<K>>, a: K, w: nat): Option<K> {
    if a in p && w < |p[a].succ| then p[a].succ[w] else None
  }

  /** The merges made, in order, and the blocks finished, when the walk comes to cur with the given
      blocks on its stack and already finished. */
  ghost function Walk<K>(p: map<K, Node<K>>, cur: K, parents: set<K>, finished: set<K>): (r: (seq<K>, set<K>))
    ensures finished <= r.1
    decreases p.Keys - parents - finished
  {
    if cur !in p || cur in parents || cur in finished then ([], finished)
    else if CanJoin(p, cur) then ([cur], finished)
    else
      assert cur in p.Keys - parents - finished;
      var (j0, f0) := WalkExit(p, cur, 0, parents, finished);
      assert p.Keys - parents - f0 <= p.Keys - parents - finished;
      var (j1, f1) := WalkExit(After(p, j0), cur, 1, parents, f0);
      (j0 + j1, f1 + {cur})
  }

  /** The recursive call for exit w of cur, if it is linked. */
  ghost function WalkExit<K>(p: map<K, Node<K>>, cur: K, w: nat, parents: set<K>,
                             finished: set<K>): (r: (seq<K>, set<K>))
    ensures finished <= r.1
    decreases p.Keys - parents - finished, 0
  {
    var next := Exit(p, cur, w);
    if next.None? || cur !in p || cur in parents || cur in finished then ([], finished)
    else
      assert cur in p.Keys - parents - finished && cur !in p.Keys - (parents + {cur}) - finished;
      Walk(p, next.value, parents + {cur}, finished)
  }

  /** Every exit of the given blocks leads to a block that is known or has been merged. */
  ghost predicate Followed<K>(q: map<K, Node<K>>, blocks: set<K>, known: set<K>, joins: seq<K>) {
    forall b, w: nat :: b in blocks && w < 2 && Exit(q, b, w).Some? ==>
      Exit(q, b, w).value in known || Exit(q, b, w).value in joins
  }

  /** What one call of the walk guarantees: its merges are legal, blocks on the stack or already
      finished are not touched, the block it was called for is dealt with, and so is
      everything that the blocks it finished lead to. */
  ghost predicate WalkOk<K>(p: map<K, Node<K>>, parents: set<K>, finished: set<K>, r: (seq<K>, set<K>)) {
    && Legal(p, r.0)
    && finished <= r.1 <= finished + p.Keys && (r.1 - finished) !! parents
    && (forall b :: b in r.0 ==> b in p && b !in parents && b !in finished)
    && Followed(After(p, r.0), r.1 - finished, parents + r.1, r.0)
  }

  lemma LegalAppend<K>(p: map<K, Node<K>>, x: seq<K>, y: seq<K>)
    requires Legal(p, x) && Legal(After(p, x), y)
    ensures Legal(p, x + y) && After(p, x + y) == After(After(p, x), y)
  {
    AfterAppend(p, x, y);
  }

  lemma ExitKept<K>(p: map<K, Node<K>>, joins: seq<K>, b: K, w: nat)
    requires Legal(p, joins) && b !in joins
    ensures Exit(After(p, joins), b, w) == Exit(p, b, w)
  {
    if b in p { AfterElsewhere(p, joins, b); }
  }

  /** The two exits of a block one after the other, then the block itself is finished. */
  lemma WalkTwo<K>(p: map<K, Node<K>>, cur: K, parents: set<K>, finished: set<K>, r0: (seq<K>, set<K>),
                   r1: (seq<K>, set<K>))
    requires cur in p && cur !in parents && cur !in finished
    requires WalkOk(p, parents + {cur}, finished, r0) && WalkOk(After(p, r0.0), parents + {cur}, r0.1, r1)
    requires Exit(p, cur, 0).Some? ==> Exit(p, cur, 0).value in parents + {cur} + r0.1 || Exit(p, cur, 0).value in r0.0
    requires Exit(p, cur, 1).Some? ==> Exit(p, cur, 1).value in parents + {cur} + r1.1 || Exit(p, cur, 1).value in r1.0
    ensures WalkOk(p, parents, finished, (r0.0 + r1.0, r1.1 + {cur}))
  {
    hide After, Legal, Exit;
    LegalAppend(p, r0.0, r1.0);
    var q, joins := After(After(p, r0.0), r1.0), r0.0 + r1.0;
    forall b, w: nat | b in r1.1 + {cur} - finished && w < 2 && Exit(q, b, w).Some?
      ensures Exit(q, b, w).value in parents + (r1.1 + {cur}) || Exit(q, b, w).value in joins
    {
      if b == cur {
        ExitKept(p, r0.0, b, w);
        ExitKept(After(p, r0.0), r1.0, b, w);
      } else if b in r0.1 {
        ExitKept(After(p, r0.0), r1.0, b, w);
      }
    }
  }

  lemma {:induction false} WalkGood<K>(p: map<K, Node<K>>, order: seq<K>, total: nat, cur: K, parents: set<K>,
                                       finished: set<K>)
    requires Sound(p, order, total) && cur in p
    ensures WalkOk(p, parents, finished, Walk(p, cur, parents, finished))
    ensures var r := Walk(p, cur, parents, finished); cur in parents || cur in r.1 || cur in r.0
    decreases p.Keys - parents - finished
  {
    hide Sound, CanJoin, WalkOk, After, Exit;
    if cur in parents || cur in finished {
      NothingDone(p, parents, finished);
    } else if CanJoin(p, cur) {
      OneDone(p, cur, parents, finished);
    } else {
      assert cur in p.Keys - parents - finished;
      var r0 := WalkExit(p, cur, 0, parents, finished);
      WalkExitGood(p, order, total, cur, 0, parents, finished);
      var q := After(p, r0.0);
      Carried(p, order, total, parents + {cur}, finished, r0, cur, 1);
      assert p.Keys - parents - r0.1 <= p.Keys - parents - finished;
      WalkExitGood(q, order, total, cur, 1, parents, r0.1);
      WalkTwo(p, cur, parents, finished, r0, WalkExit(q, cur, 1, parents, r0.1));
    }
  }

  lemma Carried<K>(p: map<K, Node<K>>, order: seq<K>, total: nat, parents: set<K>, finished: set<K>,
                   r: (seq<K>, set<K>), b: K, w: nat)
    requires Sound(p, order, total) && WalkOk(p, parents, finished, r) && b in parents && b in p && b !in finished
    ensures Sound(After(p, r.0), order, total) && Exit(After(p, r.0), b, w) == Exit(p, b, w) && b !in r.1
  {
    AfterSound(p, order, total, r.0);
    ExitKept(p, r.0, b, w);
  }

  lemma NothingDone<K>(p: map<K, Node<K>>, parents: set<K>, finished: set<K>)
    ensures WalkOk(p, parents, finished, ([], finished))
  {
  }

  lemma OneDone<K>(p: map<K, Node<K>>, cur: K, parents: set<K>, finished: set<K>)
    requires CanJoin(p, cur) && cur !in parents && cur !in finished
    ensures WalkOk(p, parents, finished, ([cur], finished))
  {
    assert [cur][1..] == [];
  }

  lemma {:induction false} WalkExitGood<K>(p: map<K, Node<K>>, order: seq<K>, total: nat, cur: K, w: nat,
                                           parents: set<K>, finished: set<K>)
    requires Sound(p, order, total) && cur in p && cur !in parents && cur !in finished && w < 2
    ensures WalkOk(p, parents + {cur}, finished, WalkExit(p, cur, w, parents, finished))
    ensures var r := WalkExit(p, cur, w, parents, finished);
            Exit(p, cur, w).Some? ==> Exit(p, cur, w).value in parents + {cur} + r.1 || Exit(p, cur, w).value in r.0
    decreases p.Keys - parents - finished, 0
  {
    hide CanJoin, WalkOk, After;
    if Exit(p, cur, w).None? {
      NothingDone(p, parents + {cur}, finished);
    } else {
      assert cur in p.Keys - parents - finished && cur !in p.Keys - (parents + {cur}) - finished;
      WalkGood(p, order, total, Exit(p, cur, w).value, parents + {cur}, finished);
    }
  }

  // ----- when the walk merges -----

  /** Of the exits of a exactly w is valid, and it is linked to s. */
  ghost predicate OnlyExit<K>(p: map<K, Node<K>>, a: K, w: nat, s: K) {
    && a in p && Shaped(p[a].block) && |p[a].succ| == 2 && w < 2
    && p[a].block.reset[w] != INVALID && p[a].block.reset[1 - w] == INVALID && p[a].succ[w] == Some(s)
  }

  ghost predicate Exitless<K>(p: map<K, Node<K>>, s: K) { s in p && p[s].block.reset == [INVALID, INVALID] }

  lemma CanJoinExactly<K>(p: map<K, Node<K>>, a: K)
    requires Closed(p)
    ensures CanJoin(p, a) <==> exists w: nat, s :: OnlyExit(p, a, w, s) && Exitless(p, s)
    ensures forall w: nat, s :: OnlyExit(p, a, w, s) && Exitless(p, s) ==>
              CanJoin(p, a) && TheSucc(p, a) == s && OneExit(p[a]) == w
  {
    hide RefsOk, BranchExact, ExitOk;
    if a in p {
      assert NodeOk(p[a]);
      if CanJoin(p, a) {
        var s := TheSucc(p, a);
        assert NodeOk(p[s]);
        assert p[s].block.reset == [INVALID, INVALID];
        assert OnlyExit(p, a, OneExit(p[a]), s);
      }
    }
  }

  /** A block the walk comes to for the first time is merged, and the walk goes no further from there, if and
      only if exactly one of its exits is valid and leads to a block without exits. */
  lemma WalkMerges<K>(p: map<K, Node<K>>, a: K, parents: set<K>, finished: set<K>)
    requires Closed(p) && a in p && a !in parents && a !in finished
    ensures Walk(p, a, parents, finished) == ([a], finished) <==>
              exists w: nat, s :: OnlyExit(p, a, w, s) && Exitless(p, s)
  {
    hide Closed, CanJoin, OnlyExit, Exitless, After;
    CanJoinExactly(p, a);
    if !CanJoin(p, a) { assert a in Walk(p, a, parents, finished).1; }
  }

  /** What such a merge makes of it: its code up to that exit and then the other block's, without exits; and
      no other block changes. */
  lemma WalkMerged<K>(p: map<K, Node<K>>, order: seq<K>, total: nat, a: K, w: nat, s: K)
    requires Sound(p, order, total) && OnlyExit(p, a, w, s) && Exitless(p, s)
    ensures p[a].block.target[w] / 4 < |p[a].block.code| && p[a].block.code[p[a].block.target[w] / 4].opc == B
    ensures var q := After(p, Walk(p, a, {}, {}).0);
            && q.Keys == p.Keys && (forall b :: b in p && b != a ==> q[b] == p[b])
            && q[a].block.code == p[a].block.code[..p[a].block.target[w] / 4] + p[s].block.code
            && q[a].block.reset == [INVALID, INVALID] && q[a].succ == p[s].succ
  {
    hide RefsOk, BranchExact, Budget, Lists;
    CanJoinExactly(p, a);
    JoinSizes(p, a);
    assert NodeOk(p[a]) && ExitOk(p[a].block, w);
    assert Walk(p, a, {}, {}) == ([a], {});
    assert [a][1..] == [];
  }

  /** And the walk merges the block it began with only then. */
  lemma WalkRoot<K>(p: map<K, Node<K>>, order: seq<K>, total: nat, a: K)
    requires Sound(p, order, total) && a in p
    ensures a in Walk(p, a, {}, {}).0 <==> exists w: nat, s :: OnlyExit(p, a, w, s) && Exitless(p, s)
  {
    hide Sound, CanJoin, OnlyExit, Exitless, After, Exit, Legal, Followed;
    SoundClosed(p, order, total);
    CanJoinExactly(p, a);
    if !CanJoin(p, a) {
      var r0 := WalkExit(p, a, 0, {}, {});
      WalkExitGood(p, order, total, a, 0, {}, {});
      Carried(p, order, total, {} + {a}, {}, r0, a, 1);
      WalkExitGood(After(p, r0.0), order, total, a, 1, {}, r0.1);
    }
  }

  // ----- what a whole walk reaches -----

  ghost predicate Linked<K>(p: map<K, Node<K>>, a: K, b: K) {
    exists w: nat :: w < 2 && Exit(p, a, w) == Some(b)
  }

  ghost predicate ReachIn<K>(p: map<K, Node<K>>, a: K, b: K, n: nat)
    decreases n
  {
    if n == 0 then a == b else exists c :: c in p && ReachIn(p, a, c, n - 1) && Linked(p, c, b)
  }

  ghost predicate Reachable<K>(p: map<K, Node<K>>, a: K, b: K) {
    exists n: nat :: ReachIn(p, a, b, n)
  }

  lemma {:induction false} DoneStays<K>(p: map<K, Node<K>>, joins: seq<K>, b: K)
    requires Legal(p, joins) && b in p && Shaped(p[b].block) && NoSucc(p[b].block)
    ensures After(p, joins)[b] == p[b]
    decreases |joins|
  {
    if joins != [] {
      DoneStays(Joined(p, joins[0]), joins[1..], b);
    }
  }

  /** A merged block has no exit left, for good. */
  lemma {:induction false} JoinedDone<K>(p: map<K, Node<K>>, joins: seq<K>, b: K)
    requires Legal(p, joins) && b in joins
    ensures b in After(p, joins) && Shaped(After(p, joins)[b].block) && NoSucc(After(p, joins)[b].block)
    ensures forall w: nat :: w < 2 ==> Exit(After(p, joins), b, w) == None
    decreases |joins|
  {
    hide RefsOk, BranchExact;
    var a := joins[0];
    if b == a {
      JoinSizes(p, a);
      assert NodeOk(p[TheSucc(p, a)]);
      DoneStays(Joined(p, a), joins[1..], b);
    } else {
      JoinedDone(Joined(p, a), joins[1..], b);
    }
  }

  /** A walk from the root with nothing on the stack deals with every block reachable from the root
      in the graph it leaves behind: each is finished, or merged and without exits. */
  lemma {:induction false} WalkReaches<K>(p: map<K, Node<K>>, order: seq<K>, total: nat, root: K, b: K, n: nat)
    requires Sound(p, order, total) && root in p
    requires ReachIn(After(p, Walk(p, root, {}, {}).0), root, b, n)
    ensures b in Walk(p, root, {}, {}).1 || b in Walk(p, root, {}, {}).0
    decreases n
  {
    hide Sound, After, Legal, Exit, CanJoin;
    var r := Walk(p, root, {}, {});
    WalkGood(p, order, total, root, {}, {});
    if n > 0 {
      var q := After(p, r.0);
      var c :| c in q && ReachIn(q, root, c, n - 1) && Linked(q, c, b);
      WalkReaches(p, order, total, root, c, n - 1);
      var w: nat :| w < 2 && Exit(q, c, w) == Some(b);
      if c in r.0 {
        JoinedDone(p, r.0, c);
        assert false;
      } else {
        assert c in r.1 - {};
      }
    }
  }

  // ----- which merges are left over -----

  /** A block that can be merged still can after other merges. */
  lemma StillJoinable<K>(p: map<K, Node<K>>, joins: seq<K>, b: K)
    requires Legal(p, joins) && Closed(After(p, joins)) && CanJoin(p, b) && b !in joins
    ensures CanJoin(After(p, joins), b)
  {
    hide RefsOk, BranchExact;
    AfterElsewhere(p, joins, b);
    DoneStays(p, joins, TheSucc(p, b));
  }

  /** Of the given blocks only merged ones could be merged at the start. */
  ghost predicate Refused<K>(p: map<K, Node<K>>, blocks: set<K>, joins: seq<K>) {
    forall b :: b in blocks && b !in joins ==> !CanJoin(p, b)
  }

  lemma RefusedTwo<K>(p: map<K, Node<K>>, cur: K, finished: set<K>, r0: (seq<K>, set<K>), r1: (seq<K>, set<K>))
    requires Legal(p, r0.0) && Closed(After(p, r0.0)) && !CanJoin(p, cur)
    requires Refused(p, r0.1 - finished, r0.0) && Refused(After(p, r0.0), r1.1 - r0.1, r1.0)
    ensures Refused(p, r1.1 + {cur} - finished, r0.0 + r1.0)
  {
    hide CanJoin, After, Legal, Closed;
    forall b | b in r1.1 + {cur} - finished && b !in r0.0 + r1.0
      ensures !CanJoin(p, b)
    {
      if CanJoin(p, b) && b !in r0.1 {
        StillJoinable(p, r0.0, b);
      }
    }
  }

  lemma {:induction false} WalkRefuses<K>(p: map<K, Node<K>>, order: seq<K>, total: nat, cur: K, parents: set<K>,
                                          finished: set<K>)
    requires Sound(p, order, total) && cur in p
    ensures Refused(p, Walk(p, cur, parents, finished).1 - finished, Walk(p, cur, parents, finished).0)
    decreases p.Keys - parents - finished
  {
    hide Sound, CanJoin, Closed, After, Exit, WalkOk, Legal;
    if cur !in parents && cur !in finished && !CanJoin(p, cur) {
      assert cur in p.Keys - parents - finished;
      var r0 := WalkExit(p, cur, 0, parents, finished);
      WalkExitRefuses(p, order, total, cur, 0, parents, finished);
      WalkExitNext(p, order, total, cur, 0, parents, finished);
      WalkExitGood(p, order, total, cur, 0, parents, finished);
      WalkOkLegal(p, parents + {cur}, finished, r0);
      var q := After(p, r0.0);
      SoundClosed(q, order, total);
      assert p.Keys - parents - r0.1 <= p.Keys - parents - finished;
      WalkExitRefuses(q, order, total, cur, 1, parents, r0.1);
      RefusedTwo(p, cur, finished, r0, WalkExit(q, cur, 1, parents, r0.1));
    }
  }

  lemma WalkOkLegal<K>(p: map<K, Node<K>>, parents: set<K>, finished: set<K>, r: (seq<K>, set<K>))
    requires WalkOk(p, parents, finished, r)
    ensures Legal(p, r.0)
  {
  }

  lemma SoundClosed<K>(p: map<K, Node<K>>, order: seq<K>, total: nat)
    requires Sound(p, order, total)
    ensures Closed(p)
  {
  }

  lemma {:induction false} WalkExitRefuses<K>(p: map<K, Node<K>>, order: seq<K>, total: nat, cur: K, w: nat,
                                              parents: set<K>, finished: set<K>)
    requires Sound(p, order, total) && cur in p && cur !in parents && cur !in finished && w < 2
    ensures var r := WalkExit(p, cur, w, parents, finished); Refused(p, r.1 - finished, r.0)
    decreases p.Keys - parents - finished, 0
  {
    hide CanJoin, After;
    if Exit(p, cur, w).Some? {
      assert cur in p.Keys - parents - finished && cur !in p.Keys - (parents + {cur}) - finished;
      WalkRefuses(p, order, total, Exit(p, cur, w).value, parents + {cur}, finished);
    }
  }

  /** What any legal run of merges leaves over: a block can be merged afterwards if and only if it was not
      merged, and it could be before or has one successor that was merged. */
  lemma AfterLeaves<K>(p: map<K, Node<K>>, joins: seq<K>, b: K)
    requires Closed(p) && Legal(p, joins) && Closed(After(p, joins)) && b in p
    ensures NodeOk(p[b])
    ensures CanJoin(After(p, joins), b) <==>
              b !in joins && (CanJoin(p, b) || (OneSucc(p[b]) && p[b].succ[OneExit(p[b])].value in joins))
  {
    hide RefsOk, BranchExact, Legal, After;
    if b in joins {
      JoinedDone(p, joins, b);
    } else {
      AfterElsewhere(p, joins, b);
      if OneSucc(p[b]) {
        var s := p[b].succ[OneExit(p[b])].value;
        if s in joins {
          JoinedDone(p, joins, s);
        } else {
          AfterElsewhere(p, joins, s);
        }
      }
    }
  }

  /** What one walk leaves over, exactly: a finished block can still be merged if and only if it was not,
      has one successor, and that one was itself merged - after the walk had looked at the
      block and found a successor with exits. */
  lemma WalkLeaves<K>(p: map<K, Node<K>>, order: seq<K>, total: nat, root: K, b: K)
    requires Sound(p, order, total) && root in p && b in p && b in Walk(p, root, {}, {}).1
    ensures var r := Walk(p, root, {}, {});
            && Legal(p, r.0) && NodeOk(p[b])
            && (CanJoin(After(p, r.0), b) <==> b !in r.0 && OneSucc(p[b]) && p[b].succ[OneExit(p[b])].value in r.0)
  {
    hide Walk, Sound, Legal, After, CanJoin, NodeOk, Closed;
    var r := Walk(p, root, {}, {});
    WalkGood(p, order, total, root, {}, {});
    WalkRefuses(p, order, total, root, {}, {});
    WalkOkLegal(p, {}, {}, r);
    AfterSound(p, order, total, r.0);
    SoundClosed(p, order, total);
    SoundClosed(After(p, r.0), order, total);
    AfterLeaves(p, r.0, b);
    assert b in r.1 - {};
  }

  lemma OneInsn(code: seq<Insn>, c: BranchClass)
    requires |code| == 1
    ensures Positions(code, c) == if ClassOf(code[0].opc) == c then [0] else []
  {
    assert code[1..] == [] && PositionsFrom(code[1..], c, 1) == [];
  }

  function Jump(): Insn { Insn(B, 0, 0, 0, 0, 0, 0) }

  /** A block that is one jump, through the false exit, to the given block; and a block without exits. */
  function JumpTo(b: nat): Node<nat> {
    Node(Block([Jump()], [], [], [0], [], [], [0, INVALID], [0, 0]), [Some(b), None])
  }

  function Dead(): Node<nat> { Node(Block([], [], [], [], [], [], [INVALID, INVALID], [0, 0]), [None, None]) }

  function Chain(): map<nat, Node<nat>> { map[1 := JumpTo(2), 2 := JumpTo(3), 3 := Dead()] }

  lemma LinksOk(b: nat)
    ensures NodeOk(JumpTo(b)) && NodeOk(Dead()) && OneSucc(JumpTo(b)) && OneExit(JumpTo(b)) == 0
    ensures !NoSucc(JumpTo(b).block) && NoSucc(Dead().block)
  {
    OneInsn([Jump()], ClassB);
    OneInsn([Jump()], ClassBne);
    OneInsn([Jump()], ClassOther);
  }

  lemma ChainClosed()
    ensures Closed(Chain()) && CanJoin(Chain(), 2) && !CanJoin(Chain(), 1) && TheSucc(Chain(), 2) == 3
  {
    hide NodeOk, OneSucc, NoSucc, OneExit, Jump;
    LinksOk(2);
    LinksOk(3);
  }

  lemma CanJoinIs<K>(p: map<K, Node<K>>, a: K)
    requires Closed(p) && a in p && OneSucc(p[a]) && NoSucc(p[p[a].succ[OneExit(p[a])].value].block)
    ensures CanJoin(p, a)
  {
  }

  lemma ChainJoined()
    ensures CanJoin(Chain(), 2) && Joined(Chain(), 2).Keys == {1, 2, 3} && Joined(Chain(), 2)[1] == JumpTo(2)
    ensures Closed(Joined(Chain(), 2)) && CanJoin(Joined(Chain(), 2), 1)
  {
    hide NodeOk, OneSucc, OneExit, Jump, Merged, CanJoin;
    ChainClosed();
    LinksOk(2);
    LinksOk(3);
    NodeJoined(JumpTo(3), Dead());
    JoinSizes(Chain(), 2);
    CanJoinIs(Joined(Chain(), 2), 1);
  }

  /** Such a chain, the last block without exits: the walk merges it into the middle block when it has
      already passed the first, and that merge is left over. */
  lemma ChainLeaves()
    ensures Walk(Chain(), 1, {}, {}) == ([2], {1}) && CanJoin(After(Chain(), [2]), 1)
  {
    hide Merged, NodeOk, Closed, CanJoin, Joined, Jump, Walk, WalkExit;
    ChainClosed();
    ChainJoined();
    var p := Chain();
    AfterOne(p, 2);
    WalkMeets(p, 2, {1}, {});
    assert {} + {1} == {1};
    WalkThrough(p, 1, 2, {}, {}, ([2], {}));
  }

  /** Two exits, the true one to the same block as the jump behind the false one, and that leads on. */
  function Diamond(): map<nat, Node<nat>> {
    map[1 := Node(Loaded([Jump(), Jump()], [], [0, 0], [0, 4]), [Some(2), Some(3)]),
        2 := JumpTo(3), 3 := JumpTo(4), 4 := Dead()]
  }

  lemma DiamondClosed()
    ensures var p := Diamond(); Closed(p) && CanJoin(p, 3) && TheSucc(p, 3) == 4 && !CanJoin(p, 1) && !CanJoin(p, 2)
  {
    hide OneExit, Jump, Positions;
    LinksOk(3);
    LinksOk(4);
    TopOk();
  }

  lemma TopOk()
    ensures NodeOk(Diamond()[1]) && !OneSucc(Diamond()[1])
  {
    hide Positions;
  }

  lemma DiamondJoined()
    ensures var p := Diamond();
            && CanJoin(p, 3) && Joined(p, 3).Keys == p.Keys && Closed(Joined(p, 3)) && !CanJoin(Joined(p, 3), 3)
            && Joined(p, 3)[1] == p[1] && Joined(p, 3)[2] == p[2] && Joined(p, 3)[3].succ == [None, None]
  {
    hide OneSucc, OneExit, Jump, Positions, NodeOk, Merged, CanJoin;
    DiamondClosed();
    LinksOk(3);
    LinksOk(4);
    TopOk();
    NodeJoined(JumpTo(4), Dead());
    JoinSizes(Diamond(), 3);
    NotJoinable(Joined(Diamond(), 3), 3);
    assert Joined(Diamond(), 3)[3].succ == [None, None];
  }

  lemma NotJoinable<K>(p: map<K, Node<K>>, a: K)
    requires a in p && NodeOk(p[a]) && NoSucc(p[a].block)
    ensures !CanJoin(p, a)
  {
  }

  /** The false exit is followed first: block 3 is merged when the walk comes to it from block 2, which has
      then been passed; coming from the true exit first, it would have merged block 2 as well. */
  lemma DiamondLeaves()
    ensures Walk(Diamond(), 1, {}, {}) == ([3], {1, 2, 3})
  {
    hide Merged, NodeOk, Closed, CanJoin, Joined, Jump, Walk, WalkExit, Loaded;
    DiamondClosed();
    DiamondJoined();
    var p, q := Diamond(), Joined(Diamond(), 3);
    AfterOne(p, 3);
    WalkMeets(p, 3, {1, 2}, {});
    assert {} + {1} == {1} && {1} + {2} == {1, 2} && {} + {2} == {2} && {2} + {3} == {2, 3};
    WalkThrough(p, 2, 3, {1}, {}, ([3], {}));
    AfterNone(q);
    WalkDead(q, 3, {1}, {2});
    WalkTwoExits(p, 1, 2, 3, {}, {}, ([3], {2}), ([], {2, 3}));
    assert [3] + [] == [3] && {2, 3} + {1} == {1, 2, 3};
  }

  lemma AfterOne<K>(p: map<K, Node<K>>, a: K)
    requires CanJoin(p, a)
    ensures After(p, [a]) == Joined(p, a)
  {
    hide CanJoin, Joined;
    assert [a][1..] == [];
  }

  lemma WalkDead<K>(p: map<K, Node<K>>, a: K, parents: set<K>, finished: set<K>)
    requires a in p && p[a].succ == [None, None] && !CanJoin(p, a) && a !in parents && a !in finished
    ensures Walk(p, a, parents, finished) == ([], finished + {a})
  {
    hide CanJoin;
    AfterNone(p);
    assert WalkExit(p, a, 0, parents, finished) == ([], finished) == WalkExit(p, a, 1, parents, finished);
    var none: seq<K> := [];
    assert none + none == none;
  }

  lemma WalkTwoExits<K>(p: map<K, Node<K>>, cur: K, x: K, y: K, parents: set<K>, finished: set<K>,
                        r0: (seq<K>, set<K>), r1: (seq<K>, set<K>))
    requires cur in p && cur !in parents && cur !in finished && !CanJoin(p, cur)
    requires Exit(p, cur, 0) == Some(x) && Walk(p, x, parents + {cur}, finished) == r0 && cur !in r0.1
    requires Exit(After(p, r0.0), cur, 1) == Some(y) && Walk(After(p, r0.0), y, parents + {cur}, r0.1) == r1
    ensures Walk(p, cur, parents, finished) == (r0.0 + r1.0, r1.1 + {cur})
  {
    hide CanJoin, After;
    assert WalkExit(p, cur, 0, parents, finished) == r0;
    assert WalkExit(After(p, r0.0), cur, 1, parents, r0.1) == r1;
  }

  // ----- the walk, case by case -----

  lemma WalkStops<K>(p: map<K, Node<K>>, cur: K, parents: set<K>, finished: set<K>)
    requires cur in parents || cur in finished
    ensures Walk(p, cur, parents, finished) == ([], finished) && After(p, []) == p
  {
  }

  lemma WalkJoins<K>(p: map<K, Node<K>>, order: seq<K>, total: nat, cur: K, parents: set<K>, finished: set<K>)
    requires Sound(p, order, total) && CanJoin(p, cur) && cur !in parents && cur !in finished
    ensures Walk(p, cur, parents, finished) == ([cur], finished)
    ensures After(p, [cur]) == Joined(p, cur) && Sound(Joined(p, cur), order, total)
  {
    hide Sound, CanJoin, Joined;
    JoinSound(p, order, total, cur);
    assert cur in p by { InIt(p, cur); }
    assert [cur][1..] == [];
  }

  lemma InIt<K>(p: map<K, Node<K>>, cur: K)
    requires CanJoin(p, cur)
    ensures cur in p
  {
  }

  /** The call for one exit: what it is, and what it leaves for the next one. */
  lemma WalkExitNext<K>(p: map<K, Node<K>>, order: seq<K>, total: nat, cur: K, w: nat, parents: set<K>,
                        finished: set<K>)
    requires Sound(p, order, total) && cur in p && cur !in parents && cur !in finished && w < 2
    ensures var r := WalkExit(p, cur, w, parents, finished);
            && r == (if Exit(p, cur, w).None? then ([], finished)
                     else Walk(p, Exit(p, cur, w).value, parents + {cur}, finished))
            && After(p, []) == p
            && Sound(After(p, r.0), order, total) && cur in After(p, r.0) && cur !in r.1
            && Exit(After(p, r.0), cur, 1) == Exit(p, cur, 1)
  {
    hide Sound, After, Legal, Exit;
    var r := WalkExit(p, cur, w, parents, finished);
    WalkExitGood(p, order, total, cur, w, parents, finished);
    Carried(p, order, total, parents + {cur}, finished, r, cur, 1);
    AfterNone(p);
  }

  lemma AfterNone<K>(p: map<K, Node<K>>)
    ensures After(p, []) == p
  {
  }

  lemma WalkBoth<K>(p: map<K, Node<K>>, order: seq<K>, total: nat, cur: K, parents: set<K>, finished: set<K>)
    requires Sound(p, order, total) && cur in p && cur !in parents && cur !in finished && !CanJoin(p, cur)
    ensures var r0 := WalkExit(p, cur, 0, parents, finished);
            var r1 := WalkExit(After(p, r0.0), cur, 1, parents, r0.1);
            var r := Walk(p, cur, parents, finished);
            r.1 == r1.1 + {cur} && After(p, r.0) == After(After(p, r0.0), r1.0)
  {
    hide Sound, CanJoin, After, Legal, Exit;
    var r0 := WalkExit(p, cur, 0, parents, finished);
    WalkExitGood(p, order, total, cur, 0, parents, finished);
    Carried(p, order, total, parents + {cur}, finished, r0, cur, 1);
    WalkExitGood(After(p, r0.0), order, total, cur, 1, parents, r0.1);
    var r1 := WalkExit(After(p, r0.0), cur, 1, parents, r0.1);
    LegalAppend(p, r0.0, r1.0);
    assert Walk(p, cur, parents, finished) == (r0.0 + r1.0, r1.1 + {cur});
  }

  // ----- one walk from every entry block -----

  ghost function WalkAll<K>(p: map<K, Node<K>>, entries: seq<K>): seq<K> {
    if entries == [] then []
    else
      var before := WalkAll(p, entries[..|entries| - 1]);
      before + Walk(After(p, before), entries[|entries| - 1], {}, {}).0
  }

  lemma WalkAllNone<K>(p: map<K, Node<K>>)
    ensures forall entries: seq<K> :: After(p, WalkAll(p, entries[..0])) == p
  {
  }

  lemma {:induction false} WalkAllGood<K>(p: map<K, Node<K>>, order: seq<K>, total: nat, entries: seq<K>)
    requires Sound(p, order, total) && forall b :: b in entries ==> b in p
    ensures Legal(p, WalkAll(p, entries)) && Sound(After(p, WalkAll(p, entries)), order, total)
  {
    hide Sound, After, Legal;
    if entries == [] {
      LegalNone(p);
      AfterNone(p);
    } else {
      var front, last := entries[..|entries| - 1], entries[|entries| - 1];
      WalkAllGood(p, order, total, front);
      WalkGood(After(p, WalkAll(p, front)), order, total, last, {}, {});
      LegalAppend(p, WalkAll(p, front), Walk(After(p, WalkAll(p, front)), last, {}, {}).0);
      AfterSound(p, order, total, WalkAll(p, entries));
    }
  }

  lemma LegalNone<K>(p: map<K, Node<K>>)
    ensures Legal(p, [])
  {
  }

  lemma WalkAllNext<K>(p: map<K, Node<K>>, order: seq<K>, total: nat, entries: seq<K>, i: nat)
    requires Sound(p, order, total) && i < |entries| && forall b :: b in entries ==> b in p
    ensures var q := After(p, WalkAll(p, entries[..i]));
            After(p, WalkAll(p, entries[..i + 1])) == After(q, Walk(q, entries[i], {}, {}).0)
  {
    hide Sound, After, Legal;
    var q := After(p, WalkAll(p, entries[..i]));
    assert entries[..i + 1][..i] == entries[..i];
    WalkAllGood(p, order, total, entries[..i]);
    WalkGood(q, order, total, entries[i], {}, {});
    LegalAppend(p, WalkAll(p, entries[..i]), Walk(q, entries[i], {}, {}).0);
  }

  /** The merges of the first walks come first. */
  lemma {:induction false} WalkAllSplit<K>(p: map<K, Node<K>>, order: seq<K>, total: nat, entries: seq<K>, i: nat)
    returns (rest: seq<K>)
    requires Sound(p, order, total) && i < |entries| && forall b :: b in entries ==> b in p
    ensures var before := WalkAll(p, entries[..i]);
            var q := After(p, before);
            var own := Walk(q, entries[i], {}, {}).0;
            && WalkAll(p, entries) == before + (own + rest) && Legal(p, before) && Sound(q, order, total)
            && Legal(q, own + rest) && After(p, WalkAll(p, entries)) == After(q, own + rest)
  {
    hide Sound, After, Legal, Walk;
    var n := |entries| - 1;
    var before := WalkAll(p, entries[..i]);
    var q := After(p, before);
    var own := Walk(q, entries[i], {}, {}).0;
    WalkAllGood(p, order, total, entries[..i]);
    if i == n {
      rest := [];
      WalkGood(q, order, total, entries[i], {}, {});
      WalkOkLegal(q, {}, {}, Walk(q, entries[i], {}, {}));
      assert own + rest == own;
    } else {
      assert entries[..n][..i] == entries[..i];
      var mid := WalkAllSplit(p, order, total, entries[..n], i);
      var m := After(p, WalkAll(p, entries[..n]));
      var last := Walk(m, entries[n], {}, {}).0;
      WalkAllGood(p, order, total, entries[..n]);
      WalkGood(m, order, total, entries[n], {}, {});
      WalkOkLegal(m, {}, {}, Walk(m, entries[n], {}, {}));
      LegalAppend(q, own + mid, last);
      rest := mid + last;
      assert own + mid + last == own + rest;
      assert before + (own + mid) + last == before + (own + rest);
    }
    LegalAppend(p, before, own + rest);
  }

  /** What the whole visitor leaves over, exactly, of the blocks that some walk finishes: a block that
      walk i finished can still be merged if and only if no walk merged it, it has one
      successor, and that one was merged by walk i or a later one. */
  lemma WalkAllLeaves<K>(p: map<K, Node<K>>, order: seq<K>, total: nat, entries: seq<K>, i: nat, b: K)
    requires Sound(p, order, total) && i < |entries| && (forall e :: e in entries ==> e in p) && b in p
    requires b in Walk(After(p, WalkAll(p, entries[..i])), entries[i], {}, {}).1
    ensures var before, all := WalkAll(p, entries[..i]), WalkAll(p, entries);
            && before <= all && NodeOk(p[b])
            && (CanJoin(After(p, all), b) <==>
                  b !in all && OneSucc(p[b]) && p[b].succ[OneExit(p[b])].value in all[|before|..])
  {
    hide Sound, After, Legal, Walk, CanJoin, Closed, NodeOk, OneSucc, OneExit, NoSucc;
    var before, all := WalkAll(p, entries[..i]), WalkAll(p, entries);
    var q := After(p, before);
    var r := Walk(q, entries[i], {}, {});
    var rest := WalkAllSplit(p, order, total, entries, i);
    assert all[|before|..] == r.0 + rest;
    WalkRefuses(q, order, total, entries[i], {}, {});
    AfterSound(q, order, total, r.0 + rest);
    SoundClosed(p, order, total);
    SoundClosed(q, order, total);
    SoundClosed(After(q, r.0 + rest), order, total);
    AfterLeaves(q, r.0 + rest, b);
    assert b in r.1 - {};
    assert NodeOk(p[b]) by { InClosed(p, b); }
    if b in before {
      JoinedDone(p, before, b);
      NotOne(q[b]);
    } else {
      AfterElsewhere(p, before, b);
    }
  }

  lemma InClosed<K>(p: map<K, Node<K>>, b: K)
    requires Closed(p) && b in p
    ensures NodeOk(p[b])
  {
  }

  lemma NotOne<K>(n: Node<K>)
    requires NodeOk(n) && NoSucc(n.block)
    ensures !OneSucc(n)
  {
  }

  /** Two entry blocks that jump to the head of such a chain. */
  function Fork(): map<nat, Node<nat>> { Chain()[4 := JumpTo(1)][5 := JumpTo(1)] }

  lemma WalkThrough<K>(p: map<K, Node<K>>, cur: K, next: K, parents: set<K>, finished: set<K>, r0: (seq<K>, set<K>))
    requires cur in p && cur !in parents && cur !in finished && !CanJoin(p, cur) && Exit(p, cur, 0) == Some(next)
    requires Walk(p, next, parents + {cur}, finished) == r0 && cur !in r0.1 && Exit(After(p, r0.0), cur, 1) == None
    ensures Walk(p, cur, parents, finished) == (r0.0, r0.1 + {cur})
  {
    hide CanJoin, After;
    assert WalkExit(p, cur, 0, parents, finished) == r0;
    assert WalkExit(After(p, r0.0), cur, 1, parents, r0.1) == ([], r0.1);
    assert r0.0 + [] == r0.0;
  }

  lemma ForkClosed()
    ensures var p := Fork(); Closed(p) && CanJoin(p, 2) && TheSucc(p, 2) == 3 && !CanJoin(p, 1) && !CanJoin(p, 4)
  {
    hide NodeOk, OneSucc, NoSucc, OneExit, Jump;
    LinksOk(1);
    LinksOk(2);
    LinksOk(3);
  }

  lemma ForkJoined()
    ensures CanJoin(Fork(), 2)
    ensures var q := Joined(Fork(), 2);
            && q.Keys == {1, 2, 3, 4, 5} && q[1] == JumpTo(2) && q[4] == q[5] == JumpTo(1)
            && Closed(q) && CanJoin(q, 1) && !CanJoin(q, 5)
            && Joined(q, 1).Keys == q.Keys && Joined(q, 1)[5] == JumpTo(1)
  {
    hide NodeOk, OneSucc, OneExit, Jump, Merged, CanJoin;
    ForkClosed();
    LinksOk(1);
    LinksOk(2);
    LinksOk(3);
    NodeJoined(JumpTo(3), Dead());
    JoinSizes(Fork(), 2);
    CanJoinIs(Joined(Fork(), 2), 1);
    JoinBlocked(Joined(Fork(), 2), 5);
  }

  lemma JoinBlocked<K>(p: map<K, Node<K>>, a: K)
    requires Closed(p) && a in p && OneSucc(p[a]) && !NoSucc(p[p[a].succ[OneExit(p[a])].value].block)
    ensures !CanJoin(p, a)
  {
  }

  /** The walk from the first entry merges block 2 and leaves block 1 over; the walk from the second one
      merges block 1, which leaves both entries over. */
  lemma ForkLeaves()
    ensures WalkAll(Fork(), [4]) == [2] && CanJoin(After(Fork(), [2]), 1) && WalkAll(Fork(), [4, 5]) == [2, 1]
  {
    hide Merged, NodeOk, Closed, CanJoin, Joined, Jump, Walk, WalkExit;
    ForkClosed();
    ForkJoined();
    var p, q := Fork(), Joined(Fork(), 2);
    assert [2][1..] == [] && [1][1..] == [];
    AfterEmpty(p);
    AfterEmpty(q);
    AfterEmpty(Joined(q, 1));
    assert After(p, [2]) == q && After(q, [1]) == Joined(q, 1);
    WalkMeets(p, 2, {4, 1}, {});
    assert {} + {4} == {4} && {4} + {1} == {4, 1};
    WalkThrough(p, 1, 2, {4}, {}, ([2], {}));
    assert {} + {1} == {1};
    WalkThrough(p, 4, 1, {}, {}, ([2], {1}));
    WalkMeets(q, 1, {5}, {});
    assert {} + {5} == {5};
    WalkThrough(q, 5, 1, {}, {}, ([1], {}));
    assert [4, 5][..1] == [4] && [4][..0] == [];
    assert WalkAll(p, []) == [] && [] + [2] == [2];
    assert WalkAll(p, [4]) == [2];
    assert [2] + [1] == [2, 1];
  }

  lemma WalkMeets<K>(p: map<K, Node<K>>, cur: K, parents: set<K>, finished: set<K>)
    requires CanJoin(p, cur) && cur !in parents && cur !in finished
    ensures Walk(p, cur, parents, finished) == ([cur], finished)
  {
  }

  /** The whole pass preserves what the linked program computes, from every block and state. */
  lemma WalkAllMeaning<K, M(!new)>(m: Machine<M>, p: map<K, Node<K>>, order: seq<K>, total: nat, entries: seq<K>)
    requires Sound(p, order, total) && Guarded(m, p) && forall b :: b in entries ==> b in p
    ensures Legal(p, WalkAll(p, entries)) && Closed(After(p, WalkAll(p, entries)))
    ensures Equivalent(m, p, WalkAll(p, entries))
  {
    WalkAllGood(p, order, total, entries);
    AfterMeaning(m, p, order, total, WalkAll(p, entries));
  }
}
