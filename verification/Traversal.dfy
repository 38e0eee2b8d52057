/** The read-only traversals: iter_all and iter_can_be_tu (lib/Vistor/TU_Vistor.cpp) and the
    breadth-first start of the disassembly printer (lib/Vistor/DisassemblePrintVistor.cpp). */
module Traversals {
  import opened Blocks
  import opened LinkLists
  import opened Tbs
  import opened Merge
  import opened Graphs
  import opened Walks
  import opened TuVisitors

  // ----- exploring -----

  /** From block a, with the blocks `seen` already seen, exploration has come to see `seen'`: a is
      seen, nothing but blocks reachable from a was added, and what was added leads nowhere new. */
  ghost predicate Explored<K>(p: map<K, Node<K>>, a: K, seen: set<K>, seen': set<K>) {
    && seen <= seen' && a in seen'
    && (forall b :: b in seen' - seen ==> Reachable(p, a, b))
    && Followed(p, seen' - seen, seen', [])
  }

  lemma ReachSelf<K>(p: map<K, Node<K>>, a: K)
    ensures Reachable(p, a, a)
  {
    assert ReachIn(p, a, a, 0);
  }

  lemma {:induction false} ReachFrom<K>(p: map<K, Node<K>>, a: K, b: K, c: K, n: nat)
    requires a in p && Linked(p, a, b) && ReachIn(p, b, c, n)
    ensures ReachIn(p, a, c, n + 1)
    decreases n
  {
    if n == 0 {
      assert ReachIn(p, a, a, 0);
    } else {
      var d :| d in p && ReachIn(p, b, d, n - 1) && Linked(p, d, c);
      ReachFrom(p, a, b, d, n - 1);
    }
  }

  lemma ReachStep<K>(p: map<K, Node<K>>, a: K, b: K, c: K)
    requires a in p && Linked(p, a, b) && Reachable(p, b, c)
    ensures Reachable(p, a, c)
  {
    var n: nat :| ReachIn(p, b, c, n);
    ReachFrom(p, a, b, c, n);
  }

  /** Exploring both exits of a block explores the block. */
  lemma ExploredTwo<K>(p: map<K, Node<K>>, a: K, seen: set<K>, s0: set<K>, s1: set<K>, first: nat)
    requires a in p && a !in seen && first < 2
    requires if Exit(p, a, first).None? then s0 == seen + {a} else Explored(p, Exit(p, a, first).value, seen + {a}, s0)
    requires if Exit(p, a, 1 - first).None? then s1 == s0 else Explored(p, Exit(p, a, 1 - first).value, s0, s1)
    ensures Explored(p, a, seen, s1)
  {
    hide Reachable, Exit;
    ReachSelf(p, a);
    forall b | b in s1 - seen
      ensures Reachable(p, a, b)
    {
      if b in s0 && b != a {
        assert Linked(p, a, Exit(p, a, first).value);
        ReachStep(p, a, Exit(p, a, first).value, b);
      } else if b != a {
        assert Linked(p, a, Exit(p, a, 1 - first).value);
        ReachStep(p, a, Exit(p, a, 1 - first).value, b);
      }
    }
  }

  lemma {:induction false} ExploredReaches<K>(p: map<K, Node<K>>, a: K, seen: set<K>, b: K, n: nat)
    requires Explored(p, a, {}, seen) && ReachIn(p, a, b, n)
    ensures b in seen
    decreases n
  {
    hide Reachable, Exit;
    if n > 0 {
      var c :| c in p && ReachIn(p, a, c, n - 1) && Linked(p, c, b);
      ExploredReaches(p, a, seen, c, n - 1);
      assert c in seen - {};
    }
  }

  /** Exploration from nothing ends with exactly the reachable blocks. */
  lemma ExploredExactly<K>(p: map<K, Node<K>>, a: K, seen: set<K>, b: K)
    requires Explored(p, a, {}, seen)
    ensures b in seen <==> Reachable(p, a, b)
  {
    if b in seen { assert b in seen - {}; }
    if Reachable(p, a, b) {
      var n: nat :| ReachIn(p, a, b, n);
      ExploredReaches(p, a, seen, b, n);
    }
  }

  lemma ReadExits(order: seq<TB>, tb: TB)
    requires Heap(order) && tb in order
    ensures tb.Valid() && |tb.jmpReset| == 2 && tb in Snapshot(order)
    ensures Exit(Snapshot(order), tb, 0) == (if tb.falseBranch == null then None else Some(tb.falseBranch))
    ensures Exit(Snapshot(order), tb, 1) == (if tb.trueBranch == null then None else Some(tb.trueBranch))
    ensures tb.falseBranch != null ==> tb.falseBranch in order
    ensures tb.trueBranch != null ==> tb.trueBranch in order
    ensures One(Snapshot(order), tb) <==> OnlyOneSuccessor(tb)
  {
  }

  /** Block b of graph p has exactly one successor. */
  ghost predicate One<K>(p: map<K, Node<K>>, b: K) {
    b in p && Shaped(p[b].block) && |p[b].succ| == 2 && OneSucc(p[b])
  }

  lemma OneExactly<K>(p: map<K, Node<K>>, b: K)
    ensures One(p, b) <==> exists w: nat, s :: OnlyExit(p, b, w, s)
  {
    if One(p, b) {
      var w := OneExit(p[b]);
      assert OnlyExit(p, b, w, p[b].succ[w].value);
    }
  }

  // ----- iter_all -----

  method IterAll(ghost order: seq<TB>, tb: TB, record: set<nat>, ghost seen: set<TB>)
    returns (record': set<nat>, ghost seen': set<TB>)
    requires Heap(order) && tb in order && Names(order, record, seen)
    ensures Names(order, record', seen') && Explored(Snapshot(order), tb, seen, seen')
    decreases Members(order) - seen
  {
    hide *;
    record', seen' := record, seen;
    ReadExits(order, tb);
    NamesIt(order, record, seen, tb);
    ExploredNone(Snapshot(order), tb, seen);
    if tb.x86Addr !in record {
      Smaller(order, tb, seen, seen + {tb});
      record', seen' := record' + {tb.x86Addr}, seen' + {tb};
      if tb.trueBranch != null {
        record', seen' := IterAll(order, tb.trueBranch, record', seen');
      }
      ghost var s0 := seen';
      SeenGrows(Snapshot(order), tb, 1, seen + {tb}, s0);
      Smaller(order, tb, seen, s0);
      if tb.falseBranch != null {
        record', seen' := IterAll(order, tb.falseBranch, record', seen');
      }
      ExploredTwo(Snapshot(order), tb, seen, s0, seen', 1);
    }
  }

  lemma ExploredNone<K>(p: map<K, Node<K>>, a: K, seen: set<K>)
    ensures a in seen ==> Explored(p, a, seen, seen)
  {
  }

  lemma SeenGrows<K>(p: map<K, Node<K>>, a: K, w: nat, seen: set<K>, seen': set<K>)
    requires if Exit(p, a, w).None? then seen' == seen else Explored(p, Exit(p, a, w).value, seen, seen')
    ensures seen <= seen'
  {
  }

  lemma Smaller(order: seq<TB>, tb: TB, seen: set<TB>, seen': set<TB>)
    requires tb in order && tb !in seen && seen + {tb} <= seen'
    ensures Members(order) - seen' < Members(order) - seen
  {
    assert tb in Members(order) - seen;
  }

  /** What output_tb_culster prints for one entry block: the addresses of exactly the blocks
      reachable from it. */
  method Cluster(ghost order: seq<TB>, tb: TB) returns (result: set<nat>)
    requires Heap(order) && tb in order
    ensures forall b :: b in order ==> (b.x86Addr in result <==> Reachable(Snapshot(order), tb, b))
    ensures forall a :: a in result ==> exists b :: b in order && b.x86Addr == a
  {
    hide Heap, Snapshot, Explored, Reachable;
    NamesNone(order);
    ghost var seen;
    result, seen := IterAll(order, tb, {}, {});
    forall b | b in order
      ensures b.x86Addr in result <==> Reachable(Snapshot(order), tb, b)
    {
      NamesIt(order, result, seen, b);
      ExploredExactly(Snapshot(order), tb, seen, b);
    }
  }

  // ----- iter_can_be_tu -----

  ghost predicate Distinct<K>(l: seq<K>) { forall i, j :: 0 <= i < j < |l| ==> l[i] != l[j] }

  /** l lists each one-successor block of s exactly once. */
  ghost predicate Listing<K>(p: map<K, Node<K>>, l: seq<K>, s: set<K>) {
    && Distinct(l)
    && (forall b :: b in l ==> b in s && One(p, b))
    && (forall b :: b in s && One(p, b) ==> b in l)
  }

  lemma ListingJoin<K>(p: map<K, Node<K>>, l0: seq<K>, s0: set<K>, l1: seq<K>, s1: set<K>)
    requires Listing(p, l0, s0) && Listing(p, l1, s1) && s0 !! s1
    ensures Listing(p, l0 + l1, s0 + s1)
  {
    hide One;
    var l := l0 + l1;
    forall i, j | 0 <= i < j < |l|
      ensures l[i] != l[j]
    {
      if i < |l0| <= j { assert l[i] in l0 && l[j] in l1; }
    }
  }

  function AddrSeq(l: seq<TB>): seq<nat> { seq(|l|, i requires 0 <= i < |l| => l[i].x86Addr) }

  /** What a call has done when it returns: everything new is explored and finished, nothing on the
      stack is finished, and l lists the new one-successor blocks. */
  ghost predicate Listed<K>(p: map<K, Node<K>>, a: K, stack: set<K>, done: set<K>, done': set<K>, l: seq<K>) {
    && Explored(p, a, stack + done, stack + done')
    && done <= done' && (done' - done) !! stack
    && Listing(p, l, done' - done)
  }

  lemma ListedNone<K>(p: map<K, Node<K>>, a: K, stack: set<K>, done: set<K>)
    ensures a in stack || a in done ==> Listed(p, a, stack, done, done, [])
  {
  }

  lemma ListedTwo<K>(p: map<K, Node<K>>, a: K, stack: set<K>, done: set<K>, d0: set<K>, d1: set<K>, l0: seq<K>,
                     l1: seq<K>)
    requires a in p && a !in stack && a !in done
    requires if Exit(p, a, 1).None? then d0 == done && l0 == []
             else Listed(p, Exit(p, a, 1).value, stack + {a}, done, d0, l0)
    requires if Exit(p, a, 0).None? then d1 == d0 && l1 == []
             else Listed(p, Exit(p, a, 0).value, stack + {a}, d0, d1, l1)
    ensures Listed(p, a, stack, done, d1 + {a}, (if One(p, a) then [a] else []) + l0 + l1)
  {
    hide Explored, One, Exit;
    var s := stack + done;
    assert stack + {a} + done == s + {a};
    assert stack + {a} + d1 == stack + (d1 + {a});
    ExploredTwo(p, a, s, stack + {a} + d0, stack + {a} + d1, 1);
    var top := if One(p, a) then [a] else [];
    assert Listing(p, top, {a});
    ListingJoin(p, top, {a}, l0, d0 - done);
    ListingJoin(p, top + l0, {a} + (d0 - done), l1, d1 - d0);
    assert {a} + (d0 - done) + (d1 - d0) == d1 + {a} - done;
  }

  lemma AddrSeqAppend(l: seq<TB>, m: seq<TB>)
    ensures AddrSeq(l + m) == AddrSeq(l) + AddrSeq(m) && AddrSeq([]) == []
    ensures forall tb: TB :: AddrSeq([tb]) == [tb.x86Addr]
  {
  }

  /** The one-successor blocks in the order in which they are listed, and the blocks then finished: a block
      comes before what it leads to, and the true exit is followed first. */
  ghost function Tour<K>(p: map<K, Node<K>>, cur: K, stack: set<K>, done: set<K>): (r: (seq<K>, set<K>))
    ensures done <= r.1
    decreases p.Keys - stack - done
  {
    if cur !in p || cur in stack || cur in done then ([], done)
    else
      assert cur in p.Keys - stack - done;
      var (l0, d0) := TourExit(p, cur, 1, stack, done);
      assert p.Keys - stack - d0 <= p.Keys - stack - done;
      var (l1, d1) := TourExit(p, cur, 0, stack, d0);
      ((if One(p, cur) then [cur] else []) + l0 + l1, d1 + {cur})
  }

  ghost function TourExit<K>(p: map<K, Node<K>>, cur: K, w: nat, stack: set<K>, done: set<K>): (r: (seq<K>, set<K>))
    ensures done <= r.1
    decreases p.Keys - stack - done, 0
  {
    var next := Exit(p, cur, w);
    if next.None? || cur !in p || cur in stack || cur in done then ([], done)
    else
      assert cur in p.Keys - stack - done && cur !in p.Keys - (stack + {cur}) - done;
      Tour(p, next.value, stack + {cur}, done)
  }

  /** No link leads out of the graph. */
  ghost predicate LinksIn<K>(p: map<K, Node<K>>) {
    forall a, w: nat :: a in p && w < 2 && Exit(p, a, w).Some? ==> Exit(p, a, w).value in p
  }

  lemma HeapLinks(order: seq<TB>)
    requires Heap(order)
    ensures LinksIn(Snapshot(order))
  {
  }

  lemma {:induction false} TourListed<K>(p: map<K, Node<K>>, cur: K, stack: set<K>, done: set<K>)
    requires LinksIn(p) && cur in p
    ensures Listed(p, cur, stack, done, Tour(p, cur, stack, done).1, Tour(p, cur, stack, done).0)
    decreases p.Keys - stack - done
  {
    hide One, Explored, Listing, Exit;
    if cur in stack || cur in done {
      ListedNone(p, cur, stack, done);
    } else {
      assert cur in p.Keys - stack - done;
      var r0 := TourExit(p, cur, 1, stack, done);
      TourExitListed(p, cur, 1, stack, done);
      assert p.Keys - stack - r0.1 <= p.Keys - stack - done;
      TourExitListed(p, cur, 0, stack, r0.1);
      var r1 := TourExit(p, cur, 0, stack, r0.1);
      ListedTwo(p, cur, stack, done, r0.1, r1.1, r0.0, r1.0);
    }
  }

  lemma {:induction false} TourExitListed<K>(p: map<K, Node<K>>, cur: K, w: nat, stack: set<K>, done: set<K>)
    requires LinksIn(p) && cur in p && cur !in stack && cur !in done && w < 2
    ensures var r := TourExit(p, cur, w, stack, done);
            && cur !in r.1
            && if Exit(p, cur, w).None? then r == ([], done)
               else Listed(p, Exit(p, cur, w).value, stack + {cur}, done, r.1, r.0)
    decreases p.Keys - stack - done, 0
  {
    hide One, Explored, Listing, Exit, Tour;
    if Exit(p, cur, w).Some? {
      assert cur in p.Keys - stack - done && cur !in p.Keys - (stack + {cur}) - done;
      TourListed(p, Exit(p, cur, w).value, stack + {cur}, done);
    }
  }

  lemma TourStops<K>(p: map<K, Node<K>>, cur: K, stack: set<K>, done: set<K>)
    requires cur in stack || cur in done
    ensures Tour(p, cur, stack, done) == ([], done)
  {
  }

  /** The two links of a block one after the other. */
  lemma TourBoth<K>(p: map<K, Node<K>>, cur: K, stack: set<K>, done: set<K>)
    requires LinksIn(p) && cur in p && cur !in stack && cur !in done
    ensures var r0 := if Exit(p, cur, 1).None? then ([], done) else Tour(p, Exit(p, cur, 1).value, stack + {cur}, done);
            var r1 := if Exit(p, cur, 0).None? then ([], r0.1) else Tour(p, Exit(p, cur, 0).value, stack + {cur}, r0.1);
            && done <= r0.1 && cur !in r0.1
            && Tour(p, cur, stack, done) == ((if One(p, cur) then [cur] else []) + r0.0 + r1.0, r1.1 + {cur})
  {
    hide One, Exit;
    TourExitListed(p, cur, 1, stack, done);
  }

  /** iter_can_be_tu */
  method IterCanBeTu(ghost order: seq<TB>, tb: TB, parents: set<nat>, finished: set<nat>, res: seq<nat>,
                     ghost stack: set<TB>, ghost done: set<TB>)
    returns (parents': set<nat>, finished': set<nat>, res': seq<nat>, ghost done': set<TB>, ghost l: seq<TB>)
    requires Heap(order) && tb in order && Names(order, parents, stack) && Names(order, finished, done)
    ensures parents' == parents && Names(order, finished', done')
    ensures (l, done') == Tour(Snapshot(order), tb, stack, done) && res' == res + AddrSeq(l)
    decreases Members(order) - stack - done
  {
    hide *;
    parents', finished', res', done', l := parents, finished, res, done, [];
    ghost var p := Snapshot(order);
    ReadExits(order, tb);
    HeapLinks(order);
    NamesIt(order, parents, stack, tb);
    NamesIt(order, finished, done, tb);
    AddrSeqAppend([], []);
    if tb.x86Addr in parents || tb.x86Addr in finished {
      TourStops(p, tb, stack, done);
      return;
    }
    TourBoth(p, tb, stack, done);
    Shrinks(order, tb, stack, done);
    parents' := parents' + {tb.x86Addr};
    if OnlyOneSuccessor(tb) {
      res' := res' + [tb.x86Addr];
      l := [tb];
    }
    ghost var top, l0, l1 := l, [], [];
    if tb.trueBranch != null {
      parents', finished', res', done', l0 :=
        IterCanBeTu(order, tb.trueBranch, parents', finished', res', stack + {tb}, done');
    }
    Fewer(order, stack, done, done');
    Shrinks(order, tb, stack, done');
    if tb.falseBranch != null {
      parents', finished', res', done', l1 :=
        IterCanBeTu(order, tb.falseBranch, parents', finished', res', stack + {tb}, done');
    }
    AddrSeqAppend(top, l0);
    AddrSeqAppend(top + l0, l1);
    parents' := parents' - {tb.x86Addr};
    NamesIt(order, finished', done', tb);
    finished' := finished' + {tb.x86Addr};
    done' := done' + {tb};
    l := top + l0 + l1;
  }

  /** From empty sets the listing names exactly the reachable one-successor blocks, each once. */
  lemma ListedExactly<K>(p: map<K, Node<K>>, a: K, done: set<K>, l: seq<K>, b: K)
    requires Listed(p, a, {}, {}, done, l)
    ensures Distinct(l) && (b in l <==> Reachable(p, a, b) && exists w: nat, s :: OnlyExit(p, b, w, s))
  {
    OneExactly(p, b);
    assert {} + done == done && done - {} == done;
    ExploredExactly(p, a, done, b);
  }

  /** What output_tb_can_be_unify prints for one entry block: the address of each reachable block of whose exits
      exactly one is valid and linked, once, in the order of the tour. */
  method CanBeUnified(ghost order: seq<TB>, tb: TB) returns (res: seq<nat>)
    requires Heap(order) && tb in order
    ensures Distinct(res) && res == AddrSeq(Tour(Snapshot(order), tb, {}, {}).0)
    ensures forall b :: b in order ==>
              (b.x86Addr in res <==>
                 Reachable(Snapshot(order), tb, b) && exists w: nat, s :: OnlyExit(Snapshot(order), b, w, s))
  {
    hide *;
    NamesNone(order);
    HeapLinks(order);
    TourListed(Snapshot(order), tb, {}, {});
    var parents, finished;
    ghost var done, l;
    parents, finished, res, done, l := IterCanBeTu(order, tb, {}, {}, [], {}, {});
    assert [] + AddrSeq(l) == AddrSeq(l);
    ListedInside(order, tb, finished, done, l);
    forall b | b in order
      ensures b.x86Addr in res <==>
                Reachable(Snapshot(order), tb, b) && exists w: nat, s :: OnlyExit(Snapshot(order), b, w, s)
    {
      ListedExactly(Snapshot(order), tb, done, l, b);
      AddressListed(order, l, b);
    }
    AddressesDistinct(order, l);
  }

  lemma ListedInside(order: seq<TB>, tb: TB, finished: set<nat>, done: set<TB>, l: seq<TB>)
    requires Heap(order) && Listed(Snapshot(order), tb, {}, {}, done, l) && Names(order, finished, done)
    ensures Distinct(l) && forall c :: c in l ==> c in order
  {
  }

  lemma AddressListed(order: seq<TB>, l: seq<TB>, b: TB)
    requires Heap(order) && b in order && (forall c :: c in l ==> c in order)
    ensures b.x86Addr in AddrSeq(l) <==> b in l
  {
    if b in l {
      var i :| 0 <= i < |l| && l[i] == b;
      assert AddrSeq(l)[i] == b.x86Addr;
    }
  }

  lemma AddressesDistinct(order: seq<TB>, l: seq<TB>)
    requires Heap(order) && Distinct(l) && (forall c :: c in l ==> c in order)
    ensures Distinct(AddrSeq(l))
  {
  }

  /** With both links of the first block leading on, the true one comes first. */
  lemma DiamondTour()
    ensures Tour(Diamond(), 1, {}, {}) == ([3, 2], {1, 2, 3, 4})
  {
    hide Tour, TourExit, Loaded;
    var p := Diamond();
    DiamondLinks();
    assert {} + {1} == {1} && {1} + {3} == {1, 3} && {1} + {2} == {1, 2} && {4} + {3} == {3, 4};
    assert {3, 4} + {2} == {2, 3, 4} && {2, 3, 4} + {1} == {1, 2, 3, 4} && {} + {4} == {4};
    var none: seq<nat> := [];
    assert none + none == none && [3] + none == [3] && [2] + none == [2] && none + [3] == [3] && [3] + [2] == [3, 2];
    TourBoth(p, 4, {1, 3}, {});
    assert Tour(p, 4, {1, 3}, {}) == ([], {4});
    TourBoth(p, 3, {1}, {});
    assert Tour(p, 3, {1}, {}) == ([3], {3, 4});
    TourStops(p, 3, {1, 2}, {3, 4});
    TourBoth(p, 2, {1}, {3, 4});
    assert Tour(p, 2, {1}, {3, 4}) == ([2], {2, 3, 4});
    TourBoth(p, 1, {}, {});
  }

  lemma DiamondLinks()
    ensures var p := Diamond();
            && p.Keys == {1, 2, 3, 4} && LinksIn(p)
            && Exit(p, 1, 1) == Some(3) && Exit(p, 1, 0) == Some(2) && !One(p, 1)
            && Exit(p, 2, 1) == None && Exit(p, 2, 0) == Some(3) && One(p, 2)
            && Exit(p, 3, 1) == None && Exit(p, 3, 0) == Some(4) && One(p, 3)
            && Exit(p, 4, 1) == None && Exit(p, 4, 0) == None && !One(p, 4)
  {
    hide Positions;
  }

  // ----- breadth first -----

  ghost function Elements<K>(q: seq<K>): set<K> { set b | b in q }

  /** The queue holds reachable blocks, each once, and everything that its first n lead to. */
  ghost predicate Queued<K>(p: map<K, Node<K>>, a: K, q: seq<K>, n: nat) {
    && n <= |q| && Distinct(q) && a in q
    && (forall b :: b in q ==> Reachable(p, a, b))
    && Followed(p, Elements(q[..n]), Elements(q), [])
  }

  lemma QueueFirst<K>(p: map<K, Node<K>>, a: K)
    ensures Queued(p, a, [a], 0)
  {
    ReachSelf(p, a);
  }

  /** The queue q' is q with, behind it, the block that exit w of head leads to, if that is new. */
  ghost predicate Pushed<K>(p: map<K, Node<K>>, head: K, w: nat, q: seq<K>, q': seq<K>) {
    q' == if Exit(p, head, w).None? || Exit(p, head, w).value in q then q else q + [Exit(p, head, w).value]
  }

  lemma {:induction false} ReachOn<K>(p: map<K, Node<K>>, a: K, b: K, c: K)
    requires Reachable(p, a, b) && b in p && Linked(p, b, c)
    ensures Reachable(p, a, c)
  {
    var n: nat :| ReachIn(p, a, b, n);
    assert ReachIn(p, a, c, n + 1);
  }

  lemma QueuePush<K>(p: map<K, Node<K>>, a: K, q: seq<K>, n: nat, head: K, w: nat, q': seq<K>)
    requires Queued(p, a, q, n) && head in q && head in p && w < 2 && Pushed(p, head, w, q, q')
    ensures Queued(p, a, q', n) && q <= q'
    ensures Exit(p, head, w).Some? ==> Exit(p, head, w).value in q'
  {
    hide Exit, Reachable;
    if q' != q {
      var c := Exit(p, head, w).value;
      assert Linked(p, head, c);
      ReachOn(p, a, head, c);
      assert q'[..n] == q[..n];
      forall i, j | 0 <= i < j < |q'|
        ensures q'[i] != q'[j]
      {
        assert q'[i] in q;
      }
    }
  }

  /** The links of the queue's blocks, in the order in which they are looked at: number 2 * i is the true
      exit of the block at position i, number 2 * i + 1 its false exit. */
  ghost function LinkNo<K>(p: map<K, Node<K>>, q: seq<K>, r: nat): Option<K> {
    if r / 2 < |q| then Exit(p, q[r / 2], 1 - r % 2) else None
  }

  /** Every block but the first has joined the queue at link number from[j], the first that leads to it, and
      blocks joined in the order of these links. */
  ghost predicate InOrder<K>(p: map<K, Node<K>>, q: seq<K>, from: seq<nat>) {
    && |from| == |q|
    && (forall j :: 1 <= j < |q| ==> from[j] / 2 < j && LinkNo(p, q, from[j]) == Some(q[j]))
    && (forall i, j :: 1 <= i < j < |q| ==> from[i] < from[j])
    && forall j, r: nat :: 1 <= j < |q| && r < from[j] && LinkNo(p, q, r).Some? ==> LinkNo(p, q, r).value in q[..j]
  }

  /** All links up to number n have been looked at, and none behind. */
  ghost predicate LookedAt<K>(p: map<K, Node<K>>, q: seq<K>, from: seq<nat>, n: nat) {
    && InOrder(p, q, from) && (forall j :: 1 <= j < |q| ==> from[j] < n)
    && forall r: nat :: r < n && LinkNo(p, q, r).Some? ==> LinkNo(p, q, r).value in q
  }

  lemma LookFirst<K>(p: map<K, Node<K>>, a: K)
    ensures LookedAt(p, [a], [0], 0)
  {
  }

  lemma LinkNoSame<K>(p: map<K, Node<K>>, q: seq<K>, c: K, n: nat)
    requires n / 2 < |q|
    ensures forall r: nat :: r <= n ==> LinkNo(p, q + [c], r) == LinkNo(p, q, r)
  {
    hide Exit;
  }

  lemma OrderPush<K>(p: map<K, Node<K>>, q: seq<K>, from: seq<nat>, n: nat, c: K)
    requires LookedAt(p, q, from, n) && n / 2 < |q| && LinkNo(p, q, n) == Some(c)
    ensures InOrder(p, q + [c], from + [n])
  {
    LinkNoSame(p, q, c, n);
    hide LinkNo;
    var q', from' := q + [c], from + [n];
    forall j, r: nat | 1 <= j < |q'| && r < from'[j] && LinkNo(p, q', r).Some?
      ensures LinkNo(p, q', r).value in q'[..j]
    {
      assert LinkNo(p, q', r) == LinkNo(p, q, r);
      assert q'[..j] == q[..j];
    }
    forall j | 1 <= j < |q'|
      ensures from'[j] / 2 < j && LinkNo(p, q', from'[j]) == Some(q'[j])
    {
      assert LinkNo(p, q', from'[j]) == LinkNo(p, q, from'[j]);
    }
  }

  lemma LookPush<K>(p: map<K, Node<K>>, q: seq<K>, from: seq<nat>, n: nat, c: K)
    requires LookedAt(p, q, from, n) && n / 2 < |q| && LinkNo(p, q, n) == Some(c)
    ensures LookedAt(p, q + [c], from + [n], n + 1)
  {
    hide LinkNo, InOrder;
    OrderPush(p, q, from, n, c);
    FromPush(p, q, from, n);
    forall r: nat | r < n + 1 && LinkNo(p, q + [c], r).Some?
      ensures LinkNo(p, q + [c], r).value in q + [c]
    {
      SeenPush(p, q, from, n, c, r);
    }
  }

  lemma FromPush<K>(p: map<K, Node<K>>, q: seq<K>, from: seq<nat>, n: nat)
    requires LookedAt(p, q, from, n)
    ensures |from| == |q| && forall j :: 1 <= j < |q| + 1 ==> (from + [n])[j] < n + 1
  {
    hide LinkNo;
  }

  lemma SeenPush<K>(p: map<K, Node<K>>, q: seq<K>, from: seq<nat>, n: nat, c: K, r: nat)
    requires LookedAt(p, q, from, n) && n / 2 < |q| && LinkNo(p, q, n) == Some(c)
    requires r < n + 1 && LinkNo(p, q + [c], r).Some?
    ensures LinkNo(p, q + [c], r).value in q + [c]
  {
    hide LinkNo, InOrder;
    LinkNoSame(p, q, c, n);
    assert LinkNo(p, q + [c], r) == LinkNo(p, q, r);
    assert r == n || LinkNo(p, q, r).value in q;
  }

  lemma LookNext<K>(p: map<K, Node<K>>, q: seq<K>, from: seq<nat>, i: nat, w: nat, q': seq<K>) returns (from': seq<nat>)
    requires w < 2 && i < |q| && LookedAt(p, q, from, 2 * i + 1 - w) && Pushed(p, q[i], w, q, q')
    ensures LookedAt(p, q', from', 2 * i + 2 - w) && i < |q'| && q'[i] == q[i]
  {
    hide Exit, InOrder;
    var n := 2 * i + 1 - w;
    assert n / 2 == i && 1 - n % 2 == w;
    assert LinkNo(p, q, n) == Exit(p, q[i], w);
    from' := from;
    if q' != q {
      from' := from + [n];
      LookPush(p, q, from, n, Exit(p, q[i], w).value);
    }
  }

  lemma QueueNext<K>(p: map<K, Node<K>>, a: K, q: seq<K>, n: nat)
    requires Queued(p, a, q, n) && n < |q|
    requires forall w: nat :: w < 2 && Exit(p, q[n], w).Some? ==> Exit(p, q[n], w).value in q
    ensures Queued(p, a, q, n + 1)
  {
    hide Exit, Reachable;
    assert q[..n + 1] == q[..n] + [q[n]];
  }

  /** A queue worked off to its end enumerates exactly the reachable blocks. */
  lemma QueueDone<K>(p: map<K, Node<K>>, a: K, q: seq<K>, b: K)
    requires Queued(p, a, q, |q|)
    ensures Distinct(q) && (b in q <==> Reachable(p, a, b))
  {
    hide Reachable;
    assert q[..|q|] == q;
    assert Elements(q) - {} == Elements(q);
    assert Explored(p, a, {}, Elements(q));
    ExploredExactly(p, a, Elements(q), b);
  }

  /** One push of the printer: the block behind a link, if it has not been seen. */
  method Push(ghost order: seq<TB>, ghost head: TB, ghost w: nat, branch: TB?, queue: seq<TB>, seen: set<nat>)
    returns (queue': seq<TB>, seen': set<nat>)
    requires Heap(order) && Names(order, seen, Elements(queue))
    requires branch != null ==> branch in order
    requires Exit(Snapshot(order), head, w) == if branch == null then None else Some(branch)
    ensures Names(order, seen', Elements(queue')) && Pushed(Snapshot(order), head, w, queue, queue')
    ensures forall b :: b in queue' ==> b in queue || b in order
  {
    hide Heap, Snapshot, Exit, Names;
    queue', seen' := queue, seen;
    if branch != null {
      NamesIt(order, seen, Elements(queue), branch);
      assert branch in Elements(queue) <==> branch in queue;
      if branch.x86Addr !in seen {
        queue' := queue' + [branch];
        seen' := seen' + {branch.x86Addr};
        assert Elements(queue') == Elements(queue) + {branch};
      }
    }
  }

  /** Visiting the block at the head of the queue: its successors join the queue unless they have been
      seen, the true one first. */
  method PushBoth(ghost order: seq<TB>, ghost entry: TB, queue: seq<TB>, n: nat, seen: set<nat>, ghost from: seq<nat>)
    returns (queue': seq<TB>, seen': set<nat>, ghost from': seq<nat>)
    requires Heap(order) && Names(order, seen, Elements(queue)) && forall b :: b in queue ==> b in order
    requires Queued(Snapshot(order), entry, queue, n) && n < |queue|
    requires LookedAt(Snapshot(order), queue, from, 2 * n)
    ensures Names(order, seen', Elements(queue')) && forall b :: b in queue' ==> b in order
    ensures Queued(Snapshot(order), entry, queue', n + 1) && queue <= queue'
    ensures LookedAt(Snapshot(order), queue', from', 2 * (n + 1))
  {
    hide *;
    ghost var p := Snapshot(order);
    var head := queue[n];
    ReadExits(order, head);
    queue', seen' := Push(order, head, 1, head.trueBranch, queue, seen);
    QueuePush(p, entry, queue, n, head, 1, queue');
    from' := LookNext(p, queue, from, n, 1, queue');
    ghost var q1 := queue';
    queue', seen' := Push(order, head, 0, head.falseBranch, queue', seen');
    QueuePush(p, entry, q1, n, head, 0, queue');
    from' := LookNext(p, q1, from', n, 0, queue');
    QueueNext(p, entry, queue', n);
  }

  /** DisassmblePrinterVistor::start(seg, entry): visits the blocks reachable from the entry, level
      by level; `visited` is what gets printed, in order: a block comes where the first link to it does,
      true exits in front of false ones. */
  method BreadthFirst(ghost order: seq<TB>, entry: TB) returns (visited: seq<TB>, ghost from: seq<nat>)
    requires Heap(order) && entry in order
    ensures Distinct(visited) && visited != [] && visited[0] == entry && InOrder(Snapshot(order), visited, from)
    ensures forall b :: b in order ==> (b in visited <==> Reachable(Snapshot(order), entry, b))
  {
    hide *;
    ghost var p := Snapshot(order);
    var queue := [entry];
    visited := [];
    var curHead := 0;
    var seen := {entry.x86Addr};
    QueueFirst(p, entry);
    QueueNames(order, entry);
    LookFirst(p, entry);
    from := [0];
    while curHead < |queue|
      invariant 0 <= curHead <= |queue| && visited == queue[..curHead] && Queued(p, entry, queue, curHead)
      invariant LookedAt(p, queue, from, 2 * curHead) && queue != [] && queue[0] == entry
      invariant Names(order, seen, Elements(queue)) && forall b :: b in queue ==> b in order
      decreases Members(order) - Elements(queue[..curHead])
    {
      var count := |queue| - curHead;
      ghost var before, q0 := curHead, queue;
      while count > 0
        invariant 0 <= count && curHead + count <= |queue| && q0 <= queue && before <= curHead
        invariant curHead + count == |q0|
        invariant curHead <= |queue| && visited == queue[..curHead] && Queued(p, entry, queue, curHead)
        invariant LookedAt(p, queue, from, 2 * curHead) && queue != [] && queue[0] == entry
        invariant Names(order, seen, Elements(queue)) && forall b :: b in queue ==> b in order
      {
        visited := visited + [queue[curHead]];
        ghost var q := queue;
        queue, seen, from := PushBoth(order, entry, queue, curHead, seen, from);
        assert queue[curHead] == q[curHead] && queue[..curHead] == q[..curHead];
        assert queue[..curHead + 1] == queue[..curHead] + [queue[curHead]];
        curHead := curHead + 1;
        count := count - 1;
      }
      assert queue[..before] == q0[..before];
      LevelDone(order, p, entry, queue, before, curHead);
    }
    assert visited == queue;
    QueueAll(order, p, entry, queue);
    InOrderAtLast(p, queue, from);
  }

  lemma InOrderAtLast<K>(p: map<K, Node<K>>, q: seq<K>, from: seq<nat>)
    requires LookedAt(p, q, from, 2 * |q|)
    ensures InOrder(p, q, from)
  {
  }

  lemma QueueAll(order: seq<TB>, p: map<TB, Node<TB>>, entry: TB, q: seq<TB>)
    requires Queued(p, entry, q, |q|)
    ensures Distinct(q) && forall b :: b in order ==> (b in q <==> Reachable(p, entry, b))
  {
    hide Queued, Reachable;
    QueueDone(p, entry, q, entry);
    forall b | b in order
      ensures b in q <==> Reachable(p, entry, b)
    {
      QueueDone(p, entry, q, b);
    }
  }

  lemma QueueNames(order: seq<TB>, entry: TB)
    requires entry in order
    ensures Names(order, {entry.x86Addr}, Elements([entry]))
  {
  }

  lemma LevelDone(order: seq<TB>, p: map<TB, Node<TB>>, entry: TB, q: seq<TB>, i: nat, j: nat)
    requires Queued(p, entry, q, j) && i < j && forall b :: b in q ==> b in order
    ensures Members(order) - Elements(q[..j]) < Members(order) - Elements(q[..i])
  {
    assert q[i] in q[..j] && q[i] !in q[..i];
    assert q[..i] == q[..j][..i];
    assert q[i] in Members(order) - Elements(q[..i]);
  }
}
