/** Blocks linked into a graph, as values: what one merge does to the graph, what every sequence
    of legal merges keeps, and that it does not change what the linked program computes. */
module Graphs {
  import opened Isa
  import opened Blocks
  import opened LinkLists
  import opened SlotViews
  import opened BlockRuns
  import opened Merge

  /** A block with the blocks its exits are linked to: index 0 for the false exit and 1 for the
      true exit.  K names blocks. */
  datatype Node<K> = Node(block: Block, succ: seq<Option<K>>)

  /** Sound references and exact branch lists; an exit that is linked is valid and on its B.  An
      exit that is not linked may dangle: a block that is not disassembled yet has no code. */
  ghost predicate NodeOk<K>(n: Node<K>) {
    && Shaped(n.block) && RefsOk(n.block) && BranchExact(n.block) && |n.succ| == 2
    && (forall w :: 0 <= w < 2 && n.succ[w].Some? ==> ValidExit(n.block, w) && ExitOk(n.block, w))
  }

  predicate NoSucc(b: Block)
    requires Shaped(b)
  {
    b.reset[0] == INVALID && b.reset[1] == INVALID
  }

  /** Exactly one exit is valid, and it is linked. */
  predicate OneSucc<K>(n: Node<K>)
    requires Shaped(n.block) && |n.succ| == 2
  {
    || (n.block.reset[0] == INVALID && n.block.reset[1] != INVALID && n.succ[1].Some?)
    || (n.block.reset[0] != INVALID && n.block.reset[1] == INVALID && n.succ[0].Some?)
  }

  function OneExit<K>(n: Node<K>): (w: nat)
    requires Shaped(n.block)
    ensures w < 2
  {
    if n.block.reset[1] != INVALID then 1 else 0
  }

  function ExitAt<K>(n: Node<K>): nat
    requires Shaped(n.block)
  {
    n.block.target[OneExit(n)] / 4
  }

  ghost predicate Closed<K>(p: map<K, Node<K>>) {
    forall a :: a in p ==> NodeOk(p[a]) && (forall w :: 0 <= w < 2 && p[a].succ[w].Some? ==> p[a].succ[w].value in p)
  }

  /** The code of a block that still has an exit. */
  function Share<K>(n: Node<K>): nat
    requires Shaped(n.block)
  {
    if NoSucc(n.block) then 0 else |n.block.code|
  }

  /** That code, over the blocks in order. */
  function Weight<K>(p: map<K, Node<K>>, order: seq<K>): nat
    requires forall a :: a in order ==> a in p && Shaped(p[a].block)
  {
    if order == [] then 0 else Share(p[order[0]]) + Weight(p, order[1..])
  }

  ghost predicate Lists<K>(order: seq<K>, p: map<K, Node<K>>) {
    && (forall a :: a in p ==> a in order) && (forall i :: 0 <= i < |order| ==> order[i] in p)
    && (forall i, j :: 0 <= i < j < |order| ==> order[i] != order[j])
  }

  /** No merge can outgrow total instructions, whose bytes fit 32 bits. */
  ghost predicate Budget<K>(p: map<K, Node<K>>, order: seq<K>, total: nat)
    requires Closed(p) && Lists(order, p)
  {
    && 4 * total < TWO32 && Weight(p, order) <= total
    && (forall a :: a in p && NoSucc(p[a].block) ==> |p[a].block.code| + Weight(p, order) <= total)
  }

  ghost predicate Sound<K>(p: map<K, Node<K>>, order: seq<K>, total: nat) {
    Closed(p) && Lists(order, p) && Budget(p, order, total)
  }

  // ----- one merge -----

  /** Block a has one successor, and that one has none. */
  ghost predicate CanJoin<K>(p: map<K, Node<K>>, a: K) {
    Closed(p) && a in p && OneSucc(p[a]) && NoSucc(p[p[a].succ[OneExit(p[a])].value].block)
  }

  ghost function TheSucc<K>(p: map<K, Node<K>>, a: K): (s: K)
    requires CanJoin(p, a)
    ensures s in p && s != a && NoSucc(p[s].block)
  {
    p[a].succ[OneExit(p[a])].value
  }

  ghost function Joined<K>(p: map<K, Node<K>>, a: K): (q: map<K, Node<K>>)
    requires CanJoin(p, a)
    ensures q.Keys == p.Keys
  {
    var s := TheSucc(p, a);
    p[a := Node(Merged(p[a].block, p[s].block, ExitAt(p[a])), p[s].succ)]
  }

  lemma JoinSizes<K>(p: map<K, Node<K>>, a: K)
    requires CanJoin(p, a)
    ensures ExitAt(p[a]) < |p[a].block.code|
    ensures |Joined(p, a)[a].block.code| == ExitAt(p[a]) + |p[TheSucc(p, a)].block.code|
    ensures NoSucc(Joined(p, a)[a].block)
  {
    assert NodeOk(p[a]) && ExitOk(p[a].block, OneExit(p[a]));
  }

  lemma {:induction false} WeightSame<K>(p: map<K, Node<K>>, q: map<K, Node<K>>, order: seq<K>)
    requires forall a :: a in order ==> a in p && a in q && Shaped(p[a].block) && p[a] == q[a]
    ensures Weight(p, order) == Weight(q, order)
  {
    if order != [] { WeightSame(p, q, order[1..]); }
  }

  /** When one block changes, the weight changes by its share. */
  lemma {:induction false} WeightPut<K>(p: map<K, Node<K>>, q: map<K, Node<K>>, order: seq<K>, i: nat)
    requires forall a :: a in order ==> a in p && a in q && Shaped(p[a].block) && Shaped(q[a].block)
    requires i < |order| && forall j :: 0 <= j < |order| && j != i ==> p[order[j]] == q[order[j]]
    requires forall j, k :: 0 <= j < k < |order| ==> order[j] != order[k]
    ensures Weight(p, order) + Share(q[order[i]]) == Weight(q, order) + Share(p[order[i]])
  {
    if i == 0 {
      WeightSame(p, q, order[1..]);
    } else {
      WeightPut(p, q, order[1..], i - 1);
    }
  }

  lemma JoinWeight<K>(p: map<K, Node<K>>, order: seq<K>, a: K)
    requires Lists(order, p) && CanJoin(p, a)
    ensures Lists(order, Joined(p, a)) && (forall b :: b in p ==> Shaped(Joined(p, a)[b].block))
    ensures Weight(Joined(p, a), order) + |p[a].block.code| == Weight(p, order)
  {
    hide Merged, RefsOk, BranchExact;
    JoinSizes(p, a);
    var i :| 0 <= i < |order| && order[i] == a;
    forall b | b in p
      ensures Shaped(p[b].block) && Shaped(Joined(p, a)[b].block)
    {
      assert NodeOk(p[b]);
    }
    WeightPut(p, Joined(p, a), order, i);
  }

  lemma NodeJoined<K>(n: Node<K>, s: Node<K>)
    requires NodeOk(n) && NodeOk(s) && OneSucc(n) && NoSucc(s.block) && 4 * (|n.block.code| + |s.block.code|) < TWO32
    ensures ExitAt(n) < |n.block.code| && NodeOk(Node(Merged(n.block, s.block, ExitAt(n)), s.succ))
    ensures s.succ == [None, None]
  {
    assert ExitOk(n.block, OneExit(n));
    MergedWf(n.block, s.block, ExitAt(n));
  }

  /** What the merge of a into its successor needs. */
  lemma JoinRoom<K>(p: map<K, Node<K>>, order: seq<K>, total: nat, a: K)
    requires Sound(p, order, total) && CanJoin(p, a)
    ensures NodeOk(p[a]) && NodeOk(p[TheSucc(p, a)]) && ValidExit(p[a].block, OneExit(p[a]))
    ensures 4 * (ExitAt(p[a]) + |p[TheSucc(p, a)].block.code|) < TWO32 && p[TheSucc(p, a)].succ == [None, None]
  {
    hide RefsOk, BranchExact, Weight;
    JoinWeight(p, order, a);
    JoinSizes(p, a);
  }

  lemma JoinClosed<K>(p: map<K, Node<K>>, order: seq<K>, total: nat, a: K)
    requires Sound(p, order, total) && CanJoin(p, a)
    ensures Closed(Joined(p, a))
  {
    hide Merged, RefsOk, BranchExact, OneSucc, Weight;
    var s, q := TheSucc(p, a), Joined(p, a);
    JoinWeight(p, order, a);
    NodeJoined(p[a], p[s]);
    forall b | b in q
      ensures NodeOk(q[b]) && |q[b].succ| == 2
      ensures (forall w :: 0 <= w < 2 && q[b].succ[w].Some? ==> q[b].succ[w].value in q)
    {
      assert b != a ==> q[b] == p[b];
    }
  }

  /** Every legal merge keeps a linked graph sound: well-formed blocks, a linked exit still a
      valid exit, no link out of the graph, and byte offsets that fit. */
  lemma JoinSound<K>(p: map<K, Node<K>>, order: seq<K>, total: nat, a: K)
    requires Sound(p, order, total) && CanJoin(p, a)
    ensures Sound(Joined(p, a), order, total)
  {
    JoinSizes(p, a);
    JoinClosed(p, order, total, a);
    JoinWeight(p, order, a);
  }

  function CodeSize<K>(p: map<K, Node<K>>, order: seq<K>): nat
    requires forall a :: a in order ==> a in p
  {
    if order == [] then 0 else |p[order[0]].block.code| + CodeSize(p, order[1..])
  }

  lemma {:induction false} WeightBelow<K>(p: map<K, Node<K>>, order: seq<K>)
    requires forall a :: a in order ==> a in p && Shaped(p[a].block)
    ensures Weight(p, order) <= CodeSize(p, order)
    ensures forall a :: a in order && NoSucc(p[a].block) ==> |p[a].block.code| + Weight(p, order) <= CodeSize(p, order)
  {
    if order != [] {
      WeightBelow(p, order[1..]);
      assert forall a :: a in order ==> a == order[0] || a in order[1..];
    }
  }

  /** A linked graph whose code fits 32-bit byte counts is sound to begin with. */
  lemma FirstSound<K>(p: map<K, Node<K>>, order: seq<K>)
    requires Closed(p) && Lists(order, p) && 4 * CodeSize(p, order) < TWO32
    ensures Sound(p, order, CodeSize(p, order))
  {
    hide RefsOk, BranchExact;
    assert forall a :: a in order ==> a in p;
    assert forall a :: a in p ==> NodeOk(p[a]);
    WeightBelow(p, order);
  }

  /** A block that is replaced, by one of the same size and exits or where no code was, keeps the graph
      sound, at the price of the code it gains. */
  lemma PutSound<K>(p: map<K, Node<K>>, order: seq<K>, total: nat, b: K, n: Node<K>, extra: nat)
    requires Sound(p, order, total) && b in p && NodeOk(n) && 4 * (total + extra) < TWO32
    requires forall w :: 0 <= w < 2 && n.succ[w].Some? ==> n.succ[w].value in p
    requires Shaped(p[b].block) && |n.block.code| <= |p[b].block.code| + extra
    requires p[b].block.code == [] || NoSucc(n.block) == NoSucc(p[b].block)
    ensures Sound(p[b := n], order, total + extra)
  {
    hide RefsOk, BranchExact, NodeOk;
    var q := p[b := n];
    var i :| 0 <= i < |order| && order[i] == b;
    NodesShaped(p, n);
    WeightPut(p, q, order, i);
  }

  lemma NodesShaped<K>(p: map<K, Node<K>>, n: Node<K>)
    requires Closed(p) && NodeOk(n)
    ensures Shaped(n.block) && forall a :: a in p ==> Shaped(p[a].block)
  {
    forall a | a in p
      ensures Shaped(p[a].block)
    {
      assert NodeOk(p[a]);
    }
  }

  // ----- runs of merges -----

  ghost predicate Legal<K>(p: map<K, Node<K>>, joins: seq<K>)
    decreases |joins|
  {
    joins == [] || (CanJoin(p, joins[0]) && Legal(Joined(p, joins[0]), joins[1..]))
  }

  /** The graph after the given merges; one that is not legal ends the run. */
  ghost function After<K>(p: map<K, Node<K>>, joins: seq<K>): (q: map<K, Node<K>>)
    ensures q.Keys == p.Keys
    decreases |joins|
  {
    if joins == [] || !CanJoin(p, joins[0]) then p else After(Joined(p, joins[0]), joins[1..])
  }

  lemma {:induction false} AfterAppend<K>(p: map<K, Node<K>>, x: seq<K>, y: seq<K>)
    requires Legal(p, x) && Legal(After(p, x), y)
    ensures Legal(p, x + y) && After(p, x + y) == After(After(p, x), y)
    decreases |x|
  {
    hide CanJoin, Joined;
    if x == [] {
      assert x + y == y;
    } else {
      AfterAppend(Joined(p, x[0]), x[1..], y);
      assert (x + y)[1..] == x[1..] + y;
    }
  }

  lemma {:induction false} AfterSound<K>(p: map<K, Node<K>>, order: seq<K>, total: nat, joins: seq<K>)
    requires Sound(p, order, total) && Legal(p, joins)
    ensures Sound(After(p, joins), order, total) && After(p, joins).Keys == p.Keys
    decreases |joins|
  {
    hide CanJoin, Joined, Closed, Lists, Budget, Sound;
    if joins != [] {
      JoinSound(p, order, total, joins[0]);
      AfterSound(Joined(p, joins[0]), order, total, joins[1..]);
    }
  }

  /** What a run of merges leaves alone: every block that is not one of the merged ones. */
  lemma {:induction false} AfterElsewhere<K>(p: map<K, Node<K>>, joins: seq<K>, b: K)
    requires Legal(p, joins) && b in p && b !in joins
    ensures b in After(p, joins) && After(p, joins)[b] == p[b]
    decreases |joins|
  {
    if joins != [] {
      AfterElsewhere(Joined(p, joins[0]), joins[1..], b);
    }
  }

  // ----- running a linked graph -----

  datatype Spot<K, M> = Spot(at: K, conf: Config<M>)

  /** The block that control enters next when it stands on a linked exit. */
  function Taken<K, M>(n: Node<K>, c: Config<M>): Option<K>
    requires Shaped(n.block) && |n.succ| == 2
  {
    if c.to.Some? then None
    else if n.succ[1].Some? && c.pc == n.block.target[1] / 4 then n.succ[1]
    else if n.succ[0].Some? && c.pc == n.block.target[0] / 4 then n.succ[0]
    else None
  }

  ghost function Move<K, M>(m: Machine<M>, p: map<K, Node<K>>, s: Spot<K, M>): (r: Spot<K, M>)
    requires Closed(p) && s.at in p
    ensures r.at in p
  {
    assert NodeOk(p[s.at]);
    var next := Taken(p[s.at], s.conf);
    if next.Some? then Spot(next.value, Config(0, s.conf.st))
    else Spot(s.at, Step(m, Slots(p[s.at].block), s.conf))
  }

  ghost function Moves<K, M>(m: Machine<M>, p: map<K, Node<K>>, s: Spot<K, M>, n: nat): (r: Spot<K, M>)
    requires Closed(p) && s.at in p
    ensures r.at in p
    decreases n
  {
    if n == 0 then s else Moves(m, p, Move(m, p, s), n - 1)
  }

  /** Control has left the graph. */
  predicate Left<K, M>(p: map<K, Node<K>>, s: Spot<K, M>)
    requires s.at in p
  {
    s.conf.to.Some? || !(0 <= s.conf.pc < |p[s.at].block.code|)
  }

  /** The guards of a merge, for every block: no live relocation straddles the exit of a block with one
      successor, code in front of that exit gets behind it only through it, and no block jumps in
      front of its start.  A relocated B is exempt: it goes to an address, in either direction. */
  ghost predicate NodeGuarded<K, M(!new)>(m: Machine<M>, n: Node<K>)
    requires NodeOk(n)
  {
    && StaysAfter(m, Slots(n.block))
    && (OneSucc(n) ==> NoStraddle(n.block, ExitAt(n)) && StaysBefore(m, Slots(n.block), ExitAt(n)))
  }

  ghost predicate Guarded<K, M(!new)>(m: Machine<M>, p: map<K, Node<K>>)
    requires Closed(p)
  {
    forall a :: a in p ==> NodeGuarded(m, p[a])
  }

  /** Where the graph after merging the successor t of a into it at k stands when the original one
      is at s: at the same place, or in a's copy of t. */
  ghost predicate Matches<K, M>(a: K, k: nat, t: K, s': Spot<K, M>, s: Spot<K, M>) {
    || (s' == s && (s.at == a ==> s.conf.pc <= k && (s.conf.to.Some? ==> s.conf.pc < k)))
    || (s'.at == a && s.at == t && s.conf.pc >= 0 && s' == Spot(a, Config(k + s.conf.pc, s.conf.st, s.conf.to)))
  }

  lemma MoveElsewhere<K, M>(m: Machine<M>, p: map<K, Node<K>>, a: K, s: Spot<K, M>)
    requires CanJoin(p, a) && Closed(Joined(p, a)) && s.at in p && s.at != a
    ensures Matches(a, ExitAt(p[a]), TheSucc(p, a), Move(m, Joined(p, a), s), Move(m, p, s))
  {
    hide Merged, RefsOk, BranchExact, Step;
    assert Joined(p, a)[s.at] == p[s.at];
  }

  /** In front of its exit the merged block does what the original did. */
  lemma MoveFront<K, M(!new)>(m: Machine<M>, p: map<K, Node<K>>, a: K, c: Config<M>)
    requires CanJoin(p, a) && Closed(Joined(p, a)) && Guarded(m, p) && c.pc < ExitAt(p[a])
    ensures Move(m, Joined(p, a), Spot(a, c)) == Move(m, p, Spot(a, c))
    ensures var r := Move(m, p, Spot(a, c));
            r.at == a && r.conf.pc <= ExitAt(p[a]) && (r.conf.to.Some? ==> r.conf.pc < ExitAt(p[a]))
  {
    hide Merged, RelsFit, RelsApart, BranchExact, Step, Steps, NoStraddle, StaysBefore, StaysAfter;
    var d, t, k := p[a].block, p[TheSucc(p, a)].block, ExitAt(p[a]);
    JoinSizes(p, a);
    assert NodeGuarded(m, p[a]) && NodeOk(p[TheSucc(p, a)]);
    MergedSlots(d, t, k);
    StepInFront(m, Slots(d), k, Slots(t), c.pc, c.st);
    BeforeAt(m, Slots(d), k, c);
    StepGone(m, Slots(d), c);
    StepGone(m, Slots(Merged(d, t, k)), c);
    assert c.to.None? ==> c == Config(c.pc, c.st);
  }

  /** Behind it, the merged block does what the successor did. */
  lemma MoveBehind<K, M(!new)>(m: Machine<M>, p: map<K, Node<K>>, a: K, c: Config<M>)
    requires CanJoin(p, a) && Closed(Joined(p, a)) && Guarded(m, p) && c.pc >= 0
    ensures var r := Move(m, p, Spot(TheSucc(p, a), c));
            && r.at == TheSucc(p, a) && r.conf.pc >= 0
            && Move(m, Joined(p, a), Spot(a, Config(ExitAt(p[a]) + c.pc, c.st, c.to)))
                 == Spot(a, Config(ExitAt(p[a]) + r.conf.pc, r.conf.st, r.conf.to))
  {
    hide Merged, RelsFit, RelsApart, BranchExact, Step, Steps, NoStraddle, StaysBefore, StaysAfter;
    var d, t, k := p[a].block, p[TheSucc(p, a)].block, ExitAt(p[a]);
    JoinSizes(p, a);
    assert NodeGuarded(m, p[a]) && NodeOk(p[TheSucc(p, a)]) && NodeGuarded(m, p[TheSucc(p, a)]);
    MergedSlots(d, t, k);
    StepBehind(m, Slots(d)[..k], Slots(t), c.pc, c.st);
    AfterAt(m, Slots(t), c);
    StepGone(m, Slots(t), c);
    StepGone(m, Slots(Merged(d, t, k)), Config(k + c.pc, c.st, c.to));
    assert c.to.None? ==> c == Config(c.pc, c.st);
  }

  ghost predicate AtExit<K, M>(a: K, k: nat, s: Spot<K, M>) { s.at == a && s.conf.pc == k && s.conf.to.None? }

  /** One step of the original graph is one step of the merged one, or none when the exit is taken. */
  lemma JoinMove<K, M(!new)>(m: Machine<M>, p: map<K, Node<K>>, a: K, s': Spot<K, M>, s: Spot<K, M>)
    requires CanJoin(p, a) && Closed(Joined(p, a)) && Guarded(m, p) && s.at in p
    requires Matches(a, ExitAt(p[a]), TheSucc(p, a), s', s)
    ensures AtExit(a, ExitAt(p[a]), s) ==>
              Matches(a, ExitAt(p[a]), TheSucc(p, a), s', Move(m, p, s)) && !AtExit(a, ExitAt(p[a]), Move(m, p, s))
    ensures !AtExit(a, ExitAt(p[a]), s) ==>
              Matches(a, ExitAt(p[a]), TheSucc(p, a), Move(m, Joined(p, a), s'), Move(m, p, s))
  {
    hide Merged, Step, Guarded, RefsOk, BranchExact, Joined;
    if AtExit(a, ExitAt(p[a]), s) {
      assert NodeOk(p[a]);
    } else if s' != s {
      MoveBehind(m, p, a, s.conf);
    } else if s.at == a {
      MoveFront(m, p, a, s.conf);
    } else {
      MoveElsewhere(m, p, a, s);
    }
  }

  /** Every point of a run of the original graph is matched by the merged graph. */
  lemma {:induction false} JoinFollows<K, M(!new)>(m: Machine<M>, p: map<K, Node<K>>, a: K, s': Spot<K, M>,
                                                   s: Spot<K, M>, n: nat)
    returns (n': nat)
    requires CanJoin(p, a) && Closed(Joined(p, a)) && Guarded(m, p) && s.at in p && s'.at in p
    requires Matches(a, ExitAt(p[a]), TheSucc(p, a), s', s)
    ensures n' <= n && Matches(a, ExitAt(p[a]), TheSucc(p, a), Moves(m, Joined(p, a), s', n'), Moves(m, p, s, n))
    decreases n
  {
    hide Matches, Move, Guarded, RefsOk, BranchExact, Joined;
    if n == 0 {
      n' := 0;
    } else {
      JoinMove(m, p, a, s', s);
      if AtExit(a, ExitAt(p[a]), s) {
        n' := JoinFollows(m, p, a, s', Move(m, p, s), n - 1);
      } else {
        n' := JoinFollows(m, p, a, Move(m, Joined(p, a), s'), Move(m, p, s), n - 1);
        n' := n' + 1;
      }
    }
  }

  /** Every point of a run of the merged graph is matched by the original one, not standing on the
      exit that has become a fall-through. */
  lemma {:induction false} JoinFollowed<K, M(!new)>(m: Machine<M>, p: map<K, Node<K>>, a: K, s': Spot<K, M>,
                                                    s: Spot<K, M>, n': nat)
    returns (n: nat)
    requires CanJoin(p, a) && Closed(Joined(p, a)) && Guarded(m, p) && s.at in p && s'.at in p
    requires Matches(a, ExitAt(p[a]), TheSucc(p, a), s', s)
    ensures n' <= n && Matches(a, ExitAt(p[a]), TheSucc(p, a), Moves(m, Joined(p, a), s', n'), Moves(m, p, s, n))
    ensures !AtExit(a, ExitAt(p[a]), Moves(m, p, s, n))
    decreases n', if AtExit(a, ExitAt(p[a]), s) then 1 else 0
  {
    hide Matches, Move, Guarded, RefsOk, BranchExact, AtExit, Joined;
    if AtExit(a, ExitAt(p[a]), s) {
      JoinMove(m, p, a, s', s);
      n := JoinFollowed(m, p, a, s', Move(m, p, s), n');
      n := n + 1;
    } else if n' == 0 {
      n := 0;
    } else {
      JoinMove(m, p, a, s', s);
      n := JoinFollowed(m, p, a, Move(m, Joined(p, a), s'), Move(m, p, s), n' - 1);
      n := n + 1;
    }
  }

  // ----- runs of merges, followed step by step -----

  /** A merge keeps the guards. */
  lemma JoinGuarded<K, M(!new)>(m: Machine<M>, p: map<K, Node<K>>, a: K)
    requires CanJoin(p, a) && Closed(Joined(p, a)) && Guarded(m, p)
    ensures Guarded(m, Joined(p, a))
  {
    hide Merged, RefsOk, BranchExact, Step, NoStraddle, StaysBefore;
    var q, d, t, k := Joined(p, a), p[a].block, p[TheSucc(p, a)].block, ExitAt(p[a]);
    forall b | b in q
      ensures NodeGuarded(m, q[b])
    {
      if b == a {
        JoinSizes(p, a);
        assert NodeGuarded(m, p[a]) && NodeGuarded(m, p[TheSucc(p, a)]);
        MergedStays(m, d, t, k);
      } else {
        assert NodeGuarded(m, p[b]);
      }
    }
  }

  lemma MergedStays<M(!new)>(m: Machine<M>, d: Block, t: Block, k: nat)
    requires RefsOk(d) && RefsOk(t) && k < |d.code| && NoStraddle(d, k)
    requires StaysAfter(m, Slots(d)) && StaysAfter(m, Slots(t))
    ensures StaysAfter(m, Slots(Merged(d, t, k)))
  {
    hide Step, NoStraddle, Merged, RelsFit, RelsApart, BranchExact;
    MergedSlots(d, t, k);
    forall pc: int, st: State<M> | 0 <= pc < |Slots(Merged(d, t, k))|
      ensures Step(m, Slots(Merged(d, t, k)), Config(pc, st)).pc >= 0
    {
      if pc < k {
        StepInFront(m, Slots(d), k, Slots(t), pc, st);
      } else {
        StepBehind(m, Slots(d)[..k], Slots(t), pc - k, st);
      }
    }
  }

  /** Where a spot of the merged graph lies in the original one: a's copy of t is t. */
  ghost function Back<K, M>(a: K, k: nat, t: K, s: Spot<K, M>): Spot<K, M> {
    if s.at == a && s.conf.pc >= k then Spot(t, Config(s.conf.pc - k, s.conf.st, s.conf.to)) else s
  }

  /** Where a spot of the graph after a run of merges lies in the graph before it. */
  ghost function Origin<K, M>(p: map<K, Node<K>>, joins: seq<K>, s: Spot<K, M>): (r: Spot<K, M>)
    requires Legal(p, joins) && s.at in p
    ensures r.at in p && r.conf.st == s.conf.st
    decreases |joins|
  {
    if joins == [] then s
    else
      assert NodeOk(p[joins[0]]);
      Back(joins[0], ExitAt(p[joins[0]]), TheSucc(p, joins[0]), Origin(Joined(p, joins[0]), joins[1..], s))
  }

  /** Matching over a run of merges, by way of where the graphs in between stand. */
  ghost predicate MatchesVia<K, M>(p: map<K, Node<K>>, joins: seq<K>, spots: seq<Spot<K, M>>)
    requires Legal(p, joins)
    decreases |joins|
  {
    && |spots| == |joins| + 1 && spots[0].at in p
    && (joins != [] ==>
          && NodeOk(p[joins[0]])
          && Matches(joins[0], ExitAt(p[joins[0]]), TheSucc(p, joins[0]), spots[1], spots[0])
          && MatchesVia(Joined(p, joins[0]), joins[1..], spots[1..]))
  }

  lemma FirstClosed<K>(p: map<K, Node<K>>, joins: seq<K>)
    requires Legal(p, joins) && joins != [] && Closed(After(p, joins))
    ensures Closed(p) && CanJoin(p, joins[0]) && Closed(Joined(p, joins[0])) && NodeOk(p[joins[0]])
    ensures Legal(Joined(p, joins[0]), joins[1..]) && After(p, joins) == After(Joined(p, joins[0]), joins[1..])
  {
    hide NodeOk, Joined;
  }

  lemma ViaFirst<K, M>(p: map<K, Node<K>>, joins: seq<K>, spots: seq<Spot<K, M>>)
    requires Legal(p, joins) && MatchesVia(p, joins, spots)
    ensures |spots| == |joins| + 1 && spots[0].at in p
    ensures joins == [] ==> spots[|joins|] == spots[0]
    ensures joins != [] ==>
              && NodeOk(p[joins[0]]) && Matches(joins[0], ExitAt(p[joins[0]]), TheSucc(p, joins[0]), spots[1], spots[0])
              && MatchesVia(Joined(p, joins[0]), joins[1..], spots[1..]) && spots[1].at in p
  {
    hide Matches, NodeOk;
  }

  lemma ViaCons<K, M>(p: map<K, Node<K>>, joins: seq<K>, s: Spot<K, M>, rest: seq<Spot<K, M>>)
    requires Legal(p, joins) && joins != [] && s.at in p && NodeOk(p[joins[0]])
    requires MatchesVia(Joined(p, joins[0]), joins[1..], rest)
    requires rest != [] && Matches(joins[0], ExitAt(p[joins[0]]), TheSucc(p, joins[0]), rest[0], s)
    ensures MatchesVia(p, joins, [s] + rest)
  {
    hide Matches, NodeOk, Joined;
    assert ([s] + rest)[1..] == rest && ([s] + rest)[1] == rest[0];
  }

  lemma MatchedOnce<K, M(!new)>(p: map<K, Node<K>>, a: K, s': Spot<K, M>, s: Spot<K, M>)
    requires CanJoin(p, a) && NodeOk(p[a]) && s.at in p && s'.at in p && Matches(a, ExitAt(p[a]), TheSucc(p, a), s', s)
    ensures s'.conf.st == s.conf.st
    ensures Left(p, s) ==> Left(Joined(p, a), s')
    ensures Left(p, s) || !AtExit(a, ExitAt(p[a]), s) ==> Back(a, ExitAt(p[a]), TheSucc(p, a), s') == s
  {
    hide RefsOk, BranchExact, Merged;
    JoinSizes(p, a);
  }

  lemma BackLeft<K, M(!new)>(p: map<K, Node<K>>, a: K, s: Spot<K, M>)
    requires CanJoin(p, a) && NodeOk(p[a]) && s.at in p
    ensures Left(Joined(p, a), s) ==> Left(p, Back(a, ExitAt(p[a]), TheSucc(p, a), s))
  {
    hide RefsOk, BranchExact, Merged;
    JoinSizes(p, a);
  }

  lemma {:induction false} OriginLeft<K, M(!new)>(p: map<K, Node<K>>, joins: seq<K>, s: Spot<K, M>)
    requires Legal(p, joins) && Closed(After(p, joins)) && s.at in p
    ensures Left(After(p, joins), s) ==> Left(p, Origin(p, joins, s))
    decreases |joins|
  {
    hide Joined, Closed, CanJoin, Back, NodeOk, Left;
    if joins != [] {
      FirstClosed(p, joins);
      OriginLeft(Joined(p, joins[0]), joins[1..], s);
      BackLeft(p, joins[0], Origin(Joined(p, joins[0]), joins[1..], s));
    }
  }

  /** Matched spots have the same state, and where control has left, they are the same place. */
  lemma {:induction false} ViaOutcome<K, M(!new)>(p: map<K, Node<K>>, joins: seq<K>, spots: seq<Spot<K, M>>)
    requires Legal(p, joins) && Closed(After(p, joins)) && MatchesVia(p, joins, spots)
    ensures |spots| == |joins| + 1 && spots[0].at in p && spots[|joins|].at in p
    ensures spots[|joins|].conf.st == spots[0].conf.st
    ensures Left(p, spots[0]) ==> Left(After(p, joins), spots[|joins|]) && Origin(p, joins, spots[|joins|]) == spots[0]
    decreases |joins|
  {
    hide Joined, Closed, CanJoin, Back, NodeOk, Left, Matches, MatchesVia, After;
    ViaFirst(p, joins, spots);
    if joins == [] {
      AfterEmpty(p);
    } else {
      FirstClosed(p, joins);
      ViaOutcome(Joined(p, joins[0]), joins[1..], spots[1..]);
      MatchedOnce(p, joins[0], spots[1], spots[0]);
    }
  }

  lemma AfterEmpty<K>(p: map<K, Node<K>>)
    ensures After(p, []) == p
  {
  }

  /** Every point of a run of the graph before the merges is matched by a run after them. */
  lemma {:induction false} AfterFollows<K, M(!new)>(m: Machine<M>, p: map<K, Node<K>>, joins: seq<K>,
                                                    spots: seq<Spot<K, M>>, n: nat)
    returns (n': nat, later: seq<Spot<K, M>>)
    requires Legal(p, joins) && Closed(p) && Closed(After(p, joins)) && Guarded(m, p) && MatchesVia(p, joins, spots)
    ensures n' <= n && |spots| == |joins| + 1 && spots[0].at in p && spots[|joins|].at in p
    ensures MatchesVia(p, joins, later) && |later| == |joins| + 1
    ensures later[0] == Moves(m, p, spots[0], n) && later[|joins|] == Moves(m, After(p, joins), spots[|joins|], n')
    decreases |joins|
  {
    hide Joined, Closed, CanJoin, Guarded, NodeOk, Matches, MatchesVia, Moves, After;
    ViaFirst(p, joins, spots);
    if joins == [] {
      AfterEmpty(p);
      n', later := n, [Moves(m, p, spots[0], n)];
      ViaNone(p, later[0]);
    } else {
      var q, rest := Joined(p, joins[0]), spots[1..];
      FirstClosed(p, joins);
      JoinGuarded(m, p, joins[0]);
      var n1 := JoinFollows(m, p, joins[0], spots[1], spots[0], n);
      n', later := AfterFollows(m, q, joins[1..], rest, n1);
      ViaCons(p, joins, Moves(m, p, spots[0], n), later);
      later := [Moves(m, p, spots[0], n)] + later;
    }
  }

  lemma ViaNone<K, M>(p: map<K, Node<K>>, s: Spot<K, M>)
    requires s.at in p
    ensures MatchesVia(p, [], [s])
  {
  }

  /** Every point of a run after the merges is, instruction for instruction, a point of a run before. */
  lemma {:induction false} AfterFollowed<K, M(!new)>(m: Machine<M>, p: map<K, Node<K>>, joins: seq<K>,
                                                     spots: seq<Spot<K, M>>, n': nat)
    returns (n: nat)
    requires Legal(p, joins) && Closed(p) && Closed(After(p, joins)) && Guarded(m, p) && MatchesVia(p, joins, spots)
    ensures |spots| == |joins| + 1 && spots[0].at in p && spots[|joins|].at in p
    ensures Origin(p, joins, Moves(m, After(p, joins), spots[|joins|], n')) == Moves(m, p, spots[0], n)
    decreases |joins|
  {
    hide Joined, Closed, CanJoin, Guarded, NodeOk, Matches, MatchesVia, Moves, After, Back;
    ViaFirst(p, joins, spots);
    if joins == [] {
      AfterEmpty(p);
      n := n';
    } else {
      var q, rest := Joined(p, joins[0]), spots[1..];
      FirstClosed(p, joins);
      JoinGuarded(m, p, joins[0]);
      var n1 := AfterFollowed(m, q, joins[1..], rest, n');
      n := JoinFollowed(m, p, joins[0], spots[1], spots[0], n1);
      MatchedOnce(p, joins[0], Moves(m, q, spots[1], n1), Moves(m, p, spots[0], n));
    }
  }

  lemma {:induction false} StartVia<K, M(!new)>(p: map<K, Node<K>>, joins: seq<K>, s: Spot<K, M>)
    returns (spots: seq<Spot<K, M>>)
    requires Legal(p, joins) && Closed(After(p, joins)) && s.at in p && s.conf.pc == 0 && s.conf.to.None?
    ensures MatchesVia(p, joins, spots) && |spots| == |joins| + 1 && spots[0] == s == spots[|joins|]
    decreases |joins|
  {
    hide Joined, Closed, CanJoin, NodeOk, Matches, MatchesVia;
    if joins == [] {
      spots := [s];
      ViaNone(p, s);
    } else {
      FirstClosed(p, joins);
      spots := StartVia(Joined(p, joins[0]), joins[1..], s);
      StartMatches(p, joins[0], s);
      ViaCons(p, joins, s, spots);
      spots := [s] + spots;
    }
  }

  lemma StartMatches<K, M>(p: map<K, Node<K>>, a: K, s: Spot<K, M>)
    requires CanJoin(p, a) && s.conf.pc == 0 && s.conf.to.None?
    ensures Shaped(p[a].block) && Matches(a, ExitAt(p[a]), TheSucc(p, a), s, s)
  {
  }

  // ----- what the linked program computes -----

  /** What the graph before the merges does from the start of block a in n steps, the graph after them
      does as well: it reaches the same state, and where control leaves it leaves as well, at
      the same place. */
  ghost predicate Kept<K, M(!new)>(m: Machine<M>, p: map<K, Node<K>>, joins: seq<K>, a: K, st: State<M>, n: nat)
    requires Closed(p) && Legal(p, joins) && Closed(After(p, joins)) && a in p
  {
    exists n' :: SameOutcome(p, joins, Moves(m, p, Spot(a, Config(0, st)), n),
      Moves(m, After(p, joins), Spot(a, Config(0, st)), n'))
  }

  ghost predicate SameOutcome<K, M>(p: map<K, Node<K>>, joins: seq<K>, x: Spot<K, M>, y: Spot<K, M>)
    requires Legal(p, joins) && x.at in p && y.at in p
  {
    && y.conf.st == x.conf.st
    && (Left(p, x) ==> Left(After(p, joins), y) && Origin(p, joins, y) == x)
  }

  /** Where the graph after the merges is after n' steps from the start of block a is a place, with the
      same state, of the original run; control has left there if it has here. */
  ghost predicate Caused<K, M(!new)>(m: Machine<M>, p: map<K, Node<K>>, joins: seq<K>, a: K, st: State<M>, n': nat)
    requires Closed(p) && Legal(p, joins) && Closed(After(p, joins)) && a in p
  {
    exists n ::
      SamePlace(p, joins, Moves(m, p, Spot(a, Config(0, st)), n), Moves(m, After(p, joins), Spot(a, Config(0, st)), n'))
  }

  ghost predicate SamePlace<K, M>(p: map<K, Node<K>>, joins: seq<K>, x: Spot<K, M>, y: Spot<K, M>)
    requires Legal(p, joins) && x.at in p && y.at in p
  {
    Origin(p, joins, y) == x && (Left(After(p, joins), y) ==> Left(p, x))
  }

  /** From the start of every block and every state, the runs before and after the merges reach the same
      states, and control leaves both, at the same place and with the same state, or neither. */
  ghost predicate Equivalent<K, M(!new)>(m: Machine<M>, p: map<K, Node<K>>, joins: seq<K>)
    requires Closed(p) && Legal(p, joins) && Closed(After(p, joins))
  {
    && (forall a, st: State<M>, n: nat :: a in p ==> Kept(m, p, joins, a, st, n))
    && (forall a, st: State<M>, n': nat :: a in p ==> Caused(m, p, joins, a, st, n'))
  }

  lemma RunsAgree<K, M(!new)>(m: Machine<M>, p: map<K, Node<K>>, joins: seq<K>)
    requires Legal(p, joins) && Closed(p) && Closed(After(p, joins)) && Guarded(m, p)
    ensures Equivalent(m, p, joins)
  {
    hide Closed, Left, Moves, Guarded, Legal, After, Origin, MatchesVia;
    forall a, st: State<M>, n: nat | a in p
      ensures Kept(m, p, joins, a, st, n) && Caused(m, p, joins, a, st, n)
    {
      var s := Spot(a, Config(0, st));
      var spots := StartVia(p, joins, s);
      var n', later := AfterFollows(m, p, joins, spots, n);
      ViaOutcome(p, joins, later);
      assert SameOutcome(p, joins, Moves(m, p, s, n), Moves(m, After(p, joins), s, n'));
      var n0 := AfterFollowed(m, p, joins, spots, n);
      OriginLeft(p, joins, Moves(m, After(p, joins), s, n));
      assert SamePlace(p, joins, Moves(m, p, s, n0), Moves(m, After(p, joins), s, n));
    }
  }

  /** One merge preserves what the linked program computes. */
  lemma JoinMeaning<K, M(!new)>(m: Machine<M>, p: map<K, Node<K>>, a: K)
    requires Closed(p) && CanJoin(p, a) && Closed(Joined(p, a)) && Guarded(m, p)
    ensures Legal(p, [a]) && After(p, [a]) == Joined(p, a) && Equivalent(m, p, [a])
  {
    hide Closed, CanJoin, Joined, Guarded, Equivalent;
    assert [a][1..] == [];
    AfterEmpty(Joined(p, a));
    RunsAgree(m, p, [a]);
  }

  lemma {:induction false} AfterGuarded<K, M(!new)>(m: Machine<M>, p: map<K, Node<K>>, joins: seq<K>)
    requires Legal(p, joins) && Closed(p) && Closed(After(p, joins)) && Guarded(m, p)
    ensures Guarded(m, After(p, joins))
    decreases |joins|
  {
    hide Closed, CanJoin, Joined, Guarded, After;
    if joins == [] {
      AfterEmpty(p);
    } else {
      FirstClosed(p, joins);
      JoinGuarded(m, p, joins[0]);
      AfterGuarded(m, Joined(p, joins[0]), joins[1..]);
    }
  }

  /** Every run of legal merges preserves what the linked program computes. */
  lemma AfterMeaning<K, M(!new)>(m: Machine<M>, p: map<K, Node<K>>, order: seq<K>, total: nat, joins: seq<K>)
    requires Sound(p, order, total) && Legal(p, joins) && Guarded(m, p)
    ensures Closed(After(p, joins)) && Equivalent(m, p, joins) && Guarded(m, After(p, joins))
  {
    hide Guarded, Legal, After, Equivalent;
    AfterSound(p, order, total, joins);
    RunsAgree(m, p, joins);
    AfterGuarded(m, p, joins);
  }
}
