/** Linking the blocks of a segment: settle_all_tb, TB_Link and SetNextTB
    (lib/AOT_class/aot_class.cpp), and what the parents lists then say. */
module Settles {
  import opened Isa
  import opened Blocks
  import opened LinkLists
  import opened Tbs

  /** The block that an exit gets linked to: the one at its x86 address, if the exit is valid and there
      is one. */
  function LinkAt(reset: nat, offset: nat, addrToTb: map<nat, TB>, segBegin: nat): Option<TB> {
    var addr := (offset + segBegin) % TWO64;
    if reset != INVALID && addr in addrToTb then Some(addrToTb[addr]) else None
  }

  function LinkOf(tb: TB, w: nat, addrToTb: map<nat, TB>, segBegin: nat): Option<TB>
    requires w < 2 && |tb.jmpReset| == 2 && |tb.x86Offset| == 2
    reads tb`jmpReset
  {
    LinkAt(tb.jmpReset[w], tb.x86Offset[w], addrToTb, segBegin)
  }

  /** On a map in which the segment's blocks are registered, each under the segment's beginning plus its own
      offset in 64 bits, an exit is linked to the block whose offset it names; an exit that is not valid, or
      names an address that nothing is registered under, to none. */
  lemma LinkByOffset(reset: nat, offset: nat, addrToTb: map<nat, TB>, segBegin: nat, tbs: seq<TB>, offsets: seq<nat>)
    requires |offsets| == |tbs|
    requires forall i :: 0 <= i < |tbs| ==>
               var addr := (segBegin + offsets[i]) % TWO64; addr in addrToTb && addrToTb[addr] == tbs[i]
    ensures forall i :: 0 <= i < |tbs| && reset != 0xffff && offset == offsets[i] ==>
              LinkAt(reset, offset, addrToTb, segBegin) == Some(tbs[i])
    ensures reset == 0xffff || (segBegin + offset) % TWO64 !in addrToTb ==>
              LinkAt(reset, offset, addrToTb, segBegin) == None
  {
  }

  ghost predicate Plain(tbs: seq<TB>)
    reads tbs`jmpReset
  {
    forall b :: b in tbs ==> |b.jmpReset| == 2 && |b.x86Offset| == 2
  }

  /** The blocks that link to b, in the order in which the loop over tbs finds them. */
  ghost function Incoming(tbs: seq<TB>, b: TB, addrToTb: map<nat, TB>, segBegin: nat): seq<TB>
    requires Plain(tbs)
    reads tbs`jmpReset
    decreases |tbs|
  {
    if tbs == [] then []
    else
      var last := tbs[|tbs| - 1];
      Incoming(tbs[..|tbs| - 1], b, addrToTb, segBegin)
      + (if LinkOf(last, 1, addrToTb, segBegin) == Some(b) then [last] else [])
      + (if LinkOf(last, 0, addrToTb, segBegin) == Some(b) then [last] else [])
  }

  function Ptr(o: Option<TB>): TB? { if o.Some? then o.value else null }

  /** SetNextTB; the original asserts that the slot is empty. */
  method SetNextTB(tb: TB, branch: TB, isTrueBranch: bool)
    requires if isTrueBranch then tb.trueBranch == null else tb.falseBranch == null
    modifies tb`trueBranch, tb`falseBranch, branch`parents
    ensures tb.trueBranch == (if isTrueBranch then branch else old(tb.trueBranch))
    ensures tb.falseBranch == (if isTrueBranch then old(tb.falseBranch) else branch)
    ensures branch.parents == old(branch.parents) + [tb]
  {
    if isTrueBranch {
      tb.trueBranch := branch;
    } else {
      tb.falseBranch := branch;
    }
    branch.parents := branch.parents + [tb];
  }

  /** TB_Link */
  method TBLink(tb: TB, isTrueBranch: bool, addrToTb: map<nat, TB>, segBegin: nat)
    requires |tb.jmpReset| == 2 && |tb.x86Offset| == 2 && tb.jmpReset[if isTrueBranch then 1 else 0] != INVALID
    requires if isTrueBranch then tb.trueBranch == null else tb.falseBranch == null
    modifies tb`trueBranch, tb`falseBranch, (set b | b in addrToTb.Values)`parents
    ensures var next := LinkOf(tb, if isTrueBranch then 1 else 0, addrToTb, segBegin);
            && tb.trueBranch == (if isTrueBranch then Ptr(next) else old(tb.trueBranch))
            && tb.falseBranch == (if isTrueBranch then old(tb.falseBranch) else Ptr(next))
            && forall b :: b in addrToTb.Values ==> b.parents == old(b.parents) + if next == Some(b) then [tb] else []
  {
    var x86Addr := (tb.x86Offset[if isTrueBranch then 1 else 0] + segBegin) % TWO64;
    if x86Addr in addrToTb {
      SetNextTB(tb, addrToTb[x86Addr], isTrueBranch);
    }
  }

  /** One round of settle_all_tb. */
  method SettleOne(tb: TB, addrToTb: map<nat, TB>, segBegin: nat)
    requires |tb.jmpReset| == 2 && |tb.x86Offset| == 2 && tb.trueBranch == null && tb.falseBranch == null
    modifies tb`trueBranch, tb`falseBranch, (set b | b in addrToTb.Values)`parents
    ensures tb.trueBranch == Ptr(LinkOf(tb, 1, addrToTb, segBegin))
    ensures tb.falseBranch == Ptr(LinkOf(tb, 0, addrToTb, segBegin))
    ensures forall b :: b in addrToTb.Values ==>
              b.parents == old(b.parents)
                         + (if LinkOf(tb, 1, addrToTb, segBegin) == Some(b) then [tb] else [])
                         + (if LinkOf(tb, 0, addrToTb, segBegin) == Some(b) then [tb] else [])
  {
    if tb.jmpReset[1] != INVALID && tb.jmpReset[0] != INVALID {
      TBLink(tb, true, addrToTb, segBegin);
      TBLink(tb, false, addrToTb, segBegin);
    } else if tb.jmpReset[1] != INVALID {
      TBLink(tb, true, addrToTb, segBegin);
    } else if tb.jmpReset[0] != INVALID {
      TBLink(tb, false, addrToTb, segBegin);
    }
  }

  lemma IncomingNone(addrToTb: map<nat, TB>, segBegin: nat)
    ensures forall b :: b in addrToTb.Values ==> Incoming([], b, addrToTb, segBegin) == []
  {
  }

  lemma IncomingNext(tbs: seq<TB>, i: nat, addrToTb: map<nat, TB>, segBegin: nat)
    requires Plain(tbs) && i < |tbs|
    ensures Plain(tbs[..i]) && Plain(tbs[..i + 1])
    ensures forall b :: b in addrToTb.Values ==>
              Incoming(tbs[..i + 1], b, addrToTb, segBegin) == Incoming(tbs[..i], b, addrToTb, segBegin)
                + (if LinkOf(tbs[i], 1, addrToTb, segBegin) == Some(b) then [tbs[i]] else [])
                + (if LinkOf(tbs[i], 0, addrToTb, segBegin) == Some(b) then [tbs[i]] else [])
  {
    assert tbs[..i + 1][..i] == tbs[..i];
  }

  /** settle_all_tb: every valid exit is linked to the block at its address, if there is one, and
      every block's parents grow by exactly the blocks that link to it. */
  method SettleAllTb(tbs: seq<TB>, addrToTb: map<nat, TB>, segBegin: nat)
    requires Plain(tbs) && forall i, j :: 0 <= i < j < |tbs| ==> tbs[i] != tbs[j]
    requires forall b :: b in tbs ==> b.trueBranch == null && b.falseBranch == null
    modifies tbs`trueBranch, tbs`falseBranch, (set b | b in addrToTb.Values)`parents
    ensures forall b :: b in tbs ==>
              b.trueBranch == Ptr(LinkOf(b, 1, addrToTb, segBegin))
                && b.falseBranch == Ptr(LinkOf(b, 0, addrToTb, segBegin))
    ensures forall b, w :: b in tbs && 0 <= w < 2 ==>
              var next := if w == 1 then b.trueBranch else b.falseBranch;
              var addr := (segBegin + b.x86Offset[w]) % TWO64;
              next == if b.jmpReset[w] == INVALID || addr !in addrToTb then null else addrToTb[addr]
    ensures forall b :: b in addrToTb.Values ==> b.parents == old(b.parents) + Incoming(tbs, b, addrToTb, segBegin)
  {
    hide LinkOf, Incoming, Ptr;
    IncomingNone(addrToTb, segBegin);
    for i := 0 to |tbs|
      invariant forall j :: 0 <= j < i ==>
                  && tbs[j].trueBranch == Ptr(LinkOf(tbs[j], 1, addrToTb, segBegin))
                  && tbs[j].falseBranch == Ptr(LinkOf(tbs[j], 0, addrToTb, segBegin))
      invariant forall j :: i <= j < |tbs| ==> tbs[j].trueBranch == null && tbs[j].falseBranch == null
      invariant forall b :: b in addrToTb.Values ==>
                  b.parents == old(b.parents) + Incoming(tbs[..i], b, addrToTb, segBegin)
    {
      IncomingNext(tbs, i, addrToTb, segBegin);
      SettleOne(tbs[i], addrToTb, segBegin);
    }
    assert tbs[..|tbs|] == tbs;
    forall b | b in tbs
      ensures forall w :: 0 <= w < 2 ==>
                var next := if w == 1 then b.trueBranch else b.falseBranch;
                var addr := (segBegin + b.x86Offset[w]) % TWO64;
                next == if b.jmpReset[w] == INVALID || addr !in addrToTb then null else addrToTb[addr]
    {
      LinkIs(b, 0, addrToTb, segBegin);
      LinkIs(b, 1, addrToTb, segBegin);
    }
  }

  lemma LinkIs(b: TB, w: nat, addrToTb: map<nat, TB>, segBegin: nat)
    requires w < 2 && |b.jmpReset| == 2 && |b.x86Offset| == 2
    ensures var addr := (segBegin + b.x86Offset[w]) % TWO64;
            Ptr(LinkOf(b, w, addrToTb, segBegin))
              == if b.jmpReset[w] == INVALID || addr !in addrToTb then null else addrToTb[addr]
  {
  }

  /** How often a block with the given links links to b. */
  function Arrows(tb: TB, b: TB, addrToTb: map<nat, TB>, segBegin: nat): nat
    requires |tb.jmpReset| == 2 && |tb.x86Offset| == 2
    reads tb`jmpReset
  {
    (if LinkOf(tb, 1, addrToTb, segBegin) == Some(b) then 1 else 0)
    + (if LinkOf(tb, 0, addrToTb, segBegin) == Some(b) then 1 else 0)
  }

  /** As a multiset the parents are exactly the incoming links: a block is there once for each of its
      exits that leads to b, and nothing else is. */
  lemma {:induction false} IncomingCount(tbs: seq<TB>, b: TB, addrToTb: map<nat, TB>, segBegin: nat, a: TB)
    requires Plain(tbs) && forall i, j :: 0 <= i < j < |tbs| ==> tbs[i] != tbs[j]
    ensures multiset(Incoming(tbs, b, addrToTb, segBegin))[a]
              == if a in tbs then Arrows(a, b, addrToTb, segBegin) else 0
  {
    if tbs != [] {
      var front, last := tbs[..|tbs| - 1], tbs[|tbs| - 1];
      assert tbs == front + [last];
      IncomingCount(front, b, addrToTb, segBegin, a);
    }
  }

  /** Entry blocks are exactly the blocks that no link leads to. */
  lemma {:induction false} NoIncoming(tbs: seq<TB>, b: TB, addrToTb: map<nat, TB>, segBegin: nat)
    requires Plain(tbs)
    ensures Incoming(tbs, b, addrToTb, segBegin) == [] <==>
              forall a :: a in tbs ==>
                LinkOf(a, 1, addrToTb, segBegin) != Some(b) && LinkOf(a, 0, addrToTb, segBegin) != Some(b)
  {
    if tbs != [] {
      var front, last := tbs[..|tbs| - 1], tbs[|tbs| - 1];
      assert tbs == front + [last];
      NoIncoming(front, b, addrToTb, segBegin);
    }
  }
}
