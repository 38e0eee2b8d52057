/** include/ConstRegSet/ConstRegSet.hpp and lib/ConstRegSet/ConstRegSet.cpp: which registers
    are known to hold which constants. */
module ConstRegSets {
  import opened Isa
  import opened ConstFold

  class ConstRegSet {
    var size: int
    const regs: array<int>
    const isConst: array<bool>

    ghost predicate Valid()
      reads this, regs, isConst
    {
      regs.Length == 32 && isConst.Length == 32 && !isConst[0] && size == |Known()|
    }

    /** The recorded registers. */
    ghost function Known(): set<Reg>
      requires isConst.Length == 32
      reads isConst
    {
      set r: Reg | r < 32 && isConst[r]
    }

    /** The recorded constants as a map. */
    ghost function Map(): (K: Consts)
      requires Valid()
      reads this, regs, isConst
      ensures K.Keys == Known()
    {
      map r: Reg | r < 32 && isConst[r] :: regs[r]
    }

    constructor ()
      ensures Valid() && Map() == map[] && size == 0 && fresh(regs) && fresh(isConst)
    {
      regs := new int[32](i => 0);
      isConst := new bool[32](i => false);
      size := 0;
      new;
      assert Known() == {};
    }

    method Kill(which: Reg)
      requires Valid()
      modifies this, isConst
      ensures Valid() && Map() == old(Map()) - {which}
      ensures size == |Map()|
    {
      if isConst[which] {
        isConst[which] := false;
        size := size - 1;
        assert Known() == old(Known()) - {which};
      } else {
        assert which !in Known();
      }
    }

    method IsConst(which: Reg) returns (r: bool)
      requires Valid()
      ensures r == (which in Map())
    {
      r := isConst[which];
    }

    /** Register r0 is never recorded. */
    method Set(which: Reg, imm: int)
      requires Valid()
      modifies this, regs, isConst
      ensures Valid() && Map() == Record(old(Map()), which, imm)
      ensures size == |Map()|
    {
      if which != 0 {
        regs[which] := imm;
        if !isConst[which] {
          isConst[which] := true;
          size := size + 1;
          assert Known() == old(Known()) + {which};
        } else {
          assert Known() == old(Known());
        }
      }
    }

    method Get(which: Reg) returns (v: int)
      requires Valid() && which in Map()
      ensures v == Map()[which]
    {
      v := regs[which];
    }
  }
}
