/** The growing byte arrays of array.c that hold what a connection has read
    and what it still has to write. */
module Buffer {

  newtype byte = x: int | 0 <= x < 256

  /** `mem` is null until the first allocation; its length is what array.c calls
      `allocated`. `grow` tells each operation whether the allocator succeeds. */
  class Array {
    var mem: array?<byte>
    var used: nat

    ghost predicate Valid()
      reads this
    {
      if mem == null then used == 0 else used <= mem.Length
    }

    function Allocated(): nat
      reads this
    {
      if mem == null then 0 else mem.Length
    }

    ghost function Contents(): seq<byte>
      reads this, mem
      requires Valid()
    {
      if mem == null then [] else mem[..used]
    }

    /** There is room for one more byte, as there is after every append. */
    predicate Spare()
      reads this
    {
      used < Allocated() || mem == null
    }

    constructor ()
      ensures Valid() && Spare() && Contents() == [] && mem == null
    {
      mem, used := null, 0;
    }

    /** `array_alloc` for bytes: growing also counts the new bytes as used. */
    method Alloc(pos: nat, grow: bool) returns (ok: bool)
      requires Valid()
      modifies this
      ensures Valid() && (mem == old(mem) || fresh(mem))
      ensures ok == (pos < old(Allocated()) || grow)
      ensures !ok || pos < old(Allocated()) ==> mem == old(mem) && used == old(used)
      ensures ok ==> pos < Allocated()
      ensures ok && pos >= old(Allocated()) ==>
                && used == pos + 1 && fresh(mem) && mem.Length == pos + 1
                && old(used) <= used && mem[..old(used)] == old(Contents())
                && forall i :: old(used) <= i < pos + 1 ==> mem[i] == 0
    {
      if pos < Allocated() {
        return true;
      }
      if !grow {
        return false;
      }
      var tmp := new byte[pos + 1](_ => 0);
      if mem != null {
        forall i | 0 <= i < used {
          tmp[i] := mem[i];
        }
      }
      mem, used := tmp, pos + 1;
      return true;
    }

    /** `array_catb`: all of `src` is appended, leaving a spare byte, or nothing
        changes. */
    method CatB(src: seq<byte>, grow: bool) returns (ok: bool)
      requires Valid()
      modifies this, mem
      ensures Valid() && (mem == old(mem) || fresh(mem))
      ensures Contents() == if ok then old(Contents()) + src else old(Contents())
      ensures grow ==> ok
      ensures (ok && src != []) || old(Spare()) ==> Spare()
    {
      if src == [] {
        assert old(Contents()) + src == old(Contents());
        return true;
      }
      var start := used;
      ok := Alloc(start + |src|, grow);
      if !ok {
        return false;
      }
      ghost var before := mem[..start];
      assert before == old(Contents());
      forall i | 0 <= i < |src| {
        mem[start + i] := src[i];
      }
      used := start + |src|;
      assert mem[..start] == before;
      assert mem[start..used] == src;
      assert mem[..used] == mem[..start] + mem[start..used];
      return true;
    }

    /** `array_cat0_temporary`: with a spare byte the NUL behind the contents is
        not counted; exactly without one it becomes part of them. */
    method Cat0Temporary(grow: bool) returns (ok: bool)
      requires Valid()
      modifies this, mem
      ensures Valid() && (mem == old(mem) || fresh(mem))
      ensures ok == (old(used) < old(Allocated()) || grow)
      ensures !ok ==> Contents() == old(Contents()) && mem == old(mem)
      ensures ok && old(used) < old(Allocated()) ==>
                mem == old(mem) && Contents() == old(Contents()) && used < mem.Length && mem[used] == 0
      ensures ok && old(used) >= old(Allocated()) ==> Contents() == old(Contents()) + [0]
    {
      var pos := used;
      ok := Alloc(pos, grow);
      if ok {
        ghost var before := mem[..pos];
        mem[pos] := 0;
        assert mem[..pos] == before;
        if used > pos { assert mem[..used] == before + [0]; }
      }
    }

    /** `array_moveleft`: the first `pos` bytes are dropped in place. */
    method MoveLeft(pos: nat)
      requires Valid()
      modifies this, mem
      ensures Valid() && mem == old(mem) && (old(Spare()) ==> Spare())
      ensures Contents() == if pos >= old(used) then [] else old(Contents())[pos..]
    {
      if pos == 0 {
        return;
      }
      if used <= pos {
        used := 0;
        return;
      }
      used := used - pos;
      ghost var was := mem[..];
      var i := 0;
      while i < used
        invariant 0 <= i <= used && used == old(used) - pos && mem == old(mem)
        invariant forall k :: 0 <= k < i ==> mem[k] == was[k + pos]
        invariant forall k :: i <= k < mem.Length ==> mem[k] == was[k]
      {
        mem[i] := mem[i + pos];
        i := i + 1;
      }
      assert mem[..used] == was[..old(used)][pos..];
    }

    /** A byte overwritten in place. */
    method Put(i: nat, b: byte)
      requires Valid() && i < used
      modifies mem
      ensures Valid() && Contents() == old(Contents())[i := b]
    {
      mem[i] := b;
    }

    /** `array_trunc` */
    method Trunc()
      requires Valid()
      modifies this`used
      ensures Valid() && Contents() == [] && (old(Spare()) ==> Spare())
    {
      used := 0;
    }

    /** `array_copyb` */
    method CopyB(src: seq<byte>, grow: bool) returns (ok: bool)
      requires Valid()
      modifies this, mem
      ensures Valid() && (mem == old(mem) || fresh(mem))
      ensures Contents() == if ok then src else []
      ensures grow ==> ok
    {
      Trunc();
      ok := CatB(src, grow);
    }
  }
}
