/** The growing serialize buffer (CommandParser/serialize.c). Instantiated at bytes it is the C buffer itself;
    the command parser uses it at whole TLV records, the only unit it ever appends, skips or swaps. */
module SerBuffer {
  class SerializedBuffer<T(0)> {
    var b: array<T>
    var size: nat
    var next: nat
    var checkpoint: nat
    ghost const initialSize: nat
    /** Elements copied by realloc so far. */
    ghost var moved: nat
    /** The largest `next` ever reached. */
    ghost var peak: nat

    ghost predicate Valid()
      reads this, b
    {
      && b.Length == size && 0 < initialSize <= size
      && next <= peak <= size && checkpoint <= size
      && moved <= size - initialSize
      && (size > initialSize ==> size < 2 * peak)
    }

    /** The live contents. */
    ghost function Contents(): seq<T>
      requires Valid()
      reads this, b
    {
      b[..next]
    }

    /** What a restore would bring back. */
    ghost function Saved(): seq<T>
      requires Valid()
      reads this, b
    {
      b[..checkpoint]
    }

    /** init_serialized_buffer_of_defined_size. A buffer of size 0 could never grow by doubling. */
    constructor (size: nat, zero: T)
      requires 0 < size
      ensures Valid() && fresh(b)
      ensures Contents() == [] && Saved() == [] && this.size == initialSize == size && moved == 0
    {
      b := new T[size](_ => zero);
      this.size := size;
      next, checkpoint := 0, 0;
      initialSize := size;
      moved, peak := 0, 0;
    }

    /** The doubling loop shared by the appending operations, and the realloc after it. */
    method Grow(nbytes: nat)
      requires Valid()
      modifies this`size, this`b, this`moved, this`peak
      ensures Valid() && next + nbytes <= size
      ensures b == old(b) || fresh(b)
      ensures b.Length >= old(b.Length) && b[..old(b.Length)] == old(b[..])
      ensures b == old(b) <==> old(next) + nbytes <= old(size)
      ensures peak == if old(peak) < next + nbytes then next + nbytes else old(peak)
    {
      var was := size;
      var grown := size;
      while grown - next < nbytes
        invariant was <= grown && (was < grown ==> 2 * was <= grown && grown < 2 * (next + nbytes))
        decreases nbytes + next - grown
      {
        grown := grown * 2;
      }
      peak := if peak < next + nbytes then next + nbytes else peak;
      if grown == was {
        return;
      }
      Reallocate(grown);
    }

    /** realloc: the old elements move, the new ones are unspecified. */
    method Reallocate(grown: nat)
      requires b.Length == size <= grown
      modifies this`size, this`b, this`moved
      ensures fresh(b) && b.Length == size == grown && moved == old(moved) + old(size)
      ensures b[..old(size)] == old(b[..])
    {
      var bigger := new T[grown];
      forall i | 0 <= i < size {
        bigger[i] := b[i];
      }
      moved := moved + size;
      b, size := bigger, grown;
    }

    /** serialize_string: appends, whatever growth that takes, and leaves everything stored before intact. */
    method SerializeString(data: seq<T>)
      requires Valid()
      modifies this, b
      ensures Valid() && (b == old(b) || fresh(b))
      ensures Contents() == old(Contents()) + data
      ensures checkpoint == old(checkpoint)
      ensures old(checkpoint <= next) ==> Saved() == old(Saved())
    {
      ghost var before := b[..next];
      Grow(|data|);
      assert b[..next] == before;
      forall i | 0 <= i < |data| {
        b[next + i] := data[i];
      }
      assert b[..next + |data|] == before + data;
      next := next + |data|;
    }

    /** serialize_buffer_skip; a negative count rewinds. */
    method Skip(count: int)
      requires Valid() && 0 <= next + count
      modifies this
      ensures Valid() && (b == old(b) || fresh(b))
      ensures next == old(next) + count && checkpoint == old(checkpoint)
      ensures count <= 0 ==> b == old(b) && Contents() == old(Contents())[..next]
      ensures count > 0 ==> old(Contents()) <= Contents()
    {
      if size - next >= count {
        next := next + count;
        peak := if peak < next then next else peak;
        return;
      }
      ghost var before := b[..next];
      Grow(count);
      assert b[..next] == before;
      next := next + count;
    }

    method MarkCheckpoint()
      requires Valid()
      modifies this`checkpoint
      ensures Valid() && Saved() == Contents() && checkpoint == next
    {
      checkpoint := next;
    }

    method RestoreCheckpoint()
      requires Valid()
      modifies this`next, this`peak
      ensures Valid() && Contents() == old(Saved()) && next == checkpoint
    {
      next := checkpoint;
      peak := if peak < next then next else peak;
    }

    method Reset()
      requires Valid()
      modifies this`next, this`checkpoint
      ensures Valid() && Contents() == [] && Saved() == []
    {
      next := 0;
      checkpoint := 0;
    }

    /** de_serialize_string: reads at `next`, which must leave that much room in the buffer. */
    method DeSerializeString(n: nat) returns (data: seq<T>)
      requires Valid() && 0 < n <= size - next
      modifies this`next, this`peak
      ensures Valid() && next == old(next) + n && data == b[next - n..next]
      ensures Contents() == old(Contents()) + data
    {
      data := b[next..next + n];
      next := next + n;
      peak := if peak < next then next else peak;
      assert b[..next] == b[..old(next)] + data;
    }

    /** Every append of a run, then the restore: exactly the marked contents come back, and all reallocation
        so far has copied no more elements than the buffer has gained. */
    method AppendAllThenRestore(parts: seq<seq<T>>)
      requires Valid()
      modifies this, b
      ensures Valid() && (b == old(b) || fresh(b))
      ensures Contents() == old(Contents()) && Saved() == old(Contents())
      ensures moved <= size - initialSize && (size > initialSize ==> size < 2 * peak)
    {
      ghost var marked := Contents();
      MarkCheckpoint();
      for i := 0 to |parts|
        invariant Valid() && (b == old(b) || fresh(b))
        invariant Saved() == marked && checkpoint <= next
      {
        SerializeString(parts[i]);
      }
      RestoreCheckpoint();
    }
  }
}
