/** The wrap-around byte ring (ByteCircularBuffer.cpp). */
module ByteRing {
  import opened Arithmetic
  import opened Bytes

  /** The element at position `x` of `a` read as a circle. */
  function At(a: seq<byte>, x: nat): byte
    requires x < 2 * |a|
  {
    if x < |a| then a[x] else a[x - |a|]
  }

  /** The `n` bytes of `a` from `start` on, continuing at the beginning after the end. */
  function Window(a: seq<byte>, start: nat, n: nat): (w: seq<byte>)
    requires start < |a| && n <= |a|
    ensures |w| == n
  {
    seq(n, i requires 0 <= i < n => At(a, start + i))
  }

  /** Moving the start of a window forward by `k` drops its first `k` bytes. */
  lemma WindowDrop(a: seq<byte>, start: nat, n: nat, k: nat)
    requires start < |a| && k <= n <= |a|
    ensures Window(a, if start + k < |a| then start + k else start + k - |a|, n - k) == Window(a, start, n)[k..]
  {
    var moved := if start + k < |a| then start + k else start + k - |a|;
    forall i | 0 <= i < n - k
      ensures Window(a, moved, n - k)[i] == Window(a, start, n)[k..][i]
    {
      assert At(a, moved + i) == At(a, start + k + i);
    }
  }

  /** Bytes laid down right behind a window extend it, when the window itself is left alone. */
  lemma WindowAppend(a: seq<byte>, b: seq<byte>, start: nat, n: nat, d: seq<byte>)
    requires start < |a| == |b| && n + |d| <= |a|
    requires forall x | start <= x < start + n :: At(b, x) == At(a, x)
    requires forall x | start + n <= x < start + n + |d| :: At(b, x) == d[x - start - n]
    ensures Window(b, start, n + |d|) == Window(a, start, n) + d
  {
    forall i | 0 <= i < n + |d|
      ensures Window(b, start, n + |d|)[i] == (Window(a, start, n) + d)[i]
    {
      assert Window(b, start, n + |d|)[i] == At(b, start + i);
    }
  }

  /** memcpy between two distinct arrays. */
  method Memcpy(dest: array<byte>, at: nat, src: array<byte>, from: nat, n: nat)
    requires dest != src
    requires at + n <= dest.Length && from + n <= src.Length
    modifies dest
    ensures forall i :: at <= i < at + n ==> dest[i] == src[from + i - at]
    ensures forall i :: 0 <= i < dest.Length && !(at <= i < at + n) ==> dest[i] == old(dest[i])
  {
    forall i | at <= i < at + n {
      dest[i] := src[from + i - at];
    }
  }

  class ByteCircularBuffer {
    const buffer: array<byte>
    const bufferSize: nat
    var front: nat  // write index
    var rear: nat   // read index
    var currentSize: nat
    var locked: bool

    ghost predicate Valid()
      reads this, buffer
    {
      && 0 < bufferSize < 0x1_0000
      && buffer.Length == bufferSize
      && rear < bufferSize
      && currentSize <= bufferSize
      && front == Wrap(rear + currentSize)
    }

    /** `x % bufferSize` for the indices that occur, which never reach twice the size. */
    ghost function Wrap(x: nat): (w: int)
    {
      if x < bufferSize then x else x - bufferSize
    }

    lemma WrapIsModulo(x: nat)
      requires x < 2 * bufferSize
      ensures x % bufferSize == Wrap(x)
    {
      if bufferSize <= x {
        DivModUnique(x, bufferSize, 1, x - bufferSize);
      }
    }

    /** The stored bytes, oldest first: what the ring means. */
    ghost function Contents(): (s: seq<byte>)
      requires Valid()
      reads this, buffer
      ensures |s| == currentSize
    {
      Window(buffer[..], rear, currentSize)
    }

    /** BCBCreateNew. A zero-sized ring would divide by zero on its first write. */
    constructor (size: nat)
      requires 0 < size < 0x1_0000
      ensures Valid() && fresh(buffer)
      ensures bufferSize == size && Contents() == [] && !locked
    {
      buffer := new byte[size](_ => 0);
      bufferSize := size;
      front, rear, currentSize := 0, 0, 0;
      locked := false;
    }

    method AvailableSize() returns (space: nat)
      requires Valid()
      ensures space == bufferSize - |Contents()|
    {
      space := bufferSize - currentSize;
    }

    method IsFull() returns (full: bool)
      requires Valid()
      ensures full <==> |Contents()| == bufferSize
    {
      full := currentSize == bufferSize;
    }

    /** pthread_mutex_lock: a caller that already holds the mutex would never return. */
    method Lock()
      requires !locked
      modifies this`locked
      ensures locked
    {
      locked := true;
    }

    method Unlock()
      modifies this`locked
      ensures !locked
    {
      locked := false;
    }

    /** BCBWrite of `data[offset..offset + size]`: all of it or, when it does not fit, none of it. */
    method Write(data: array<byte>, offset: nat, size: nat) returns (written: nat)
      requires Valid()
      requires data != buffer && offset + size <= data.Length
      requires locked ==> size > bufferSize - |Contents()|  // the lock is taken only after the size test
      modifies this, buffer
      ensures Valid() && locked == old(locked)
      ensures old(|Contents()|) + size <= bufferSize ==>
                written == size && Contents() == old(Contents()) + data[offset..offset + size]
      ensures old(|Contents()|) + size > bufferSize ==>
                written == 0 && Contents() == old(Contents())
    {
      if size > bufferSize - currentSize {
        return 0;
      }
      Lock();
      ghost var before := buffer[..];
      var spaceTillEnd := bufferSize - front;
      if size <= spaceTillEnd {
        Memcpy(buffer, front, data, offset, size);
      } else {
        Memcpy(buffer, front, data, offset, spaceTillEnd);
        Memcpy(buffer, 0, data, offset + spaceTillEnd, size - spaceTillEnd);
      }
      WindowAppend(before, buffer[..], rear, currentSize, data[offset..offset + size]);
      WrapIsModulo(front + size);
      front := (front + size) % bufferSize;
      currentSize := currentSize + size;
      Unlock();
      return size;
    }

    /** The one or two memcpy calls of BCBRead: the oldest `size` bytes, left in place. */
    method CopyOut(dest: array<byte>, size: nat)
      requires Valid() && dest != buffer && size <= |Contents()| && size <= dest.Length
      modifies dest
      ensures dest[..size] == Contents()[..size]
      ensures dest[size..] == old(dest[size..])
    {
      var dataTillEnd := bufferSize - rear;
      if size <= dataTillEnd {
        Memcpy(dest, 0, buffer, rear, size);
      } else {
        Memcpy(dest, 0, buffer, rear, dataTillEnd);
        Memcpy(dest, dataTillEnd, buffer, 0, size - dataTillEnd);
      }
      forall i | 0 <= i < size
        ensures dest[i] == Contents()[i]
      {
        assert Contents()[i] == At(buffer[..], rear + i);
      }
    }

    /** BCBRead, consuming when `remove`, else peeking. Its failing branch returns with the mutex held. */
    method Read(dest: array<byte>, size: nat, remove: bool) returns (bytesRead: nat)
      requires Valid() && !locked
      requires dest != buffer && (size <= |Contents()| ==> size <= dest.Length)
      modifies this, dest
      ensures Valid()
      ensures locked <==> size > old(|Contents()|)
      ensures size <= old(|Contents()|) ==>
                && bytesRead == size
                && dest[..size] == old(Contents())[..size]
                && dest[size..] == old(dest[size..])
                && Contents() == if remove then old(Contents())[size..] else old(Contents())
      ensures size > old(|Contents()|) ==>
                bytesRead == 0 && dest[..] == old(dest[..]) && Contents() == old(Contents())
    {
      Lock();
      if size > currentSize {
        return 0;
      }
      CopyOut(dest, size);
      if remove {
        WindowDrop(buffer[..], rear, currentSize, size);
        WrapIsModulo(rear + size);
        rear := (rear + size) % bufferSize;
        currentSize := currentSize - size;
      }
      Unlock();
      return size;
    }

    /** BCBReset: forgets every stored byte. */
    method Reset()
      requires Valid()
      modifies this
      ensures Valid() && Contents() == [] && locked == old(locked)
    {
      currentSize := 0;
      front := 0;
      rear := 0;
    }
  }
}
