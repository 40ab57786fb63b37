/** The memory of the frames: one buffer, cut into frames of equal size. */
module Cache {
  import opened Base
  import opened Paging

  /** The buffer seen as a list of frames. */
  function Cut(flat: Bytes, size: nat, count: nat): (frames: seq<Bytes>)
    requires |flat| == count * size
    ensures |frames| == count
  {
    seq(count, m requires 0 <= m < count =>
      InRange(m, size, count); flat[m * size..m * size + size])
  }

  lemma InRange(m: nat, size: nat, count: nat)
    requires m < count
    ensures m * size + size <= count * size
  {
    assert (m + 1) * size <= count * size by {
      Monotone(m + 1, count, size);
    }
  }

  lemma Monotone(a: nat, b: nat, size: nat)
    requires a <= b
    ensures a * size <= b * size
  {
    assert (b - a) * size >= 0;
  }

  /** A patch seen through a slice that holds it, or that it misses. */
  lemma PatchSlice(flat: Bytes, at: nat, size: nat, from: nat, data: Bytes)
    requires at + size <= |flat| && from + |data| <= |flat|
    ensures at <= from && from + |data| <= at + size ==>
              Patch(flat, from, data)[at..at + size] == Patch(flat[at..at + size], from - at, data)
    ensures from + |data| <= at || at + size <= from ==> Patch(flat, from, data)[at..at + size] == flat[at..at + size]
  {
  }

  /** Writing inside one frame of the buffer is writing in that frame of the list, and in no other. */
  lemma CutPatch(flat: Bytes, size: nat, count: nat, m: nat, offset: nat, data: Bytes)
    requires |flat| == count * size && m < count && offset + |data| <= size
    ensures m * size + offset + |data| <= |flat|
    ensures var frames := Cut(flat, size, count);
            Cut(Patch(flat, m * size + offset, data), size, count) == frames[m := Patch(frames[m], offset, data)]
  {
    InRange(m, size, count);
    var frames, after := Cut(flat, size, count), Patch(flat, m * size + offset, data);
    forall k | 0 <= k < count
      ensures Cut(after, size, count)[k] == if k == m then Patch(frames[m], offset, data) else frames[k]
    {
      PatchedFrame(flat, size, count, m, offset, data, k);
    }
  }

  lemma PatchedFrame(flat: Bytes, size: nat, count: nat, m: nat, offset: nat, data: Bytes, k: nat)
    requires |flat| == count * size && m < count && offset + |data| <= size && m * size + offset + |data| <= |flat|
        && k < count
    ensures var frames := Cut(flat, size, count);
            Cut(Patch(flat, m * size + offset, data), size, count)[k] ==
            if k == m then Patch(frames[m], offset, data) else frames[k]
  {
    hide Patch;
    InRange(k, size, count);
    if k < m {
      InRange(k, size, m);
    } else if m < k {
      InRange(m, size, k);
    }
    PatchSlice(flat, k * size, size, m * size + offset, data);
  }

  lemma CutIsSized(flat: Bytes, size: nat, count: nat, m: nat)
    requires |flat| == count * size && m < count
    ensures |Cut(flat, size, count)[m]| == size
  {
    InRange(m, size, count);
  }

  lemma CutByte(flat: Bytes, size: nat, count: nat, m: nat, i: nat)
    requires |flat| == count * size && m < count && i < size
    ensures m * size + i < |flat| && i < |Cut(flat, size, count)[m]|
        && Cut(flat, size, count)[m][i] == flat[m * size + i]
  {
    InRange(m, size, count);
  }

  /** A buffer of equal bytes is cut into frames of equal bytes. */
  lemma CutUniform(flat: Bytes, size: nat, count: nat, b: Byte)
    requires |flat| == count * size && forall i :: 0 <= i < |flat| ==> flat[i] == b
    ensures Cut(flat, size, count) == seq(count, _ => seq(size, _ => b))
  {
    forall m | 0 <= m < count
      ensures Cut(flat, size, count)[m] == seq(size, _ => b)
    {
      InRange(m, size, count);
    }
  }

  /** Writing a range that leaves the frame changes nothing. */
  lemma WideIsRefused(frames: seq<Bytes>, m: nat, offset: nat, data: Bytes)
    requires m < |frames| && offset + |data| > |frames[m]|
    ensures frames[m := Patch(frames[m], offset, data)] == frames
  {
  }

  class Frames {
    const size: nat
    const count: nat
    const buffer: array<Byte>

    ghost predicate Valid() {
      buffer.Length == count * size
    }

    function Contents(): seq<Bytes>
      requires Valid()
      reads buffer
    {
      Cut(buffer[..], size, count)
    }

    /** `inicializarMemoria`: a buffer full of underscores */
    constructor (size: nat, count: nat)
      ensures Valid() && fresh(buffer) && this.size == size && this.count == count
      ensures Contents() == seq(count, _ => seq(size, _ => 95 as Byte))
    {
      this.size, this.count := size, count;
      buffer := new Byte[count * size](_ => 95);
      new;
      CutUniform(buffer[..], size, count, 95);
    }

    /** `memcpy` into the buffer */
    method Copy(at: nat, data: Bytes)
      requires at + |data| <= buffer.Length
      modifies buffer
      ensures buffer[..] == Patch(old(buffer[..]), at, data)
    {
      var i := 0;
      while i < |data|
        invariant i <= |data|
        invariant forall k :: 0 <= k < buffer.Length ==>
                    buffer[k] == if at <= k < at + i then data[k - at] else old(buffer[k])
      {
        buffer[at + i] := data[i];
        i := i + 1;
      }
    }

    /** `escribir_en_cache`: a range that leaves the frame is refused. */
    method Write(m: nat, offset: nat, data: Bytes) returns (ok: bool)
      requires Valid() && m < count
      modifies buffer
      ensures ok <==> offset + |data| <= size
      ensures Contents() == old(Contents())[m := Patch(old(Contents())[m], offset, data)]
    {
      hide Cut, Patch;
      InRange(m, size, count);
      if offset + |data| > size {
        CutIsSized(buffer[..], size, count, m);
        WideIsRefused(Contents(), m, offset, data);
        return false;
      }
      CutPatch(buffer[..], size, count, m, offset, data);
      Copy(m * size + offset, data);
      ok := true;
    }

    /** `vaciar_marco_en_cache`, the `memset` */
    method Clear(m: nat)
      requires Valid() && m < count
      modifies buffer
      ensures Contents() == old(Contents())[m := seq(size, _ => 95 as Byte)]
    {
      InRange(m, size, count);
      var blank := seq(size, _ => 95 as Byte);
      assert Patch(Contents()[m], 0, blank) == blank;
      var ok := Write(m, 0, blank);
    }

    /** `retornar_contenido` */
    method Read(m: nat, offset: nat, length: nat) returns (r: Option<Bytes>)
      requires Valid() && m < count
      ensures r == Slice(Contents()[m], offset, length)
    {
      hide Cut;
      InRange(m, size, count);
      CutIsSized(buffer[..], size, count, m);
      if offset + length > size {
        return None;
      }
      ghost var frame := Contents()[m];
      var bytes := [];
      var i := 0;
      while i < length
        invariant i <= length && bytes == frame[offset..offset + i]
      {
        CutByte(buffer[..], size, count, m, offset + i);
        bytes := bytes + [buffer[m * size + offset + i]];
        i := i + 1;
      }
      r := Some(bytes);
    }
  }
}
