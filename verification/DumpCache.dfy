/** The circular cache of ext_control.c that keeps the end of an audio dump. */
module DumpCache {
  import opened Arithmetic

  /** flag is the position of the next byte; more says that a write has wrapped past the end. */
  datatype Cache = Cache(data: seq<bv8>, flag: nat, more: bool)

  predicate WellFormed(c: Cache) {
    c.flag < |c.data|
  }

  /** dump_to_buffer on a piece that is not longer than the cache. */
  function Append(c: Cache, piece: seq<bv8>): (c': Cache)
    requires WellFormed(c) && |piece| <= |c.data|
    ensures WellFormed(c') && |c'.data| == |c.data|
  {
    var n, room := |c.data|, |c.data| - c.flag;
    if |piece| > room then
      Cache(piece[room..] + c.data[|piece| - room..c.flag] + piece[..room], |piece| - room, true)
    else
      Cache(c.data[..c.flag] + piece + c.data[c.flag + |piece|..],
            if c.flag + |piece| >= n then c.flag + |piece| - n else c.flag + |piece|, c.more)
  }

  /** Where dump_to_buffer starts reading a write longer than the cache. */
  function LongWriteOffset(size: nat, n: nat): int
    requires n > 0
  {
    size - (size / n - 1) * n
  }

  function Dump(c: Cache, buf: seq<bv8>): (c': Cache)
    requires WellFormed(c) && (|buf| <= |c.data| || |buf| >= 2 * |c.data|)
    ensures WellFormed(c') && |c'.data| == |c.data|
  {
    var n := |c.data|;
    if |buf| > n then
      LongWriteInRange(|buf|, n);
      var off := LongWriteOffset(|buf|, n);
      Append(c.(flag := 0), buf[off..off + n])
    else Append(c, buf)
  }

  lemma LongWriteInRange(size: nat, n: nat)
    requires n > 0 && size >= 2 * n
    ensures 0 <= LongWriteOffset(size, n) && LongWriteOffset(size, n) + n <= size
    ensures LongWriteOffset(size, n) + n == size <==> size < 3 * n
  {
    var m := size / n;
    assert m * n + size % n == size;
    QuotientAtLeast(size, n, 2);
    assert (m - 1) * n == m * n - n;
    assert m >= 3 ==> m * n >= 3 * n;
    assert (m - 2) * n == m * n - 2 * n;
    assert m > 2 ==> (m - 2) * n >= n;
  }

  lemma QuotientAtLeast(a: nat, n: nat, q: nat)
    requires n > 0 && a >= q * n
    ensures a / n >= q
  {
    var d := a / n;
    assert d * n + a % n == a;
    assert (d + 1) * n == d * n + n;
    MulMonotone(d + 1, q, n);
  }

  lemma MulMonotone(a: nat, b: nat, n: nat)
    requires n > 0
    ensures a <= b ==> a * n <= b * n
  {
  }

  /** What save_cache_buffer writes to the file. */
  function Saved(c: Cache): seq<bv8>
    requires WellFormed(c)
  {
    if c.more then c.data[c.flag..] + c.data[..c.flag] else c.data[..c.flag]
  }

  function Spliced(data: seq<bv8>, at: nat, src: seq<bv8>): (r: seq<bv8>)
    requires at + |src| <= |data|
    ensures |r| == |data|
  {
    data[..at] + src + data[at + |src|..]
  }

  lemma WrappedCopy(c: Cache, src: seq<bv8>)
    requires WellFormed(c) && |c.data| - c.flag < |src| <= |c.data|
    ensures var size1 := |c.data| - c.flag;
      Append(c, src) == Cache(Spliced(Spliced(c.data, c.flag, src[..size1]), 0, src[size1..]), |src| - size1, true)
  {
    var size1 := |c.data| - c.flag;
    var mid := Spliced(c.data, c.flag, src[..size1]);
    assert mid == c.data[..c.flag] + src[..size1];
    assert mid[|src| - size1..] == c.data[|src| - size1..c.flag] + src[..size1];
  }

  lemma FlatCopy(c: Cache, src: seq<bv8>)
    requires WellFormed(c) && |src| <= |c.data| - c.flag
    ensures Append(c, src) == Cache(Spliced(c.data, c.flag, src),
      if c.flag + |src| >= |c.data| then c.flag + |src| - |c.data| else c.flag + |src|, c.more)
  {
  }

  class OutDump {
    const buffer: array<bv8>
    var writeFlag: nat
    var moreOne: bool
    var totalLength: nat

    ghost predicate Valid()
      reads this, buffer
    {
      writeFlag < buffer.Length
    }

    ghost function View(): Cache
      reads this, buffer
    {
      Cache(buffer[..], writeFlag, moreOne)
    }

    constructor (n: nat)
      requires n > 0
      ensures Valid() && fresh(buffer) && buffer.Length == n && writeFlag == 0 && !moreOne
    {
      buffer := new bv8[n];
      writeFlag, moreOne, totalLength := 0, false, 0;
    }

    /** memcpy into the cache. */
    method Copy(at: nat, src: seq<bv8>)
      requires at + |src| <= buffer.Length
      modifies buffer
      ensures buffer[..] == Spliced(old(buffer[..]), at, src)
    {
      for i := 0 to |src|
        invariant buffer[..at] == old(buffer[..at])
        invariant buffer[at..at + i] == src[..i]
        invariant buffer[at + i..] == old(buffer[at + i..])
      {
        buffer[at + i] := src[i];
      }
      assert buffer[..] == buffer[..at] + buffer[at..at + |src|] + buffer[at + |src|..];
    }

    /** The two memcpy cases of dump_to_buffer. */
    method CopyAround(src: seq<bv8>)
      requires Valid() && |src| <= buffer.Length
      modifies this, buffer
      ensures Valid() && View() == Append(old(View()), src)
    {
      hide Append, Spliced;
      ghost var c := View();
      var bytes := |src|;
      if bytes > buffer.Length - writeFlag {
        moreOne := true;
        var size1 := buffer.Length - writeFlag;
        var size2 := bytes - size1;
        WrappedCopy(c, src);
        Copy(writeFlag, src[..size1]);
        Copy(0, src[size1..]);
        writeFlag := size2;
      } else {
        FlatCopy(c, src);
        Copy(writeFlag, src);
        writeFlag := writeFlag + bytes;
        if writeFlag >= buffer.Length {
          writeFlag := writeFlag - buffer.Length;
        }
      }
    }

    /** dump_to_buffer. A write between one and two times the cache length is outside the model: the source
        would read past the end of the caller's buffer. */
    method DumpToBuffer(buf: seq<bv8>) returns (copy: nat)
      requires Valid() && (|buf| <= buffer.Length || |buf| >= 2 * buffer.Length)
      modifies this, buffer
      ensures Valid() && View() == Dump(old(View()), buf)
      ensures copy == if |buf| > buffer.Length then buffer.Length else |buf|
    {
      hide Append;
      var src := buf;
      if |buf| > buffer.Length {
        LongWriteInRange(|buf|, buffer.Length);
        var multi := |buf| / buffer.Length;
        var off := |buf| - (multi - 1) * buffer.Length;
        src := buf[off..off + buffer.Length];
        writeFlag := 0;
      }
      CopyAround(src);
      copy := |src|;
    }

    /** save_cache_buffer: the bytes that go to the dump file. */
    method SaveCacheBuffer() returns (out: seq<bv8>)
      requires Valid()
      modifies this`totalLength
      ensures out == Saved(View()) && totalLength == |out|
    {
      if moreOne {
        out := buffer[writeFlag..] + buffer[..writeFlag];
        totalLength := buffer.Length;
      } else {
        out := buffer[..writeFlag];
        totalLength := writeFlag;
      }
    }
  }

  // ---------------------------------------------------------------- histories

  /** All bytes of a sequence of writes. */
  function Bytes(writes: seq<seq<bv8>>): seq<bv8> {
    if writes == [] then [] else Bytes(writes[..|writes| - 1]) + writes[|writes| - 1]
  }

  predicate Fit(writes: seq<seq<bv8>>, n: nat) {
    forall i :: 0 <= i < |writes| ==> |writes[i]| <= n
  }

  /** The cache after the writes, from a fresh buffer of arbitrary content. */
  function After(fresh0: seq<bv8>, writes: seq<seq<bv8>>): (c: Cache)
    requires |fresh0| > 0 && Fit(writes, |fresh0|)
    ensures WellFormed(c) && |c.data| == |fresh0|
  {
    if writes == [] then Cache(fresh0, 0, false)
    else Dump(After(fresh0, writes[..|writes| - 1]), writes[|writes| - 1])
  }

  /** The content from the oldest byte to the newest. */
  function Unrolled(c: Cache): seq<bv8>
    requires WellFormed(c)
  {
    c.data[c.flag..] + c.data[..c.flag]
  }

  /** The last n bytes, or all if there are fewer. */
  function Tail(h: seq<bv8>, n: nat): seq<bv8> {
    h[|h| - Min(|h|, n)..]
  }

  /** Appending shifts the window. */
  lemma AppendShifts(c: Cache, piece: seq<bv8>)
    requires WellFormed(c) && |piece| <= |c.data|
    ensures Unrolled(Append(c, piece)) == (Unrolled(c) + piece)[|piece|..]
  {
    if |piece| > |c.data| - c.flag {
      WrapShifts(c, piece);
    } else {
      FlatShifts(c, piece);
    }
  }

  lemma WrapShifts(c: Cache, piece: seq<bv8>)
    requires WellFormed(c) && |c.data| - c.flag < |piece| <= |c.data|
    ensures Unrolled(Append(c, piece)) == (Unrolled(c) + piece)[|piece|..]
  {
    var room, c' := |c.data| - c.flag, Append(c, piece);
    assert c'.data[..c'.flag] == piece[room..];
    assert c'.data[c'.flag..] == c.data[c'.flag..c.flag] + piece[..room];
    assert Unrolled(c)[|piece|..] == c.data[c'.flag..c.flag];
    assert piece == piece[..room] + piece[room..];
  }

  lemma FlatShifts(c: Cache, piece: seq<bv8>)
    requires WellFormed(c) && |piece| <= |c.data| - c.flag
    ensures Unrolled(Append(c, piece)) == (Unrolled(c) + piece)[|piece|..]
  {
    var c' := Append(c, piece);
    assert Unrolled(c)[|piece|..] == c.data[c.flag + |piece|..] + c.data[..c.flag];
    assert c'.flag != 0 || |c.data| == c.flag + |piece| || piece == [];
  }

  /** The cache holds the end of the history h; a cache that is not yet full holds all of it. */
  ghost predicate Holds(c: Cache, h: seq<bv8>)
    requires WellFormed(c)
  {
    && (if |h| < |c.data| then c.flag == |h| && c.data[..c.flag] == h && !c.more
        else Unrolled(c) == Tail(h, |c.data|))
    && (c.more ==> |h| > |c.data|)
    && c.flag == |h| % |c.data|
  }

  lemma AppendHolds(c: Cache, h: seq<bv8>, piece: seq<bv8>)
    requires WellFormed(c) && |piece| <= |c.data| && Holds(c, h)
    ensures Holds(Append(c, piece), h + piece)
  {
    ModStep(|h|, |piece|, |c.data|);
    if |h| + |piece| < |c.data| {
      assert Append(c, piece).data[..c.flag + |piece|] == c.data[..c.flag] + piece;
    } else {
      WindowIsTail(c, h, piece);
    }
  }

  lemma WindowIsTail(c: Cache, h: seq<bv8>, piece: seq<bv8>)
    requires WellFormed(c) && |piece| <= |c.data| <= |h| + |piece| && Holds(c, h)
    ensures Unrolled(Append(c, piece)) == Tail(h + piece, |c.data|)
  {
    AppendShifts(c, piece);
    hide Append;
    if |h| < |c.data| {
      FillingWindow(c, h, piece);
    } else {
      FullWindow(Unrolled(c), h, piece, |c.data|);
    }
  }

  lemma FillingWindow(c: Cache, h: seq<bv8>, piece: seq<bv8>)
    requires WellFormed(c) && |piece| <= |c.data| <= |h| + |piece| && |h| < |c.data| && Holds(c, h)
    ensures (Unrolled(c) + piece)[|piece|..] == Tail(h + piece, |c.data|)
  {
    assert Unrolled(c) + piece == c.data[c.flag..] + (h + piece);
  }

  lemma FullWindow(u: seq<bv8>, h: seq<bv8>, piece: seq<bv8>, n: nat)
    requires |piece| <= n == |u| <= |h| && u == Tail(h, n)
    ensures (u + piece)[|piece|..] == Tail(h + piece, n)
  {
    assert u + piece == (h + piece)[|h| - n..];
  }

  /** For every history of writes no longer than the cache. */
  lemma {:induction false} AfterHolds(fresh0: seq<bv8>, writes: seq<seq<bv8>>)
    requires |fresh0| > 0 && Fit(writes, |fresh0|)
    ensures Holds(After(fresh0, writes), Bytes(writes))
  {
    hide Append, Holds;
    if writes == [] {
      NothingHeld(fresh0);
    } else {
      var w := writes[..|writes| - 1];
      AfterHolds(fresh0, w);
      AppendHolds(After(fresh0, w), Bytes(w), writes[|writes| - 1]);
    }
  }

  lemma NothingHeld(fresh0: seq<bv8>)
    requires |fresh0| > 0
    ensures Holds(Cache(fresh0, 0, false), [])
  {
  }

  /** Byte k of the history, if it is one of the last, lies at position k modulo the cache length. */
  lemma PositionOfByte(c: Cache, h: seq<bv8>, k: nat)
    requires WellFormed(c) && Holds(c, h) && k < |h| && |h| - |c.data| <= k
    ensures c.data[k % |c.data|] == h[k]
  {
    var n, back := |c.data|, |h| - k;
    ModStep(k, back, n);
    if |h| < n {
      assert c.data[..c.flag][k] == h[k];
      DivModUnique(k, n, 0, k);
    } else {
      assert Tail(h, n)[n - back] == h[k];
      assert Unrolled(c)[n - back] == c.data[k % n];
    }
  }

  /** A save emits exactly the last bytes of the history if and only if the cache has not been filled or
      some write has wrapped: a write that ends exactly at the end of the cache does not count as one. */
  lemma SaveExact(fresh0: seq<bv8>, writes: seq<seq<bv8>>)
    requires |fresh0| > 0 && Fit(writes, |fresh0|)
    ensures Saved(After(fresh0, writes)) == Tail(Bytes(writes), |fresh0|)
       <==> |Bytes(writes)| < |fresh0| || After(fresh0, writes).more
  {
    AfterHolds(fresh0, writes);
  }

  /** Whether write i runs past the end of the cache. */
  ghost predicate Wraps(writes: seq<seq<bv8>>, n: nat, i: nat)
    requires n > 0 && i < |writes|
  {
    |Bytes(writes[..i])| % n + |writes[i]| > n
  }

  /** The flag more_one in terms of the history. */
  lemma {:induction false} MoreIffWrapped(fresh0: seq<bv8>, writes: seq<seq<bv8>>)
    requires |fresh0| > 0 && Fit(writes, |fresh0|)
    ensures After(fresh0, writes).more <==> exists i :: 0 <= i < |writes| && Wraps(writes, |fresh0|, i)
  {
    if writes != [] {
      var n, last := |fresh0|, |writes| - 1;
      var w := writes[..last];
      MoreIffWrapped(fresh0, w);
      AfterHolds(fresh0, w);
      assert forall i :: 0 <= i < last ==> writes[..i] == w[..i];
      assert forall i :: 0 <= i < last ==> (Wraps(writes, n, i) <==> Wraps(w, n, i));
      assert After(fresh0, writes).more <==> After(fresh0, w).more || Wraps(writes, n, last);
    }
  }

  /** The smallest failing case: one write that fills the cache exactly, and the save emits nothing. */
  lemma ExactFillSavesNothing(fresh0: seq<bv8>, w: seq<bv8>)
    requires |fresh0| == |w| > 0
    ensures Saved(After(fresh0, [w])) == []
  {
    assert [w][..0] == [];
  }

  /** A write of at least twice the cache length replaces the content by one window of it, which is the
      end of the write only up to three times the length; the next save emits it only after a wrap. */
  lemma LongWriteExact(c: Cache, buf: seq<bv8>)
    requires WellFormed(c) && |buf| >= 2 * |c.data|
    ensures var off := LongWriteOffset(|buf|, |c.data|);
      && off == |c.data| + |buf| % |c.data| && off + |c.data| <= |buf|
      && Dump(c, buf) == Cache(buf[off..off + |c.data|], 0, c.more)
      && (off + |c.data| == |buf| <==> |buf| < 3 * |c.data|)
    ensures Saved(Dump(c, buf)) == if c.more then Dump(c, buf).data else []
  {
    LongWriteInRange(|buf|, |c.data|);
    OffsetIs(|buf|, |c.data|);
    hide LongWriteOffset;
    assert WellFormed(c.(flag := 0));
  }

  lemma OffsetIs(size: nat, n: nat)
    requires n > 0
    ensures LongWriteOffset(size, n) == n + size % n
  {
    var m := size / n;
    assert m * n + size % n == size;
    assert (m - 1) * n == m * n - n;
  }
}
