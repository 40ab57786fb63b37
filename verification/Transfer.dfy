/**
  How a range of addresses is moved to and from pages: the range is cut into one piece per page, and the
  pieces are copied one after another.  The position in the caller's buffer is kept in a variable that
  is set to the size of the piece before, not increased by it.
 */
module Transfer {
  import opened Base
  import opened Paging
  import opened AllocatorTheorems
  import opened AllocatorProcess

  // ---------------------------------------------------------------- addresses

  function PageOf(a: nat, ps: nat): nat {
    if ps == 0 then 0 else a / ps
  }

  function OffsetOf(a: nat, ps: nat): nat {
    if ps == 0 then 0 else a % ps
  }

  /** The bytes left on the page of `a`, that of `a` included. */
  function Left(a: nat, ps: nat): (r: nat)
    requires ps >= 1
    ensures 1 <= r <= ps
  {
    ps - a % ps
  }

  function AddressOf(page: nat, offset: nat, ps: nat): nat {
    page * ps + offset
  }

  lemma Decomposes(a: nat, ps: nat)
    requires ps >= 1
    ensures AddressOf(PageOf(a, ps), OffsetOf(a, ps), ps) == a && OffsetOf(a, ps) < ps
        && Left(a, ps) == ps - OffsetOf(a, ps)
  {
  }

  lemma Composes(page: nat, offset: nat, ps: nat)
    requires ps >= 1 && offset < ps
    ensures PageOf(AddressOf(page, offset, ps), ps) == page && OffsetOf(AddressOf(page, offset, ps), ps) == offset
  {
    var a := page * ps + offset;
    DivisionBounds(a, ps);
    assert (page + 1) * ps == page * ps + ps;
    if a / ps < page {
      Scaled(a / ps + 1, page, ps);
      assert false;
    }
    if page < a / ps {
      Scaled(page + 1, a / ps, ps);
      assert false;
    }
  }

  lemma SamePage(a: nat, k: nat, ps: nat)
    requires ps >= 1 && k < Left(a, ps)
    ensures PageOf(a + k, ps) == PageOf(a, ps) && OffsetOf(a + k, ps) == OffsetOf(a, ps) + k
        && Left(a + k, ps) == Left(a, ps) - k
  {
    hide PageOf, OffsetOf, Left;
    Decomposes(a, ps);
    Composes(PageOf(a, ps), OffsetOf(a, ps) + k, ps);
    Decomposes(a + k, ps);
  }

  lemma NextPage(a: nat, ps: nat)
    requires ps >= 1
    ensures PageOf(a + Left(a, ps), ps) == PageOf(a, ps) + 1
    ensures OffsetOf(a + Left(a, ps), ps) == 0 && Left(a + Left(a, ps), ps) == ps
  {
    hide PageOf, OffsetOf, Left;
    Decomposes(a, ps);
    var page := PageOf(a, ps);
    assert (page + 1) * ps == page * ps + ps;
    Composes(page + 1, 0, ps);
    Decomposes((page + 1) * ps, ps);
  }

  lemma PagesGrow(a: nat, b: nat, ps: nat)
    requires ps >= 1 && a <= b
    ensures PageOf(a, ps) <= PageOf(b, ps)
  {
    DivisionGrows(a, b, ps);
  }

  // ---------------------------------------------------------------- the list of pieces

  /** One entry of the list the source builds: a page index, counted from 0, and the offsets on it. */
  datatype Piece = Piece(page: nat, offset: nat, size: nat)

  function Min(a: nat, b: nat): nat {
    if a < b then a else b
  }

  function PieceAt(a: nat, size: nat, ps: nat): Piece
    requires ps >= 1
  {
    Piece(PageOf(a, ps), OffsetOf(a, ps), size)
  }

  /** The pieces of the range of `n` bytes from `pos`. */
  function Pieces(pos: nat, n: nat, ps: nat): seq<Piece>
    requires ps >= 1
    decreases n
  {
    if n == 0 then []
    else if n <= Left(pos, ps) then [PieceAt(pos, n, ps)]
    else [PieceAt(pos, Left(pos, ps), ps)] + Pieces(pos + Left(pos, ps), n - Left(pos, ps), ps)
  }

  /** At most two pages are involved. */
  predicate Short(pos: nat, n: nat, ps: nat)
    requires ps >= 1
  {
    n == 0 || PageOf(pos + n - 1, ps) <= PageOf(pos, ps) + 1
  }

  lemma ShortInBytes(pos: nat, n: nat, ps: nat)
    requires ps >= 1
    ensures Short(pos, n, ps) <==> n <= Left(pos, ps) + ps
  {
    hide PageOf, OffsetOf, Left;
    var second := pos + Left(pos, ps);
    NextPage(pos, ps);
    NextPage(second, ps);
    if n >= 1 {
      if n <= Left(pos, ps) + ps {
        SamePage(second, ps - 1, ps);
        PagesGrow(pos + n - 1, second + (ps - 1), ps);
      } else {
        PagesGrow(second + ps, pos + n - 1, ps);
      }
    }
  }

  /** What the list for `n` bytes becomes when the byte after them is added. */
  function Grown(list: seq<Piece>, page: nat, offset: nat): seq<Piece> {
    if |list| > 0 && list[|list| - 1].page == page
    then list[|list| - 1 := list[|list| - 1].(size := list[|list| - 1].size + 1)]
    else list + [Piece(page, offset, 1)]
  }

  lemma GrownTail(head: Piece, rest: seq<Piece>, page: nat, offset: nat)
    requires |rest| > 0
    ensures Grown([head] + rest, page, offset) == [head] + Grown(rest, page, offset)
  {
  }

  /** One more byte either lengthens the last piece or starts a new one. */
  lemma {:induction false} OneMoreByte(pos: nat, n: nat, ps: nat)
    requires ps >= 1
    ensures Pieces(pos, n + 1, ps) == Grown(Pieces(pos, n, ps), PageOf(pos + n, ps), OffsetOf(pos + n, ps))
    decreases n
  {
    hide PageOf, OffsetOf, Left;
    var left := Left(pos, ps);
    if n < left {
      SamePage(pos, n, ps);
    } else if n == left {
      NextPage(pos, ps);
    } else {
      var pos', n' := pos + left, n - left;
      assert pos' + n' == pos + n;
      OneMoreByte(pos', n', ps);
      GrownTail(PieceAt(pos, left, ps), Pieces(pos', n', ps), PageOf(pos + n, ps), OffsetOf(pos + n, ps));
    }
  }

  /** The pages of the pieces grow, so a page can only be that of the last piece. */
  lemma {:induction false} EarlierPage(pos: nat, n: nat, ps: nat, k: nat)
    requires ps >= 1 && k + 1 < |Pieces(pos, n, ps)|
    ensures Pieces(pos, n, ps)[k].page < PageOf(pos + n, ps)
    decreases n
  {
    hide PageOf, OffsetOf, Left;
    var left := Left(pos, ps);
    NextPage(pos, ps);
    PagesGrow(pos + left, pos + n, ps);
    if k > 0 {
      EarlierPage(pos + left, n - left, ps, k - 1);
      assert pos + left + (n - left) == pos + n;
    }
  }

  /** The first loop of `memory_memwrite` and `memory_memread`: byte by byte, with a lookup by page */
  method BuildPieces(pos: nat, n: nat, ps: nat) returns (list: seq<Piece>)
    requires ps >= 1
    ensures list == Pieces(pos, n, ps)
  {
    list := [];
    var i := 0;
    while i < n
      invariant i <= n && list == Pieces(pos, i, ps)
    {
      var page, offset := PageOf(pos + i, ps), OffsetOf(pos + i, ps);
      OneMoreByte(pos, i, ps);
      forall k: nat | k + 1 < |list|
        ensures list[k].page < page
      {
        EarlierPage(pos, i, ps, k);
      }
      var k := 0;
      while k < |list| && list[k].page != page
        invariant k <= |list| && forall j :: 0 <= j < k ==> list[j].page != page
      {
        k := k + 1;
      }
      if k == |list| {
        list := list + [Piece(page, offset, 1)];
      } else {
        list := list[k := list[k].(size := list[k].size + 1)];
      }
      i := i + 1;
    }
  }

  // ---------------------------------------------------------------- writing

  /** The `n` bytes from `at` on; nothing when there are not that many. */
  function Part(bytes: Bytes, at: nat, n: nat): Bytes {
    Slice(bytes, at, n).GetOr([])
  }

  function Where(p: Piece, ps: nat): nat {
    AddressOf(p.page, p.offset, ps)
  }

  /** Copies the pieces of `data` into an address space, each from the position left by the one before. */
  function Scatter(space: Bytes, ps: nat, list: seq<Piece>, data: Bytes, start: nat): (r: Bytes)
    ensures |r| == |space|
    decreases |list|
  {
    if |list| == 0 then space
    else
      var piece := Part(data, start, list[0].size);
      Scatter(Patch(space, Where(list[0], ps), piece), ps, list[1..], data, list[0].size)
  }

  /** Where the byte for address `pos + i` is taken from: right for the first two pages only. */
  function Source(pos: nat, i: nat, ps: nat): nat
    requires ps >= 1
  {
    if i < Left(pos, ps) + ps then i else ps + OffsetOf(pos + i, ps)
  }

  lemma SourceInData(pos: nat, i: nat, ps: nat)
    requires ps >= 1
    ensures Source(pos, i, ps) <= i
  {
    if i >= Left(pos, ps) + ps {
      NextPage(pos, ps);
      NextPage(pos + Left(pos, ps), ps);
      OffsetIsClose(pos + Left(pos, ps) + ps, i - Left(pos, ps) - ps, ps);
    }
  }

  lemma {:induction false} OffsetIsClose(a: nat, k: nat, ps: nat)
    requires ps >= 1 && OffsetOf(a, ps) == 0
    ensures OffsetOf(a + k, ps) <= k
    decreases k
  {
    if k < ps {
      SamePage(a, k, ps);
    } else {
      Decomposes(a, ps);
      NextPage(a, ps);
      OffsetIsClose(a + ps, k - ps, ps);
      assert a + ps + (k - ps) == a + k;
    }
  }

  /** What a write of `data` at `pos` really puts there. */
  function Mixed(pos: nat, data: Bytes, ps: nat): (r: Bytes)
    requires ps >= 1
    ensures |r| == |data|
  {
    seq(|data|, i requires 0 <= i < |data| => SourceInData(pos, i, ps); data[Source(pos, i, ps)])
  }

  /** A short transfer is exact, whatever the data. */
  lemma ShortIsExact(pos: nat, data: Bytes, ps: nat)
    requires ps >= 1 && Short(pos, |data|, ps)
    ensures Mixed(pos, data, ps) == data
  {
    ShortInBytes(pos, |data|, ps);
    hide Left, OffsetOf, Short;
  }

  /** A long one is not: some data of that length ends up different. */
  lemma LongIsNot(pos: nat, n: nat, ps: nat) returns (data: Bytes)
    requires ps >= 1 && !Short(pos, n, ps)
    ensures |data| == n && Mixed(pos, data, ps) != data
  {
    ShortInBytes(pos, n, ps);
    NextPage(pos, ps);
    NextPage(pos + Left(pos, ps), ps);
    hide OffsetOf, Short;
    var third := Left(pos, ps) + ps;
    data := seq(n, i => if i == ps then 1 else 0);
    SourceInData(pos, third, ps);
    assert Mixed(pos, data, ps)[third] == data[ps];
    assert data[third] == 0;
  }

  /** So writes of a given length and place are right for all data exactly when they touch at most two pages. */
  lemma WritesExactlyWhenShort(pos: nat, n: nat, ps: nat)
    requires ps >= 1
    ensures Short(pos, n, ps) <==> forall data: Bytes :: |data| == n ==> Mixed(pos, data, ps) == data
  {
    if Short(pos, n, ps) {
      forall data: Bytes | |data| == n
        ensures Mixed(pos, data, ps) == data
      {
        ShortIsExact(pos, data, ps);
      }
    } else {
      var data := LongIsNot(pos, n, ps);
    }
  }

  /** A piece starts at the beginning of the range or of a page. */
  predicate Starts(pos: nat, j: nat, ps: nat)
    requires ps >= 1
  {
    j == 0 || (j >= Left(pos, ps) && OffsetOf(pos + j, ps) == 0)
  }

  /** Within a page the buffer position follows `Source`. */
  lemma SourceOnPage(pos: nat, j: nat, i: nat, ps: nat)
    requires ps >= 1 && Starts(pos, j, ps) && i < Left(pos + j, ps)
    ensures Source(pos, j + i, ps) == Source(pos, j, ps) + i
  {
    SamePage(pos + j, i, ps);
    NextPage(pos, ps);
    Decomposes(pos + j, ps);
    if Left(pos, ps) <= j < Left(pos, ps) + ps {
      SamePage(pos + Left(pos, ps), j - Left(pos, ps), ps);
    }
    hide PageOf, AddressOf;
  }

  /** At the end of a page the next piece starts where the size of this one says. */
  lemma SourceAtNext(pos: nat, j: nat, ps: nat)
    requires ps >= 1 && Starts(pos, j, ps)
    ensures var next := j + Left(pos + j, ps); Starts(pos, next, ps) && Source(pos, next, ps) == Left(pos + j, ps)
  {
    NextPage(pos + j, ps);
    NextPage(pos, ps);
    Decomposes(pos + j, ps);
  }

  lemma MixedPiece(pos: nat, data: Bytes, ps: nat, j: nat, take: nat)
    requires ps >= 1 && Starts(pos, j, ps) && take <= Left(pos + j, ps) && j + take <= |data|
    ensures Source(pos, j, ps) + take <= |data|
    ensures data[Source(pos, j, ps)..Source(pos, j, ps) + take] == Mixed(pos, data, ps)[j..j + take]
  {
    hide Left, OffsetOf, Starts, Source;
    if take > 0 {
      SourceOnPage(pos, j, take - 1, ps);
      SourceInData(pos, j + (take - 1), ps);
    } else {
      SourceInData(pos, j, ps);
    }
    var from := Source(pos, j, ps);
    forall k | j <= k < j + take
      ensures Mixed(pos, data, ps)[k] == data[from + (k - j)]
    {
      SourceOnPage(pos, j, k - j, ps);
    }
  }

  lemma TwoPatches(bytes: Bytes, at: nat, a: Bytes, b: Bytes)
    requires at + |a| + |b| <= |bytes|
    ensures Patch(Patch(bytes, at, a), at + |a|, b) == Patch(bytes, at, a + b)
  {
  }

  /** The first piece of a range is copied, and the rest follows. */
  lemma ScatterFirst(space: Bytes, ps: nat, at: nat, n: nat, data: Bytes, start: nat)
    requires ps >= 1 && n >= 1
    ensures var take := Min(n, Left(at, ps));
            start + take <= |data| ==>
              Scatter(space, ps, Pieces(at, n, ps), data, start) ==
              Scatter(Patch(space, at, data[start..start + take]), ps, Pieces(at + take, n - take, ps), data, take)
  {
    hide Left, OffsetOf, PageOf, AddressOf, Patch;
    Decomposes(at, ps);
    var list := Pieces(at, n, ps);
    if n <= Left(at, ps) {
      assert list[1..] == [];
    } else {
      assert list[1..] == Pieces(at + Left(at, ps), n - Left(at, ps), ps);
    }
  }

  /** Two patches that continue each other are one. */
  lemma PatchOn(space: Bytes, at: nat, bytes: Bytes, j: nat, take: nat)
    requires j + take <= |bytes| && at + |bytes| - j <= |space|
    ensures Patch(Patch(space, at, bytes[j..j + take]), at + take, bytes[j + take..]) == Patch(space, at, bytes[j..])
  {
    hide Patch;
    TwoPatches(space, at, bytes[j..j + take], bytes[j + take..]);
    assert bytes[j..j + take] + bytes[j + take..] == bytes[j..];
  }

  /** The piece at `j` copies what `Mixed` has there; the rest is copied from `take` on. */
  lemma ScatterPiece(space: Bytes, ps: nat, pos: nat, data: Bytes, j: nat, take: nat)
    requires ps >= 1 && j < |data| && Starts(pos, j, ps) && take == Min(|data| - j, Left(pos + j, ps))
    ensures Scatter(space, ps, Pieces(pos + j, |data| - j, ps), data, Source(pos, j, ps)) ==
            Scatter(Patch(space, pos + j, Mixed(pos, data, ps)[j..j + take]), ps,
                Pieces(pos + j + take, |data| - j - take, ps), data, take)
  {
    hide Left, OffsetOf, PageOf, Starts, Source, Patch, Mixed, Pieces, Scatter;
    MixedPiece(pos, data, ps, j, take);
    ScatterFirst(space, ps, pos + j, |data| - j, data, Source(pos, j, ps));
  }

  /** Copying piece by piece puts `Mixed` in place of the range, and changes nothing outside it. */
  lemma {:induction false} ScatterIsPatch(space: Bytes, ps: nat, pos: nat, data: Bytes, j: nat)
    requires ps >= 1 && pos + |data| <= |space| && j <= |data| && Starts(pos, j, ps)
    ensures Scatter(space, ps, Pieces(pos + j, |data| - j, ps), data, Source(pos, j, ps)) ==
            Patch(space, pos + j, Mixed(pos, data, ps)[j..])
    decreases |data| - j
  {
    hide OffsetOf, PageOf, Patch, Starts, Source, Mixed, Pieces, Scatter;
    var n, mixed := |data|, Mixed(pos, data, ps);
    if j == n {
      ScatterNone(space, ps, pos + j, data, Source(pos, j, ps));
      EmptyPatch(space, pos + j, mixed[j..]);
    } else {
      var take := Min(n - j, Left(pos + j, ps));
      ScatterPiece(space, ps, pos, data, j, take);
      var space' := Patch(space, pos + j, mixed[j..j + take]);
      if take == n - j {
        hide Min;
        ScatterNone(space', ps, pos + n, data, take);
        assert mixed[j..j + take] == mixed[j..];
      } else {
        SourceAtNext(pos, j, ps);
        ScatterIsPatch(space', ps, pos, data, j + take);
        PatchOn(space, pos + j, mixed, j, take);
      }
    }
  }

  lemma {:induction false} ScatterNone(space: Bytes, ps: nat, at: nat, data: Bytes, start: nat)
    requires ps >= 1
    ensures Scatter(space, ps, Pieces(at, 0, ps), data, start) == space
  {
  }

  lemma EmptyPatch(space: Bytes, at: nat, empty: Bytes)
    requires |empty| == 0 && at <= |space|
    ensures Patch(space, at, empty) == space
  {
  }

  // ---------------------------------------------------------------- reading

  /** Copies the pieces of an address space into a buffer, each to the position left by the one before. */
  function Gather(space: Bytes, ps: nat, list: seq<Piece>, buffer: Bytes, start: nat): (r: Bytes)
    ensures |r| == |buffer|
    decreases |list|
  {
    if |list| == 0 then buffer
    else
      var piece := Part(space, Where(list[0], ps), list[0].size);
      Gather(space, ps, list[1..], Patch(buffer, start, piece), list[0].size)
  }

  /** A range inside one page is one piece. */
  lemma {:induction false} GatherLast(space: Bytes, ps: nat, pos: nat, n: nat, buffer: Bytes, start: nat)
    requires ps >= 1 && 1 <= n <= Left(pos, ps) && pos + n <= |space|
    ensures Gather(space, ps, Pieces(pos, n, ps), buffer, start) == Patch(buffer, start, Part(space, pos, n))
  {
    hide Left, OffsetOf, PageOf, AddressOf, Patch;
    Decomposes(pos, ps);
    assert Pieces(pos, n, ps)[1..] == [];
  }

  /** The piece on the first page is copied, and the rest follows. */
  lemma GatherFirst(space: Bytes, ps: nat, pos: nat, n: nat, buffer: Bytes, start: nat)
    requires ps >= 1 && n > Left(pos, ps) && pos + n <= |space|
    ensures var left := Left(pos, ps);
            Gather(space, ps, Pieces(pos, n, ps), buffer, start) ==
            Gather(space, ps, Pieces(pos + left, n - left, ps), Patch(buffer, start, Part(space, pos, left)), left)
  {
    hide Left, OffsetOf, PageOf, AddressOf, Patch;
    Decomposes(pos, ps);
    assert Pieces(pos, n, ps)[1..] == Pieces(pos + Left(pos, ps), n - Left(pos, ps), ps);
  }

  /** Two parts that continue each other, copied one after the other, fill the buffer. */
  lemma TwoParts(space: Bytes, pos: nat, buffer: Bytes, left: nat)
    requires pos + |buffer| <= |space| && left <= |buffer|
    ensures Patch(Patch(buffer, 0, Part(space, pos, left)), left, Part(space, pos + left, |buffer| - left)) ==
            Part(space, pos, |buffer|)
    ensures Patch(buffer, 0, Part(space, pos, |buffer|)) == Part(space, pos, |buffer|)
  {
  }

  lemma {:induction false} GatherTwo(space: Bytes, ps: nat, pos: nat, buffer: Bytes)
    requires ps >= 1 && pos + |buffer| <= |space| && Left(pos, ps) < |buffer| <= Left(pos, ps) + ps
    ensures var left := Left(pos, ps);
            Gather(space, ps, Pieces(pos, |buffer|, ps), buffer, 0) ==
            Patch(Patch(buffer, 0, Part(space, pos, left)), left, Part(space, pos + left, |buffer| - left))
  {
    hide OffsetOf, PageOf, Gather, Pieces, Patch, Part;
    NextPage(pos, ps);
    hide Left;
    GatherFirst(space, ps, pos, |buffer|, buffer, 0);
    GatherLast(space, ps, pos + Left(pos, ps), |buffer| - Left(pos, ps),
        Patch(buffer, 0, Part(space, pos, Left(pos, ps))), Left(pos, ps));
  }

  lemma {:induction false} GatherNothing(space: Bytes, ps: nat, pos: nat, buffer: Bytes)
    requires ps >= 1 && pos <= |space| && |buffer| == 0
    ensures Gather(space, ps, Pieces(pos, |buffer|, ps), buffer, 0) == Part(space, pos, |buffer|)
  {
  }

  lemma {:induction false} GatherOne(space: Bytes, ps: nat, pos: nat, buffer: Bytes)
    requires ps >= 1 && pos + |buffer| <= |space| && 1 <= |buffer| <= Left(pos, ps)
    ensures Gather(space, ps, Pieces(pos, |buffer|, ps), buffer, 0) == Patch(buffer, 0, Part(space, pos, |buffer|))
  {
    hide OffsetOf, PageOf, Patch, Gather, Pieces, Part, Left;
    GatherLast(space, ps, pos, |buffer|, buffer, 0);
  }

  /** A short read returns the range, whatever was in the buffer. */
  lemma {:induction false} ShortGather(space: Bytes, ps: nat, pos: nat, buffer: Bytes)
    requires ps >= 1 && pos + |buffer| <= |space| && Short(pos, |buffer|, ps)
    ensures Gather(space, ps, Pieces(pos, |buffer|, ps), buffer, 0) == Part(space, pos, |buffer|)
  {
    hide *;
    ShortInBytes(pos, |buffer|, ps);
    if |buffer| == 0 {
      GatherNothing(space, ps, pos, buffer);
    } else if |buffer| <= Left(pos, ps) {
      GatherOne(space, ps, pos, buffer);
      TwoParts(space, pos, buffer, |buffer|);
    } else {
      GatherTwo(space, ps, pos, buffer);
      TwoParts(space, pos, buffer, Left(pos, ps));
    }
  }

  /** From the third page on every piece is copied to the same place of the buffer. */
  lemma {:induction false} LaterPieces(space: Bytes, ps: nat, pos: nat, n: nat, buffer: Bytes, q: nat)
    requires ps >= 1 && Left(pos, ps) == ps && pos + n <= |space| && ps + Min(n, ps) <= q < |buffer|
    ensures Gather(space, ps, Pieces(pos, n, ps), buffer, ps)[q] == buffer[q]
    decreases n
  {
    hide Left, OffsetOf, PageOf, Gather, Pieces;
    NextPage(pos, ps);
    if n == 0 {
      GatherNone(space, ps, pos, buffer, ps);
    } else if n <= ps {
      GatherLast(space, ps, pos, n, buffer, ps);
    } else {
      GatherFirst(space, ps, pos, n, buffer, ps);
      LaterPieces(space, ps, pos + ps, n - ps, Patch(buffer, ps, Part(space, pos, ps)), q);
    }
  }

  lemma {:induction false} GatherNone(space: Bytes, ps: nat, pos: nat, buffer: Bytes, start: nat)
    requires ps >= 1
    ensures Gather(space, ps, Pieces(pos, 0, ps), buffer, start) == buffer
  {
  }

  lemma GatherTwoMore(space: Bytes, ps: nat, pos: nat, n: nat, buffer: Bytes) returns (second: Bytes)
    requires ps >= 1 && pos + n <= |space| && n > Left(pos, ps) + ps
    ensures var third := Left(pos, ps) + ps;
            && |second| == |buffer| && (forall q :: third <= q < |buffer| ==> second[q] == buffer[q])
            && Gather(space, ps, Pieces(pos, n, ps), buffer, 0) ==
                Gather(space, ps, Pieces(pos + third, n - third, ps), second, ps)
  {
    hide OffsetOf, PageOf, Gather, Pieces, Left, Patch;
    NextPage(pos, ps);
    var left := Left(pos, ps);
    GatherFirst(space, ps, pos, n, buffer, 0);
    var first := Patch(buffer, 0, Part(space, pos, left));
    GatherFirst(space, ps, pos + left, n - left, first, left);
    second := Patch(first, left, Part(space, pos + left, ps));
    assert pos + left + ps == pos + (left + ps) && n - left - ps == n - (left + ps);
  }

  /** A long read never reaches the last byte of the buffer. */
  lemma {:induction false} LongReadStopsShort(space: Bytes, ps: nat, pos: nat, buffer: Bytes)
    requires ps >= 1 && pos + |buffer| <= |space| && !Short(pos, |buffer|, ps)
    ensures |buffer| >= 1
    ensures Gather(space, ps, Pieces(pos, |buffer|, ps), buffer, 0)[|buffer| - 1] == buffer[|buffer| - 1]
  {
    hide OffsetOf, PageOf, Gather, Pieces, Left, Short;
    var n, third := |buffer|, Left(pos, ps) + ps;
    ShortInBytes(pos, n, ps);
    NextPage(pos, ps);
    NextPage(pos + Left(pos, ps), ps);
    var second := GatherTwoMore(space, ps, pos, n, buffer);
    LaterPieces(space, ps, pos + third, n - third, second, n - 1);
  }

  /**
    Reads of a given length and place are right for every memory and buffer exactly when they touch at most two pages.
   */
  lemma {:induction false} ReadsExactlyWhenShort(pos: nat, n: nat, length: nat, ps: nat)
    requires ps >= 1 && pos + n <= length
    ensures Short(pos, n, ps) <==>
            forall space: Bytes, buffer: Bytes :: |space| == length && |buffer| == n ==>
              Gather(space, ps, Pieces(pos, n, ps), buffer, 0) == Part(space, pos, n)
  {
    if Short(pos, n, ps) {
      forall space: Bytes, buffer: Bytes | |space| == length && |buffer| == n
        ensures Gather(space, ps, Pieces(pos, n, ps), buffer, 0) == Part(space, pos, n)
      {
        ShortGather(space, ps, pos, buffer);
      }
    } else {
      hide Gather, Pieces, Short;
      var space: Bytes, buffer: Bytes := seq(length, _ => 0), seq(n, _ => 1);
      LongReadStopsShort(space, ps, pos, buffer);
      assert Part(space, pos, n)[n - 1] == 0;
    }
  }

  // ---------------------------------------------------------------- headers

  /** Nine-byte headers are written exactly wherever they are, exactly when a page has at least eight bytes. */
  lemma HeadersFitTwoPages(ps: nat)
    requires ps >= 1
    ensures ps >= 8 <==> forall pos: nat :: Short(pos, 9, ps)
  {
    if ps >= 8 {
      forall pos: nat
        ensures Short(pos, 9, ps)
      {
        ShortInBytes(pos, 9, ps);
      }
    } else {
      ShortInBytes(ps - 1, 9, ps);
      Composes(0, ps - 1, ps);
      assert !Short(ps - 1, 9, ps);
    }
  }
}
