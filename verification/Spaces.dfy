/** The pages of a process seen as one address space. */
module Spaces {
  import opened Base
  import opened Paging
  import opened PagingRun
  import opened Transfer
  import Service
  import Cache

  /** The byte at address `a`: pages are numbered from 1, addresses from 0. */
  function ByteAt(mem: map<PageId, Bytes>, pid: nat, a: nat, ps: nat): Byte
  {
    var p := PageId(pid, PageOf(a, ps) + 1);
    if p in mem && OffsetOf(a, ps) < |mem[p]| then mem[p][OffsetOf(a, ps)] else 0
  }

  function Length(flat: Flat, pid: nat, ps: nat): nat {
    if pid in flat.counts then flat.counts[pid] * ps else 0
  }

  function Space(flat: Flat, pid: nat, ps: nat): (r: Bytes)
    ensures |r| == Length(flat, pid, ps)
  {
    seq(Length(flat, pid, ps), a requires 0 <= a < Length(flat, pid, ps) => ByteAt(flat.mem, pid, a, ps))
  }

  /** The space of `pid` has become `space`; every other space, and every number of pages, is as before. */
  ghost predicate Becomes(before: Flat, after: Flat, ps: nat, pid: nat, space: Bytes)
  {
    && after.counts == before.counts
    && forall k :: Space(after, k, ps) == (if k == pid then space else Space(before, k, ps))
  }

  /** `pid` has `count` more pages, all blank; nothing else has changed. */
  ghost predicate Extends(before: Flat, after: Flat, ps: nat, pid: nat, count: nat)
  {
    && pid in before.counts && after.counts == before.counts[pid := before.counts[pid] + count]
    && forall k :: Space(after, k, ps) ==
        (if k == pid then Space(before, pid, ps) + Service.Blanks(count * ps) else Space(before, k, ps))
  }

  /** No process but `pid` has noticed anything. */
  ghost predicate Alone(before: Flat, after: Flat, ps: nat, pid: nat)
  {
    && (forall k :: k != pid ==> (k in after.counts <==> k in before.counts))
    && (forall k :: k != pid ==> Space(after, k, ps) == Space(before, k, ps))
  }

  lemma AreAlone(before: Flat, after: Flat, ps: nat, pid: nat, space: Bytes, count: nat)
    requires ps >= 1 && (Becomes(before, after, ps, pid, space) || Extends(before, after, ps, pid, count))
    ensures Alone(before, after, ps, pid)
  {
  }

  lemma AloneAgain(a: Flat, b: Flat, c: Flat, ps: nat, pid: nat)
    requires ps >= 1 && Alone(a, b, ps, pid) && Alone(b, c, ps, pid)
    ensures Alone(a, c, ps, pid)
  {
    hide Space;
  }

  lemma ExtendsNone(flat: Flat, ps: nat, pid: nat)
    requires ps >= 1 && pid in flat.counts
    ensures Extends(flat, flat, ps, pid, 0)
  {
    assert Service.Blanks(0 * ps) == [];
    assert flat.counts[pid := flat.counts[pid] + 0] == flat.counts;
  }

  lemma ExtendsMore(a: Flat, b: Flat, c: Flat, ps: nat, pid: nat, m: nat, n: nat)
    requires ps >= 1 && Extends(a, b, ps, pid, m) && Extends(b, c, ps, pid, n)
    ensures Extends(a, c, ps, pid, m + n)
  {
    hide Space;
    assert (m + n) * ps == m * ps + n * ps;
    assert Service.Blanks((m + n) * ps) == Service.Blanks(m * ps) + Service.Blanks(n * ps);
  }

  /** The page exists, and `offset` and `size` stay on it. */
  ghost predicate OnOnePage(flat: Flat, pid: nat, page: nat, offset: nat, size: nat, ps: nat) {
    && pid in flat.counts && page < flat.counts[pid] && offset + size <= ps
    && PageId(pid, page + 1) in flat.mem && |flat.mem[PageId(pid, page + 1)]| == ps
  }

  /** An address belongs to a range on a page exactly when it lies between the addresses of its ends. */
  lemma AddressOnPage(a: nat, page: nat, offset: nat, size: nat, ps: nat)
    requires ps >= 1 && offset + size <= ps
    ensures PageOf(a, ps) == page && offset <= OffsetOf(a, ps) < offset + size <==>
            AddressOf(page, offset, ps) <= a < AddressOf(page, offset, ps) + size
    ensures PageOf(a, ps) == page ==> OffsetOf(a, ps) - offset == a - AddressOf(page, offset, ps)
  {
    Decomposes(a, ps);
    if AddressOf(page, offset, ps) <= a < AddressOf(page, offset, ps) + size {
      Composes(page, offset + (a - AddressOf(page, offset, ps)), ps);
    }
    hide PageOf, OffsetOf;
  }

  lemma RangeInSpace(flat: Flat, pid: nat, page: nat, offset: nat, size: nat, ps: nat)
    requires OnOnePage(flat, pid, page, offset, size, ps)
    ensures AddressOf(page, offset, ps) + size <= Length(flat, pid, ps)
  {
    Cache.InRange(page, ps, flat.counts[pid]);
  }

  lemma ByteWritten(flat: Flat, after: Flat, pid: nat, page: nat, offset: nat, data: Bytes, ps: nat, k: nat, a: nat)
    requires ps >= 1 && OnOnePage(flat, pid, page, offset, |data|, ps)
    requires var p := PageId(pid, page + 1); after.mem == flat.mem[p := Patch(flat.mem[p], offset, data)]
    ensures var from := AddressOf(page, offset, ps);
            ByteAt(after.mem, k, a, ps) ==
            if k == pid && from <= a < from + |data| then data[a - from] else ByteAt(flat.mem, k, a, ps)
  {
    hide PageOf, OffsetOf, AddressOf;
    AddressOnPage(a, page, offset, |data|, ps);
  }

  /** Writing on a page writes in the space of its process, and in no other. */
  lemma WriteOnPage(flat: Flat, after: Flat, pid: nat, page: nat, offset: nat, data: Bytes, ps: nat)
    requires ps >= 1 && OnOnePage(flat, pid, page, offset, |data|, ps)
    requires after.counts == flat.counts
    requires var p := PageId(pid, page + 1); after.mem == flat.mem[p := Patch(flat.mem[p], offset, data)]
    ensures Becomes(flat, after, ps, pid, Patch(Space(flat, pid, ps), AddressOf(page, offset, ps), data))
  {
    hide AddressOf, ByteAt;
    RangeInSpace(flat, pid, page, offset, |data|, ps);
    forall k: nat, a: nat
      ensures var from := AddressOf(page, offset, ps);
              ByteAt(after.mem, k, a, ps) ==
              if k == pid && from <= a < from + |data| then data[a - from] else ByteAt(flat.mem, k, a, ps)
    {
      ByteWritten(flat, after, pid, page, offset, data, ps, k, a);
    }
  }

  /** Reading on a page reads in the space. */
  lemma ReadOnPage(flat: Flat, pid: nat, page: nat, offset: nat, size: nat, ps: nat)
    requires ps >= 1 && OnOnePage(flat, pid, page, offset, size, ps)
    ensures Slice(flat.mem[PageId(pid, page + 1)], offset, size) ==
            Some(Part(Space(flat, pid, ps), AddressOf(page, offset, ps), size))
  {
    hide PageOf, OffsetOf, AddressOf;
    RangeInSpace(flat, pid, page, offset, size, ps);
    var content, from := flat.mem[PageId(pid, page + 1)], AddressOf(page, offset, ps);
    var read := Part(Space(flat, pid, ps), from, size);
    assert Slice(content, offset, size) == Some(content[offset..offset + size]);
    forall i | 0 <= i < size
      ensures content[offset..offset + size][i] == read[i]
    {
      AddressOnPage(from + i, page, offset, size, ps);
    }
    assert |read| == size;
    assert content[offset..offset + size] == read;
  }

  /** A new page adds one page of blanks to the space of its process. */
  lemma CreateOnSpace(cfg: Config, flat: Flat, pid: nat, ps: nat)
    requires ps >= 1 && pid in flat.counts && cfg.pageSize == ps
    ensures Extends(flat, FlatStep(cfg, flat, Create(pid)).0, ps, pid, 1)
  {
    var after, n := FlatStep(cfg, flat, Create(pid)).0, flat.counts[pid];
    assert (n + 1) * ps == n * ps + ps && 1 * ps == ps;
    hide PageOf, OffsetOf, AddressOf;
    forall a: nat | a < (n + 1) * ps
      ensures PageOf(a, ps) == n <==> n * ps <= a
    {
      LastPageStarts(a, n, ps);
      AddressOnPage(a, n, 0, ps, ps);
    }
    forall a: nat
      ensures OffsetOf(a, ps) < ps
    {
      Decomposes(a, ps);
    }
  }

  lemma LastPageStarts(a: nat, n: nat, ps: nat)
    requires ps >= 1
    ensures AddressOf(n, 0, ps) == n * ps
  {
  }

  lemma RegisterOnSpace(cfg: Config, flat: Flat, pid: nat, ps: nat, k: nat)
    requires ps >= 1
    ensures Space(FlatStep(cfg, flat, Register(pid)).0, k, ps) == Space(flat, k, ps)
  {
    hide PageOf, OffsetOf;
  }
}
