/**
 One node of the slab allocator: pages with free lists, the page being carved, and the lists of full
 and partial pages. An item is a page and a slot in it; page allocation is an abstract supplier.
 */
module Slab {
  import opened Seqs
  import W = Words

  type PageId = int
  const NULL: PageId := 0
  const SLAB_PARTIAL_THRESH: nat := 4

  /** The free list (pg->next) and pg->item_count. */
  datatype Page = Page(free: seq<nat>, itemCount: nat)

  datatype Item = None | Item(pg: PageId, slot: nat)

  /** Slots below `carved` are either free or out, never both; the others have not been carved yet. */
  ghost predicate PageOk(pg: Page, out: set<nat>, carved: nat, nr: nat) {
    && carved <= nr && Distinct(pg.free)
    && (forall k: nat :: k in pg.free <==> k < carved && k !in out)
    && (forall k: nat :: k in out ==> k < carved)
    && pg.itemCount == |pg.free| + nr - carved
  }

  ghost function Below(n: nat): set<nat> { if n == 0 then {} else Below(n - 1) + {n - 1} }

  lemma {:induction false} BelowCard(n: nat)
    ensures |Below(n)| == n && forall k: nat :: k in Below(n) <==> k < n
  {
    if n > 0 {
      BelowCard(n - 1);
    }
  }

  /** Free slots, slots that are out and uncarved slots add up. */
  lemma {:induction false} PageCount(pg: Page, out: set<nat>, carved: nat, nr: nat)
    requires PageOk(pg, out, carved, nr)
    ensures pg.itemCount + |out| == nr
    ensures pg.itemCount == nr <==> out == {}
  {
    var free := set k | k in pg.free;
    DistinctCard(pg.free, free);
    BelowCard(carved);
    assert free + out == Below(carved) && free !! out;
  }

  lemma {:induction false} PageTake(pg: Page, out: set<nat>, carved: nat, nr: nat)
    requires PageOk(pg, out, carved, nr) && pg.free != []
    ensures pg.free[0] !in out && pg.free[0] < carved && pg.itemCount > 0
    ensures PageOk(Page(pg.free[1..], pg.itemCount - 1), out + {pg.free[0]}, carved, nr)
  {
    var k := pg.free[0];
    UnlinkDistinct(pg.free, 0);
    assert Unlink(pg.free, 0) == pg.free[1..];
    assert k in pg.free;
  }

  lemma {:induction false} PageCarve(pg: Page, out: set<nat>, carved: nat, nr: nat)
    requires PageOk(pg, out, carved, nr) && pg.free == [] && pg.itemCount > 0
    ensures carved < nr && carved !in out
    ensures PageOk(Page(pg.free, pg.itemCount - 1), out + {carved}, carved + 1, nr)
  {
  }

  lemma {:induction false} PagePut(pg: Page, out: set<nat>, carved: nat, nr: nat, k: nat)
    requires PageOk(pg, out, carved, nr) && k in out
    ensures PageOk(Page([k] + pg.free, pg.itemCount + 1), out - {k}, carved, nr)
  {
    ConsDistinct(k, pg.free);
  }

  /** Which list a page belongs to, by how many of its slots are free. */
  predicate BelongsFull(count: nat, nr: nat) { count < SLAB_PARTIAL_THRESH && count < nr }

  predicate BelongsPartial(count: nat, nr: nat) {
    count >= SLAB_PARTIAL_THRESH && (count < nr || nr == SLAB_PARTIAL_THRESH)
  }

  /** The slot at the carving offset, which lies in the page, and the offset after it. */
  method NextSlot(pgOff: nat, offset: nat, size: nat, pgSize: nat, ghost nr: nat, ghost carved: nat) returns (k: nat, pgOff': nat)
    requires size > 0 && carved < nr && pgOff == offset + carved * size && offset + nr * size <= pgSize
    ensures pgOff < pgSize && k == carved && pgOff' == offset + (carved + 1) * size
  {
    CarveFits(offset, size, nr, carved, pgSize);
    assert pgOff < pgSize;
    k, pgOff' := (pgOff - offset) / size, pgOff + size;
  }

  ghost predicate IsOut(out: map<PageId, set<nat>>, p: PageId, k: nat) { p in out && k in out[p] }

  /** The items are distinct, were not out in `before`, and with those are what is out now. */
  ghost predicate BatchOf(items: seq<Item>, before: map<PageId, set<nat>>, out: map<PageId, set<nat>>) {
    && Distinct(items) && (forall i :: 0 <= i < |items| ==> items[i].Item?)
    && (forall p, k :: IsOut(out, p, k) <==> IsOut(before, p, k) || Item(p, k) in items)
    && (forall p, k :: Item(p, k) in items ==> !IsOut(before, p, k))
  }

  lemma {:induction false} BatchMore(items: seq<Item>, before: map<PageId, set<nat>>, out: map<PageId, set<nat>>, p: PageId, k: nat, out': map<PageId, set<nat>>)
    requires BatchOf(items, before, out) && !IsOut(out, p, k)
    requires forall q, l :: IsOut(out', q, l) <==> IsOut(out, q, l) || (q == p && l == k)
    ensures BatchOf(items + [Item(p, k)], before, out')
  {
    assert Distinct(items + [Item(p, k)]);
  }

  lemma {:induction false} BatchSame(items: seq<Item>, before: map<PageId, set<nat>>, out: map<PageId, set<nat>>, out': map<PageId, set<nat>>)
    requires BatchOf(items, before, out) && forall q, l :: IsOut(out', q, l) <==> IsOut(out, q, l)
    ensures BatchOf(items, before, out')
  {
  }

  class Node {
    const nrElems: nat
    const offset: nat
    const size: nat
    const pgSize: nat
    var curPg: PageId
    var pgOff: nat
    var full: seq<PageId>
    var partial: seq<PageId>
    var pages: map<PageId, Page>
    /** The slots that are out, and how many slots of the current page have been carved. */
    ghost var out: map<PageId, set<nat>>
    ghost var carved: nat

    ghost function Carved(p: PageId): nat
      reads this
    {
      if p == curPg then carved else nrElems
    }

    /** Every page is in exactly one place: current, full or partial. */
    ghost predicate Placed()
      reads this
    {
      && NULL !in pages && (curPg != NULL ==> curPg in pages)
      && Distinct(full) && Distinct(partial)
      && (forall p :: p in full ==> p in pages && p != curPg && p !in partial)
      && (forall p :: p in partial ==> p in pages && p != curPg)
      && (forall p :: p in pages ==> p == curPg || p in full || p in partial)
    }

    /** The lists hold the pages that belong there, but for page `but`. */
    ghost predicate Levels(but: PageId)
      reads this
    {
      && (forall p :: p in full && p != but && p in pages ==> BelongsFull(pages[p].itemCount, nrElems))
      && (forall p :: p in partial && p != but && p in pages ==> BelongsPartial(pages[p].itemCount, nrElems))
    }

    ghost predicate Partition()
      reads this
    {
      Placed() && Levels(NULL)
    }

    ghost predicate Counts()
      reads this
    {
      && out.Keys == pages.Keys
      && (forall p :: p in pages ==> PageOk(pages[p], out[p], Carved(p), nrElems))
      && (curPg == NULL ==> carved == nrElems)
      && (carved < nrElems ==> pgOff == offset + carved * size)
    }

    ghost predicate Valid()
      reads this
    {
      Partition() && Counts() && nrElems > 0 && size > 0 && offset + nrElems * size <= pgSize
    }

    constructor (nrElems: nat, offset: nat, size: nat, pgSize: nat)
      requires nrElems > 0 && size > 0 && offset + nrElems * size <= pgSize
      ensures Valid() && pages == map[] && this.nrElems == nrElems
    {
      this.nrElems, this.offset, this.size, this.pgSize := nrElems, offset, size, pgSize;
      curPg, pgOff, full, partial, pages := NULL, 0, [], [], map[];
      out, carved := map[], nrElems;
    }

    /** The current page, all of its items out, moves to the full list. */
    method Retire()
      requires Valid() && (curPg != NULL ==> pages[curPg].itemCount == 0)
      modifies `curPg, `full, `carved
      ensures Valid() && curPg == NULL && full == (if old(curPg) == NULL then [] else [old(curPg)]) + old(full)
    {
      if curPg != NULL {
        ConsDistinct(curPg, full);
        full := [curPg] + full;
        assert carved == nrElems by {
          assert PageOk(pages[curPg], out[curPg], Carved(curPg), nrElems);
        }
        curPg := NULL;
      }
    }

    /** __slab_node_get_page: a partial page, or a new one if the supplier has any. */
    method GetPage(supply: PageId)
      requires Valid() && curPg == NULL && supply !in pages
      modifies `curPg, `partial, `pages, `out, `carved, `pgOff
      ensures Valid() && (curPg == NULL <==> old(partial) == [] && supply == NULL)
      ensures curPg != NULL ==> pages[curPg].itemCount > 0
      ensures curPg == (if old(partial) == [] then supply else old(partial)[0])
      ensures partial == (if old(partial) == [] then [] else old(partial)[1..])
      ensures pages == if old(partial) != [] || supply == NULL then old(pages) else old(pages)[supply := Page([], nrElems)]
      ensures forall p, k :: IsOut(out, p, k) <==> IsOut(old(out), p, k)
    {
      if partial != [] {
        UnlinkDistinct(partial, 0);
        assert Unlink(partial, 0) == partial[1..];
        assert partial[0] in partial;
        curPg, partial := partial[0], partial[1..];
        return;
      }
      if supply != NULL {
        curPg, pgOff, carved := supply, offset, 0;
        pages, out := pages[supply := Page([], nrElems)], out[supply := {}];
      }
    }

    /** There is no item to be had from the current page. */
    predicate Spent()
      reads this
      requires curPg != NULL ==> curPg in pages
    {
      curPg == NULL || pages[curPg].itemCount == 0
    }

    /** __slab_node_alloc: an item that was not out, or none when no page can be had. */
    method Alloc(supply: PageId) returns (item: Item)
      requires Valid() && supply !in pages
      modifies `curPg, `full, `partial, `pages, `out, `carved, `pgOff
      ensures Valid() && pages.Keys == old(pages.Keys) + if item != None && old(Spent() && partial == []) then {supply} else {}
      ensures item == None <==> old(Spent() && partial == []) && supply == NULL
      ensures item == None ==> forall p, k :: IsOut(out, p, k) <==> IsOut(old(out), p, k)
      ensures if old(Spent()) then Next(old(partial), supply) else curPg == old(curPg) && partial == old(partial)
      ensures item != None ==> item.pg == curPg && !IsOut(old(out), item.pg, item.slot) && item.slot < nrElems
      ensures item != None ==> forall p, k :: IsOut(out, p, k) <==> IsOut(old(out), p, k) || (p == item.pg && k == item.slot)
    {
      if Spent() {
        Refill(supply);
        if curPg == NULL {
          return None;
        }
      }
      item := TakeItem();
    }

    /** The current page makes place for another. */
    method Refill(supply: PageId)
      requires Valid() && supply !in pages && Spent()
      modifies `curPg, `full, `partial, `pages, `out, `carved, `pgOff
      ensures Valid() && (curPg != NULL ==> pages[curPg].itemCount > 0) && Next(old(partial), supply)
      ensures pages.Keys == old(pages.Keys) + if old(partial) == [] && supply != NULL then {supply} else {}
      ensures forall p, k :: IsOut(out, p, k) <==> IsOut(old(out), p, k)
    {
      Retire();
      GetPage(supply);
    }

    /** The current page is the first that was partial, or the one supplied if there was none. */
    ghost predicate Next(was: seq<PageId>, supply: PageId)
      reads this
    {
      if was == [] then curPg == supply && partial == [] else curPg == was[0] && partial == was[1..]
    }

    /** An item of the current page: from its free list, or carved. */
    method TakeItem() returns (item: Item)
      requires Valid() && curPg != NULL && pages[curPg].itemCount > 0
      modifies `pages, `out, `carved, `pgOff
      ensures Valid() && pages.Keys == old(pages.Keys) && item.Item? && item.pg == curPg && !IsOut(old(out), item.pg, item.slot) && item.slot < nrElems
      ensures forall p, k :: IsOut(out, p, k) <==> IsOut(old(out), p, k) || (p == item.pg && k == item.slot)
      ensures item.slot == if old(pages)[curPg].free != [] then old(pages)[curPg].free[0] else old(carved)
    {
      assert PageOk(pages[curPg], out[curPg], carved, nrElems);
      if pages[curPg].free != [] {
        item := TakeFree();
      } else {
        item := Carve();
      }
    }

    method TakeFree() returns (item: Item)
      requires Valid() && curPg != NULL && pages[curPg].free != []
      modifies `pages, `out
      ensures Valid() && pages.Keys == old(pages.Keys) && item.Item? && item.pg == curPg && item.slot < nrElems
      ensures item.slot !in old(out)[curPg] && out == old(out)[curPg := old(out)[curPg] + {item.slot}]
      ensures item.slot == old(pages)[curPg].free[0]
    {
      var pg := pages[curPg];
      PageTake(pg, out[curPg], carved, nrElems);
      item := Item(curPg, pg.free[0]);
      pages := pages[curPg := Page(pg.free[1..], pg.itemCount - 1)];
      out := out[curPg := out[curPg] + {item.slot}];
    }

    method Carve() returns (item: Item)
      requires Valid() && curPg != NULL && pages[curPg].free == [] && pages[curPg].itemCount > 0
      modifies `pages, `out, `carved, `pgOff
      ensures Valid() && pages.Keys == old(pages.Keys) && item.Item? && item.pg == curPg && item.slot < nrElems
      ensures item.slot !in old(out)[curPg] && out == old(out)[curPg := old(out)[curPg] + {item.slot}]
      ensures item.slot == old(carved)
    {
      var pg := pages[curPg];
      PageCarve(pg, out[curPg], carved, nrElems);
      var k;
      k, pgOff := NextSlot(pgOff, offset, size, pgSize, nrElems, carved);
      item := Item(curPg, k);
      pages := pages[curPg := Page(pg.free, pg.itemCount - 1)];
      out, carved := out[curPg := out[curPg] + {item.slot}], carved + 1;
    }

    /** A page outside the current one leaves its list. */
    method Delist(p: PageId)
      requires Distinct(full) && Distinct(partial) && (p in full || p in partial)
      modifies `full, `partial
      ensures Distinct(full) && Distinct(partial)
      ensures old(p in full) ==> partial == old(partial) && forall q :: q in full <==> old(q in full) && q != p
      ensures old(p !in full) ==> full == old(full) && forall q :: q in partial <==> old(q in partial) && q != p
    {
      if p in full {
        var i :| 0 <= i < |full| && full[i] == p;
        UnlinkDistinct(full, i);
        full := Unlink(full, i);
      } else {
        var i :| 0 <= i < |partial| && partial[i] == p;
        UnlinkDistinct(partial, i);
        partial := Unlink(partial, i);
      }
    }

    /** The item goes to the free list of its page. */
    method PutBack(p: PageId, k: nat)
      requires Valid() && IsOut(out, p, k)
      modifies `pages, `out
      ensures Placed() && Levels(p) && Counts() && p in pages && pages[p].itemCount == old(pages)[p].itemCount + 1 <= nrElems
      ensures out == old(out)[p := old(out)[p] - {k}] && (pages[p].itemCount == nrElems <==> out[p] == {})
      ensures pages == old(pages)[p := Page([k] + old(pages)[p].free, pages[p].itemCount)]
    {
      var pg := pages[p];
      assert PageOk(pg, out[p], Carved(p), nrElems);
      PagePut(pg, out[p], Carved(p), nrElems, k);
      pg := Page([k] + pg.free, pg.itemCount + 1);
      PageCount(pg, out[p] - {k}, Carved(p), nrElems);
      pages, out := pages[p := pg], out[p := out[p] - {k}];
    }

    /** A page with enough free items moves to the partial list. */
    method MakePartial(p: PageId)
      requires Placed() && Levels(p) && Counts() && p in pages && p != curPg && pages[p].itemCount == SLAB_PARTIAL_THRESH <= nrElems
      modifies `full, `partial
      ensures Partition() && Counts()
    {
      Delist(p);
      ConsDistinct(p, partial);
      partial := [p] + partial;
    }

    /** A page that is all free leaves the node. */
    method Release(p: PageId)
      requires Placed() && Levels(p) && Counts() && p in pages && p != curPg
      modifies `full, `partial, `pages, `out
      ensures Partition() && Counts() && out == old(out) - {p} && pages == old(pages) - {p}
    {
      Delist(p);
      pages, out := pages - {p}, out - {p};
    }

    /** slab_node_free: the item is out no more. A page is released exactly when it is not the current one and its last
        item came back, unless that made it partial. */
    method Free(p: PageId, k: nat) returns (released: bool)
      requires Valid() && IsOut(out, p, k)
      modifies `full, `partial, `pages, `out
      ensures Valid() && forall q, l :: IsOut(out, q, l) <==> IsOut(old(out), q, l) && !(q == p && l == k)
      ensures released <==> p != curPg && old(out)[p] == {k} && nrElems != SLAB_PARTIAL_THRESH
      ensures (p in pages <==> !released) && (!released ==> pages[p].free == [k] + old(pages)[p].free)
      ensures forall q :: q in old(pages) && q != p ==> q in pages && pages[q] == old(pages)[q]
    {
      ghost var was := pages[p].itemCount;
      LastOne(out[p], k);
      PutBack(p, k);
      released := Settle(p, was);
      OutAfter(old(out), p, k, out, released);
    }

    /** The page goes where its count says. */
    method Settle(p: PageId, ghost was: nat) returns (released: bool)
      requires Placed() && Levels(p) && Counts() && p in pages && pages[p].itemCount == was + 1
      requires (p in full ==> BelongsFull(was, nrElems)) && (p in partial ==> BelongsPartial(was, nrElems))
      requires pages[p].itemCount <= nrElems
      modifies `full, `partial, `pages, `out
      ensures Partition() && Counts() && out == if released then old(out) - {p} else old(out)
      ensures released <==> p != curPg && old(pages)[p].itemCount == nrElems != SLAB_PARTIAL_THRESH
      ensures pages == if released then old(pages) - {p} else old(pages)
    {
      released := false;
      if p == curPg {
        return;
      }
      if pages[p].itemCount == SLAB_PARTIAL_THRESH {
        MakePartial(p);
      } else if pages[p].itemCount == nrElems {
        Release(p);
        released := true;
      }
    }

    /** The batch is out, on top of what `before` says. */
    ghost predicate Batch(items: seq<Item>, before: map<PageId, set<nat>>)
      reads this
    {
      BatchOf(items, before, out)
    }

    /** slab_tcache_alloc: `nr` distinct items that were not out, or none at all. */
    method AllocBatch(nr: nat, supply: seq<PageId>) returns (ok: bool, items: seq<Item>)
      requires Valid() && |supply| == nr && (forall i :: 0 <= i < nr ==> supply[i] !in pages)
      requires forall i, j :: 0 <= i < j < nr && supply[i] != NULL ==> supply[i] != supply[j]
      modifies `curPg, `full, `partial, `pages, `out, `carved, `pgOff
      ensures Valid() && Batch(items, old(out)) && |items| == if ok then nr else 0
      ensures (forall i :: 0 <= i < nr ==> supply[i] != NULL) ==> ok
    {
      items := [];
      var i := 0;
      while i < nr
        invariant 0 <= i <= nr && |items| == i && Valid() && Batch(items, old(out))
        invariant forall j :: i <= j < nr ==> supply[j] !in pages
      {
        assert forall j :: i < j < nr ==> supply[j] != supply[i] || supply[j] == NULL;
        var item := AllocMore(items, supply[i], old(out));
        if item == None {
          FreeBatch(items, old(out));
          return false, [];
        }
        items := items + [item];
        i := i + 1;
      }
      ok := true;
    }

    /** One more item for the batch. */
    method AllocMore(ghost items: seq<Item>, supply: PageId, ghost before: map<PageId, set<nat>>) returns (item: Item)
      requires Valid() && supply !in pages && Batch(items, before)
      modifies `curPg, `full, `partial, `pages, `out, `carved, `pgOff
      ensures Valid() && pages.Keys <= old(pages.Keys) + {supply} && (item == None ==> supply == NULL)
      ensures Batch(if item == None then items else items + [item], before)
    {
      ghost var o := out;
      item := Alloc(supply);
      if item != None {
        BatchMore(items, before, o, item.pg, item.slot, out);
      } else {
        BatchSame(items, before, o, out);
      }
    }

    method FreeLast(items: seq<Item>, ghost before: map<PageId, set<nat>>)
      requires Valid() && Batch(items, before) && items != []
      modifies `full, `partial, `pages, `out
      ensures Valid() && Batch(items[..|items| - 1], before)
    {
      var last := items[|items| - 1];
      LastApart(items);
      assert last == Item(last.pg, last.slot);
      assert IsOut(out, last.pg, last.slot);
      var _ := Free(last.pg, last.slot);
    }

    /** The failure path: the items go back, the last one first. */
    method FreeBatch(items: seq<Item>, ghost before: map<PageId, set<nat>>)
      requires Valid() && Batch(items, before)
      modifies `full, `partial, `pages, `out
      ensures Valid() && Batch([], before)
    {
      var rest := items;
      while rest != []
        invariant Valid() && Batch(rest, before)
        decreases |rest|
      {
        FreeLast(rest, before);
        rest := rest[..|rest| - 1];
      }
    }
  }

  lemma LastOne(s: set<nat>, k: nat)
    requires k in s
    ensures s == {k} <==> s - {k} == {}
  {
    assert s == (s - {k}) + {k};
  }

  lemma {:induction false} OutAfter(out: map<PageId, set<nat>>, p: PageId, k: nat, out': map<PageId, set<nat>>, released: bool)
    requires p in out && out' == (if released then out[p := out[p] - {k}] - {p} else out[p := out[p] - {k}]) && (released ==> out[p] - {k} == {})
    ensures forall q, l :: q in out' && l in out'[q] <==> q in out && l in out[q] && !(q == p && l == k)
  {
    forall q, l ensures q in out' && l in out'[q] <==> q in out && l in out[q] && !(q == p && l == k) {
      if q == p && released && l in out[p] {
        assert l in out[p] - {k} || l == k;
      }
    }
  }

  lemma {:induction false} LastApart(s: seq<Item>)
    requires Distinct(s) && s != []
    ensures s[|s| - 1] in s && Distinct(s[..|s| - 1])
    ensures forall x :: x in s[..|s| - 1] <==> x in s && x != s[|s| - 1]
  {
    UnlinkDistinct(s, |s| - 1);
    assert Unlink(s, |s| - 1) == s[..|s| - 1];
  }

  lemma {:induction false} CarveFits(offset: nat, size: nat, nr: nat, k: nat, pgSize: nat)
    requires k < nr && size > 0 && offset + nr * size <= pgSize
    ensures offset + k * size + size <= pgSize && (k * size) / size == k && (k + 1) * size == k * size + size
  {
    W.QuotRem(k * size, size, k, 0);
    assert (k + 1) * size == k * size + size;
    W.Scale(k + 1, nr, size);
  }
}
