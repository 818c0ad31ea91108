/**
 The magazine cache: per-CPU loaded and previous magazines, a shared list of full magazines, and a
 backing allocator that supplies and takes back whole magazines. A linked list of items is a sequence.
 */
module Tcache {
  import opened Words

  type Item = int
  const NULL: Item := 0

  /** struct tcache_percpu; an empty sequence is a NULL magazine. */
  datatype Percpu = Percpu(rounds: nat, capacity: nat, loaded: seq<Item>, previous: seq<Item>)

  datatype Supply = Failed | Items(items: seq<Item>)

  // ----- where items are -----

  ghost function CpuItems(c: Percpu): multiset<Item> { multiset(c.loaded) + multiset(c.previous) }

  ghost function AllCpus(cpus: seq<Percpu>): multiset<Item> {
    if cpus == [] then multiset{} else CpuItems(cpus[0]) + AllCpus(cpus[1..])
  }

  ghost function AllMags(mags: seq<seq<Item>>): multiset<Item> {
    if mags == [] then multiset{} else multiset(mags[0]) + AllMags(mags[1..])
  }

  /** Replacing the cache of one CPU. */
  lemma {:induction false} CpusUpdate(cpus: seq<Percpu>, i: nat, c: Percpu)
    requires i < |cpus|
    ensures CpuItems(cpus[i]) <= AllCpus(cpus)
    ensures AllCpus(cpus[i := c]) == AllCpus(cpus) - CpuItems(cpus[i]) + CpuItems(c)
  {
    var s := cpus[i := c];
    if i == 0 {
      assert s[1..] == cpus[1..];
    } else {
      CpusUpdate(cpus[1..], i - 1, c);
      assert s[1..] == cpus[1..][i - 1 := c];
    }
  }

  lemma {:induction false} MagsSize(mags: seq<seq<Item>>, n: nat)
    requires forall i :: 0 <= i < |mags| ==> |mags[i]| == n
    ensures |AllMags(mags)| == |mags| * n
  {
    if mags != [] {
      MagsSize(mags[1..], n);
      Distribute(|mags[1..]|, n);
    }
  }

  /** Every magazine that is not loaded is exactly full, and a loaded one holds as many items as its CPU counts. */
  predicate CpuOk(c: Percpu, size: nat) {
    && c.capacity == size && |c.loaded| == c.rounds <= size
    && (c.previous == [] || |c.previous| == size)
  }

  /** The items are distinct and make up whole magazines. */
  ghost predicate WholeMags(all: multiset<Item>, mags: nat, size: nat) {
    NULL !in all && (forall x :: all[x] <= 1) && |all| == mags * size
  }

  /** No item is in two places, and together they are whole magazines. */
  ghost predicate Conserved(held: multiset<Item>, cpus: seq<Percpu>, shared: seq<seq<Item>>, mags: nat, size: nat) {
    WholeMags(held + AllCpus(cpus) + AllMags(shared), mags, size)
  }

  lemma {:induction false} Shuffle(h: multiset<Item>, a: multiset<Item>, m: multiset<Item>, x: multiset<Item>,
                                   h': multiset<Item>, a': multiset<Item>, m': multiset<Item>, y: multiset<Item>)
    requires x <= a && a' == a - x + y && h' + y + m' == h + x + m
    ensures h' + a' + m' == h + a + m
  {
    forall e ensures (h' + a' + m')[e] == (h + a + m)[e] {
      assert (h' + y + m')[e] == (h + x + m)[e];
      assert a'[e] == a[e] - x[e] + y[e];
    }
  }

  /** Items change places between the users, one CPU and the shared list. */
  lemma {:induction false} Repack(held: multiset<Item>, cpus: seq<Percpu>, shared: seq<seq<Item>>, i: nat, c: Percpu,
                                  held': multiset<Item>, shared': seq<seq<Item>>, mags: nat, size: nat)
    requires Conserved(held, cpus, shared, mags, size) && i < |cpus|
    requires held' + CpuItems(c) + AllMags(shared') == held + CpuItems(cpus[i]) + AllMags(shared)
    ensures Conserved(held', cpus[i := c], shared', mags, size)
  {
    var a, m, x, a', m', y := AllCpus(cpus), AllMags(shared), CpuItems(cpus[i]), AllCpus(cpus[i := c]), AllMags(shared'), CpuItems(c);
    assert x <= a && a' == a - x + y by {
      CpusUpdate(cpus, i, c);
    }
    Shuffle(held, a, m, x, held', a', m', y);
  }

  lemma {:induction false} EmptyCpus(cpus: seq<Percpu>)
    requires forall i :: 0 <= i < |cpus| ==> CpuItems(cpus[i]) == multiset{}
    ensures AllCpus(cpus) == multiset{}
  {
    if cpus != [] {
      EmptyCpus(cpus[1..]);
    }
  }

  lemma FirstMag(mags: seq<seq<Item>>)
    requires mags != []
    ensures AllMags(mags) == multiset(mags[0]) + AllMags(mags[1..])
  {
  }

  lemma Uncons(s: seq<Item>)
    requires s != []
    ensures multiset(s) == multiset{s[0]} + multiset(s[1..])
  {
    assert s == [s[0]] + s[1..];
  }

  lemma {:induction false} LoadedHere(cpus: seq<Percpu>, i: nat, x: Item)
    requires i < |cpus| && x in cpus[i].loaded
    ensures x in AllCpus(cpus)
  {
    CpusUpdate(cpus, i, cpus[i]);
    assert x in multiset(cpus[i].loaded);
  }

  /** The backing allocator's promise: a magazine of distinct items that are nowhere in the cache. */
  ghost predicate Suppliable(items: seq<Item>, size: nat, all: multiset<Item>) {
    && |items| == size && (forall x :: multiset(items)[x] <= 1)
    && forall x :: x in multiset(items) ==> x != NULL && x !in all
  }

  lemma {:induction false} MoreMags(all: multiset<Item>, items: multiset<Item>, mags: nat, size: nat)
    requires WholeMags(all, mags, size) && |items| == size && (forall x :: items[x] <= 1) && (forall x :: x in items ==> x != NULL && x !in all)
    ensures WholeMags(all + items, mags + 1, size)
  {
    Distribute(mags, size);
  }

  lemma {:induction false} Supplied(held: multiset<Item>, cpus: seq<Percpu>, shared: seq<seq<Item>>, i: nat, c: Percpu, items: seq<Item>, mags: nat, size: nat)
    requires Conserved(held, cpus, shared, mags, size) && i < |cpus|
    requires Suppliable(items, size, held + AllCpus(cpus) + AllMags(shared)) && CpuItems(c) == CpuItems(cpus[i]) + multiset(items)
    ensures Conserved(held, cpus[i := c], shared, mags + 1, size)
  {
    var a, m, x, a', n, y := AllCpus(cpus), AllMags(shared), CpuItems(cpus[i]), AllCpus(cpus[i := c]), multiset(items), CpuItems(c);
    assert x <= a && a' == a - x + y by {
      CpusUpdate(cpus, i, c);
    }
    MoreMags(held + a + m, n, mags, size);
    Joined(held, a, m, x, a', n);
  }

  lemma {:induction false} Joined(h: multiset<Item>, a: multiset<Item>, m: multiset<Item>, x: multiset<Item>, a': multiset<Item>, n: multiset<Item>)
    requires x <= a && a' == a - x + (x + n)
    ensures h + a' + m == (h + a + m) + n
  {
    forall e ensures (h + a' + m)[e] == ((h + a + m) + n)[e] {
      assert a'[e] == a[e] - x[e] + (x[e] + n[e]);
    }
  }

  lemma {:induction false} FewerMags(kept: multiset<Item>, back: multiset<Item>, mags: nat, n: nat, size: nat)
    requires WholeMags(kept + back, mags, size) && |back| == n * size && size > 0
    ensures n <= mags && WholeMags(kept, mags - n, size)
  {
    assert |kept| + n * size == mags * size;
    Fewer(|kept|, mags, n, size);
    forall x ensures kept[x] <= 1 {
      assert (kept + back)[x] <= 1;
    }
  }

  lemma Fewer(k: nat, mags: nat, n: nat, size: nat)
    requires k + n * size == mags * size && size > 0
    ensures n <= mags && k == (mags - n) * size
  {
    assert n > mags ==> (n - mags) * size > 0;
  }

  /** How items move, as equations between the places concerned. */
  lemma {:induction false} TakeOne(held: multiset<Item>, c: Percpu, rest: multiset<Item>)
    requires c.loaded != []
    ensures forall r :: (held + multiset{c.loaded[0]}) + CpuItems(c.(rounds := r, loaded := c.loaded[1..])) + rest == held + CpuItems(c) + rest
  {
    Uncons(c.loaded);
  }

  lemma {:induction false} GiveOne(held: multiset<Item>, c: Percpu, x: Item, rest: multiset<Item>)
    requires x in held
    ensures forall r :: (held - multiset{x}) + CpuItems(c.(rounds := r, loaded := [x] + c.loaded)) + rest == held + CpuItems(c) + rest
  {
    Uncons([x] + c.loaded);
    assert ([x] + c.loaded)[1..] == c.loaded;
    Give(held, multiset(c.loaded), multiset(c.previous), x, rest);
  }

  lemma {:induction false} Give(h: multiset<Item>, l: multiset<Item>, p: multiset<Item>, x: Item, rest: multiset<Item>)
    requires x in h
    ensures (h - multiset{x}) + ((multiset{x} + l) + p) + rest == h + (l + p) + rest
  {
    assert (h - multiset{x}) + multiset{x} == h;
  }

  lemma LoadEmpty(c: Percpu, c': Percpu)
    requires c.loaded == [] && c'.previous == c.previous
    ensures CpuItems(c') == CpuItems(c) + multiset(c'.loaded)
  {
  }

  /** The items of a CPU in the order in which they are given out. */
  function Stack(c: Percpu): seq<Item> { c.loaded + c.previous }

  /** Only the cache of CPU `i` changes. */
  predicate OnlyCpu(a: seq<Percpu>, b: seq<Percpu>, i: nat) {
    i < |a| == |b| && b == a[i := b[i]]
  }

  lemma OnlyCpuTwice(a: seq<Percpu>, b: seq<Percpu>, c: seq<Percpu>, i: nat)
    requires OnlyCpu(a, b, i) && OnlyCpu(b, c, i)
    ensures OnlyCpu(a, c, i)
  {
  }

  /** `out` is what a CPU gives out next and `mags'` the shared magazines then left: its own items, else a shared magazine,
      else new items. */
  predicate Source(c: Percpu, mags: seq<seq<Item>>, supply: Supply, out: seq<Item>, mags': seq<seq<Item>>) {
    if Stack(c) != [] then out == Stack(c) && mags' == mags
    else if mags != [] then out == mags[0] && mags' == mags[1..]
    else supply.Items? && out == supply.items && mags' == mags
  }

  /** An item goes on top of the CPU's stack; a third full magazine is not kept, the oldest becomes shared. */
  predicate PutOnTop(c: Percpu, mags: seq<seq<Item>>, x: Item, c': Percpu, mags': seq<seq<Item>>, size: nat) {
    if |Stack(c)| == 2 * size then Stack(c') == [x] + c.loaded && mags' == [c.previous] + mags
    else Stack(c') == [x] + Stack(c) && mags' == mags
  }

  lemma {:induction false} PutOnTopIs(c: Percpu, mags: seq<seq<Item>>, x: Item, c1: Percpu, c': Percpu, mags': seq<seq<Item>>, size: nat)
    requires CpuOk(c, size) && size > 0 && c'.loaded == [x] + c1.loaded && c'.previous == c1.previous
    requires if c.rounds < c.capacity then c1 == c && mags' == mags
             else c1.loaded == [] && c1.previous == c.loaded && mags' == (if c.previous == [] then [] else [c.previous]) + mags
    ensures PutOnTop(c, mags, x, c', mags', size) && Stack(c') != [] && Stack(c')[0] == x
  {
    if c.rounds >= c.capacity && c.previous == [] {
      assert mags' == mags;
    }
  }

  class Cache {
    const magSize: nat
    var magsAllocated: nat
    var sharedMags: seq<seq<Item>>
    var cpus: seq<Percpu>
    /** The items that users hold. */
    ghost var held: multiset<Item>

    ghost function Everything(): multiset<Item>
      reads this
    {
      held + AllCpus(cpus) + AllMags(sharedMags)
    }

    ghost predicate Valid()
      reads this
    {
      && magSize > 0
      && (forall i :: 0 <= i < |cpus| ==> CpuOk(cpus[i], magSize))
      && (forall i :: 0 <= i < |sharedMags| ==> |sharedMags[i]| == magSize)
      && Conserved(held, cpus, sharedMags, magsAllocated, magSize)
    }

    /** tcache_create and tcache_init_percpu on `n` CPUs. */
    constructor (magSize: nat, n: nat)
      requires magSize > 0
      ensures Valid() && this.magSize == magSize && |cpus| == n && magsAllocated == 0 && held == multiset{}
    {
      this.magSize, magsAllocated, sharedMags, held := magSize, 0, [], multiset{};
      cpus := seq(n, _ => Percpu(0, magSize, [], []));
      new;
      EmptyCpus(cpus);
    }

    /** Neither the CPU nor the shared list has a magazine left. */
    predicate Dry(i: nat)
      reads this
      requires i < |cpus|
    {
      cpus[i].rounds == 0 && cpus[i].previous == [] && sharedMags == []
    }

    /** tcache_alloc: the fast path, or a magazine is loaded first. `supply` is what the backing allocator would return. */
    method Alloc(i: nat, supply: Supply) returns (item: Item)
      requires Valid() && i < |cpus|
      requires supply.Items? ==> Suppliable(supply.items, magSize, Everything())
      modifies this
      ensures Valid() && OnlyCpu(old(cpus), cpus, i)
      ensures item == NULL <==> old(Dry(i)) && supply == Failed
      ensures item == NULL ==> held == old(held) && cpus == old(cpus) && sharedMags == old(sharedMags)
      ensures item != NULL ==> Source(old(cpus)[i], old(sharedMags), supply, [item] + Stack(cpus[i]), sharedMags)
      ensures item != NULL ==> held == old(held) + multiset{item} && item !in old(held)
      ensures magsAllocated == old(magsAllocated) + if old(Dry(i)) && supply.Items? then 1 else 0
    {
      if cpus[i].rounds == 0 {
        assert cpus[i].loaded == [];
        var ok := Reload(i, supply);
        if !ok {
          return NULL;
        }
      }
      ghost var mid := cpus;
      item := TakeRound(i);
      OnlyCpuTwice(old(cpus), mid, cpus, i);
    }

    /** The cache of one CPU and the shared list change, and items move between them and the users. */
    method Store(i: nat, c: Percpu, mags: seq<seq<Item>>, ghost held': multiset<Item>)
      requires Valid() && i < |cpus| && CpuOk(c, magSize) && forall j :: 0 <= j < |mags| ==> |mags[j]| == magSize
      requires held' + CpuItems(c) + AllMags(mags) == held + CpuItems(cpus[i]) + AllMags(sharedMags)
      modifies `cpus, `sharedMags, `held
      ensures Valid() && cpus == old(cpus)[i := c] && sharedMags == mags && held == held'
    {
      Repack(held, cpus, sharedMags, i, c, held', mags, magsAllocated, magSize);
      cpus, sharedMags, held := cpus[i := c], mags, held';
    }

    /** The end of both paths: one round of the loaded magazine goes to the user. */
    method TakeRound(i: nat) returns (item: Item)
      requires Valid() && i < |cpus| && cpus[i].rounds > 0
      modifies `cpus, `sharedMags, `held
      ensures Valid() && OnlyCpu(old(cpus), cpus, i) && sharedMags == old(sharedMags)
      ensures item != NULL && held == old(held) + multiset{item} && item !in old(held)
      ensures [item] + Stack(cpus[i]) == Stack(old(cpus)[i])
    {
      var c := cpus[i];
      item := c.loaded[0];
      assert [item] + (c.loaded[1..] + c.previous) == Stack(c);
      TakeOne(held, c, AllMags(sharedMags));
      LoadedHere(cpus, i, item);
      assert Everything()[item] <= 1;
      Store(i, c.(rounds := c.rounds - 1, loaded := c.loaded[1..]), sharedMags, held + multiset{item});
    }

    /** __tcache_alloc: a full magazine comes from the previous slot, the shared list or the backing allocator. */
    method Reload(i: nat, supply: Supply) returns (ok: bool)
      requires Valid() && i < |cpus| && cpus[i].rounds == 0
      requires supply.Items? ==> Suppliable(supply.items, magSize, Everything())
      modifies this
      ensures Valid() && OnlyCpu(old(cpus), cpus, i) && held == old(held)
      ensures ok <==> !(old(Dry(i)) && supply == Failed)
      ensures ok ==> cpus[i].rounds == magSize && Source(old(cpus)[i], old(sharedMags), supply, Stack(cpus[i]), sharedMags)
      ensures !ok ==> cpus == old(cpus) && sharedMags == old(sharedMags)
      ensures magsAllocated == old(magsAllocated) + if old(Dry(i)) && supply.Items? then 1 else 0
    {
      if cpus[i].previous != [] {
        LoadPrevious(i);
        return true;
      }
      if sharedMags != [] {
        LoadShared(i);
        return true;
      }
      if supply == Failed {
        return false;
      }
      LoadNew(i, supply.items);
      return true;
    }

    method LoadPrevious(i: nat)
      requires Valid() && i < |cpus| && cpus[i].rounds == 0 && cpus[i].previous != []
      modifies `cpus, `sharedMags, `held
      ensures Valid() && OnlyCpu(old(cpus), cpus, i) && held == old(held) && cpus[i].rounds == magSize
      ensures Stack(cpus[i]) == Stack(old(cpus)[i]) && sharedMags == old(sharedMags)
    {
      var c := cpus[i];
      assert c.loaded == [];
      Store(i, c.(rounds := c.capacity, loaded := c.previous, previous := []), sharedMags, held);
    }

    method LoadShared(i: nat)
      requires Valid() && i < |cpus| && cpus[i].rounds == 0 && cpus[i].previous == [] && sharedMags != []
      modifies `cpus, `sharedMags, `held
      ensures Valid() && OnlyCpu(old(cpus), cpus, i) && held == old(held) && cpus[i].rounds == magSize
      ensures Stack(cpus[i]) == old(sharedMags)[0] && sharedMags == old(sharedMags)[1..]
    {
      FirstMag(sharedMags);
      Store(i, cpus[i].(rounds := cpus[i].capacity, loaded := sharedMags[0]), sharedMags[1..], held);
    }

    /** tcache_alloc_mag. */
    method LoadNew(i: nat, items: seq<Item>)
      requires Valid() && i < |cpus| && cpus[i].rounds == 0 && cpus[i].previous == [] && Suppliable(items, magSize, Everything())
      modifies `cpus, `magsAllocated
      ensures Valid() && OnlyCpu(old(cpus), cpus, i) && cpus[i].rounds == magSize && Stack(cpus[i]) == items
      ensures magsAllocated == old(magsAllocated) + 1
    {
      var c' := cpus[i].(rounds := cpus[i].capacity, loaded := items);
      assert CpuItems(c') == CpuItems(cpus[i]) + multiset(items) by {
        LoadEmpty(cpus[i], c');
      }
      Supplied(held, cpus, sharedMags, i, c', items, magsAllocated, magSize);
      cpus, magsAllocated := cpus[i := c'], magsAllocated + 1;
    }

    /** tcache_free: the fast path, or the full magazines move on and a new one is started. */
    method Free(i: nat, item: Item)
      requires Valid() && i < |cpus| && item in held
      modifies `cpus, `sharedMags, `held
      ensures Valid() && OnlyCpu(old(cpus), cpus, i) && held == old(held) - multiset{item}
      ensures PutOnTop(old(cpus)[i], old(sharedMags), item, cpus[i], sharedMags, magSize)
      ensures Stack(cpus[i]) != [] && Stack(cpus[i])[0] == item
    {
      if cpus[i].rounds >= cpus[i].capacity {
        Unload(i);
      }
      ghost var mid := cpus;
      Push(i, item);
      OnlyCpuTwice(old(cpus), mid, cpus, i);
      PutOnTopIs(old(cpus)[i], old(sharedMags), item, mid[i], cpus[i], sharedMags, magSize);
    }

    method Push(i: nat, item: Item)
      requires Valid() && i < |cpus| && cpus[i].rounds < cpus[i].capacity && item in held
      modifies `cpus, `sharedMags, `held
      ensures Valid() && OnlyCpu(old(cpus), cpus, i) && held == old(held) - multiset{item} && sharedMags == old(sharedMags)
      ensures cpus[i].loaded == [item] + old(cpus)[i].loaded && cpus[i].previous == old(cpus)[i].previous
    {
      var c := cpus[i];
      GiveOne(held, c, item, AllMags(sharedMags));
      Store(i, c.(rounds := c.rounds + 1, loaded := [item] + c.loaded), sharedMags, held - multiset{item});
    }

    /** __tcache_free: the full loaded magazine becomes the previous one, which goes to the shared list. */
    method Unload(i: nat)
      requires Valid() && i < |cpus| && cpus[i].rounds >= cpus[i].capacity
      modifies `cpus, `sharedMags, `held
      ensures Valid() && OnlyCpu(old(cpus), cpus, i) && cpus[i].rounds == 0 && held == old(held)
      ensures cpus[i].loaded == [] && cpus[i].previous == old(cpus)[i].loaded
      ensures sharedMags == (if old(cpus)[i].previous == [] then [] else [old(cpus)[i].previous]) + old(sharedMags)
    {
      var c := cpus[i];
      assert c.rounds == c.capacity && c.loaded != [];
      var mags := sharedMags;
      if c.previous != [] {
        mags := [c.previous] + sharedMags;
        FirstMag(mags);
        assert mags[1..] == sharedMags;
      }
      Store(i, c.(rounds := 0, loaded := [], previous := c.loaded), mags, held);
    }

    /** An item freed is the next one the CPU gives out, and the supplier is not asked. */
    method FreeThenAlloc(i: nat, item: Item) returns (again: Item)
      requires Valid() && i < |cpus| && item in held
      modifies this
      ensures Valid() && again == item && held == old(held) && magsAllocated == old(magsAllocated)
    {
      Free(i, item);
      assert (cpus[i].loaded != [] || cpus[i].previous != []) && CpuOk(cpus[i], magSize);
      ghost var top := Stack(cpus[i]);
      again := Alloc(i, Failed);
      assert ([again] + Stack(cpus[i]))[0] == top[0];
    }

    /** tcache_reclaim: every shared magazine, each exactly full, goes back to the backing allocator. */
    method Reclaim() returns (freed: seq<seq<Item>>)
      requires Valid()
      modifies `sharedMags, `magsAllocated
      ensures Valid() && sharedMags == [] && freed == old(sharedMags) && magsAllocated == old(magsAllocated) - |freed|
      ensures forall i :: 0 <= i < |freed| ==> |freed[i]| == magSize
    {
      freed := sharedMags;
      MagsSize(freed, magSize);
      FewerMags(held + AllCpus(cpus), AllMags(freed), magsAllocated, |freed|, magSize);
      assert held + AllCpus(cpus) + AllMags([]) == held + AllCpus(cpus);
      sharedMags := [];
      magsAllocated := magsAllocated - |freed|;
    }
  }
}
