/** Unspent transaction outputs behind a stack of write-back caches.

    Layer 0 lies on the database, layer `i` on layer `i - 1`. The view at height `n` is what a reader
    of the `n`-th cache sees; the view at height 0 is the database. */
module Coins {
  import opened Basics

  datatype Outpoint = Outpoint(txid: nat, n: nat)

  datatype TxOut = TxOut(value: int, script: nat, spendable: bool)
  /** A coin is spent when its output is null. */
  datatype Coin = Coin(out: Option<TxOut>, height: nat, coinBase: bool) {
    predicate IsSpent() {
      out.None?
    }
  }

  const Empty := Coin(None, 0, false)

  datatype Entry = Entry(coin: Coin, dirty: bool, fresh_: bool)

  type CoinsMap = map<Outpoint, Entry>

  datatype Views = Views(db: map<Outpoint, Coin>, layers: seq<CoinsMap>)

  /** What a coin is to a reader. */
  function Unspent(c: Coin): Option<Coin> {
    if c.IsSpent() then None else Some(c)
  }

  function View(v: Views, n: nat, o: Outpoint): Option<Coin>
    requires n <= |v.layers|
  {
    if n == 0 then (if o in v.db then Unspent(v.db[o]) else None)
    else if o in v.layers[n - 1] then Unspent(v.layers[n - 1][o].coin)
    else View(v, n - 1, o)
  }

  /** The stated meaning of the flags: without DIRTY an entry agrees with its parent view, and with
      FRESH the parent view has no coin there. */
  ghost predicate EntryOk(e: Entry, parent: Option<Coin>) {
    (!e.dirty ==> Unspent(e.coin) == parent) && (e.fresh_ ==> parent == None)
  }

  ghost predicate LayerOk(v: Views, i: nat)
    requires i < |v.layers|
  {
    forall o :: o in v.layers[i] ==> EntryOk(v.layers[i][o], View(v, i, o))
  }

  ghost predicate Valid(v: Views) {
    forall i :: 0 <= i < |v.layers| ==> LayerOk(v, i)
  }

  ghost predicate SameView(v: Views, w: Views, n: nat)
    requires n <= |v.layers| && n <= |w.layers|
  {
    forall o :: View(v, n, o) == View(w, n, o)
  }

  function PutLayer(v: Views, i: nat, layer: CoinsMap): Views
    requires i < |v.layers|
  {
    v.(layers := v.layers[i := layer])
  }

  function PutEntry(v: Views, i: nat, o: Outpoint, e: Entry): Views
    requires i < |v.layers|
  {
    PutLayer(v, i, v.layers[i][o := e])
  }

  // ----- Reading, which fills the caches

  function Fetch(v: Views, n: nat, o: Outpoint): (w: Views)
    requires 0 < n <= |v.layers|
    ensures |w.layers| == |v.layers|
    decreases n, 0
  {
    if o in v.layers[n - 1] then v else
      var (w, found, coin) := Get(v, n - 1, o);
      if !found then w
      else PutEntry(w, n - 1, o, Entry(coin, false, coin.IsSpent()))
  }

  function Get(v: Views, n: nat, o: Outpoint): (r: (Views, bool, Coin))
    requires n <= |v.layers|
    ensures |r.0.layers| == |v.layers|
    decreases n, 1
  {
    if n == 0 then (if o in v.db then (v, true, v.db[o]) else (v, false, Empty))
    else
      var w := Fetch(v, n, o);
      if o in w.layers[n - 1] then (w, !w.layers[n - 1][o].coin.IsSpent(), w.layers[n - 1][o].coin)
      else (w, false, Empty)
  }

  /** Reading changes no view and keeps the flags right; it answers with the view, and leaves alone the
      layers from `n` on. */
  lemma {:induction false} FetchSpec(v: Views, n: nat, o: Outpoint)
    requires 0 < n <= |v.layers| && Valid(v)
    ensures var w := Fetch(v, n, o);
            && w.db == v.db && Valid(w)
            && (forall i :: n <= i < |v.layers| ==> w.layers[i] == v.layers[i])
            && (forall m :: 0 <= m <= |v.layers| ==> SameView(v, w, m))
            && (if o in w.layers[n - 1] then Unspent(w.layers[n - 1][o].coin) == View(v, n, o) else View(v, n, o) == None)
    decreases n, 0
  {
    if o !in v.layers[n - 1] {
      GetSpec(v, n - 1, o);
      var (w, found, coin) := Get(v, n - 1, o);
      assert SameView(v, w, n - 1);
      if found {
        InsertKeeps(w, n, o, coin);
        SameViewTransitive(v, w, Fetch(v, n, o));
      }
      assert SameView(v, w, n);
    }
  }

  /** Where the view has no coin, a fetch finds an entry only if it is in that layer, or in the database below it. */
  lemma FetchFinds(v: Views, n: nat, o: Outpoint)
    requires 0 < n <= |v.layers| && Valid(v) && View(v, n, o) == None
    ensures o in Fetch(v, n, o).layers[n - 1] <==> o in v.layers[n - 1] || (n == 1 && o in v.db)
  {
    if o !in v.layers[n - 1] {
      GetSpec(v, n - 1, o);
    }
  }

  lemma SameViewTransitive(u: Views, v: Views, w: Views)
    requires |u.layers| == |v.layers| == |w.layers|
    requires forall m :: 0 <= m <= |u.layers| ==> SameView(u, v, m)
    requires forall m :: 0 <= m <= |u.layers| ==> SameView(v, w, m)
    ensures forall m :: 0 <= m <= |u.layers| ==> SameView(u, w, m)
  {
    forall m | 0 <= m <= |u.layers| ensures SameView(u, w, m) {
      assert SameView(u, v, m) && SameView(v, w, m);
    }
  }

  lemma {:induction false} GetSpec(v: Views, n: nat, o: Outpoint)
    requires n <= |v.layers| && Valid(v)
    ensures var (w, found, coin) := Get(v, n, o);
            && w.db == v.db && Valid(w)
            && (forall i :: n <= i < |v.layers| ==> w.layers[i] == v.layers[i])
            && (forall m :: 0 <= m <= |v.layers| ==> SameView(v, w, m))
            && View(v, n, o) == (if found then Unspent(coin) else None)
            && (n > 0 ==> found == View(v, n, o).Some?)
    decreases n, 1
  {
    if n > 0 {
      FetchSpec(v, n, o);
    }
  }

  /** What a reader of `layer` sees over the given parent view. */
  function Seen(layer: CoinsMap, o: Outpoint, parent: Option<Coin>): Option<Coin> {
    if o in layer then Unspent(layer[o].coin) else parent
  }

  /** Replacing a layer by one with right flags that shows the same. */
  lemma ReplaceKeeps(v: Views, i: nat, layer: CoinsMap)
    requires Valid(v) && i < |v.layers|
    requires forall o :: o in layer ==> EntryOk(layer[o], View(v, i, o))
    requires forall o :: Seen(layer, o, View(v, i, o)) == View(v, i + 1, o)
    ensures Valid(PutLayer(v, i, layer))
    ensures forall m :: 0 <= m <= |v.layers| ==> SameView(v, PutLayer(v, i, layer), m)
  {
    var w := PutLayer(v, i, layer);
    LowerViews(v, w, i);
    assert SameView(v, w, i);
    var n := i + 1;
    forall o ensures View(v, n, o) == View(w, n, o) {
      assert View(v, i, o) == View(w, i, o);
    }
    UpperViews(v, w, i + 1);
    forall k | 0 <= k < |w.layers| ensures LayerOk(w, k) {
      assert LayerOk(v, k) && SameView(v, w, k);
    }
  }

  /** Replacing the top layer by one with right flags. */
  lemma ReplaceTopKeeps(v: Views, layer: CoinsMap)
    requires Valid(v) && |v.layers| > 0
    requires forall o :: o in layer ==> EntryOk(layer[o], View(v, |v.layers| - 1, o))
    ensures var w := PutLayer(v, |v.layers| - 1, layer);
            && Valid(w) && (forall m :: 0 <= m < |v.layers| ==> SameView(v, w, m))
            && forall o :: View(w, |v.layers|, o) == Seen(layer, o, View(v, |v.layers| - 1, o))
  {
    var w := PutLayer(v, |v.layers| - 1, layer);
    LowerViews(v, w, |v.layers| - 1);
    forall k | 0 <= k < |w.layers| ensures LayerOk(w, k) {
      assert LayerOk(v, k) && SameView(v, w, k);
    }
    assert SameView(v, w, |v.layers| - 1);
    forall o ensures View(w, |v.layers|, o) == Seen(layer, o, View(v, |v.layers| - 1, o)) {
      assert View(v, |v.layers| - 1, o) == View(w, |v.layers| - 1, o);
    }
  }

  /** Caching what the parent view shows. */
  lemma InsertKeeps(v: Views, n: nat, o: Outpoint, coin: Coin)
    requires 0 < n <= |v.layers| && Valid(v) && o !in v.layers[n - 1] && Unspent(coin) == View(v, n - 1, o)
    ensures var w := PutEntry(v, n - 1, o, Entry(coin, false, coin.IsSpent()));
            Valid(w) && forall m :: 0 <= m <= |v.layers| ==> SameView(v, w, m)
  {
    assert LayerOk(v, n - 1);
    ReplaceKeeps(v, n - 1, v.layers[n - 1][o := Entry(coin, false, coin.IsSpent())]);
  }

  /** Views below the first changed layer do not change. */
  lemma {:induction false} LowerView(v: Views, w: Views, k: nat, m: nat, o: Outpoint)
    requires m <= k <= |v.layers| && k <= |w.layers| && v.db == w.db && v.layers[..k] == w.layers[..k]
    ensures View(v, m, o) == View(w, m, o)
    decreases m
  {
    if m > 0 {
      LowerView(v, w, k, m - 1, o);
      assert v.layers[..k][m - 1] == w.layers[..k][m - 1];
    }
  }

  lemma LowerViews(v: Views, w: Views, k: nat)
    requires k <= |v.layers| && k <= |w.layers| && v.db == w.db && v.layers[..k] == w.layers[..k]
    ensures forall m :: 0 <= m <= k ==> SameView(v, w, m)
  {
    forall m, o | 0 <= m <= k ensures View(v, m, o) == View(w, m, o) {
      LowerView(v, w, k, m, o);
    }
  }

  /** Views above unchanged layers change only if the view under them does. */
  lemma {:induction false} UpperView(v: Views, w: Views, k: nat, m: nat, o: Outpoint)
    requires k <= m <= |v.layers| == |w.layers| && v.layers[k..] == w.layers[k..] && View(v, k, o) == View(w, k, o)
    ensures View(v, m, o) == View(w, m, o)
    decreases m
  {
    if m > k {
      UpperView(v, w, k, m - 1, o);
      assert v.layers[k..][m - 1 - k] == w.layers[k..][m - 1 - k];
    }
  }

  lemma UpperViews(v: Views, w: Views, k: nat)
    requires k <= |v.layers| == |w.layers| && v.layers[k..] == w.layers[k..] && SameView(v, w, k)
    ensures forall m :: k <= m <= |v.layers| ==> SameView(v, w, m)
  {
    forall m, o | k <= m <= |v.layers| ensures View(v, m, o) == View(w, m, o) {
      UpperView(v, w, k, m, o);
    }
  }

  // ----- Writing at the top

  /** `AddCoin` on one layer; `None` is the throw on an unspent entry that was not to be overwritten. */
  function AddToLayer(layer: CoinsMap, o: Outpoint, coin: Coin, overwrite: bool): Option<CoinsMap> {
    var old_ := if o in layer then layer[o] else Entry(Empty, false, false);
    if !overwrite && !old_.coin.IsSpent() then None
    else
      var isFresh := !overwrite && !old_.dirty;
      Some(layer[o := Entry(coin, true, old_.fresh_ || isFresh)])
  }

  function Add(v: Views, o: Outpoint, coin: Coin, overwrite: bool): (r: Option<Views>)
    requires |v.layers| > 0 && !coin.IsSpent()
    ensures r.Some? ==> |r.value.layers| == |v.layers|
  {
    if !coin.out.value.spendable then Some(v) else
      var top := |v.layers| - 1;
      match AddToLayer(v.layers[top], o, coin, overwrite)
      case None => None
      case Some(layer) => Some(PutLayer(v, top, layer))
  }

  /** The condition under which adding without leave to overwrite is sound: the outpoint is cached, or
      the parent view has no coin there. */
  predicate AddSafe(v: Views, o: Outpoint, coin: Coin, overwrite: bool)
    requires |v.layers| > 0 && !coin.IsSpent()
  {
    || overwrite || !coin.out.value.spendable
    || o in v.layers[|v.layers| - 1] || View(v, |v.layers| - 1, o) == None
  }

  /** Exactly then the flags stay right; the view gains the coin, and only that. */
  lemma AddSpec(v: Views, o: Outpoint, coin: Coin, overwrite: bool)
    requires |v.layers| > 0 && !coin.IsSpent() && Valid(v)
    ensures var r, n := Add(v, o, coin, overwrite), |v.layers|;
            && (r == None <==> coin.out.value.spendable && !overwrite && o in v.layers[n - 1] && View(v, n, o).Some?)
            && (r.Some? ==> (Valid(r.value) <==> AddSafe(v, o, coin, overwrite)))
            && (r.Some? && coin.out.value.spendable ==>
                  forall x :: View(r.value, n, x) == if x == o then Some(coin) else View(v, n, x))
            && (r.Some? && !coin.out.value.spendable ==> r.value == v)
  {
    var n := |v.layers|;
    var top := v.layers[n - 1];
    assert LayerOk(v, n - 1);
    var r := Add(v, o, coin, overwrite);
    if r.Some? && coin.out.value.spendable {
      var w := r.value;
      var layer := w.layers[n - 1];
      LowerViews(v, w, n - 1);
      assert SameView(v, w, n - 1);
      if AddSafe(v, o, coin, overwrite) {
        ReplaceTopKeeps(v, layer);
      } else {
        assert !EntryOk(layer[o], View(w, n - 1, o));
        assert !LayerOk(w, n - 1);
      }
    }
  }

  function Spend(v: Views, o: Outpoint): (w: Views)
    requires |v.layers| > 0
    ensures |w.layers| == |v.layers|
  {
    var n := |v.layers|;
    var w := Fetch(v, n, o);
    var top := w.layers[n - 1];
    if o !in top then w
    else if top[o].fresh_ then PutLayer(w, n - 1, top - {o})
    else PutEntry(w, n - 1, o, Entry(Empty, true, false))
  }

  /** Spending removes the coin from the view, and only that. */
  lemma SpendSpec(v: Views, o: Outpoint)
    requires |v.layers| > 0 && Valid(v)
    ensures var w, n := Spend(v, o), |v.layers|;
            Valid(w) && forall x :: View(w, n, x) == if x == o then None else View(v, n, x)
  {
    var n := |v.layers|;
    FetchSpec(v, n, o);
    var w := Fetch(v, n, o);
    hide Fetch;
    assert SameView(v, w, n);
    if o in w.layers[n - 1] {
      SpendCached(w, o);
    }
  }

  /** Spending an entry that is cached at the top. */
  lemma SpendCached(w: Views, o: Outpoint)
    requires |w.layers| > 0 && Valid(w) && o in w.layers[|w.layers| - 1]
    ensures var n := |w.layers|;
            var top := w.layers[n - 1];
            var r := if top[o].fresh_ then PutLayer(w, n - 1, top - {o}) else PutEntry(w, n - 1, o, Entry(Empty, true, false));
            Valid(r) && forall x :: View(r, n, x) == if x == o then None else View(w, n, x)
  {
    var n := |w.layers|;
    var top := w.layers[n - 1];
    assert LayerOk(w, n - 1);
    ReplaceTopKeeps(w, if top[o].fresh_ then top - {o} else top[o := Entry(Empty, true, false)]);
  }

  function Uncache(v: Views, o: Outpoint): (w: Views)
    requires |v.layers| > 0
    ensures |w.layers| == |v.layers|
  {
    var n := |v.layers|;
    var top := v.layers[n - 1];
    if o in top && !top[o].dirty && !top[o].fresh_ then PutLayer(v, n - 1, top - {o}) else v
  }

  lemma UncacheSpec(v: Views, o: Outpoint)
    requires |v.layers| > 0 && Valid(v)
    ensures Valid(Uncache(v, o)) && SameView(v, Uncache(v, o), |v.layers|)
  {
    var n := |v.layers|;
    assert LayerOk(v, n - 1);
    if Uncache(v, o) != v {
      ReplaceKeeps(v, n - 1, v.layers[n - 1] - {o});
    }
  }

  // ----- Flushing a layer into its parent

  /** Whether `BatchWrite` would throw on this pair of entries. */
  predicate Misapplied(parent: CoinsMap, o: Outpoint, e: Entry) {
    e.dirty && e.fresh_ && o in parent && !parent[o].coin.IsSpent()
  }

  ghost predicate NoneMisapplied(parent: CoinsMap, child: CoinsMap) {
    forall o :: o in child ==> !Misapplied(parent, o, child[o])
  }

  /** One round of `BatchWrite` into a parent cache. */
  function WriteOne(parent: CoinsMap, o: Outpoint, e: Entry): CoinsMap {
    if !e.dirty then parent
    else if o !in parent then
      (if e.fresh_ && e.coin.IsSpent() then parent else parent[o := Entry(e.coin, true, e.fresh_)])
    else if parent[o].fresh_ && e.coin.IsSpent() then parent - {o}
    else parent[o := Entry(e.coin, true, parent[o].fresh_)]
  }

  /** One round of `BatchWrite` into the database. */
  function WriteDbOne(db: map<Outpoint, Coin>, o: Outpoint, e: Entry): map<Outpoint, Coin> {
    if !e.dirty then db else if e.coin.IsSpent() then db - {o} else db[o := e.coin]
  }

  /** The parent's entry for `o` after the whole child map has been written, in whatever order. */
  function WrittenAt(parent: CoinsMap, child: CoinsMap, o: Outpoint): CoinsMap {
    if o in child then WriteOne(parent, o, child[o]) else parent
  }

  function Written(parent: CoinsMap, child: CoinsMap): CoinsMap {
    map o | o in parent.Keys + child.Keys && o in WrittenAt(parent, child, o) :: WrittenAt(parent, child, o)[o]
  }

  function WrittenDbAt(db: map<Outpoint, Coin>, child: CoinsMap, o: Outpoint): map<Outpoint, Coin> {
    if o in child then WriteDbOne(db, o, child[o]) else db
  }

  function WrittenDb(db: map<Outpoint, Coin>, child: CoinsMap): map<Outpoint, Coin> {
    map o | o in db.Keys + child.Keys && o in WrittenDbAt(db, child, o) :: WrittenDbAt(db, child, o)[o]
  }

  /** One more entry written. */
  lemma WrittenStep(parent: CoinsMap, done: CoinsMap, o: Outpoint, e: Entry)
    requires o !in done
    ensures Written(parent, done[o := e]) == WriteOne(Written(parent, done), o, e)
  {
    var a, b := Written(parent, done[o := e]), WriteOne(Written(parent, done), o, e);
    forall x ensures (x in a <==> x in b) && (x in a ==> a[x] == b[x]) {
      WrittenSpec(parent, done[o := e], x);
      WrittenSpec(parent, done, x);
      WrittenSpec(parent, done, o);
      hide Written;
    }
    assert a == b;
  }

  lemma WrittenDbStep(db: map<Outpoint, Coin>, done: CoinsMap, o: Outpoint, e: Entry)
    requires o !in done
    ensures WrittenDb(db, done[o := e]) == WriteDbOne(WrittenDb(db, done), o, e)
  {
    var a, b := WrittenDb(db, done[o := e]), WriteDbOne(WrittenDb(db, done), o, e);
    forall x ensures x in a <==> x in b {
    }
    forall x | x in a ensures a[x] == b[x] {
    }
  }

  /** Push the changes of the `n`-th layer down and empty it. */
  function Flush(v: Views, n: nat): (w: Views)
    requires 0 < n <= |v.layers|
    ensures |w.layers| == |v.layers|
  {
    var child := v.layers[n - 1];
    if n == 1 then Views(WrittenDb(v.db, child), v.layers[0 := map[]])
    else PutLayer(PutLayer(v, n - 2, Written(v.layers[n - 2], child)), n - 1, map[])
  }

  /** The merge of one outpoint: with right flags on both sides nothing is misapplied, the parent then
      shows what the child showed, and its flags are right again. */
  lemma WriteOneSpec(parent: CoinsMap, child: CoinsMap, o: Outpoint, below: Option<Coin>)
    requires o in parent ==> EntryOk(parent[o], below)
    requires o in child ==> EntryOk(child[o], Seen(parent, o, below))
    ensures o in child ==> !Misapplied(parent, o, child[o])
    ensures var after := WrittenAt(parent, child, o);
            && Seen(after, o, below) == Seen(child, o, Seen(parent, o, below))
            && (o in after ==> EntryOk(after[o], below))
  {
  }

  lemma WrittenSpec(parent: CoinsMap, child: CoinsMap, o: Outpoint)
    ensures var at := WrittenAt(parent, child, o);
            (o in Written(parent, child) <==> o in at) && (o in at ==> Written(parent, child)[o] == at[o])
  {
  }

  lemma FlushToCache(v: Views, n: nat, o: Outpoint)
    requires 1 < n <= |v.layers| && Valid(v)
    ensures o in v.layers[n - 1] ==> !Misapplied(v.layers[n - 2], o, v.layers[n - 1][o])
    ensures var w := Flush(v, n);
            && View(w, n - 2, o) == View(v, n - 2, o) && View(w, n - 1, o) == View(v, n, o) == View(w, n, o)
            && (o in w.layers[n - 2] ==> EntryOk(w.layers[n - 2][o], View(w, n - 2, o)))
  {
    var w := Flush(v, n);
    assert LayerOk(v, n - 1) && LayerOk(v, n - 2);
    LowerView(v, w, n - 2, n - 2, o);
    WriteOneSpec(v.layers[n - 2], v.layers[n - 1], o, View(v, n - 2, o));
    WrittenSpec(v.layers[n - 2], v.layers[n - 1], o);
    hide Written;
    hide WrittenAt;
  }

  lemma FlushToDb(v: Views, o: Outpoint)
    requires 1 <= |v.layers| && Valid(v)
    ensures var w := Flush(v, 1); View(w, 0, o) == View(v, 1, o) == View(w, 1, o)
  {
    assert LayerOk(v, 0);
  }

  /** `Flush` never throws; it hands the parent the child's view, leaves that view and all above it
      as they were, and the flags are right at every level. */
  lemma FlushSpec(v: Views, n: nat)
    requires 0 < n <= |v.layers| && Valid(v)
    ensures n > 1 ==> NoneMisapplied(v.layers[n - 2], v.layers[n - 1])
    ensures var w := Flush(v, n);
            && Valid(w) && (forall o :: View(w, n - 1, o) == View(v, n, o))
            && forall m :: n <= m <= |v.layers| ==> SameView(v, w, m)
  {
    var w := Flush(v, n);
    forall o ensures View(w, n - 1, o) == View(v, n, o) == View(w, n, o) {
      if n > 1 {
        FlushToCache(v, n, o);
      } else {
        FlushToDb(v, o);
      }
    }
    if n > 1 {
      var child, parent, merged := v.layers[n - 1], v.layers[n - 2], w.layers[n - 2];
      forall o ensures o in child ==> !Misapplied(parent, o, child[o]) {
        FlushToCache(v, n, o);
      }
      forall o ensures o in merged ==> EntryOk(merged[o], View(w, n - 2, o)) {
        FlushToCache(v, n, o);
      }
      assert LayerOk(w, n - 2);
      LowerViews(v, w, n - 2);
    }
    assert SameView(v, w, n);
    UpperViews(v, w, n);
    forall k | 0 <= k < |w.layers| ensures LayerOk(w, k) {
      assert LayerOk(v, k);
      if k < n - 2 || k >= n {
        assert SameView(v, w, k);
        assert w.layers[k] == v.layers[k];
      } else if k == n - 1 {
        assert w.layers[k] == map[];
      }
    }
  }

  // ----- Whole runs

  datatype Op =
    | OpGet(n: nat, o: Outpoint)
    | OpAdd(o: Outpoint, coin: Coin, overwrite: bool)
    | OpSpend(o: Outpoint)
    | OpUncache(o: Outpoint)
    | OpFlush(n: nat)

  /** An operation that names existing layers, adds unspent coins, and says when it may overwrite. */
  predicate Allowed(v: Views, op: Op) {
    match op
    case OpGet(n, _) => n <= |v.layers|
    case OpAdd(o, coin, overwrite) => !coin.IsSpent() && (overwrite || View(v, |v.layers|, o) == None)
    case OpFlush(n) => 0 < n <= |v.layers|
    case _ => true
  }

  /** The new state, and the answer of a read. */
  function Step(v: Views, op: Op): (r: (Views, Option<Coin>))
    requires |v.layers| > 0 && Valid(v) && Allowed(v, op)
    ensures |r.0.layers| == |v.layers|
  {
    match op
    case OpGet(n, o) => var (w, found, coin) := Get(v, n, o); (w, if found then Unspent(coin) else None)
    case OpAdd(o, coin, overwrite) =>
      AddSpec(v, o, coin, overwrite);
      (Add(v, o, coin, overwrite).value, None)
    case OpSpend(o) => (Spend(v, o), None)
    case OpUncache(o) => (Uncache(v, o), None)
    case OpFlush(n) => (Flush(v, n), None)
  }

  type Flat = map<Outpoint, Coin>

  function Lookup(m: Flat, o: Outpoint): Option<Coin> {
    if o in m then Some(m[o]) else None
  }

  /** The same operation on one flat map. */
  function FlatStep(m: Flat, op: Op): Flat {
    match op
    case OpAdd(o, coin, _) => if !coin.IsSpent() && coin.out.value.spendable then m[o := coin] else m
    case OpSpend(o) => m - {o}
    case _ => m
  }

  /** The top view is the flat map. */
  ghost predicate Shows(v: Views, m: Flat) {
    forall o :: View(v, |v.layers|, o) == Lookup(m, o)
  }

  /** Every operation keeps the flags right and does to the top view what it does to the flat map; a
      read at the top answers from the flat map. */
  lemma StepRefines(v: Views, op: Op, m: Flat)
    requires |v.layers| > 0 && Valid(v) && Allowed(v, op) && Shows(v, m)
    ensures var (w, answer) := Step(v, op);
            && Valid(w) && Shows(w, FlatStep(m, op))
            && (op.OpGet? && op.n == |v.layers| ==> answer == Lookup(m, op.o))
  {
    var n := |v.layers|;
    match op
    case OpGet(k, o) => GetSpec(v, k, o); assert SameView(v, Step(v, op).0, n); hide Get;
    case OpAdd(o, coin, overwrite) => AddSpec(v, o, coin, overwrite); hide Add;
    case OpSpend(o) => SpendSpec(v, o); hide Spend;
    case OpUncache(o) => UncacheSpec(v, o); hide Uncache;
    case OpFlush(k) => FlushSpec(v, k); assert SameView(v, Step(v, op).0, n); hide Flush;
  }

  /** The final state and the answers of a run; it stops at an operation that is not allowed. */
  function Run(v: Views, ops: seq<Op>): (r: (Views, seq<Option<Coin>>))
    requires |v.layers| > 0 && Valid(v)
    ensures |r.0.layers| == |v.layers|
    decreases |ops|
  {
    if ops == [] || !Allowed(v, ops[0]) then (v, []) else
      var (w, answer) := Step(v, ops[0]);
      StepValid(v, ops[0]);
      var (u, answers) := Run(w, ops[1..]);
      (u, [answer] + answers)
  }

  lemma StepValid(v: Views, op: Op)
    requires |v.layers| > 0 && Valid(v) && Allowed(v, op)
    ensures Valid(Step(v, op).0)
  {
    match op
    case OpGet(k, o) => GetSpec(v, k, o);
    case OpAdd(o, coin, overwrite) => AddSpec(v, o, coin, overwrite);
    case OpSpend(o) => SpendSpec(v, o);
    case OpUncache(o) => UncacheSpec(v, o);
    case OpFlush(k) => FlushSpec(v, k);
  }

  function FlatRun(m: Flat, ops: seq<Op>): Flat
    decreases |ops|
  {
    if ops == [] then m else FlatRun(FlatStep(m, ops[0]), ops[1..])
  }

  /** Any run over any stack leaves the top view equal to the flat map after the same operations, and
      every read at the top answers as that map does at that moment. */
  lemma {:induction false} RunRefines(v: Views, ops: seq<Op>, m: Flat)
    requires |v.layers| > 0 && Valid(v) && Shows(v, m)
    ensures var (w, answers) := Run(v, ops);
            && |answers| <= |ops| && Valid(w) && Shows(w, FlatRun(m, ops[..|answers|]))
            && forall i :: 0 <= i < |answers| && ops[i].OpGet? && ops[i].n == |v.layers| ==>
                 answers[i] == Lookup(FlatRun(m, ops[..i]), ops[i].o)
    decreases |ops|
  {
    if ops != [] && Allowed(v, ops[0]) {
      StepRefines(v, ops[0], m);
      var w := Step(v, ops[0]).0;
      var rest := ops[1..];
      var m' := FlatStep(m, ops[0]);
      hide Valid;
      hide Shows;
      hide Step;
      hide FlatStep;
      RunRefines(w, rest, m');
      var answers := Run(v, ops).1;
      forall i | 0 < i <= |answers| ensures ops[..i][0] == ops[0] && ops[..i][1..] == rest[..i - 1] {
      }
      forall i | 0 <= i < |answers| && ops[i].OpGet? && ops[i].n == |v.layers|
        ensures answers[i] == Lookup(FlatRun(m, ops[..i]), ops[i].o)
      {
        if i > 0 {
          assert ops[i] == rest[i - 1] && answers[i] == Run(w, rest).1[i - 1];
        }
      }
    }
  }

  /** New caches over any database start right, showing the unspent coins of the database. */
  lemma {:induction false} StartShows(db: map<Outpoint, Coin>, n: nat, m: Flat)
    requires m == map o | o in db && !db[o].IsSpent() :: db[o]
    ensures var v := Views(db, seq(n, _ => map[])); Valid(v) && Shows(v, m)
  {
    var v := Views(db, seq(n, _ => map[]));
    forall o ensures View(v, n, o) == Lookup(m, o) {
      for k := 0 to n
        invariant View(v, k, o) == Lookup(m, o)
      {
      }
    }
  }

  /** The stack in place. */
  class CoinsCaches {
    var db: map<Outpoint, Coin>
    var layers: seq<CoinsMap>

    ghost function Abs(): Views
      reads this
    {
      Views(db, layers)
    }

    constructor (db: map<Outpoint, Coin>, n: nat)
      ensures Abs() == Views(db, seq(n, _ => map[])) && Valid(Abs())
    {
      this.db := db;
      layers := seq(n, _ => map[]);
      new;
      StartShows(db, n, map o | o in db && !db[o].IsSpent() :: db[o]);
    }

    method FetchCoin(n: nat, o: Outpoint)
      requires 0 < n <= |layers|
      modifies this
      ensures Abs() == Fetch(old(Abs()), n, o)
      decreases n, 0
    {
      if o in layers[n - 1] {
        return;
      }
      var found, coin := GetCoin(n - 1, o);
      if !found {
        return;
      }
      var entry := Entry(coin, false, false);
      if coin.IsSpent() {
        entry := entry.(fresh_ := true);
      }
      layers := layers[n - 1 := layers[n - 1][o := entry]];
    }

    method GetCoin(n: nat, o: Outpoint) returns (found: bool, coin: Coin)
      requires n <= |layers|
      modifies this
      ensures (Abs(), found, coin) == Get(old(Abs()), n, o)
      decreases n, 1
    {
      coin := Empty;
      if n == 0 {
        found := o in db;
        if found {
          coin := db[o];
        }
        return;
      }
      FetchCoin(n, o);
      if o in layers[n - 1] {
        coin := layers[n - 1][o].coin;
        found := !coin.IsSpent();
      } else {
        found := false;
      }
    }

    /** Add at the top; `ok` is false where the source throws. */
    method AddCoin(o: Outpoint, coin: Coin, possibleOverwrite: bool) returns (ok: bool)
      requires |layers| > 0 && !coin.IsSpent()
      modifies this
      ensures ok == Add(old(Abs()), o, coin, possibleOverwrite).Some?
      ensures ok ==> Abs() == Add(old(Abs()), o, coin, possibleOverwrite).value
    {
      if !coin.out.value.spendable {
        return true;
      }
      var top := |layers| - 1;
      var entry := if o in layers[top] then layers[top][o] else Entry(Empty, false, false);
      var isFresh := false;
      if !possibleOverwrite {
        if !entry.coin.IsSpent() {
          return false;
        }
        isFresh := !entry.dirty;
      }
      layers := layers[top := layers[top][o := Entry(coin, true, entry.fresh_ || isFresh)]];
      ok := true;
    }

    /** Spend at the top; the moved-out coin is what the view showed, when it showed one. An entry in the cache makes
        the answer true even if it is spent already. */
    method SpendCoin(o: Outpoint) returns (r: bool, moveout: Coin)
      requires |layers| > 0 && Valid(Abs())
      modifies this
      ensures Abs() == Spend(old(Abs()), o)
      ensures View(old(Abs()), |old(layers)|, o).Some? ==> r && Some(moveout) == View(old(Abs()), |old(layers)|, o)
      ensures View(old(Abs()), |old(layers)|, o).None? ==>
                moveout.IsSpent() && (r <==> o in old(layers[|layers| - 1]) || (|old(layers)| == 1 && o in old(db)))
    {
      FetchSpec(Abs(), |layers|, o);
      if View(Abs(), |layers|, o) == None {
        FetchFinds(Abs(), |layers|, o);
      }
      FetchCoin(|layers|, o);
      var top := |layers| - 1;
      if o !in layers[top] {
        return false, Empty;
      }
      moveout := layers[top][o].coin;
      if layers[top][o].fresh_ {
        layers := layers[top := layers[top] - {o}];
      } else {
        layers := layers[top := layers[top][o := Entry(Empty, true, layers[top][o].fresh_)]];
      }
      r := true;
    }

    method UncacheCoin(o: Outpoint)
      requires |layers| > 0
      modifies this
      ensures Abs() == Uncache(old(Abs()), o)
    {
      var top := |layers| - 1;
      if o in layers[top] && !layers[top][o].dirty && !layers[top][o].fresh_ {
        layers := layers[top := layers[top] - {o}];
      }
    }

    /** One round of the loop. */
    method WriteEntry(n: nat, o: Outpoint, entry: Entry) returns (ok: bool)
      requires 0 < n <= |layers|
      modifies this
      ensures ok == !Misapplied(old(layers[n - 1]), o, entry)
      ensures ok ==> Abs() == PutLayer(old(Abs()), n - 1, WriteOne(old(layers[n - 1]), o, entry))
    {
      var us := layers[n - 1];
      if entry.dirty {
        if o !in us {
          if !(entry.fresh_ && entry.coin.IsSpent()) {
            us := us[o := Entry(entry.coin, true, entry.fresh_)];
          }
        } else {
          if entry.fresh_ && !us[o].coin.IsSpent() {
            return false;
          }
          if us[o].fresh_ && entry.coin.IsSpent() {
            us := us - {o};
          } else {
            us := us[o := Entry(entry.coin, true, us[o].fresh_)];
          }
        }
      }
      layers := layers[n - 1 := us];
      ok := true;
    }

    /** The consuming loop over the child's map, into the cache at height `n`; `ok` is false where the source throws. */
    method BatchWrite(n: nat, child: CoinsMap) returns (ok: bool)
      requires 0 < n <= |layers|
      modifies this
      ensures ok <==> NoneMisapplied(old(layers[n - 1]), child)
      ensures ok ==> Abs() == PutLayer(old(Abs()), n - 1, Written(old(layers[n - 1]), child))
    {
      ghost var parent := layers[n - 1];
      var mapCoins := child;
      ghost var done: CoinsMap := map[];
      WrittenNone(parent);
      assert layers[n - 1 := parent] == layers;
      while mapCoins != map[]
        invariant mapCoins.Keys !! done.Keys && mapCoins.Keys + done.Keys == child.Keys
        invariant forall o :: o in mapCoins ==> mapCoins[o] == child[o]
        invariant forall o :: o in done ==> done[o] == child[o]
        invariant Abs() == PutLayer(old(Abs()), n - 1, Written(parent, done))
        invariant NoneMisapplied(parent, done)
        decreases mapCoins.Keys
      {
        var o :| o in mapCoins;
        var entry := mapCoins[o];
        WrittenStep(parent, done, o, entry);
        WrittenUntouched(parent, done, o);
        hide Written;
        ok := WriteEntry(n, o, entry);
        if !ok {
          return;
        }
        hide WriteOne;
        done := done[o := entry];
        mapCoins := mapCoins - {o};
      }
      assert done == child;
      ok := true;
    }

    method BatchWriteDb(child: CoinsMap)
      modifies this`db
      ensures db == WrittenDb(old(db), child)
    {
      var mapCoins := child;
      ghost var done: CoinsMap := map[];
      assert WrittenDb(db, done) == db;
      while mapCoins != map[]
        invariant mapCoins.Keys !! done.Keys && mapCoins.Keys + done.Keys == child.Keys
        invariant forall o :: o in mapCoins ==> mapCoins[o] == child[o]
        invariant forall o :: o in done ==> done[o] == child[o]
        invariant db == WrittenDb(old(db), done)
        decreases mapCoins.Keys
      {
        var o :| o in mapCoins;
        var entry := mapCoins[o];
        WrittenDbStep(old(db), done, o, entry);
        hide WrittenDb;
        if entry.dirty {
          if entry.coin.IsSpent() {
            db := db - {o};
          } else {
            db := db[o := entry.coin];
          }
        }
        done := done[o := entry];
        mapCoins := mapCoins - {o};
      }
      assert done == child;
    }

    method FlushLayer(n: nat) returns (ok: bool)
      requires 0 < n <= |layers| && Valid(Abs())
      modifies this
      ensures ok && Abs() == Flush(old(Abs()), n)
    {
      FlushSpec(Abs(), n);
      hide NoneMisapplied;
      hide Valid;
      if n == 1 {
        BatchWriteDb(layers[0]);
        ok := true;
      } else {
        ok := BatchWrite(n - 1, layers[n - 1]);
      }
      layers := layers[n - 1 := map[]];
    }
  }

  lemma WrittenNone(parent: CoinsMap)
    ensures Written(parent, map[]) == parent
  {
  }

  lemma WrittenUntouched(parent: CoinsMap, done: CoinsMap, o: Outpoint)
    requires o !in done
    ensures o in Written(parent, done) <==> o in parent
    ensures o in parent ==> Written(parent, done)[o] == parent[o]
  {
  }
}
