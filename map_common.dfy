/**
 * Values and operations that both versions of the map component
 * (src/avl-map.jsx and src/avl-map.js) share: object identities, the
 * per-layer loading counters, the modal stack, the insertion-ordered hover
 * map, the stable sort by `sortOrder`, pinned hover records, and the
 * `Modals` and `mapActions` selections, which the two files write identically.
 */
module MapCommon {

  datatype Option<T> = None | Some(value: T)

  type LayerId = string

  /**
   * The identity of a JavaScript object. `External` objects come from the
   * host (layer objects, layer states, props, markers); `Allocated` objects
   * are object literals such as `{}` that the component itself creates.
   * `!==` and `includes` compare these tokens.
   */
  datatype Ref = External(n: nat) | Allocated(n: nat)

  /** What `get(obj, key, null)` reads: `Null` for a missing key. */
  datatype Nullable = Null | Object(ref: Ref)

  function Lookup(m: map<LayerId, Ref>, id: LayerId): Nullable
  {
    if id in m then Object(m[id]) else Null
  }

  /**
   * The parts of a layer object the map component reads. `ref` is the
   * object's identity; `state` is the identity of `layer.state` when the
   * record was taken; `modals` maps a modal key to its descriptor;
   * `mapActions` lists the layer's standalone action descriptors.
   */
  datatype LayerRec = LayerRec(ref: Ref, id: LayerId, setActive: bool, state: Ref,
                               modals: map<string, Ref>, mapActions: seq<Ref>)

  /** A map style entry (`imageUrl` is not modelled). */
  datatype MapStyle = MapStyle(name: string, style: string)

  /**
   * The world outside the state that a reducer step touches: the module's
   * `idCounter` behind `getUniqueId`, and the allocation of fresh objects.
   */
  datatype Env = Env(uniqueIds: nat, allocations: nat)

  /** Effects on markers that a reducer step performs. */
  datatype Effect = AddMarkerTo(marker: Ref, mapHandle: Nullable) | RemoveMarker(marker: Ref)

  function Max(a: int, b: int): int { if a < b then b else a }

  // ---------------------------------------------------------------------
  // Loading counters

  /** The counter of `id`, reading an absent one as 0 (`get(..., 0)`). */
  function Count(counters: map<LayerId, int>, id: LayerId): int
  {
    if id in counters then counters[id] else 0
  }

  /** `loading-start`: one more pending operation for `id`. */
  function StartLoading(counters: map<LayerId, int>, id: LayerId): (r: map<LayerId, int>)
    ensures r.Keys == counters.Keys + {id}
    ensures r[id] == Count(counters, id) + 1
    ensures forall k :: k in counters && k != id ==> r[k] == counters[k]
  {
    counters[id := Count(counters, id) + 1]
  }

  /** `loading-stop`: `Math.max(0, c - 1)`; the key must be present (otherwise JS computes NaN). */
  function StopLoading(counters: map<LayerId, int>, id: LayerId): (r: map<LayerId, int>)
    requires id in counters
    ensures r.Keys == counters.Keys
    ensures r[id] >= 0
    ensures counters[id] >= 1 ==> r[id] == counters[id] - 1
    ensures counters[id] < 1 ==> r[id] == 0
    ensures forall k :: k in counters && k != id ==> r[k] == counters[k]
  {
    counters[id := Max(0, counters[id] - 1)]
  }

  predicate NonNegative(counters: map<LayerId, int>)
  {
    forall k :: k in counters ==> counters[k] >= 0
  }

  /** A run of loading events for one id: `true` is a start, `false` a stop. */
  function ApplyLoading(counters: map<LayerId, int>, id: LayerId, ops: seq<bool>): (r: map<LayerId, int>)
    requires id in counters || ops == [] || ops[0]
    ensures ops != [] ==> id in r
    ensures forall k :: k in counters && k != id ==> k in r && r[k] == counters[k]
    decreases |ops|
  {
    if ops == [] then counters
    else if ops[0] then ApplyLoading(StartLoading(counters, id), id, ops[1..])
    else ApplyLoading(StopLoading(counters, id), id, ops[1..])
  }

  /** Starts minus stops. */
  function Net(ops: seq<bool>): int
  {
    if ops == [] then 0 else (if ops[0] then 1 else -1) + Net(ops[1..])
  }

  /** No stop in `ops` finds the counter (starting at `v`) at zero or below. */
  predicate NeverClamps(v: int, ops: seq<bool>)
    decreases |ops|
  {
    ops == [] || (ops[0] && NeverClamps(v + 1, ops[1..])) || (!ops[0] && v >= 1 && NeverClamps(v - 1, ops[1..]))
  }

  /** Without clamping, the counter moves by exactly starts minus stops. */
  lemma {:induction false} LoadingNet(counters: map<LayerId, int>, id: LayerId, ops: seq<bool>)
    requires id in counters || ops == [] || ops[0]
    requires NeverClamps(Count(counters, id), ops)
    ensures Count(ApplyLoading(counters, id, ops), id) == Count(counters, id) + Net(ops)
    decreases |ops|
  {
    if ops != [] {
      var next := if ops[0] then StartLoading(counters, id) else StopLoading(counters, id);
      assert Count(next, id) == Count(counters, id) + (if ops[0] then 1 else -1);
      LoadingNet(next, id, ops[1..]);
    }
  }

  function Repeat(b: bool, n: nat): (r: seq<bool>)
    ensures |r| == n && forall i :: 0 <= i < n ==> r[i] == b
  {
    if n == 0 then [] else [b] + Repeat(b, n - 1)
  }

  lemma {:induction false} StopsNeverClamp(v: int, n: nat)
    requires v >= n
    ensures NeverClamps(v, Repeat(false, n)) && Net(Repeat(false, n)) + n == 0
  {
    if n > 0 {
      assert Repeat(false, n)[1..] == Repeat(false, n - 1);
      StopsNeverClamp(v - 1, n - 1);
    }
  }

  lemma {:induction false} StartsThenStopsNeverClamp(v: int, m: nat, n: nat)
    requires v + m >= n
    ensures NeverClamps(v, Repeat(true, m) + Repeat(false, n))
    ensures Net(Repeat(true, m) + Repeat(false, n)) == m - n
    decreases m
  {
    if m == 0 {
      assert Repeat(true, m) + Repeat(false, n) == Repeat(false, n);
      StopsNeverClamp(v, n);
    } else {
      assert (Repeat(true, m) + Repeat(false, n))[1..] == Repeat(true, m - 1) + Repeat(false, n);
      StartsThenStopsNeverClamp(v + 1, m - 1, n);
    }
  }

  /** N `loading-start`s followed by N `loading-stop`s give the counter back its old value (0 if it was absent). */
  lemma StartsThenStopsRestore(counters: map<LayerId, int>, id: LayerId, n: nat)
    requires Count(counters, id) >= 0
    ensures var r := ApplyLoading(counters, id, Repeat(true, n) + Repeat(false, n));
            Count(r, id) == Count(counters, id) &&
            forall k :: k in counters && k != id ==> k in r && r[k] == counters[k]
  {
    StartsThenStopsNeverClamp(Count(counters, id), n, n);
    LoadingNet(counters, id, Repeat(true, n) + Repeat(false, n));
  }

  /**
   * The clamp makes the counter depend on the order of events: a stop on a
   * zero counter followed by a start leaves 1, although starts and stops balance.
   */
  lemma StopBeforeStartLeavesOne(id: LayerId)
    ensures Count(ApplyLoading(map[id := 0], id, [false, true]), id) == 1
    ensures Net([false, true]) == 0
  {
    var after := ApplyLoading(map[id := 0], id, [false, true]);
    assert [false, true][1..] == [true];
    assert [true][1..] == [];
    assert after == StartLoading(StopLoading(map[id := 0], id), id);
  }

  // ---------------------------------------------------------------------
  // Modal stack

  datatype ModalEntry = ModalEntry(layerId: LayerId, modalKey: string, zIndex: int)

  predicate Matches(md: ModalEntry, layerId: LayerId, modalKey: string)
  {
    md.layerId == layerId && md.modalKey == modalKey
  }

  /** The `reduce((a, c) => a || matches(c), false)` of `show-modal`. */
  function AnyMatch(mds: seq<ModalEntry>, layerId: LayerId, modalKey: string): (b: bool)
    ensures b <==> exists i :: 0 <= i < |mds| && Matches(mds[i], layerId, modalKey)
  {
    if mds == [] then false
    else AnyMatch(mds[..|mds| - 1], layerId, modalKey) || Matches(mds[|mds| - 1], layerId, modalKey)
  }

  /** No two entries share a `(layerId, modalKey)` pair. */
  predicate UniquePairs(mds: seq<ModalEntry>)
  {
    forall i, j :: 0 <= i < j < |mds| ==>
      !(mds[i].layerId == mds[j].layerId && mds[i].modalKey == mds[j].modalKey)
  }

  function PushModal(mds: seq<ModalEntry>, layerId: LayerId, modalKey: string): seq<ModalEntry>
  {
    if AnyMatch(mds, layerId, modalKey) then mds else mds + [ModalEntry(layerId, modalKey, 0)]
  }

  function RaiseModal(mds: seq<ModalEntry>, layerId: LayerId, modalKey: string): seq<ModalEntry>
  {
    seq(|mds|, i requires 0 <= i < |mds| =>
      mds[i].(zIndex := if Matches(mds[i], layerId, modalKey) then 10 else 0))
  }

  function DropModal(mds: seq<ModalEntry>, layerId: LayerId, modalKey: string): (r: seq<ModalEntry>)
    ensures |r| <= |mds|
    ensures forall e :: e in r <==> e in mds && !Matches(e, layerId, modalKey)
  {
    if mds == [] then []
    else (if Matches(mds[0], layerId, modalKey) then [] else [mds[0]]) + DropModal(mds[1..], layerId, modalKey)
  }

  /**
   * `show-modal` keeps the stack free of duplicate pairs, leaves it unchanged
   * when the pair is already present, appends one entry with zIndex 0
   * otherwise, and is idempotent.
   */
  lemma PushModalSpec(mds: seq<ModalEntry>, layerId: LayerId, modalKey: string)
    ensures var r := PushModal(mds, layerId, modalKey);
            && (UniquePairs(mds) ==> UniquePairs(r))
            && AnyMatch(r, layerId, modalKey)
            && (AnyMatch(mds, layerId, modalKey) ==> r == mds)
            && (!AnyMatch(mds, layerId, modalKey) ==> r == mds + [ModalEntry(layerId, modalKey, 0)])
            && PushModal(r, layerId, modalKey) == r
  {
    var r := PushModal(mds, layerId, modalKey);
    assert Matches(r[|r| - 1], layerId, modalKey) || AnyMatch(mds, layerId, modalKey);
  }

  /** Showing a pair twice leaves exactly one entry for it when the stack had unique pairs. */
  lemma {:induction false} PushTwiceOneEntry(mds: seq<ModalEntry>, layerId: LayerId, modalKey: string)
    requires UniquePairs(mds)
    ensures var r := PushModal(PushModal(mds, layerId, modalKey), layerId, modalKey);
            exists i :: 0 <= i < |r| && Matches(r[i], layerId, modalKey) &&
              forall j :: 0 <= j < |r| && j != i ==> !Matches(r[j], layerId, modalKey)
  {
    PushModalSpec(mds, layerId, modalKey);
    var r := PushModal(mds, layerId, modalKey);
    var i :| 0 <= i < |r| && Matches(r[i], layerId, modalKey);
    forall j | 0 <= j < |r| && j != i ensures !Matches(r[j], layerId, modalKey) {
      if j < i { assert !(r[j].layerId == r[i].layerId && r[j].modalKey == r[i].modalKey); }
      else { assert !(r[i].layerId == r[j].layerId && r[i].modalKey == r[j].modalKey); }
    }
  }

  /** `close-modal` is a filter: it works entry by entry, so it keeps the order of the rest. */
  lemma {:induction false} DropModalDistributes(a: seq<ModalEntry>, b: seq<ModalEntry>, layerId: LayerId, modalKey: string)
    ensures DropModal(a + b, layerId, modalKey) == DropModal(a, layerId, modalKey) + DropModal(b, layerId, modalKey)
  {
    if a == [] {
      assert a + b == b;
    } else {
      assert (a + b)[0] == a[0];
      assert (a + b)[1..] == a[1..] + b;
      DropModalDistributes(a[1..], b, layerId, modalKey);
    }
  }

  /** After `close-modal` no entry matches the pair. */
  lemma DropModalRemovesPair(mds: seq<ModalEntry>, layerId: LayerId, modalKey: string)
    ensures !AnyMatch(DropModal(mds, layerId, modalKey), layerId, modalKey)
  {
    var r := DropModal(mds, layerId, modalKey);
    forall i | 0 <= i < |r| ensures !Matches(r[i], layerId, modalKey) {
      assert r[i] in r;
    }
  }

  /** Closing a pair that is not open changes nothing. */
  lemma {:induction false} DropModalAbsent(mds: seq<ModalEntry>, layerId: LayerId, modalKey: string)
    requires !AnyMatch(mds, layerId, modalKey)
    ensures DropModal(mds, layerId, modalKey) == mds
    decreases |mds|
  {
    if mds != [] {
      assert !Matches(mds[0], layerId, modalKey);
      forall i | 0 <= i < |mds[1..]| ensures !Matches(mds[1..][i], layerId, modalKey) {
        assert mds[1..][i] == mds[i + 1];
      }
      DropModalAbsent(mds[1..], layerId, modalKey);
      assert mds == [mds[0]] + mds[1..];
    }
  }

  /** Closing a pair that was just shown gives back the stack as it was. */
  lemma DropUndoesPush(mds: seq<ModalEntry>, layerId: LayerId, modalKey: string)
    requires !AnyMatch(mds, layerId, modalKey)
    ensures DropModal(PushModal(mds, layerId, modalKey), layerId, modalKey) == mds
  {
    var e := ModalEntry(layerId, modalKey, 0);
    DropModalDistributes(mds, [e], layerId, modalKey);
    DropModalAbsent(mds, layerId, modalKey);
    assert DropModal([e], layerId, modalKey) == [] by {
      assert [e][1..] == [];
    }
  }

  lemma {:induction false} DropModalKeepsUnique(mds: seq<ModalEntry>, layerId: LayerId, modalKey: string)
    requires UniquePairs(mds)
    ensures UniquePairs(DropModal(mds, layerId, modalKey))
    decreases |mds|
  {
    if mds != [] {
      DropModalKeepsUnique(mds[1..], layerId, modalKey);
      var rest := DropModal(mds[1..], layerId, modalKey);
      var r := DropModal(mds, layerId, modalKey);
      if !Matches(mds[0], layerId, modalKey) {
        forall j | 0 <= j < |rest|
          ensures !(mds[0].layerId == rest[j].layerId && mds[0].modalKey == rest[j].modalKey)
        {
          assert rest[j] in mds[1..];
          var k :| 0 <= k < |mds[1..]| && mds[1..][k] == rest[j];
          assert mds[k + 1] == rest[j];
        }
        assert r == [mds[0]] + rest;
      }
    }
  }

  /**
   * `bring-modal-to-front` keeps the length, the order and every pair, gives
   * the matching entry zIndex 10 and every other entry 0.
   */
  lemma RaiseModalSpec(mds: seq<ModalEntry>, layerId: LayerId, modalKey: string)
    ensures var r := RaiseModal(mds, layerId, modalKey);
            && |r| == |mds|
            && (forall i :: 0 <= i < |r| ==>
                  r[i].layerId == mds[i].layerId && r[i].modalKey == mds[i].modalKey &&
                  (r[i].zIndex == 10 <==> Matches(mds[i], layerId, modalKey)) &&
                  (r[i].zIndex == 10 || r[i].zIndex == 0))
            && (UniquePairs(mds) ==> UniquePairs(r))
  {
  }

  // ---------------------------------------------------------------------
  // The hover map `hoverData.data`: a JS Map keyed by layer id, iterated in insertion order

  datatype Entry<V> = Entry(key: LayerId, value: V)

  function KeysOf<V(==)>(m: seq<Entry<V>>): set<LayerId>
  {
    set e | e in m :: e.key
  }

  predicate UniqueKeys<V>(m: seq<Entry<V>>)
  {
    forall i, j :: 0 <= i < j < |m| ==> m[i].key != m[j].key
  }

  function ValuesOf<V>(m: seq<Entry<V>>): (r: seq<V>)
    ensures |r| == |m| && forall i :: 0 <= i < |m| ==> r[i] == m[i].value
  {
    seq(|m|, i requires 0 <= i < |m| => m[i].value)
  }

  /** `Map.prototype.set`: replace the value of a present key in place, or append a new key. */
  function SetEntry<V>(m: seq<Entry<V>>, k: LayerId, v: V): seq<Entry<V>>
  {
    if m == [] then [Entry(k, v)]
    else if m[0].key == k then [Entry(k, v)] + m[1..]
    else [m[0]] + SetEntry(m[1..], k, v)
  }

  lemma KeysOfCons<V>(m: seq<Entry<V>>)
    requires m != []
    ensures KeysOf(m) == {m[0].key} + KeysOf(m[1..])
  {
    forall key | key in KeysOf(m) ensures key in {m[0].key} + KeysOf(m[1..]) {
      var e :| e in m && e.key == key;
      if e != m[0] { assert e in m[1..]; }
    }
    assert m == [m[0]] + m[1..];
  }

  /** Setting a new key appends it. */
  lemma {:induction false} SetEntryAbsent<V>(m: seq<Entry<V>>, k: LayerId, v: V)
    requires k !in KeysOf(m)
    ensures SetEntry(m, k, v) == m + [Entry(k, v)]
    decreases |m|
  {
    if m != [] {
      KeysOfCons(m);
      SetEntryAbsent(m[1..], k, v);
      assert [m[0]] + (m[1..] + [Entry(k, v)]) == m + [Entry(k, v)];
    }
  }

  /** Setting a present key replaces the value of its first entry in place. */
  lemma {:induction false} SetEntryPresent<V>(m: seq<Entry<V>>, k: LayerId, v: V, i: nat)
    requires i < |m| && m[i].key == k
    requires forall j :: 0 <= j < i ==> m[j].key != k
    ensures SetEntry(m, k, v) == m[i := Entry(k, v)]
    decreases i
  {
    if i > 0 {
      SetEntryPresent(m[1..], k, v, i - 1);
      assert [m[0]] + m[1..][i - 1 := Entry(k, v)] == m[i := Entry(k, v)];
    }
  }

  /** Setting a present key keeps the keys and keeps them unique. */
  lemma SetPresentKeys<V>(m: seq<Entry<V>>, k: LayerId, v: V)
    requires UniqueKeys(m) && k in KeysOf(m)
    ensures UniqueKeys(SetEntry(m, k, v))
    ensures KeysOf(SetEntry(m, k, v)) == KeysOf(m)
  {
    var e :| e in m && e.key == k;
    var i :| 0 <= i < |m| && m[i] == e;
    SetEntryPresent(m, k, v, i);
    var r := SetEntry(m, k, v);
    forall key | key in KeysOf(r) ensures key in KeysOf(m) {
      var d :| d in r && d.key == key;
      var j :| 0 <= j < |r| && r[j] == d;
      assert m[j] in m;
    }
    forall key | key in KeysOf(m) ensures key in KeysOf(r) {
      var d :| d in m && d.key == key;
      var j :| 0 <= j < |m| && m[j] == d;
      assert r[j] in r;
    }
  }

  /** Setting a new key adds it and keeps the keys unique. */
  lemma SetAbsentKeys<V>(m: seq<Entry<V>>, k: LayerId, v: V)
    requires UniqueKeys(m) && k !in KeysOf(m)
    ensures UniqueKeys(SetEntry(m, k, v))
    ensures KeysOf(SetEntry(m, k, v)) == KeysOf(m) + {k}
  {
    SetEntryAbsent(m, k, v);
    var r := SetEntry(m, k, v);
    forall key | key in KeysOf(r) ensures key in KeysOf(m) + {k} {
      var d :| d in r && d.key == key;
      var j :| 0 <= j < |r| && r[j] == d;
      if j < |m| { assert m[j] in m; }
    }
    forall key | key in KeysOf(m) + {k} ensures key in KeysOf(r) {
      if key != k {
        var d :| d in m && d.key == key;
        var j :| 0 <= j < |m| && m[j] == d;
        assert r[j] in r;
      } else {
        assert r[|m|] in r;
      }
    }
    forall j | 0 <= j < |m| ensures m[j].key != k {
      assert m[j] in m;
    }
  }

  /** Setting a key keeps keys unique. */
  lemma SetEntryUnique<V>(m: seq<Entry<V>>, k: LayerId, v: V)
    requires UniqueKeys(m)
    ensures UniqueKeys(SetEntry(m, k, v))
    ensures KeysOf(SetEntry(m, k, v)) == KeysOf(m) + {k}
  {
    if k in KeysOf(m) {
      SetPresentKeys(m, k, v);
    } else {
      SetAbsentKeys(m, k, v);
    }
  }

  /** Setting a key adds only that entry. */
  lemma SetEntryMembers<V>(m: seq<Entry<V>>, k: LayerId, v: V)
    ensures forall e :: e in SetEntry(m, k, v) ==> e in m || e == Entry(k, v)
  {
  }

  /** `Map.prototype.get` on a present key: the value of its first entry. */
  function GetEntry<V(==)>(m: seq<Entry<V>>, k: LayerId): (v: V)
    requires k in KeysOf(m)
    ensures Entry(k, v) in m
    ensures forall i :: 0 <= i < |m| && m[i].key == k && (forall j :: 0 <= j < i ==> m[j].key != k) ==> v == m[i].value
  {
    KeysOfCons(m);
    if m[0].key == k then m[0].value
    else
      var v := GetEntry(m[1..], k);
      assert forall i :: 1 <= i < |m| ==> m[i] == m[1..][i - 1];
      v
  }

  /** `Map.prototype.delete`. */
  function DeleteEntry<V(==,!new)>(m: seq<Entry<V>>, k: LayerId): (r: seq<Entry<V>>)
    ensures KeysOf(r) == KeysOf(m) - {k}
    ensures forall e :: e in r <==> e in m && e.key != k
    ensures UniqueKeys(m) ==> UniqueKeys(r)
    ensures |r| <= |m|
  {
    if m == [] then []
    else
      var rest := DeleteEntry(m[1..], k);
      assert forall e :: e in m <==> e == m[0] || e in m[1..];
      if m[0].key == k then rest else [m[0]] + rest
  }

  // ---------------------------------------------------------------------
  // Stable sort by an integer key (`arr.sort((a, b) => a.sortOrder - b.sortOrder)`)

  predicate SortedBy<T>(s: seq<T>, key: T -> int)
  {
    forall i, j :: 0 <= i < j < |s| ==> key(s[i]) <= key(s[j])
  }

  /** Insert `x` after every element whose key is not greater than its own. */
  function InsertByKey<T>(x: T, s: seq<T>, key: T -> int): seq<T>
  {
    if s == [] then [x]
    else if key(x) < key(s[0]) then [x] + s
    else [s[0]] + InsertByKey(x, s[1..], key)
  }

  lemma {:induction false} InsertByKeyPerm<T>(x: T, s: seq<T>, key: T -> int)
    ensures multiset(InsertByKey(x, s, key)) == multiset(s) + multiset{x}
    decreases |s|
  {
    if s != [] {
      assert s == [s[0]] + s[1..];
      if !(key(x) < key(s[0])) {
        InsertByKeyPerm(x, s[1..], key);
      }
    }
  }

  /** Every element of the result is `x` or an element of `s`. */
  lemma InsertByKeyFrom<T>(x: T, s: seq<T>, key: T -> int, j: nat)
    requires j < |InsertByKey(x, s, key)|
    ensures InsertByKey(x, s, key)[j] == x || InsertByKey(x, s, key)[j] in s
  {
    var r := InsertByKey(x, s, key);
    InsertByKeyPerm(x, s, key);
    assert r[j] in multiset(r);
  }

  lemma {:induction false} InsertByKeySorted<T>(x: T, s: seq<T>, key: T -> int)
    requires SortedBy(s, key)
    ensures SortedBy(InsertByKey(x, s, key), key)
    decreases |s|
  {
    if s != [] && !(key(x) < key(s[0])) {
      assert SortedBy(s[1..], key) by {
        forall i, j | 0 <= i < j < |s[1..]| ensures key(s[1..][i]) <= key(s[1..][j]) {
          assert s[1..][i] == s[i + 1] && s[1..][j] == s[j + 1];
        }
      }
      InsertByKeySorted(x, s[1..], key);
      var rest := InsertByKey(x, s[1..], key);
      var r := InsertByKey(x, s, key);
      assert r == [s[0]] + rest;
      forall j | 0 <= j < |rest| ensures key(s[0]) <= key(rest[j]) {
        InsertByKeyFrom(x, s[1..], key, j);
        if rest[j] != x {
          var i :| 0 <= i < |s[1..]| && s[1..][i] == rest[j];
          assert s[i + 1] == rest[j];
        }
      }
      forall i, j | 0 <= i < j < |r| ensures key(r[i]) <= key(r[j]) {
        assert r[j] == rest[j - 1];
        if i > 0 { assert r[i] == rest[i - 1]; }
      }
    }
  }

  /** Insertion sort taking elements left to right, so equal keys keep their order. */
  function SortByKey<T>(s: seq<T>, key: T -> int): seq<T>
  {
    if s == [] then [] else InsertByKey(s[|s| - 1], SortByKey(s[..|s| - 1], key), key)
  }

  /** `sort((a, b) => key(a) - key(b))` yields a permutation of its input, in ascending key order. */
  lemma {:induction false} SortByKeySpec<T>(s: seq<T>, key: T -> int)
    ensures multiset(SortByKey(s, key)) == multiset(s)
    ensures |SortByKey(s, key)| == |s|
    ensures SortedBy(SortByKey(s, key), key)
    decreases |s|
  {
    if s != [] {
      assert s == s[..|s| - 1] + [s[|s| - 1]];
      SortByKeySpec(s[..|s| - 1], key);
      InsertByKeyPerm(s[|s| - 1], SortByKey(s[..|s| - 1], key), key);
      InsertByKeySorted(s[|s| - 1], SortByKey(s[..|s| - 1], key), key);
    }
    assert |multiset(SortByKey(s, key))| == |multiset(s)|;
  }

  // ---------------------------------------------------------------------
  // Pinned hover records

  datatype Pinned<E> = Pinned(id: nat, hoverComps: seq<E>, marker: Ref, lngLat: Ref)

  /** `remove-pinned`: keep the records with another id, removing the marker of each dropped one. */
  function Unpin<E(==,!new)>(ps: seq<Pinned<E>>, id: nat): (r: (seq<Pinned<E>>, seq<Effect>))
    ensures forall p :: p in r.0 <==> p in ps && p.id != id
    ensures |r.0| + |r.1| == |ps|
    ensures forall e :: e in r.1 ==> exists p :: p in ps && p.id == id && e == RemoveMarker(p.marker)
  {
    if ps == [] then ([], [])
    else
      var rest := Unpin(ps[1..], id);
      assert forall p :: p in ps <==> p == ps[0] || p in ps[1..];
      if ps[0].id == id then (rest.0, [RemoveMarker(ps[0].marker)] + rest.1)
      else ([ps[0]] + rest.0, rest.1)
  }

  predicate UniquePinIds<E>(ps: seq<Pinned<E>>)
  {
    forall i, j :: 0 <= i < j < |ps| ==> ps[i].id != ps[j].id
  }

  /** Appending a record whose id exceeds every stored one keeps the ids distinct and bounded by it. */
  lemma AppendFreshPin<E>(ps: seq<Pinned<E>>, p: Pinned<E>)
    requires UniquePinIds(ps) && forall q :: q in ps ==> q.id < p.id
    ensures UniquePinIds(ps + [p])
  {
    var r := ps + [p];
    forall i, j | 0 <= i < j < |r| ensures r[i].id != r[j].id {
      if j == |ps| { assert ps[i] in ps; }
    }
  }

  /** The records after the first keep unique ids, none of them the first record's. */
  lemma UniqueTail<E>(ps: seq<Pinned<E>>)
    requires ps != [] && UniquePinIds(ps)
    ensures UniquePinIds(ps[1..])
    ensures forall p :: p in ps[1..] ==> p.id != ps[0].id
  {
    forall p | p in ps[1..] ensures p.id != ps[0].id {
      var k :| 0 <= k < |ps[1..]| && ps[1..][k] == p;
      assert ps[k + 1] == p;
    }
  }

  lemma {:induction false} UnpinCount<E(!new)>(ps: seq<Pinned<E>>, id: nat)
    requires UniquePinIds(ps)
    ensures |Unpin(ps, id).1| == if exists p :: p in ps && p.id == id then 1 else 0
    decreases |ps|
  {
    if ps != [] {
      UniqueTail(ps);
      UnpinCount(ps[1..], id);
      assert forall p :: p in ps <==> p == ps[0] || p in ps[1..];
    }
  }

  lemma {:induction false} UnpinUnique<E(!new)>(ps: seq<Pinned<E>>, id: nat)
    requires UniquePinIds(ps)
    ensures UniquePinIds(Unpin(ps, id).0)
    decreases |ps|
  {
    if ps != [] {
      UniqueTail(ps);
      UnpinUnique(ps[1..], id);
      if ps[0].id != id {
        var rest := Unpin(ps[1..], id).0;
        assert forall j :: 0 <= j < |rest| ==> rest[j] in ps[1..];
      }
    }
  }

  /** With unique ids, unpinning removes at most one record and exactly one marker when the id is pinned. */
  lemma UnpinOne<E(!new)>(ps: seq<Pinned<E>>, id: nat)
    requires UniquePinIds(ps)
    ensures |Unpin(ps, id).1| == if exists p :: p in ps && p.id == id then 1 else 0
    ensures UniquePinIds(Unpin(ps, id).0)
  {
    UnpinCount(ps, id);
    UnpinUnique(ps, id);
  }

  // ---------------------------------------------------------------------
  // Layer lists

  /** `layers.filter(({ id }) => id !== layerId)`. */
  function WithoutId(ls: seq<LayerRec>, id: LayerId): (r: seq<LayerRec>)
    ensures forall l :: l in r <==> l in ls && l.id != id
    ensures |r| <= |ls|
  {
    if ls == [] then []
    else
      assert forall l :: l in ls <==> l == ls[0] || l in ls[1..];
      (if ls[0].id == id then [] else [ls[0]]) + WithoutId(ls[1..], id)
  }

  lemma {:induction false} WithoutIdDistributes(a: seq<LayerRec>, b: seq<LayerRec>, id: LayerId)
    ensures WithoutId(a + b, id) == WithoutId(a, id) + WithoutId(b, id)
  {
    if a == [] {
      assert a + b == b;
    } else {
      assert (a + b)[0] == a[0];
      assert (a + b)[1..] == a[1..] + b;
      WithoutIdDistributes(a[1..], b, id);
    }
  }

  function RefsOf(ls: seq<LayerRec>): set<Ref>
  {
    set l | l in ls :: l.ref
  }

  function IdsOf(ls: seq<LayerRec>): (r: seq<LayerId>)
    ensures |r| == |ls| && forall i :: 0 <= i < |ls| ==> r[i] == ls[i].id
  {
    seq(|ls|, i requires 0 <= i < |ls| => ls[i].id)
  }

  function Reverse<T>(s: seq<T>): (r: seq<T>)
    ensures |r| == |s| && forall i :: 0 <= i < |s| ==> r[i] == s[|s| - 1 - i]
  {
    if s == [] then [] else [s[|s| - 1]] + Reverse(s[..|s| - 1])
  }

  // ---------------------------------------------------------------------
  // Modals and mapActions selections (avl-map.jsx 884-910, avl-map.js 668-679, 705-709)

  /** The last layer with that id: `reduce((a, c) => c.id === id ? c : a, {})`. */
  function LastWithId(ls: seq<LayerRec>, id: LayerId): (r: Option<LayerRec>)
    ensures r.None? <==> forall i :: 0 <= i < |ls| ==> ls[i].id != id
    ensures r.Some? ==> exists i :: 0 <= i < |ls| && ls[i] == r.value && r.value.id == id &&
                          forall j :: i < j < |ls| ==> ls[j].id != id
  {
    if ls == [] then None
    else if ls[|ls| - 1].id == id then Some(ls[|ls| - 1])
    else LastWithId(ls[..|ls| - 1], id)
  }

  datatype ModalView = ModalView(modal: Ref, modalData: ModalEntry, layer: LayerRec)

  /** The modal a stack entry opens, if its layer is active and declares that key. */
  function ModalFor(md: ModalEntry, active: seq<LayerRec>): Option<ModalView>
  {
    match LastWithId(active, md.layerId)
    case None => None
    case Some(l) => if md.modalKey in l.modals then Some(ModalView(l.modals[md.modalKey], md, l)) else None
  }

  function ModalsView(mds: seq<ModalEntry>, active: seq<LayerRec>): (r: seq<ModalView>)
    ensures |r| <= |mds|
  {
    if mds == [] then []
    else
      var prefix := ModalsView(mds[..|mds| - 1], active);
      match ModalFor(mds[|mds| - 1], active)
      case None => prefix
      case Some(v) => prefix + [v]
  }

  /**
   * Each modal shown comes from a stack entry whose owning layer (the last
   * active layer with that id) declares the entry's key, and carries that
   * layer's descriptor; the selection works entry by entry in stack order.
   */
  lemma {:induction false} ModalsViewSpec(mds: seq<ModalEntry>, active: seq<LayerRec>)
    ensures forall v :: v in ModalsView(mds, active) ==>
              v.modalData in mds && v.layer in active && v.layer.id == v.modalData.layerId &&
              LastWithId(active, v.modalData.layerId) == Some(v.layer) &&
              v.modalData.modalKey in v.layer.modals && v.modal == v.layer.modals[v.modalData.modalKey]
    ensures forall md :: md in mds && ModalFor(md, active).Some? ==> ModalFor(md, active).value in ModalsView(mds, active)
    decreases |mds|
  {
    if mds != [] {
      var init := mds[..|mds| - 1];
      ModalsViewSpec(init, active);
      assert forall md :: md in mds <==> md in init || md == mds[|mds| - 1];
    }
  }

  lemma {:induction false} ModalsViewDistributes(a: seq<ModalEntry>, b: seq<ModalEntry>, active: seq<LayerRec>)
    ensures ModalsView(a + b, active) == ModalsView(a, active) + ModalsView(b, active)
    decreases |b|
  {
    if b == [] {
      assert a + b == a;
    } else {
      var b0 := b[..|b| - 1];
      var x := b[|b| - 1];
      assert (a + b)[..|a + b| - 1] == a + b0;
      assert (a + b)[|a + b| - 1] == x;
      var tail := if ModalFor(x, active).Some? then [ModalFor(x, active).value] else [];
      assert ModalsView(a + b, active) == ModalsView(a + b0, active) + tail;
      assert ModalsView(b, active) == ModalsView(b0, active) + tail;
      ModalsViewDistributes(a, b0, active);
    }
  }

  datatype ActionView = ActionView(action: Ref, layer: LayerRec)

  function ActionsOf(l: LayerRec): (r: seq<ActionView>)
    ensures |r| == |l.mapActions| && forall i :: 0 <= i < |r| ==> r[i] == ActionView(l.mapActions[i], l)
  {
    seq(|l.mapActions|, i requires 0 <= i < |l.mapActions| => ActionView(l.mapActions[i], l))
  }

  /** `activeLayers.reduce((a, c) => [...a, ...c.mapActions.map(action => ({ action, layer: c }))], [])`. */
  function MapActionsView(active: seq<LayerRec>): seq<ActionView>
  {
    if active == [] then [] else MapActionsView(active[..|active| - 1]) + ActionsOf(active[|active| - 1])
  }

  function TotalActions(active: seq<LayerRec>): nat
  {
    if active == [] then 0 else TotalActions(active[..|active| - 1]) + |active[|active| - 1].mapActions|
  }

  /**
   * The map-action list holds one entry per declared action of every active
   * layer, each tagged with its layer, layer after layer in activeLayers order.
   */
  lemma {:induction false} MapActionsViewSpec(active: seq<LayerRec>)
    ensures |MapActionsView(active)| == TotalActions(active)
    ensures forall v :: v in MapActionsView(active) ==> v.layer in active && v.action in v.layer.mapActions
    ensures forall l, a :: l in active && a in l.mapActions ==> ActionView(a, l) in MapActionsView(active)
    decreases |active|
  {
    if active != [] {
      var init := active[..|active| - 1];
      var last := active[|active| - 1];
      MapActionsViewSpec(init);
      assert forall l :: l in active <==> l in init || l == last;
      forall l, a | l in active && a in l.mapActions ensures ActionView(a, l) in MapActionsView(active) {
        if l == last {
          var i :| 0 <= i < |l.mapActions| && l.mapActions[i] == a;
          assert ActionsOf(last)[i] == ActionView(a, l);
        }
      }
    }
  }

  lemma {:induction false} MapActionsViewDistributes(a: seq<LayerRec>, b: seq<LayerRec>)
    ensures MapActionsView(a + b) == MapActionsView(a) + MapActionsView(b)
    decreases |b|
  {
    if b == [] {
      assert a + b == a;
    } else {
      var b0 := b[..|b| - 1];
      var x := b[|b| - 1];
      assert (a + b)[..|a + b| - 1] == a + b0;
      assert (a + b)[|a + b| - 1] == x;
      assert MapActionsView(a + b) == MapActionsView(a + b0) + ActionsOf(x);
      assert MapActionsView(b) == MapActionsView(b0) + ActionsOf(x);
      MapActionsViewDistributes(a, b0);
    }
  }

  // ---------------------------------------------------------------------
  // Loading view, shared by both versions

  /** `Boolean(state.layersLoading[layer.id])`. */
  predicate IsLoading(counters: map<LayerId, int>, id: LayerId)
  {
    id in counters && counters[id] != 0
  }

  /** `[...layers, ...state.dynamicLayers].filter(layer => Boolean(state.layersLoading[layer.id]))`. */
  function LoadingIn(ls: seq<LayerRec>, counters: map<LayerId, int>): (r: seq<LayerRec>)
    ensures forall l :: l in r <==> l in ls && IsLoading(counters, l.id)
  {
    if ls == [] then []
    else
      var init := ls[..|ls| - 1];
      assert forall l :: l in ls <==> l in init || l == ls[|ls| - 1];
      LoadingIn(init, counters) + (if IsLoading(counters, ls[|ls| - 1].id) then [ls[|ls| - 1]] else [])
  }

  // ---------------------------------------------------------------------
  // Initialization order, shared by both versions: the declared layers not
  // yet in the component's list of initialized ids, last first

  /** The layers whose ids the initializing list does not hold yet, in order. */
  function Unseen(all: seq<LayerRec>, seen: seq<LayerId>): (r: seq<LayerRec>)
    ensures forall l :: l in r <==> l in all && l.id !in seen
    ensures (forall l :: l in all ==> l.id in seen) ==> r == []
  {
    if all == [] then []
    else
      var init := all[..|all| - 1];
      var last := all[|all| - 1];
      assert forall l :: l in all <==> l in init || l == last;
      Unseen(init, seen) + (if last.id !in seen then [last] else [])
  }

  /** `[...layers, ...dynamicLayers].filter(unseen).reverse()`. */
  function PassOrder(all: seq<LayerRec>, seen: seq<LayerId>): seq<LayerRec>
  {
    Reverse(Unseen(all, seen))
  }

  /** The pass handles exactly the unseen layers, in reverse declaration order. */
  lemma PassOrderSpec(all: seq<LayerRec>, seen: seq<LayerId>)
    ensures var o := PassOrder(all, seen);
            var u := Unseen(all, seen);
            && (forall l :: l in o <==> l in all && l.id !in seen)
            && |o| == |u| && (forall i :: 0 <= i < |o| ==> o[i] == u[|u| - 1 - i])
  {
    var o := PassOrder(all, seen);
    var u := Unseen(all, seen);
    forall l ensures l in o <==> l in u {
      if l in o { var i :| 0 <= i < |o| && o[i] == l; assert u[|u| - 1 - i] == l; }
      if l in u { var i :| 0 <= i < |u| && u[i] == l; assert o[|u| - 1 - i] == l; }
    }
  }

  /** After a pass the initializing list covers every declared id, so a second pass handles nothing. */
  lemma PassIdempotent(all: seq<LayerRec>, seen: seq<LayerId>)
    ensures Unseen(all, seen + IdsOf(PassOrder(all, seen))) == []
  {
    var o := PassOrder(all, seen);
    var r := Unseen(all, seen + IdsOf(o));
    PassOrderSpec(all, seen);
    forall l | l in all ensures l.id in seen + IdsOf(o) {
      if l.id !in seen {
        var i :| 0 <= i < |o| && o[i] == l;
        assert IdsOf(o)[i] == l.id;
      }
    }
  }

  lemma PrefixSnoc<T>(s: seq<T>, i: nat)
    requires i < |s|
    ensures s[..i + 1] == s[..i] + [s[i]]
  {
  }

  lemma IdsOfSnoc(order: seq<LayerRec>, l: LayerRec)
    ensures IdsOf(order + [l]) == IdsOf(order) + [l.id]
  {
    var a := IdsOf(order + [l]);
    var b := IdsOf(order) + [l.id];
    assert |a| == |b|;
    forall i | 0 <= i < |a| ensures a[i] == b[i] {
      if i < |order| { assert (order + [l])[i] == order[i]; }
    }
  }

  // ---------------------------------------------------------------------
  // Map style names

  const MapboxStylePrefix: string := "mapbox://styles/"

  /** `/^mapbox:\/\/styles\//.test(style)`; an absent style reads as "undefined" and fails. */
  predicate IsMapboxStyle(style: Option<string>)
  {
    style.Some? && |MapboxStylePrefix| <= |style.value| && style.value[..|MapboxStylePrefix|] == MapboxStylePrefix
  }

}
