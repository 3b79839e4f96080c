/** The in-memory cache of `store/cache/cache.go`, each operation being atomic. */
module Cache {
  import opened Wrappers

  /** A clock that never runs backwards; each reading may be later than the one before. */
  class Clock {
    var now: int

    constructor (start: int)
      ensures now == start
    {
      now := start;
    }

    /** `time.Now()`. */
    method Now() returns (t: int)
      modifies this
      ensures t == now && old(now) <= now
    {
      var passed :| 0 <= passed;
      now := now + passed;
      t := now;
    }
  }

  datatype Item<V> = Item(value: V, expiration: int)

  datatype Candidate<V> = Candidate(key: string, item: Item<V>)

  datatype Config = Config(defaultTTL: int, maxItems: int, onEviction: bool)

  /**
   The state of a cache: its items, its own count of them, the calls made to `OnEviction`, and for
   the claims about it the last item set for each key that was not deleted since, and the number of
   sets that met a key that was not there.
   */
  datatype State<V> = State(
    config: Config,
    data: map<string, Item<V>>,
    itemCount: int,
    evictions: seq<(string, V)>,
    lastWrite: map<string, Item<V>>,
    inserted: nat)

  // ---------- What every operation keeps ----------

  /** The count is right, the items are the last written ones, and insertions are accounted for. */
  ghost predicate Counted<V>(s: State<V>) {
    && s.itemCount == |s.data|
    && (forall k <- s.data :: k in s.lastWrite && s.lastWrite[k] == s.data[k])
    && (if s.config.onEviction then s.inserted == |s.data| + |s.evictions| else s.evictions == [])
  }

  ghost predicate Bounded<V>(s: State<V>) {
    s.config.maxItems > 0 ==> |s.data| <= s.config.maxItems
  }

  ghost predicate Inv<V>(s: State<V>) {
    Counted(s) && Bounded(s)
  }

  /** `calls` reports each of `keys` once, with the value it had in `data`. */
  ghost predicate ReportsExactly<V>(calls: seq<(string, V)>, data: map<string, Item<V>>, keys: set<string>)
    requires keys <= data.Keys
  {
    && |calls| == |keys|
    && (forall c <- calls :: c.0 in keys && c.1 == data[c.0].value)
    && (forall k <- keys :: (k, data[k].value) in calls)
  }

  /** Exactly `keys` were removed, and reported if there is a callback. */
  ghost predicate Removed<V>(s: State<V>, keys: set<string>, s': State<V>) {
    && keys <= s.data.Keys
    && |s.evictions| <= |s'.evictions|
    && var calls := s'.evictions[|s.evictions|..];
       && (if s.config.onEviction then ReportsExactly(calls, s.data, keys) else calls == [])
       && s' == s.(data := s.data - keys, itemCount := s.itemCount - |keys|, evictions := s.evictions + calls)
  }

  lemma RemovedCount<V>(from: map<string, V>, gone: set<string>)
    requires gone <= from.Keys
    ensures |from - gone| == |from| - |gone|
  {
    assert (from - gone).Keys == from.Keys - gone;
  }

  /** Whatever is removed, the count stays right and every insertion stays accounted for. */
  lemma RemovalKeepsCounted<V>(s: State<V>, keys: set<string>, s': State<V>)
    requires Counted(s) && Removed(s, keys, s')
    ensures Counted(s') && |s'.data| == |s.data| - |keys|
  {
    RemovedCount(s.data, keys);
  }

  lemma RemovedConfig<V>(s: State<V>, keys: set<string>, s': State<V>)
    requires Removed(s, keys, s')
    ensures s'.config == s.config && s'.data == s.data - keys && s'.lastWrite == s.lastWrite && s'.inserted ==
        s.inserted
  {
  }

  lemma RemovalKeepsInv<V>(s: State<V>, keys: set<string>, s': State<V>)
    requires Inv(s) && Removed(s, keys, s')
    ensures Inv(s')
  {
    hide Counted, Removed;
    RemovalKeepsCounted(s, keys, s');
    RemovedConfig(s, keys, s');
  }

  lemma ReportNone<V>(data: map<string, Item<V>>)
    ensures ReportsExactly<V>([], data, {})
  {
    var calls: seq<(string, V)>, keys: set<string> := [], {};
    assert ReportsExactly(calls, data, keys);
  }

  /** A removal, from its parts. */
  lemma IsRemoved<V>(s: State<V>, keys: set<string>, calls: seq<(string, V)>, s': State<V>)
    requires keys <= s.data.Keys
    requires if s.config.onEviction then ReportsExactly(calls, s.data, keys) else calls == []
    requires s' == s.(data := s.data - keys, itemCount := s.itemCount - |keys|, evictions := s.evictions + calls)
    ensures Removed(s, keys, s')
  {
    assert s'.evictions[|s.evictions|..] == calls;
  }

  /** The removal of one more key. */
  function Evict<V>(s: State<V>, key: string): State<V>
    requires key in s.data
  {
    s.(data := s.data - {key}, itemCount := s.itemCount - 1,
       evictions := if s.config.onEviction then s.evictions + [(key, s.data[key].value)] else s.evictions)
  }

  lemma ReportOne<V>(calls: seq<(string, V)>, data: map<string, Item<V>>, keys: set<string>, k: string)
    requires keys <= data.Keys && ReportsExactly(calls, data, keys) && k in data && k !in keys
    ensures ReportsExactly(calls + [(k, data[k].value)], data, keys + {k})
  {
  }

  /** A set that finds room, or makes none. */
  function Put<V>(s: State<V>, key: string, item: Item<V>): State<V> {
    s.(data := s.data[key := item],
       itemCount := if key in s.data then s.itemCount else s.itemCount + 1,
       lastWrite := s.lastWrite[key := item],
       inserted := if key in s.data then s.inserted else s.inserted + 1)
  }

  lemma PutKeepsCounted<V>(s: State<V>, key: string, item: Item<V>)
    requires Counted(s)
    ensures Counted(Put(s, key, item))
    ensures |Put(s, key, item).data| == |s.data| + (if key in s.data then 0 else 1)
  {
    if key in s.data {
      assert s.data[key := item].Keys == s.data.Keys;
    } else {
      assert s.data[key := item].Keys == s.data.Keys + {key};
    }
  }

  /** How many items one run of `cleanupOldest` removes at most. */
  function Threshold(maxItems: int): (n: nat)
    ensures n >= 1
    ensures if maxItems < 5 then n == 1 else 5 * n <= maxItems < 5 * n + 5
  {
    if maxItems / 5 > 1 then maxItems / 5 else 1
  }

  // ---------- Selecting the oldest ----------

  ghost predicate SelectsFrom<V>(cs: seq<Candidate<V>>, data: map<string, Item<V>>, seen: set<string>)
    requires seen <= data.Keys
  {
    && (forall c <- cs :: c.key in seen && data[c.key] == c.item)
    && (forall i, j | 0 <= i < j < |cs| :: cs[i].key != cs[j].key)
  }

  ghost function Keys<V>(cs: seq<Candidate<V>>): set<string> {
    set c <- cs :: c.key
  }

  /** The candidates are as old as possible among the keys seen: none of the others expires earlier. */
  ghost predicate Oldest<V>(cs: seq<Candidate<V>>, data: map<string, Item<V>>, seen: set<string>)
    requires seen <= data.Keys
  {
    forall k <- seen - Keys(cs), c <- cs :: c.item.expiration <= data[k].expiration
  }

  /** The index of a candidate that expires last. */
  method NewestIndex<V>(cs: seq<Candidate<V>>) returns (newest: nat)
    requires cs != []
    ensures newest < |cs|
    ensures forall i | 0 <= i < |cs| :: cs[i].item.expiration <= cs[newest].item.expiration
  {
    newest := 0;
    for i := 1 to |cs|
      invariant newest < |cs|
      invariant forall k | 0 <= k < i :: cs[k].item.expiration <= cs[newest].item.expiration
    {
      if cs[i].item.expiration > cs[newest].item.expiration {
        newest := i;
      }
    }
  }

  lemma SelectNone<V>(data: map<string, Item<V>>)
    ensures SelectsFrom([], data, {}) && Oldest([], data, {}) && Keys<V>([]) == {}
  {
  }

  /** While every key seen is a candidate, the selection is trivially the oldest. */
  lemma SelectAll<V>(cs: seq<Candidate<V>>, data: map<string, Item<V>>, seen: set<string>)
    requires seen <= data.Keys && Keys(cs) == seen
    ensures Oldest(cs, data, seen)
  {
  }

  lemma SelectMore<V>(cs: seq<Candidate<V>>, data: map<string, Item<V>>, seen: set<string>, key: string)
    requires seen <= data.Keys && SelectsFrom(cs, data, seen) && key in data && key !in seen
    ensures SelectsFrom(cs, data, seen + {key})
    ensures var cs' := cs + [Candidate(key, data[key])];
            SelectsFrom(cs', data, seen + {key}) && Keys(cs') == Keys(cs) + {key}
  {
    var c := Candidate(key, data[key]);
    assert forall x <- cs + [c] :: x in cs || x == c;
    assert c in cs + [c] && forall x <- cs :: x in cs + [c];
  }

  lemma SelectOther<V>(cs: seq<Candidate<V>>, data: map<string, Item<V>>, seen: set<string>, key: string, i: nat)
    requires seen <= data.Keys && SelectsFrom(cs, data, seen) && key in data && key !in seen && i < |cs|
    ensures SelectsFrom(cs[i := Candidate(key, data[key])], data, seen + {key})
    ensures cs[i].key in data && data[cs[i].key] == cs[i].item
  {
    var c := Candidate(key, data[key]);
    var cs' := cs[i := c];
    assert cs[i] in cs;
    forall x <- cs' ensures x == c || x in cs {
      var j :| 0 <= j < |cs'| && cs'[j] == x;
    }
    forall j | 0 <= j < |cs| ensures cs[j].key != key {
      assert cs[j] in cs;
    }
  }

  /** Replacing a candidate that expires last by one that expires earlier keeps the selection the oldest. */
  lemma SelectOlder<V>(cs: seq<Candidate<V>>, data: map<string, Item<V>>, seen: set<string>, key: string, newest: nat)
    requires seen <= data.Keys && SelectsFrom(cs, data, seen) && Oldest(cs, data, seen)
    requires key in data && key !in seen && newest < |cs|
    requires forall i | 0 <= i < |cs| :: cs[i].item.expiration <= cs[newest].item.expiration
    ensures if data[key].expiration < cs[newest].item.expiration then
              var cs' := cs[newest := Candidate(key, data[key])];
              SelectsFrom(cs', data, seen + {key}) && Oldest(cs', data, seen + {key})
            else Oldest(cs, data, seen + {key})
  {
    var c := Candidate(key, data[key]);
    if data[key].expiration < cs[newest].item.expiration {
      var cs' := cs[newest := c];
      SelectOther(cs, data, seen, key, newest);
      hide SelectsFrom;
      forall j | 0 <= j < |cs| && j != newest ensures cs[j].key in Keys(cs') {
        assert cs'[j] in cs';
      }
      forall k <- seen + {key} - Keys(cs'), x <- cs' ensures x.item.expiration <= data[k].expiration {
        assert cs'[newest] == c;
        var i :| 0 <= i < |cs'| && cs'[i] == x;
        if k in Keys(cs) {
          var j :| 0 <= j < |cs| && cs[j].key == k;
          assert j == newest;
          assert cs[newest] in cs;
        } else if i != newest {
          assert cs[i] in cs;
        } else {
          assert cs[newest] in cs;
        }
      }
    }
  }

  /** The loop over the data: as many candidates as allowed, and the oldest ones, in whatever order keys come. */
  method SelectOldest<V>(data: map<string, Item<V>>, threshold: nat) returns (cs: seq<Candidate<V>>)
    requires threshold >= 1
    ensures SelectsFrom(cs, data, data.Keys) && Oldest(cs, data, data.Keys)
    ensures |cs| == if |data| < threshold then |data| else threshold
  {
    hide SelectsFrom, Oldest, Keys;
    cs := [];
    var todo := data.Keys;
    SelectNone(data);
    ghost var seen: set<string> := {};
    while todo != {}
      invariant todo + seen == data.Keys && todo !! seen
      invariant SelectsFrom(cs, data, seen) && Oldest(cs, data, seen)
      invariant |cs| == if |seen| < threshold then |seen| else threshold
      invariant |cs| < threshold ==> Keys(cs) == seen
      decreases |todo|
    {
      var key :| key in todo;
      SelectMore(cs, data, seen, key);
      if |cs| < threshold {
        cs := cs + [Candidate(key, data[key])];
        SelectAll(cs, data, seen + {key});
      } else {
        var newest := NewestIndex(cs);
        SelectOlder(cs, data, seen, key, newest);
        if data[key].expiration < cs[newest].item.expiration {
          cs := cs[newest := Candidate(key, data[key])];
        }
      }
      todo := todo - {key};
      seen := seen + {key};
    }
  }

  lemma KeysOfPrefix<V>(cs: seq<Candidate<V>>, data: map<string, Item<V>>, i: nat)
    requires SelectsFrom(cs, data, data.Keys) && i < |cs|
    ensures Keys(cs[..i + 1]) == Keys(cs[..i]) + {cs[i].key} && cs[i].key !in Keys(cs[..i])
    ensures cs[i].key in data && data[cs[i].key] == cs[i].item
  {
    assert cs[..i + 1] == cs[..i] + [cs[i]];
    assert cs[i] in cs;
    assert forall c <- cs[..i + 1] :: c in cs[..i] || c == cs[i];
    assert forall c <- cs[..i] :: c in cs[..i + 1];
    assert cs[..i + 1][i] == cs[i];
  }

  // ---------- The operations ----------

  /** The removal that `cleanupOldest` chooses: a bounded number of items that expire first. */
  ghost predicate OldestRemoved<V>(s: State<V>, s': State<V>) {
    if |s.data| <= s.config.maxItems then s' == s
    else
      var gone := s.data.Keys - s'.data.Keys;
      var threshold := Threshold(s.config.maxItems);
      && Removed(s, gone, s')
      && |gone| == (if |s.data| < threshold then |s.data| else threshold)
      && forall k <- gone, j <- s'.data :: s.data[k].expiration <= s.data[j].expiration
  }

  /** A set whose clock reading lies between two times. */
  ghost predicate SetStep<V>(s: State<V>, key: string, value: V, ttl: int, from: int, until: int, s': State<V>) {
    && key in s'.lastWrite
    && var item := s'.lastWrite[key];
       && item.value == value && from + ttl <= item.expiration <= until + ttl
       && (if s.config.maxItems > 0 then OldestRemoved(Put(s, key, item), s') else s' == Put(s, key, item))
  }

  /** A get: an expired item is removed on the way. */
  ghost predicate GetStep<V>(s: State<V>, key: string, from: int, until: int, r: Option<V>, s': State<V>) {
    if key !in s.data then r == None && s' == s
    else
      || (r == Some(s.data[key].value) && s' == s && from <= s.data[key].expiration)
      || (r == None && s' == Evict(s, key) && s.data[key].expiration < until)
  }

  ghost predicate DeleteStep<V>(s: State<V>, key: string, s': State<V>) {
    s' == (if key in s.data then Evict(s, key) else s).(lastWrite := s.lastWrite - {key})
  }

  ghost predicate ClearStep<V>(s: State<V>, s': State<V>) {
    Removed(s, s.data.Keys, s'.(lastWrite := s.lastWrite)) && s'.lastWrite == map[] && s'.itemCount == 0
  }

  /** A sweep: what had expired when it began is gone, and what goes had expired by its end. */
  ghost predicate CleanupStep<V>(s: State<V>, from: int, until: int, s': State<V>) {
    var gone := s.data.Keys - s'.data.Keys;
    && Removed(s, gone, s')
    && (forall k <- s.data :: s.data[k].expiration < from ==> k in gone)
    && (forall k <- gone :: s.data[k].expiration < until)
  }

  lemma IsPut<V>(s: State<V>, key: string, item: Item<V>, s': State<V>)
    requires Inv(s)
    requires s' == s.(data := s.data[key := item],
                      itemCount := if key in s.data then s.itemCount else s.itemCount + 1,
                      lastWrite := s.lastWrite[key := item],
                      inserted := if key in s.data then s.inserted else s.inserted + 1)
    ensures s' == Put(s, key, item) && Counted(s')
  {
    PutKeepsCounted(s, key, item);
  }

  /** A set that cleaned up if it was over the limit did what a set does. */
  lemma SetIsDone<V>(s: State<V>, key: string, value: V, ttl: int, item: Item<V>, from: int, until: int, s': State<V>)
    requires Inv(s) && item.value == value && from + ttl <= item.expiration <= until + ttl
    requires var put := Put(s, key, item);
             if s.config.maxItems > 0 && put.itemCount > s.config.maxItems then OldestRemoved(put, s') else s' == put
    ensures SetStep(s, key, value, ttl, from, until, s')
  {
    hide Removed;
    var put := Put(s, key, item);
    PutKeepsCounted(s, key, item);
    if s' != put { RemovedConfig(put, put.data.Keys - s'.data.Keys, s'); }
  }

  lemma ClearIsDone<V>(s: State<V>, calls: seq<(string, V)>, s': State<V>)
    requires Inv(s)
    requires if s.config.onEviction then ReportsExactly(calls, s.data, s.data.Keys) else calls == []
    requires s' == s.(data := map[], itemCount := 0, evictions := s.evictions + calls, lastWrite := map[])
    ensures ClearStep(s, s')
  {
    hide ReportsExactly;
    assert s.data - s.data.Keys == map[];
    IsRemoved(s, s.data.Keys, calls, s'.(lastWrite := s.lastWrite));
  }

  lemma CleanupIsDone<V>(s: State<V>, gone: set<string>, calls: seq<(string, V)>, from: int, until: int, s': State<V>)
    requires gone <= s.data.Keys
    requires if s.config.onEviction then ReportsExactly(calls, s.data, gone) else calls == []
    requires s' == s.(data := s.data - gone, itemCount := s.itemCount - |gone|, evictions := s.evictions + calls)
    requires forall k <- s.data :: s.data[k].expiration < from ==> k in gone
    requires forall k <- gone :: s.data[k].expiration < until
    ensures CleanupStep(s, from, until, s')
  {
    hide ReportsExactly, Removed;
    IsRemoved(s, gone, calls, s');
    assert s.data.Keys - s'.data.Keys == gone;
  }

  lemma CountIsSize<V>(s: State<V>)
    requires Counted(s)
    ensures s.itemCount == |s.data|
  {
  }

  lemma NothingOldest<V>(s: State<V>)
    requires |s.data| <= s.config.maxItems
    ensures OldestRemoved(s, s)
  {
  }

  lemma OldestIsDone<V>(s: State<V>, cs: seq<Candidate<V>>, calls: seq<(string, V)>, s': State<V>)
    requires |s.data| > s.config.maxItems
    requires SelectsFrom(cs, s.data, s.data.Keys) && Oldest(cs, s.data, s.data.Keys) && |Keys(cs)| == |cs|
    requires var threshold := Threshold(s.config.maxItems); |cs| == if |s.data| < threshold then |s.data| else threshold
    requires Keys(cs) <= s.data.Keys
    requires if s.config.onEviction then ReportsExactly(calls, s.data, Keys(cs)) else calls == []
    requires s' == s.(data := s.data - Keys(cs), itemCount := s.itemCount - |cs|, evictions := s.evictions + calls)
    ensures OldestRemoved(s, s')
  {
    hide ReportsExactly, Removed;
    IsRemoved(s, Keys(cs), calls, s');
    var gone := s.data.Keys - s'.data.Keys;
    assert gone == Keys(cs);
    forall k <- gone, j <- s'.data ensures s.data[k].expiration <= s.data[j].expiration {
      var c :| c in cs && c.key == k;
    }
  }

  lemma SetKeepsInv<V>(s: State<V>, key: string, value: V, ttl: int, from: int, until: int, s': State<V>)
    requires Inv(s) && SetStep(s, key, value, ttl, from, until, s')
    ensures Inv(s')
  {
    hide Counted, Removed;
    var put := Put(s, key, s'.lastWrite[key]);
    PutKeepsCounted(s, key, s'.lastWrite[key]);
    if s.config.maxItems > 0 && |put.data| > s.config.maxItems {
      var gone := put.data.Keys - s'.data.Keys;
      RemovalKeepsCounted(put, gone, s');
      RemovedConfig(put, gone, s');
    }
  }

  lemma EvictIsRemoval<V>(s: State<V>, key: string)
    requires key in s.data
    ensures Removed(s, {key}, Evict(s, key))
  {
    var calls := if s.config.onEviction then [(key, s.data[key].value)] else [];
    ReportNone(s.data);
    ReportOne([], s.data, {}, key);
    assert [] + [(key, s.data[key].value)] == [(key, s.data[key].value)] && {} + {key} == {key};
    assert s.evictions + [] == s.evictions;
    IsRemoved(s, {key}, calls, Evict(s, key));
  }

  lemma GetKeepsInv<V>(s: State<V>, key: string, from: int, until: int, r: Option<V>, s': State<V>)
    requires Inv(s) && GetStep(s, key, from, until, r, s')
    ensures Inv(s')
  {
    hide Removed, Counted, Evict;
    if key in s.data {
      EvictIsRemoval(s, key);
      RemovalKeepsInv(s, {key}, Evict(s, key));
    }
  }

  /** The cache never invents or resurrects a value: a hit is the last write, and it had not expired. */
  lemma HitIsLastWrite<V>(s: State<V>, key: string, from: int, until: int, r: Option<V>, s': State<V>)
    requires Inv(s) && GetStep(s, key, from, until, r, s')
    ensures r.Some? ==> key in s.lastWrite && r.value == s.lastWrite[key].value && from <= s.lastWrite[key].expiration
    ensures r.None? ==> key !in s.data || s.data[key].expiration < until
  {
  }

  lemma DeleteKeepsInv<V>(s: State<V>, key: string, s': State<V>)
    requires Inv(s) && DeleteStep(s, key, s')
    ensures Inv(s') && key !in s'.data && key !in s'.lastWrite
  {
    if key in s.data {
      EvictIsRemoval(s, key);
      RemovalKeepsInv(s, {key}, Evict(s, key));
    }
  }

  lemma CleanupKeepsInv<V>(s: State<V>, from: int, until: int, s': State<V>)
    requires Inv(s) && CleanupStep(s, from, until, s')
    ensures Inv(s')
  {
    hide Inv, Removed;
    RemovalKeepsInv(s, s.data.Keys - s'.data.Keys, s');
  }

  lemma ClearKeepsInv<V>(s: State<V>, s': State<V>)
    requires Inv(s) && ClearStep(s, s')
    ensures Inv(s') && s'.data == map[]
  {
    RemovalKeepsInv(s, s.data.Keys, s'.(lastWrite := s.lastWrite));
  }

  /** After a set, the new value is the only one that was not there before. */
  lemma DataAfterSet<V>(s: State<V>, key: string, value: V, ttl: int, from: int, until: int, s': State<V>)
    requires SetStep(s, key, value, ttl, from, until, s')
    ensures forall k <- s'.data ::
        if k == key then s'.data[k].value == value else k in s.data && s'.data[k] == s.data[k]
    ensures s'.config == s.config
  {
    hide Removed;
    var put := Put(s, key, s'.lastWrite[key]);
    if s' != put { RemovedConfig(put, put.data.Keys - s'.data.Keys, s'); }
  }

  /** A set needs no cleanup. */
  predicate HasRoom<V>(s: State<V>, key: string) {
    s.config.maxItems <= 0 || key in s.data || |s.data| < s.config.maxItems
  }

  /** With room, the value that was set is there afterwards, and nothing else has gone. */
  lemma SetWithRoom<V>(s: State<V>, key: string, value: V, ttl: int, from: int, until: int, s': State<V>)
    requires Inv(s) && HasRoom(s, key) && SetStep(s, key, value, ttl, from, until, s')
    ensures key in s'.data && s'.data == s.data[key := s'.data[key]]
    ensures s'.data[key].value == value && from + ttl <= s'.data[key].expiration
  {
    PutKeepsCounted(s, key, s'.lastWrite[key]);
  }

  lemma DataAfterCleanup<V>(s: State<V>, from: int, until: int, s': State<V>)
    requires CleanupStep(s, from, until, s')
    ensures forall k <- s'.data :: k in s.data && s'.data[k] == s.data[k]
  {
    hide ReportsExactly;
  }

  // ---------- Every run ----------

  /** An operation, with what a get answered. */
  datatype Op<V> =
    | Set(key: string, value: V, ttl: int)
    | Get(key: string, result: Option<V>)
    | Delete(key: string)
    | Clear
    | Cleanup

  ghost predicate Step<V>(s: State<V>, op: Op<V>, from: int, until: int, s': State<V>) {
    match op
    case Set(key, value, ttl) => SetStep(s, key, value, ttl, from, until, s')
    case Get(key, result) => GetStep(s, key, from, until, result, s')
    case Delete(key) => DeleteStep(s, key, s')
    case Clear => ClearStep(s, s')
    case Cleanup => CleanupStep(s, from, until, s')
  }

  /** A run from an empty cache; `times[k]` is the clock before operation `k`, and never runs backwards. */
  ghost predicate Run<V>(states: seq<State<V>>, ops: seq<Op<V>>, times: seq<int>) {
    && |states| == |times| == |ops| + 1
    && states[0] == State(states[0].config, map[], 0, [], map[], 0)
    && (forall k | 0 <= k < |ops| :: times[k] <= times[k + 1])
    && (forall k | 0 <= k < |ops| :: Step(states[k], ops[k], times[k], times[k + 1], states[k + 1]))
  }

  /** What a store without expiry and eviction would hold. */
  function Written<V>(ops: seq<Op<V>>): map<string, V> {
    if ops == [] then map[]
    else
      var before := Written(ops[..|ops| - 1]);
      match ops[|ops| - 1]
      case Set(key, value, _) => before[key := value]
      case Get(_, _) => before
      case Delete(key) => before - {key}
      case Clear => map[]
      case Cleanup => before
  }

  ghost predicate Tracks<V>(s: State<V>, written: map<string, V>) {
    s.lastWrite.Keys == written.Keys && forall k <- written :: s.lastWrite[k].value == written[k]
  }

  lemma StepKeepsInv<V>(s: State<V>, op: Op<V>, from: int, until: int, s': State<V>)
    requires Inv(s) && Step(s, op, from, until, s')
    ensures Inv(s')
  {
    hide Inv, SetStep, GetStep, DeleteStep, ClearStep, CleanupStep, Removed;
    match op
    case Set(key, value, ttl) => SetKeepsInv(s, key, value, ttl, from, until, s');
    case Get(key, result) => GetKeepsInv(s, key, from, until, result, s');
    case Delete(key) => DeleteKeepsInv(s, key, s');
    case Clear => ClearKeepsInv(s, s');
    case Cleanup => CleanupKeepsInv(s, from, until, s');
  }

  /** Only sets, deletes and clears change what was last written. */
  lemma LastWriteAfter<V>(s: State<V>, op: Op<V>, from: int, until: int, s': State<V>)
    requires Step(s, op, from, until, s')
    ensures s'.config == s.config
    ensures match op
            case Set(key, value, ttl) =>
              key in s'.lastWrite && s'.lastWrite[key].value == value && s'.lastWrite ==
                  s.lastWrite[key := s'.lastWrite[key]]
            case Get(_, _) => s'.lastWrite == s.lastWrite
            case Delete(key) => s'.lastWrite == s.lastWrite - {key}
            case Clear => s'.lastWrite == map[]
            case Cleanup => s'.lastWrite == s.lastWrite
  {
    hide Removed;
    match op
    case Set(key, value, ttl) =>
      var put := Put(s, key, s'.lastWrite[key]);
      if s' != put { RemovedConfig(put, put.data.Keys - s'.data.Keys, s'); }
    case Get(key, result) =>
    case Delete(key) =>
    case Clear => RemovedConfig(s, s.data.Keys, s'.(lastWrite := s.lastWrite));
    case Cleanup => RemovedConfig(s, s.data.Keys - s'.data.Keys, s');
  }

  lemma StepKeepsTrack<V>(s: State<V>, op: Op<V>, from: int, until: int, s': State<V>, ops: seq<Op<V>>)
    requires Step(s, op, from, until, s') && Tracks(s, Written(ops))
    ensures Tracks(s', Written(ops + [op]))
  {
    hide Step;
    LastWriteAfter(s, op, from, until, s');
    assert (ops + [op])[..|ops|] == ops;
  }

  lemma {:induction false} RunKeeps<V>(states: seq<State<V>>, ops: seq<Op<V>>, times: seq<int>, k: nat)
    requires Run(states, ops, times) && k < |states|
    ensures Inv(states[k]) && Tracks(states[k], Written(ops[..k])) && states[k].config == states[0].config
  {
    hide Step;
    if k > 0 {
      RunKeeps(states, ops, times, k - 1);
      assert ops[..k] == ops[..k - 1] + [ops[k - 1]];
      StepKeepsInv(states[k - 1], ops[k - 1], times[k - 1], times[k], states[k]);
      StepKeepsTrack(states[k - 1], ops[k - 1], times[k - 1], times[k], states[k], ops[..k - 1]);
      LastWriteAfter(states[k - 1], ops[k - 1], times[k - 1], times[k], states[k]);
    }
  }

  /**
   In every reachable state the reported size is the number of stored keys and within the limit,
   and with a callback every key ever inserted is either still stored or was reported once.
   */
  lemma SizesInEveryRun<V>(states: seq<State<V>>, ops: seq<Op<V>>, times: seq<int>, k: nat)
    requires Run(states, ops, times) && k < |states|
    ensures var s := states[k];
            && s.itemCount == |s.data|
            && (s.config.maxItems > 0 ==> s.itemCount <= s.config.maxItems)
            && (s.config.onEviction ==> s.inserted == |s.data| + |s.evictions|)
  {
    RunKeeps(states, ops, times, k);
  }

  /** In every run a hit answers what a store without expiry and eviction holds. */
  lemma HitsInEveryRun<V>(states: seq<State<V>>, ops: seq<Op<V>>, times: seq<int>, k: nat)
    requires Run(states, ops, times) && k < |ops| && ops[k].Get? && ops[k].result.Some?
    ensures var key := ops[k].key;
            && key in Written(ops[..k]) && ops[k].result.value == Written(ops[..k])[key]
            && key in states[k].lastWrite && times[k] <= states[k].lastWrite[key].expiration
  {
    hide Inv, Written;
    RunKeeps(states, ops, times, k);
    assert Step(states[k], ops[k], times[k], times[k + 1], states[k + 1]);
    HitIsLastWrite(states[k], ops[k].key, times[k], times[k + 1], ops[k].result, states[k + 1]);
  }

  /** The operation leaves the item of the key to expiry and eviction. */
  predicate Spares<V>(op: Op<V>, key: string) {
    match op
    case Set(k, _, _) => k != key
    case Get(_, _) => true
    case Delete(k) => k != key
    case Clear => false
    case Cleanup => true
  }

  /** An item that is spared stays, unless it has expired; a set must find room. */
  lemma SparedStays<V>(s: State<V>, op: Op<V>, from: int, until: int, s': State<V>, key: string)
    requires Inv(s) && Step(s, op, from, until, s') && Spares(op, key) && key in s.lastWrite
    ensures key in s'.lastWrite && s'.lastWrite[key] == s.lastWrite[key]
    ensures key in s.data && (op.Set? ==> HasRoom(s, op.key)) ==> key in s'.data || s.lastWrite[key].expiration < until
  {
    hide Removed, HasRoom;
    LastWriteAfter(s, op, from, until, s');
    if op.Set? && HasRoom(s, op.key) {
      SetWithRoom(s, op.key, op.value, op.ttl, from, until, s');
    } else if op.Cleanup? {
      assert key in s.data && key !in s'.data ==> key in s.data.Keys - s'.data.Keys;
    }
  }

  /** Operation `j` sets the key, and nothing before operation `k` sets, deletes or clears it again. */
  ghost predicate LastSet<V>(ops: seq<Op<V>>, j: nat, k: nat, key: string) {
    && j < k <= |ops| && ops[j].Set? && ops[j].key == key
    && forall i | j < i < k :: Spares(ops[i], key)
  }

  /** From operation `j` on, every set found room. */
  ghost predicate RoomBetween<V>(states: seq<State<V>>, ops: seq<Op<V>>, j: nat, k: nat) {
    k <= |ops| == |states| - 1 && forall i | j <= i < k && ops[i].Set? :: HasRoom(states[i], ops[i].key)
  }

  lemma StepOfRun<V>(states: seq<State<V>>, ops: seq<Op<V>>, times: seq<int>, k: nat)
    requires Run(states, ops, times) && k < |ops|
    ensures |states| == |times| == |ops| + 1 && times[k] <= times[k + 1]
    ensures Inv(states[k]) && Step(states[k], ops[k], times[k], times[k + 1], states[k + 1])
  {
    hide Inv, Step, Tracks, Written;
    RunKeeps(states, ops, times, k);
  }

  lemma {:induction false} SetStays<V>(states: seq<State<V>>, ops: seq<Op<V>>, times: seq<int>, j: nat, k: nat,
      key: string)
    requires Run(states, ops, times) && LastSet(ops, j, k, key)
    ensures key in states[k].lastWrite && states[k].lastWrite[key].value == ops[j].value
    ensures times[j] + ops[j].ttl <= states[k].lastWrite[key].expiration <= times[j + 1] + ops[j].ttl
    ensures RoomBetween(states, ops, j, k) ==> key in states[k].data || states[k].lastWrite[key].expiration < times[k]
  {
    hide Inv, HasRoom, Step, Run;
    StepOfRun(states, ops, times, k - 1);
    if k - 1 == j {
      SetIsWritten(states[j], ops[j], times[j], times[k], states[k]);
    } else {
      SetStays(states, ops, times, j, k - 1, key);
      SparedStays(states[k - 1], ops[k - 1], times[k - 1], times[k], states[k], key);
    }
  }

  lemma SetIsWritten<V>(s: State<V>, op: Op<V>, from: int, until: int, s': State<V>)
    requires Inv(s) && op.Set? && Step(s, op, from, until, s')
    ensures op.key in s'.lastWrite && s'.lastWrite[op.key].value == op.value
    ensures from + op.ttl <= s'.lastWrite[op.key].expiration <= until + op.ttl
    ensures HasRoom(s, op.key) ==> op.key in s'.data
  {
    hide HasRoom, OldestRemoved;
    if HasRoom(s, op.key) {
      SetWithRoom(s, op.key, op.value, op.ttl, from, until, s');
    }
  }

  /**
   In every run a get answers the value of the last set as long as its time has not run out, if every set since
   found room, and no longer when the time has run out.
   */
  lemma GetAfterSet<V>(states: seq<State<V>>, ops: seq<Op<V>>, times: seq<int>, j: nat, k: nat)
    requires Run(states, ops, times) && k < |ops| && ops[k].Get? && LastSet(ops, j, k, ops[k].key)
    ensures times[k + 1] <= times[j] + ops[j].ttl && RoomBetween(states, ops, j, k) ==>
              ops[k].result == Some(ops[j].value)
    ensures times[j + 1] + ops[j].ttl < times[k] ==> ops[k].result == None
  {
    hide HasRoom, RoomBetween, Run;
    StepOfRun(states, ops, times, j);
    StepOfRun(states, ops, times, k);
    SetStays(states, ops, times, j, k, ops[k].key);
    HitIsLastWrite(states[k], ops[k].key, times[k], times[k + 1], ops[k].result, states[k + 1]);
  }

  // ---------- The cache object ----------

  class Cache<V> {
    const config: Config
    const clock: Clock
    var data: map<string, Item<V>>
    var itemCount: int
    /** The calls made to `OnEviction`, in order. */
    var evictions: seq<(string, V)>
    ghost var lastWrite: map<string, Item<V>>
    ghost var inserted: nat

    ghost function View(): State<V>
      reads this
    {
      State(config, data, itemCount, evictions, lastWrite, inserted)
    }

    constructor (config: Config, clock: Clock)
      ensures Inv(View()) && View() == State(config, map[], 0, [], map[], 0) && this.clock == clock
    {
      this.config := config;
      this.clock := clock;
      data, itemCount, evictions, lastWrite, inserted := map[], 0, [], map[], 0;
    }

    method Set(key: string, value: V)
      requires Inv(View())
      modifies this, clock
      ensures Inv(View()) && old(clock.now) <= clock.now
      ensures SetStep(old(View()), key, value, config.defaultTTL, old(clock.now), clock.now, View())
    {
      SetWithTTL(key, value, config.defaultTTL);
    }

    method SetWithTTL(key: string, value: V, ttl: int)
      requires Inv(View())
      modifies this, clock
      ensures Inv(View()) && old(clock.now) <= clock.now
      ensures SetStep(old(View()), key, value, ttl, old(clock.now), clock.now, View())
    {
      hide Inv, Put, SetStep, OldestRemoved;
      if key in data {
        data := data - {key};
      } else {
        itemCount := itemCount + 1;
        inserted := inserted + 1;
      }
      var now := clock.Now();
      var item := Item(value, now + ttl);
      data := data[key := item];
      lastWrite := lastWrite[key := item];
      assert data == old(data)[key := item];
      IsPut(old(View()), key, item, View());
      if config.maxItems > 0 && itemCount > config.maxItems {
        CleanupOldest();
      }
      SetIsDone(old(View()), key, value, ttl, item, old(clock.now), clock.now, View());
      SetKeepsInv(old(View()), key, value, ttl, old(clock.now), clock.now, View());
    }

    /** A hit is the last value written, not yet expired; an expired item is evicted on the way. */
    method Get(key: string) returns (r: Option<V>)
      requires Inv(View())
      modifies this, clock
      ensures Inv(View()) && old(clock.now) <= clock.now
      ensures GetStep(old(View()), key, old(clock.now), clock.now, r, View())
    {
      hide Inv;
      r := None;
      if key in data {
        var item := data[key];
        var now := clock.Now();
        if now > item.expiration {
          data := data - {key};
          itemCount := itemCount - 1;
          if config.onEviction {
            evictions := evictions + [(key, item.value)];
          }
        } else {
          r := Some(item.value);
        }
      }
      GetKeepsInv(old(View()), key, old(clock.now), clock.now, r, View());
    }

    method Delete(key: string)
      requires Inv(View())
      modifies this
      ensures Inv(View()) && DeleteStep(old(View()), key, View())
    {
      hide Inv;
      if key in data {
        var item := data[key];
        data := data - {key};
        itemCount := itemCount - 1;
        if config.onEviction {
          evictions := evictions + [(key, item.value)];
        }
      }
      lastWrite := lastWrite - {key};
      DeleteKeepsInv(old(View()), key, View());
    }

    /** Calls the callback once for each item, in whatever order a map is walked. */
    method ReportAll(items: map<string, Item<V>>) returns (ghost calls: seq<(string, V)>)
      modifies this`evictions
      ensures evictions == old(evictions) + calls && ReportsExactly(calls, items, items.Keys)
    {
      hide ReportsExactly;
      calls := [];
      ReportNone(items);
      ghost var told: set<string> := {};
      var todo := items.Keys;
      while todo != {}
        invariant todo + told == items.Keys && todo !! told
        invariant evictions == old(evictions) + calls && ReportsExactly(calls, items, told)
        decreases |todo|
      {
        var key :| key in todo;
        ReportOne(calls, items, told, key);
        evictions := evictions + [(key, items[key].value)];
        calls := calls + [(key, items[key].value)];
        todo, told := todo - {key}, told + {key};
      }
    }

    /** Reports every item and drops them all. */
    method Clear()
      requires Inv(View())
      modifies this
      ensures Inv(View()) && ClearStep(old(View()), View())
    {
      hide Inv, ReportsExactly, ClearStep;
      ghost var calls: seq<(string, V)> := [];
      if config.onEviction {
        calls := ReportAll(data);
      }
      data := map[];
      itemCount := 0;
      lastWrite := map[];
      ClearIsDone(old(View()), calls, View());
      ClearKeepsInv(old(View()), View());
    }

    method Size() returns (n: int)
      requires Inv(View())
      ensures n == |data|
    {
      n := itemCount;
    }

    /** Drops the expired items while walking the map, with one clock reading per item. */
    method DropExpired() returns (count: int, evicted: map<string, Item<V>>, ghost gone: set<string>)
      modifies this`data, clock
      ensures old(clock.now) <= clock.now
      ensures gone <= old(data).Keys && count == |gone| && data == old(data) - gone
      ensures config.onEviction ==> evicted.Keys == gone && forall k <- gone :: evicted[k] == old(data)[k]
      ensures forall k <- old(data) :: old(data)[k].expiration < old(clock.now) ==> k in gone
      ensures forall k <- gone :: old(data)[k].expiration < clock.now
    {
      ghost var was := data;
      gone, evicted, count := {}, map[], 0;
      var todo := data.Keys;
      while todo != {}
        invariant todo <= was.Keys && gone <= was.Keys - todo && count == |gone| && data == was - gone
        invariant config.onEviction ==> evicted.Keys == gone && forall k <- gone :: evicted[k] == was[k]
        invariant old(clock.now) <= clock.now
        invariant forall k <- was.Keys - todo :: was[k].expiration < old(clock.now) ==> k in gone
        invariant forall k <- gone :: was[k].expiration < clock.now
        decreases |todo|
      {
        var key :| key in todo;
        todo := todo - {key};
        var item := data[key];
        var now := clock.Now();
        if now > item.expiration {
          data := data - {key};
          gone := gone + {key};
          count := count + 1;
          if config.onEviction {
            evicted := evicted[key := item];
          }
        }
      }
    }

    /** The periodic sweep; the callbacks come after the walk. */
    method Cleanup()
      requires Inv(View())
      modifies this, clock
      ensures Inv(View()) && old(clock.now) <= clock.now
      ensures CleanupStep(old(View()), old(clock.now), clock.now, View())
    {
      hide Inv, ReportsExactly, CleanupStep, Removed;
      var count, evicted, gone := DropExpired();
      ghost var calls: seq<(string, V)> := [];
      ReportNone(old(data));
      if count > 0 {
        itemCount := itemCount - count;
        if config.onEviction {
          calls := ReportAll(evicted);
          SameReport(calls, evicted, old(data));
        }
      }
      CleanupIsDone(old(View()), gone, calls, old(clock.now), clock.now, View());
      CleanupKeepsInv(old(View()), old(clock.now), clock.now, View());
    }

    /** Deletes and reports the candidates, one after the other. */
    method DeleteAll(candidates: seq<Candidate<V>>) returns (deleted: int, ghost calls: seq<(string, V)>)
      requires SelectsFrom(candidates, data, data.Keys)
      modifies this`data, this`evictions
      ensures deleted == |candidates| == |Keys(candidates)| && Keys(candidates) <= old(data).Keys
      ensures data == old(data) - Keys(candidates) && evictions == old(evictions) + calls
      ensures if config.onEviction then ReportsExactly(calls, old(data), Keys(candidates)) else calls == []
    {
      hide ReportsExactly, SelectsFrom, Keys;
      ghost var was, gone: set<string> := data, {};
      deleted, calls := 0, [];
      ReportNone(was);
      KeysOfNone(candidates);
      for i := 0 to |candidates|
        invariant deleted == i == |gone| && gone == Keys(candidates[..i]) && gone <= was.Keys && data == was - gone
        invariant evictions == old(evictions) + calls
        invariant if config.onEviction then ReportsExactly(calls, was, gone) else calls == []
      {
        var c := candidates[i];
        KeysOfPrefix(candidates, was, i);
        data := data - {c.key};
        deleted := deleted + 1;
        if config.onEviction {
          ReportOne(calls, was, gone, c.key);
          evictions := evictions + [(c.key, c.item.value)];
          calls := calls + [(c.key, c.item.value)];
        }
        gone := gone + {c.key};
      }
      assert candidates[..|candidates|] == candidates;
    }

    method CleanupOldest()
      requires Counted(View())
      modifies this
      ensures OldestRemoved(old(View()), View())
    {
      hide ReportsExactly, OldestRemoved, SelectsFrom, Oldest, Keys, Threshold;
      CountIsSize(View());
      var threshold := Threshold(config.maxItems);
      if itemCount <= config.maxItems {
        NothingOldest(View());
        return;
      }
      var candidates := SelectOldest(data, threshold);
      var deleted, calls := DeleteAll(candidates);
      if deleted > 0 {
        itemCount := itemCount - deleted;
      }
      OldestIsDone(old(View()), candidates, calls, View());
    }
  }

  lemma KeysOfNone<V>(cs: seq<Candidate<V>>)
    ensures Keys(cs[..0]) == {}
  {
  }

  /** A report about some items is a report about a map that holds them. */
  lemma SameReport<V>(calls: seq<(string, V)>, items: map<string, Item<V>>, data: map<string, Item<V>>)
    requires ReportsExactly(calls, items, items.Keys)
    requires items.Keys <= data.Keys && forall k <- items :: items[k] == data[k]
    ensures ReportsExactly(calls, data, items.Keys)
  {
  }
}
