/** A cache with expiring items and a bound on their number. */
module Cache {
  import opened Options

  newtype Byte = x: int | 0 <= x < 256

  /** Keys are byte strings. */
  type Key = seq<Byte>

  datatype Item<V> = Item(value: V, expiration: int)

  /** `maxItems <= 0` stands for no bound. */
  datatype Config = Config(defaultTTL: int, maxItems: int)

  type Data<V> = map<Key, Item<V>>

  datatype State<V> = State(data: Data<V>, itemCount: int)

  // ----- eviction -----

  function Threshold(maxItems: int): int
    requires maxItems > 0
  {
    if maxItems / 5 > 1 then maxItems / 5 else 1
  }

  /** A fifth of the bound, rounded down, and at least one. */
  lemma ThresholdIsAFifth(maxItems: int)
    requires maxItems > 0
    ensures var t := Threshold(maxItems); if maxItems < 10 then t == 1 else 5 * t <= maxItems < 5 * t + 5
  {}

  /** `evicted` are as many keys as the threshold asks for, and no other item expires before one of theirs. */
  ghost predicate OldestOf<V>(data: Data<V>, evicted: set<Key>, threshold: int) {
    evicted <= data.Keys && |evicted| == threshold &&
    forall e <- evicted, k <- data :: k !in evicted ==> data[e].expiration <= data[k].expiration
  }

  /** What an insertion may evict: nothing within the bound, else the items that expire first. */
  ghost predicate MayEvict<V>(cfg: Config, s: State<V>, evicted: set<Key>) {
    if cfg.maxItems > 0 && s.itemCount > cfg.maxItems then OldestOf(s.data, evicted, Threshold(cfg.maxItems))
    else evicted == {}
  }

  /** `walk` visits every key once; the source's map promises no order. */
  predicate Walks<V>(walk: seq<Key>, data: Data<V>) {
    (forall k <- walk :: k in data) && (forall k <- data :: k in walk) &&
    forall i, j :: 0 <= i < j < |walk| ==> walk[i] != walk[j]
  }

  // ----- operations on states -----

  datatype Op<V> =
    | Set(key: Key, value: V, expiration: int, evicted: set<Key>)
    | Get(key: Key, now: int)
    | Delete(key: Key)
    | Clear
    | Cleanup(now: int)

  predicate Expired<V>(item: Item<V>, now: int) { now > item.expiration }

  function Inserted<V>(s: State<V>, key: Key, item: Item<V>): State<V> {
    State(s.data[key := item], if key in s.data then s.itemCount else s.itemCount + 1)
  }

  function ExpiredKeys<V>(data: Data<V>, now: int): set<Key> { set k | k in data && Expired(data[k], now) }

  function Put<V>(s: State<V>, key: Key, item: Item<V>, evicted: set<Key>): State<V> {
    State(Inserted(s, key, item).data - evicted, Inserted(s, key, item).itemCount - |evicted|)
  }

  function Dropped<V>(s: State<V>, key: Key): State<V> {
    if key in s.data then State(s.data - {key}, s.itemCount - 1) else s
  }

  /** Reading an expired item drops it. */
  function Read<V>(s: State<V>, key: Key, now: int): State<V> {
    if key in s.data && Expired(s.data[key], now) then Dropped(s, key) else s
  }

  function Cleaned<V>(s: State<V>, now: int): State<V> {
    State(s.data - ExpiredKeys(s.data, now), s.itemCount - |ExpiredKeys(s.data, now)|)
  }

  function Apply<V>(s: State<V>, op: Op<V>): State<V> {
    match op
    case Set(key, value, expiration, evicted) => Put(s, key, Item(value, expiration), evicted)
    case Get(key, now) => Read(s, key, now)
    case Delete(key) => Dropped(s, key)
    case Clear => State(map[], 0)
    case Cleanup(now) => Cleaned(s, now)
  }

  function Found<V>(s: State<V>, key: Key, now: int): Option<V> {
    if key in s.data && !Expired(s.data[key], now) then Some(s.data[key].value) else None
  }

  /** An item that is put in and not evicted is found up to its expiration and not after it. */
  lemma FoundUntilExpiration<V>(s: State<V>, key: Key, value: V, expiration: int, evicted: set<Key>, now: int)
    requires key !in evicted
    ensures Found(Put(s, key, Item(value, expiration), evicted), key, now)
            == if now <= expiration then Some(value) else None
  {}

  ghost predicate CanHappen<V>(cfg: Config, s: State<V>, op: Op<V>) {
    op.Set? ==> MayEvict(cfg, Inserted(s, op.key, Item(op.value, op.expiration)), op.evicted)
  }

  // ----- the cache object -----

  class Cache<V> {
    var data: Data<V>
    var itemCount: int
    const config: Config

    ghost predicate Valid()
      reads this
    {
      itemCount == |data|
    }

    ghost function Now(): State<V>
      reads this
    {
      State(data, itemCount)
    }

    constructor (config: Config)
      ensures Valid() && Now() == State(map[], 0) && this.config == config
    {
      data, itemCount, this.config := map[], 0, config;
    }

    /** Some order in which the map may be walked. */
    method Range() returns (walk: seq<Key>)
      ensures Walks(walk, data) && |walk| == |data|
    {
      walk := [];
      var rest := data.Keys;
      while rest != {}
        invariant rest <= data.Keys
        invariant forall k <- walk :: k in data && k !in rest
        invariant forall k <- data :: k in walk || k in rest
        invariant forall i, j :: 0 <= i < j < |walk| ==> walk[i] != walk[j]
        invariant |walk| + |rest| == |data|
        decreases |rest|
      {
        var k :| k in rest;
        walk, rest := walk + [k], rest - {k};
      }
    }

    method SetWithTTL(key: Key, value: V, ttl: int, now: int) returns (ghost evicted: set<Key>)
      requires Valid()
      modifies this
      ensures Valid() && Now() == Put(old(Now()), key, Item(value, now + ttl), evicted)
      ensures MayEvict(config, Inserted(old(Now()), key, Item(value, now + ttl)), evicted)
    {
      hide OldestOf;
      ghost var before := Now();
      if key in data {
        data := data - {key};
      } else {
        itemCount := itemCount + 1;
      }
      data := data[key := Item(value, now + ttl)];
      assert Now() == Inserted(before, key, Item(value, now + ttl))
        by { Reinserted(before.data, key, Item(value, now + ttl)); }
      evicted := {};
      if config.maxItems > 0 && itemCount > config.maxItems {
        evicted := CleanupOldest();
      } else {
        NothingEvicted(data);
      }
    }

    method Get(key: Key, now: int) returns (value: Option<V>)
      requires Valid()
      modifies this
      ensures Valid() && Now() == Read(old(Now()), key, now) && value == Found(old(Now()), key, now)
    {
      if key !in data {
        return None;
      }
      var itm := data[key];
      if now > itm.expiration {
        data, itemCount := data - {key}, itemCount - 1;
        return None;
      }
      return Some(itm.value);
    }

    method Delete(key: Key)
      requires Valid()
      modifies this
      ensures Valid() && Now() == Dropped(old(Now()), key)
    {
      if key in data {
        data, itemCount := data - {key}, itemCount - 1;
      }
    }

    method Clear()
      requires Valid()
      modifies this
      ensures Valid() && Now() == State(map[], 0)
    {
      var walk := Range();
      for i := 0 to |walk|
        invariant forall k <- data :: k in walk[i..]
      {
        data := data - {walk[i]};
      }
      assert data == map[];
      itemCount := 0;
    }

    /** Removes the expired items. */
    method Cleanup(now: int)
      requires Valid()
      modifies this
      ensures Valid() && Now() == Cleaned(old(Now()), now)
    {
      hide ExpiredAmong, ExpiredKeys, Walks;
      ghost var start := data;
      var walk := Range();
      var count := 0;
      ExpiredAmongNone(start, now);
      assert walk[..0] == [];
      for i := 0 to |walk|
        invariant itemCount == old(itemCount)
        invariant data == start - ExpiredAmong(start, walk[..i], now) && count == |ExpiredAmong(start, walk[..i], now)|
      {
        WalkNext(start, walk, i);
        ExpiredAmongNext(start, walk[..i], walk[i], now);
        MinusNext(start, ExpiredAmong(start, walk[..i], now), walk[i]);
        if now > data[walk[i]].expiration {
          data, count := data - {walk[i]}, count + 1;
        }
      }
      assert walk[..|walk|] == walk;
      ExpiredAmongAll(start, walk, now);
      CountOfDifference(start, ExpiredKeys(start, now));
      if count > 0 {
        itemCount := itemCount - count;
      }
    }

    /** Keeps a list of the candidates that expire first while walking, and removes them. */
    method CleanupOldest() returns (ghost evicted: set<Key>)
      requires Valid() && config.maxItems > 0 && itemCount > config.maxItems
      modifies this
      ensures Valid() && OldestOf(old(data), evicted, Threshold(config.maxItems))
      ensures Now() == State(old(data) - evicted, old(itemCount) - |evicted|)
    {
      hide OldestOf, KeysOf;
      var threshold := Threshold(config.maxItems);
      var walk := Range();
      var candidates := SelectOldest(walk, threshold);
      evicted := KeysOf(candidates);
      KeysCount(candidates);
      KeysOfNone();
      NothingEvicted(data);
      var deleted := 0;
      assert candidates[..0] == [];
      for i := 0 to |candidates|
        invariant itemCount == old(itemCount) && deleted == i
        invariant data == old(data) - KeysOf(candidates[..i])
      {
        KeysOfNext(candidates, i);
        MinusNext(old(data), KeysOf(candidates[..i]), candidates[i].key);
        data, deleted := data - {candidates[i].key}, deleted + 1;
      }
      assert candidates[..|candidates|] == candidates;
      CountOfDifference(old(data), evicted) by { OldestAreKeys(old(data), evicted, threshold); }
      if deleted > 0 {
        itemCount := itemCount - deleted;
      }
    }

    /** One walk over the items; a full list gives up its latest candidate for an item that expires earlier. */
    method SelectOldest(walk: seq<Key>, threshold: int) returns (candidates: seq<Candidate>)
      requires Walks(walk, data) && 0 < threshold <= |walk|
      ensures Distinct(candidates) && OldestOf(data, KeysOf(candidates), threshold)
    {
      candidates := [];
      for i := 0 to |walk|
        invariant Selected(data, walk[..i], candidates, threshold)
      {
        var key, itm := walk[i], data[walk[i]];
        assert walk[..i + 1] == walk[..i] + [key];
        if |candidates| < threshold {
          SelectedAppend(data, walk[..i], candidates, threshold, key);
          candidates := candidates + [Candidate(key, itm.expiration)];
        } else {
          var newest := Newest(candidates);
          SelectedReplace(data, walk[..i], candidates, threshold, key, newest);
          if itm.expiration < candidates[newest].expiration {
            candidates := candidates[newest := Candidate(key, itm.expiration)];
          }
        }
      }
      assert walk[..|walk|] == walk;
      KeysCount(candidates);
    }
  }

  /** A key with the expiration its item was seen with. */
  datatype Candidate = Candidate(key: Key, expiration: int)

  method Newest(candidates: seq<Candidate>) returns (newest: nat)
    requires candidates != []
    ensures newest < |candidates|
    ensures forall i | 0 <= i < |candidates| :: candidates[i].expiration <= candidates[newest].expiration
  {
    newest := 0;
    for i := 1 to |candidates|
      invariant newest < i && forall j | 0 <= j < i :: candidates[j].expiration <= candidates[newest].expiration
    {
      if candidates[i].expiration > candidates[newest].expiration {
        newest := i;
      }
    }
  }

  function KeysOf(cs: seq<Candidate>): set<Key> { set c | c in cs :: c.key }

  predicate Distinct(cs: seq<Candidate>) { forall i, j :: 0 <= i < j < |cs| ==> cs[i].key != cs[j].key }

  lemma KeysOfNone()
    ensures KeysOf([]) == {}
  {}

  lemma KeysOfNext(cs: seq<Candidate>, i: nat)
    requires i < |cs|
    ensures KeysOf(cs[..i + 1]) == KeysOf(cs[..i]) + {cs[i].key}
  {
    assert cs[..i + 1] == cs[..i] + [cs[i]];
  }

  lemma NothingEvicted<V>(data: Data<V>)
    ensures data - {} == data
  {}

  lemma MinusNext<V>(data: Data<V>, keys: set<Key>, k: Key)
    ensures data - keys - {k} == data - (keys + {k})
  {}

  lemma OldestAreKeys<V>(data: Data<V>, evicted: set<Key>, threshold: int)
    requires OldestOf(data, evicted, threshold)
    ensures evicted <= data.Keys
  {}

  lemma Reinserted<V>(data: Data<V>, key: Key, item: Item<V>)
    ensures (data - {key})[key := item] == data[key := item]
  {}

  function ExpiredAmong<V>(data: Data<V>, seen: seq<Key>, now: int): set<Key> {
    set k | k in data && k in seen && Expired(data[k], now)
  }

  lemma ExpiredAmongNone<V>(data: Data<V>, now: int)
    ensures ExpiredAmong(data, [], now) == {} && data - {} == data
  {}

  lemma WalkNext<V>(data: Data<V>, walk: seq<Key>, i: nat)
    requires Walks(walk, data) && i < |walk|
    ensures walk[i] in data && walk[i] !in walk[..i] && walk[..i + 1] == walk[..i] + [walk[i]]
  {}

  lemma ExpiredAmongNext<V>(data: Data<V>, seen: seq<Key>, k: Key, now: int)
    requires k in data && k !in seen
    ensures k !in ExpiredAmong(data, seen, now)
    ensures ExpiredAmong(data, seen + [k], now)
            == if Expired(data[k], now) then ExpiredAmong(data, seen, now) + {k} else ExpiredAmong(data, seen, now)
  {}

  lemma ExpiredAmongAll<V>(data: Data<V>, walk: seq<Key>, now: int)
    requires Walks(walk, data)
    ensures ExpiredAmong(data, walk, now) == ExpiredKeys(data, now) <= data.Keys
  {}

  lemma {:induction false} KeysCount(cs: seq<Candidate>)
    requires Distinct(cs)
    ensures |KeysOf(cs)| == |cs|
  {
    if cs != [] {
      var n := |cs| - 1;
      KeysCount(cs[..n]);
      assert KeysOf(cs) == KeysOf(cs[..n]) + {cs[n].key};
      assert cs[n].key !in KeysOf(cs[..n]);
    }
  }

  /** Of the keys seen, the candidates are those that expire first. */
  ghost predicate Selected<V>(data: Data<V>, seen: seq<Key>, cs: seq<Candidate>, threshold: int) {
    Distinct(cs) && |cs| == (if |seen| <= threshold then |seen| else threshold) &&
    (forall c <- cs :: c.key in seen && c.key in data && c.expiration == data[c.key].expiration) &&
    (|seen| <= threshold ==> forall k <- seen :: k in KeysOf(cs)) &&
    (forall c <- cs, k <- seen :: k in data && k !in KeysOf(cs) ==> c.expiration <= data[k].expiration)
  }

  lemma SelectedAppend<V>(data: Data<V>, seen: seq<Key>, cs: seq<Candidate>, threshold: int, key: Key)
    requires Selected(data, seen, cs, threshold) && |cs| < threshold && key !in seen && key in data
    ensures Selected(data, seen + [key], cs + [Candidate(key, data[key].expiration)], threshold)
  {
    var cs' := cs + [Candidate(key, data[key].expiration)];
    assert cs'[|cs|] in cs';
    forall k | k in KeysOf(cs) ensures k in KeysOf(cs') {
      var c :| c in cs && c.key == k;
      assert c in cs';
    }
  }

  lemma SelectedReplace<V>(data: Data<V>, seen: seq<Key>, cs: seq<Candidate>, threshold: int, key: Key, newest: nat)
    requires Selected(data, seen, cs, threshold) && |cs| == threshold > 0 && key !in seen && key in data &&
             newest < |cs|
    requires forall i | 0 <= i < |cs| :: cs[i].expiration <= cs[newest].expiration
    ensures var e := data[key].expiration;
            Selected(data, seen + [key],
                     if e < cs[newest].expiration then cs[newest := Candidate(key, e)] else cs, threshold)
  {
    var e := data[key].expiration;
    if e < cs[newest].expiration {
      Replaced(data, seen, cs, threshold, key, newest);
    } else {
      forall c | c in cs ensures c.expiration <= e {}
    }
  }

  lemma Replaced<V>(data: Data<V>, seen: seq<Key>, cs: seq<Candidate>, threshold: int, key: Key, newest: nat)
    requires Selected(data, seen, cs, threshold) && |cs| == threshold > 0 && key !in seen && key in data &&
             newest < |cs|
    requires forall i | 0 <= i < |cs| :: cs[i].expiration <= cs[newest].expiration
    requires data[key].expiration < cs[newest].expiration
    ensures Selected(data, seen + [key], cs[newest := Candidate(key, data[key].expiration)], threshold)
  {
    var x := Candidate(key, data[key].expiration);
    var cs' := cs[newest := x];
    assert forall c <- cs' :: c == x || c in cs;
    assert Distinct(cs');
    forall k | k in KeysOf(cs) && k != cs[newest].key ensures k in KeysOf(cs') {
      var i :| 0 <= i < |cs| && cs[i].key == k;
      assert cs'[i] == cs[i];
    }
    assert cs'[newest] in cs';
    forall c, k | c in cs' && k in seen + [key] && k in data && k !in KeysOf(cs')
      ensures c.expiration <= data[k].expiration {
      if k == cs[newest].key { assert cs[newest] in cs; }
      if c != x { assert c in cs; } else { assert cs[newest] in cs; }
    }
  }

  // ----- histories -----

  /** The item last put under `key` and not deleted since. */
  function LastSet<V>(ops: seq<Op<V>>, key: Key): Option<Item<V>> {
    if ops == [] then None
    else
      var n := |ops| - 1;
      match ops[n]
      case Set(k, value, expiration, _) => if k == key then Some(Item(value, expiration)) else LastSet(ops[..n], key)
      case Delete(k) => if k == key then None else LastSet(ops[..n], key)
      case Clear => None
      case _ => LastSet(ops[..n], key)
  }

  function After<V>(ops: seq<Op<V>>): State<V> {
    if ops == [] then State(map[], 0) else Apply(After(ops[..|ops| - 1]), ops[|ops| - 1])
  }

  ghost predicate IsHistory<V(!new)>(cfg: Config, ops: seq<Op<V>>) {
    ops == [] || (IsHistory(cfg, ops[..|ops| - 1]) && CanHappen(cfg, After(ops[..|ops| - 1]), ops[|ops| - 1]))
  }

  lemma CountOfDifference<V>(data: Data<V>, keys: set<Key>)
    requires keys <= data.Keys
    ensures |data - keys| == |data| - |keys|
  {
    assert (data - keys).Keys == data.Keys - keys;
    assert |data.Keys - keys| == |data.Keys| - |keys|;
  }

  /** The count is the number of items after every operation, and within the bound if there is one. */
  lemma StepKeepsCount<V(!new)>(cfg: Config, s: State<V>, op: Op<V>)
    requires s.itemCount == |s.data| && (cfg.maxItems > 0 ==> |s.data| <= cfg.maxItems) && CanHappen(cfg, s, op)
    ensures var t := Apply(s, op); t.itemCount == |t.data| && (cfg.maxItems > 0 ==> |t.data| <= cfg.maxItems)
    ensures op.Set? && cfg.maxItems > 0 && |s.data| == cfg.maxItems && op.key !in s.data ==>
              |op.evicted| == Threshold(cfg.maxItems) &&
              |Apply(s, op).data| == cfg.maxItems + 1 - Threshold(cfg.maxItems)
  {
    hide OldestOf, ExpiredKeys, Put, Dropped, Cleaned, MayEvict, Inserted;
    match op {
      case Set(key, value, expiration, evicted) => SetKeepsCount(cfg, s, key, Item(value, expiration), evicted);
      case Get(key, now) => DropKeepsCount(s, key);
      case Delete(key) => DropKeepsCount(s, key);
      case Clear =>
      case Cleanup(now) => CleanKeepsCount(s, now);
    }
  }

  lemma DropKeepsCount<V>(s: State<V>, key: Key)
    requires s.itemCount == |s.data|
    ensures Dropped(s, key).itemCount == |Dropped(s, key).data| <= |s.data|
  {
    if key in s.data { CountOfDifference(s.data, {key}); }
  }

  lemma CleanKeepsCount<V>(s: State<V>, now: int)
    requires s.itemCount == |s.data|
    ensures Cleaned(s, now).itemCount == |Cleaned(s, now).data| <= |s.data|
  {
    hide ExpiredKeys;
    ExpiredAreKeys(s.data, now);
    CountOfDifference(s.data, ExpiredKeys(s.data, now));
  }

  lemma ExpiredAreKeys<V>(data: Data<V>, now: int)
    ensures ExpiredKeys(data, now) <= data.Keys
  {}

  lemma SetKeepsCount<V(!new)>(cfg: Config, s: State<V>, key: Key, item: Item<V>, evicted: set<Key>)
    requires s.itemCount == |s.data| && (cfg.maxItems > 0 ==> |s.data| <= cfg.maxItems)
    requires MayEvict(cfg, Inserted(s, key, item), evicted)
    ensures var t := Put(s, key, item, evicted);
            t.itemCount == |t.data| && (cfg.maxItems > 0 ==> |t.data| <= cfg.maxItems) &&
            (cfg.maxItems > 0 && |s.data| == cfg.maxItems && key !in s.data ==>
               |evicted| == Threshold(cfg.maxItems) && |t.data| == cfg.maxItems + 1 - Threshold(cfg.maxItems))
  {
    hide OldestOf;
    EvictedAreKeys(cfg, Inserted(s, key, item), evicted);
    var t := Inserted(s, key, item);
    InsertedCount(s.data, key, item);
    CountOfDifference(t.data, evicted);
  }

  lemma EvictedAreKeys<V(!new)>(cfg: Config, s: State<V>, evicted: set<Key>)
    requires MayEvict(cfg, s, evicted)
    ensures evicted <= s.data.Keys
    ensures |evicted| == if cfg.maxItems > 0 && s.itemCount > cfg.maxItems then Threshold(cfg.maxItems) else 0
  {}

  lemma InsertedCount<V>(data: Data<V>, key: Key, item: Item<V>)
    ensures |data[key := item]| == if key in data then |data| else |data| + 1
  {
    var t := data[key := item];
    assert key !in data ==> t.Keys == data.Keys + {key};
    assert key in data ==> t.Keys == data.Keys;
  }

  lemma {:induction false} CountIsSize<V(!new)>(cfg: Config, ops: seq<Op<V>>)
    requires IsHistory(cfg, ops)
    ensures After(ops).itemCount == |After(ops).data| && (cfg.maxItems > 0 ==> |After(ops).data| <= cfg.maxItems)
  {
    hide Apply, CanHappen;
    if ops != [] {
      CountIsSize(cfg, ops[..|ops| - 1]);
      StepKeepsCount(cfg, After(ops[..|ops| - 1]), ops[|ops| - 1]);
    }
  }

  /** Every stored item is the one last set under its key. */
  lemma {:induction false} StoredIsLastSet<V(!new)>(cfg: Config, ops: seq<Op<V>>, key: Key)
    requires IsHistory(cfg, ops) && key in After(ops).data
    ensures LastSet(ops, key) == Some(After(ops).data[key])
  {
    if ops != [] {
      var n := |ops| - 1;
      if key in After(ops[..n]).data { StoredIsLastSet(cfg, ops[..n], key); }
    }
  }

  /** Over every history, `Get` returns nothing but the value last set, and only while it has not expired. */
  lemma GetReturnsTheLastSet<V(!new)>(cfg: Config, ops: seq<Op<V>>, key: Key, now: int)
    requires IsHistory(cfg, ops) && Found(After(ops), key, now).Some?
    ensures LastSet(ops, key).Some? && LastSet(ops, key).value.value == Found(After(ops), key, now).value
    ensures now <= LastSet(ops, key).value.expiration
  {
    StoredIsLastSet(cfg, ops, key);
  }

  // ----- without a bound nothing is lost -----

  function ClockOf<V>(op: Op<V>, clock: int): int {
    match op case Get(_, now) => now case Cleanup(now) => now case _ => clock
  }

  /** The clock readings of the history do not go back; the last of them is at most `now`. */
  ghost predicate Timely<V>(ops: seq<Op<V>>, now: int) {
    ops == [] || (ClockOf(ops[|ops| - 1], now) <= now && Timely(ops[..|ops| - 1], ClockOf(ops[|ops| - 1], now)))
  }

  lemma {:induction false} NothingIsLost<V(!new)>(cfg: Config, ops: seq<Op<V>>, key: Key, now: int)
    requires IsHistory(cfg, ops) && Timely(ops, now) && cfg.maxItems <= 0
    requires LastSet(ops, key).Some? && now <= LastSet(ops, key).value.expiration
    ensures key in After(ops).data && After(ops).data[key] == LastSet(ops, key).value
  {
    if ops != [] {
      var n := |ops| - 1;
      if !(ops[n].Set? && ops[n].key == key) { NothingIsLost(cfg, ops[..n], key, ClockOf(ops[n], now)); }
    }
  }

  /** A cache without a bound answers exactly with the last value set while it has not expired. */
  lemma UnboundedCacheIsExact<V(!new)>(cfg: Config, ops: seq<Op<V>>, key: Key, now: int)
    requires IsHistory(cfg, ops) && Timely(ops, now) && cfg.maxItems <= 0
    ensures Found(After(ops), key, now) ==
            match LastSet(ops, key)
            case Some(item) => (if Expired(item, now) then None else Some(item.value))
            case None => None
  {
    if key in After(ops).data { StoredIsLastSet(cfg, ops, key); }
    if LastSet(ops, key).Some? && !Expired(LastSet(ops, key).value, now) { NothingIsLost(cfg, ops, key, now); }
  }
}
