/** Users behind a write-through cache whose keys are the ids converted to strings as code points. */
module UserStore {
  import opened Options
  import Cache
  import opened Utf8

  /** The width of a user id. */
  type Int32 = x: int | -0x8000_0000 <= x < 0x8000_0000

  datatype User = User(id: Int32, username: string, role: string, email: string, nickname: string, passwordHash: string)

  /** A column given as `None` is not updated. */
  datatype UpdateUser = UpdateUser(id: Int32, username: Option<string>, role: Option<string>, email: Option<string>,
                                   nickname: Option<string>, passwordHash: Option<string>)

  datatype FindUser = FindUser(id: Option<Int32>, username: Option<string>, role: Option<string>, email: Option<string>,
                               nickname: Option<string>, limit: Option<nat>)

  const SYSTEM_BOT := User(0, "system_bot", "ADMIN", "", "Bot", "")

  function Or(o: Option<string>, old': string): string { if o.Some? then o.value else old' }

  function Changed(u: User, up: UpdateUser): User {
    u.(username := Or(up.username, u.username), role := Or(up.role, u.role), email := Or(up.email, u.email),
       nickname := Or(up.nickname, u.nickname), passwordHash := Or(up.passwordHash, u.passwordHash))
  }

  predicate Agrees(o: Option<string>, s: string) { o.Some? ==> o.value == s }

  predicate Matches(u: User, find: FindUser) {
    (find.id.Some? ==> find.id.value == u.id) && Agrees(find.username, u.username) && Agrees(find.role, u.role) &&
    Agrees(find.email, u.email) && Agrees(find.nickname, u.nickname)
  }

  /** An update touches the columns it names and no others, never the id. */
  lemma ChangedColumns(u: User, up: UpdateUser)
    ensures var v := Changed(u, up);
            v.id == u.id &&
            (if up.username == None then v.username == u.username else up.username == Some(v.username)) &&
            (if up.role == None then v.role == u.role else up.role == Some(v.role)) &&
            (if up.email == None then v.email == u.email else up.email == Some(v.email)) &&
            (if up.nickname == None then v.nickname == u.nickname else up.nickname == Some(v.nickname)) &&
            (if up.passwordHash == None then v.passwordHash == u.passwordHash
             else up.passwordHash == Some(v.passwordHash))
  {}

  /** A user matches when each column that is asked for has the value asked for. */
  lemma MatchesIff(u: User, find: FindUser)
    ensures Matches(u, find) <==>
            (find.id == None || find.id == Some(u.id)) &&
            (find.username == None || find.username == Some(u.username)) &&
            (find.role == None || find.role == Some(u.role)) && (find.email == None || find.email == Some(u.email)) &&
            (find.nickname == None || find.nickname == Some(u.nickname))
  {}

  /** A listing: current rows that match; all of them unless the limit is reached. */
  ghost predicate Lists(rows: map<Int32, User>, find: FindUser, list: seq<User>) {
    (forall u <- list :: u.id in rows && rows[u.id] == u && Matches(u, find)) &&
    (find.limit.None? || |list| < find.limit.value ==>
     forall id <- rows :: Matches(rows[id], find) ==> rows[id] in list) &&
    (find.limit.Some? ==> |list| <= find.limit.value)
  }

  class Driver {
    var rows: map<Int32, User>

    ghost predicate Valid()
      reads this
    {
      forall id <- rows :: rows[id].id == id
    }

    constructor ()
      ensures Valid() && rows == map[]
    {
      rows := map[];
    }

    /** `create.id` is the id the database hands out; `ok` says whether the statement succeeds. */
    method CreateUser(create: User, ok: bool) returns (r: Result<User, string>)
      requires Valid()
      modifies this
      ensures Valid() && r.Ok? == (ok && create.id !in old(rows)) && (r.Ok? ==> r.value == create)
      ensures rows == if r.Ok? then old(rows)[create.id := create] else old(rows)
    {
      if !ok || create.id in rows {
        return Err("create user");
      }
      rows := rows[create.id := create];
      return Ok(create);
    }

    method UpdateUser(update: UpdateUser, ok: bool) returns (r: Result<User, string>)
      requires Valid()
      modifies this
      ensures Valid() && r.Ok? == (ok && update.id in old(rows))
      ensures r.Ok? ==> r.value == Changed(old(rows)[update.id], update)
      ensures rows == if r.Ok? then old(rows)[update.id := r.value] else old(rows)
    {
      if !ok || update.id !in rows {
        return Err("update user");
      }
      var user := Changed(rows[update.id], update);
      rows := rows[update.id := user];
      return Ok(user);
    }

    method ListUsers(find: FindUser, ok: bool) returns (r: Result<seq<User>, string>)
      requires Valid()
      ensures r.Ok? == ok && (ok ==> Lists(rows, find, r.value))
    {
      if !ok {
        return Err("list users");
      }
      var list: seq<User> := [];
      var rest := rows.Keys;
      while rest != {} && (find.limit.None? || |list| < find.limit.value)
        invariant rest <= rows.Keys
        invariant forall u <- list :: u.id in rows && rows[u.id] == u && Matches(u, find)
        invariant forall id <- rows :: Matches(rows[id], find) ==> rows[id] in list || id in rest
        invariant find.limit.Some? ==> |list| <= find.limit.value
        decreases |rest|
      {
        var id :| id in rest;
        rest := rest - {id};
        if Matches(rows[id], find) {
          list := list + [rows[id]];
        }
      }
      return Ok(list);
    }

    method DeleteUser(id: Int32, ok: bool) returns (err: Option<string>)
      requires Valid()
      modifies this
      ensures Valid() && rows == (if ok then old(rows) - {id} else old(rows)) && err.None? == ok
    {
      if !ok {
        return Some("delete user");
      }
      rows := rows - {id};
      return None;
    }
  }

  /** Every cached user is the current row of its id, stored under that id's key. */
  ghost predicate Coherent(rows: map<Int32, User>, data: Cache.Data<User>) {
    forall k <- data :: var u := data[k].value; KeyOf(u.id) == k && u.id in rows && rows[u.id] == u
  }

  lemma PutKeepsCoherent(rows: map<Int32, User>, s: Cache.State<User>, u: User, expiration: int,
                         evicted: set<Cache.Key>)
    requires Coherent(rows, s.data)
    ensures Coherent(rows[u.id := u], Cache.Put(s, KeyOf(u.id), Cache.Item(u, expiration), evicted).data)
  {
    var d := Cache.Put(s, KeyOf(u.id), Cache.Item(u, expiration), evicted).data;
    forall k | k in d
      ensures KeyOf(d[k].value.id) == k && d[k].value.id in rows[u.id := u] &&
              rows[u.id := u][d[k].value.id] == d[k].value {
      if k != KeyOf(u.id) { assert d[k] == s.data[k]; }
    }
  }

  lemma DropKeepsCoherent(rows: map<Int32, User>, s: Cache.State<User>, id: Int32)
    requires Coherent(rows, s.data)
    ensures Coherent(rows - {id}, Cache.Dropped(s, KeyOf(id)).data)
  {
    var d := Cache.Dropped(s, KeyOf(id)).data;
    forall k | k in d
      ensures KeyOf(d[k].value.id) == k && d[k].value.id in rows - {id} && (rows - {id})[d[k].value.id] == d[k].value {
      assert d[k] == s.data[k];
    }
  }

  class Store {
    const driver: Driver
    const userCache: Cache.Cache<User>

    ghost predicate Valid()
      reads this, driver, userCache
    {
      driver.Valid() && userCache.Valid() && Coherent(driver.rows, userCache.data)
    }

    constructor (config: Cache.Config)
      ensures Valid() && fresh(driver) && fresh(userCache) && driver.rows == map[] && userCache.config == config
      ensures userCache.Now() == Cache.State(map[], 0)
    {
      driver := new Driver();
      userCache := new Cache.Cache(config);
    }

    /** Puts a row into the cache that was current for the table `rows` but for itself. */
    method Remember(u: User, now: int, ghost rows: map<Int32, User>) returns (ghost evicted: set<Cache.Key>)
      requires driver.Valid() && userCache.Valid() && u.id in driver.rows && driver.rows[u.id] == u
      requires Coherent(rows, userCache.data) && driver.rows == rows[u.id := u]
      modifies userCache
      ensures Valid()
      ensures userCache.Now() == Cached(old(userCache.Now()), u, now + userCache.config.defaultTTL, evicted)
      ensures MayLeave(userCache.config, old(userCache.Now()), u, now + userCache.config.defaultTTL, evicted)
    {
      hide Cache.Put, Cache.MayEvict, KeyOf, Coherent;
      ghost var before := userCache.Now();
      evicted := userCache.SetWithTTL(KeyOf(u.id), u, userCache.config.defaultTTL, now);
      PutKeepsCoherent(rows, before, u, now + userCache.config.defaultTTL, evicted);
    }

    method CreateUser(create: User, ok: bool, now: int) returns (r: Result<User, string>, ghost evicted: set<Cache.Key>)
      requires Valid()
      modifies driver, userCache
      ensures Valid() && r.Ok? == (ok && create.id !in old(driver.rows)) && (r.Ok? ==> r.value == create)
      ensures driver.rows == if r.Ok? then old(driver.rows)[create.id := create] else old(driver.rows)
      ensures userCache.Now() == if r.Ok? then
                                   Cached(old(userCache.Now()), create, now + userCache.config.defaultTTL, evicted)
                                 else old(userCache.Now())
      ensures r.Ok? ==> MayLeave(userCache.config, old(userCache.Now()), create, now + userCache.config.defaultTTL,
                                 evicted)
    {
      hide Cache.Put, Cache.MayEvict, KeyOf, Coherent;
      evicted := {};
      var made := driver.CreateUser(create, ok);
      if made.Err? {
        return Err(made.error), {};
      }
      evicted := Remember(made.value, now, old(driver.rows));
      r := made;
    }

    method UpdateUser(update: UpdateUser, ok: bool, now: int)
        returns (r: Result<User, string>, ghost evicted: set<Cache.Key>)
      requires Valid()
      modifies driver, userCache
      ensures Valid() && r.Ok? == (ok && update.id in old(driver.rows))
      ensures r.Ok? ==> r.value == Changed(old(driver.rows)[update.id], update)
      ensures driver.rows == if r.Ok? then old(driver.rows)[update.id := r.value] else old(driver.rows)
      ensures userCache.Now() == if r.Ok? then
                                   Cached(old(userCache.Now()), r.value, now + userCache.config.defaultTTL, evicted)
                                 else old(userCache.Now())
      ensures r.Ok? ==> MayLeave(userCache.config, old(userCache.Now()), r.value, now + userCache.config.defaultTTL,
                                 evicted)
    {
      hide Cache.Put, Cache.MayEvict, KeyOf, Coherent;
      evicted := {};
      var changed := driver.UpdateUser(update, ok);
      if changed.Err? {
        return Err(changed.error), {};
      }
      evicted := Remember(changed.value, now, old(driver.rows));
      r := changed;
    }

    /** Every listed row is put into the cache, one after the other. */
    method ListUsers(find: FindUser, ok: bool, now: int)
        returns (r: Result<seq<User>, string>, ghost evictions: seq<set<Cache.Key>>)
      requires Valid()
      modifies userCache
      ensures Valid() && r.Ok? == ok && (ok ==> Lists(driver.rows, find, r.value))
      ensures ok ==> AllCached(userCache.config, old(userCache.Now()), r.value, now + userCache.config.defaultTTL,
                               evictions, userCache.Now())
      ensures !ok ==> userCache.Now() == old(userCache.Now())
    {
      hide Cache.Put, Cache.MayEvict, KeyOf, Coherent, Cached, MayLeave, AllCached;
      evictions := [];
      var listed := driver.ListUsers(find, ok);
      if listed.Err? {
        return Err(listed.error), [];
      }
      var list := listed.value;
      ghost var before, expiration := userCache.Now(), now + userCache.config.defaultTTL;
      NoneCached(userCache.config, before, expiration);
      assert list[..0] == [];
      for i := 0 to |list|
        invariant Valid() && AllCached(userCache.config, before, list[..i], expiration, evictions, userCache.Now())
      {
        assert driver.rows == driver.rows[list[i].id := list[i]];
        ghost var s := userCache.Now();
        ghost var evicted := Remember(list[i], now, driver.rows);
        assert list[..i + 1] == list[..i] + [list[i]];
        OneMoreCached(userCache.config, before, list[..i], expiration, evictions, s, list[i], evicted, userCache.Now());
        evictions := evictions + [evicted];
      }
      assert list[..|list|] == list;
      r := Ok(list);
    }

    /** By id: the bot for id 0; otherwise the current row of the id, or of an id with the same key. */
    method GetUser(find: FindUser, ok: bool, now: int) returns (r: Result<Option<User>, string>)
      requires Valid()
      modifies userCache
      ensures Valid()
      ensures find.id == Some(0) ==> r == Ok(Some(SYSTEM_BOT))
      ensures find.id.Some? && find.id.value != 0 && r.Ok? &&
              Cache.Found(old(userCache.Now()), KeyOf(find.id.value), now).Some? ==>
                r.value == Cache.Found(old(userCache.Now()), KeyOf(find.id.value), now)
      ensures r.Ok? && r.value.Some? && find.id != Some(0) ==>
                var u := r.value.value;
                u.id in driver.rows && driver.rows[u.id] == u && (find.id.Some? ==> KeyOf(u.id) == KeyOf(find.id.value))
      ensures r.Ok? && r.value.None? && find.limit != Some(0) ==>
                forall id <- driver.rows :: !Matches(driver.rows[id], find)
      ensures ok ==> r.Ok?
    {
      hide Cache.Put, Cache.MayEvict, KeyOf;
      if find.id.Some? {
        if find.id.value == 0 {
          return Ok(Some(SYSTEM_BOT));
        }
        ghost var before := userCache.Now();
        var cached := userCache.Get(KeyOf(find.id.value), now);
        ReadKeepsCoherent(driver.rows, before, KeyOf(find.id.value), now);
        if cached.Some? {
          return Ok(cached);
        }
      }
      hide Coherent;
      var listed, _ := ListUsers(find, ok, now);
      if listed.Err? {
        return Err(listed.error);
      }
      var list := listed.value;
      if |list| == 0 {
        return Ok(None);
      }
      var user := list[0];
      assert driver.rows == driver.rows[user.id := user];
      var _ := Remember(user, now, driver.rows);
      return Ok(Some(user));
    }

    method DeleteUser(id: Int32, ok: bool) returns (err: Option<string>)
      requires Valid()
      modifies driver, userCache
      ensures Valid() && driver.rows == (if ok then old(driver.rows) - {id} else old(driver.rows)) && err.None? == ok
      ensures userCache.Now() == if ok then Cache.Dropped(old(userCache.Now()), KeyOf(id)) else old(userCache.Now())
    {
      hide KeyOf, Coherent;
      ghost var rows, before := driver.rows, userCache.Now();
      err := driver.DeleteUser(id, ok);
      if err.Some? {
        return;
      }
      userCache.Delete(KeyOf(id));
      DropKeepsCoherent(rows, before, id);
    }

    /** `GetUser` by id alone returns the driver's current row, or `SystemBot` for id 0, whatever was done through the
        store before, provided the id is a Unicode scalar value other than U+FFFD. */
    method GetUserByID(id: Int32, ok: bool, now: int) returns (r: Result<Option<User>, string>)
      requires Valid() && Scalar(id) && id != REPLACEMENT
      modifies userCache
      ensures Valid() && (ok ==> r.Ok?)
      ensures r.Ok? ==>
                r.value == if id == 0 then Some(SYSTEM_BOT)
                           else if id in driver.rows then Some(driver.rows[id])
                           else None
    {
      hide Cache.Found, KeyOf, Coherent;
      r := GetUser(FindUser(Some(id), None, None, None, None, None), ok, now);
      if r.Ok? && r.value.Some? && id != 0 { KeyIsInjectiveAt(r.value.value.id, id); }
    }
  }

  function Cached(s: Cache.State<User>, u: User, expiration: int, evicted: set<Cache.Key>): Cache.State<User> {
    Cache.Put(s, KeyOf(u.id), Cache.Item(u, expiration), evicted)
  }

  ghost predicate MayLeave(cfg: Cache.Config, s: Cache.State<User>, u: User, expiration: int, evicted: set<Cache.Key>) {
    Cache.MayEvict(cfg, Cache.Inserted(s, KeyOf(u.id), Cache.Item(u, expiration)), evicted)
  }

  /** The users put into the cache one after the other, each insertion evicting what it may. */
  ghost predicate AllCached(cfg: Cache.Config, s: Cache.State<User>, list: seq<User>, expiration: int,
                            evictions: seq<set<Cache.Key>>, end: Cache.State<User>)
    decreases |list|
  {
    |evictions| == |list| &&
    if list == [] then end == s
    else
      var n := |list| - 1;
      exists mid {:trigger AllCached(cfg, s, list[..n], expiration, evictions[..n], mid)} ::
        AllCached(cfg, s, list[..n], expiration, evictions[..n], mid) &&
        MayLeave(cfg, mid, list[n], expiration, evictions[n]) && end == Cached(mid, list[n], expiration, evictions[n])
  }

  lemma NoneCached(cfg: Cache.Config, s: Cache.State<User>, expiration: int)
    ensures AllCached(cfg, s, [], expiration, [], s)
  {}

  lemma OneMoreCached(cfg: Cache.Config, s: Cache.State<User>, list: seq<User>, expiration: int,
                      evictions: seq<set<Cache.Key>>,
                      mid: Cache.State<User>, u: User, evicted: set<Cache.Key>, end: Cache.State<User>)
    requires AllCached(cfg, s, list, expiration, evictions, mid)
    requires MayLeave(cfg, mid, u, expiration, evicted) && end == Cached(mid, u, expiration, evicted)
    ensures AllCached(cfg, s, list + [u], expiration, evictions + [evicted], end)
  {
    hide MayLeave, Cached;
    var all, gone := list + [u], evictions + [evicted];
    var n := |all| - 1;
    assert all[..n] == list && gone[..n] == evictions && all[n] == u && gone[n] == evicted;
  }

  lemma ReadKeepsCoherent(rows: map<Int32, User>, s: Cache.State<User>, key: Cache.Key, now: int)
    requires Coherent(rows, s.data)
    ensures Coherent(rows, Cache.Read(s, key, now).data)
    ensures Cache.Found(s, key, now).Some? ==>
              var u := Cache.Found(s, key, now).value; KeyOf(u.id) == key && u.id in rows && rows[u.id] == u
  {}
}

/** What happens to users whose ids share a key. */
module UserCollision {
  import opened Options
  import Cache
  import opened Utf8
  import opened UserStore

  /** Two users whose ids are both read as U+FFFD share a key, and asking for the first returns the second. */
  method CollidingUsersAreConfused(a: User, b: User, config: Cache.Config, now: int)
      returns (r: Result<Option<User>, string>)
    requires a.id != b.id && RuneOf(a.id) == RuneOf(b.id) == REPLACEMENT && config.defaultTTL >= 0
    ensures r == Ok(Some(b))
  {
    hide KeyOf, Coherent;
    KeyCollisionIff(a.id, b.id);
    var store := new Store(config);
    var x, e := store.CreateUser(a, true, now);
    assert store.userCache.itemCount == 1 && KeyOf(a.id) in store.userCache.data
      by { FirstPut(config, a, now + config.defaultTTL, e); }
    ghost var before := store.userCache.Now();
    var y, f := store.CreateUser(b, true, now);
    SecondPut(config, before, b, now + config.defaultTTL, f);
    r := store.GetUser(FindUser(Some(a.id), None, None, None, None, None), true, now);
  }

  lemma FirstPut(cfg: Cache.Config, u: User, expiration: int, evicted: set<Cache.Key>)
    requires MayLeave(cfg, Cache.State(map[], 0), u, expiration, evicted)
    ensures var s := Cached(Cache.State(map[], 0), u, expiration, evicted);
            s.itemCount == 1 && KeyOf(u.id) in s.data
  {}

  lemma SecondPut(cfg: Cache.Config, s: Cache.State<User>, u: User, expiration: int, evicted: set<Cache.Key>)
    requires s.itemCount == 1 && KeyOf(u.id) in s.data && MayLeave(cfg, s, u, expiration, evicted)
    ensures KeyOf(u.id) in Cached(s, u, expiration, evicted).data
    ensures Cached(s, u, expiration, evicted).data[KeyOf(u.id)] == Cache.Item(u, expiration)
  {}
}

/** Section 3 of RFC 3629, as far as Go's conversion of an integer to a string uses it. */
module Utf8 {
  import opened Cache

  const REPLACEMENT: int := 0xFFFD

  /** A Unicode scalar value. */
  predicate Scalar(c: int) { 0 <= c < 0xD800 || 0xE000 <= c <= 0x10FFFF }

  function Continuation(c: int): Byte
    requires c >= 0
  {
    (0x80 + c % 0x40) as Byte
  }

  function Encode(c: int): (r: Key)
    requires Scalar(c)
    ensures |r| == if c < 0x80 then 1 else if c < 0x800 then 2 else if c < 0x10000 then 3 else 4
  {
    if c < 0x80 then [c as Byte]
    else if c < 0x800 then [(0xC0 + c / 0x40) as Byte, Continuation(c)]
    else if c < 0x10000 then [(0xE0 + c / 0x1000) as Byte, Continuation(c / 0x40), Continuation(c)]
    else [(0xF0 + c / 0x40000) as Byte, Continuation(c / 0x1000), Continuation(c / 0x40), Continuation(c)]
  }

  /** The value a sequence of the length `Encode` gives stands for. */
  function Decode(s: Key): int {
    if |s| == 1 then s[0] as int
    else if |s| == 2 then (s[0] as int - 0xC0) * 0x40 + (s[1] as int - 0x80)
    else if |s| == 3 then (s[0] as int - 0xE0) * 0x1000 + (s[1] as int - 0x80) * 0x40 + (s[2] as int - 0x80)
    else if |s| == 4 then
      (s[0] as int - 0xF0) * 0x40000 + (s[1] as int - 0x80) * 0x1000 + (s[2] as int - 0x80) * 0x40 +
        (s[3] as int - 0x80)
    else -1
  }

  /** Decoding an encoded scalar value gives it back. */
  lemma RoundTrip(c: int)
    requires Scalar(c)
    ensures Decode(Encode(c)) == c
  {
    assert c / 0x1000 == c / 0x40 / 0x40 && c / 0x40000 == c / 0x1000 / 0x40;
  }

  /** Go's `string(id)`: what is not a scalar value becomes U+FFFD. */
  function RuneOf(id: int): int { if Scalar(id) then id else REPLACEMENT }

  function KeyOf(id: int): Key { Encode(RuneOf(id)) }

  /** Two different ids share a key exactly when neither is a scalar value other than U+FFFD. */
  lemma KeyCollisionIff(a: int, b: int)
    requires a != b
    ensures KeyOf(a) == KeyOf(b) <==> RuneOf(a) == REPLACEMENT && RuneOf(b) == REPLACEMENT
  {
    hide Encode, Decode;
    RoundTrip(RuneOf(a));
    RoundTrip(RuneOf(b));
  }

  lemma KeyIsInjectiveAt(a: int, id: int)
    requires KeyOf(a) == KeyOf(id) && Scalar(id) && id != REPLACEMENT
    ensures a == id
  {
    hide KeyOf;
    if a != id { KeyCollisionIff(a, id); }
  }
}
