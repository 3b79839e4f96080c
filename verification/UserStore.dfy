/** The user cache of `store/user.go` in front of the database. */
module UserStore {
  import opened Wrappers
  import opened Cache
  import opened Sequences

  // ---------- Users and their table ----------

  /** The columns of a user besides its ID. */
  datatype Profile = Profile(
    rowStatus: string, createdTs: int, updatedTs: int, username: string, role: string, email: string,
    nickname: string, passwordHash: string, avatarURL: string, description: string)

  datatype User = User(id: int, profile: Profile)

  /** The conditions of a query; `filters` stands for the compiled CEL filters. */
  datatype FindUser = FindUser(id: Option<int>, filters: Profile -> bool, limit: Option<nat>)

  function ByID(id: int): FindUser {
    FindUser(Some(id), _ => true, None)
  }

  const SYSTEM_BOT_ID := 0
  const SYSTEM_BOT := User(SYSTEM_BOT_ID, Profile("", 0, 0, "system_bot", "ADMIN", "", "Bot", "", "", ""))

  datatype StoreError = DriverFailed

  predicate Matches(find: FindUser, u: User) {
    (find.id.Some? ==> u.id == find.id.value) && find.filters(u.profile)
  }

  function Query(rows: seq<User>, find: FindUser): seq<User> {
    var all := Filter(rows, find);
    if find.limit.Some? && find.limit.value < |all| then all[..find.limit.value] else all
  }

  function Filter(rows: seq<User>, find: FindUser): seq<User> {
    if rows == [] then []
    else (if Matches(find, rows[0]) then [rows[0]] else []) + Filter(rows[1..], find)
  }

  /** The primary key. */
  predicate UniqueIDs(rows: seq<User>) {
    forall i, j | 0 <= i < j < |rows| :: rows[i].id != rows[j].id
  }

  lemma {:induction false} FilterIsRows(rows: seq<User>, find: FindUser)
    ensures forall u :: u in Filter(rows, find) <==>
                        u in rows && find.filters(u.profile) && (find.id == None || find.id == Some(u.id))
  {
    if rows != [] {
      FilterIsRows(rows[1..], find);
      assert rows == [rows[0]] + rows[1..];
    }
  }

  /** Each row is looked at by itself, so that the order stays. */
  lemma {:induction false} FilterInOrder(rows: seq<User>, find: FindUser, keep: User -> bool)
    requires forall u :: keep(u) <==> find.filters(u.profile) && (find.id == None || find.id == Some(u.id))
    ensures Filter(rows, find) == Filtered(rows, keep)
  {
    if rows != [] {
      FilterInOrder(rows[1..], find, keep);
    }
  }

  /** A query finds the first of the rows that meet the conditions, as many as the limit allows. */
  lemma QueryIsRows(rows: seq<User>, find: FindUser)
    ensures Query(rows, find) <= Filter(rows, find)
    ensures |Query(rows, find)| ==
            match find.limit
            case None => |Filter(rows, find)|
            case Some(n) => if |Filter(rows, find)| <= n then |Filter(rows, find)| else n
    ensures forall u <- Query(rows, find) :: u in rows
  {
    FilterIsRows(rows, find);
  }

  /** A query by ID finds the row with that ID, if it meets the other conditions, or nothing. */
  lemma {:induction false} FilterByID(rows: seq<User>, find: FindUser)
    requires UniqueIDs(rows) && find.id.Some?
    ensures Filter(rows, find) ==
            match Lookup(rows, find.id.value) case None => [] case Some(u) => if find.filters(u.profile) then [u]
                else []
  {
    if rows != [] {
      FilterByID(rows[1..], find);
      LookupIsRow(rows[1..], find.id.value);
    }
  }

  function Lookup(rows: seq<User>, id: int): Option<User> {
    if rows == [] then None
    else if rows[0].id == id then Some(rows[0])
    else Lookup(rows[1..], id)
  }

  lemma {:induction false} LookupIsRow(rows: seq<User>, id: int)
    ensures match Lookup(rows, id) case None => (forall u <- rows :: u.id != id) case Some(u) => u in rows && u.id == id
    ensures UniqueIDs(rows) ==> forall u <- rows :: Lookup(rows, u.id) == Some(u)
  {
    if rows != [] {
      LookupIsRow(rows[1..], id);
      forall u <- rows ensures UniqueIDs(rows) ==> Lookup(rows, u.id) == Some(u) {
        if u != rows[0] {
          var i :| 0 <= i < |rows[1..]| && rows[1..][i] == u;
          LookupIsRow(rows[1..], u.id);
        }
      }
    }
  }

  function Updated(rows: seq<User>, id: int, change: Profile -> Profile): seq<User> {
    seq(|rows|, i requires 0 <= i < |rows| =>
      if rows[i].id == id then User(id, change(rows[i].profile)) else rows[i])
  }

  function Without(rows: seq<User>, id: int): seq<User> {
    if rows == [] then []
    else (if rows[0].id != id then [rows[0]] else []) + Without(rows[1..], id)
  }

  lemma {:induction false} WithoutKeeps(rows: seq<User>, id: int)
    ensures forall u :: u in Without(rows, id) <==> u in rows && u.id != id
    ensures UniqueIDs(rows) ==> UniqueIDs(Without(rows, id))
  {
    if rows != [] {
      WithoutKeeps(rows[1..], id);
      assert rows == [rows[0]] + rows[1..];
    }
  }

  lemma {:induction false} WithoutInOrder(rows: seq<User>, id: int, keep: User -> bool)
    requires forall u :: keep(u) <==> u.id != id
    ensures Without(rows, id) == Filtered(rows, keep)
  {
    if rows != [] {
      WithoutInOrder(rows[1..], id, keep);
    }
  }

  // ---------- Cache keys ----------

  /** A number that is a Unicode scalar value (definition D76 of section 3.9 of the Unicode Standard). */
  predicate IsScalar(id: int) {
    0 <= id < 0xD800 || 0xE000 <= id < 0x11_0000
  }

  const REPLACEMENT := 0xFFFD

  /** Go's `string(id)`: the character with that number, or the replacement character. */
  function CacheKey(id: int): string {
    [(if IsScalar(id) then id else REPLACEMENT) as char]
  }

  lemma KeyOfNumber(id: int)
    ensures |CacheKey(id)| == 1
    ensures CacheKey(id)[0] as int == if 0 <= id <= 0xD7FF || 0xE000 <= id <= 0x10FFFF then id else 0xFFFD
  {
  }

  /** The IDs whose cache key is the replacement character. */
  predicate IsReplaced(id: int) {
    id == REPLACEMENT || !IsScalar(id)
  }

  /** Two IDs share a cache key exactly when they are the same or are both replaced. */
  lemma SharedKeys(a: int, b: int)
    ensures CacheKey(a) == CacheKey(b) <==> a == b || (IsReplaced(a) && IsReplaced(b))
  {
    assert CacheKey(a)[0] as int == if IsScalar(a) then a else REPLACEMENT;
    assert CacheKey(b)[0] as int == if IsScalar(b) then b else REPLACEMENT;
  }

  /** No two IDs of the set share a cache key. */
  ghost predicate Separate(ids: iset<int>) {
    forall a, b | a in ids && b in ids :: CacheKey(a) == CacheKey(b) ==> a == b
  }

  /** The cache tells the IDs of a set apart exactly when at most one of them is replaced. */
  lemma SeparateIDs(ids: iset<int>)
    ensures Separate(ids) <==> forall a, b | a in ids && b in ids && IsReplaced(a) && IsReplaced(b) :: a == b
  {
    forall a, b { SharedKeys(a, b); }
  }

  /** With two replaced IDs, asking for the one just after the other was cached answers the wrong user. */
  lemma CollidingIDs(s: State<User>, a: int, ub: User, ttl: int, t: int, s': State<User>, r: Option<User>,
      s'': State<User>)
    requires a != ub.id && IsReplaced(a) && IsReplaced(ub.id) && Inv(s) && HasRoom(s, CacheKey(ub.id)) && ttl >= 0
    requires SetStep(s, CacheKey(ub.id), ub, ttl, t, t, s') && GetStep(s', CacheKey(a), t, t, r, s'')
    ensures r == Some(ub) && r.value.id != a
  {
    SharedKeys(a, ub.id);
    SetWithRoom(s, CacheKey(ub.id), ub, ttl, t, t, s');
  }

  /** Such IDs exist: a negative one and one in the surrogate range. */
  lemma CollidingInput()
    ensures IsReplaced(-1) && IsReplaced(0xD800) && CacheKey(-1) == CacheKey(0xD800)
  {
    SharedKeys(-1, 0xD800);
  }

  // ---------- The database ----------

  class Driver {
    var rows: seq<User>

    ghost predicate Valid()
      reads this
    {
      UniqueIDs(rows) && forall u <- rows :: u.id != SYSTEM_BOT_ID
    }

    constructor ()
      ensures Valid() && rows == []
    {
      rows := [];
    }

    /** `newID` is the ID that the database chooses. Every call may fail, and then changes nothing. */
    method CreateUser(profile: Profile, newID: int) returns (r: Result<User, StoreError>)
      requires Valid() && newID != SYSTEM_BOT_ID && forall u <- rows :: u.id != newID
      modifies this
      ensures Valid()
      ensures r.Ok? ==> r.value == User(newID, profile) && rows == old(rows) + [r.value]
      ensures r.Err? ==> rows == old(rows)
    {
      if * { return Err(DriverFailed); }
      rows := rows + [User(newID, profile)];
      return Ok(User(newID, profile));
    }

    method UpdateUser(id: int, change: Profile -> Profile) returns (r: Result<User, StoreError>)
      requires Valid()
      modifies this
      ensures Valid()
      ensures r.Ok? ==> rows == Updated(old(rows), id, change) && r.value in rows
      ensures r.Ok? ==> exists u <- old(rows) :: u.id == id && r.value == User(id, change(u.profile))
      ensures r.Err? ==> rows == old(rows)
    {
      if * { return Err(DriverFailed); }
      match Lookup(rows, id)
      case None => return Err(DriverFailed); // no row to return
      case Some(u) =>
        LookupIsRow(rows, id);
        var i :| 0 <= i < |rows| && rows[i] == u;
        rows := Updated(rows, id, change);
        assert rows[i] == User(id, change(u.profile));
        return Ok(User(id, change(u.profile)));
    }

    method ListUsers(find: FindUser) returns (r: Result<seq<User>, StoreError>)
      ensures r.Ok? ==> r.value == Query(rows, find)
    {
      if * { return Err(DriverFailed); }
      return Ok(Query(rows, find));
    }

    method DeleteUser(id: int) returns (r: Result<(), StoreError>)
      requires Valid()
      modifies this
      ensures Valid()
      ensures rows == if r.Ok? then Without(old(rows), id) else old(rows)
    {
      if * { return Err(DriverFailed); }
      WithoutKeeps(rows, id);
      rows := Without(rows, id);
      return Ok(());
    }
  }

  // ---------- The store ----------

  /** What `GetUser` answers without a cache. */
  function Uncached(rows: seq<User>, find: FindUser): Option<User> {
    if find.id == Some(SYSTEM_BOT_ID) then Some(SYSTEM_BOT)
    else
      var list := Query(rows, find);
      if list == [] then None else Some(list[0])
  }

  /** Nothing but an ID is asked for. */
  ghost predicate ByIDOnly(find: FindUser) {
    find.id.Some? && (forall p :: find.filters(p)) && find.limit != Some(0)
  }

  lemma UncachedByID(rows: seq<User>, find: FindUser)
    requires UniqueIDs(rows) && ByIDOnly(find) && find.id.value != SYSTEM_BOT_ID
    ensures Uncached(rows, find) == Lookup(rows, find.id.value)
  {
    FilterByID(rows, find);
  }

  predicate MeetsConditions(u: User, find: FindUser) {
    find.filters(u.profile) && find.limit != Some(0)
  }

  /** Ignoring the conditions beside an ID is right exactly when there is no such row, or it meets them. */
  lemma ConditionsIgnored(rows: seq<User>, find: FindUser)
    requires UniqueIDs(rows) && find.id.Some? && find.id.value != SYSTEM_BOT_ID
    ensures Uncached(rows, ByID(find.id.value)) == Uncached(rows, find) <==>
            match Lookup(rows, find.id.value) case None => true case Some(u) => MeetsConditions(u, find)
  {
    FilterByID(rows, find);
    UncachedByID(rows, ByID(find.id.value));
  }

  /** No other row has the key of the ID. */
  ghost predicate OwnKey(rows: seq<User>, id: int) {
    forall u <- rows :: IsReplaced(id) && IsReplaced(u.id) ==> u.id == id
  }

  /** The cache holds rows, each under the key of its own ID. */
  ghost predicate Holds(rows: seq<User>, data: map<string, User>) {
    forall k <- data :: data[k] in rows && CacheKey(data[k].id) == k
  }

  /** Whatever rows the cache holds, a hit for an ID is its row: exactly when no other row has the key of the ID. */
  lemma HitsAreRight(rows: seq<User>, id: int)
    requires UniqueIDs(rows)
    ensures (forall data: map<string, User> ::
               Holds(rows, data) && CacheKey(id) in data ==> Lookup(rows, id) == Some(data[CacheKey(id)]))
            <==> OwnKey(rows, id)
  {
    var k := CacheKey(id);
    LookupIsRow(rows, id);
    forall u <- rows { SharedKeys(u.id, id); }
    if u :| u in rows && IsReplaced(id) && IsReplaced(u.id) && u.id != id {
      SharedKeys(u.id, id);
      var data := map[k := u];
      assert Holds(rows, data) && k in data;
    }
  }

  /** What a hit on the row of the ID means. */
  lemma HitAnswers(rows: seq<User>, u: User, find: FindUser)
    requires UniqueIDs(rows) && u in rows && find.id == Some(u.id) && u.id != SYSTEM_BOT_ID
    ensures Uncached(rows, ByID(u.id)) == Some(u)
    ensures Some(u) == Uncached(rows, find) <==> MeetsConditions(u, find)
    ensures ByIDOnly(find) ==> MeetsConditions(u, find)
  {
    LookupIsRow(rows, u.id);
    UncachedByID(rows, ByID(u.id));
    ConditionsIgnored(rows, find);
  }

  /** A cached user who fails a condition is found by a hit, and not without a cache. */
  lemma HitIgnoresCondition(u: User, find: FindUser)
    requires u.id != SYSTEM_BOT_ID && find == FindUser(Some(u.id), _ => false, None)
    ensures Uncached([u], ByID(u.id)) == Some(u) && Uncached([u], find) == None && !MeetsConditions(u, find)
  {
    ConditionsIgnored([u], find);
    UncachedByID([u], ByID(u.id));
    FilterByID([u], find);
  }

  class Store {
    const driver: Driver
    const userCache: Cache<User>

    /** Each cached user is a row, under the key of its own ID. */
    ghost predicate Coherent()
      reads this, driver, userCache
    {
      && driver.Valid() && Inv(userCache.View())
      && forall k <- userCache.data ::
          userCache.data[k].value in driver.rows && CacheKey(userCache.data[k].value.id) == k
    }

    constructor (driver: Driver, userCache: Cache<User>)
      requires driver.Valid() && Inv(userCache.View()) && userCache.data == map[]
      ensures Coherent() && this.driver == driver && this.userCache == userCache
    {
      this.driver, this.userCache := driver, userCache;
    }

    predicate Caches(u: User)
      reads userCache
    {
      CacheKey(u.id) in userCache.data && userCache.data[CacheKey(u.id)].value == u
    }

    method Remember(u: User)
      requires Inv(userCache.View()) && driver.Valid() && u in driver.rows
      requires forall k <- userCache.data ::
                 userCache.data[k].value.id == u.id || userCache.data[k].value in driver.rows
      requires forall k <- userCache.data :: CacheKey(userCache.data[k].value.id) == k
      modifies userCache, userCache.clock
      ensures Coherent() && old(userCache.clock.now) <= userCache.clock.now
      ensures old(HasRoom(userCache.View(), CacheKey(u.id))) ==> Caches(u)
    {
      hide HasRoom;
      userCache.Set(CacheKey(u.id), u);
      if old(HasRoom(userCache.View(), CacheKey(u.id))) {
        SetWithRoom(old(userCache.View()), CacheKey(u.id), u, userCache.config.defaultTTL,
                    old(userCache.clock.now), userCache.clock.now, userCache.View());
      }
      DataAfterSet(old(userCache.View()), CacheKey(u.id), u, userCache.config.defaultTTL,
                   old(userCache.clock.now), userCache.clock.now, userCache.View());
    }

    method CreateUser(profile: Profile, newID: int) returns (r: Result<User, StoreError>)
      requires Coherent() && newID != SYSTEM_BOT_ID && forall u <- driver.rows :: u.id != newID
      modifies driver, userCache, userCache.clock
      ensures Coherent()
      ensures r.Ok? ==> driver.rows == old(driver.rows) + [r.value] && r.value == User(newID, profile)
      ensures r.Ok? && old(HasRoom(userCache.View(), CacheKey(newID))) ==> Caches(r.value)
      ensures r.Err? ==> driver.rows == old(driver.rows) && userCache.data == old(userCache.data)
    {
      r := driver.CreateUser(profile, newID);
      if r.Ok? {
        Remember(r.value);
      }
    }

    method UpdateUser(id: int, change: Profile -> Profile) returns (r: Result<User, StoreError>)
      requires Coherent()
      modifies driver, userCache, userCache.clock
      ensures Coherent()
      ensures r.Ok? ==> driver.rows == Updated(old(driver.rows), id, change)
      ensures r.Ok? ==> Lookup(driver.rows, id) == Some(r.value)
      ensures r.Ok? ==> exists u <- old(driver.rows) :: u.id == id && r.value == User(id, change(u.profile))
      ensures r.Ok? && old(HasRoom(userCache.View(), CacheKey(id))) ==> Caches(r.value)
      ensures r.Err? ==> driver.rows == old(driver.rows) && userCache.data == old(userCache.data)
    {
      hide Updated, SetStep, Inv;
      r := driver.UpdateUser(id, change);
      if r.Ok? {
        UpdatedKeeps(old(driver.rows), id, change);
        Remember(r.value);
        LookupIsRow(driver.rows, id);
      }
    }

    method ListUsers(find: FindUser) returns (r: Result<seq<User>, StoreError>)
      requires Coherent()
      modifies userCache, userCache.clock
      ensures Coherent() && old(userCache.clock.now) <= userCache.clock.now
      ensures r.Ok? ==> r.value == Query(driver.rows, find)
    {
      hide Inv;
      r := driver.ListUsers(find);
      if r.Ok? {
        QueryIsRows(driver.rows, find);
        for i := 0 to |r.value|
          invariant Coherent() && old(userCache.clock.now) <= userCache.clock.now
        {
          assert r.value[i] in r.value;
          Remember(r.value[i]);
        }
      }
    }

    /**
     Without a hit the answer is that of the store without a cache. A hit answers a row with the key of the ID;
     when no other row has that key, it is the answer for the ID alone, and then it is right exactly when the
     row meets the further conditions.
     */
    method GetUser(find: FindUser) returns (r: Result<Option<User>, StoreError>, ghost hit: bool)
      requires Coherent()
      modifies userCache, userCache.clock
      ensures Coherent()
      ensures find.id == Some(0) ==>
                !hit && r == Ok(Some(User(0, Profile("", 0, 0, "system_bot", "ADMIN", "", "Bot", "", "", ""))))
      ensures hit ==> find.id.Some? && CacheKey(find.id.value) in old(userCache.data)
      ensures find.id.Some? && find.id.value != SYSTEM_BOT_ID && CacheKey(find.id.value) in old(userCache.data) ==>
                userCache.clock.now <= old(userCache.data)[CacheKey(find.id.value)].expiration ==> hit
      ensures hit ==> r == Ok(Some(old(userCache.data)[CacheKey(find.id.value)].value))
                      && r.value.value in driver.rows && CacheKey(r.value.value.id) == CacheKey(find.id.value)
      ensures hit && r.value.value.id == find.id.value ==>
                && r.value == Uncached(driver.rows, ByID(find.id.value))
                && (r.value == Uncached(driver.rows, find) <==> MeetsConditions(r.value.value, find))
      ensures !hit && r.Ok? ==> r.value == Uncached(driver.rows, find)
      ensures r.Ok? && (find.id.None? || (ByIDOnly(find) && OwnKey(driver.rows, find.id.value))) ==>
                r.value == Uncached(driver.rows, find)
    {
      hide Inv, MeetsConditions, ByID, Query;
      hit := false;
      if find.id.Some? {
        if find.id.value == SYSTEM_BOT_ID {
          return Ok(Some(SYSTEM_BOT)), false;
        }
        var key := CacheKey(find.id.value);
        var cached := userCache.Get(key);
        if cached.Some? {
          assert cached.value in driver.rows;
          SharedKeys(cached.value.id, find.id.value);
          if cached.value.id == find.id.value {
            HitAnswers(driver.rows, cached.value, find);
          }
          return Ok(cached), true;
        }
      }
      r := LoadUser(find);
    }

    /** The answer of the database, which is cached on the way. */
    method LoadUser(find: FindUser) returns (r: Result<Option<User>, StoreError>)
      requires Coherent() && find.id != Some(SYSTEM_BOT_ID)
      modifies userCache, userCache.clock
      ensures Coherent() && old(userCache.clock.now) <= userCache.clock.now
      ensures r.Ok? ==> r.value == Uncached(driver.rows, find)
    {
      hide Inv;
      var list := ListUsers(find);
      if list.Err? {
        return Err(list.error);
      }
      if list.value == [] {
        return Ok(None);
      }
      QueryIsRows(driver.rows, find);
      assert list.value[0] in list.value;
      Remember(list.value[0]);
      return Ok(Some(list.value[0]));
    }

    method DeleteUser(id: int) returns (r: Result<(), StoreError>)
      requires Coherent()
      modifies driver, userCache
      ensures Coherent()
      ensures driver.rows == if r.Ok? then Without(old(driver.rows), id) else old(driver.rows)
    {
      r := driver.DeleteUser(id);
      if r.Ok? {
        WithoutKeeps(old(driver.rows), id);
        userCache.Delete(CacheKey(id));
      }
    }

    /** The background sweep of the cache. */
    method Sweep()
      requires Coherent()
      modifies userCache, userCache.clock
      ensures Coherent()
    {
      userCache.Cleanup();
      DataAfterCleanup(old(userCache.View()), old(userCache.clock.now), userCache.clock.now, userCache.View());
    }
  }

  lemma UpdatedIDs(rows: seq<User>, id: int, change: Profile -> Profile)
    ensures |Updated(rows, id, change)| == |rows|
    ensures forall i | 0 <= i < |rows| :: Updated(rows, id, change)[i].id == rows[i].id
    ensures forall i | 0 <= i < |rows| :: rows[i].id != id ==> Updated(rows, id, change)[i] == rows[i]
  {
  }

  /** An update changes no ID and no other row. */
  lemma UpdatedKeeps(rows: seq<User>, id: int, change: Profile -> Profile)
    ensures UniqueIDs(rows) ==> UniqueIDs(Updated(rows, id, change))
    ensures forall u <- rows :: u.id != id ==> u in Updated(rows, id, change)
  {
    hide Updated;
    UpdatedIDs(rows, id, change);
    var after := Updated(rows, id, change);
    forall u <- rows | u.id != id ensures u in after {
      var i :| 0 <= i < |rows| && rows[i] == u;
      assert after[i] == u;
    }
  }
}
