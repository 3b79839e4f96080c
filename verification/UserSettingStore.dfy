/** The user setting cache of `store/user_setting.go` in front of the database. */
module UserSettingStore {
  import opened Wrappers
  import opened Cache
  import opened Sequences
  import opened Text

  // ---------- Settings ----------

  datatype Key = Unspecified | General | Sessions | AccessTokens | Shortcuts | Webhooks

  function KeyName(k: Key): string {
    match k
    case Unspecified => "KEY_UNSPECIFIED"
    case General => "GENERAL"
    case Sessions => "SESSIONS"
    case AccessTokens => "ACCESS_TOKENS"
    case Shortcuts => "SHORTCUTS"
    case Webhooks => "WEBHOOKS"
  }

  /** The enumeration's table of names; a name it does not know counts as unspecified. */
  function KeyOfName(name: string): Key {
    match name
    case "GENERAL" => General
    case "SESSIONS" => Sessions
    case "ACCESS_TOKENS" => AccessTokens
    case "SHORTCUTS" => Shortcuts
    case "WEBHOOKS" => Webhooks
    case _ => Unspecified
  }

  lemma KeyNames(k: Key, name: string)
    ensures KeyOfName(KeyName(k)) == k
    ensures KeyOfName(name) != Unspecified ==> KeyName(KeyOfName(name)) == name
    ensures [KeyName(General), KeyName(Sessions), KeyName(AccessTokens), KeyName(Shortcuts), KeyName(Webhooks)] ==
            ["GENERAL", "SESSIONS", "ACCESS_TOKENS", "SHORTCUTS", "WEBHOOKS"]
  {
  }

  datatype Session = Session(id: string, lastAccessed: int, client: string)

  /** The message of a setting, or the JSON text that encodes it. */
  datatype Content =
    | SessionsContent(sessions: seq<Session>)
    | OtherContent(kind: Key, json: string)

  /** A setting by its value. */
  datatype Setting = Setting(userId: int, key: Key, value: Content)

  datatype RawSetting = RawSetting(userId: int, name: string, value: Content)

  datatype FindUserSetting = FindUserSetting(userId: Option<int>, key: Key)

  datatype SettingError = DriverFailed | BadValue | NotOne(count: nat)

  /** Which kind of message a key has. */
  function KindOf(m: Content): Key {
    if m.SessionsContent? then Sessions else if m.kind == Sessions then Unspecified else m.kind
  }

  /** A setting whose message is of another kind is written as the empty message of its key. */
  function ToRaw(s: Setting): Result<RawSetting, SettingError> {
    if s.key == Unspecified then Err(BadValue)
    else
      var value := if KindOf(s.value) == s.key then s.value
                   else if s.key == Sessions then SessionsContent([])
                   else OtherContent(s.key, "{}");
      Ok(RawSetting(s.userId, KeyName(s.key), value))
  }

  /** An unsupported key gives no setting, and a value of another kind cannot be decoded. */
  function FromRaw(raw: RawSetting): Result<Option<Setting>, SettingError> {
    var key := KeyOfName(raw.name);
    if key == Unspecified then Ok(None)
    else if KindOf(raw.value) != key then Err(BadValue)
    else Ok(Some(Setting(raw.userId, key, raw.value)))
  }

  function FromRaws(raws: seq<RawSetting>): Result<seq<Setting>, SettingError> {
    if raws == [] then Ok([])
    else
      match FromRaws(raws[..|raws| - 1])
      case Err(e) => Err(e)
      case Ok(before) =>
        match FromRaw(raws[|raws| - 1])
        case Err(e) => Err(e)
        case Ok(None) => Ok(before)
        case Ok(Some(s)) => Ok(before + [s])
  }

  // ---------- The table ----------

  predicate Matches(find: FindUserSetting, row: RawSetting) {
    && (find.key != Unspecified ==> row.name == KeyName(find.key))
    && (find.userId.Some? ==> row.userId == find.userId.value)
  }

  function Query(rows: seq<RawSetting>, find: FindUserSetting): seq<RawSetting> {
    if rows == [] then []
    else (if Matches(find, rows[0]) then [rows[0]] else []) + Query(rows[1..], find)
  }

  /** The primary key is the user and the name. */
  predicate Unique(rows: seq<RawSetting>) {
    forall i, j | 0 <= i < j < |rows| :: rows[i].userId != rows[j].userId || rows[i].name != rows[j].name
  }

  /** Insert, or update the value on conflict. */
  function Upserted(rows: seq<RawSetting>, raw: RawSetting): seq<RawSetting> {
    if rows == [] then [raw]
    else if rows[0].userId == raw.userId && rows[0].name == raw.name then [raw] + rows[1..]
    else [rows[0]] + Upserted(rows[1..], raw)
  }

  lemma {:induction false} UpsertedRows(rows: seq<RawSetting>, raw: RawSetting)
    requires Unique(rows)
    ensures Unique(Upserted(rows, raw))
    ensures forall r :: r in Upserted(rows, raw) <==>
                        r == raw || (r in rows && !(r.userId == raw.userId && r.name == raw.name))
  {
    if rows != [] {
      assert rows == [rows[0]] + rows[1..];
      UpsertedRows(rows[1..], raw);
      var rest := Upserted(rows[1..], raw);
      forall r <- rows[1..] ensures rows[0].userId != r.userId || rows[0].name != r.name {
        var i :| 0 <= i < |rows[1..]| && rows[1..][i] == r;
      }
      if !(rows[0].userId == raw.userId && rows[0].name == raw.name) {
        forall j | 0 <= j < |rest| ensures rows[0].userId != rest[j].userId || rows[0].name != rest[j].name {
          assert rest[j] in rest;
        }
      }
    }
  }

  lemma {:induction false} QueryIsRows(rows: seq<RawSetting>, find: FindUserSetting)
    ensures forall r :: r in Query(rows, find) <==> r in rows && Matches(find, r)
  {
    if rows != [] {
      QueryIsRows(rows[1..], find);
      assert rows == [rows[0]] + rows[1..];
    }
  }

  /** Each row is looked at by itself, so that the order stays. */
  lemma {:induction false} QueryInOrder(rows: seq<RawSetting>, find: FindUserSetting, keep: RawSetting -> bool)
    requires forall r :: keep(r) <==>
               && (find.userId == None || find.userId == Some(r.userId))
               && (find.key == Unspecified || r.name == KeyName(find.key))
    ensures Query(rows, find) == Filtered(rows, keep)
  {
    if rows != [] {
      QueryInOrder(rows[1..], find, keep);
    }
  }

  lemma {:induction false} QueryNone(rows: seq<RawSetting>, find: FindUserSetting)
    requires forall r <- rows :: !Matches(find, r)
    ensures Query(rows, find) == []
  {
    if rows != [] {
      assert rows[0] in rows && forall r <- rows[1..] :: r in rows;
      QueryNone(rows[1..], find);
    }
  }

  /** A query for one user and one key finds at most the one row. */
  lemma {:induction false} QueryOne(rows: seq<RawSetting>, find: FindUserSetting, row: RawSetting)
    requires Unique(rows) && find.userId.Some? && find.key != Unspecified
    requires row in rows && Matches(find, row)
    ensures Query(rows, find) == [row]
  {
    if rows[0] == row {
      forall r <- rows[1..] ensures !Matches(find, r) {
        var i :| 0 <= i < |rows[1..]| && rows[1..][i] == r;
      }
      QueryNone(rows[1..], find);
    } else {
      QueryOne(rows[1..], find, row);
      var i :| 0 <= i < |rows[1..]| && rows[1..][i] == row;
    }
  }

  // ---------- Cache keys ----------

  function CacheKey(userId: int, name: string): string {
    SignedDecimal(userId) + "-" + name
  }

  /** The separator is the first hyphen after the sign, so the key gives user and name back. */
  lemma CacheKeyInjective(u: int, name: string, v: int, other: string)
    requires CacheKey(u, name) == CacheKey(v, other)
    ensures u == v && name == other
  {
    var a, b := SignedDecimal(u), SignedDecimal(v);
    var k := CacheKey(u, name);
    SignedDecimalSign(u);
    SignedDecimalSign(v);
    assert k[..|a|] == a && k[|a|] == '-' && k[|a| + 1..] == name;
    assert k[..|b|] == b && k[|b|] == '-' && k[|b| + 1..] == other;
    assert forall i | 1 <= i < |a| :: k[i] == a[1..][i - 1];
    assert forall i | 1 <= i < |b| :: k[i] == b[1..][i - 1];
    assert |a| == |b|;
    SignedDecimalInjective(u, v);
  }

  // ---------- The database ----------

  class Driver {
    var rows: seq<RawSetting>

    constructor ()
      ensures rows == []
    {
      rows := [];
    }

    method UpsertUserSetting(raw: RawSetting) returns (r: Result<RawSetting, SettingError>)
      modifies this
      ensures r.Ok? ==> r.value == raw && rows == Upserted(old(rows), raw)
      ensures r.Err? ==> rows == old(rows)
    {
      if * { return Err(DriverFailed); }
      rows := Upserted(rows, raw);
      return Ok(raw);
    }

    method ListUserSettings(find: FindUserSetting) returns (r: Result<seq<RawSetting>, SettingError>)
      ensures if r.Ok? then r.value == Query(rows, find) else r.error == DriverFailed
    {
      if * { return Err(DriverFailed); }
      return Ok(Query(rows, find));
    }
  }

  // ---------- The store ----------

  /** What `GetUserSetting` answers without a cache. */
  function Uncached(rows: seq<RawSetting>, find: FindUserSetting): Result<Option<Setting>, SettingError> {
    match FromRaws(Query(rows, find))
    case Err(e) => Err(e)
    case Ok(list) =>
      if list == [] then Ok(None)
      else if |list| > 1 then Err(NotOne(|list|))
      else Ok(Some(list[0]))
  }

  /** The row behind a cached setting answers for it. */
  lemma UncachedOfRow(rows: seq<RawSetting>, row: RawSetting, s: Setting)
    requires Unique(rows) && row in rows && FromRaw(row) == Ok(Some(s))
    ensures Uncached(rows, FindUserSetting(Some(s.userId), s.key)) == Ok(Some(s))
  {
    var find := FindUserSetting(Some(s.userId), s.key);
    KeyNames(s.key, row.name);
    QueryOne(rows, find, row);
    var raws := [row];
    assert raws[..|raws| - 1] == [] && FromRaws([]) == Ok([]);
    assert FromRaws(raws) == Ok([] + [s]);
  }

  lemma {:induction false} FromRawsAreRows(raws: seq<RawSetting>, s: Setting)
    requires FromRaws(raws).Ok? && s in FromRaws(raws).value
    ensures HasRow(raws, s)
  {
    hide FromRaw;
    var init, last := raws[..|raws| - 1], raws[|raws| - 1];
    if s in FromRaws(init).value {
      FromRawsAreRows(init, s);
      var row :| row in init && FromRaw(row) == Ok(Some(s));
      assert row in raws;
    } else {
      assert last in raws && FromRaw(last) == Ok(Some(s));
    }
  }

  lemma {:induction false} FirstErrorStays(raws: seq<RawSetting>, i: nat)
    requires i <= |raws| && FromRaws(raws[..i]).Err?
    ensures FromRaws(raws) == FromRaws(raws[..i])
    decreases |raws|
  {
    if i < |raws| {
      var init := raws[..|raws| - 1];
      assert init[..i] == raws[..i];
      FirstErrorStays(init, i);
    } else {
      assert raws[..i] == raws;
    }
  }

  // ---------- Sessions ----------

  /** The sessions of a user in the table; `None` when they cannot be read. */
  function SessionsOf(rows: seq<RawSetting>, userId: int): Option<seq<Session>> {
    match Uncached(rows, FindUserSetting(Some(userId), Sessions))
    case Err(_) => None
    case Ok(None) => Some([])
    case Ok(Some(s)) => if s.value.SessionsContent? then Some(s.value.sessions) else None
  }

  /** Every session with the ID replaced, or the session appended if there is none. */
  function Added(list: seq<Session>, session: Session): seq<Session> {
    Replaced(list, session) + (if exists s <- list :: s.id == session.id then [] else [session])
  }

  function Replaced(list: seq<Session>, session: Session): seq<Session> {
    seq(|list|, i requires 0 <= i < |list| => if list[i].id == session.id then session else list[i])
  }

  function SessionsWithout(list: seq<Session>, id: string): seq<Session> {
    if list == [] then []
    else SessionsWithout(list[..|list| - 1], id) + (if list[|list| - 1].id != id then [list[|list| - 1]] else [])
  }

  lemma {:induction false} SessionsInOrder(list: seq<Session>, id: string, keep: Session -> bool)
    requires forall s :: keep(s) <==> s.id != id
    ensures SessionsWithout(list, id) == Filtered(list, keep)
  {
    if list != [] {
      SessionsInOrder(list[..|list| - 1], id, keep);
      FilteredSnoc(list, keep);
    }
  }

  /** Only the first session with the ID gets the new time. */
  function Touched(list: seq<Session>, id: string, time: int): seq<Session> {
    if list == [] then []
    else if list[0].id == id then [list[0].(lastAccessed := time)] + list[1..]
    else [list[0]] + Touched(list[1..], id, time)
  }

  lemma TouchSkips(list: seq<Session>, id: string, time: int, i: nat)
    requires i < |list| && list[i].id != id
    ensures list[..i] + Touched(list[i..], id, time) == list[..i + 1] + Touched(list[i + 1..], id, time)
  {
    assert list[i..][1..] == list[i + 1..] && list[..i + 1] == list[..i] + [list[i]];
  }

  lemma TouchFinds(list: seq<Session>, id: string, time: int, i: nat)
    requires i < |list| && list[i].id == id
    ensures list[..i] + Touched(list[i..], id, time) == list[i := list[i].(lastAccessed := time)]
  {
    assert list[i..][1..] == list[i + 1..];
  }

  lemma TouchEnds(list: seq<Session>, id: string, time: int)
    ensures list[..0] + Touched(list[0..], id, time) == Touched(list, id, time)
    ensures list[..|list|] + Touched(list[|list|..], id, time) == list
  {
    assert list[0..] == list && list[|list|..] == [];
  }

  /** The first session with the ID has the new time, and every other session is as it was. */
  lemma {:induction false} TouchedSession(list: seq<Session>, id: string, time: int, i: nat)
    requires i < |list|
    ensures |Touched(list, id, time)| == |list|
    ensures Touched(list, id, time)[i] ==
            if list[i].id == id && forall j | 0 <= j < i ::
                list[j].id != id then list[i].(lastAccessed := time) else list[i]
  {
    if list[0].id != id && |list| > 1 {
      TouchedSession(list[1..], id, time, if i == 0 then 0 else i - 1);
      assert forall j | 0 < j < |list| :: list[j] == list[1..][j - 1];
      assert (forall j | 0 <= j < i :: list[j].id != id) <==>
          i == 0 || forall j | 0 <= j < i - 1 :: list[1..][j].id != id;
    }
  }

  /** Touching changes nothing exactly when no session has the ID, or the first that has it has that time already. */
  lemma {:induction false} TouchedUnchanged(list: seq<Session>, id: string, time: int)
    ensures Touched(list, id, time) == list <==>
            (forall s <- list :: s.id != id)
            || exists i | 0 <= i < |list| :: FirstWith(list, id, i) && list[i].lastAccessed == time
  {
    forall i | 0 <= i < |list| { TouchedSession(list, id, time, i); }
    if i :| 0 <= i < |list| && FirstWith(list, id, i) {
      assert Touched(list, id, time)[i] == list[i].(lastAccessed := time);
    } else {
      NoFirst(list, id, |list|);
    }
    if list == [] { assert Touched(list, id, time) == []; }
  }

  /** A list for which a failed update leaves the cache and the row apart. */
  lemma TouchChanges()
    ensures Touched([Session("a", 0, "")], "a", 1) == [Session("a", 1, "")]
  {
  }

  predicate FirstWith(list: seq<Session>, id: string, i: nat)
    requires i < |list|
  {
    list[i].id == id && forall j | 0 <= j < i :: list[j].id != id
  }

  lemma {:induction false} NoFirst(list: seq<Session>, id: string, n: nat)
    requires n <= |list| && forall i | 0 <= i < |list| :: !FirstWith(list, id, i)
    ensures forall j | 0 <= j < n :: list[j].id != id
  {
    if n > 0 {
      NoFirst(list, id, n - 1);
      assert !FirstWith(list, id, n - 1);
    }
  }

  method WithSession(existing: seq<Session>, session: Session) returns (updated: seq<Session>)
    ensures updated == Added(existing, session)
  {
    updated := [];
    var found := false;
    for i := 0 to |existing|
      invariant updated == Replaced(existing, session)[..i]
      invariant found <==> exists s <- existing[..i] :: s.id == session.id
    {
      assert existing[..i + 1] == existing[..i] + [existing[i]];
      if existing[i].id == session.id {
        updated := updated + [session];
        found := true;
      } else {
        updated := updated + [existing[i]];
      }
    }
    assert existing[..|existing|] == existing;
    if !found {
      updated := updated + [session];
    }
  }

  method WithoutSession(existing: seq<Session>, sessionID: string) returns (kept: seq<Session>)
    ensures kept == SessionsWithout(existing, sessionID)
  {
    kept := [];
    for i := 0 to |existing|
      invariant kept == SessionsWithout(existing[..i], sessionID)
    {
      assert existing[..i + 1][..i] == existing[..i];
      if existing[i].id != sessionID {
        kept := kept + [existing[i]];
      }
    }
    assert existing[..|existing|] == existing;
  }

  lemma {:induction false} RemovedConcat(a: seq<Session>, b: seq<Session>, id: string)
    ensures SessionsWithout(a + b, id) == SessionsWithout(a, id) + SessionsWithout(b, id)
    decreases |b|
  {
    if b == [] {
      assert a + b == a;
    } else {
      RemovedConcat(a, b[..|b| - 1], id);
      assert (a + b)[..|a + b| - 1] == a + b[..|b| - 1];
    }
  }

  lemma {:induction false} RemovedOfReplaced(list: seq<Session>, session: Session)
    ensures SessionsWithout(Replaced(list, session), session.id) == SessionsWithout(list, session.id)
  {
    if list != [] {
      var n := |list| - 1;
      RemovedOfReplaced(list[..n], session);
      assert Replaced(list, session)[..n] == Replaced(list[..n], session);
    }
  }

  /** Adding a session leaves the others as they were, in their order, and its own ID denotes it alone. */
  lemma AddedSession(list: seq<Session>, session: Session)
    ensures SessionsWithout(Added(list, session), session.id) == SessionsWithout(list, session.id)
    ensures session in Added(list, session)
    ensures forall s <- Added(list, session) :: s.id == session.id ==> s == session
  {
    RemovedOfReplaced(list, session);
    var last := if exists s <- list :: s.id == session.id then [] else [session];
    RemovedConcat(Replaced(list, session), last, session.id);
    if s :| s in list && s.id == session.id {
      var i :| 0 <= i < |list| && list[i] == s;
      assert Replaced(list, session)[i] == session;
    }
  }

  lemma {:induction false} RemovedSession(list: seq<Session>, id: string)
    ensures forall s :: s in SessionsWithout(list, id) <==> s in list && s.id != id
  {
    if list != [] {
      RemovedSession(list[..|list| - 1], id);
      assert list == list[..|list| - 1] + [list[|list| - 1]];
    }
  }

  /** Writing a list of sessions and reading it back gives the list. */
  lemma SessionsAfterUpsert(rows: seq<RawSetting>, userId: int, list: seq<Session>)
    requires Unique(rows)
    ensures SessionsOf(Upserted(rows, RawSetting(userId, "SESSIONS", SessionsContent(list))), userId) == Some(list)
  {
    var raw := RawSetting(userId, "SESSIONS", SessionsContent(list));
    UpsertedRows(rows, raw);
    UncachedOfRow(Upserted(rows, raw), raw, Setting(userId, Sessions, SessionsContent(list)));
  }

  // ---------- The objects that are cached ----------

  /** A decoded message; the cache holds a reference to it, and so do callers. */
  class Message {
    var content: Content

    constructor (content: Content)
      ensures this.content == content
    {
      this.content := content;
    }
  }

  datatype UserSetting = UserSetting(userId: int, key: Key, message: Message)

  ghost function Plain(s: UserSetting): Setting
    reads s.message
  {
    Setting(s.userId, s.key, s.message.content)
  }

  function KeyOf(s: UserSetting): string {
    CacheKey(s.userId, KeyName(s.key))
  }

  ghost function Plains(list: seq<UserSetting>): seq<Setting>
    reads set s <- list :: s.message
  {
    seq(|list|, i requires 0 <= i < |list| reads set s <- list :: s.message => Plain(list[i]))
  }

  method TouchMessage(message: Message, sessionID: string, time: int)
    requires message.content.SessionsContent?
    modifies message
    ensures message.content == SessionsContent(Touched(old(message.content.sessions), sessionID, time))
  {
    hide Touched;
    var sessions := message.content.sessions;
    TouchEnds(sessions, sessionID, time);
    for i := 0 to |sessions|
      invariant message.content == SessionsContent(sessions)
      invariant Touched(sessions, sessionID, time) == sessions[..i] + Touched(sessions[i..], sessionID, time)
    {
      if sessions[i].id == sessionID {
        TouchFinds(sessions, sessionID, time, i);
        message.content := SessionsContent(sessions[i := sessions[i].(lastAccessed := time)]);
        return;
      }
      TouchSkips(sessions, sessionID, time, i);
    }
  }

  class Store {
    const driver: Driver
    const userSettingCache: Cache<UserSetting>
    /** The keys under which an edit may have left the cache and the row apart. */
    ghost var stale: set<string>

    /** The messages that cached settings point at. */
    ghost function Messages(): set<Message>
      reads userSettingCache
    {
      set k <- userSettingCache.data :: userSettingCache.data[k].value.message
    }

    /** Each cached setting stands under the key of its user and name, and has a message of its own. */
    ghost predicate Separate()
      reads userSettingCache
    {
      && (forall k <- userSettingCache.data :: k == KeyOf(userSettingCache.data[k].value))
      && forall j <- userSettingCache.data, k <- userSettingCache.data ::
           userSettingCache.data[j].value.message == userSettingCache.data[k].value.message ==> j == k
    }

    /**
     Each cached setting has a message of its kind and, except under the keys of `apart`, is what its row
     decodes to.
     */
    ghost predicate CoherentBut(apart: set<string>)
      reads this, driver, userSettingCache, Messages()
    {
      && Unique(driver.rows) && Inv(userSettingCache.View()) && Separate()
      && (forall k <- userSettingCache.data :: Proper(Plain(userSettingCache.data[k].value)))
      && forall k <- userSettingCache.data :: k !in apart ==> HasRow(driver.rows, Plain(userSettingCache.data[k].value))
    }

    ghost predicate Valid()
      reads this, driver, userSettingCache, Messages()
    {
      CoherentBut(stale)
    }

    constructor (driver: Driver, userSettingCache: Cache<UserSetting>)
      requires Unique(driver.rows) && Inv(userSettingCache.View()) && userSettingCache.data == map[]
      ensures Valid() && stale == {} && this.driver == driver && this.userSettingCache == userSettingCache
    {
      this.driver, this.userSettingCache, stale := driver, userSettingCache, {};
    }

    /** Puts a setting into the cache. */
    method Put(s: UserSetting)
      requires Inv(userSettingCache.View())
      modifies userSettingCache, userSettingCache.clock
      ensures Inv(userSettingCache.View())
      ensures forall k <- userSettingCache.data ::
                if k == KeyOf(s) then userSettingCache.data[k].value == s
                else k in old(userSettingCache.data) && userSettingCache.data[k] == old(userSettingCache.data)[k]
      ensures old(HasRoom(userSettingCache.View(), KeyOf(s))) ==> KeyOf(s) in userSettingCache.data
    {
      hide SetStep, Inv, KeyOf, HasRoom;
      userSettingCache.Set(KeyOf(s), s);
      DataAfterSet(old(userSettingCache.View()), KeyOf(s), s, userSettingCache.config.defaultTTL,
                   old(userSettingCache.clock.now), userSettingCache.clock.now, userSettingCache.View());
      if old(HasRoom(userSettingCache.View(), KeyOf(s))) {
        SetWithRoom(old(userSettingCache.View()), KeyOf(s), s, userSettingCache.config.defaultTTL,
                    old(userSettingCache.clock.now), userSettingCache.clock.now, userSettingCache.View());
      }
    }

    /** Caches a setting; what was stale under its key is so no longer. */
    method Remember(s: UserSetting)
      requires CoherentBut(stale + {KeyOf(s)}) && HasRow(driver.rows, Plain(s)) && Proper(Plain(s))
      requires forall k <- userSettingCache.data :: userSettingCache.data[k].value.message == s.message ==>
          k == KeyOf(s)
      modifies userSettingCache, userSettingCache.clock
      ensures CoherentBut(stale - {KeyOf(s)})
      ensures forall k <- userSettingCache.data ::
                if k == KeyOf(s) then userSettingCache.data[k].value == s
                else k in old(userSettingCache.data) && userSettingCache.data[k] == old(userSettingCache.data)[k]
      ensures forall k <- userSettingCache.data :: userSettingCache.data[k].value.message == s.message ==> k == KeyOf(s)
      ensures old(HasRoom(userSettingCache.View(), KeyOf(s))) ==> KeyOf(s) in userSettingCache.data
    {
      hide Inv, HasRow, KeyOf, HasRoom, Proper, Unique;
      Put(s);
    }

    /** Caches what was just written. */
    method RememberWritten(written: Setting) returns (setting: UserSetting)
      requires CoherentBut(stale + {CacheKey(written.userId, KeyName(written.key))})
      requires HasRow(driver.rows, written) && Proper(written)
      modifies this`stale, userSettingCache, userSettingCache.clock
      ensures Valid() && stale == old(stale) - {CacheKey(written.userId, KeyName(written.key))}
      ensures Plain(setting) == written && fresh(setting.message)
      ensures old(HasRoom(userSettingCache.View(), CacheKey(written.userId, KeyName(written.key)))) ==>
                KeyOf(setting) in userSettingCache.data && userSettingCache.data[KeyOf(setting)].value == setting
    {
      hide Inv, HasRow, HasRoom, Proper, Unique, CacheKey;
      var message := new Message(written.value);
      setting := UserSetting(written.userId, written.key, message);
      Remember(setting);
      stale := stale - {KeyOf(setting)};
    }

    /**
     Writes a setting and caches its decoded form. A successful upsert also mends what was stale under its
     key; a failed one changes nothing.
     */
    method UpsertUserSetting(upsert: Setting) returns (r: Result<UserSetting, SettingError>)
      requires Valid()
      modifies this`stale, driver, userSettingCache, userSettingCache.clock
      ensures Valid()
      ensures stale == old(stale) - if r.Ok? then {CacheKey(upsert.userId, KeyName(upsert.key))} else {}
      ensures r.Ok? ==> ToRaw(upsert).Ok? && driver.rows == Upserted(old(driver.rows), ToRaw(upsert).value)
                        && fresh(r.value.message) && FromRaw(ToRaw(upsert).value) == Ok(Some(Plain(r.value)))
      ensures r.Ok? && old(HasRoom(userSettingCache.View(), CacheKey(upsert.userId, KeyName(upsert.key)))) ==>
                KeyOf(r.value) in userSettingCache.data && userSettingCache.data[KeyOf(r.value)].value == r.value
      ensures r.Err? ==> driver.rows == old(driver.rows) && userSettingCache.View() == old(userSettingCache.View())
    {
      hide Inv, Upserted, HasRow, Unique, HasRoom, Proper, ToRaw, FromRaw, CacheKey;
      var raw := ToRaw(upsert);
      if raw.Err? {
        return Err(raw.error);
      }
      UpsertedRows(driver.rows, raw.value);
      var written := driver.UpsertUserSetting(raw.value);
      if written.Err? {
        return Err(written.error);
      }
      WrittenDecodes(upsert);
      var decoded := FromRaw(written.value).value.value;
      UpsertKeepsRows(old(driver.rows), raw.value, decoded);
      RowIsProper(raw.value, decoded);
      var setting := RememberWritten(decoded);
      return Ok(setting);
    }

    /** Decodes a row into a new message and caches it. */
    method DecodeRow(row: RawSetting) returns (r: Result<Option<UserSetting>, SettingError>)
      requires Valid() && row in driver.rows
      modifies userSettingCache, userSettingCache.clock
      ensures Valid()
      ensures match FromRaw(row) {
                case Err(e) => r == Err(e)
                case Ok(None) => r == Ok(None)
                case Ok(Some(s)) => r.Ok? && r.value.Some? && Plain(r.value.value) == s && fresh(r.value.value.message)
              }
      ensures forall k <- userSettingCache.data ::
                if r.Ok? && r.value.Some? && k == KeyOf(r.value.value) then userSettingCache.data[k].value ==
                    r.value.value
                else k in old(userSettingCache.data) && userSettingCache.data[k] == old(userSettingCache.data)[k]
    {
      hide Inv, FromRaw, Unique, CacheKey, KeyOf, HasRow, HasRoom;
      var decoded := FromRaw(row);
      if decoded.Err? {
        return Err(decoded.error);
      }
      if decoded.value.None? {
        return Ok(None);
      }
      var plain := decoded.value.value;
      RowIsThere(driver.rows, row, plain);
      RowIsProper(row, plain);
      var message := new Message(plain.value);
      var setting := UserSetting(plain.userId, plain.key, message);
      Remember(setting);
      return Ok(Some(setting));
    }

    /** Every listed setting has a new message with the content that its row decodes to. */
    method ListUserSettings(find: FindUserSetting) returns (r: Result<seq<UserSetting>, SettingError>)
      requires Valid()
      modifies userSettingCache, userSettingCache.clock
      ensures Valid() && forall m <- Messages() :: m in old(Messages()) || fresh(m)
      ensures r.Ok? ==> FromRaws(Query(driver.rows, find)) == Ok(Plains(r.value)) && forall s <- r.value ::
          fresh(s.message)
      ensures r.Ok? ==> forall s <- r.value, k <- userSettingCache.data ::
                          userSettingCache.data[k].value.message == s.message ==> k == KeyOf(s)
      ensures r.Err? ==> r.error == DriverFailed || FromRaws(Query(driver.rows, find)) == Err(r.error)
    {
      hide Inv, FromRaw, Query, Unique, CacheKey, KeyOf, HasRow, HasRoom;
      var raws := driver.ListUserSettings(find);
      if raws.Err? {
        return Err(raws.error);
      }
      QueryIsRows(driver.rows, find);
      var settings: seq<UserSetting> := [];
      ghost var plains: seq<Setting> := [];
      for i := 0 to |raws.value|
        invariant Valid() && forall m <- Messages() :: m in old(Messages()) || fresh(m)
        invariant FromRaws(raws.value[..i]) == Ok(plains)
        invariant |plains| == |settings| && forall j | 0 <= j < |settings| :: Plain(settings[j]) == plains[j]
        invariant forall s <- settings :: fresh(s.message)
        invariant forall s <- settings, k <- userSettingCache.data ::
                    userSettingCache.data[k].value.message == s.message ==> k == KeyOf(s)
      {
        assert raws.value[..i + 1][..i] == raws.value[..i];
        assert raws.value[i] in raws.value;
        var decoded := DecodeRow(raws.value[i]);
        if decoded.Err? {
          FirstErrorStays(raws.value, i + 1);
          return Err(decoded.error);
        }
        if decoded.value.Some? {
          plains := plains + [Plain(decoded.value.value)];
          settings := settings + [decoded.value.value];
        }
      }
      assert raws.value[..|raws.value|] == raws.value;
      assert Plains(settings) == plains;
      return Ok(settings);
    }

    /**
     Unless the database fails, the answer is that of the store without a cache; only under a stale key it can
     be what the cache holds.
     */
    method GetUserSetting(find: FindUserSetting) returns (r: Result<Option<UserSetting>, SettingError>)
      requires Valid()
      modifies userSettingCache, userSettingCache.clock
      ensures Valid() && forall m <- Messages() :: m in old(Messages()) || fresh(m)
      ensures r.Err? ==> r.error == DriverFailed || Uncached(driver.rows, find) == Err(r.error)
      ensures r.Ok? && r.value.None? ==> Uncached(driver.rows, find) == Ok(None)
      ensures r.Ok? && r.value.Some? ==>
          Answers(r.value.value) && (r.value.value.message in old(Messages()) || fresh(r.value.value.message))
      ensures r.Ok? && r.value.Some? ==>
                var s := r.value.value;
                || Uncached(driver.rows, find) == Ok(Some(Plain(s)))
                || (find.userId == Some(s.userId) && find.key == s.key
                    && KeyOf(s) in stale && KeyOf(s) in old(userSettingCache.data)
                        && old(userSettingCache.data)[KeyOf(s)].value == s)
    {
      hide Inv, FromRaw, FromRaws, Query, Unique, HasRow, HasRoom, Uncached, Proper;
      if find.userId.Some? {
        var key := CacheKey(find.userId.value, KeyName(find.key));
        var cached := userSettingCache.Get(key);
        if cached.Some? {
          var s := cached.value;
          CacheKeyInjective(find.userId.value, KeyName(find.key), s.userId, KeyName(s.key));
          KeyNames(find.key, "");
          KeyNames(s.key, "");
          if key !in stale {
            HasRowAnswers(driver.rows, Plain(s));
          }
          return Ok(Some(s));
        }
      }
      r := LoadUserSetting(find);
    }

    /** The setting is of its kind; if its key is in the cache then for it, and no other setting has its message. */
    ghost predicate Answers(s: UserSetting)
      reads userSettingCache, s.message
    {
      && Proper(Plain(s))
      && (KeyOf(s) in userSettingCache.data ==> userSettingCache.data[KeyOf(s)].value == s)
      && forall k <- userSettingCache.data :: userSettingCache.data[k].value.message == s.message ==> k == KeyOf(s)
    }

    /** The answer of the database, which is cached on the way. */
    method LoadUserSetting(find: FindUserSetting) returns (r: Result<Option<UserSetting>, SettingError>)
      requires Valid()
      modifies userSettingCache, userSettingCache.clock
      ensures Valid() && forall m <- Messages() :: m in old(Messages()) || fresh(m)
      ensures r.Err? ==> r.error == DriverFailed || Uncached(driver.rows, find) == Err(r.error)
      ensures r.Ok? && r.value.None? ==> Uncached(driver.rows, find) == Ok(None)
      ensures r.Ok? && r.value.Some? ==>
                var s := r.value.value;
                Answers(s) && Uncached(driver.rows, find) == Ok(Some(Plain(s))) && fresh(s.message)
    {
      hide Inv, FromRaw, FromRaws, Query, Unique, HasRow, HasRoom, KeyOf, Proper;
      var list := ListUserSettings(find);
      if list.Err? {
        return Err(list.error);
      }
      if list.value == [] {
        assert Plains(list.value) == [];
        return Ok(None);
      }
      if |list.value| > 1 {
        return Err(NotOne(|list.value|));
      }
      var s := list.value[0];
      assert Plains(list.value) == [Plain(s)];
      FromRawsAreRows(Query(driver.rows, find), Plain(s));
      QueryIsRows(driver.rows, find);
      HasRowOf(driver.rows, Query(driver.rows, find), Plain(s));
      HasRowIsProper(driver.rows, Plain(s));
      Remember(s);
      return Ok(Some(s));
    }

    /** The sessions that a reader can find: those of the row or, under a stale key, those in the cache. */
    ghost predicate CanRead(userId: int, list: seq<Session>)
      reads this, driver, userSettingCache, Messages()
    {
      var key := CacheKey(userId, "SESSIONS");
      || SessionsOf(driver.rows, userId) == Some(list)
      || (key in stale && key in userSettingCache.data
          && Plain(userSettingCache.data[key].value) == Setting(userId, Sessions, SessionsContent(list)))
    }

    /** The message with the sessions of a user, if there is one. */
    method GetUserSessions(userId: int) returns (r: Result<Option<Message>, SettingError>, ghost seen: seq<Session>)
      requires Valid()
      modifies userSettingCache, userSettingCache.clock
      ensures Valid() && forall m <- Messages() :: m in old(Messages()) || fresh(m)
      ensures r.Ok? ==> old(CanRead(userId, seen))
      ensures r.Ok? && r.value.None? ==> seen == []
      ensures r.Ok? && r.value.Some? ==>
                && r.value.value.content ==
                    SessionsContent(seen) && Answers(UserSetting(userId, Sessions, r.value.value))
                && (r.value.value in old(Messages()) || fresh(r.value.value))
    {
      hide Inv, FromRaws, Query, Unique, HasRow, HasRoom;
      seen := [];
      var setting := GetUserSetting(FindUserSetting(Some(userId), Sessions));
      if setting.Err? {
        return Err(setting.error), [];
      }
      if setting.value.None? {
        return Ok(None), [];
      }
      var s := setting.value.value;
      if Uncached(driver.rows, FindUserSetting(Some(userId), Sessions)) == Ok(Some(Plain(s))) {
        FoundSessions(driver.rows, userId, Plain(s));
      }
      return Ok(Some(s.message)), s.message.content.sessions;
    }

    method WriteSessions(userId: int, list: seq<Session>) returns (r: Result<(), SettingError>)
      requires Valid()
      modifies this`stale, driver, userSettingCache, userSettingCache.clock
      ensures Valid() && stale == old(stale) - if r.Ok? then {CacheKey(userId, "SESSIONS")} else {}
      ensures r.Ok? ==> SessionsOf(driver.rows, userId) == Some(list)
      ensures r.Err? ==> driver.rows == old(driver.rows) && userSettingCache.View() == old(userSettingCache.View())
    {
      hide Inv, Upserted, SessionsOf, HasRow, Unique, HasRoom;
      assert KeyName(Sessions) == "SESSIONS";
      ghost var rows := driver.rows;
      var written := UpsertUserSetting(Setting(userId, Sessions, SessionsContent(list)));
      if written.Err? {
        return Err(written.error);
      }
      SessionsAfterUpsert(rows, userId, list);
      return Ok(());
    }

    /** `seen` is the list that was read, when the sessions could be read. */
    method AddUserSession(userId: int, session: Session) returns (r: Result<(), SettingError>, ghost seen: seq<Session>)
      requires Valid()
      modifies this`stale, driver, userSettingCache, userSettingCache.clock
      ensures Valid() && stale == old(stale) - if r.Ok? then {CacheKey(userId, "SESSIONS")} else {}
      ensures r.Ok? ==> old(CanRead(userId, seen)) && SessionsOf(driver.rows, userId) == Some(Added(seen, session))
      ensures r.Err? ==> driver.rows == old(driver.rows)
    {
      hide Inv, HasRow, Unique, KeyOf, SessionsOf, CacheKey, Proper;
      var message;
      message, seen := GetUserSessions(userId);
      if message.Err? {
        return Err(message.error), [];
      }
      var existing := if message.value.Some? then message.value.value.content.sessions else [];
      var updated := WithSession(existing, session);
      r := WriteSessions(userId, updated);
    }

    method RemoveUserSession(userId: int, sessionID: string)
        returns (r: Result<(), SettingError>, ghost seen: seq<Session>)
      requires Valid()
      modifies this`stale, driver, userSettingCache, userSettingCache.clock
      ensures Valid() && stale == old(stale) - if r.Ok? then {CacheKey(userId, "SESSIONS")} else {}
      ensures r.Ok? ==> old(CanRead(userId, seen))
                        && SessionsOf(driver.rows, userId) == Some(SessionsWithout(seen, sessionID))
      ensures r.Err? ==> driver.rows == old(driver.rows)
    {
      hide Inv, HasRow, Unique, KeyOf, SessionsOf, CacheKey, Proper;
      var message;
      message, seen := GetUserSessions(userId);
      if message.Err? {
        return Err(message.error), [];
      }
      var existing := if message.value.Some? then message.value.value.content.sessions else [];
      var kept := WithoutSession(existing, sessionID);
      r := WriteSessions(userId, kept);
    }

    /**
     Gives the first session with the ID the new time, in the message that the cache may hold. The key becomes
     stale when the cache holds the message and the edit changes it.
     */
    method Touch(userId: int, message: Message, sessionID: string, time: int)
      requires Valid() && Answers(UserSetting(userId, Sessions, message))
      modifies this`stale, message
      ensures Valid()
      ensures message.content == SessionsContent(Touched(old(message.content.sessions), sessionID, time))
      ensures var key, changed := CacheKey(userId, "SESSIONS"), message.content != old(message.content);
              stale == old(stale) + if key in userSettingCache.data && changed then {key} else {}
    {
      hide Inv, HasRow, Unique, CacheKey, Touched;
      ghost var content := message.content;
      TouchMessage(message, sessionID, time);
      if CacheKey(userId, "SESSIONS") in userSettingCache.data && message.content != content {
        stale := stale + {CacheKey(userId, "SESSIONS")};
      }
    }

    /**
     The edit comes before the upsert. `seen` is the list that was edited. Should the upsert fail, the row keeps
     the old time; then the key is stale exactly when it was before, or the cache holds the list and the edit
     changed it. A key that has become stale holds the edited list, which is that of no row.
     */
    method UpdateUserSessionLastAccessed(userId: int, sessionID: string, time: int)
      returns (r: Result<(), SettingError>, ghost seen: Option<seq<Session>>)
      requires Valid()
      modifies this`stale, driver, userSettingCache, userSettingCache.clock, Messages()
      ensures Valid() && (seen.Some? ==> old(CanRead(userId, seen.value)))
      ensures r.Ok? ==> seen.Some? && SessionsOf(driver.rows, userId) == Some(Touched(seen.value, sessionID, time))
                        && stale == old(stale) - {CacheKey(userId, "SESSIONS")}
      ensures r.Err? ==> driver.rows == old(driver.rows)
      ensures r.Err? ==>
                var key := CacheKey(userId, "SESSIONS");
                var edited := seen.Some? && key in userSettingCache.data && Touched(seen.value, sessionID,
                    time) != seen.value;
                && stale == old(stale) + (if edited then {key} else {})
                && (edited ==> Plain(userSettingCache.data[key].value) ==
                               Setting(userId, Sessions, SessionsContent(Touched(seen.value, sessionID, time))))
                && (edited && key !in old(stale) ==> !HasRow(driver.rows, Plain(userSettingCache.data[key].value)))
    {
      hide Inv, SessionsOf, HasRow, Unique, CacheKey, Touched, Proper, HasRoom;
      var message;
      ghost var list;
      message, list := GetUserSessions(userId);
      if message.Err? {
        return Err(message.error), None;
      }
      seen := Some(list);
      if message.value.None? {
        NothingTouched(sessionID, time);
        r := WriteSessions(userId, []);
        return;
      }
      Touch(userId, message.value.value, sessionID, time);
      r := WriteSessions(userId, message.value.value.content.sessions);
      if r.Err? && CacheKey(userId, "SESSIONS") !in old(stale) {
        StaleSessions(driver.rows, userId, list, Touched(list, sessionID, time));
      }
    }

    method Sweep()
      requires Valid()
      modifies userSettingCache, userSettingCache.clock
      ensures Valid()
    {
      hide Inv, HasRow, Unique, KeyOf, CleanupStep, Proper;
      userSettingCache.Cleanup();
      DataAfterCleanup(old(userSettingCache.View()), old(userSettingCache.clock.now),
                       userSettingCache.clock.now, userSettingCache.View());
    }
  }

  lemma NothingTouched(id: string, time: int)
    ensures Touched([], id, time) == []
  {
  }

  /** A setting found under the sessions key holds sessions. */
  lemma FoundSessions(rows: seq<RawSetting>, userId: int, s: Setting)
    requires Uncached(rows, FindUserSetting(Some(userId), Sessions)) == Ok(Some(s))
    ensures s.value.SessionsContent? && s.userId == userId && s.key == Sessions
  {
    hide FromRaw, FromRaws, Query;
    var find := FindUserSetting(Some(userId), Sessions);
    FromRawsAreRows(Query(rows, find), s);
    QueryIsRows(rows, find);
    var row :| row in Query(rows, find) && FromRaw(row) == Ok(Some(s));
    SessionsRow(row, s);
  }

  lemma SessionsRow(row: RawSetting, s: Setting)
    requires row.name == "SESSIONS" && FromRaw(row) == Ok(Some(s))
    ensures s.value.SessionsContent? && s.userId == row.userId && s.key == Sessions
  {
    KeyNames(Sessions, row.name);
  }

  ghost predicate HasRow(rows: seq<RawSetting>, s: Setting) {
    exists row <- rows :: FromRaw(row) == Ok(Some(s))
  }

  lemma RowIsThere(rows: seq<RawSetting>, row: RawSetting, s: Setting)
    requires row in rows && FromRaw(row) == Ok(Some(s))
    ensures HasRow(rows, s)
  {
  }

  /** A key with a message of its kind. */
  predicate Proper(s: Setting) {
    s.key != Unspecified && KindOf(s.value) == s.key
  }

  /** A setting is read as it was written, or as the empty message when its message is not of the kind of its key. */
  lemma WrittenDecodes(s: Setting)
    ensures ToRaw(s).Ok? <==> s.key != Unspecified
    ensures Proper(s) ==> FromRaw(ToRaw(s).value) == Ok(Some(s))
    ensures s.key != Unspecified && !Proper(s) ==>
              FromRaw(ToRaw(s).value) ==
              Ok(Some(s.(value := if s.key == Sessions then SessionsContent([]) else OtherContent(s.key, "{}"))))
  {
    KeyNames(s.key, "");
  }

  lemma RowIsProper(row: RawSetting, s: Setting)
    requires FromRaw(row) == Ok(Some(s))
    ensures Proper(s)
  {
  }

  lemma HasRowIsProper(rows: seq<RawSetting>, s: Setting)
    requires HasRow(rows, s)
    ensures Proper(s)
  {
    var row :| row in rows && FromRaw(row) == Ok(Some(s));
    RowIsProper(row, s);
  }

  lemma HasRowOf(rows: seq<RawSetting>, some: seq<RawSetting>, s: Setting)
    requires HasRow(some, s) && forall row <- some :: row in rows
    ensures HasRow(rows, s)
  {
  }

  /** No setting but the one of the row can stand in the cache for the sessions of a user. */
  lemma StaleSessions(rows: seq<RawSetting>, userId: int, list: seq<Session>, other: seq<Session>)
    requires Unique(rows) && SessionsOf(rows, userId) == Some(list)
    ensures HasRow(rows, Setting(userId, Sessions, SessionsContent(other))) ==> other == list
    ensures HasRow(rows, Setting(userId, Sessions, SessionsContent(list))) || list == []
  {
    hide FromRaw, FromRaws, Query;
    var s := Setting(userId, Sessions, SessionsContent(other));
    if HasRow(rows, s) {
      HasRowAnswers(rows, s);
    }
    if list != [] {
      var find := FindUserSetting(Some(userId), Sessions);
      var found := Uncached(rows, find).value.value;
      FoundSessions(rows, userId, found);
      FromRawsAreRows(Query(rows, find), found);
      QueryIsRows(rows, find);
      HasRowOf(rows, Query(rows, find), found);
    }
  }

  lemma HasRowAnswers(rows: seq<RawSetting>, s: Setting)
    requires Unique(rows) && HasRow(rows, s)
    ensures Uncached(rows, FindUserSetting(Some(s.userId), s.key)) == Ok(Some(s))
  {
    var row :| row in rows && FromRaw(row) == Ok(Some(s));
    UncachedOfRow(rows, row, s);
  }

  /** An upsert keeps the rows behind the settings of every other user and key. */
  lemma UpsertKeepsRows(rows: seq<RawSetting>, raw: RawSetting, setting: Setting)
    requires Unique(rows) && FromRaw(raw) == Ok(Some(setting))
    ensures HasRow(Upserted(rows, raw), setting)
    ensures forall s :: HasRow(rows, s) && !(s.userId == setting.userId && s.key == setting.key) ==>
                        HasRow(Upserted(rows, raw), s)
  {
    UpsertedRows(rows, raw);
    forall s | HasRow(rows, s) && !(s.userId == setting.userId && s.key == setting.key)
      ensures HasRow(Upserted(rows, raw), s)
    {
      var row :| row in rows && FromRaw(row) == Ok(Some(s));
    }
  }
}
