/**
 The workspace setting cache of `store/workspace_setting.go`. Cached settings point at messages, and
 the getters write their defaults into the very message that is cached.
 */
module WorkspaceStore {
  import opened Wrappers
  import opened Cache
  import opened Sequences

  datatype Key = Basic | General | Storage | MemoRelated

  function KeyName(k: Key): string {
    match k
    case Basic => "BASIC"
    case General => "GENERAL"
    case Storage => "STORAGE"
    case MemoRelated => "MEMO_RELATED"
  }

  function KeyOfName(name: string): Option<Key> {
    match name
    case "BASIC" => Some(Basic)
    case "GENERAL" => Some(General)
    case "STORAGE" => Some(Storage)
    case "MEMO_RELATED" => Some(MemoRelated)
    case _ => None
  }

  lemma KeyNames(k: Key, name: string)
    ensures KeyOfName(KeyName(k)) == Some(k)
    ensures KeyOfName(name).Some? ==> KeyName(KeyOfName(name).value) == name
  {
  }

  datatype StorageType = TypeUnspecified | Database | Local | S3

  /** What a message holds; `rest` stands for the fields that have no default. */
  datatype Content =
    | BasicContent(rest: string)
    | GeneralContent(rest: string)
    | StorageContent(storageType: StorageType, uploadSizeLimitMb: int, filepathTemplate: string, rest: string)
    | MemoRelatedContent(contentLengthLimit: int, reactions: seq<string>, nsfwTags: seq<string>, rest: string)

  function KindOf(c: Content): Key {
    match c
    case BasicContent(_) => Basic
    case GeneralContent(_) => General
    case StorageContent(_, _, _, _) => Storage
    case MemoRelatedContent(_, _, _, _) => MemoRelated
  }

  /** A message with no field set. */
  function Empty(k: Key): Content {
    match k
    case Basic => BasicContent("{}")
    case General => GeneralContent("{}")
    case Storage => StorageContent(TypeUnspecified, 0, "", "{}")
    case MemoRelated => MemoRelatedContent(0, [], [], "{}")
  }

  // ---------- Defaults ----------

  const DEFAULT_CONTENT_LENGTH_LIMIT := 8 * 1024
  const DEFAULT_REACTIONS := ["👍", "👎", "❤️", "🎉", "😄", "😕", "😢", "😡"]
  const DEFAULT_NSFW_TAGS := ["nsfw"]
  const DEFAULT_UPLOAD_SIZE_LIMIT_MB := 30
  const DEFAULT_FILEPATH_TEMPLATE := "assets/{timestamp}_{filename}"

  function Defaulted(c: Content): Content {
    match c
    case StorageContent(t, limit, template, rest) =>
      StorageContent(
        if t == TypeUnspecified then Database else t,
        if limit == 0 then DEFAULT_UPLOAD_SIZE_LIMIT_MB else limit,
        if template == "" then DEFAULT_FILEPATH_TEMPLATE else template,
        rest)
    case MemoRelatedContent(limit, reactions, tags, rest) =>
      MemoRelatedContent(
        if limit < DEFAULT_CONTENT_LENGTH_LIMIT then DEFAULT_CONTENT_LENGTH_LIMIT else limit,
        if reactions == [] then DEFAULT_REACTIONS else reactions,
        if tags == [] then DEFAULT_NSFW_TAGS else tags,
        rest)
    case _ => c
  }

  /** Defaulting what was defaulted before changes nothing, and nothing becomes another kind. */
  lemma DefaultedTwice(c: Content)
    ensures Defaulted(Defaulted(c)) == Defaulted(c) && KindOf(Defaulted(c)) == KindOf(c)
  {
  }

  /** A content length limit of at least 8 KiB is kept, and so is a list that is not empty. */
  predicate IsMemoRelated(row: Content, c: Content) {
    && row.MemoRelatedContent? && c.MemoRelatedContent?
    && c.contentLengthLimit == (if row.contentLengthLimit >= 8192 then row.contentLengthLimit else 8192)
    && (c.reactions == if row.reactions != [] then row.reactions
                       else ["👍", "👎", "❤️", "🎉", "😄", "😕", "😢", "😡"])
    && (c.nsfwTags == if row.nsfwTags != [] then row.nsfwTags else ["nsfw"])
    && c.rest == row.rest
  }

  /** A field that is set is kept. */
  predicate IsStorage(row: Content, c: Content) {
    && row.StorageContent? && c.StorageContent?
    && c.storageType == (if row.storageType.TypeUnspecified? then Database else row.storageType)
    && c.uploadSizeLimitMb == (if row.uploadSizeLimitMb != 0 then row.uploadSizeLimitMb else 30)
    && (c.filepathTemplate == if row.filepathTemplate != "" then row.filepathTemplate
                              else "assets/{timestamp}_{filename}")
    && c.rest == row.rest
  }

  /** What the getters write keeps what is set and fills in the rest. */
  lemma DefaultsKeepWhatIsSet(c: Content)
    ensures match c
            case MemoRelatedContent(_, _, _, _) => IsMemoRelated(c, Defaulted(c))
            case StorageContent(_, _, _, _) => IsStorage(c, Defaulted(c))
            case _ => Defaulted(c) == c
  {
  }

  // ---------- The table ----------

  datatype RawSetting = RawSetting(name: string, value: Content)

  datatype SettingError = DriverFailed | BadValue | Multiple(name: string) | Unsupported

  predicate Unique(rows: seq<RawSetting>) {
    forall i, j | 0 <= i < j < |rows| :: rows[i].name != rows[j].name
  }

  /** An empty name asks for every row. */
  function Query(rows: seq<RawSetting>, name: string): seq<RawSetting> {
    if rows == [] then []
    else (if name == "" || rows[0].name == name then [rows[0]] else []) + Query(rows[1..], name)
  }

  function Upserted(rows: seq<RawSetting>, raw: RawSetting): seq<RawSetting> {
    if rows == [] then [raw]
    else if rows[0].name == raw.name then [raw] + rows[1..]
    else [rows[0]] + Upserted(rows[1..], raw)
  }

  function Find(rows: seq<RawSetting>, name: string): Option<Content> {
    if rows == [] then None
    else if rows[0].name == name then Some(rows[0].value)
    else Find(rows[1..], name)
  }

  /** The row of a key, or the empty message. */
  function RowOf(rows: seq<RawSetting>, k: Key): Content {
    match Find(rows, KeyName(k))
    case None => Empty(k)
    case Some(c) => c
  }

  lemma {:induction false} FindIsRow(rows: seq<RawSetting>, name: string)
    ensures match Find(rows, name)
            case None => forall r <- rows :: r.name != name
            case Some(c) => RawSetting(name, c) in rows
    ensures Unique(rows) ==> forall r <- rows :: r.name == name ==> Find(rows, name) == Some(r.value)
  {
    if rows != [] {
      FindIsRow(rows[1..], name);
      assert rows == [rows[0]] + rows[1..];
      forall r <- rows | Unique(rows) && r.name == name ensures Find(rows, name) == Some(r.value) {
        if r != rows[0] {
          var i :| 0 <= i < |rows[1..]| && rows[1..][i] == r;
        }
      }
    }
  }

  /** Each key has the row of its name; without one its message is empty. */
  lemma RowsOfKeys(rows: seq<RawSetting>)
    requires Unique(rows)
    ensures forall r <- rows :: r.name == "BASIC" ==> RowOf(rows, Basic) == r.value
    ensures forall r <- rows :: r.name == "GENERAL" ==> RowOf(rows, General) == r.value
    ensures forall r <- rows :: r.name == "STORAGE" ==> RowOf(rows, Storage) == r.value
    ensures forall r <- rows :: r.name == "MEMO_RELATED" ==> RowOf(rows, MemoRelated) == r.value
    ensures (forall r <- rows :: r.name != "BASIC") ==> RowOf(rows, Basic) == BasicContent("{}")
    ensures (forall r <- rows :: r.name != "GENERAL") ==> RowOf(rows, General) == GeneralContent("{}")
    ensures (forall r <- rows :: r.name != "STORAGE") ==>
              RowOf(rows, Storage) == StorageContent(TypeUnspecified, 0, "", "{}")
    ensures (forall r <- rows :: r.name != "MEMO_RELATED") ==>
              RowOf(rows, MemoRelated) == MemoRelatedContent(0, [], [], "{}")
  {
    hide Find, Unique;
    FindIsRow(rows, "BASIC");
    FindIsRow(rows, "GENERAL");
    FindIsRow(rows, "STORAGE");
    FindIsRow(rows, "MEMO_RELATED");
  }

  lemma {:induction false} UpsertedRows(rows: seq<RawSetting>, raw: RawSetting)
    requires Unique(rows)
    ensures Unique(Upserted(rows, raw))
    ensures forall r :: r in Upserted(rows, raw) <==> r == raw || (r in rows && r.name != raw.name)
    ensures forall name :: Find(Upserted(rows, raw), name) == if name ==
        raw.name then Some(raw.value) else Find(rows, name)
  {
    if rows != [] {
      UpsertedRows(rows[1..], raw);
      assert rows == [rows[0]] + rows[1..];
      var rest := Upserted(rows[1..], raw);
      forall r <- rows[1..] ensures rows[0].name != r.name {
        var i :| 0 <= i < |rows[1..]| && rows[1..][i] == r;
      }
      forall j | 0 <= j < |rest| && rows[0].name != raw.name ensures rows[0].name != rest[j].name {
        assert rest[j] in rest;
      }
    }
  }

  lemma {:induction false} QueryIsRows(rows: seq<RawSetting>, name: string)
    ensures forall r :: r in Query(rows, name) <==> r in rows && (name == "" || r.name == name)
  {
    if rows != [] {
      QueryIsRows(rows[1..], name);
      assert rows == [rows[0]] + rows[1..];
    }
  }

  /** Each row is looked at by itself, so that the order stays. */
  lemma {:induction false} QueryInOrder(rows: seq<RawSetting>, name: string, keep: RawSetting -> bool)
    requires forall r :: keep(r) <==> name == "" || r.name == name
    ensures Query(rows, name) == Filtered(rows, keep)
  {
    if rows != [] {
      QueryInOrder(rows[1..], name, keep);
    }
  }

  /** A row of an unsupported name is skipped. */
  function Kept(raws: seq<RawSetting>): seq<RawSetting> {
    if raws == [] then []
    else Kept(raws[..|raws| - 1]) + (if KeyOfName(raws[|raws| - 1].name).Some? then [raws[|raws| - 1]] else [])
  }

  lemma {:induction false} QueryOne(rows: seq<RawSetting>, name: string)
    requires Unique(rows) && name != ""
    ensures Query(rows, name) == match Find(rows, name) case None => [] case Some(c) => [RawSetting(name, c)]
  {
    if rows != [] {
      QueryOne(rows[1..], name);
      FindIsRow(rows[1..], name);
      forall r <- rows[1..] ensures r.name != rows[0].name {
        var i :| 0 <= i < |rows[1..]| && rows[1..][i] == r;
      }
    }
  }

  lemma {:induction false} KeptLength(raws: seq<RawSetting>)
    ensures |Kept(raws)| <= |raws|
  {
    if raws != [] {
      KeptLength(raws[..|raws| - 1]);
    }
  }

  lemma {:induction false} KeptInOrder(raws: seq<RawSetting>, keep: RawSetting -> bool)
    requires forall r :: keep(r) <==> r.name in {"BASIC", "GENERAL", "STORAGE", "MEMO_RELATED"}
    ensures Kept(raws) == Filtered(raws, keep)
  {
    if raws != [] {
      KeptInOrder(raws[..|raws| - 1], keep);
      FilteredSnoc(raws, keep);
    }
  }

  /** Exactly the rows of the four names are kept. */
  lemma {:induction false} KeptRows(raws: seq<RawSetting>)
    ensures forall raw :: raw in Kept(raws) <==>
                          raw in raws && raw.name in {"BASIC", "GENERAL", "STORAGE", "MEMO_RELATED"}
  {
    if raws != [] {
      var n := |raws| - 1;
      KeptRows(raws[..n]);
      assert raws == raws[..n] + [raws[n]];
    }
  }

  lemma {:induction false} QueryAll(rows: seq<RawSetting>)
    ensures Query(rows, "") == rows
  {
    if rows != [] {
      QueryAll(rows[1..]);
    }
  }

  /** A name finds at most one row; the empty name finds all. */
  lemma KeptOfName(rows: seq<RawSetting>, name: string)
    requires Unique(rows)
    ensures if name == "" then Query(rows, name) == rows else |Kept(Query(rows, name))| <= 1
  {
    hide Kept, Query, Find;
    if name == "" {
      QueryAll(rows);
    } else {
      QueryOne(rows, name);
      KeptLength(Query(rows, name));
    }
  }

  lemma KeptOfOne(rows: seq<RawSetting>, k: Key)
    requires Unique(rows)
    ensures Kept(Query(rows, KeyName(k))) ==
            match Find(rows, KeyName(k)) case None => [] case Some(c) => [RawSetting(KeyName(k), c)]
  {
    QueryOne(rows, KeyName(k));
    KeyNames(k, "");
    assert Kept([]) == [];
    if Find(rows, KeyName(k)).Some? {
      var raws := [RawSetting(KeyName(k), RowOf(rows, k))];
      assert raws[..|raws| - 1] == [];
      assert Kept(raws) == [] + raws;
    }
  }

  class Driver {
    var rows: seq<RawSetting>

    constructor ()
      ensures rows == []
    {
      rows := [];
    }

    method UpsertWorkspaceSetting(raw: RawSetting) returns (r: Result<RawSetting, SettingError>)
      modifies this
      ensures if r.Ok? then r.value == raw && rows == Upserted(old(rows), raw) else rows == old(rows)
    {
      if * { return Err(DriverFailed); }
      rows := Upserted(rows, raw);
      return Ok(raw);
    }

    method ListWorkspaceSettings(name: string) returns (r: Result<seq<RawSetting>, SettingError>)
      ensures if r.Ok? then r.value == Query(rows, name) else r.error == DriverFailed
    {
      if * { return Err(DriverFailed); }
      return Ok(Query(rows, name));
    }
  }

  // ---------- Messages and the store ----------

  class Message {
    var content: Content

    constructor (content: Content)
      ensures this.content == content
    {
      this.content := content;
    }
  }

  datatype WorkspaceSetting = WorkspaceSetting(key: Key, message: Message)

  class Store {
    const driver: Driver
    const workspaceSettingCache: Cache<WorkspaceSetting>

    /** The messages that cached settings point at. */
    ghost function Messages(): set<Message>
      reads workspaceSettingCache
    {
      set k <- workspaceSettingCache.data :: workspaceSettingCache.data[k].value.message
    }

    /** `message` says the same as the row of `k`, up to defaults. */
    ghost predicate Answers(k: Key, message: Message)
      reads driver, message
    {
      KindOf(message.content) == k && Defaulted(message.content) == Defaulted(RowOf(driver.rows, k))
    }

    /** Every cached setting says the same as its row, up to defaults. */
    ghost predicate Coherent()
      reads this, driver, workspaceSettingCache, Messages()
    {
      && Unique(driver.rows) && Inv(workspaceSettingCache.View())
      && forall name <- workspaceSettingCache.data ::
           var s := workspaceSettingCache.data[name].value;
           name == KeyName(s.key) && Answers(s.key, s.message)
    }

    constructor (driver: Driver, cache: Cache<WorkspaceSetting>)
      requires Unique(driver.rows) && Inv(cache.View()) && cache.data == map[]
      ensures Coherent() && this.driver == driver && this.workspaceSettingCache == cache
    {
      this.driver, this.workspaceSettingCache := driver, cache;
    }

    predicate Caches(s: WorkspaceSetting)
      reads workspaceSettingCache
    {
      KeyName(s.key) in workspaceSettingCache.data && workspaceSettingCache.data[KeyName(s.key)].value == s
    }

    method Remember(s: WorkspaceSetting)
      requires Unique(driver.rows) && Inv(workspaceSettingCache.View()) && Answers(s.key, s.message)
      requires forall name <- workspaceSettingCache.data ::
                 var c := workspaceSettingCache.data[name].value;
                 name == KeyName(c.key) && (c.key == s.key || Answers(c.key, c.message))
      modifies workspaceSettingCache, workspaceSettingCache.clock
      ensures Coherent() && Messages() <= old(Messages()) + {s.message}
      ensures old(HasRoom(workspaceSettingCache.View(), KeyName(s.key))) ==> Caches(s)
    {
      hide SetStep, Inv;
      var name := KeyName(s.key);
      workspaceSettingCache.Set(name, s);
      if old(HasRoom(workspaceSettingCache.View(), name)) {
        SetWithRoom(old(workspaceSettingCache.View()), name, s, workspaceSettingCache.config.defaultTTL,
                    old(workspaceSettingCache.clock.now), workspaceSettingCache.clock.now,
                        workspaceSettingCache.View());
      }
      DataAfterSet(old(workspaceSettingCache.View()), name, s, workspaceSettingCache.config.defaultTTL,
                   old(workspaceSettingCache.clock.now), workspaceSettingCache.clock.now, workspaceSettingCache.View());
    }

    /** A key that is none of the four is refused. */
    method UpsertWorkspaceSetting(wanted: Option<Key>, content: Content)
        returns (r: Result<WorkspaceSetting, SettingError>)
      requires Coherent()
      modifies driver, workspaceSettingCache, workspaceSettingCache.clock
      ensures Coherent()
      ensures wanted.None? ==> r == Err(Unsupported)
      ensures r.Ok? ==>
                var key := r.value.key;
                && wanted == Some(key) && fresh(r.value.message)
                && r.value.message.content == (if KindOf(content) == key then content else Empty(key))
                && driver.rows == Upserted(old(driver.rows), RawSetting(KeyName(key), r.value.message.content))
      ensures r.Ok? && old(HasRoom(workspaceSettingCache.View(), KeyName(wanted.value))) ==> Caches(r.value)
      ensures r.Err? ==> driver.rows == old(driver.rows)
                         && workspaceSettingCache.View() == old(workspaceSettingCache.View())
    {
      hide Inv, Upserted, Find, Defaulted;
      if wanted.None? {
        return Err(Unsupported);
      }
      var key := wanted.value;
      // The message of another kind is absent, and an absent message is written as an empty one.
      var raw := RawSetting(KeyName(key), if KindOf(content) == key then content else Empty(key));
      UpsertedRows(driver.rows, raw);
      KeyNames(key, "");
      var written := driver.UpsertWorkspaceSetting(raw);
      if written.Err? {
        return Err(written.error);
      }
      var message := new Message(written.value.value);
      Remember(WorkspaceSetting(key, message));
      return Ok(WorkspaceSetting(key, message));
    }

    /** Every listed setting has a new message with the content of its row. */
    method ListWorkspaceSettings(name: string) returns (r: Result<seq<WorkspaceSetting>, SettingError>)
      requires Coherent()
      modifies workspaceSettingCache, workspaceSettingCache.clock
      ensures Coherent() && forall m <- Messages() :: m in old(Messages()) || fresh(m)
      ensures r.Ok? ==>
                var kept := Kept(Query(driver.rows, name));
                && |r.value| == |kept|
                && forall i | 0 <= i < |kept| ::
                     && fresh(r.value[i].message) && r.value[i].message.content == kept[i].value
                     && KeyName(r.value[i].key) == kept[i].name && KindOf(kept[i].value) == r.value[i].key
      ensures r.Err? ==> !r.error.Multiple?
    {
      hide Inv, Query, Defaulted, KeyName, Find, KindOf, Unique, HasRoom;
      var raws := driver.ListWorkspaceSettings(name);
      if raws.Err? {
        return Err(raws.error);
      }
      QueryIsRows(driver.rows, name);
      var settings: seq<WorkspaceSetting> := [];
      for i := 0 to |raws.value|
        invariant Coherent() && forall m <- Messages() :: m in old(Messages()) || fresh(m)
        invariant |settings| == |Kept(raws.value[..i])|
        invariant forall j | 0 <= j < |settings| ::
                    var kept := Kept(raws.value[..i])[j];
                    && fresh(settings[j].message) && settings[j].message.content == kept.value
                    && KeyName(settings[j].key) == kept.name && KindOf(kept.value) == settings[j].key
      {
        var raw := raws.value[i];
        assert raws.value[..i + 1][..i] == raws.value[..i] && raw in raws.value;
        var key := KeyOfName(raw.name);
        if key.Some? {
          if KindOf(raw.value) != key.value {
            return Err(BadValue);
          }
          KeyNames(key.value, raw.name);
          FindIsRow(driver.rows, raw.name);
          var message := new Message(raw.value);
          Remember(WorkspaceSetting(key.value, message));
          settings := settings + [WorkspaceSetting(key.value, message)];
        }
      }
      assert raws.value[..|raws.value|] == raws.value;
      return Ok(settings);
    }

    /** The cached setting, or the one supported row that is asked for; an empty name asks for all. */
    method GetWorkspaceSetting(name: string) returns (r: Result<Option<WorkspaceSetting>, SettingError>)
      requires Coherent()
      modifies workspaceSettingCache, workspaceSettingCache.clock
      ensures Coherent() && forall m <- Messages() :: m in old(Messages()) || fresh(m)
      ensures r.Err? && r.error.Multiple? ==> name == "" && |Kept(driver.rows)| > 1
      ensures r.Ok? && r.value.Some? ==>
                var s := r.value.value;
                && (name == KeyName(s.key) || (name == "" && |Kept(driver.rows)| == 1))
                && Answers(s.key, s.message) && (s.message in old(Messages()) || fresh(s.message))
      ensures r.Ok? && r.value.None? ==> Kept(Query(driver.rows, name)) == []
    {
      hide Inv, Query, Kept, Defaulted, Find, KindOf, HasRoom;
      var cached := workspaceSettingCache.Get(name);
      if cached.Some? {
        return Ok(cached);
      }
      KeptOfName(driver.rows, name);
      var list := ListWorkspaceSettings(name);
      if list.Err? {
        return Err(list.error);
      }
      if list.value == [] {
        return Ok(None);
      }
      if |list.value| > 1 {
        return Err(Multiple(name));
      }
      ListedAnswers(driver.rows, name, list.value[0]);
      return Ok(Some(list.value[0]));
    }

    /** A listed setting answers for its row. */
    lemma ListedAnswers(rows: seq<RawSetting>, name: string, s: WorkspaceSetting)
      requires Coherent() && rows == driver.rows && Kept(Query(rows, name)) != []
      requires var raw := Kept(Query(rows, name))[0];
               KeyName(s.key) == raw.name && s.message.content == raw.value && KindOf(raw.value) == s.key
      ensures Answers(s.key, s.message) && (name != "" ==> name == KeyName(s.key))
    {
      var raw := Kept(Query(rows, name))[0];
      KeptRows(Query(rows, name));
      QueryIsRows(rows, name);
      FindIsRow(rows, raw.name);
    }

    /** The message of a key, or a new empty one: the first half of every getter. */
    method Load(key: Key) returns (r: Result<Message, SettingError>)
      requires Coherent()
      modifies workspaceSettingCache, workspaceSettingCache.clock
      ensures Coherent() && forall m <- Messages() :: m in old(Messages()) || fresh(m)
      ensures r.Ok? ==> Answers(key, r.value) && (r.value in old(Messages()) || fresh(r.value))
      ensures r.Err? ==> !r.error.Multiple?
    {
      hide Inv, Defaulted, Find, Kept, Query;
      KeyNames(key, "");
      assert KeyName(key) != "";
      var setting := GetWorkspaceSetting(KeyName(key));
      if setting.Err? {
        return Err(setting.error);
      }
      if setting.value.Some? {
        KeyNames(setting.value.value.key, "");
        return Ok(setting.value.value.message);
      }
      KeptOfOne(driver.rows, key);
      var empty := new Message(Empty(key));
      return Ok(empty);
    }

    method GetWorkspaceBasicSetting() returns (r: Result<Message, SettingError>)
      requires Coherent()
      modifies workspaceSettingCache, workspaceSettingCache.clock
      ensures Coherent()
      ensures r.Ok? ==> r.value.content == RowOf(driver.rows, Basic) && KindOf(r.value.content) == Basic
    {
      hide Inv, RowOf;
      r := Load(Basic);
      if r.Ok? {
        Remember(WorkspaceSetting(Basic, r.value));
      }
    }

    method GetWorkspaceGeneralSetting() returns (r: Result<Message, SettingError>)
      requires Coherent()
      modifies workspaceSettingCache, workspaceSettingCache.clock
      ensures Coherent()
      ensures r.Ok? ==> r.value.content == RowOf(driver.rows, General) && KindOf(r.value.content) == General
    {
      hide Inv, RowOf;
      r := Load(General);
      if r.Ok? {
        Remember(WorkspaceSetting(General, r.value));
      }
    }

    /** Each default is written into the message, which the cache may already hold. */
    method GetWorkspaceMemoRelatedSetting() returns (r: Result<Message, SettingError>)
      requires Coherent()
      modifies workspaceSettingCache, workspaceSettingCache.clock, Messages()
      ensures Coherent()
      ensures r.Ok? ==> IsMemoRelated(RowOf(driver.rows, MemoRelated), r.value.content)
    {
      hide Inv, RowOf, IsMemoRelated;
      r := Load(MemoRelated);
      if r.Err? {
        return;
      }
      var message := r.value;
      label Loaded:
      if message.content.contentLengthLimit < DEFAULT_CONTENT_LENGTH_LIMIT {
        message.content := message.content.(contentLengthLimit := DEFAULT_CONTENT_LENGTH_LIMIT);
      }
      if message.content.reactions == [] {
        message.content := message.content.(reactions := DEFAULT_REACTIONS);
      }
      if message.content.nsfwTags == [] {
        message.content := message.content.(nsfwTags := DEFAULT_NSFW_TAGS);
      }
      assert message.content == Defaulted(old@Loaded(message.content));
      DefaultedTwice(old@Loaded(message.content));
      DefaultsKeepWhatIsSet(RowOf(driver.rows, MemoRelated));
      Remember(WorkspaceSetting(MemoRelated, message));
    }

    method GetWorkspaceStorageSetting() returns (r: Result<Message, SettingError>)
      requires Coherent()
      modifies workspaceSettingCache, workspaceSettingCache.clock, Messages()
      ensures Coherent()
      ensures r.Ok? ==> IsStorage(RowOf(driver.rows, Storage), r.value.content)
    {
      hide Inv, RowOf, IsStorage;
      r := Load(Storage);
      if r.Err? {
        return;
      }
      var message := r.value;
      label Loaded:
      if message.content.storageType == TypeUnspecified {
        message.content := message.content.(storageType := Database);
      }
      if message.content.uploadSizeLimitMb == 0 {
        message.content := message.content.(uploadSizeLimitMb := DEFAULT_UPLOAD_SIZE_LIMIT_MB);
      }
      if message.content.filepathTemplate == "" {
        message.content := message.content.(filepathTemplate := DEFAULT_FILEPATH_TEMPLATE);
      }
      assert message.content == Defaulted(old@Loaded(message.content));
      DefaultedTwice(old@Loaded(message.content));
      DefaultsKeepWhatIsSet(RowOf(driver.rows, Storage));
      Remember(WorkspaceSetting(Storage, message));
    }

    method Sweep()
      requires Coherent()
      modifies workspaceSettingCache, workspaceSettingCache.clock
      ensures Coherent()
    {
      workspaceSettingCache.Cleanup();
      DataAfterCleanup(old(workspaceSettingCache.View()), old(workspaceSettingCache.clock.now),
                       workspaceSettingCache.clock.now, workspaceSettingCache.View());
    }
  }
}
