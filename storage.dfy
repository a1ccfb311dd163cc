/**
 * The local settings database of `src/lib/storage.ts`: an IndexedDB database
 * named `marxiv-db` at schema version 2 whose only object store, `settings`,
 * maps a setting name to an arbitrary JSON value. Opening is memoised in the
 * module-level `dbPromise`; opening an older database runs a destructive
 * upgrade; export turns the store into one JSON object and import replaces
 * the store with the entries of a JSON document.
 */
module Storage {
  import opened Common

  const DbName := "marxiv-db"
  const DbVersion: nat := 2
  const SettingsStore := "settings"
  /** Object stores of schema version 1 that the upgrade drops. */
  const LegacyStores := {"notes", "read_next", "api_keys"}
  /** The message every failure of `importStorageData` is rethrown with. */
  const ImportErrorMessage := "Invalid data format or import failed"

  /** A JSON value: what the settings store holds and what `JSON.parse` returns (numbers restricted to integers). */
  datatype Json =
    | JNull
    | JBool(b: bool)
    | JNum(n: int)
    | JStr(s: string)
    | JArr(items: seq<Json>)
    | JObj(fields: map<string, Json>)

  /** `JSON.parse` (None when the text is not JSON) and `JSON.stringify`, which the model does not define. */
  datatype JsonCodec = JsonCodec(parse: string -> Option<Json>, stringify: Json -> string)

  /** Parsing what was stringified gives the value back. */
  ghost predicate RoundTrips(codec: JsonCodec) {
    forall j :: codec.parse(codec.stringify(j)) == Some(j)
  }

  /** The decimal digits of `n`, as JavaScript writes an array index used as a property name. */
  function DecimalString(n: nat): (r: string)
    ensures |r| > 0
    decreases n
  {
    var digit := "0123456789"[n % 10];
    if n < 10 then [digit] else DecimalString(n / 10) + [digit]
  }

  /** The properties of an array-like value: index `i` (as a decimal string) maps to `xs[i]`. */
  function IndexedEntries(xs: seq<Json>): map<string, Json>
    decreases |xs|
  {
    if xs == [] then map[]
    else IndexedEntries(xs[..|xs| - 1])[DecimalString(|xs| - 1) := xs[|xs| - 1]]
  }

  /**
   * `Object.entries(data)` as a key/value map: an object gives its members,
   * an array its elements and a string its characters under their indices,
   * a number or a boolean nothing, and `null` throws a TypeError (None).
   */
  function ObjectEntries(j: Json): (r: Option<map<string, Json>>)
    ensures r.None? <==> j.JNull?
    ensures j.JObj? ==> r == Some(j.fields)
    ensures j.JBool? || j.JNum? ==> r == Some(map[])
  {
    match j
    case JNull => None
    case JBool(_) => Some(map[])
    case JNum(_) => Some(map[])
    case JStr(s) => Some(IndexedEntries(seq(|s|, i requires 0 <= i < |s| => JStr([s[i]]))))
    case JArr(items) => Some(IndexedEntries(items))
    case JObj(fields) => Some(fields)
  }

  function Get(m: map<string, Json>, key: string): (r: Option<Json>)
    ensures r.Some? <==> key in m
    ensures r.Some? ==> r.value == m[key]
  {
    if key in m then Some(m[key]) else None
  }

  /**
   * The object stores left by the `upgrade` callback run for a database at
   * `oldVersion`: below version 2 the legacy stores are dropped and
   * `settings` is made to exist; from version 2 on nothing changes.
   */
  function UpgradedStores(stores: set<string>, oldVersion: nat): (r: set<string>)
    ensures oldVersion < 2 ==> r !! LegacyStores && SettingsStore in r
    ensures oldVersion < 2 ==> forall s | s !in LegacyStores && s != SettingsStore :: s in r <==> s in stores
    ensures oldVersion >= 2 ==> r == stores
  {
    if oldVersion < 2 then stores - LegacyStores + {SettingsStore} else stores
  }

  /** What the text written by `exportStorageData` is for a store with contents `settings`. */
  function ExportDocument(codec: JsonCodec, settings: map<string, Json>): string {
    codec.stringify(JObj(settings))
  }

  /** The contents of the settings store after a successful import of `text`, or None when the import fails. */
  function ImportedStore(codec: JsonCodec, text: string): Option<map<string, Json>> {
    match codec.parse(text)
    case None => None
    case Some(doc) => ObjectEntries(doc)
  }

  /** Importing an export restores the exported store, key for key. */
  lemma ImportOfExport(codec: JsonCodec, settings: map<string, Json>)
    requires RoundTrips(codec)
    ensures ImportedStore(codec, ExportDocument(codec, settings)) == Some(settings)
  {
    assert codec.parse(codec.stringify(JObj(settings))) == Some(JObj(settings));
  }

  /** The result of `openDB`: the database, or the rejection when the disk holds a newer version. */
  datatype OpenOutcome = Opened | VersionError

  datatype StorageError = OpenFailed | NoSettingsStore

  /** What the one `openDB` call gives for a database found on disk at `version`. */
  function FirstOpen(version: nat): (r: OpenOutcome)
    ensures r == Opened <==> version <= DbVersion
  {
    if version <= DbVersion then Opened else VersionError
  }

  /**
   * The database as seen by the functions of `storage.ts`: the on-disk state
   * (version, object store names, contents of `settings`) together with the
   * module-level `dbPromise`.
   */
  class SettingsDb {
    /** The version recorded on disk (0 when the database does not exist yet). */
    var diskVersion: nat
    var storeNames: set<string>
    /** The contents of the `settings` object store. */
    var settings: map<string, Json>
    /** `dbPromise`: None until `initDB` first runs, then the settled outcome of that one `openDB` call. */
    var dbPromise: Option<OpenOutcome>
    /** How many times `openDB` has been called. */
    ghost var opens: nat

    ghost predicate Valid()
      reads this
    {
      && (SettingsStore !in storeNames ==> settings == map[])
      && opens == (if dbPromise.Some? then 1 else 0)
      && (dbPromise == Some(Opened) ==> diskVersion == DbVersion)
    }

    /** Reads and writes of `settings` succeed. */
    predicate Ready()
      reads this
    {
      dbPromise == Some(Opened) && SettingsStore in storeNames
    }

    /**
     * The database as `initDB` leaves it, given `dbPromise`, the disk version
     * and the store names before the call: untouched when the promise was
     * already set, otherwise opened once, which upgrades an older database to
     * version 2 and rejects a newer one without touching it.
     */
    predicate OpenedFrom(promise: Option<OpenOutcome>, version: nat, stores: set<string>)
      reads this
    {
      if promise.Some? then
        dbPromise == promise && diskVersion == version && storeNames == stores
      else
        && dbPromise == Some(FirstOpen(version))
        && diskVersion == (if version <= DbVersion then DbVersion else version)
        && storeNames == UpgradedStores(stores, version)
    }

    /** The error a read or write of `settings` fails with when the database is not Ready. */
    function AccessError(): StorageError
      reads this
    {
      if dbPromise == Some(VersionError) then OpenFailed else NoSettingsStore
    }

    /** A page load: the database on disk is as given and nothing has opened it yet. */
    constructor (version: nat, stores: set<string>, contents: map<string, Json>)
      requires SettingsStore !in stores ==> contents == map[]
      ensures Valid()
      ensures diskVersion == version && storeNames == stores && settings == contents
      ensures dbPromise == None
    {
      diskVersion, storeNames, settings := version, stores, contents;
      dbPromise := None;
      opens := 0;
    }

    /** The `upgrade` callback. */
    method Upgrade(oldVersion: nat)
      requires Valid()
      modifies this`storeNames, this`settings
      ensures Valid()
      ensures storeNames == UpgradedStores(old(storeNames), oldVersion)
      ensures settings == old(settings)
    {
      if oldVersion < 2 {
        if "notes" in storeNames { storeNames := storeNames - {"notes"}; }
        if "read_next" in storeNames { storeNames := storeNames - {"read_next"}; }
        if "api_keys" in storeNames { storeNames := storeNames - {"api_keys"}; }
        if SettingsStore !in storeNames {
          storeNames := storeNames + {SettingsStore};
          settings := map[];
        }
      }
    }

    /** `openDB(DB_NAME, DB_VERSION, { upgrade })`. */
    method OpenDb() returns (r: OpenOutcome)
      requires Valid()
      modifies this`diskVersion, this`storeNames, this`settings
      ensures Valid()
      ensures r == Opened <==> old(diskVersion) <= DbVersion
      ensures r == Opened ==> diskVersion == DbVersion
      ensures r == Opened && old(diskVersion) < DbVersion ==> storeNames == UpgradedStores(old(storeNames), old(diskVersion))
      ensures r == VersionError || old(diskVersion) == DbVersion ==> storeNames == old(storeNames) && diskVersion == old(diskVersion)
      ensures settings == old(settings)
    {
      if diskVersion > DbVersion {
        r := VersionError;
      } else {
        if diskVersion < DbVersion {
          Upgrade(diskVersion);
          diskVersion := DbVersion;
        }
        r := Opened;
      }
    }

    /** `initDB`: opens the database on the first call and returns that same outcome on every later call. */
    method InitDB() returns (r: OpenOutcome)
      requires Valid()
      modifies this
      ensures Valid()
      ensures dbPromise == Some(r) && opens == 1
      ensures OpenedFrom(old(dbPromise), old(diskVersion), old(storeNames))
      ensures old(dbPromise).Some? ==> r == old(dbPromise).value && unchanged(this)
      ensures old(dbPromise).None? ==> (r == Opened <==> old(diskVersion) <= DbVersion)
      ensures old(dbPromise).None? && r == Opened && old(diskVersion) < DbVersion ==>
                storeNames == UpgradedStores(old(storeNames), old(diskVersion))
      ensures r == VersionError || old(diskVersion) == DbVersion ==> storeNames == old(storeNames)
      ensures settings == old(settings)
    {
      if dbPromise.None? {
        r := OpenDb();
        dbPromise := Some(r);
        opens := opens + 1;
      } else {
        r := dbPromise.value;
      }
    }

    /** `getSetting(key)`: the stored value, verbatim, or None when the key was never set. */
    method GetSetting(key: string) returns (r: Result<Option<Json>, StorageError>)
      requires Valid()
      modifies this
      ensures Valid()
      ensures settings == old(settings) && dbPromise.Some?
      ensures old(dbPromise).Some? ==> unchanged(this)
      ensures OpenedFrom(old(dbPromise), old(diskVersion), old(storeNames))
      ensures r.Ok? <==> Ready()
      ensures r.Ok? ==> r.value == Get(settings, key)
      ensures r.Err? ==> r.error == AccessError()
    {
      var o := InitDB();
      if o == VersionError {
        return Err(OpenFailed);
      }
      if SettingsStore !in storeNames {
        return Err(NoSettingsStore);
      }
      r := Ok(Get(settings, key));
    }

    /** `setSetting(key, value)`: overwrites the one key and leaves every other key as it was. */
    method SetSetting(key: string, value: Json) returns (r: Outcome<StorageError>)
      requires Valid()
      modifies this
      ensures Valid()
      ensures dbPromise.Some?
      ensures OpenedFrom(old(dbPromise), old(diskVersion), old(storeNames))
      ensures r.Pass? <==> Ready()
      ensures r.Fail? ==> r.error == AccessError()
      ensures settings == if r.Pass? then old(settings)[key := value] else old(settings)
    {
      var o := InitDB();
      if o == VersionError {
        return Fail(OpenFailed);
      }
      if SettingsStore !in storeNames {
        return Fail(NoSettingsStore);
      }
      settings := settings[key := value];
      r := Pass;
    }

    /** `exportStorageData`: one JSON object holding every stored key with its stored value. */
    method ExportStorageData(codec: JsonCodec) returns (r: Result<string, StorageError>)
      requires Valid()
      modifies this
      ensures Valid()
      ensures settings == old(settings)
      ensures old(dbPromise).Some? ==> unchanged(this)
      ensures OpenedFrom(old(dbPromise), old(diskVersion), old(storeNames))
      ensures r.Ok? <==> Ready()
      ensures r.Ok? ==> r.value == ExportDocument(codec, settings)
      ensures r.Err? ==> r.error == AccessError()
    {
      var o := InitDB();
      if o == VersionError {
        return Err(OpenFailed);
      }
      if SettingsStore !in storeNames {
        return Err(NoSettingsStore);
      }
      var keys := settings.Keys;
      var data: map<string, Json> := map[];
      var todo := keys;
      while todo != {}
        invariant todo <= keys
        invariant data.Keys == keys - todo
        invariant forall k | k in data :: data[k] == settings[k]
        decreases todo
      {
        var k :| k in todo;
        data := data[k := settings[k]];
        todo := todo - {k};
      }
      assert data == settings;
      r := Ok(codec.stringify(JObj(data)));
    }

    /**
     * `importStorageData(text)`: parse, then clear the store and put every
     * entry of the document. Text that is not JSON fails before anything is
     * touched; a `null` document fails after the store was cleared.
     */
    method ImportStorageData(codec: JsonCodec, text: string) returns (r: Outcome<string>)
      requires Valid()
      modifies this
      ensures Valid()
      ensures r.Fail? ==> r.error == ImportErrorMessage
      ensures codec.parse(text).None? ==> r.Fail? && unchanged(this)
      ensures codec.parse(text).Some? ==> OpenedFrom(old(dbPromise), old(diskVersion), old(storeNames))
      ensures r.Pass? <==> ImportedStore(codec, text).Some? && Ready()
      ensures r.Pass? ==> Some(settings) == ImportedStore(codec, text)
      ensures codec.parse(text) == Some(JNull) && Ready() ==> settings == map[]
      ensures codec.parse(text).Some? && !Ready() ==> settings == old(settings)
    {
      var parsed := codec.parse(text);
      if parsed.None? {
        return Fail(ImportErrorMessage);
      }
      var o := InitDB();
      if o == VersionError || SettingsStore !in storeNames {
        return Fail(ImportErrorMessage);
      }
      settings := map[];
      var entries := ObjectEntries(parsed.value);
      if entries.None? {
        return Fail(ImportErrorMessage);
      }
      var doc := entries.value;
      var todo := doc.Keys;
      while todo != {}
        invariant todo <= doc.Keys
        invariant settings.Keys == doc.Keys - todo
        invariant forall k | k in settings :: settings[k] == doc[k]
        modifies this`settings
        decreases todo
      {
        var k :| k in todo;
        settings := settings[k := doc[k]];
        todo := todo - {k};
      }
      assert settings == doc;
      r := Pass;
    }
  }

  /**
   * A write followed by reads on a database that opened: the key written
   * reads back the value written, and any other key reads back what it held
   * before the write.
   */
  method SetThenGet(db: SettingsDb, key: string, value: Json, other: string)
    returns (r: Result<Option<Json>, StorageError>, s: Result<Option<Json>, StorageError>)
    requires db.Valid() && db.Ready() && other != key
    modifies db
    ensures db.Valid() && db.Ready()
    ensures r == Ok(Some(value))
    ensures s == Ok(Get(old(db.settings), other))
  {
    var w := db.SetSetting(key, value);
    r := db.GetSetting(key);
    s := db.GetSetting(other);
  }

  /**
   * After the first open, `settings` can be read and written exactly when
   * the disk held a version below 2 (the upgrade creates the store) or
   * version 2 with a `settings` store.
   */
  lemma FirstOpenReady(db: SettingsDb, version: nat, stores: set<string>)
    requires db.OpenedFrom(None, version, stores)
    ensures db.Ready() <==> version < DbVersion || (version == DbVersion && SettingsStore in stores)
  {
    if version < DbVersion {
      assert SettingsStore in UpgradedStores(stores, version);
    }
  }

  /** The first read on a page whose database is still at version 1 upgrades it and finds the key unset. */
  method FirstReadUpgradesVersion1() returns (r: Result<Option<Json>, StorageError>, stores: set<string>)
    ensures r == Ok(None)
    ensures stores == {SettingsStore}
  {
    var db := new SettingsDb(1, {"notes", "read_next", "api_keys"}, map[]);
    r := db.GetSetting("theme");
    stores := db.storeNames;
  }

  /** The first read on a page whose database was written at a newer version fails with the rejected open. */
  method FirstReadOfNewerVersion() returns (r: Result<Option<Json>, StorageError>)
    ensures r == Err(OpenFailed)
  {
    var db := new SettingsDb(3, {SettingsStore}, map["theme" := JStr("swiss")]);
    r := db.GetSetting("theme");
  }
}
