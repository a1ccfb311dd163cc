/**
 * The `useStorage` hook of `src/hooks/use-storage.ts`: a reactive copy of the
 * theme, font and API credentials kept in step with three other places:
 * the fast cache (`localStorage`, theme and font only), the durable settings
 * store of `storage.ts` (which wins when the two disagree) and the
 * `marxiv-storage-update` events every setter broadcasts on `window`.
 * Each asynchronous handler is one atomic step; the DOM attributes the hook
 * sets are ghost fields of the page.
 */
module StorageSync {
  import opened Common
  import opened Storage

  const ThemeKey := "theme"
  const FontKey := "font"
  const CredentialsKey := "apiCredentials"
  /** The theme and font used when the cache holds none. */
  const DefaultAppearance := "research"
  /** The one theme drawn without the `dark` class. */
  const LightTheme := "swiss"

  /** An API key for one model provider. */
  datatype ApiCredential = ApiCredential(provider: string, key: string)

  /** A `marxiv-storage-update` event: the key that changed and its new value. */
  datatype StorageEvent =
    | ThemeChanged(theme: string)
    | FontChanged(font: string)
    | CredentialsChanged(credentials: seq<ApiCredential>)
    | OtherSetting(key: string)

  function CredentialToJson(c: ApiCredential): Json {
    JObj(map["provider" := JStr(c.provider), "key" := JStr(c.key)])
  }

  /** Reads back a stored credential: an object with exactly a string `provider` and a string `key`. */
  function CredentialFromJson(j: Json): Option<ApiCredential> {
    if j.JObj? && j.fields.Keys == {"provider", "key"} && j.fields["provider"].JStr? && j.fields["key"].JStr?
    then Some(ApiCredential(j.fields["provider"].s, j.fields["key"].s))
    else None
  }

  function EncodeCredentials(cs: seq<ApiCredential>): (r: seq<Json>)
    decreases |cs|
  {
    if cs == [] then [] else [CredentialToJson(cs[0])] + EncodeCredentials(cs[1..])
  }

  function DecodeCredentials(items: seq<Json>): Option<seq<ApiCredential>>
    decreases |items|
  {
    if items == [] then Some([])
    else match (CredentialFromJson(items[0]), DecodeCredentials(items[1..]))
      case (Some(c), Some(rest)) => Some([c] + rest)
      case _ => None
  }

  /** How `setSetting('apiCredentials', list)` stores a credential list. */
  function CredentialsToJson(cs: seq<ApiCredential>): Json {
    JArr(EncodeCredentials(cs))
  }

  /** A stored value read as a credential list, or None when it is not one. */
  function CredentialsFromJson(j: Json): Option<seq<ApiCredential>> {
    if j.JArr? then DecodeCredentials(j.items) else None
  }

  lemma {:induction false} DecodeEncode(cs: seq<ApiCredential>)
    ensures DecodeCredentials(EncodeCredentials(cs)) == Some(cs)
    decreases |cs|
  {
    if cs != [] {
      var j := CredentialToJson(cs[0]);
      assert j.fields.Keys == {"provider", "key"};
      assert CredentialFromJson(j) == Some(cs[0]);
      var items := EncodeCredentials(cs);
      assert items[0] == j;
      assert items[1..] == EncodeCredentials(cs[1..]);
      DecodeEncode(cs[1..]);
      assert cs == [cs[0]] + cs[1..];
    }
  }

  lemma {:induction false} EncodeDecode(items: seq<Json>, cs: seq<ApiCredential>)
    requires DecodeCredentials(items) == Some(cs)
    ensures EncodeCredentials(cs) == items
    decreases |items|
  {
    if items != [] {
      var c := CredentialFromJson(items[0]).value;
      var rest := DecodeCredentials(items[1..]).value;
      assert cs == [c] + rest;
      EncodeDecode(items[1..], rest);
      assert CredentialToJson(c).fields == items[0].fields;
    }
  }

  /** A credential list survives being stored and read back. */
  lemma CredentialsRoundTrip(cs: seq<ApiCredential>)
    ensures CredentialsFromJson(CredentialsToJson(cs)) == Some(cs)
  {
    DecodeEncode(cs);
  }

  /** Whatever is read back as a credential list is stored exactly as that list would be. */
  lemma CredentialsReadBack(j: Json, cs: seq<ApiCredential>)
    requires CredentialsFromJson(j) == Some(cs)
    ensures CredentialsToJson(cs) == j
  {
    EncodeDecode(j.items, cs);
  }

  /** A stored theme or font that `if (storedTheme)` accepts: a non-empty string. */
  function TextFromJson(j: Json): Option<string> {
    if j.JStr? && j.s != "" then Some(j.s) else None
  }

  /** The theme or font the durable store holds under `key`, if any. */
  function StoredText(settings: map<string, Json>, key: string): Option<string> {
    match Get(settings, key)
    case Some(j) => TextFromJson(j)
    case None => None
  }

  function StoredCredentials(settings: map<string, Json>): Option<seq<ApiCredential>> {
    match Get(settings, CredentialsKey)
    case Some(j) => CredentialsFromJson(j)
    case None => None
  }

  /** `localStorage.getItem(key) || 'research'`. */
  function CachedOrDefault(cache: map<string, string>, key: string): (r: string)
    ensures key in cache && cache[key] != "" ==> r == cache[key]
    ensures key !in cache || cache[key] == "" ==> r == DefaultAppearance
  {
    if key in cache && cache[key] != "" then cache[key] else DefaultAppearance
  }

  /** `m` with `key` set to the value, when there is one. */
  function Assigned(m: map<string, string>, key: string, v: Option<string>): map<string, string> {
    if v.Some? then m[key := v.value] else m
  }

  /** Reconciliation of one cached setting: a durable value, when present, wins. */
  function Reconciled(current: string, stored: Option<string>): string {
    if stored.Some? then stored.value else current
  }

  /** The cache after reconciling `key`: rewritten only when the durable value differs from the state. */
  function CacheAfterLoad(cache: map<string, string>, key: string, current: string, stored: Option<string>): map<string, string> {
    if stored.Some? && stored.value != current then cache[key := stored.value] else cache
  }

  /** After reconciliation the state and the cache agree with a durable value that is present, and only then is the cache touched. */
  lemma ReconcileAgrees(cache: map<string, string>, key: string, current: string, stored: Option<string>)
    requires key in cache ==> cache[key] == current
    ensures var c := CacheAfterLoad(cache, key, current, stored);
      && (stored.Some? ==> Reconciled(current, stored) == stored.value)
      && (key in c ==> c[key] == Reconciled(current, stored))
      && (stored.None? ==> c == cache && Reconciled(current, stored) == current)
      && c.Keys - {key} == cache.Keys - {key}
  {
  }

  lemma SeqAssoc<T>(s: seq<T>, a: seq<T>, b: seq<T>, c: seq<T>)
    ensures ((s + a) + b) + c == s + ((a + b) + c)
  {
  }

  /** The broadcasts `importData` causes for the settings it found. */
  function ImportEvents(theme: Option<string>, font: Option<string>, credentials: Option<seq<ApiCredential>>): seq<StorageEvent> {
    (if theme.Some? then [ThemeChanged(theme.value)] else [])
    + (if font.Some? then [FontChanged(font.value)] else [])
    + (if credentials.Some? then [CredentialsChanged(credentials.value)] else [])
  }

  /** What is shared by every hook instance of one page: the fast cache, the event channel and the root element. */
  class Page {
    /** `localStorage`. */
    var cache: map<string, string>
    /** The `marxiv-storage-update` events dispatched so far, oldest first. */
    var events: seq<StorageEvent>
    /** `data-theme` of the root element. */
    ghost var dataTheme: Option<string>
    /** `data-font` of the root element. */
    ghost var dataFont: Option<string>
    /** Whether the root element has the `dark` class. */
    ghost var dark: bool

    /** Once a theme is applied, the `dark` class is present exactly when that theme is not `swiss`. */
    ghost predicate DarkMatchesTheme()
      reads this
    {
      dataTheme.Some? ==> (dark <==> dataTheme.value != LightTheme)
    }

    constructor (cache: map<string, string>)
      ensures this.cache == cache && events == []
      ensures dataTheme == None && dataFont == None && DarkMatchesTheme()
    {
      this.cache := cache;
      events := [];
      dataTheme, dataFont, dark := None, None, false;
    }
  }

  class StorageHook {
    const page: Page
    const db: SettingsDb
    var theme: string
    var font: string
    var apiCredentials: seq<ApiCredential>
    var isLoading: bool

    ghost predicate Valid()
      reads this, page, db
    {
      db.Valid() && page.DarkMatchesTheme()
    }

    /** The `useState` initialiser: seeded from the cache in a browser, from the defaults otherwise. */
    constructor (page: Page, db: SettingsDb, inBrowser: bool)
      requires db.Valid() && page.DarkMatchesTheme()
      ensures Valid() && this.page == page && this.db == db
      ensures theme == if inBrowser then CachedOrDefault(page.cache, ThemeKey) else DefaultAppearance
      ensures font == if inBrowser then CachedOrDefault(page.cache, FontKey) else DefaultAppearance
      ensures apiCredentials == []
      ensures isLoading == !inBrowser
    {
      this.page, this.db := page, db;
      if inBrowser {
        theme := CachedOrDefault(page.cache, ThemeKey);
        font := CachedOrDefault(page.cache, FontKey);
        apiCredentials := [];
        isLoading := false;
      } else {
        theme, font := DefaultAppearance, DefaultAppearance;
        apiCredentials := [];
        isLoading := true;
      }
    }

    method ApplyThemeToDOM(t: string)
      requires Valid()
      modifies page`dataTheme, page`dark
      ensures Valid()
      ensures page.dataTheme == Some(t) && (page.dark <==> t != LightTheme)
    {
      page.dataTheme := Some(t);
      if t == LightTheme {
        page.dark := false;
      } else {
        page.dark := true;
      }
    }

    method ApplyFontToDOM(f: string)
      modifies page`dataFont
      ensures page.dataFont == Some(f)
    {
      page.dataFont := Some(f);
    }

    /** The theme half of `loadSettings`: a durable theme that differs from the state is adopted, applied and cached. */
    method AdoptTheme(st: Option<string>)
      requires Valid()
      modifies this`theme, page`cache, page`dataTheme, page`dark
      ensures Valid()
      ensures theme == Reconciled(old(theme), st)
      ensures page.cache == CacheAfterLoad(old(page.cache), ThemeKey, old(theme), st)
      ensures if st.Some? && st.value != old(theme) then page.dataTheme == Some(st.value)
              else page.dataTheme == old(page.dataTheme) && page.dark == old(page.dark)
    {
      if st.Some? && theme != st.value {
        ApplyThemeToDOM(st.value);
        page.cache := page.cache[ThemeKey := st.value];
        theme := st.value;
      }
    }

    /** The font half of `loadSettings`. */
    method AdoptFont(sf: Option<string>)
      modifies this`font, page`cache, page`dataFont
      ensures font == Reconciled(old(font), sf)
      ensures page.cache == CacheAfterLoad(old(page.cache), FontKey, old(font), sf)
      ensures if sf.Some? && sf.value != old(font) then page.dataFont == Some(sf.value)
              else page.dataFont == old(page.dataFont)
    {
      if sf.Some? && font != sf.value {
        ApplyFontToDOM(sf.value);
        page.cache := page.cache[FontKey := sf.value];
        font := sf.value;
      }
    }

    /** The reads of `loadSettings`: the theme first, and the font and credentials only when that read succeeded. */
    method ReadStored() returns (ok: bool, st: Option<string>, sf: Option<string>, sc: Option<seq<ApiCredential>>)
      requires Valid()
      modifies db
      ensures Valid() && db.settings == old(db.settings) && ok == db.Ready()
      ensures db.OpenedFrom(old(db.dbPromise), old(db.diskVersion), old(db.storeNames))
      ensures old(db.Ready()) ==> ok
      ensures st == (if ok then StoredText(db.settings, ThemeKey) else None)
      ensures sf == (if ok then StoredText(db.settings, FontKey) else None)
      ensures sc == (if ok then StoredCredentials(db.settings) else None)
    {
      var storedTheme := db.GetSetting(ThemeKey);
      ok := storedTheme.Ok?;
      st, sf, sc := None, None, None;
      if ok {
        var storedFont := db.GetSetting(FontKey);
        var storedCredentials := db.GetSetting(CredentialsKey);
        st := if storedTheme.value.Some? then TextFromJson(storedTheme.value.value) else None;
        sf := if storedFont.value.Some? then TextFromJson(storedFont.value.value) else None;
        sc := if storedCredentials.value.Some? then CredentialsFromJson(storedCredentials.value.value) else None;
      }
    }

    /**
     * `loadSettings`: reconcile with the durable store. A durable theme or
     * font that differs from the state replaces it in the state and in the
     * cache and is applied to the page; durable credentials replace the
     * list and never reach the cache. A failed read changes nothing. Loading
     * ends in every case.
     */
    method LoadSettings()
      requires Valid()
      modifies this, page, db
      ensures Valid()
      ensures !isLoading
      ensures db.settings == old(db.settings) && page.events == old(page.events)
      ensures db.OpenedFrom(old(db.dbPromise), old(db.diskVersion), old(db.storeNames))
      ensures var st := if db.Ready() then StoredText(db.settings, ThemeKey) else None;
              var sf := if db.Ready() then StoredText(db.settings, FontKey) else None;
              var sc := if db.Ready() then StoredCredentials(db.settings) else None;
              && theme == Reconciled(old(theme), st)
              && font == Reconciled(old(font), sf)
              && apiCredentials == (if sc.Some? then sc.value else old(apiCredentials))
              && page.cache == CacheAfterLoad(CacheAfterLoad(old(page.cache), ThemeKey, old(theme), st), FontKey, old(font), sf)
              && (if st.Some? && st.value != old(theme) then page.dataTheme == Some(st.value)
                  else page.dataTheme == old(page.dataTheme) && page.dark == old(page.dark))
              && (if sf.Some? && sf.value != old(font) then page.dataFont == Some(sf.value)
                  else page.dataFont == old(page.dataFont))
    {
      var ok, st, sf, sc := ReadStored();
      if ok {
        AdoptTheme(st);
        AdoptFont(sf);
        if sc.Some? {
          apiCredentials := sc.value;
        }
      }
      isLoading := false;
    }

    /** `handleStorageUpdate`: an event about theme, font or credentials updates that field only; any other key is ignored. */
    method HandleStorageUpdate(e: StorageEvent)
      requires Valid()
      modifies this, page
      ensures Valid()
      ensures theme == (if e.ThemeChanged? then e.theme else old(theme))
      ensures font == (if e.FontChanged? then e.font else old(font))
      ensures apiCredentials == (if e.CredentialsChanged? then e.credentials else old(apiCredentials))
      ensures isLoading == old(isLoading)
      ensures page.cache == old(page.cache) && page.events == old(page.events)
      ensures e.ThemeChanged? ==> page.dataTheme == Some(e.theme) && (page.dark <==> e.theme != LightTheme)
                                  && page.dataFont == old(page.dataFont)
      ensures e.FontChanged? ==> page.dataFont == Some(e.font)
                                 && page.dataTheme == old(page.dataTheme) && page.dark == old(page.dark)
      ensures !e.ThemeChanged? && !e.FontChanged? ==> unchanged(page)
    {
      match e
      case ThemeChanged(t) =>
        theme := t;
        ApplyThemeToDOM(t);
      case FontChanged(f) =>
        font := f;
        ApplyFontToDOM(f);
      case CredentialsChanged(cs) =>
        apiCredentials := cs;
      case OtherSetting(_) =>
    }

    /**
     * `setTheme`: state, page and cache change at once, the durable write is
     * best effort (its failure is swallowed and undoes nothing), and one
     * event is broadcast.
     */
    method SetTheme(t: string)
      requires Valid()
      modifies this, page, db
      ensures Valid()
      ensures theme == t && font == old(font) && apiCredentials == old(apiCredentials) && isLoading == old(isLoading)
      ensures page.cache == old(page.cache)[ThemeKey := t]
      ensures page.dataTheme == Some(t) && (page.dark <==> t != LightTheme) && page.dataFont == old(page.dataFont)
      ensures page.events == old(page.events) + [ThemeChanged(t)]
      ensures db.settings == if db.Ready() then old(db.settings)[ThemeKey := JStr(t)] else old(db.settings)
      ensures db.OpenedFrom(old(db.dbPromise), old(db.diskVersion), old(db.storeNames))
    {
      theme := t;
      ApplyThemeToDOM(t);
      page.cache := page.cache[ThemeKey := t];
      var _ := db.SetSetting(ThemeKey, JStr(t));
      page.events := page.events + [ThemeChanged(t)];
    }

    /** `setFont`: as `setTheme`, for the font. */
    method SetFont(f: string)
      requires Valid()
      modifies this, page, db
      ensures Valid()
      ensures font == f && theme == old(theme) && apiCredentials == old(apiCredentials) && isLoading == old(isLoading)
      ensures page.cache == old(page.cache)[FontKey := f]
      ensures page.dataFont == Some(f) && page.dataTheme == old(page.dataTheme) && page.dark == old(page.dark)
      ensures page.events == old(page.events) + [FontChanged(f)]
      ensures db.settings == if db.Ready() then old(db.settings)[FontKey := JStr(f)] else old(db.settings)
      ensures db.OpenedFrom(old(db.dbPromise), old(db.diskVersion), old(db.storeNames))
    {
      font := f;
      ApplyFontToDOM(f);
      page.cache := page.cache[FontKey := f];
      var _ := db.SetSetting(FontKey, JStr(f));
      page.events := page.events + [FontChanged(f)];
    }

    /** `setApiCredentials`: replaces the whole list, writes it durably (best effort) and broadcasts it; the cache is not touched. */
    method SetApiCredentials(cs: seq<ApiCredential>)
      requires Valid()
      modifies this, page, db
      ensures Valid()
      ensures apiCredentials == cs && theme == old(theme) && font == old(font) && isLoading == old(isLoading)
      ensures page.cache == old(page.cache)
      ensures page.dataTheme == old(page.dataTheme) && page.dataFont == old(page.dataFont) && page.dark == old(page.dark)
      ensures page.events == old(page.events) + [CredentialsChanged(cs)]
      ensures db.settings == if db.Ready() then old(db.settings)[CredentialsKey := CredentialsToJson(cs)] else old(db.settings)
      ensures db.OpenedFrom(old(db.dbPromise), old(db.diskVersion), old(db.storeNames))
    {
      apiCredentials := cs;
      var _ := db.SetSetting(CredentialsKey, CredentialsToJson(cs));
      page.events := page.events + [CredentialsChanged(cs)];
    }

    /** The theme step of `importData`: a theme read back from the store goes through `setTheme`, which rewrites the same value. */
    method PushTheme(st: Option<string>)
      requires Valid() && db.Ready()
      requires st.Some? ==> ThemeKey in db.settings && db.settings[ThemeKey] == JStr(st.value)
      modifies this, page, db
      ensures Valid() && db.Ready() && db.settings == old(db.settings)
      ensures db.OpenedFrom(old(db.dbPromise), old(db.diskVersion), old(db.storeNames))
      ensures theme == Reconciled(old(theme), st) && font == old(font) && apiCredentials == old(apiCredentials)
      ensures page.events == old(page.events) + (if st.Some? then [ThemeChanged(st.value)] else [])
      ensures isLoading == old(isLoading)
      ensures page.cache == Assigned(old(page.cache), ThemeKey, st)
      ensures page.dataFont == old(page.dataFont)
      ensures if st.Some? then page.dataTheme == Some(st.value) && (page.dark <==> st.value != LightTheme)
              else page.dataTheme == old(page.dataTheme) && page.dark == old(page.dark)
    {
      if st.Some? {
        SetTheme(st.value);
        assert db.settings == old(db.settings);
      }
    }

    /** The font step of `importData`. */
    method PushFont(sf: Option<string>)
      requires Valid() && db.Ready()
      requires sf.Some? ==> FontKey in db.settings && db.settings[FontKey] == JStr(sf.value)
      modifies this, page, db
      ensures Valid() && db.Ready() && db.settings == old(db.settings)
      ensures db.OpenedFrom(old(db.dbPromise), old(db.diskVersion), old(db.storeNames))
      ensures font == Reconciled(old(font), sf) && theme == old(theme) && apiCredentials == old(apiCredentials)
      ensures page.events == old(page.events) + (if sf.Some? then [FontChanged(sf.value)] else [])
      ensures isLoading == old(isLoading)
      ensures page.cache == Assigned(old(page.cache), FontKey, sf)
      ensures page.dataTheme == old(page.dataTheme) && page.dark == old(page.dark)
      ensures page.dataFont == if sf.Some? then Some(sf.value) else old(page.dataFont)
    {
      if sf.Some? {
        SetFont(sf.value);
        assert db.settings == old(db.settings);
      }
    }

    /** The credentials step of `importData`. */
    method PushCredentials(sc: Option<seq<ApiCredential>>)
      requires Valid() && db.Ready()
      requires sc.Some? ==> CredentialsKey in db.settings && db.settings[CredentialsKey] == CredentialsToJson(sc.value)
      modifies this, page, db
      ensures Valid() && db.Ready() && db.settings == old(db.settings)
      ensures db.OpenedFrom(old(db.dbPromise), old(db.diskVersion), old(db.storeNames))
      ensures apiCredentials == (if sc.Some? then sc.value else old(apiCredentials))
      ensures theme == old(theme) && font == old(font)
      ensures page.events == old(page.events) + (if sc.Some? then [CredentialsChanged(sc.value)] else [])
      ensures isLoading == old(isLoading) && page.cache == old(page.cache)
      ensures page.dataTheme == old(page.dataTheme) && page.dataFont == old(page.dataFont) && page.dark == old(page.dark)
    {
      if sc.Some? {
        SetApiCredentials(sc.value);
        assert db.settings == old(db.settings);
      }
    }

    /** The second half of `importData`: read the imported theme, font and credentials back and push each one found through its setter. */
    method ApplyImported()
      requires Valid() && db.Ready()
      modifies this, page, db
      ensures Valid() && db.Ready() && db.settings == old(db.settings)
      ensures db.OpenedFrom(old(db.dbPromise), old(db.diskVersion), old(db.storeNames))
      ensures var st, sf, sc := StoredText(db.settings, ThemeKey), StoredText(db.settings, FontKey), StoredCredentials(db.settings);
        && theme == Reconciled(old(theme), st)
        && font == Reconciled(old(font), sf)
        && apiCredentials == (if sc.Some? then sc.value else old(apiCredentials))
        && page.events == old(page.events) + ImportEvents(st, sf, sc)
        && isLoading == old(isLoading)
        && page.cache == Assigned(Assigned(old(page.cache), ThemeKey, st), FontKey, sf)
        && (if st.Some? then page.dataTheme == Some(st.value) && (page.dark <==> st.value != LightTheme)
            else page.dataTheme == old(page.dataTheme) && page.dark == old(page.dark))
        && page.dataFont == (if sf.Some? then Some(sf.value) else old(page.dataFont))
    {
      ghost var store := db.settings;
      var ok, st, sf, sc := ReadStored();
      ghost var events0 := page.events;
      if sc.Some? {
        CredentialsReadBack(store[CredentialsKey], sc.value);
      }
      ghost var a: seq<StorageEvent> := if st.Some? then [ThemeChanged(st.value)] else [];
      ghost var b: seq<StorageEvent> := if sf.Some? then [FontChanged(sf.value)] else [];
      ghost var c: seq<StorageEvent> := if sc.Some? then [CredentialsChanged(sc.value)] else [];
      PushTheme(st);
      PushFont(sf);
      PushCredentials(sc);
      assert page.events == ((events0 + a) + b) + c;
      assert ImportEvents(st, sf, sc) == (a + b) + c;
      SeqAssoc(events0, a, b, c);
    }

    /**
     * `importData`: replace the durable store with the document, then push
     * the imported theme, font and credentials through the setters. A failed
     * import is rethrown and leaves the hook as it was.
     */
    method ImportData(codec: JsonCodec, text: string) returns (r: Outcome<string>)
      requires Valid()
      modifies this, page, db
      ensures Valid()
      ensures r.Fail? ==> r.error == ImportErrorMessage
      ensures codec.parse(text).None? ==> r.Fail? && unchanged(db)
      ensures codec.parse(text).Some? ==> db.OpenedFrom(old(db.dbPromise), old(db.diskVersion), old(db.storeNames))
      ensures r.Pass? <==> ImportedStore(codec, text).Some? && db.Ready()
      ensures r.Fail? ==> unchanged(this) && unchanged(page)
      ensures r.Fail? ==> db.settings == if codec.parse(text) == Some(JNull) && db.Ready() then map[] else old(db.settings)
      ensures r.Pass? ==>
        var store := ImportedStore(codec, text).value;
        var st, sf, sc := StoredText(store, ThemeKey), StoredText(store, FontKey), StoredCredentials(store);
        && db.settings == store
        && theme == Reconciled(old(theme), st)
        && font == Reconciled(old(font), sf)
        && apiCredentials == (if sc.Some? then sc.value else old(apiCredentials))
        && page.events == old(page.events) + ImportEvents(st, sf, sc)
        && isLoading == old(isLoading)
        && page.cache == Assigned(Assigned(old(page.cache), ThemeKey, st), FontKey, sf)
        && (if st.Some? then page.dataTheme == Some(st.value) && (page.dark <==> st.value != LightTheme)
            else page.dataTheme == old(page.dataTheme) && page.dark == old(page.dark))
        && page.dataFont == (if sf.Some? then Some(sf.value) else old(page.dataFont))
    {
      r := db.ImportStorageData(codec, text);
      if r.Fail? {
        return;
      }
      ApplyImported();
    }
  }

  /**
   * The first load of a page whose cache is empty and whose version 2
   * database holds the theme `swiss`: the durable theme wins in the state,
   * and the cache, and the font stays at the default.
   */
  method FirstLoadAdoptsStoredTheme() returns (theme: string, font: string, cached: map<string, string>)
    ensures theme == LightTheme && font == DefaultAppearance
    ensures cached == map[ThemeKey := LightTheme]
  {
    var page := new Page(map[]);
    var db := new SettingsDb(2, {SettingsStore}, map[ThemeKey := JStr(LightTheme)]);
    var hook := new StorageHook(page, db, true);
    hook.LoadSettings();
    theme, font, cached := hook.theme, hook.font, page.cache;
  }

  /** The first `setTheme` on a page whose database is still at version 1 upgrades it and stores the theme. */
  method FirstSetThemeIsStored() returns (stored: map<string, Json>)
    ensures stored == map[ThemeKey := JStr(LightTheme)]
  {
    var page := new Page(map[]);
    var db := new SettingsDb(1, {"notes"}, map[]);
    var hook := new StorageHook(page, db, true);
    hook.SetTheme(LightTheme);
    stored := db.settings;
  }
}
