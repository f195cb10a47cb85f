/** The favorites store (`useFavorites`): a list of character ids persisted under one
    `localStorage` key, the character records fetched for it, the loading and
    initialised flags, and the broadcast that makes every mounted store reload the
    list from storage after any store saves it. */
module Favorites {
  import opened Wrappers
  import opened JsText
  import opened Types
  import opened Storage

  const FAVORITES_KEY := "favoriteCharacters"
  const BATCH_BASE_URL := "https://rickandmortyapi.com/api/character/"

  /* ---------- The id list ---------- */

  /** `[...favorites, id]`: the id goes to the end, whether or not it is already there. */
  function Added(favorites: seq<int>, id: int): (r: seq<int>)
    ensures |r| == |favorites| + 1
    ensures r[..|favorites|] == favorites && r[|favorites|] == id
  {
    favorites + [id]
  }

  /** `filter(x => x !== id)`: every occurrence of `x` dropped, the rest kept. */
  function Removed<T(==)>(l: seq<T>, x: T): (r: seq<T>)
    ensures forall j :: 0 <= j < |r| ==> r[j] in l && r[j] != x
    ensures forall j :: 0 <= j < |l| && l[j] != x ==> l[j] in r
    ensures |r| <= |l|
  {
    if l == [] then []
    else if l[0] == x then Removed(l[1..], x)
    else [l[0]] + Removed(l[1..], x)
  }

  /** Removal keeps the relative order of the other elements: it works piecewise on a concatenation. */
  lemma {:induction false} RemovedConcat<T>(a: seq<T>, b: seq<T>, x: T)
    ensures Removed(a + b, x) == Removed(a, x) + Removed(b, x)
  {
    if a != [] {
      assert (a + b)[1..] == a[1..] + b;
      RemovedConcat(a[1..], b, x);
    } else {
      assert a + b == b;
    }
  }

  /** Removal drops all copies of `x` and no copy of anything else. */
  lemma {:induction false} RemovedCounts<T>(l: seq<T>, x: T)
    ensures multiset(Removed(l, x)) == multiset(l)[x := 0]
  {
    if l != [] {
      RemovedCounts(l[1..], x);
      assert l == [l[0]] + l[1..];
    }
  }

  lemma {:induction false} RemovedAbsent<T>(l: seq<T>, x: T)
    requires x !in l
    ensures Removed(l, x) == l
  {
    if l != [] {
      RemovedAbsent(l[1..], x);
    }
  }

  /** `toggleFavorite` on the list: remove a member, add a non-member. */
  function Toggled(favorites: seq<int>, id: int): (r: seq<int>)
    ensures id in r <==> id !in favorites
  {
    if id in favorites then Removed(favorites, id) else Added(favorites, id)
  }

  /** Toggling twice restores membership; an absent id leaves the list exactly as it was,
      a present one ends up once, at the end. */
  lemma ToggleTwice(favorites: seq<int>, id: int)
    ensures id in Toggled(Toggled(favorites, id), id) <==> id in favorites
    ensures id !in favorites ==> Toggled(Toggled(favorites, id), id) == favorites
    ensures id in favorites ==> Toggled(Toggled(favorites, id), id) == Removed(favorites, id) + [id]
  {
    if id !in favorites {
      RemovedConcat(favorites, [id], id);
      RemovedAbsent(favorites, id);
    }
  }

  /* ---------- Persistence as JSON text ---------- */

  /** `JSON.stringify` of an id list. */
  function Stringify(ids: seq<int>): (text: string)
    ensures |text| >= 2 && text[0] == '[' && text[|text| - 1] == ']'
    ensures multiset(text)[','] == if ids == [] then 0 else |ids| - 1
  {
    "[" + JoinInts(ids) + "]"
  }

  /** Comma-separated JSON integers, with no white space. */
  function ParseItems(s: string): (r: Option<seq<int>>)
    ensures r.Some? ==> |r.value| == multiset(s)[','] + 1
    decreases |s|
  {
    if ',' in s then
      var i := IndexOf(s, ',');
      assert s == s[..i] + [','] + s[i + 1..];
      if !IsJsonIntText(s[..i]) then None
      else match ParseItems(s[i + 1..])
        case Some(rest) => Some([ParseIntText(s[..i])] + rest)
        case None => None
    else if IsJsonIntText(s) then Some([ParseIntText(s)])
    else None
  }

  /** `JSON.parse` on text that holds an array of integers as `JSON.stringify` writes it;
      `None` stands for text it would reject. */
  function ParseIdList(text: string): (r: Option<seq<int>>)
    ensures r.Some? ==> |text| >= 2 && text[0] == '[' && text[|text| - 1] == ']'
    ensures r.Some? ==> |r.value| == if text == "[]" then 0 else multiset(text)[','] + 1
  {
    if |text| >= 2 && text[0] == '[' && text[|text| - 1] == ']' then
      var inner := text[1..|text| - 1];
      BracketedCommas(text);
      if inner == "" then Some([]) else ParseItems(inner)
    else None
  }

  /** The brackets around a list's text hold no comma, and enclose nothing only in `[]`. */
  lemma BracketedCommas(text: string)
    requires |text| >= 2 && text[0] == '[' && text[|text| - 1] == ']'
    ensures multiset(text)[','] == multiset(text[1..|text| - 1])[',']
    ensures text[1..|text| - 1] == "" <==> text == "[]"
  {
    assert text == [text[0]] + text[1..|text| - 1] + [text[|text| - 1]];
  }

  /** One integer's text followed by a comma and more text parses as that integer, then
      whatever the rest parses as. */
  lemma ParseItemsStep(x: int, rest: string)
    ensures var s := IntToString(x) + "," + rest;
      ParseItems(s) == match ParseItems(rest)
        case Some(tail) => Some([x] + tail)
        case None => None
  {
    var head := IntToString(x);
    var s := head + "," + rest;
    IntToStringRoundTrip(x);
    assert s == head + [','] + rest;
    IndexOfAfter(head, rest, ',');
    assert s[..|head|] == head;
    assert s[|head| + 1..] == rest;
  }

  lemma {:induction false} ParseItemsJoin(ids: seq<int>)
    requires ids != []
    ensures ParseItems(JoinInts(ids)) == Some(ids)
  {
    var x := ids[0];
    IntToStringRoundTrip(x);
    if |ids| > 1 {
      ParseItemsStep(x, JoinInts(ids[1..]));
      ParseItemsJoin(ids[1..]);
      assert ids == [x] + ids[1..];
    } else {
      assert ids == [x];
    }
  }

  /** What is written to storage reads back as the same list. */
  lemma ParseStringify(ids: seq<int>)
    ensures ParseIdList(Stringify(ids)) == Some(ids)
  {
    var text := Stringify(ids);
    assert text[1..|text| - 1] == JoinInts(ids);
    if ids != [] {
      ParseItemsJoin(ids);
    }
  }

  /* ---------- Batch fetch of the favorite characters ---------- */

  /** The body of a batch reply: one object for one id, an array otherwise. */
  datatype Payload = OneCharacter(character: Character) | CharacterArray(characters: seq<Character>)

  /** `Array.isArray(data) ? data : [data]`. */
  function Normalize(data: Payload): (r: seq<Character>)
    ensures data.CharacterArray? ==> r == data.characters
    ensures data.OneCharacter? ==> r == [data.character]
  {
    match data
    case OneCharacter(c) => [c]
    case CharacterArray(cs) => cs
  }

  /** The batch URL: the ids joined by commas after the character endpoint. */
  function BatchUrl(ids: seq<int>): (url: string)
    ensures |url| >= |BATCH_BASE_URL|
    ensures url[..|BATCH_BASE_URL|] == BATCH_BASE_URL && url[|BATCH_BASE_URL|..] == JoinInts(ids)
  {
    BATCH_BASE_URL + JoinInts(ids)
  }

  /** The favorite characters after a batch reply: replaced by the normalised body of an
      ok reply, kept as they were after a failed request or a non-ok reply. */
  function AfterReply(reply: Reply<Payload>, current: seq<Character>): (r: seq<Character>)
    ensures reply.HttpReply? && reply.ok ==> r == Normalize(reply.body)
    ensures !(reply.HttpReply? && reply.ok) ==> r == current
  {
    if reply.HttpReply? && reply.ok then Normalize(reply.body) else current
  }

  /** The list read at initialisation: `[]` when nothing (or the empty string) is stored,
      the parsed list otherwise; `None` when parsing throws. */
  function InitialFavorites(stored: Option<string>): Option<seq<int>> {
    if stored.None? || stored.value == "" then Some([]) else ParseIdList(stored.value)
  }

  /** The list after the update listener runs: the stored list when a non-empty string is
      stored and parses; otherwise (nothing stored, or parsing throws) the current one. */
  function Reloaded(current: seq<int>, stored: Option<string>): seq<int> {
    if stored.Some? && stored.value != "" then
      match ParseIdList(stored.value)
      case Some(ids) => ids
      case None => current
    else current
  }

  /** A list written by a save is the list the next mount starts from. */
  lemma InitialAfterSave(saved: seq<int>)
    ensures InitialFavorites(Some(Stringify(saved))) == Some(saved)
  {
    ParseStringify(saved);
  }

  /** Text `JSON.parse` rejects is not read as a list: a number with a redundant leading
      zero, a trailing comma, or missing brackets. */
  lemma RejectsMalformed()
    ensures ParseIdList("[01]") == None
    ensures ParseIdList("[1,]") == None
    ensures ParseIdList("1,2") == None
  {
    assert "01"[0] == '0';
    assert "[1,]"[1..3] == "1,";
    assert "1,"[1] == ',';
    assert IndexOf("1,", ',') == 1;
    assert "1,"[2..] == "";
    assert ParseItems("") == None;
  }

  /** After a save, the listener reloads exactly the saved list. */
  lemma ReloadAfterSave(current: seq<int>, saved: seq<int>)
    ensures Reloaded(current, Some(Stringify(saved))) == saved
  {
    ParseStringify(saved);
  }

  /* ---------- The store ---------- */

  /** The event target that carries "favoritesUpdated" to every subscribed store. */
  class FavoritesEvents {
    var listeners: seq<FavoritesStore>

    constructor ()
      ensures listeners == []
    {
      listeners := [];
    }

    /** `dispatchEvent`, which runs each listener synchronously: every subscribed store
        reloads from `storage`, which holds `saved`, and so ends up with `saved`. */
    method Dispatch(storage: LocalStorage, text: string, saved: seq<int>)
      requires forall l :: l in listeners ==> l.storage == storage
      requires storage.GetItem(FAVORITES_KEY) == Some(text)
      requires text != "" && ParseIdList(text) == Some(saved)
      modifies (set l | l in listeners)`favorites
      ensures forall l :: l in listeners ==> l.favorites == saved
    {
      for i := 0 to |listeners|
        invariant forall j :: 0 <= j < i ==> listeners[j].favorites == saved
      {
        listeners[i].ReloadFromStorage();
      }
    }
  }

  class FavoritesStore {
    var favorites: seq<int>
    var favoriteCharacters: seq<Character>
    var isLoadingFavorites: bool
    var isInitialized: bool
    const storage: LocalStorage
    const events: FavoritesEvents

    /** The state hooks' initial values. */
    constructor (storage: LocalStorage, events: FavoritesEvents)
      ensures favorites == [] && favoriteCharacters == []
      ensures !isLoadingFavorites && !isInitialized
      ensures this.storage == storage && this.events == events
      ensures Unmounted()
    {
      favorites := [];
      favoriteCharacters := [];
      isLoadingFavorites := false;
      isInitialized := false;
      this.storage := storage;
      this.events := events;
    }

    /** The state before the first effects run. */
    predicate Unmounted()
      reads this
    {
      favorites == [] && favoriteCharacters == [] && !isLoadingFavorites && !isInitialized
    }

    /** Every subscribed store reads and writes the same storage. */
    ghost predicate Wired()
      reads events
    {
      forall l :: l in events.listeners ==> l.storage == storage
    }

    /** `isFavorite`. */
    function IsFavorite(id: int): (b: bool)
      reads this
      ensures b <==> id in favorites
    {
      id in favorites
    }

    /** The listener effect's mount: `addEventListener`, which ignores a listener already added. */
    method Subscribe()
      modifies events
      ensures events.listeners
           == if this in old(events.listeners) then old(events.listeners) else old(events.listeners) + [this]
    {
      if this !in events.listeners {
        events.listeners := events.listeners + [this];
      }
    }

    /** The listener effect's cleanup: `removeEventListener`. */
    method Unsubscribe()
      modifies events
      ensures events.listeners == Removed(old(events.listeners), this)
    {
      events.listeners := Removed(events.listeners, this);
    }

    /** `handleFavoritesUpdate`: reload the list from storage when a non-empty string is there. */
    method ReloadFromStorage()
      modifies this`favorites
      ensures favorites == Reloaded(old(favorites), storage.GetItem(FAVORITES_KEY))
    {
      var stored := storage.GetItem(FAVORITES_KEY);
      if stored.Some? && stored.value != "" {
        var parsed := ParseIdList(stored.value);
        if parsed.Some? {
          favorites := parsed.value;
        }
      }
    }

    /** `saveFavorites`: set the list, write it to storage, then notify every subscribed
        store, each of which reloads the list just written. */
    method Save(newFavorites: seq<int>)
      requires Wired()
      modifies this`favorites, storage, (set l | l in events.listeners)`favorites
      ensures favorites == newFavorites
      ensures storage.items == old(storage.items)[FAVORITES_KEY := Stringify(newFavorites)]
      ensures events.listeners == old(events.listeners)
      ensures forall l :: l in events.listeners ==> l.favorites == newFavorites
    {
      favorites := newFavorites;
      storage.SetItem(FAVORITES_KEY, Stringify(newFavorites));
      ParseStringify(newFavorites);
      events.Dispatch(storage, Stringify(newFavorites), newFavorites);
    }

    /** `addFavorite`. */
    method Add(id: int)
      requires Wired()
      modifies this`favorites, storage, (set l | l in events.listeners)`favorites
      ensures favorites == Added(old(favorites), id)
      ensures storage.items == old(storage.items)[FAVORITES_KEY := Stringify(favorites)]
      ensures forall l :: l in events.listeners ==> l.favorites == favorites
    {
      Save(Added(favorites, id));
    }

    /** `removeFavorite`. */
    method Remove(id: int)
      requires Wired()
      modifies this`favorites, storage, (set l | l in events.listeners)`favorites
      ensures favorites == Removed(old(favorites), id)
      ensures storage.items == old(storage.items)[FAVORITES_KEY := Stringify(favorites)]
      ensures forall l :: l in events.listeners ==> l.favorites == favorites
    {
      Save(Removed(favorites, id));
    }

    /** `toggleFavorite`: the id is a favorite afterwards exactly when it was not before. */
    method Toggle(id: int)
      requires Wired()
      modifies this`favorites, storage, (set l | l in events.listeners)`favorites
      ensures favorites == Toggled(old(favorites), id)
      ensures IsFavorite(id) == !old(IsFavorite(id))
      ensures storage.items == old(storage.items)[FAVORITES_KEY := Stringify(favorites)]
      ensures forall l :: l in events.listeners ==> l.favorites == favorites
    {
      if id in favorites {
        Remove(id);
      } else {
        Add(id);
      }
    }

    /** The initialisation effect, run to completion: read the stored list and, when it is
        non-empty, request its characters once. Whether that succeeds, fails or parsing
        throws, the store ends up not loading and initialised. Returns the URL requested. */
    method Initialize(server: string -> Reply<Payload>) returns (request: Option<string>)
      modifies this
      ensures old(isInitialized) ==> request == None && unchanged(this)
      ensures !old(isInitialized) ==>
        var loaded := InitialFavorites(old(storage.GetItem(FAVORITES_KEY)));
        && isInitialized && !isLoadingFavorites
        && favorites == (if loaded.Some? then loaded.value else old(favorites))
        && request == (if loaded.Some? && loaded.value != [] then Some(BatchUrl(loaded.value)) else None)
        && favoriteCharacters
           == (if request.Some? then AfterReply(server(request.value), old(favoriteCharacters))
               else old(favoriteCharacters))
    {
      request := None;
      if !isInitialized {
        isLoadingFavorites := true;
        var loaded := InitialFavorites(storage.GetItem(FAVORITES_KEY));
        if loaded.Some? {
          favorites := loaded.value;
          if |favorites| > 0 {
            request := Some(BatchUrl(favorites));
            favoriteCharacters := AfterReply(server(request.value), favoriteCharacters);
          }
        }
        isLoadingFavorites := false;
        isInitialized := true;
      }
    }

    /** The update effect, run to completion: an empty list clears the characters without a
        request; before initialisation a non-empty list is left alone; otherwise the
        characters are requested once. Returns the URL requested. */
    method RefreshFavoriteCharacters(server: string -> Reply<Payload>) returns (request: Option<string>)
      modifies this
      ensures favorites == old(favorites) && isInitialized == old(isInitialized)
      ensures favorites == [] ==>
        request == None && favoriteCharacters == [] && isLoadingFavorites == old(isLoadingFavorites)
      ensures favorites != [] && !isInitialized ==> request == None && unchanged(this)
      ensures favorites != [] && isInitialized ==>
        && request == Some(BatchUrl(favorites))
        && favoriteCharacters == AfterReply(server(request.value), old(favoriteCharacters))
        && !isLoadingFavorites
    {
      request := None;
      if !isInitialized || |favorites| == 0 {
        if |favorites| == 0 {
          favoriteCharacters := [];
        }
        return;
      }
      isLoadingFavorites := true;
      request := Some(BatchUrl(favorites));
      favoriteCharacters := AfterReply(server(request.value), favoriteCharacters);
      isLoadingFavorites := false;
    }

    /** Mounting, as written: the initialisation effect, then the update effect, which runs
        again because `isInitialized` changed. (Its earlier runs, with the empty initial list
        and before initialisation, leave the characters empty.) A non-empty stored list is
        therefore requested twice. Returns the URLs requested, in order. */
    method Mount(server: string -> Reply<Payload>) returns (requests: seq<string>)
      requires Unmounted()
      modifies this
      ensures var loaded := InitialFavorites(old(storage.GetItem(FAVORITES_KEY)));
        var ids := if loaded.Some? then loaded.value else [];
        && favorites == ids && isInitialized && !isLoadingFavorites
        && (ids == [] ==> requests == [] && favoriteCharacters == [])
        && (ids != [] ==> requests == [BatchUrl(ids), BatchUrl(ids)]
                          && favoriteCharacters == AfterReply(server(BatchUrl(ids)), []))
    {
      var first := Initialize(server);
      var second := RefreshFavoriteCharacters(server);
      requests := (if first.Some? then [first.value] else []) + (if second.Some? then [second.value] else []);
    }

    /** The initialisation effect without its request: read the stored list and mark the
        store initialised, leaving the request to the update effect. */
    method LoadStoredList()
      modifies this`favorites, this`isInitialized
      ensures old(isInitialized) ==> favorites == old(favorites) && isInitialized
      ensures !old(isInitialized) ==>
        var loaded := InitialFavorites(old(storage.GetItem(FAVORITES_KEY)));
        && isInitialized
        && favorites == (if loaded.Some? then loaded.value else old(favorites))
    {
      if !isInitialized {
        var loaded := InitialFavorites(storage.GetItem(FAVORITES_KEY));
        if loaded.Some? {
          favorites := loaded.value;
        }
        isInitialized := true;
      }
    }

    /** Mounting with one request: the stored list is loaded, and the update effect that the
        change of `isInitialized` triggers is the only one to fetch it. The store ends in the
        same state as `Mount` leaves it. */
    method MountFetchingOnce(server: string -> Reply<Payload>) returns (requests: seq<string>)
      requires Unmounted()
      modifies this
      ensures var loaded := InitialFavorites(old(storage.GetItem(FAVORITES_KEY)));
        var ids := if loaded.Some? then loaded.value else [];
        && favorites == ids && isInitialized && !isLoadingFavorites
        && (ids == [] ==> requests == [] && favoriteCharacters == [])
        && (ids != [] ==> requests == [BatchUrl(ids)]
                          && favoriteCharacters == AfterReply(server(BatchUrl(ids)), []))
    {
      LoadStoredList();
      var request := RefreshFavoriteCharacters(server);
      requests := if request.Some? then [request.value] else [];
    }
  }

  /** As written, a store mounted over the stored list `[1,2]` requests the batch URL for
      `1,2` twice, and ends holding both characters the reply carries. */
  method MountStoredPair(first: Character, second: Character)
    returns (requests: seq<string>, loaded: seq<Character>, loading: bool)
    ensures requests == [BATCH_BASE_URL + "1,2", BATCH_BASE_URL + "1,2"]
    ensures loaded == [first, second] && !loading
  {
    var storage := new LocalStorage(map[FAVORITES_KEY := "[1,2]"]);
    var events := new FavoritesEvents();
    var store := new FavoritesStore(storage, events);
    StoredPairReadsBack();
    requests := store.Mount((url: string) => HttpReply(true, CharacterArray([first, second])));
    loaded := store.favoriteCharacters;
    loading := store.isLoadingFavorites;
  }

  /** Mounted with one request, the same store requests `1,2` once and ends in the same state. */
  method MountStoredPairFetchingOnce(first: Character, second: Character)
    returns (requests: seq<string>, loaded: seq<Character>, loading: bool)
    ensures requests == [BATCH_BASE_URL + "1,2"]
    ensures loaded == [first, second] && !loading
  {
    var storage := new LocalStorage(map[FAVORITES_KEY := "[1,2]"]);
    var events := new FavoritesEvents();
    var store := new FavoritesStore(storage, events);
    StoredPairReadsBack();
    requests := store.MountFetchingOnce((url: string) => HttpReply(true, CharacterArray([first, second])));
    loaded := store.favoriteCharacters;
    loading := store.isLoadingFavorites;
  }

  /** The text `[1,2]` is the list `[1, 2]`, and its batch URL ends in `1,2`. */
  lemma StoredPairReadsBack()
    ensures InitialFavorites(Some("[1,2]")) == Some([1, 2])
    ensures BatchUrl([1, 2]) == BATCH_BASE_URL + "1,2"
  {
    assert DigitChar(1) == '1' && DigitChar(2) == '2';
    assert JoinInts([1, 2]) == "1,2";
    assert Stringify([1, 2]) == "[1,2]";
    InitialAfterSave([1, 2]);
  }
}
