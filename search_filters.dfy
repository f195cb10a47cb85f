/** The filter panel (`SearchFilters`): every control edits a copy of the current query
    and pushes it. Choosing a filter drops the search text and the page, typing into the
    search box goes through a debounced function, and the sort button flips `sort`. */
module SearchFilters {
  import opened Wrappers
  import opened JsText
  import opened Navigation
  import opened Debounce

  const STATUS_OPTIONS: seq<string> := ["", "Alive", "Dead", "unknown"]
  const GENDER_OPTIONS: seq<string> := ["", "Female", "Male", "Genderless", "unknown"]
  const SPECIES_OPTIONS: seq<string> :=
    ["", "Human", "Alien", "Humanoid", "Robot", "Animal", "Mythological", "Disease", "Unknown"]

  /** The three drop-down filters. */
  datatype Select = StatusSelect | SpeciesSelect | GenderSelect

  function SelectKey(control: Select): string {
    match control
    case StatusSelect => "status"
    case SpeciesSelect => "species"
    case GenderSelect => "gender"
  }

  function Options(control: Select): seq<string> {
    match control
    case StatusSelect => STATUS_OPTIONS
    case SpeciesSelect => SPECIES_OPTIONS
    case GenderSelect => GENDER_OPTIONS
  }

  /** `updateQuery(key, value, clearSearch)` on the query: `key` is set to a non-empty value
      or deleted for an empty one, `name` goes when `clearSearch` holds, `page` always goes,
      and every other parameter is kept. */
  function UpdatedQuery(q: Query, key: string, value: string, clearSearch: bool): (r: Query)
    ensures "page" !in r
    ensures clearSearch ==> "name" !in r
    ensures value == "" ==> key !in r
    ensures value != "" && key != "page" && !(clearSearch && key == "name") ==> key in r && r[key] == value
    ensures forall k :: k != key && k != "page" && !(clearSearch && k == "name") ==>
      (k in r <==> k in q) && (k in r ==> r[k] == q[k])
  {
    var params := if value != "" then q[key := value] else q - {key};
    var params := if clearSearch then params - {"name"} else params;
    params - {"page"}
  }

  /** `handleSearchChange(value)` on the query: the trimmed text under `name`, or no `name`
      when the text is whitespace only; `page` goes; every other parameter is kept. */
  function SearchQuery(q: Query, value: string): (r: Query)
    ensures "page" !in r
    ensures AllSpace(value) ==> "name" !in r
    ensures !AllSpace(value) ==> "name" in r && r["name"] == Trim(value)
    ensures forall k :: k != "name" && k != "page" ==> (k in r <==> k in q) && (k in r ==> r[k] == q[k])
  {
    var text := Trim(value);
    var params := if text != "" then q["name" := text] else q - {"name"};
    params - {"page"}
  }

  /** `searchParams.get("sort") || "asc"`. */
  function CurrentSort(q: Query): (sort: string)
    ensures sort != ""
    ensures "sort" in q && q["sort"] != "" ==> sort == q["sort"]
    ensures !("sort" in q && q["sort"] != "") ==> sort == "asc"
  {
    if "sort" in q && q["sort"] != "" then q["sort"] else "asc"
  }

  /** The query `toggleSort` pushes: `asc` (or no sort) becomes `desc`, anything else
      `asc`; the search and every other filter are kept, only the page goes. */
  function SortToggled(q: Query): (r: Query)
    ensures CurrentSort(r) == if CurrentSort(q) == "asc" then "desc" else "asc"
    ensures "page" !in r
    ensures forall k :: k != "sort" && k != "page" ==> (k in r <==> k in q) && (k in r ==> r[k] == q[k])
  {
    UpdatedQuery(q, "sort", if CurrentSort(q) == "asc" then "desc" else "asc", false)
  }

  /** Toggling twice comes back to `asc` or `desc`, whichever was current. */
  lemma SortToggleTwice(q: Query)
    requires CurrentSort(q) == "asc" || CurrentSort(q) == "desc"
    ensures CurrentSort(SortToggled(SortToggled(q))) == CurrentSort(q)
  {
  }

  /** The query the favorites checkbox pushes. */
  function FavoritesToggled(q: Query, checked: bool): (r: Query)
    ensures checked <==> "favorites" in r && r["favorites"] == "true"
    ensures checked ==> r["favorites"] == "true"
    ensures "name" !in r && "page" !in r
  {
    UpdatedQuery(q, "favorites", if checked then "true" else "", true)
  }

  class FilterPanel {
    const router: Router
    const debouncer: Debouncer<string>
    var searchValue: string
    /** The query of the render in which `debouncedSearch` was last called. The pending timer
        runs that render's `handleSearchChange`, which reads this query. */
    var keystrokeQuery: Query

    /** `useState(searchParams.get("name") || "")`, and the debounced search's hook. */
    constructor (router: Router)
      ensures this.router == router
      ensures searchValue == if "name" in router.query then router.query["name"] else ""
      ensures keystrokeQuery == router.query
      ensures fresh(debouncer) && debouncer.Valid() && debouncer.State() == Timers(map[], None, 1, [])
    {
      this.router := router;
      searchValue := if "name" in router.query then router.query["name"] else "";
      keystrokeQuery := router.query;
      debouncer := new Debouncer<string>();
    }

    /** `updateQuery`: edits a copy of the current query and pushes it. Clearing the search
        also cancels a search still waiting on its timer. */
    method UpdateQuery(key: string, value: string, clearSearch: bool)
      requires debouncer.Valid()
      modifies this`searchValue, router, debouncer
      ensures router.query == UpdatedQuery(old(router.query), key, value, clearSearch)
      ensures router.pushes == old(router.pushes) + [router.query]
      ensures searchValue == if clearSearch then "" else old(searchValue)
      ensures debouncer.Valid()
      ensures debouncer.State() == if clearSearch then Next(old(debouncer.State()), Teardown) else old(debouncer.State())
    {
      var params := router.query;
      if value != "" {
        params := params[key := value];
      } else {
        params := params - {key};
      }
      if clearSearch {
        params := params - {"name"};
        searchValue := "";
        debouncer.ClearPending();
      }
      params := params - {"page"};
      router.Push(params);
    }

    /** `updateQuery` as written: the same push, but a search waiting on its timer is left
        scheduled, even when the search is cleared. */
    method UpdateQueryAsWritten(key: string, value: string, clearSearch: bool)
      modifies this`searchValue, router
      ensures router.query == UpdatedQuery(old(router.query), key, value, clearSearch)
      ensures router.pushes == old(router.pushes) + [router.query]
      ensures searchValue == if clearSearch then "" else old(searchValue)
    {
      var params := router.query;
      if value != "" {
        params := params[key := value];
      } else {
        params := params - {key};
      }
      if clearSearch {
        params := params - {"name"};
        searchValue := "";
      }
      params := params - {"page"};
      router.Push(params);
    }

    /** `handleSearchChange`: shows the typed text and pushes the trimmed search. */
    method HandleSearchChange(value: string)
      modifies this`searchValue, router
      ensures router.query == SearchQuery(old(router.query), value)
      ensures router.pushes == old(router.pushes) + [router.query]
      ensures searchValue == value
    {
      searchValue := value;
      var params := router.query;
      var text := Trim(value);
      if text != "" {
        params := params["name" := text];
      } else {
        params := params - {"name"};
      }
      params := params - {"page"};
      router.Push(params);
    }

    /** `toggleSort`: does not clear the search. */
    method ToggleSort()
      requires debouncer.Valid()
      modifies this`searchValue, router, debouncer
      ensures router.query == SortToggled(old(router.query))
      ensures router.pushes == old(router.pushes) + [router.query]
      ensures searchValue == old(searchValue)
      ensures debouncer.Valid() && debouncer.State() == old(debouncer.State())
    {
      var newSort := if CurrentSort(router.query) == "asc" then "desc" else "asc";
      UpdateQuery("sort", newSort, false);
    }

    /** A drop-down's `onChange`: picks one of its options and clears the search. */
    method SelectOption(control: Select, option: string)
      requires option in Options(control)
      requires debouncer.Valid()
      modifies this`searchValue, router, debouncer
      ensures router.query == UpdatedQuery(old(router.query), SelectKey(control), option, true)
      ensures router.pushes == old(router.pushes) + [router.query]
      ensures searchValue == ""
      ensures debouncer.Valid() && debouncer.State() == Next(old(debouncer.State()), Teardown)
    {
      UpdateQuery(SelectKey(control), option, true);
    }

    /** The favorites checkbox's `onChange`: clears the search too. */
    method SetShowFavorites(checked: bool)
      requires debouncer.Valid()
      modifies this`searchValue, router, debouncer
      ensures router.query == FavoritesToggled(old(router.query), checked)
      ensures router.pushes == old(router.pushes) + [router.query]
      ensures searchValue == ""
      ensures debouncer.Valid() && debouncer.State() == Next(old(debouncer.State()), Teardown)
    {
      UpdateQuery("favorites", if checked then "true" else "", true);
    }

    /** "Clear All Filters": navigates to the bare path, empties the search box and cancels
        a search still waiting on its timer. */
    method ClearAll()
      requires debouncer.Valid()
      modifies this`searchValue, router, debouncer
      ensures router.query == map[] && searchValue == ""
      ensures router.pushes == old(router.pushes) + [map[]]
      ensures debouncer.Valid() && debouncer.State() == Next(old(debouncer.State()), Teardown)
    {
      router.Push(map[]);
      searchValue := "";
      debouncer.ClearPending();
    }

    /** "Clear All Filters" as written: navigates to the bare path and empties the search
        box, leaving a search waiting on its timer scheduled. */
    method ClearAllAsWritten()
      modifies this`searchValue, router
      ensures router.query == map[] && searchValue == ""
      ensures router.pushes == old(router.pushes) + [map[]]
    {
      router.Push(map[]);
      searchValue := "";
    }

    /** The search box's `onChange`: only schedules the search; the query is untouched. */
    method SearchInput(text: string)
      requires debouncer.Valid()
      modifies debouncer, this`keystrokeQuery
      ensures debouncer.Valid() && debouncer.State() == Next(old(debouncer.State()), Call(text))
      ensures Pending(debouncer.State()) == Some(text)
      ensures keystrokeQuery == router.query
    {
      debouncer.DebouncedFn(text);
      keystrokeQuery := router.query;
    }

    /** A search timer elapses: when it is still scheduled, its text is searched for, against
        the query as it is now. */
    method SearchTimerFires(id: TimerId)
      requires debouncer.Valid()
      modifies debouncer, this`searchValue, router
      ensures debouncer.Valid() && debouncer.State() == Next(old(debouncer.State()), Fire(id))
      ensures id in old(debouncer.scheduled) ==>
        var text := old(debouncer.scheduled)[id];
        && router.query == SearchQuery(old(router.query), text) && searchValue == text
        && router.pushes == old(router.pushes) + [router.query]
      ensures id !in old(debouncer.scheduled) ==>
        router.query == old(router.query) && router.pushes == old(router.pushes)
        && searchValue == old(searchValue)
    {
      var delivered := debouncer.OnTimeout(id);
      if delivered.Some? {
        HandleSearchChange(delivered.value);
      }
    }

    /** A search timer elapses, as written: the `handleSearchChange` it runs is the one of
        the keystroke's render, so the search edits the query as it was at that keystroke. */
    method StaleSearchTimerFires(id: TimerId)
      requires debouncer.Valid()
      modifies debouncer, this`searchValue, router
      ensures debouncer.Valid() && debouncer.State() == Next(old(debouncer.State()), Fire(id))
      ensures id in old(debouncer.scheduled) ==>
        var text := old(debouncer.scheduled)[id];
        && router.query == SearchQuery(old(keystrokeQuery), text) && searchValue == text
        && router.pushes == old(router.pushes) + [router.query]
      ensures id !in old(debouncer.scheduled) ==>
        router.query == old(router.query) && router.pushes == old(router.pushes)
        && searchValue == old(searchValue)
    {
      var delivered := debouncer.OnTimeout(id);
      if delivered.Some? {
        searchValue := delivered.value;
        router.Push(SearchQuery(keystrokeQuery, delivered.value));
      }
    }
  }

  /** Five keystrokes in a row lead to one push, for the last text only. */
  method TypeFiveKeystrokes(router: Router) returns (pushed: Query)
    modifies router
    ensures pushed == SearchQuery(old(router.query), "ricky")
    ensures router.pushes == old(router.pushes) + [pushed]
  {
    var panel := new FilterPanel(router);
    panel.SearchInput("r");
    panel.SearchInput("ri");
    panel.SearchInput("ric");
    panel.SearchInput("rick");
    panel.SearchInput("ricky");
    var handle := panel.debouncer.timeoutRef;
    AtMostOnePending(panel.debouncer.State());
    panel.SearchTimerFires(handle.value);
    pushed := router.query;
  }

  /** A search typed, then status "Alive" chosen before its timer fires:
      the status choice is the only push, it carries the status and no search, and the
      cancelled timer pushes nothing. */
  method SearchThenChooseStatus(router: Router) returns (pushed: Query)
    modifies router
    ensures router.pushes == old(router.pushes) + [pushed]
    ensures pushed == router.query
    ensures "status" in pushed && pushed["status"] == "Alive" && "name" !in pushed
  {
    var panel := new FilterPanel(router);
    panel.SearchInput("rick");
    var handle := panel.debouncer.timeoutRef;
    panel.SelectOption(StatusSelect, "Alive");
    assert "status"[0] != "name"[0] && "status"[0] != "page"[0];
    pushed := router.query;
    panel.SearchTimerFires(handle.value);
  }

  /** The search for "rick" sets `name` and keeps the status filter as it was. */
  lemma SearchForRickKeepsStatus(q: Query)
    ensures var r := SearchQuery(q, "rick");
      && "name" in r
      && ("status" in q ==> "status" in r && r["status"] == q["status"])
      && ("status" !in q ==> "status" !in r)
  {
    assert !IsJsSpace('r') && "rick"[0] == 'r';
    assert "status"[0] != "name"[0] && "status"[0] != "page"[0];
  }

  /** As written: a search typed, then status "Alive" chosen before its timer fires. The
      choice is pushed, the timer stays scheduled, and when it fires it pushes the search
      against the query of the keystroke, so the status just chosen is gone again. */
  method SearchThenChooseStatusAsWritten(router: Router) returns (statusPush: Query, searchPush: Query)
    modifies router
    ensures statusPush == UpdatedQuery(old(router.query), "status", "Alive", true)
    ensures "status" in statusPush && statusPush["status"] == "Alive"
    ensures searchPush == SearchQuery(old(router.query), "rick")
    ensures router.pushes == old(router.pushes) + [statusPush] + [searchPush]
    ensures router.query == searchPush && "name" in searchPush
    ensures "status" !in old(router.query) ==> "status" !in searchPush
  {
    ghost var before := router.pushes;
    var panel := new FilterPanel(router);
    panel.SearchInput("rick");
    var handle := panel.debouncer.timeoutRef;
    panel.UpdateQueryAsWritten("status", "Alive", true);
    assert "status"[0] != "name"[0] && "status"[0] != "page"[0];
    statusPush := router.query;
    ghost var chosen := router.pushes;
    assert chosen == before + [statusPush];
    panel.StaleSearchTimerFires(handle.value);
    searchPush := router.query;
    SearchForRickKeepsStatus(old(router.query));
  }

  /** As written: a search typed, then "Clear All Filters" pressed before its timer fires.
      The bare path is pushed, then the timer pushes the search against the query of the
      keystroke, which brings back every filter the clear removed. */
  method SearchThenClearAllAsWritten(router: Router) returns (searchPush: Query)
    modifies router
    ensures searchPush == SearchQuery(old(router.query), "rick")
    ensures router.pushes == old(router.pushes) + [map[]] + [searchPush]
    ensures router.query == searchPush && "name" in searchPush
    ensures "status" in old(router.query) ==>
      "status" in searchPush && searchPush["status"] == old(router.query)["status"]
  {
    ghost var before := router.pushes;
    var panel := new FilterPanel(router);
    panel.SearchInput("rick");
    var handle := panel.debouncer.timeoutRef;
    panel.ClearAllAsWritten();
    ghost var cleared := router.pushes;
    assert cleared == before + [map[]];
    panel.StaleSearchTimerFires(handle.value);
    searchPush := router.query;
    SearchForRickKeepsStatus(old(router.query));
  }

  /** A search typed, then "Clear All Filters" pressed before its timer fires: the bare path
      is the only push, and the address bar stays clear. */
  method SearchThenClearAll(router: Router)
    modifies router
    ensures router.pushes == old(router.pushes) + [map[]]
    ensures router.query == map[]
  {
    var panel := new FilterPanel(router);
    panel.SearchInput("rick");
    var handle := panel.debouncer.timeoutRef;
    panel.ClearAll();
    panel.SearchTimerFires(handle.value);
  }
}
