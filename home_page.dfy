/** The home page (`HomePage`): the filters it reads from the query, the parameters of
    the list request, page changes, what it shows, and the pagination controls. */
module HomePage {
  import opened Wrappers
  import opened JsText
  import opened Types
  import opened Navigation
  import SearchFilters

  /** The filters as the page reads them; `None` is `undefined`. */
  datatype PageState = PageState(
    name: Option<string>,
    status: Option<string>,
    species: Option<string>,
    gender: Option<string>,
    showFavorites: bool,
    page: int)

  /** `searchParams.get(key) || undefined`: a missing or empty parameter reads as undefined. */
  function Param(q: Query, key: string): (r: Option<string>)
    ensures r.Some? <==> key in q && q[key] != ""
    ensures r.Some? ==> r.value == q[key]
  {
    if key in q && q[key] != "" then Some(q[key]) else None
  }

  /** The page parameter is missing, empty, or decimal integer text. */
  predicate PageTextReadable(q: Query) {
    "page" !in q || q["page"] == "" || IsIntText(q["page"])
  }

  /** `searchParams.get("page") || "1"`. */
  function PageText(q: Query): (text: string)
    requires PageTextReadable(q)
    ensures IsIntText(text)
    ensures text == if "page" in q && q["page"] != "" then q["page"] else "1"
  {
    if "page" in q && q["page"] != "" then q["page"] else "1"
  }

  /** The page's reading of the query. */
  function ParseState(q: Query): (p: PageState)
    requires PageTextReadable(q)
    ensures p.name == Param(q, "name") && p.status == Param(q, "status")
    ensures p.species == Param(q, "species") && p.gender == Param(q, "gender")
    ensures p.showFavorites <==> "favorites" in q && q["favorites"] == "true"
    ensures !("page" in q && q["page"] != "") ==> p.page == 1
    ensures "page" in q && q["page"] != "" ==> p.page == ParseIntText(q["page"])
  {
    assert DigitsValue("1") == 1 by { assert "1"[..0] == []; }
    PageState(
      Param(q, "name"), Param(q, "status"), Param(q, "species"), Param(q, "gender"),
      "favorites" in q && q["favorites"] == "true",
      ParseIntText(PageText(q)))
  }

  /** The parameters `useCharacters` receives: in favorites mode page 1 and no filter,
      otherwise the filters as read. */
  function FetchParams(p: PageState): (f: FilterParams)
    ensures p.showFavorites ==> f == FilterParams(Some(1), None, None, None, None)
    ensures !p.showFavorites ==> f == FilterParams(Some(p.page), p.name, p.status, p.species, p.gender)
  {
    FilterParams(
      Some(if p.showFavorites then 1 else p.page),
      if p.showFavorites then None else p.name,
      if p.showFavorites then None else p.status,
      if p.showFavorites then None else p.species,
      if p.showFavorites then None else p.gender)
  }

  /** In favorites mode the request does not depend on the rest of the query. */
  lemma FavoritesModeIgnoresFilters(q1: Query, q2: Query)
    requires PageTextReadable(q1) && PageTextReadable(q2)
    requires ParseState(q1).showFavorites && ParseState(q2).showFavorites
    ensures FetchParams(ParseState(q1)) == FetchParams(ParseState(q2))
  {
  }

  /** Choosing a status while favorites are shown leaves favorites mode on and the request as it was. */
  lemma StatusChangeIgnoredInFavoritesMode(q: Query, option: string)
    requires PageTextReadable(q) && ParseState(q).showFavorites
    ensures var q2 := SearchFilters.UpdatedQuery(q, "status", option, true);
      && PageTextReadable(q2)
      && ParseState(q2).showFavorites
      && FetchParams(ParseState(q2)) == FetchParams(ParseState(q))
  {
    assert "favorites"[0] != "status"[0] && "favorites"[0] != "name"[0] && "favorites"[0] != "page"[0];
  }

  /** Ticking the checkbox turns favorites mode on, unticking turns it off, and either way the
      search and the page are reset. */
  lemma CheckboxSetsFavoritesMode(q: Query, checked: bool)
    ensures var q2 := SearchFilters.FavoritesToggled(q, checked);
      && PageTextReadable(q2)
      && ParseState(q2).showFavorites == checked
      && ParseState(q2).name == None
      && ParseState(q2).page == 1
  {
  }

  /** The query `handlePageChange(newPage)` pushes: `page` set to the number's text, every
      other parameter kept. */
  function PageChanged(q: Query, newPage: int): (r: Query)
    ensures "page" in r && r["page"] == IntToString(newPage)
    ensures forall k :: k != "page" ==> (k in r <==> k in q) && (k in r ==> r[k] == q[k])
  {
    q["page" := IntToString(newPage)]
  }

  /** After a page change the page reads back as the new number and every other filter reads
      as before. */
  lemma PageChangeReadsBack(q: Query, newPage: int)
    requires PageTextReadable(q)
    ensures PageTextReadable(PageChanged(q, newPage))
    ensures ParseState(PageChanged(q, newPage)) == ParseState(q).(page := newPage)
  {
    IntToStringRoundTrip(newPage);
    var r := PageChanged(q, newPage);
    assert IntToString(newPage) != "";
    assert "page" != "name" && "page" != "status" && "page" != "species" && "page" != "gender"
        && "page" != "favorites" by {
      assert "page"[0] != "name"[0] && "page"[0] != "status"[0] && "page"[0] != "species"[0];
      assert "page"[0] != "gender"[0] && "page"[0] != "favorites"[0];
    }
  }

  /** `handlePageChange`: copy the query, set `page`, push. */
  method HandlePageChange(router: Router, newPage: int)
    modifies router
    ensures router.query == PageChanged(old(router.query), newPage)
    ensures router.pushes == old(router.pushes) + [router.query]
  {
    var params := router.query;
    params := params["page" := IntToString(newPage)];
    router.Push(params);
  }

  /* ---------- Pagination ---------- */

  function Min(a: int, b: int): int { if a <= b then a else b }
  function Max(a: int, b: int): int { if a >= b then a else b }

  /** The page numbers that are not beyond the last page (the `return null` entries dropped). */
  function NotBeyond(nums: seq<int>, pages: int): seq<int> {
    if nums == [] then []
    else if nums[0] > pages then NotBeyond(nums[1..], pages)
    else [nums[0]] + NotBeyond(nums[1..], pages)
  }

  function Consecutive(start: int, n: nat): (r: seq<int>)
    ensures |r| == n && forall i :: 0 <= i < n ==> r[i] == start + i
  {
    seq(n, i requires 0 <= i < n => start + i)
  }

  /** Of a run of consecutive numbers, the ones not beyond the limit form a shorter run. */
  lemma {:induction false} NotBeyondConsecutive(start: int, n: nat, pages: int)
    ensures NotBeyond(Consecutive(start, n), pages) == Consecutive(start, Max(0, Min(n, pages - start + 1)))
    decreases n
  {
    if n > 0 {
      assert Consecutive(start, n)[1..] == Consecutive(start + 1, n - 1);
      NotBeyondConsecutive(start + 1, n - 1, pages);
      if start <= pages {
        assert [start] + Consecutive(start + 1, Max(0, Min(n - 1, pages - start))) == Consecutive(start, Max(0, Min(n, pages - start + 1)));
      } else {
        assert Max(0, Min(n - 1, pages - start)) == 0;
      }
    }
  }

  /** The numbered page buttons: up to `min(5, pages)` consecutive numbers from
      `max(1, page - 2)`, none beyond the last page. */
  function PageWindow(page: int, pages: int): (w: seq<int>)
    ensures |w| == Max(0, Min(Min(5, pages), pages - Max(1, page - 2) + 1))
    ensures forall i :: 0 <= i < |w| ==> w[i] == Max(1, page - 2) + i
    ensures forall i :: 0 <= i < |w| ==> 1 <= w[i] <= pages
    ensures 1 <= page <= pages ==> page in w
  {
    var start := Max(1, page - 2);
    var length := Max(0, Min(5, pages));
    NotBeyondConsecutive(start, length, pages);
    var w := NotBeyond(Consecutive(start, length), pages);
    assert 1 <= page <= pages ==> w[page - start] == page;
    w
  }

  /** The pagination bar, when shown: Previous and Next with whether each is disabled, and
      the numbered buttons. */
  datatype Pagination = Hidden | Shown(previousDisabled: bool, window: seq<int>, nextDisabled: bool)

  function PaginationFor(info: Option<PageInfo>, page: int, showFavorites: bool): (v: Pagination)
    ensures v.Shown? <==> info.Some? && info.value.pages > 1 && !showFavorites
    ensures v.Shown? ==> (v.previousDisabled <==> page == 1)
    ensures v.Shown? ==> (v.nextDisabled <==> info.value.next.None? || info.value.next.value == "")
    ensures v.Shown? ==> v.window == PageWindow(page, info.value.pages)
  {
    if info.Some? && info.value.pages > 1 && !showFavorites then
      Shown(page == 1, PageWindow(page, info.value.pages), info.value.next.None? || info.value.next.value == "")
    else Hidden
  }

  /** With three pages: on page 1 Previous is disabled and Next is not; on page 3, with no
      next link, Next is disabled. */
  lemma ThreePages(count: int, nextUrl: string, prevUrl: string)
    requires nextUrl != "" && prevUrl != ""
    ensures var first := PaginationFor(Some(PageInfo(count, 3, Some(nextUrl), None)), 1, false);
      first.Shown? && first.previousDisabled && !first.nextDisabled && first.window == [1, 2, 3]
    ensures var last := PaginationFor(Some(PageInfo(count, 3, None, Some(prevUrl))), 3, false);
      last.Shown? && !last.previousDisabled && last.nextDisabled && last.window == [1, 2, 3]
  {
    var w1 := PageWindow(1, 3);
    assert |w1| == 3;
    var w3 := PageWindow(3, 3);
    assert |w3| == 3;
  }

  /* ---------- What the page shows ---------- */

  /** The list query's observable state. */
  datatype ListStatus = ListStatus(data: Option<CharactersResponse>, isLoading: bool, error: Option<string>)

  /** `filteredCharacters`: the favorites in favorites mode, the fetched page otherwise. */
  function DisplayedCharacters(showFavorites: bool, favoriteCharacters: seq<Character>, characters: seq<Character>): (shown: seq<Character>)
    ensures showFavorites ==> shown == favoriteCharacters
    ensures !showFavorites ==> shown == characters
  {
    if showFavorites then favoriteCharacters else characters
  }

  datatype HomeView =
    | Skeleton
    | ErrorPanel(message: string)
    | Listing(characters: seq<Character>, emptyFavorites: bool, pagination: Pagination)

  /** The page's rendering decisions, in the source's order: not mounted, favorites loading,
      request error, request loading, then the list and the pagination bar. */
  function Render(mounted: bool, p: PageState, isLoadingFavorites: bool, favoriteCharacters: seq<Character>, list: ListStatus): (v: HomeView)
    ensures v.Skeleton? <==> !mounted || (p.showFavorites && isLoadingFavorites) || (list.error.None? && list.isLoading)
    ensures v.ErrorPanel? <==> mounted && !(p.showFavorites && isLoadingFavorites) && list.error.Some?
    ensures v.ErrorPanel? ==> v.message == list.error.value
    ensures v.Listing? && p.showFavorites ==>
      v.characters == favoriteCharacters && v.pagination == Hidden && (v.emptyFavorites <==> favoriteCharacters == [])
    ensures v.Listing? && !p.showFavorites ==>
      && v.characters == (if list.data.Some? then list.data.value.results else [])
      && !v.emptyFavorites
      && v.pagination == PaginationFor(if list.data.Some? then Some(list.data.value.info) else None, p.page, false)
  {
    var characters := if list.data.Some? then list.data.value.results else [];
    var info := if list.data.Some? then Some(list.data.value.info) else None;
    if !mounted then Skeleton
    else if p.showFavorites && isLoadingFavorites then Skeleton
    else if list.error.Some? then ErrorPanel(list.error.value)
    else if list.isLoading then Skeleton
    else Listing(
      DisplayedCharacters(p.showFavorites, favoriteCharacters, characters),
      p.showFavorites && favoriteCharacters == [],
      PaginationFor(info, p.page, p.showFavorites))
  }
}
