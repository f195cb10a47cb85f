/** The URL query string as the filter state's single source of truth, and
    `router.push`, which replaces it. */
module Navigation {

  /** The query parameters of the current URL, by name. */
  type Query = map<string, string>

  class Router {
    var query: Query
    /** Every query pushed so far, oldest first. */
    ghost var pushes: seq<Query>

    constructor (query: Query)
      ensures this.query == query && pushes == []
    {
      this.query := query;
      pushes := [];
    }

    /** `router.push("/?" + params)`: the address bar now carries `params`. */
    method Push(params: Query)
      modifies this
      ensures query == params
      ensures pushes == old(pushes) + [params]
    {
      query := params;
      pushes := pushes + [params];
    }
  }
}
