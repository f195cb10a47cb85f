/** The shared record types of the application (its `@/types` module) and the
    outcome of one HTTP request, which stands for the network. */
module Types {
  import opened Wrappers

  /** One character record of the remote API, reduced to the fields the model uses. */
  datatype Character = Character(id: int, name: string, status: string, species: string, gender: string)

  /** The pagination envelope of a list response. */
  datatype PageInfo = PageInfo(count: int, pages: int, next: Option<string>, prev: Option<string>)

  datatype CharactersResponse = CharactersResponse(info: PageInfo, results: seq<Character>)

  /** Parameters of a list request; `None` is an absent (undefined) field. */
  datatype FilterParams = FilterParams(
    page: Option<int>,
    name: Option<string>,
    status: Option<string>,
    species: Option<string>,
    gender: Option<string>)

  /** What `fetch` yields: a rejected promise, or a response with its `ok` flag and its parsed body. */
  datatype Reply<T> = NetworkFailure | HttpReply(ok: bool, body: T)
}
