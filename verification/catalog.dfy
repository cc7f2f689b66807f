/** The values the Spotify Web API hands back, reduced to the fields the sync reads. The client
    itself is not modelled: a lookup or a search is a function from its argument to one of these. */
module Catalog {
  /** A track object: its id, its name and the names of its artists, in the API's order. */
  datatype CatalogTrack = CatalogTrack(id: string, name: string, artists: seq<string>)

  /** The outcome of one `search` call: the call raised, or it returned these items. */
  datatype SearchResponse = SearchFailed | Found(items: seq<CatalogTrack>)
}
