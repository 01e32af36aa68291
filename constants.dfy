/** The client's configuration constants (`BBox`, `JSONResponseKeys`, `ParameterKeys`,
    `ParameterValues`). Their values are not part of this model, so they are data that the
    client is given rather than literals. */
module FlickrConstants {

  /** The `BBox` constants: half-sizes of the search window around a point and the valid
      longitude and latitude ranges (lower end, upper end). */
  datatype BBoxSettings = BBoxSettings(
    halfWidth: real,
    halfHeight: real,
    lonRange: (real, real),
    latRange: (real, real))

  /** The `JSONResponseKeys` the client and `Photo` read. */
  datatype ResponseKeys = ResponseKeys(
    status: string,
    photos: string,
    pages: string,
    photo: string,
    title: string,
    mediumURL: string)

  /** A query-parameter value: a fixed text value, the bounding box (its four fields in
      order) or a page number. */
  datatype Param = Text(text: string) | Box(fields: seq<real>) | Number(n: int)

  /** The query dictionary of a search. */
  type Params = map<string, Param>

  /** The search's fixed parameters (method, api key, format, no-callback flag, extras,
      per-page count, safe-search level) with the keys of the bounding box and the page. */
  datatype QuerySettings = QuerySettings(
    fixedParameters: Params,
    boundingBoxKey: string,
    pageKey: string)

  /** Everything the client is configured with. */
  datatype ClientSettings = ClientSettings(
    query: QuerySettings,
    bbox: BBoxSettings,
    keys: ResponseKeys)
}
