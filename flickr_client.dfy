/** The photo-search client: the bounding box of a query, the classification of what the
    URL session delivers, the page-count request, the random page and album window, and
    `photosAtPin`, which chains them. The network is a function from a request's query
    parameters to what the session delivers; `arc4random_uniform` is a function that
    returns a draw in range. */
module FlickrClient {
  import opened Basics
  import opened Json
  import opened FlickrConstants
  import opened Records

  /** The number of photos an album holds. */
  const AlbumSize := 20

  /** The largest `UInt32`; converting a larger or negative `Int` to `UInt32` traps. */
  const UInt32Max := 0xFFFF_FFFF

  function Max(a: real, b: real): real { if a < b then b else a }
  function Min(a: real, b: real): real { if b < a then b else a }

  // ---------------------------------------------------------------------------
  // Bounding box

  /** `bboxString`: the fields minLon, minLat, maxLon, maxLat, in that order, of the search
      window around the point. Each side is the window's edge unless that falls outside the
      valid range, in which case it is the range's end. The text formatting of the numbers
      is not modelled; the string is its four comma-separated fields. */
  function BBoxString(box: BBoxSettings, latitude: real, longitude: real): (fields: seq<real>)
    ensures |fields| == 4
    ensures fields[0] >= box.lonRange.0 && fields[1] >= box.latRange.0
    ensures fields[2] <= box.lonRange.1 && fields[3] <= box.latRange.1
    ensures fields[0] >= longitude - box.halfWidth && fields[1] >= latitude - box.halfHeight
    ensures fields[2] <= longitude + box.halfWidth && fields[3] <= latitude + box.halfHeight
    ensures fields[0] == longitude - box.halfWidth || fields[0] == box.lonRange.0
    ensures fields[1] == latitude - box.halfHeight || fields[1] == box.latRange.0
    ensures fields[2] == longitude + box.halfWidth || fields[2] == box.lonRange.1
    ensures fields[3] == latitude + box.halfHeight || fields[3] == box.latRange.1
  {
    var minimumLon := Max(longitude - box.halfWidth, box.lonRange.0);
    var minimumLat := Max(latitude - box.halfHeight, box.latRange.0);
    var maximumLon := Min(longitude + box.halfWidth, box.lonRange.1);
    var maximumLat := Min(latitude + box.halfHeight, box.latRange.1);
    [minimumLon, minimumLat, maximumLon, maximumLat]
  }

  /** A point inside the valid ranges lies inside its own search box. */
  lemma BoxContainsPoint(box: BBoxSettings, latitude: real, longitude: real)
    requires box.halfWidth >= 0.0 && box.halfHeight >= 0.0
    requires box.lonRange.0 <= longitude <= box.lonRange.1
    requires box.latRange.0 <= latitude <= box.latRange.1
    ensures var f := BBoxString(box, latitude, longitude);
      f[0] <= longitude <= f[2] && f[1] <= latitude <= f[3]
  {
  }

  /** Away from the edges of the valid ranges the box is the full, unclamped window. */
  lemma BoxIsFullWindowInside(box: BBoxSettings, latitude: real, longitude: real)
    requires box.lonRange.0 <= longitude - box.halfWidth && longitude + box.halfWidth <= box.lonRange.1
    requires box.latRange.0 <= latitude - box.halfHeight && latitude + box.halfHeight <= box.latRange.1
    ensures BBoxString(box, latitude, longitude)
         == [longitude - box.halfWidth, latitude - box.halfHeight, longitude + box.halfWidth, latitude + box.halfHeight]
  {
  }

  /** The query dictionary built in `photosAtPin`: the fixed parameters and the bounding
      box of the pin's coordinates. */
  function SearchParameters(settings: ClientSettings, latitude: real, longitude: real): (params: Params)
    ensures settings.query.boundingBoxKey in params
    ensures params[settings.query.boundingBoxKey] == Box(BBoxString(settings.bbox, latitude, longitude))
    ensures params.Keys == settings.query.fixedParameters.Keys + {settings.query.boundingBoxKey}
    ensures forall k :: k in settings.query.fixedParameters && k != settings.query.boundingBoxKey ==>
              params[k] == settings.query.fixedParameters[k]
  {
    settings.query.fixedParameters[settings.query.boundingBoxKey := Box(BBoxString(settings.bbox, latitude, longitude))]
  }

  // ---------------------------------------------------------------------------
  // Requests

  /** A transport error (`NSError`). */
  datatype NetError = NetError(code: int)

  /** What the URL session hands to a data task's completion: the body (decoded), the
      status code when the response is an HTTP one, and the transport error. */
  datatype Delivery = Delivery(body: Option<Dictionary>, httpStatus: Option<int>, error: Option<NetError>)

  /** The `(data, error)` pair a request passes on to its completion handler. */
  datatype Reply = Reply(data: Option<Dictionary>, error: Option<NetError>)

  predicate IsSuccessStatus(code: int) {
    200 <= code <= 299
  }

  /** The completion of `makeRequestAtURL`: data only when there is no transport error and
      an HTTP status between 200 and 299; the error passed on is always the session's own,
      so a non-2xx response is reported with no error at all. */
  function RequestAtURL(d: Delivery): (r: Reply)
    ensures r.data.Some? <==>
              d.error.None? && d.httpStatus.Some? && IsSuccessStatus(d.httpStatus.value) && d.body.Some?
    ensures r.data.Some? ==> r.data == d.body
    ensures r.error == d.error
  {
    if d.error.Some? then Reply(None, d.error)
    else if !(d.httpStatus.Some? && d.httpStatus.value >= 200 && d.httpStatus.value <= 299) then Reply(None, d.error)
    else Reply(d.body, None)
  }

  /** The API's failure convention: the response holds a string status entry. */
  predicate IsFailureEnvelope(json: Dictionary, keys: ResponseKeys) {
    StringAt(json, keys.status).Some?
  }

  /** The handler of `makeRequestForFlickr`: a decoded response with a string status entry
      is reported with no dictionary and the error it came with; any other response is
      passed on unchanged with no error. */
  function FlickrResponse(raw: Reply, keys: ResponseKeys): (r: Reply)
    ensures r.data.Some? <==> raw.data.Some? && !IsFailureEnvelope(raw.data.value, keys)
    ensures r.data.Some? ==> r == Reply(raw.data, None)
    ensures r.data.None? ==> r.error == raw.error
  {
    if raw.data.Some? then
      if StringAt(raw.data.value, keys.status).Some? then Reply(None, raw.error)
      else Reply(raw.data, None)
    else
      Reply(None, raw.error)
  }

  /** A failure envelope delivered with a 2xx status reaches the handler as neither data
      nor error. */
  lemma FailureEnvelopeIsSilent(d: Delivery, keys: ResponseKeys)
    requires d.error.None? && d.httpStatus.Some? && IsSuccessStatus(d.httpStatus.value)
    requires d.body.Some? && IsFailureEnvelope(d.body.value, keys)
    ensures FlickrResponse(RequestAtURL(d), keys) == Reply(None, None)
  {
  }

  /** A response outside 2xx without a transport error reaches the handler as neither
      data nor error. */
  lemma UnsuccessfulStatusIsSilent(d: Delivery, keys: ResponseKeys)
    requires d.error.None? && d.httpStatus.Some? && !IsSuccessStatus(d.httpStatus.value)
    ensures FlickrResponse(RequestAtURL(d), keys) == Reply(None, None)
  {
  }

  // ---------------------------------------------------------------------------
  // Page count

  /** What `pagesForSearch` does with its completion: calls it with a page count and an
      error, or never calls it. */
  datatype PagesOutcome = PagesReported(pages: int, error: Option<NetError>) | NoCallback

  /** The `photos.pages` entry of a response, when it has the expected shape. */
  function ReportedPages(reply: Reply, keys: ResponseKeys): Option<int> {
    if reply.data.Some? then
      match DictionaryAt(reply.data.value, keys.photos)
      case Some(photos) => IntAt(photos, keys.pages)
      case None => None
    else None
  }

  /** `pagesForSearch`: on an error, 0 pages with that error; otherwise the reported page
      count with no error when the response has the expected shape, and no callback at all
      when it does not. */
  function PagesForSearch(reply: Reply, keys: ResponseKeys): (r: PagesOutcome)
    ensures reply.error.Some? ==> r == PagesReported(0, reply.error)
    ensures reply.error.None? ==> (r.PagesReported? <==> ReportedPages(reply, keys).Some?)
    ensures reply.error.None? && r.PagesReported? ==> r == PagesReported(ReportedPages(reply, keys).value, None)
  {
    if reply.error.Some? then PagesReported(0, reply.error)
    else match ReportedPages(reply, keys)
      case Some(pages) => PagesReported(pages, None)
      case None => NoCallback
  }

  // ---------------------------------------------------------------------------
  // Random draws

  /** What `arc4random_uniform(bound)` may return: a value in `[0, bound)`, and 0 when the
      bound is below 2. */
  predicate ValidDraw(bound: int, draw: int) {
    0 <= draw && (if bound < 2 then draw == 0 else draw < bound)
  }

  /** A stand-in for `arc4random_uniform` over every `UInt32` bound. */
  ghost predicate IsUniform(rng: int -> int) {
    forall bound :: 0 <= bound <= UInt32Max ==> ValidDraw(bound, rng(bound))
  }

  /** The page `photosAtPin` requests: a draw from `[0, pages)` plus 1, so a page in
      `[1, pages]`, and page 1 when there are no pages. */
  function PageToRequest(pages: int, draw: int): (page: int)
    requires 0 <= pages <= UInt32Max && ValidDraw(pages, draw)
    ensures pages >= 1 ==> 1 <= page <= pages
    ensures pages == 0 ==> page == 1
  {
    draw + 1
  }

  // ---------------------------------------------------------------------------
  // Album window

  /** Whether `window` occurs in `whole` as a contiguous run. */
  ghost predicate IsWindowOf<T>(window: seq<T>, whole: seq<T>) {
    exists start | 0 <= start <= |whole| - |window| :: whole[start..][..|window|] == window
  }

  /** The album slice of `photosAtPin`: with at least `AlbumSize` results, the contiguous
      `AlbumSize` results beginning at the drawn start; otherwise every result, in order. */
  function SampleAlbum<T>(results: seq<T>, start: int): (album: seq<T>)
    requires |results| >= AlbumSize ==> ValidDraw(|results| - AlbumSize, start)
    ensures |album| == if |results| >= AlbumSize then AlbumSize else |results|
    ensures |results| >= AlbumSize ==>
              0 <= start && start + AlbumSize <= |results| &&
              forall k :: 0 <= k < AlbumSize ==> album[k] == results[start + k]
    ensures |results| < AlbumSize ==> album == results
  {
    if |results| >= AlbumSize then results[start..start + AlbumSize] else results
  }

  /** The album is always a contiguous run of the results. */
  lemma SampleIsWindow<T>(results: seq<T>, start: int)
    requires |results| >= AlbumSize ==> ValidDraw(|results| - AlbumSize, start)
    ensures IsWindowOf(SampleAlbum(results, start), results)
  {
    var album := SampleAlbum(results, start);
    if |results| >= AlbumSize {
      assert results[start..][..|album|] == album;
    } else {
      assert results[0..][..|album|] == album;
    }
  }

  /** With more than `AlbumSize` results the start is drawn from `[0, count - AlbumSize)`,
      so the window never reaches the last result. */
  lemma LastResultNeverSampled<T>(results: seq<T>, start: int)
    requires |results| > AlbumSize && ValidDraw(|results| - AlbumSize, start)
    ensures start + AlbumSize < |results|
    ensures SampleAlbum(results, start) == results[..|results| - 1][start..start + AlbumSize]
  {
  }

  /** With exactly `AlbumSize` results the only window is all of them. */
  lemma FullPageIsWholeAlbum<T>(results: seq<T>, start: int)
    requires |results| == AlbumSize && ValidDraw(0, start)
    ensures SampleAlbum(results, start) == results
  {
  }

  // ---------------------------------------------------------------------------
  // photosAtPin

  /** What a completion handler of `photosAtPin` receives: photos and an error, or nothing
      because no callback is made, or nothing because a conversion trapped. */
  datatype AlbumOutcome<T> = NoCompletion | Trapped | Completed(photos: Option<seq<T>>, error: Option<NetError>)

  /** The `photos.photo` array of a response, when it has the expected shape. */
  function PhotoDictionaries(reply: Reply, keys: ResponseKeys): Option<seq<Dictionary>> {
    if reply.data.Some? then
      match DictionaryAt(reply.data.value, keys.photos)
      case Some(photos) => DictionaryArrayAt(photos, keys.photo)
      case None => None
    else None
  }

  /** The handler of the page request in `photosAtPin`, up to building the photos: on an
      error, that error; with a photo array, the sampled album; otherwise neither. */
  function AlbumFromPage(reply: Reply, keys: ResponseKeys, startRng: int -> int): (r: AlbumOutcome<Dictionary>)
    requires IsUniform(startRng)
    ensures !r.NoCompletion?
    ensures reply.error.Some? ==> r == Completed(None, reply.error)
    ensures r.Completed? && r.photos.Some? ==>
              reply.error.None? && PhotoDictionaries(reply, keys).Some? &&
              |r.photos.value| <= AlbumSize && IsWindowOf(r.photos.value, PhotoDictionaries(reply, keys).value)
    ensures r.Completed? && r.photos.None? && reply.error.None? ==>
              r.error.None? && PhotoDictionaries(reply, keys).None?
    ensures r.Trapped? ==> PhotoDictionaries(reply, keys).Some? && |PhotoDictionaries(reply, keys).value| - AlbumSize > UInt32Max
    ensures reply.error.None? && PhotoDictionaries(reply, keys).Some? ==>
              var results := PhotoDictionaries(reply, keys).value;
              |results| - AlbumSize <= UInt32Max ==>
                && r.Completed? && r.error.None? && r.photos.Some?
                && |r.photos.value| == (if |results| >= AlbumSize then AlbumSize else |results|)
                && r.photos.value == SampleAlbum(results, if |results| >= AlbumSize then startRng(|results| - AlbumSize) else 0)
  {
    if reply.error.Some? then Completed(None, reply.error)
    else match PhotoDictionaries(reply, keys)
      case Some(results) =>
        if |results| >= AlbumSize then
          if |results| - AlbumSize > UInt32Max then Trapped
          else
            var start := startRng(|results| - AlbumSize);
            SampleIsWindow(results, start);
            Completed(Some(SampleAlbum(results, start)), None)
        else
          SampleIsWindow(results, 0);
          Completed(Some(SampleAlbum(results, 0)), None)
      case None => Completed(None, reply.error)
  }

  /** The query dictionary of the page request: the search's, with the page added. */
  function PageParameters(settings: ClientSettings, latitude: real, longitude: real, pages: int, pageRng: int -> int): (params: Params)
    requires 0 <= pages <= UInt32Max && IsUniform(pageRng)
    ensures settings.query.pageKey in params && params[settings.query.pageKey].Number?
    ensures var page := params[settings.query.pageKey].n;
      (pages >= 1 ==> 1 <= page <= pages) && (pages == 0 ==> page == 1)
  {
    SearchParameters(settings, latitude, longitude)[settings.query.pageKey := Number(PageToRequest(pages, pageRng(pages)))]
  }

  /** `photosAtPin` up to building the photos: the page-count request, then the page
      request and the album window. */
  function AlbumFor(settings: ClientSettings, latitude: real, longitude: real,
                    fetch: Params -> Delivery, pageRng: int -> int, startRng: int -> int): (r: AlbumOutcome<Dictionary>)
    requires IsUniform(pageRng) && IsUniform(startRng)
    ensures r.Completed? && r.photos.Some? ==> r.error.None? && |r.photos.value| <= AlbumSize
    ensures r.Completed? && r.error.Some? ==> r.photos.None?
    ensures var count := PagesForSearch(FlickrResponse(RequestAtURL(fetch(SearchParameters(settings, latitude, longitude))), settings.keys), settings.keys);
      && (r.NoCompletion? <==> count.NoCallback?)
      && (count.PagesReported? && count.error.Some? ==> r == Completed(None, count.error))
      && (count.PagesReported? && count.error.None? && !(0 <= count.pages <= UInt32Max) ==> r.Trapped?)
      && (count.PagesReported? && count.error.None? && 0 <= count.pages <= UInt32Max ==>
            r == AlbumFromPage(FlickrResponse(RequestAtURL(fetch(PageParameters(settings, latitude, longitude, count.pages, pageRng))), settings.keys),
                               settings.keys, startRng))
  {
    var keys := settings.keys;
    match PagesForSearch(FlickrResponse(RequestAtURL(fetch(SearchParameters(settings, latitude, longitude))), keys), keys)
    case NoCallback => NoCompletion
    case PagesReported(pages, error) =>
      if error.Some? then Completed(None, error)
      else if !(0 <= pages <= UInt32Max) then Trapped
      else
        AlbumFromPage(FlickrResponse(RequestAtURL(fetch(PageParameters(settings, latitude, longitude, pages, pageRng))), keys),
                      keys, startRng)
  }

  /** A transport error on the page-count request is passed to the completion, with no
      photos and without a page request. */
  lemma PageCountErrorIsReported(settings: ClientSettings, latitude: real, longitude: real,
                                 fetch: Params -> Delivery, pageRng: int -> int, startRng: int -> int)
    requires IsUniform(pageRng) && IsUniform(startRng)
    requires fetch(SearchParameters(settings, latitude, longitude)).error.Some?
    ensures AlbumFor(settings, latitude, longitude, fetch, pageRng, startRng)
         == Completed(None, fetch(SearchParameters(settings, latitude, longitude)).error)
  {
  }

  /** A failure envelope in answer to the page-count request means the completion is
      never called. */
  lemma PageCountFailureNeverCompletes(settings: ClientSettings, latitude: real, longitude: real,
                                       fetch: Params -> Delivery, pageRng: int -> int, startRng: int -> int)
    requires IsUniform(pageRng) && IsUniform(startRng)
    requires var d := fetch(SearchParameters(settings, latitude, longitude));
      d.error.None? && d.httpStatus.Some? && IsSuccessStatus(d.httpStatus.value) &&
      d.body.Some? && IsFailureEnvelope(d.body.value, settings.keys)
    ensures AlbumFor(settings, latitude, longitude, fetch, pageRng, startRng) == NoCompletion
  {
    FailureEnvelopeIsSilent(fetch(SearchParameters(settings, latitude, longitude)), settings.keys);
  }

  /** The page request adds only the page to the search's parameters; the page lies in
      `[1, pages]`, and is 1 when the search has no pages. */
  lemma PageRequestAddsOnlyThePage(settings: ClientSettings, latitude: real, longitude: real, pages: int, pageRng: int -> int)
    requires 0 <= pages <= UInt32Max && IsUniform(pageRng)
    requires settings.query.pageKey != settings.query.boundingBoxKey
    ensures var params := PageParameters(settings, latitude, longitude, pages, pageRng);
      && params.Keys == SearchParameters(settings, latitude, longitude).Keys + {settings.query.pageKey}
      && (forall k :: k in params && k != settings.query.pageKey ==> params[k] == SearchParameters(settings, latitude, longitude)[k])
      && params[settings.query.pageKey].Number?
      && var page := params[settings.query.pageKey].n;
         (pages >= 1 ==> 1 <= page <= pages) && (pages == 0 ==> page == 1)
  {
  }

  /** `photosAtPin`: the same requests, then one new photo in the context per dictionary
      of the album, in album order. The query dictionary is updated in place with the
      page, as the client does. */
  method PhotosAtPin(pin: Pin, context: Context, settings: ClientSettings,
                     fetch: Params -> Delivery, pageRng: int -> int, startRng: int -> int)
    returns (outcome: AlbumOutcome<Photo>)
    requires IsUniform(pageRng) && IsUniform(startRng)
    modifies context
    ensures var expected := AlbumFor(settings, pin.latitude, pin.longitude, fetch, pageRng, startRng);
      && outcome.NoCompletion? == expected.NoCompletion?
      && outcome.Trapped? == expected.Trapped?
      && (outcome.Completed? ==> expected.Completed? && outcome.error == expected.error && outcome.photos.Some? == expected.photos.Some?)
      && (outcome.Completed? && outcome.photos.Some? ==>
            var photos, dictionaries := outcome.photos.value, expected.photos.value;
            && |photos| == |dictionaries|
            && (forall i :: 0 <= i < |photos| ==> fresh(photos[i]) && photos[i].BuiltFrom(dictionaries[i], settings.keys))
            && (forall i, j :: 0 <= i < j < |photos| ==> photos[i] != photos[j])
            && context.photos == old(context.photos) + Elements(photos))
      && (!(outcome.Completed? && outcome.photos.Some?) ==> context.photos == old(context.photos))
    ensures context.pins == old(context.pins)
    ensures context.savedPhotos == old(context.savedPhotos) && context.savedPins == old(context.savedPins)
  {
    var keys := settings.keys;
    var parameters := SearchParameters(settings, pin.latitude, pin.longitude);
    var pagesOutcome := PagesForSearch(FlickrResponse(RequestAtURL(fetch(parameters)), keys), keys);
    if pagesOutcome.NoCallback? {
      return NoCompletion;
    }
    if pagesOutcome.error.Some? {
      return Completed(None, pagesOutcome.error);
    }
    var pages := pagesOutcome.pages;
    if !(0 <= pages <= UInt32Max) {
      return Trapped;
    }
    parameters := parameters[settings.query.pageKey := Number(PageToRequest(pages, pageRng(pages)))];
    var album := AlbumFromPage(FlickrResponse(RequestAtURL(fetch(parameters)), keys), keys, startRng);
    match album {
      case Completed(Some(dictionaries), error) =>
        var photos := Photo.PhotosFromArrayOfDictionaries(dictionaries, context, keys);
        outcome := Completed(Some(photos), error);
      case Completed(None, error) =>
        outcome := Completed(None, error);
      case Trapped =>
        outcome := Trapped;
    }
  }
}
