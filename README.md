# VirtualTourist: photo search, records and album list logic

VirtualTourist lets a user drop pins on a map and browse an album of photos from a public
photo-search API near each pin. This project models the parts that can be stated as
sequential logic, once the network, the random-number generator and the persistence engine
are treated as parameters:

- **The search client** (`FlickrClient` module). It clamps the query's bounding box to the valid
  coordinate ranges. It decides what a URL-session delivery hands on: data only for a 2xx
  status with no transport error. It treats a string status entry in the response as the API's
  failure convention. It asks for the page count, then for one random page, and keeps a
  contiguous window of at most 20 results. `PhotosAtPin` chains these steps.
  - The network is a function `fetch` from a request's query dictionary to what the session
    delivers.
  - `arc4random_uniform` is a function `rng` with `IsUniform(rng)`. A draw lies in
    `[0, bound)` and is 0 when the bound is below 2.
- **The records** (`Records` module). `Photo` and `Pin` are classes whose fields change in
  place. The managed-object context is an abstract record store with two parts: the live
  records and the records the last save made durable.
  - A photo is built from a result dictionary and inserted into the context.
  - Assigning `photo.pin` updates the inverse relationship `Pin.photos`.
  - `removePhotos` deletes every photo of a pin's set from the context.
- **The album screen's list logic** (`PhotoAlbum` module). `PhotoAlbumViewController` is a
  class holding the grid's `photos`, the `selectedIndexes` and the bottom-bar state.
  - A tap toggles a position in the selection.
  - The button either asks for a new collection or removes the selected rows.
  - The fetch completion attaches the new photos to the pin and shows them.
  - `Valid()` says the grid shows no photo twice, the selection has no duplicates, and the
    button title follows the selection.

Behaviours of the code worth noting; the model follows the code:

- The album window's start is drawn from `[0, count - 20)`, not `[0, count - 20]`. With more
  than 20 results the last window, and so the last result, is never chosen
  (`LastResultNeverSampled`).
- A page count of 0 does not short-circuit. The client requests page 1 (`PageToRequest`).
- A failure envelope, or a non-2xx status, reaches the handlers with neither data nor an error
  (`FailureEnvelopeIsSilent`, `UnsuccessfulStatusIsSilent`).
- On the page-count request, such a response, or one without a `photos.pages` integer, means
  the completion of `photosAtPin` is never called (`PageCountFailureNeverCompletes`).
- Nothing in the app ever stores downloaded image data into `Photo.imageData`. The image
  request fills only the on-screen cell.

## Model

| member | source | states |
|---|---|---|
| `Json.StringAt` | Photo.swift:19-20 | an `as? String` entry is present exactly when the key exists and holds a string, and it is that string |
| `Json.IntAt` | VirtualTourist/FlickrClient.swift:63 | an `as? Int` entry is present exactly when the key holds an integer, and it is that integer |
| `Json.DictionaryAt` | VirtualTourist/FlickrClient.swift:63 | an `as? [String: AnyObject]` entry is present exactly when the key holds an object |
| `Json.DictionaryArrayAt` | VirtualTourist/FlickrClient.swift:139 | an `as? [[String: AnyObject]]` entry is present exactly when the key holds an array of objects only; it keeps their number and order |
| `Records.Photo.constructor` | Photo.swift:16-24 | a new photo is inserted into the context; its title and path are the dictionary's title and medium-URL entries when those are strings, otherwise absent; it has no image data and no pin |
| `Records.Photo.PhotosFromArrayOfDictionaries` | Photo.swift:28-34 | exactly one fresh photo per dictionary, the i-th built from the i-th dictionary, no two the same, all inserted into the context and nothing else changed |
| `Records.Photo.GetImage` | Photo.swift:36-41 | no image when the image data is absent; with image data, exactly what decoding it gives (no image when it does not decode) |
| `Records.Photo.SetPin` | VirtualTourist/PhotoAlbumViewController.swift:108 | after `photo.pin = pin` the photo's pin is the new pin, the photo is in the new pin's set and no longer in its previous pin's set; title, path and data are unchanged, and a pin's coordinates are immutable |
| `Records.Pin.constructor` | Pin.swift:16-24 | a new pin stores exactly the given latitude and longitude and is inserted into the context |
| `Records.Pin.RemovePhotos` | Pin.swift:28-34 | every photo of the pin's set leaves the context and no other record does; nothing happens when the set is absent; the pin's coordinates are unchanged |
| `Records.Context.DeleteObject` | VirtualTourist/PhotoAlbumViewController.swift:77 | deleting a photo removes exactly that photo from the live records |
| `Records.Context.SaveContext` | VirtualTourist/PhotoAlbumViewController.swift:79 | a save makes the live records the durable ones |
| `FlickrClient.BBoxString` | VirtualTourist/FlickrClient.swift:22-29 | the four fields are minLon, minLat, maxLon, maxLat in that order; the lower corner never falls below the range minima and the upper corner never exceeds the maxima; each field is the window edge or the range end, whichever is tighter |
| `FlickrClient.BoxContainsPoint` | VirtualTourist/FlickrClient.swift:24-27 | a point inside the valid ranges lies inside its own box |
| `FlickrClient.BoxIsFullWindowInside` | VirtualTourist/FlickrClient.swift:24-27 | away from the range ends the box is the unclamped window around the point |
| `FlickrClient.SearchParameters` | VirtualTourist/FlickrClient.swift:107-116 | the search query holds the fixed parameters and, under the bounding-box key, the pin's box |
| `FlickrClient.RequestAtURL` | VirtualTourist/FlickrClient.swift:89-97 | data is handed on exactly when there is no transport error and the HTTP status is within 200-299; the error handed on is always the session's own |
| `FlickrClient.FlickrResponse` | VirtualTourist/FlickrClient.swift:38-48 | a response with a string status entry is reported with no dictionary; any other response is passed on unchanged with no error |
| `FlickrClient.FailureEnvelopeIsSilent` | VirtualTourist/FlickrClient.swift:41-42 | a 2xx failure envelope reaches the handler with neither data nor error |
| `FlickrClient.UnsuccessfulStatusIsSilent` | VirtualTourist/FlickrClient.swift:93-94 | a non-2xx response without a transport error reaches the handler with neither data nor error |
| `FlickrClient.PagesForSearch` | VirtualTourist/FlickrClient.swift:54-68 | on an error the page count reported is 0 with that error; otherwise the response's page count is reported with no error, or, when it has none, the completion is never called |
| `FlickrClient.PageToRequest` | VirtualTourist/FlickrClient.swift:128 | the requested page is in `[1, pages]`, and is 1 when there are no pages |
| `FlickrClient.PageParameters` | VirtualTourist/FlickrClient.swift:128-129 | the page request's query carries a page number in `[1, pages]`, and 1 when there are no pages |
| `FlickrClient.PageRequestAddsOnlyThePage` | VirtualTourist/FlickrClient.swift:128-129 | the page request's query is the search query with only the page added, and the page is in range |
| `FlickrClient.SampleAlbum` | VirtualTourist/FlickrClient.swift:140-147 | the album has `min(count, 20)` results; with 20 or more it is the contiguous run of 20 from the drawn start, with `start + 20 <= count`; with fewer it is every result in order |
| `FlickrClient.SampleIsWindow` | VirtualTourist/FlickrClient.swift:141-146 | the album always occurs in the results as one contiguous run |
| `FlickrClient.LastResultNeverSampled` | VirtualTourist/FlickrClient.swift:142 | with more than 20 results the window ends before the last result |
| `FlickrClient.FullPageIsWholeAlbum` | VirtualTourist/FlickrClient.swift:141-143 | with exactly 20 results the album is all of them |
| `FlickrClient.AlbumFromPage` | VirtualTourist/FlickrClient.swift:131-152 | the page handler reports an error with no photos. A photo array yields `min(count, 20)` of its results as one contiguous run starting at the drawn start (0 below 20 results), with no error. Any other response yields neither photos nor error. It traps only on an array too long for `UInt32` |
| `FlickrClient.AlbumFor` | VirtualTourist/FlickrClient.swift:105-154 | a completed search carries either at most 20 photos and no error, or an error and no photos. No completion happens exactly when the page-count request gets no callback. A page-count error is passed on, and a count too large for `UInt32` traps. Otherwise the outcome is what the page handler makes of the reply to the page request |
| `FlickrClient.PageCountErrorIsReported` | VirtualTourist/FlickrClient.swift:120-126 | a transport error on the page-count request reaches the completion with no photos |
| `FlickrClient.PageCountFailureNeverCompletes` | VirtualTourist/FlickrClient.swift:57-67 | a failure envelope on the page-count request means the completion is never called |
| `FlickrClient.PhotosAtPin` | VirtualTourist/FlickrClient.swift:105-154 | the outcome follows `AlbumFor`; a returned album becomes distinct fresh photos with no pin, one per dictionary in order, inserted into the context; otherwise the context is unchanged |
| `PhotoAlbum.IndexOf` | VirtualTourist/PhotoAlbumViewController.swift:174 | the first position holding the value, and absent exactly when the value is not in the sequence |
| `PhotoAlbum.ToggleMembership` | VirtualTourist/PhotoAlbumViewController.swift:174-180 | a tap on a selected position deselects it, a tap on any other selects it, and no other position changes membership |
| `PhotoAlbum.RemoveAtKeepsNoDuplicates` | VirtualTourist/PhotoAlbumViewController.swift:73-78 | removing one row from a sequence without duplicates leaves none, so the grid never shows a photo twice after a removal |
| `PhotoAlbum.ToggleKeepsNoDuplicates` | VirtualTourist/PhotoAlbumViewController.swift:174-180 | the selection never gains a duplicate |
| `PhotoAlbum.ToggleTwice` | VirtualTourist/PhotoAlbumViewController.swift:174-180 | two taps on a position restore the selection's membership, and, when the position was unselected, restore the selection itself |
| `PhotoAlbum.Toggle` | VirtualTourist/PhotoAlbumViewController.swift:174-180 | a tap on an unselected position appends it; a tap on a selected one removes its first occurrence and keeps every other position in its order |
| `PhotoAlbum.AlphaFor` | VirtualTourist/PhotoAlbumViewController.swift:160-164 | a cell shows alpha 0.3 exactly when its position is selected and 1.0 exactly when it is not |
| `PhotoAlbum.TitleFor` | VirtualTourist/PhotoAlbumViewController.swift:92 | the title is "Remove Selected Photos" exactly when the selection is non-empty and "New Collection" exactly when it is empty |
| `PhotoAlbum.TapAlphaMatchesGrid` | VirtualTourist/PhotoAlbumViewController.swift:160-180 | the alpha a tap gives the tapped cell is the one the grid shows for it under the new selection, and it differs from the previous one |
| `PhotoAlbum.RemovalAccounting` | VirtualTourist/PhotoAlbumViewController.swift:73-78 | without a trap the loop removes one photo per selected row, and the kept and removed photos are together exactly the original photos |
| `PhotoAlbum.RemoveRowsAsWritten` | VirtualTourist/PhotoAlbumViewController.swift:73-78 | the loop as written runs through exactly when the k-th selected row lies below `count - k`, and then removes one photo per selected row |
| `PhotoAlbum.TrapIsFinal` | VirtualTourist/PhotoAlbumViewController.swift:73-75 | once one row is out of range the whole removal traps |
| `PhotoAlbum.AsWrittenRemovesWrongPhoto` | VirtualTourist/PhotoAlbumViewController.swift:73-78 | selecting rows 0 then 1 of three photos removes the photos of rows 0 and 2 and keeps the selected photo of row 1 |
| `PhotoAlbum.AsWrittenTrapsPastShrunkEnd` | VirtualTourist/PhotoAlbumViewController.swift:74 | selecting rows 0 then 2 of three photos indexes past the end of the shrunk array |
| `PhotoAlbum.KeepUnselectedIsIntended` | VirtualTourist/PhotoAlbumViewController.swift:73-78 | in the intended removal, a photo survives exactly when its original row was not selected |
| `PhotoAlbum.DescendingRemovalKeepsUnselected` | VirtualTourist/PhotoAlbumViewController.swift:73-78 | the loop as written removes exactly the selected photos, keeping the others in order, when the rows come largest first |
| `PhotoAlbum.PhotoAlbumViewController.constructor` | VirtualTourist/PhotoAlbumViewController.swift:16-30 | a loaded screen holds the photos the segue handed over, which are exactly the pin's photos, each once. It has no selection, the "New Collection" title and the label hidden |
| `PhotoAlbum.PhotoAlbumViewController.ViewWillAppear` | VirtualTourist/PhotoAlbumViewController.swift:48-55 | a new collection is requested, with the button disabled, only when there are no photos |
| `PhotoAlbum.PhotoAlbumViewController.GetNewCollectionOfPhotos` | VirtualTourist/PhotoAlbumViewController.swift:98-99 | each call starts one collection request |
| `PhotoAlbum.PhotoAlbumViewController.SetTextForBottomBarButton` | VirtualTourist/PhotoAlbumViewController.swift:91-94 | afterwards the title is the one `TitleFor` gives the selection, whatever the selection |
| `PhotoAlbum.PhotoAlbumViewController.DidSelectItem` | VirtualTourist/PhotoAlbumViewController.swift:171-183 | the selection becomes the toggle of the tapped position; no duplicates appear, the title follows and the cell's alpha matches the new selection |
| `PhotoAlbum.PhotoAlbumViewController.RemoveRows` | VirtualTourist/PhotoAlbumViewController.swift:73-78 | the in-place loop traps exactly when the as-written removal does; otherwise the grid's photos are its kept photos and exactly its removed photos leave the context; nothing is saved; a grid without duplicates keeps none |
| `PhotoAlbum.PhotoAlbumViewController.BottomBarButtonTapped` | VirtualTourist/PhotoAlbumViewController.swift:64-87 | with no selection, the pin's photos leave the context, the grid empties and one request starts. Otherwise the photos are the as-written removal result and the removed photos leave the context. The grid then has one item fewer per selected row. The context is saved and the selection cleared. It traps exactly when the as-written removal does. Without a trap, the button's enabled state and the "no images" label are unchanged, and no pin is saved unless the context is |
| `PhotoAlbum.PhotoAlbumViewController.NewCollectionArrived` | VirtualTourist/PhotoAlbumViewController.swift:99-124 | it is given a collection as `PhotosAtPin` returns it: distinct photos not yet on any pin. On an error or no photos nothing changes, the fetched photos included. Otherwise every photo's pin is the screen's pin, and the pin's set becomes its earlier members plus the new photos. The photos' titles, paths and data are unchanged. The photos replace the grid's. The context is saved, with its live photos and pins as they were before the call. The label shows exactly for an empty collection and the button is enabled |

## Findings

| source | as written | input that shows it | evidently intended | confidence | as-written member | corrected member |
|---|---|---|---|---|---|---|
| VirtualTourist/PhotoAlbumViewController.swift:73-78 | each selected row, in selection order, is removed from the array already shrunk by the earlier removals | photos `[a, b, c]` with rows 0 then 1 selected: `a` and `c` are removed and the selected `b` stays; with rows 0 then 2 selected, `photos[2]` is read from a two-element array and the app traps (`AsWrittenRemovesWrongPhoto`, `AsWrittenTrapsPastShrunkEnd`) | remove exactly the photos at the selected original rows and keep the rest in order, e.g. by visiting the rows largest first (`DescendingRemovalKeepsUnselected`) | high; not executed | `PhotoAlbum.RemoveRowsAsWritten` | `PhotoAlbum.KeepUnselected` |

`PhotoAlbumViewController.BottomBarButtonTapped` models the loop as written, so its result
is the one `RemoveRowsAsWritten` gives. `KeepUnselected` is the intended result.
`KeepUnselectedIsIntended` proves the intended property about it, and
`DescendingRemovalKeepsUnselected` shows that visiting the rows in descending order yields
that result.

## Left out

- Networking: creating and resuming `NSURLSession` tasks, and `imageDataForPhoto`. The session's
  delivery is a parameter, and `imageDataForPhoto` is not modelled. It force-unwraps a photo's
  path, so a photo without a path would trap there.
- The headers and body branches of `makeRequestAtURL`. Every caller passes `nil` for both, and
  the header loop walks a dictionary in unspecified order.
- JSON decoding and the `try!`/`as!` crashes. A response body is already a decoded dictionary.
  `Json.IntAt` accepts only integer values; Swift's bridging of non-integral numbers and
  booleans to `Int` is not modelled.
- Text formatting of the bbox numbers. The string is its four fields as `real`s, and IEEE
  rounding of `lon ± halfWidth` is not modelled.
- `urlFromComponents`: turning the query dictionary into a URL. A request is identified by its
  query dictionary. The values of `Components`, `ParameterKeys`, `ParameterValues`, `BBox` and
  `JSONResponseKeys` are not in this model and are passed in as `ClientSettings`.
- `arc4random_uniform` itself. It is a function parameter satisfying `IsUniform`, so the model
  says which draws are possible but not how likely they are.
- Main-queue dispatch and asynchrony. Each callback body is a sequential method.
  `NewCollectionArrived` runs the completion's two main-queue blocks in order.
- CoreData itself: entity descriptions, the `fatalError` paths, fetch requests, and the nullify
  rule. A deleted photo is not removed from its pin's set. A fresh pin's photo set is taken to
  be empty, as CoreData gives an inserted object.
- `PhotoAlbumViewController.BottomBarButtonTapped`: a trap ends the process, so after
  `trapped` the contract says nothing about the state.
- UI effects: cell images, placeholder and activity indicator, the button's tint colour, the
  map region and annotation, grid reloads and deletions, and the logging of the completion's
  error. The storyboard is not part of the
  model, so the constructor takes the button as enabled with the "New Collection" title.
- `PhotoAlbum.PhotoAlbumViewController.constructor`: `viewDidLoad`'s map set-up is not
  modelled. The order in which `allObjects` lists the pin's photos is unspecified, so the
  segue's array is a parameter that holds exactly the pin's photos. When the pin's set is
  `nil`, the segue leaves the array empty, which this parameter covers as the empty list.
- `Records.Pin`: the coordinates are stored properties the app assigns only in
  `init(latitude:longitude:context:)`, so they are `const` here.
- `FlickrClient.AlbumFor`: the reported page count is not bounded by what the API can serve.
  A count larger than `UInt32` traps in the model exactly as the conversion does.
- `TravelLocationsViewController`, `PinAnnotation` and `PhotoCollectionViewCell`. They are map,
  gesture and cell wiring.
