# GameLogger fetch core, modelled in Dafny

GameLogger is an iOS app that reads game records from the IGDB catalog API together with their cover art and screenshots. The project models the two deterministic parts of that pipeline and proves properties about them.

- **`Game`** (`game.dfy`, module `GameModel`). `init(dictionary:)` turns a JSON object into a record without ever failing. It sets `name`, `releaseDate` and the cover URL only when the matching entry is present and has the right type (`ParseFields`). `getArtwork()` is a lazy load held in the `artwork` field of class `Game`. If the artwork is already set, nothing happens. If there is no cover URL, the placeholder is used. Otherwise one download is requested. Its callback (`DeliverArtwork`) stores the image.
- **`NetworkManager`** (`network.dfy`, module `Network`), with the network replaced by explicit inputs:
  - `ParseJSONFrom`: the callback loop that keeps the games the per-object parser accepts.
  - `ImageUrlText` and `DownloadImageFrom`: the URL rewrite and the download guards.
  - `GetScreenshots`: the per-URL loop over screenshot images.
  - `IdBatch` and `GetGameFromIds`: the count-and-fire aggregator of the by-id batch, driven by callbacks delivered one at a time.
- `json.dfy` (module `JsonValues`) holds the decoded JSON value and the Swift casts `as? String`, `as? Int`, `as? [String: Any]` and `as? [[String: Any]]`. `media.dfy` holds URLs, bytes and an opaque image type. `wrappers.dfy` holds `Option`.

These things are parameters of the model, not parts of it:

- what a data task or download task delivers (`DataReply`, `DownloadReply`);
- what `Data(contentsOf:)` reads (`loaded`);
- whether a text parses as a URL (`urlParses`);
- image decoding (`decode`) and the placeholder image;
- the failable per-object parser `Game(withDictionary:)` (`parse`).

Places where the code is inconsistent or surprising, and what the model does:

- The source calls a failable `Game(withDictionary:)` (NetworkManager.swift:55), but Game.swift only declares a total `init(dictionary:)`. So the loop is modelled over an abstract parser that returns `Option<G>`, and `Game`'s own init is total.
- NetworkManager.swift uses `screenshotsURLs` and `screenshots`, which Game.swift does not declare. They are optional fields of class `Game`, and `init` leaves both of them nil.
- Nothing marks a cover download as in flight: two `getArtwork()` calls before the callback both request a download (`RepeatedRequestBeforeDelivery`). The `artwork == nil` guard stops further downloads only once an image or the placeholder has been stored (`NoRequestAfterDelivery`).
- The image URL rewrite always writes `https:` in front of the URL text. A scheme-relative `//host/path` becomes `https://host/path`, but the rewrite is not idempotent, and an absolute URL gets a second scheme (`ImageUrlTextNotIdempotent`).
- The by-id batch does not tolerate per-id failures, does not keep id order and does not fire on an empty id list:
  - the result list is in arrival order (`ArrivalOrderWins`);
  - a request that never calls back stops the completion for good;
  - an empty list of ids never completes (`NoIdsNoCompletion`);
  - an empty game list from one request is a fatal error, so the model makes it a precondition.
- In `getScreenshots`, `game.screenshots?.append` does nothing when `screenshots` is nil, but `completion` is still called for every decoded image. The model keeps this behaviour.

Two assumptions about the transport are written as preconditions of `IdBatch.Deliver` and `GetGameFromIds`: each request's callback runs at most once, and it answers one of the ids that were requested.

## Model

| member | source | states |
|---|---|---|
| JsonValues.StringAt | GameLogger/Models/Game.swift:21 | the cast gives a string exactly when the key is present and holds a string, and then it gives that string |
| JsonValues.IntAt | GameLogger/Models/Game.swift:25 | the cast gives an integer exactly when the key holds an integral number within Swift's 64-bit `Int` range, and then it gives that number |
| JsonValues.ObjectAt | GameLogger/Models/Game.swift:29 | the cast gives a dictionary exactly when the key holds a JSON object, and then it gives its entries |
| JsonValues.ObjectArray | GameLogger/Models/NetworkManager.swift:48-49 | the top-level cast succeeds exactly when the value is an array whose every element is an object; the result has one dictionary per element, in order |
| GameModel.MakeUrl | GameLogger/Models/Game.swift:31 | a URL is made exactly when the text parses, and its text is the input text |
| GameModel.CoverUrlText | GameLogger/Models/Game.swift:29 | a cover URL text exists exactly when `cover` is an object whose `url` entry is a string, and it is that string |
| GameModel.ParseFields | GameLogger/Models/Game.swift:18-35 | total; `name` is set iff `name` holds a string, and equals it; `releaseDate` is set iff `first_release_date` holds an in-range integer, and equals it; `artworkURL` is set iff `cover.url` is a string that parses as a URL, and carries that text |
| GameModel.OtherKeysIgnored | GameLogger/Models/Game.swift:18-35 | adding or removing entries under keys other than `name`, `first_release_date` and `cover` leaves the record unchanged |
| GameModel.Game.constructor | GameLogger/Models/Game.swift:13-35 | the new record's fields are those `ParseFields` gives; it has no artwork, no screenshots and no downloads requested |
| GameModel.Game.GetArtwork | GameLogger/Models/Game.swift:37-45 | artwork already set: nothing changes and nothing is requested; no cover URL: the artwork becomes the placeholder and nothing is requested; otherwise exactly one download of the cover URL is requested and the artwork stays unset; downloads are only ever of the record's own cover URL |
| GameModel.Game.DeliverArtwork | GameLogger/Models/Game.swift:41-43 | the download callback stores the delivered image as the artwork and changes nothing else |
| GameModel.RepeatedRequestBeforeDelivery | GameLogger/Models/Game.swift:39-43 | for a record with a cover URL, two calls before any delivery both request that URL |
| GameModel.NoRequestAfterDelivery | GameLogger/Models/Game.swift:39-43 | after the first call's image is stored, or the placeholder is set, a second call requests nothing and the artwork is that image or the placeholder |
| Network.FilterMap | GameLogger/Models/NetworkManager.swift:54-57 | the kept list is never longer than the input |
| Network.FilterMapExact | GameLogger/Models/NetworkManager.swift:54-57 | the kept list holds exactly the parser's successes, in input order: a strictly increasing list of positions that contains a position iff the parser accepts the object there |
| Network.ParseJSONFrom | GameLogger/Models/NetworkManager.swift:37-59 | completion is called iff data is present, is JSON, and the top level is an array of objects, whatever the transport error flag says; its list is exactly the filtered successes of the per-object parser |
| Network.ImageUrlText | GameLogger/Models/NetworkManager.swift:71 | the result is the text `https:` followed by the whole input text |
| Network.SchemeRelativeBecomesAbsolute | GameLogger/Models/NetworkManager.swift:71 | `//host/path` becomes `https://host/path` |
| Network.ImageUrlTextNotIdempotent | GameLogger/Models/NetworkManager.swift:71 | rewriting twice never gives the same text as rewriting once; `https://x` becomes `https:https://x` |
| Network.DownloadImageFrom | GameLogger/Models/NetworkManager.swift:69-87 | a task is started iff the rewritten text parses; its target is the rewritten text; an image is delivered only without a transport error and with readable file contents, and it is the decoding of those contents |
| Network.LoadedImage | GameLogger/Models/NetworkManager.swift:102-107 | a URL contributes the decoding of its loaded data; a URL whose load threw contributes nothing |
| Network.GetScreenshots | GameLogger/Models/NetworkManager.swift:99-112 | no URL list: nothing changes and completion is never called; otherwise the images that loaded and decoded are appended in URL order (only when the image list exists), and completion is called once per such image |
| Network.IdBatch.constructor | GameLogger/Models/NetworkManager.swift:114-115 | the batch starts with no games, no arrivals and no completion |
| Network.IdBatch.Deliver | GameLogger/Models/NetworkManager.swift:119-124 | each callback appends exactly the first game of its list; completion fires exactly when the count reaches the number of ids, with the whole list; completion fires at most once over the batch's life |
| Network.GetGameFromIds | GameLogger/Models/NetworkManager.swift:114-127 | one request per id, in id order; completion fires at most once, and fires iff there is at least one id and every request has answered; its list has one game per id, ordered by arrival |
| Network.ArrivalOrderWins | GameLogger/Models/NetworkManager.swift:119-123 | for ids `[1, 2]` answered in the order 2, 1, the completed list is the second id's game followed by the first's |
| Network.NoIdsNoCompletion | GameLogger/Models/NetworkManager.swift:114-127 | with no ids, nothing is requested and completion is never called |

## Left out

- Transport: `URLSession` data and download tasks, `task.resume()` and `Data(contentsOf:)` are I/O. What they return is an input of the model.
- JsonValues.IntAt: succeeds only on `JInt`. `JSONSerialization` is replaced by an already-decoded `Json` value in which floating-point numbers, booleans and null all become `JOther`. In the source, `as? Int` bridges an `NSNumber` by exact value, so it also accepts an integral float and a JSON `true` or `false` (as 1 or 0); the model leaves `releaseDate` absent for those.
- `UIImage(data:)`, the `noimage` image literal and `URL(string:)` are opaque library calls. They are the parameters `decode`, `placeholder` and `urlParses`.
- `getDataFor(searchTerm:)` (NetworkManager.swift:15-23) puts the search term into a query template, percent-encodes it and parses it as a URL; when either step fails it returns without calling completion, otherwise it passes the URL to `parseJSONFrom` and forwards its result. `getPopularGames` (NetworkManager.swift:89-94) does the same with a fixed URL. The templates, `addingPercentEncoding` and these two wrappers are not modelled, because Foundation's allowed character set is not part of this repository.
- The `URL(string:)` guard and `fatalError` at NetworkManager.swift:118 are not modelled. The by-id URL is a fixed template around an integer, so the model treats it as always valid.
- Concurrency: callbacks run on arbitrary threads in the source, and appends to `gamesToReturn` and `screenshots` can race. The model delivers callbacks one at a time in a given order.
- Logging (`print`) and the `user-key` and `Accept` request headers (NetworkManager.swift:32-33) are side effects with no logic to state.
