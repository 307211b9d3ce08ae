/**
 * `Game`: a record built tolerantly from one JSON object, whose cover art is
 * loaded lazily.
 *
 * `URL(string:)` is not modelled: whether a text parses as a URL is the
 * parameter `urlParses`. The placeholder image is the parameter `placeholder`.
 */
module GameModel {
  import opened Wrappers
  import opened JsonValues
  import opened Media

  /** The fields `init(dictionary:)` may set. */
  datatype Fields = Fields(name: Option<string>, releaseDate: Option<int>, artworkURL: Option<Url>)

  /** `URL(string:)`: a text gives a URL exactly when it parses. */
  function MakeUrl(text: string, urlParses: string -> bool): (u: Option<Url>)
    ensures u.Some? <==> urlParses(text)
    ensures u.Some? ==> u.value.text == text
  {
    if urlParses(text) then Some(Url(text)) else None
  }

  /** `cover.url` of an object: present only when `cover` is an object and
      its `url` entry is a string. */
  function CoverUrlText(d: Dictionary): (r: Option<string>)
    ensures r.Some? <==> ObjectAt(d, "cover").Some? && StringAt(ObjectAt(d, "cover").value, "url").Some?
    ensures r.Some? ==> "cover" in d && d["cover"].JObject? && "url" in d["cover"].fields &&
                        d["cover"].fields["url"] == JString(r.value)
  {
    match ObjectAt(d, "cover")
    case None => None
    case Some(cover) => StringAt(cover, "url")
  }

  /** The field extraction of `init(dictionary:)`. It is total: a missing or
      mistyped entry only leaves its field absent. */
  function ParseFields(d: Dictionary, urlParses: string -> bool): (f: Fields)
    ensures f.name.Some? <==> "name" in d && d["name"].JString?
    ensures f.name.Some? ==> d["name"] == JString(f.name.value)
    ensures f.releaseDate.Some? <==> "first_release_date" in d && d["first_release_date"].JInt?
                                     && InIntRange(d["first_release_date"].num)
    ensures f.releaseDate.Some? ==> d["first_release_date"] == JInt(f.releaseDate.value)
    ensures f.artworkURL.Some? <==> CoverUrlText(d).Some? && urlParses(CoverUrlText(d).value)
    ensures f.artworkURL.Some? ==> f.artworkURL.value.text == CoverUrlText(d).value
  {
    Fields(StringAt(d, "name"),
           IntAt(d, "first_release_date"),
           match CoverUrlText(d)
           case None => None
           case Some(text) => MakeUrl(text, urlParses))
  }

  /** The keys `init(dictionary:)` looks at. */
  const ParsedKeys: set<string> := {"name", "first_release_date", "cover"}

  /** Entries under other keys have no effect on the record. */
  lemma OtherKeysIgnored(d: Dictionary, extra: Dictionary, urlParses: string -> bool)
    requires extra.Keys !! ParsedKeys
    ensures ParseFields(d + extra, urlParses) == ParseFields(d - extra.Keys, urlParses)
    ensures ParseFields(d + extra, urlParses) == ParseFields(d, urlParses)
  {
  }

  class Game {
    var name: Option<string>
    var releaseDate: Option<int>
    var artwork: Option<Image>
    var artworkURL: Option<Url>
    /** Screenshot URLs and images; `init(dictionary:)` sets neither. */
    var screenshotURLs: Option<seq<Url>>
    var screenshots: Option<seq<Image>>
    /** Every URL `getArtwork()` has asked the network to download, in order. */
    ghost var downloads: seq<Url>

    /** Cover downloads are only ever of the record's own cover URL. It does
        not depend on `artwork`, so storing an image keeps it. */
    ghost predicate Valid()
      reads this`downloads, this`artworkURL
    {
      forall k :: 0 <= k < |downloads| ==> artworkURL == Some(downloads[k])
    }

    /** `init(dictionary:)` */
    constructor (dictionary: Dictionary, urlParses: string -> bool)
      ensures Valid()
      ensures Fields(name, releaseDate, artworkURL) == ParseFields(dictionary, urlParses)
      ensures artwork == None && downloads == []
      ensures screenshotURLs == None && screenshots == None
    {
      var f := ParseFields(dictionary, urlParses);
      name, releaseDate, artworkURL := f.name, f.releaseDate, f.artworkURL;
      artwork := None;
      screenshotURLs, screenshots := None, None;
      downloads := [];
    }

    /** `getArtwork()`. Returns the URL handed to the image downloader, if
        any; the download's callback is `DeliverArtwork`. */
    method GetArtwork(placeholder: Image) returns (request: Option<Url>)
      requires Valid()
      modifies this`artwork, this`downloads
      ensures Valid()
      ensures old(artwork).Some? ==> artwork == old(artwork) && request == None
      ensures old(artwork).None? && artworkURL.None? ==> artwork == Some(placeholder) && request == None
      ensures old(artwork).None? && artworkURL.Some? ==> artwork == None && request == artworkURL
      ensures downloads == old(downloads) + (if request.Some? then [request.value] else [])
    {
      request := None;
      if artwork == None {
        if artworkURL == None {
          artwork := Some(placeholder);
          return;
        }
        request := artworkURL;
        downloads := downloads + [artworkURL.value];
      }
    }

    /** The download callback: the delivered image becomes the artwork;
        nothing else changes. */
    method DeliverArtwork(image: Image)
      modifies this`artwork
      ensures artwork == Some(image)
    {
      artwork := Some(image);
    }
  }

  /** A record whose cover URL is set asks for a download on each
      `getArtwork()` until an image is delivered: nothing marks a download
      as in flight. */
  method RepeatedRequestBeforeDelivery(d: Dictionary, urlParses: string -> bool, placeholder: Image)
    returns (first: Option<Url>, second: Option<Url>)
    requires ParseFields(d, urlParses).artworkURL.Some?
    ensures first == second == ParseFields(d, urlParses).artworkURL
  {
    var game := new Game(d, urlParses);
    first := game.GetArtwork(placeholder);
    second := game.GetArtwork(placeholder);
  }

  /** Once an image has been delivered, `getArtwork()` keeps it and asks for
      no further download. */
  method NoRequestAfterDelivery(d: Dictionary, urlParses: string -> bool, placeholder: Image, image: Image)
    returns (first: Option<Url>, second: Option<Url>, artwork: Option<Image>)
    ensures first == ParseFields(d, urlParses).artworkURL
    ensures second == None
    ensures artwork == if first.Some? then Some(image) else Some(placeholder)
  {
    var game := new Game(d, urlParses);
    first := game.GetArtwork(placeholder);
    if first.Some? {
      game.DeliverArtwork(image);
    }
    second := game.GetArtwork(placeholder);
    artwork := game.artwork;
  }
}
