/**
 * The bookkeeping of `NetworkManager` with the network replaced by explicit
 * inputs: what a data task, a download task or a file read delivered is a
 * parameter, and so are image decoding and the per-object game parser.
 */
module Network {
  import opened Wrappers
  import opened JsonValues
  import opened Media
  import opened GameModel

  // ---------------------------------------------------------------------
  // Keeping the elements a partial function accepts, in order

  /** The successes of `f` over `xs`, in the order of `xs`. */
  function FilterMap<A, B>(xs: seq<A>, f: A -> Option<B>): (ys: seq<B>)
    ensures |ys| <= |xs|
  {
    if xs == [] then []
    else
      var rest := FilterMap(xs[..|xs| - 1], f);
      match f(xs[|xs| - 1])
      case Some(y) => rest + [y]
      case None => rest
  }

  predicate StrictlyIncreasing(idx: seq<nat>) {
    forall j, k :: 0 <= j < k < |idx| ==> idx[j] < idx[k]
  }

  /** `FilterMap` keeps exactly the elements `f` accepts, each mapped by `f`,
      in their original order: `idx` lists the accepted positions. */
  lemma {:induction false} FilterMapExact<A, B>(xs: seq<A>, f: A -> Option<B>) returns (idx: seq<nat>)
    ensures |idx| == |FilterMap(xs, f)|
    ensures StrictlyIncreasing(idx)
    ensures forall k :: 0 <= k < |idx| ==> idx[k] < |xs| && f(xs[idx[k]]) == Some(FilterMap(xs, f)[k])
    ensures forall i :: 0 <= i < |xs| ==> (f(xs[i]).Some? <==> i in idx)
  {
    if xs == [] {
      idx := [];
    } else {
      var n := |xs| - 1;
      var init := xs[..n];
      var prev := FilterMapExact(init, f);
      assert forall i :: 0 <= i < n ==> init[i] == xs[i];
      match f(xs[n])
      case Some(y) =>
        idx := prev + [n];
        assert FilterMap(xs, f) == FilterMap(init, f) + [y];
      case None =>
        idx := prev;
    }
  }

  /** One step of a loop that keeps the successes of `f`. */
  lemma FilterMapSnoc<A, B>(xs: seq<A>, i: nat, f: A -> Option<B>)
    requires i < |xs|
    ensures FilterMap(xs[..i + 1], f) ==
            FilterMap(xs[..i], f) + (if f(xs[i]).Some? then [f(xs[i]).value] else [])
  {
    assert xs[..i + 1][..i] == xs[..i];
  }

  // ---------------------------------------------------------------------
  // parseJSONFrom: the data task's callback

  /** What the data task's callback receives. `transportError` is `error`;
      `body` is `data` and what `JSONSerialization` makes of it. */
  datatype Body = NoData | NotJson | Decoded(json: Json)
  datatype DataReply = DataReply(transportError: bool, body: Body)

  /** The data task's callback in `parseJSONFrom`. The result is the list
      `completion` is called with, or `None` when it is not called. A
      transport error is only logged. */
  method ParseJSONFrom<G>(reply: DataReply, parse: Dictionary -> Option<G>)
    returns (completion: Option<seq<G>>)
    ensures completion.Some? <==> reply.body.Decoded? && ObjectArray(reply.body.json).Some?
    ensures completion.Some? ==> completion.value == FilterMap(ObjectArray(reply.body.json).value, parse)
  {
    // A transport error (reply.transportError) is only logged.
    if reply.body.NoData? {
      return None;
    }
    if reply.body.NotJson? {
      return None;
    }
    var mainArray := ObjectArray(reply.body.json);
    if mainArray.None? {
      return None;
    }
    var objects := mainArray.value;
    var games: seq<G> := [];
    var i := 0;
    while i < |objects|
      invariant 0 <= i <= |objects|
      invariant games == FilterMap(objects[..i], parse)
    {
      FilterMapSnoc(objects, i, parse);
      var newGame := parse(objects[i]);
      if newGame.Some? {
        games := games + [newGame.value];
      }
      i := i + 1;
    }
    assert objects[..i] == objects;
    completion := Some(games);
  }

  // ---------------------------------------------------------------------
  // downloadImageFrom

  const HttpsScheme: string := "https:"

  /** The text `downloadImageFrom` builds from its URL: the scheme is written
      in front of the URL's text, whatever that text already holds. */
  function ImageUrlText(text: string): (r: string)
    ensures |r| == |HttpsScheme| + |text|
    ensures r[..|HttpsScheme|] == HttpsScheme && r[|HttpsScheme|..] == text
  {
    HttpsScheme + text
  }

  /** A scheme-relative URL becomes an absolute `https` URL. */
  lemma SchemeRelativeBecomesAbsolute(host_path: string)
    ensures ImageUrlText("//" + host_path) == "https://" + host_path
  {
  }

  /** The rewrite is not idempotent: every text changes when rewritten again,
      and an absolute URL gains a second scheme. */
  lemma ImageUrlTextNotIdempotent(text: string)
    ensures ImageUrlText(ImageUrlText(text)) != ImageUrlText(text)
    ensures ImageUrlText("https://" + text) == "https:https://" + text
  {
  }

  /** What the download task's callback receives and what reading the
      downloaded file gives: `failed` is `error != nil`; `file` is the file's
      contents, `None` when there is no file or it cannot be read. */
  datatype DownloadReply = DownloadReply(failed: bool, file: Option<Bytes>)

  /** The outcome of `downloadImageFrom`: no task is started when the
      rewritten text is not a URL; otherwise the task's target and the image
      `completion` is called with, if any. */
  datatype ImageDownload = NotStarted | Started(target: Url, delivered: Option<Image>)

  function DownloadImageFrom(url: Url, urlParses: string -> bool, reply: DownloadReply,
                             decode: Bytes -> Option<Image>): (d: ImageDownload)
    ensures d.Started? <==> urlParses(ImageUrlText(url.text))
    ensures d.Started? ==> d.target.text == ImageUrlText(url.text)
    ensures d.Started? && d.delivered.Some? ==>
              !reply.failed && reply.file.Some? && decode(reply.file.value) == d.delivered
    ensures d.Started? && !reply.failed && reply.file.Some? ==> d.delivered == decode(reply.file.value)
  {
    match MakeUrl(ImageUrlText(url.text), urlParses)
    case None => NotStarted
    case Some(finalUrl) =>
      if reply.failed || reply.file.None? then Started(finalUrl, None)
      else Started(finalUrl, decode(reply.file.value))
  }

  // ---------------------------------------------------------------------
  // getScreenshots

  /** One URL of `getScreenshots`: the image, when the data loaded and
      decoded. */
  function LoadedImage(decode: Bytes -> Option<Image>): (step: Option<Bytes> -> Option<Image>)
    ensures forall b: Bytes :: step(Some(b)) == decode(b)
    ensures step(None) == None
  {
    (loaded: Option<Bytes>) => if loaded.Some? then decode(loaded.value) else None
  }

  /** `getScreenshots`. `loaded[i]` is what `Data(contentsOf:)` read for the
      `i`-th URL (`None` when it threw). Returns how often `completion` was
      called. */
  method GetScreenshots(game: Game, loaded: seq<Option<Bytes>>, decode: Bytes -> Option<Image>)
    returns (completions: nat)
    requires game.screenshotURLs.Some? ==> |loaded| == |game.screenshotURLs.value|
    modifies game`screenshots
    ensures old(game.screenshotURLs).None? ==> completions == 0 && game.screenshots == old(game.screenshots)
    ensures game.screenshotURLs.Some? ==>
              var images := FilterMap(loaded, LoadedImage(decode));
              && completions == |images|
              && game.screenshots == (if old(game.screenshots).Some?
                                      then Some(old(game.screenshots).value + images)
                                      else None)
  {
    if game.screenshotURLs.None? {
      return 0;
    }
    var screenshotUrls := game.screenshotURLs.value;
    var step := LoadedImage(decode);
    completions := 0;
    var i := 0;
    assert loaded[..0] == [];
    assert old(game.screenshots).Some? ==> old(game.screenshots).value + [] == old(game.screenshots).value;
    while i < |screenshotUrls|
      invariant 0 <= i <= |screenshotUrls|
      invariant completions == |FilterMap(loaded[..i], step)|
      invariant game.screenshots == (if old(game.screenshots).Some?
                                     then Some(old(game.screenshots).value + FilterMap(loaded[..i], step))
                                     else None)
    {
      FilterMapSnoc(loaded, i, step);
      if loaded[i].Some? {
        assert step(loaded[i]) == decode(loaded[i].value);
        var image := decode(loaded[i].value);
        if image.Some? {
          if game.screenshots.Some? {
            ghost var done := FilterMap(loaded[..i], step);
            assert old(game.screenshots).value + done + [image.value]
                == old(game.screenshots).value + (done + [image.value]);
            game.screenshots := Some(game.screenshots.value + [image.value]);
            assert FilterMap(loaded[..i + 1], step) == done + [image.value];
            assert game.screenshots == Some(old(game.screenshots).value + FilterMap(loaded[..i + 1], step));
          }
          completions := completions + 1;
        } else {
          assert FilterMap(loaded[..i + 1], step) == FilterMap(loaded[..i], step);
        }
      } else {
        assert step(loaded[i]) == None;
        assert FilterMap(loaded[..i + 1], step) == FilterMap(loaded[..i], step);
      }
      i := i + 1;
    }
    assert loaded[..i] == loaded;
  }

  // ---------------------------------------------------------------------
  // getGameFromIds

  predicate Distinct(s: seq<nat>) {
    forall j, k :: 0 <= j < k < |s| ==> s[j] != s[k]
  }

  /** Distinct indexes below `n` number at most `n`. */
  lemma {:induction false} DistinctBounded(s: seq<nat>, n: nat)
    requires Distinct(s)
    requires forall k :: 0 <= k < |s| ==> s[k] < n
    ensures |s| <= n
    decreases n
  {
    if s != [] {
      assert 0 < n by { assert s[0] < n; }
      if j :| 0 <= j < |s| && s[j] == n - 1 {
        var rest := s[..j] + s[j + 1..];
        assert forall k :: 0 <= k < |rest| ==> rest[k] == if k < j then s[k] else s[k + 1];
        DistinctBounded(rest, n - 1);
      } else {
        DistinctBounded(s, n - 1);
      }
    }
  }

  /** One callback of a by-id request: which request (its position in
      `ids`) it answers, and the games `parseJSONFrom` delivered. */
  datatype Delivery<G> = Delivery(request: nat, games: seq<G>)

  /** The state the callbacks of one `getGameFromIds` call share. */
  class IdBatch<G> {
    const ids: seq<int>
    /** `gamesToReturn`, in order of arrival. */
    var gamesToReturn: seq<G>
    /** The requests answered so far, in order of arrival. */
    ghost var arrived: seq<nat>
    /** How often `completion` has been called. */
    ghost var fireCount: nat

    /** Each request answers at most once, so the list never outgrows `ids`,
        and `completion` has been called once exactly when it is full. */
    ghost predicate Valid()
      reads this
      ensures Valid() ==> fireCount <= 1 && |gamesToReturn| <= |ids|
    {
      && |arrived| == |gamesToReturn|
      && Distinct(arrived)
      && (forall k :: 0 <= k < |arrived| ==> arrived[k] < |ids|)
      && |gamesToReturn| <= |ids|
      && fireCount == (if 0 < |ids| && |gamesToReturn| == |ids| then 1 else 0)
    }

    constructor (ids: seq<int>)
      ensures Valid()
      ensures this.ids == ids && gamesToReturn == [] && arrived == [] && fireCount == 0
    {
      this.ids := ids;
      gamesToReturn := [];
      arrived := [];
      fireCount := 0;
    }

    /** The callback for request `request`: append the first game, and call
        `completion` when the count reaches the number of ids. An empty list
        is a fatal error in the source, so it is excluded here. */
    method Deliver(request: nat, games: seq<G>) returns (fired: Option<seq<G>>)
      requires Valid()
      requires request < |ids| && request !in arrived
      requires games != []
      modifies this
      ensures Valid()
      ensures gamesToReturn == old(gamesToReturn) + [games[0]]
      ensures arrived == old(arrived) + [request]
      ensures fired.Some? <==> |gamesToReturn| == |ids|
      ensures fired.Some? ==> fired.value == gamesToReturn
      ensures fireCount == old(fireCount) + (if fired.Some? then 1 else 0)
    {
      DistinctBounded(arrived + [request], |ids|);
      gamesToReturn := gamesToReturn + [games[0]];
      arrived := arrived + [request];
      fired := None;
      if |gamesToReturn| == |ids| {
        fired := Some(gamesToReturn);
        fireCount := fireCount + 1;
      }
    }
  }

  /** `getGameFromIds`: one request per id, then the callbacks `events` in
      the order they arrive. Returns the ids requested and the lists
      `completion` was called with. */
  method GetGameFromIds<G>(ids: seq<int>, events: seq<Delivery<G>>)
    returns (requests: seq<int>, completions: seq<seq<G>>)
    requires forall k :: 0 <= k < |events| ==> events[k].request < |ids| && events[k].games != []
    requires forall j, k :: 0 <= j < k < |events| ==> events[j].request != events[k].request
    ensures requests == ids
    ensures |completions| <= 1
    ensures |completions| == 1 <==> 0 < |ids| && |events| == |ids|
    ensures forall c :: c in completions ==>
              |c| == |ids| && forall k :: 0 <= k < |c| ==> c[k] == events[k].games[0]
  {
    requests := [];
    for i := 0 to |ids|
      invariant requests == ids[..i]
    {
      requests := requests + [ids[i]];
    }
    assert ids[..|ids|] == ids;

    var batch := new IdBatch<G>(ids);
    completions := [];
    for i := 0 to |events|
      invariant batch.Valid() && batch.ids == ids
      invariant |batch.arrived| == i
      invariant forall k :: 0 <= k < i ==> batch.arrived[k] == events[k].request
      invariant forall k :: 0 <= k < i ==> batch.gamesToReturn[k] == events[k].games[0]
      invariant completions == if 0 < |ids| && i == |ids| then [batch.gamesToReturn] else []
    {
      var ev := events[i];
      assert forall k :: 0 <= k < i ==> batch.arrived[k] != ev.request;
      var fired := batch.Deliver(ev.request, ev.games);
      if fired.Some? {
        completions := completions + [fired.value];
      }
    }
  }

  /** The completed list is in order of arrival, not in the order of `ids`. */
  method ArrivalOrderWins<G>(first: G, second: G) returns (completions: seq<seq<G>>)
    ensures completions == [[second, first]]
  {
    var requests;
    var events := [Delivery(1, [second]), Delivery(0, [first])];
    requests, completions := GetGameFromIds([1, 2], events);
    assert completions[0] in completions;
    assert completions[0] == [second, first];
  }

  /** With no ids nothing is requested, no callback can arrive and
      `completion` is never called. */
  method NoIdsNoCompletion<G>() returns (requests: seq<int>, completions: seq<seq<G>>)
    ensures requests == [] && completions == []
  {
    requests, completions := GetGameFromIds([], []);
  }
}
