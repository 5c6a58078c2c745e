/** The download half of arrange_cards_from_json: every distinct face URL and
    every distinct back URL is downloaded once into its own cache, then the
    face and back images are lined up with the cards. download_image (an HTTP
    request and an image decode) is a total function given as a parameter;
    the log of URLs it is called with counts the downloads. */
module Fetch {
  import opened Raster
  import opened Catalog

  type Url = string

  /** The distinct face URLs of the cards. */
  function FaceUrls(cards: seq<Card>): set<Url> {
    set i | 0 <= i < |cards| :: cards[i].faceURL
  }

  /** The distinct back URLs of the cards. */
  function BackUrls(cards: seq<Card>): set<Url> {
    set i | 0 <= i < |cards| :: cards[i].backURL
  }

  lemma UrlsSnoc(cards: seq<Card>, i: nat)
    requires i < |cards|
    ensures FaceUrls(cards[..i + 1]) == FaceUrls(cards[..i]) + {cards[i].faceURL}
    ensures BackUrls(cards[..i + 1]) == BackUrls(cards[..i]) + {cards[i].backURL}
  {
    var pre, post := cards[..i], cards[..i + 1];
    assert post[i] == cards[i];
    assert forall j :: 0 <= j < i ==> post[j] == pre[j];
  }

  /** One download of u for a cache keyed by urls when u is among them, none otherwise. */
  function Fetches(u: Url, urls: set<Url>): nat {
    if u in urls then 1 else 0
  }

  /** A cache holds exactly the downloads of its keys, and its keys are urls. */
  ghost predicate CacheOf(cache: map<Url, Image>, urls: set<Url>, download: Url -> Image) {
    cache.Keys == urls && forall u :: u in cache ==> cache[u] == download(u)
  }

  /** One "if url not in cache" step of the download loop: a URL already in
      the cache is not fetched again; otherwise it is fetched once and cached. */
  method DownloadOnce(cache: map<Url, Image>, calls: seq<Url>, url: Url, download: Url -> Image)
    returns (cache': map<Url, Image>, calls': seq<Url>)
    ensures url in cache ==> cache' == cache && calls' == calls
    ensures url !in cache ==> cache' == cache[url := download(url)]
    ensures forall u :: multiset(calls')[u] == multiset(calls)[u] + Fetches(u, cache'.Keys) - Fetches(u, cache.Keys)
  {
    cache', calls' := cache, calls;
    if url !in cache {
      assert multiset(calls + [url]) == multiset(calls) + multiset{url};
      calls' := calls + [url];
      cache' := cache[url := download(url)];
    }
  }

  /** Lines 104-112: download each face URL not yet in downloaded_faces and each
      back URL not yet in downloaded_backs. Each distinct face URL is fetched
      exactly once and each distinct back URL exactly once; the caches are
      separate, so a URL used both ways is fetched twice. */
  method DownloadImages(cards: seq<Card>, download: Url -> Image)
    returns (downloadedFaces: map<Url, Image>, downloadedBacks: map<Url, Image>, calls: seq<Url>)
    ensures CacheOf(downloadedFaces, FaceUrls(cards), download)
    ensures CacheOf(downloadedBacks, BackUrls(cards), download)
    ensures forall u :: multiset(calls)[u] == Fetches(u, FaceUrls(cards)) + Fetches(u, BackUrls(cards))
  {
    downloadedFaces, downloadedBacks, calls := map[], map[], [];
    for i := 0 to |cards|
      invariant CacheOf(downloadedFaces, FaceUrls(cards[..i]), download)
      invariant CacheOf(downloadedBacks, BackUrls(cards[..i]), download)
      invariant forall u :: multiset(calls)[u] == Fetches(u, downloadedFaces.Keys) + Fetches(u, downloadedBacks.Keys)
    {
      UrlsSnoc(cards, i);
      var faceUrl, backUrl := cards[i].faceURL, cards[i].backURL;
      downloadedFaces, calls := DownloadOnce(downloadedFaces, calls, faceUrl, download);
      downloadedBacks, calls := DownloadOnce(downloadedBacks, calls, backUrl, download);
    }
    assert cards[..|cards|] == cards;
  }

  /** Lines 114-121: look each card's URLs up in the caches, building
      face_images and back_images index-aligned with the cards. */
  method AlignImages(cards: seq<Card>, downloadedFaces: map<Url, Image>, downloadedBacks: map<Url, Image>)
    returns (faceImages: seq<Image>, backImages: seq<Image>)
    requires forall i :: 0 <= i < |cards| ==> cards[i].faceURL in downloadedFaces && cards[i].backURL in downloadedBacks
    ensures |faceImages| == |cards| && |backImages| == |cards|
    ensures forall i :: 0 <= i < |cards| ==>
      faceImages[i] == downloadedFaces[cards[i].faceURL] && backImages[i] == downloadedBacks[cards[i].backURL]
  {
    faceImages, backImages := [], [];
    for i := 0 to |cards|
      invariant |faceImages| == i && |backImages| == i
      invariant forall j :: 0 <= j < i ==>
        faceImages[j] == downloadedFaces[cards[j].faceURL] && backImages[j] == downloadedBacks[cards[j].backURL]
    {
      faceImages := faceImages + [downloadedFaces[cards[i].faceURL]];
      backImages := backImages + [downloadedBacks[cards[i].backURL]];
    }
  }

  /** The downloaded face image of each card, in card order. */
  function FaceImages(cards: seq<Card>, download: Url -> Image): (images: seq<Image>)
    ensures |images| == |cards|
    ensures forall i :: 0 <= i < |cards| ==> images[i] == download(cards[i].faceURL)
    decreases |cards|
  {
    if cards == [] then []
    else FaceImages(cards[..|cards| - 1], download) + [download(cards[|cards| - 1].faceURL)]
  }

  /** The downloaded back image of each card, in card order. */
  function BackImages(cards: seq<Card>, download: Url -> Image): (images: seq<Image>)
    ensures |images| == |cards|
    ensures forall i :: 0 <= i < |cards| ==> images[i] == download(cards[i].backURL)
    decreases |cards|
  {
    if cards == [] then []
    else BackImages(cards[..|cards| - 1], download) + [download(cards[|cards| - 1].backURL)]
  }

  /** Lists that hold, entry by entry, the downloads of the cards' URLs are FaceImages and BackImages. */
  lemma ListsOfDownloads(cards: seq<Card>, download: Url -> Image, faceImages: seq<Image>, backImages: seq<Image>)
    requires |faceImages| == |cards| && |backImages| == |cards|
    requires forall i :: 0 <= i < |cards| ==>
      faceImages[i] == download(cards[i].faceURL) && backImages[i] == download(cards[i].backURL)
    ensures faceImages == FaceImages(cards, download) && backImages == BackImages(cards, download)
  {
  }

  /** Lines 103-121 together: download through the two caches, then align.
      Entry i of each list is the image behind card i's URL, and the
      downloads are those of DownloadImages. */
  method FetchCardImages(cards: seq<Card>, download: Url -> Image)
    returns (faceImages: seq<Image>, backImages: seq<Image>, calls: seq<Url>)
    ensures faceImages == FaceImages(cards, download) && backImages == BackImages(cards, download)
    ensures forall u :: multiset(calls)[u] == Fetches(u, FaceUrls(cards)) + Fetches(u, BackUrls(cards))
  {
    var downloadedFaces, downloadedBacks;
    downloadedFaces, downloadedBacks, calls := DownloadImages(cards, download);
    forall i | 0 <= i < |cards|
      ensures cards[i].faceURL in downloadedFaces && cards[i].backURL in downloadedBacks
    {
      assert cards[i].faceURL in FaceUrls(cards);
      assert cards[i].backURL in BackUrls(cards);
    }
    faceImages, backImages := AlignImages(cards, downloadedFaces, downloadedBacks);
    ListsOfDownloads(cards, download, faceImages, backImages);
  }
}
