/** The shortener service: deduplicating minification of a URL, expansion of a
    short link, and the laws that tie them together over the repository's store. */
module Service {
  import opened Wrappers
  import opened Repository

  /** The one business-level failure: expand_url found no document for the code. */
  datatype ServiceError = UrlNotFoundOrExpired(message: string)

  /** The short link `f"{base_url}/{short_code}"`: the base URL, a slash, then the code. */
  function Link(baseUrl: string, shortCode: string): (r: string)
    ensures |r| == |baseUrl| + 1 + |shortCode|
    ensures r[..|baseUrl| + 1] == baseUrl + "/"
    ensures r[|baseUrl| + 1..] == shortCode
  {
    baseUrl + "/" + shortCode
  }

  /** `s.rsplit('/', 1)[-1]`: the longest suffix of s without a slash, which is the
      text after the last slash, or all of s when it has none. */
  function LastSegment(s: string): (r: string)
    ensures '/' !in r
    ensures |r| <= |s| && r == s[|s| - |r|..]
    ensures |r| < |s| ==> s[|s| - |r| - 1] == '/'
  {
    if |s| == 0 then ""
    else if s[|s| - 1] == '/' then ""
    else LastSegment(s[..|s| - 1]) + [s[|s| - 1]]
  }

  /** A link built from a slash-free code gives that code back. */
  lemma LastSegmentOfLink(baseUrl: string, shortCode: string)
    requires '/' !in shortCode
    ensures LastSegment(Link(baseUrl, shortCode)) == shortCode
  {
    var t := Link(baseUrl, shortCode);
    var r := LastSegment(t);
    var b := |baseUrl|;
    assert t[b] == '/';
    assert r == t[b + 1..];
  }

  /** The message expand_url raises with. */
  function NotFoundMessage(shortUrl: string): (m: string)
  {
    "Short URL " + shortUrl + " does not exist or has expired."
  }

  /** t occurs in s. */
  ghost predicate Contains(s: string, t: string)
  {
    exists i :: 0 <= i <= |s| && t <= s[i..]
  }

  /** expand_url over the store's contents: the code is the last path segment of
      the link; no document with it is a failure, otherwise its original URL. */
  function Expand(docs: seq<UrlMapping>, shortUrl: string): (r: Result<string, ServiceError>)
    ensures r.Success? <==> exists i :: 0 <= i < |docs| && docs[i].shortCode == LastSegment(shortUrl)
    ensures r.Success? ==> exists i :: 0 <= i < |docs| && docs[i].shortCode == LastSegment(shortUrl) && docs[i].originalUrl == r.value
    ensures r.Failure? ==> r.error == UrlNotFoundOrExpired(NotFoundMessage(shortUrl))
  {
    match FindBy(docs, ShortCode, LastSegment(shortUrl))
    case None => Failure(UrlNotFoundOrExpired(NotFoundMessage(shortUrl)))
    case Some(d) =>
      assert Get(d, ShortCode) == LastSegment(shortUrl) && d in docs;
      Success(d.originalUrl)
  }

  /** The message names the link and says it does not exist or has expired. */
  lemma NotFoundMessageText(shortUrl: string)
    ensures Contains(NotFoundMessage(shortUrl), "does not exist or has expired")
    ensures Contains(NotFoundMessage(shortUrl), shortUrl)
  {
    var m := NotFoundMessage(shortUrl);
    var head := "Short URL ";
    var tail := " does not exist or has expired.";
    assert m == head + shortUrl + tail;
    assert m[|head| + |shortUrl|..] == tail;
    assert m[|head| + |shortUrl| + 1..] == tail[1..];
    assert m[|head|..] == shortUrl + tail;
  }

  /** The failure of expand_url carries that message. */
  lemma ExpandFailureMessage(docs: seq<UrlMapping>, shortUrl: string)
    requires Expand(docs, shortUrl).Failure?
    ensures Contains(Expand(docs, shortUrl).error.message, "does not exist or has expired")
    ensures Contains(Expand(docs, shortUrl).error.message, shortUrl)
  {
    NotFoundMessageText(shortUrl);
  }

  /** When the URL is not stored yet, the code minify_url would mint is not stored either:
      what generate_unique_short_code guarantees. */
  ghost predicate CodeAvailable(docs: seq<UrlMapping>, originalUrl: string, shortCode: string)
  {
    FindBy(docs, OriginalUrl, originalUrl).None? ==> FindBy(docs, ShortCode, shortCode).None?
  }

  /** As CodeAvailable, and the code has the default length over the alphabet. */
  ghost predicate Mintable(docs: seq<UrlMapping>, originalUrl: string, shortCode: string)
  {
    FindBy(docs, OriginalUrl, originalUrl).None? ==>
      IsCode(shortCode, CodeLength) && FindBy(docs, ShortCode, shortCode).None?
  }

  /** minify_url over the store's contents, with the code generation would yield:
      the outcome and the store afterwards. A stored URL reuses its document's code;
      a new one is saved with `now` and the configured expiration, unless that expiry
      overflows, which is passed on with the store unchanged. */
  function Minify(docs: seq<UrlMapping>, baseUrl: string, expirationSeconds: int,
                  originalUrl: string, now: Timestamp, shortCode: string)
    : (r: (Result<string, StoreError>, seq<UrlMapping>))
    requires CodeAvailable(docs, originalUrl, shortCode)
    ensures r.0.Failure? <==>
      FindBy(docs, OriginalUrl, originalUrl).None? && !ExpiryInRange(now, expirationSeconds)
    ensures r.0.Failure? ==> r.0.error == ExpiryOverflow && r.1 == docs
    ensures FindBy(docs, OriginalUrl, originalUrl).Some? ==> r.1 == docs
    ensures r.0.Success? && FindBy(docs, OriginalUrl, originalUrl).None? ==>
      ExpiryInRange(now, expirationSeconds) &&
      r.1 == docs + [NewMapping(shortCode, originalUrl, now, expirationSeconds).value]
    ensures r.0.Success? ==>
      FindBy(r.1, OriginalUrl, originalUrl).Some? &&
      r.0.value == Link(baseUrl, FindBy(r.1, OriginalUrl, originalUrl).value.shortCode)
  {
    match FindBy(docs, OriginalUrl, originalUrl)
    case Some(d) => (Success(Link(baseUrl, d.shortCode)), docs)
    case None =>
      match NewMapping(shortCode, originalUrl, now, expirationSeconds)
      case Failure(e) => (Failure(e), docs)
      case Success(m) =>
        FindByAppend(docs, m, OriginalUrl, originalUrl);
        (Success(Link(baseUrl, shortCode)), Insert(docs, m).value)
  }

  /** The service-level invariant of the store: codes are unique, there is at most one
      document per original URL, and every code is a well-formed generated code. */
  ghost predicate Wellformed(docs: seq<UrlMapping>)
  {
    Unique(docs, ShortCode) && Unique(docs, OriginalUrl) &&
    forall i :: 0 <= i < |docs| ==> IsCode(docs[i].shortCode, CodeLength)
  }

  /** minify_url keeps the invariant, whether it succeeds or not. */
  lemma MinifyPreservesWellformed(docs: seq<UrlMapping>, baseUrl: string, expirationSeconds: int,
                                  originalUrl: string, now: Timestamp, shortCode: string)
    requires Wellformed(docs) && Mintable(docs, originalUrl, shortCode)
    ensures Wellformed(Minify(docs, baseUrl, expirationSeconds, originalUrl, now, shortCode).1)
  {
    var after := Minify(docs, baseUrl, expirationSeconds, originalUrl, now, shortCode).1;
    if FindBy(docs, OriginalUrl, originalUrl).None? && ExpiryInRange(now, expirationSeconds) {
      var m := NewMapping(shortCode, originalUrl, now, expirationSeconds).value;
      assert after == docs + [m];
      forall i, j | 0 <= i < j < |after|
        ensures Get(after[i], ShortCode) != Get(after[j], ShortCode)
        ensures Get(after[i], OriginalUrl) != Get(after[j], OriginalUrl)
      {
        if j == |docs| {
          assert after[i] == docs[i];
        }
      }
    }
  }

  /** A successful short link starts with the base URL and a slash, followed by a
      code of the default length over the alphabet. */
  lemma MinifyLinkShape(docs: seq<UrlMapping>, baseUrl: string, expirationSeconds: int,
                        originalUrl: string, now: Timestamp, shortCode: string)
    requires Wellformed(docs) && Mintable(docs, originalUrl, shortCode)
    requires Minify(docs, baseUrl, expirationSeconds, originalUrl, now, shortCode).0.Success?
    ensures var link := Minify(docs, baseUrl, expirationSeconds, originalUrl, now, shortCode).0.value;
      |link| == |baseUrl| + 1 + CodeLength &&
      link[..|baseUrl| + 1] == baseUrl + "/" &&
      IsCode(link[|baseUrl| + 1..], CodeLength)
  {
    var r := Minify(docs, baseUrl, expirationSeconds, originalUrl, now, shortCode);
    MinifyPreservesWellformed(docs, baseUrl, expirationSeconds, originalUrl, now, shortCode);
    var d := FindBy(r.1, OriginalUrl, originalUrl).value;
    var i :| 0 <= i < |r.1| && r.1[i] == d;
    assert IsCode(r.1[i].shortCode, CodeLength);
  }

  /** Idempotence: after a successful call, a second call with the same URL returns
      the same link and leaves the store as the first call left it, whatever its
      time and code. */
  lemma MinifyIdempotent(docs: seq<UrlMapping>, baseUrl: string, expirationSeconds: int,
                         originalUrl: string, now: Timestamp, shortCode: string, later: Timestamp, otherCode: string)
    requires CodeAvailable(docs, originalUrl, shortCode)
    requires Minify(docs, baseUrl, expirationSeconds, originalUrl, now, shortCode).0.Success?
    ensures var first := Minify(docs, baseUrl, expirationSeconds, originalUrl, now, shortCode);
      CodeAvailable(first.1, originalUrl, otherCode) &&
      Minify(first.1, baseUrl, expirationSeconds, originalUrl, later, otherCode) == first
  {
  }

  /** Round trip: expanding the link minify_url returns gives back the original URL. */
  lemma RoundTrip(docs: seq<UrlMapping>, baseUrl: string, expirationSeconds: int,
                  originalUrl: string, now: Timestamp, shortCode: string)
    requires Wellformed(docs) && Mintable(docs, originalUrl, shortCode)
    requires Minify(docs, baseUrl, expirationSeconds, originalUrl, now, shortCode).0.Success?
    ensures var r := Minify(docs, baseUrl, expirationSeconds, originalUrl, now, shortCode);
      Expand(r.1, r.0.value) == Success(originalUrl)
  {
    var r := Minify(docs, baseUrl, expirationSeconds, originalUrl, now, shortCode);
    MinifyPreservesWellformed(docs, baseUrl, expirationSeconds, originalUrl, now, shortCode);
    var d := FindBy(r.1, OriginalUrl, originalUrl).value;
    var i :| 0 <= i < |r.1| && r.1[i] == d;
    CodeHasNoSlash(r.1[i].shortCode, CodeLength);
    LastSegmentOfLink(baseUrl, d.shortCode);
    FindByUnique(r.1, ShortCode, d);
  }

  /** One minify_url call: the URL, the current time, and the code that
      generation would return for it. */
  datatype Request = Request(originalUrl: string, now: Timestamp, shortCode: string)
  /** Every request in turn finds a mintable code, as generation guarantees. */
  ghost predicate Admissible(docs: seq<UrlMapping>, baseUrl: string, expirationSeconds: int, reqs: seq<Request>)
    decreases |reqs|
  {
    |reqs| == 0 ||
    (Mintable(docs, reqs[0].originalUrl, reqs[0].shortCode) &&
     Admissible(Minify(docs, baseUrl, expirationSeconds, reqs[0].originalUrl, reqs[0].now, reqs[0].shortCode).1,
                baseUrl, expirationSeconds, reqs[1..]))
  }

  /** The store after a sequence of minify_url calls. */
  ghost function Replay(docs: seq<UrlMapping>, baseUrl: string, expirationSeconds: int, reqs: seq<Request>): seq<UrlMapping>
    requires Admissible(docs, baseUrl, expirationSeconds, reqs)
    decreases |reqs|
  {
    if |reqs| == 0 then docs
    else Replay(Minify(docs, baseUrl, expirationSeconds, reqs[0].originalUrl, reqs[0].now, reqs[0].shortCode).1,
                baseUrl, expirationSeconds, reqs[1..])
  }

  lemma {:induction false} ReplayPreservesWellformed(docs: seq<UrlMapping>, baseUrl: string, expirationSeconds: int, reqs: seq<Request>)
    requires Wellformed(docs) && Admissible(docs, baseUrl, expirationSeconds, reqs)
    ensures Wellformed(Replay(docs, baseUrl, expirationSeconds, reqs))
    decreases |reqs|
  {
    if |reqs| > 0 {
      var q := reqs[0];
      MinifyPreservesWellformed(docs, baseUrl, expirationSeconds, q.originalUrl, q.now, q.shortCode);
      ReplayPreservesWellformed(Minify(docs, baseUrl, expirationSeconds, q.originalUrl, q.now, q.shortCode).1,
                                baseUrl, expirationSeconds, reqs[1..]);
    }
  }

  /** From an empty store, any sequence of minify_url calls leaves codes unique and
      at most one document per original URL. */
  lemma ReplayFromEmpty(baseUrl: string, expirationSeconds: int, reqs: seq<Request>)
    requires Admissible([], baseUrl, expirationSeconds, reqs)
    ensures Unique(Replay([], baseUrl, expirationSeconds, reqs), ShortCode)
    ensures Unique(Replay([], baseUrl, expirationSeconds, reqs), OriginalUrl)
  {
    ReplayPreservesWellformed([], baseUrl, expirationSeconds, reqs);
  }

  class UrlShortenerService {
    const baseUrl: string
    const expirationSeconds: int
    const repo: UrlRepository

    constructor (baseUrl: string, expirationSeconds: int, repo: UrlRepository)
      ensures this.baseUrl == baseUrl && this.expirationSeconds == expirationSeconds && this.repo == repo
    {
      this.baseUrl := baseUrl;
      this.expirationSeconds := expirationSeconds;
      this.repo := repo;
    }

    /** Reuses the code of a stored document for the URL, or generates a fresh code
        with the random source `choice` and saves it with creation time `now`; an
        overflow of the expiry date is passed on. */
    method MinifyUrl(originalUrl: string, now: Timestamp, choice: (nat, nat) -> CharIndex)
      returns (r: Result<string, StoreError>)
      requires repo.Valid()
      requires FindBy(repo.collection, OriginalUrl, originalUrl).None? ==>
        exists k: nat :: FindBy(repo.collection, ShortCode, Candidate(choice, k, CodeLength)).None?
      modifies repo
      ensures repo.Valid()
      ensures exists code ::
        (Mintable(old(repo.collection), originalUrl, code) &&
         (r, repo.collection) == Minify(old(repo.collection), baseUrl, expirationSeconds, originalUrl, now, code))
    {
      ghost var before := repo.collection;
      var existing := repo.FindByOriginalUrl(originalUrl);
      var shortCode: string;
      if existing.Some? {
        shortCode := existing.value.shortCode;
      } else {
        ghost var attempts: nat;
        shortCode, attempts := repo.GenerateUniqueShortCode(CodeLength, choice);
        CandidateIsCode(choice, attempts, CodeLength);
        var saved := repo.SaveUrlMapping(shortCode, originalUrl, now, expirationSeconds);
        if saved.Failure? {
          r := Failure(saved.error);
          assert Mintable(before, originalUrl, shortCode);
          assert (r, repo.collection) == Minify(before, baseUrl, expirationSeconds, originalUrl, now, shortCode);
          return;
        }
      }
      r := Success(Link(baseUrl, shortCode));
      assert Mintable(before, originalUrl, shortCode);
      assert (r, repo.collection) == Minify(before, baseUrl, expirationSeconds, originalUrl, now, shortCode);
    }

    /** Looks up the last path segment of the link; never changes the store. */
    method ExpandUrl(shortUrl: string) returns (r: Result<string, ServiceError>)
      ensures r == Expand(repo.collection, shortUrl)
    {
      var shortCode := LastSegment(shortUrl);
      var doc := repo.FindByShortCode(shortCode);
      if doc.None? {
        return Failure(UrlNotFoundOrExpired(NotFoundMessage(shortUrl)));
      }
      return Success(doc.value.originalUrl);
    }
  }

  /** Minifying a URL through the service and then expanding the returned link gives
      the URL back, as in tests/test_service.py:30-34. `expanded` is None when
      minification raised, so that expansion is never reached. */
  method MinifyThenExpand(service: UrlShortenerService, originalUrl: string, now: Timestamp,
                          choice: (nat, nat) -> CharIndex)
    returns (minified: Result<string, StoreError>, expanded: Option<Result<string, ServiceError>>)
    requires service.repo.Valid() && Wellformed(service.repo.collection)
    requires FindBy(service.repo.collection, OriginalUrl, originalUrl).None? ==>
      exists k: nat :: FindBy(service.repo.collection, ShortCode, Candidate(choice, k, CodeLength)).None?
    modifies service.repo
    ensures minified.Failure? <==>
      FindBy(old(service.repo.collection), OriginalUrl, originalUrl).None? &&
      !ExpiryInRange(now, service.expirationSeconds)
    ensures minified.Failure? ==> expanded.None?
    ensures minified.Success? ==>
      |minified.value| == |service.baseUrl| + 1 + CodeLength &&
      minified.value[..|service.baseUrl| + 1] == service.baseUrl + "/" &&
      expanded == Some(Success(originalUrl))
    ensures Wellformed(service.repo.collection)
  {
    ghost var before := service.repo.collection;
    minified := service.MinifyUrl(originalUrl, now, choice);
    ghost var code :| Mintable(before, originalUrl, code) &&
      (minified, service.repo.collection) ==
        Minify(before, service.baseUrl, service.expirationSeconds, originalUrl, now, code);
    MinifyPreservesWellformed(before, service.baseUrl, service.expirationSeconds, originalUrl, now, code);
    if minified.Failure? {
      expanded := None;
      return;
    }
    RoundTrip(before, service.baseUrl, service.expirationSeconds, originalUrl, now, code);
    MinifyLinkShape(before, service.baseUrl, service.expirationSeconds, originalUrl, now, code);
    var e := service.ExpandUrl(minified.value);
    expanded := Some(e);
  }
}
