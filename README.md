# URL shortener

A Dafny model of the core of a small URL shortener. The service turns a long URL into
`base_url + "/" + code` and turns such a link back into the long URL. A repository
stores one document per mapping, `{short_code, original_url, created_at, expires_at}`.
A unique index on `short_code` guards the collection. Each document expires
`expiration_seconds` after its creation.

The project has three modules:

- `Wrappers` (wrappers.dfy): `Option` and `Result`.
- `Repository` (repository.dfy): the document type, plus the two `find_one` queries as
  `FindBy` and the insert under the unique index as `Insert`. It also holds the 62-symbol alphabet
  `string.ascii_letters + string.digits`, the candidate codes drawn from a random source, and
  the class `UrlRepository`. The class holds the collection as a `seq` field and offers
  `FindByShortCode`, `FindByOriginalUrl`, `SaveUrlMapping` and `GenerateUniqueShortCode`.
  The invariant `Valid()` is the unique index on short codes.
- `Service` (service.dfy): the class `UrlShortenerService` with `MinifyUrl` and `ExpandUrl`.
  Beside it are the functions `Minify` and `Expand`, which state what those methods do to the
  store's contents. The lemmas about them cover deduplication, idempotence, the round trip,
  the shape of a short link, and the invariant kept across any sequence of calls.

Conventions of the model:

- A `datetime` is a `Timestamp`: whole seconds counted from `datetime.min`
  (0001-01-01T00:00:00), bounded by `MaxTimestamp`, the last second of 9999-12-31.
  The current time is a parameter `now`.
- Each call to `random.choice(chars)` becomes an oracle `choice: (nat, nat) -> CharIndex`.
  `choice(attempt, j)` is the alphabet position of the `j`-th character drawn on the
  given attempt. Nothing is said about distribution.
- `find_one` returns the first matching document in insertion order.

Facts about the code that shape the model:

- `find_one` does not consult `expires_at`. Only the database's TTL monitor removes
  documents (shortener/repository.py:24-27, 33, 39). `FindBy` therefore never looks at
  `expiresAt`, and no operation of the model removes a document.
- The generation loop has no retry cap (shortener/repository.py:61), and neither does
  `GenerateUniqueShortCode`.
- A duplicate code makes `insert_one` raise the unique-index error. It is modelled as
  `StoreError.DuplicateKey`.
- `expiration_seconds` is not checked for sign. Any value whose expiry date stays within
  the range of `datetime` is stored. `NewMapping` proves `expiresAt > createdAt` only when
  the seconds are positive.
- `created_at + timedelta(seconds=expiration_seconds)` (shortener/repository.py:46) raises
  `OverflowError` when the date leaves the range of `datetime`. This happens, for example,
  with `--expire 1000000000000`. `save_url_mapping` then fails before `insert_one`, and
  `minify_url` passes the exception on with the store unchanged. The model has this as
  `StoreError.ExpiryOverflow`. `timedelta` also raises once the seconds exceed 999999999
  days, but such a sum is never in range, so one condition, `ExpiryInRange`, covers both.

## Model

| member | source | states |
|---|---|---|
| Repository.FindBy | shortener/repository.py:29-39 | A found document is in the collection and its queried field equals the value. No document is found only when none has that field value. Expiry is not consulted. |
| Repository.FindByIsFirst | shortener/repository.py:33 | The document returned is the earliest one, in insertion order, whose field matches. |
| Repository.FindByAppend | shortener/repository.py:54 | Appending a document changes a lookup only if nothing matched before and the new document matches. |
| Repository.FindByUnique | shortener/repository.py:18 | When a field is unique, the lookup of a stored document's own value finds exactly that document. |
| Repository.TimedeltaOverflowIsOutOfRange | shortener/repository.py:46 | Seconds beyond `timedelta`'s 999999999-day bound always put the expiry out of range, so that overflow needs no separate case. |
| Repository.NewMapping | shortener/repository.py:46-53 | Building the document fails with `ExpiryOverflow` exactly when `createdAt + expirationSeconds` leaves the range of `datetime`. Otherwise the document carries the given code, URL and creation time, and its `expiresAt` is `expirationSeconds` after `createdAt`, so it is later when the seconds are positive. |
| Repository.Insert | shortener/repository.py:54 | Under the unique index of line 18, insertion fails with `DuplicateKey` exactly when some document has the code. Otherwise it appends the record, leaves every existing record in place, and keeps codes unique. |
| Repository.AlphabetIsAlnum | shortener/repository.py:60 | The alphabet has 62 symbols. A character is in it exactly when it is an ASCII letter or digit. |
| Repository.CodeInAlphabet | shortener/repository.py:60-62 | Every character of a well-formed code is one of `ascii_letters + digits`. |
| Repository.CodeHasNoSlash | shortener/repository.py:60 | A well-formed code contains no `/`. |
| Repository.CandidateIsCode | shortener/repository.py:62 | Every candidate drawn has exactly the requested length and only alphanumeric characters. |
| Repository.UrlRepository.constructor | shortener/repository.py:11-18 | A repository attaches to the collection's existing contents, whose codes the unique index keeps distinct. |
| Repository.UrlRepository.FindByShortCode | shortener/repository.py:29-33 | Returns the `FindBy` lookup on `short_code` over the current collection. |
| Repository.UrlRepository.FindByOriginalUrl | shortener/repository.py:35-39 | Returns the `FindBy` lookup on `original_url` over the current collection. |
| Repository.UrlRepository.SaveUrlMapping | shortener/repository.py:41-54 | Fails with `ExpiryOverflow` when the expiry is out of range. Otherwise it fails with `DuplicateKey` exactly when the code is already stored. On either failure the collection is unchanged. On success it appends exactly the one document that `NewMapping` builds. The unique index holds afterwards. |
| Repository.DrawCandidate | shortener/repository.py:62 | The join of `length` draws builds the candidate of that attempt. |
| Repository.UrlRepository.GenerateUniqueShortCode | shortener/repository.py:56-64 | Returns a code of exactly `length` characters, all in the alphabet, that no stored document carries. The code is the draw of attempt `attempts`, and every earlier attempt collided with a stored code. The store is not modified. |
| Service.Link | shortener/service.py:34 | The short link is the base URL, a `/`, then the code. |
| Service.LastSegment | shortener/service.py:41 | `rsplit('/', 1)[-1]` is the longest slash-free suffix: the text after the last `/`, or the whole string when there is none. |
| Service.LastSegmentOfLink | shortener/service.py:41 | The last segment of `base + "/" + code` is `code` whenever the code has no `/`. |
| Service.NotFoundMessageText | shortener/service.py:45-47 | The error message contains the link and the phrase "does not exist or has expired". |
| Service.Expand | shortener/service.py:36-49 | Expansion succeeds exactly when some document has the link's last segment as its code. It then returns that document's original URL. Otherwise it fails with `UrlNotFoundOrExpired` and the message. |
| Service.ExpandFailureMessage | tests/test_service.py:64-66 | A failed expansion's message contains "does not exist or has expired" and the link. |
| Service.Minify | shortener/service.py:18-34 | Fails with `ExpiryOverflow`, leaving the store unchanged, exactly when the URL is new and its expiry is out of range. With a document for the URL, the store is unchanged. For a new URL that succeeds, exactly the document `NewMapping` builds is appended. On success the store holds a document for the URL, and the link carries that document's code. |
| Service.MinifyPreservesWellformed | shortener/service.py:24-32 | One call keeps codes unique, at most one document per URL, and every code well formed. |
| Service.MinifyLinkShape | tests/test_service.py:25-28 | A successful short link starts with `base_url + "/"` and ends in a 6-character alphanumeric code. |
| Service.MinifyIdempotent | shortener/service.py:24-34 | After a successful call, a second call with the same URL returns the same link and leaves the store as the first call left it. |
| Service.RoundTrip | tests/test_service.py:30-34 | Expanding the link that minification returned yields the original URL. |
| Service.ReplayPreservesWellformed | shortener/service.py:24-32 | Any sequence of minify calls keeps the invariant of `MinifyPreservesWellformed`. |
| Service.ReplayFromEmpty | shortener/repository.py:63-64 | From an empty store, any sequence of minify calls leaves short codes unique and at most one document per original URL. |
| Service.UrlShortenerService.constructor | shortener/service.py:8-16 | The service keeps the base URL, the expiration and the repository it is given. |
| Service.UrlShortenerService.MinifyUrl | shortener/service.py:18-34 | Keeps the unique index. It returns the outcome, a link or `ExpiryOverflow`, and leaves the store that `Minify` gives. This is for the old store and some code that is well formed and unstored whenever the URL was new. |
| Service.UrlShortenerService.ExpandUrl | shortener/service.py:36-49 | Returns `Expand` of the current store and the link. It has no modifies clause, so the store is not changed. |
| Service.MinifyThenExpand | tests/test_service.py:30-34 | On a well-formed store, minification fails only on an expiry overflow for a new URL, and then expansion is not reached. Otherwise expanding the link returns the original URL, and the link starts with `base_url + "/"`. |

## Left out

- MongoDB itself: the client, `MONGO_URI`, the database and collection names, and the index-creation calls are foreign calls. Only the collection and its unique index on `short_code` are modelled.
- The TTL index and the database's background monitor that deletes expired documents run outside the program, driven by time. No operation of the model removes a document.
- The back-dating and the 61-second sleep of the expiration test belong to that monitor, so they are not modelled.
- Repository.UrlRepository.constructor: requires the existing contents to have distinct codes. On a collection with duplicate codes, `create_index(unique=True)` fails, and that failure is not modelled.
- `random.choice`: replaced by the oracle `choice`. Fairness and probability are not modelled.
- `datetime.utcnow()`: replaced by the parameter `now`. `datetime` and `timedelta` become whole seconds, so sub-second precision is not modelled.
- Repository.UrlRepository.GenerateUniqueShortCode: requires that some attempt of the oracle draws a free code. The Python loop has no cap, and when every draw collides it never returns. The model does not capture that divergence.
- Service.UrlShortenerService.MinifyUrl: inherits the same requirement for a new URL. The unique-index error that `insert_one` could raise is proved not to occur, because the generated code is not stored.
- Python truthiness in `if existing_doc` and `if not doc` is modelled as `Some`/`None`. A stored document always has its four fields, so it is never an empty, falsy dict.
- shortener/cli.py (argument parsing and printing) is I/O. It is not part of this model.
- shortener/exceptions.py is modelled only as the error variant `ServiceError.UrlNotFoundOrExpired`.
- Concurrent `minify_url` calls, and the atomicity of the unique index under concurrency, are left out. The program has no concurrent code.
