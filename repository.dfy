/** The record store behind the shortener: a collection of URL mappings with a
    unique index on the short code, the two lookups the service uses, insertion
    with a computed expiry, and generation of a short code absent from the store. */
module Repository {
  import opened Wrappers

  /** The last whole second a `datetime` can hold, 9999-12-31T23:59:59, counted in
      seconds from `datetime.min`, 0001-01-01T00:00:00. */
  const MaxTimestamp: int := 315537897599

  /** A `datetime` in whole seconds from `datetime.min`. */
  type Timestamp = t: int | 0 <= t <= MaxTimestamp

  /** One stored document. */
  datatype UrlMapping = UrlMapping(shortCode: string, originalUrl: string, createdAt: Timestamp, expiresAt: Timestamp)

  /** The two document fields the repository queries on. */
  datatype Field = ShortCode | OriginalUrl

  function Get(m: UrlMapping, f: Field): (v: string)
  {
    match f
    case ShortCode => m.shortCode
    case OriginalUrl => m.originalUrl
  }

  /** Why save_url_mapping fails: the unique index on short_code rejects the insertion,
      or computing `expires_at` raises `OverflowError` because the date leaves the range
      of `datetime`. */
  datatype StoreError = DuplicateKey(shortCode: string) | ExpiryOverflow

  /** No two documents of the collection agree on field f. */
  ghost predicate Unique(docs: seq<UrlMapping>, f: Field)
  {
    forall i, j :: 0 <= i < j < |docs| ==> Get(docs[i], f) != Get(docs[j], f)
  }

  /** The query `find_one({f: v})`: the first document, in insertion order,
      whose field f equals v. Expiry is not consulted: a document is found
      for as long as it is physically present. */
  function FindBy(docs: seq<UrlMapping>, f: Field, v: string): (r: Option<UrlMapping>)
    ensures r.Some? ==> r.value in docs && Get(r.value, f) == v
    ensures r.None? ==> forall i :: 0 <= i < |docs| ==> Get(docs[i], f) != v
  {
    if |docs| == 0 then None
    else if Get(docs[0], f) == v then Some(docs[0])
    else
      var r := FindBy(docs[1..], f, v);
      assert forall i :: 1 <= i < |docs| ==> docs[i] == docs[1..][i - 1];
      r
  }

  /** The document found is the earliest one that matches. */
  lemma {:induction false} FindByIsFirst(docs: seq<UrlMapping>, f: Field, v: string, i: nat)
    requires i < |docs| && Get(docs[i], f) == v
    requires forall j :: 0 <= j < i ==> Get(docs[j], f) != v
    ensures FindBy(docs, f, v) == Some(docs[i])
  {
    if i > 0 {
      assert forall j :: 0 <= j < i - 1 ==> docs[1..][j] == docs[j + 1];
      FindByIsFirst(docs[1..], f, v, i - 1);
    }
  }

  /** Appending a document changes a lookup only when nothing matched before. */
  lemma {:induction false} FindByAppend(docs: seq<UrlMapping>, m: UrlMapping, f: Field, v: string)
    ensures FindBy(docs + [m], f, v) ==
      if FindBy(docs, f, v).Some? then FindBy(docs, f, v)
      else if Get(m, f) == v then Some(m)
      else None
  {
    if |docs| > 0 {
      assert (docs + [m])[1..] == docs[1..] + [m];
      FindByAppend(docs[1..], m, f, v);
    }
  }

  /** When field f is unique, looking up a document's own value finds that document. */
  lemma FindByUnique(docs: seq<UrlMapping>, f: Field, d: UrlMapping)
    requires Unique(docs, f) && d in docs
    ensures FindBy(docs, f, Get(d, f)) == Some(d)
  {
    var i :| 0 <= i < |docs| && docs[i] == d;
    FindByIsFirst(docs, f, Get(d, f), i);
  }

  /** `created_at + timedelta(seconds=expiration_seconds)` is still a `datetime`. */
  predicate ExpiryInRange(createdAt: Timestamp, expirationSeconds: int)
  {
    0 <= createdAt + expirationSeconds <= MaxTimestamp
  }

  /** `timedelta` itself raises `OverflowError` beyond 999999999 days either way; a
      sum that large is never in range, so ExpiryInRange covers both overflows. */
  lemma TimedeltaOverflowIsOutOfRange(createdAt: Timestamp, expirationSeconds: int)
    requires expirationSeconds / 86400 > 999999999 || expirationSeconds / 86400 < -999999999
    ensures !ExpiryInRange(createdAt, expirationSeconds)
  {
  }

  /** The document that save_url_mapping builds: expiry is creation plus the given
      seconds, or an overflow when that date cannot be represented. */
  function NewMapping(shortCode: string, originalUrl: string, createdAt: Timestamp, expirationSeconds: int)
    : (r: Result<UrlMapping, StoreError>)
    ensures r.Success? <==> ExpiryInRange(createdAt, expirationSeconds)
    ensures r.Failure? ==> r.error == ExpiryOverflow
    ensures r.Success? ==>
      r.value.shortCode == shortCode && r.value.originalUrl == originalUrl && r.value.createdAt == createdAt &&
      r.value.expiresAt - r.value.createdAt == expirationSeconds
    ensures r.Success? && expirationSeconds > 0 ==> r.value.expiresAt > r.value.createdAt
  {
    if 0 <= createdAt + expirationSeconds <= MaxTimestamp then
      Success(UrlMapping(shortCode, originalUrl, createdAt, createdAt + expirationSeconds))
    else Failure(ExpiryOverflow)
  }

  /** `insert_one` under the unique index on short_code: a document whose code is
      already present is refused; otherwise it is appended. */
  function Insert(docs: seq<UrlMapping>, m: UrlMapping): (r: Result<seq<UrlMapping>, StoreError>)
    ensures r.Failure? <==> exists i :: 0 <= i < |docs| && docs[i].shortCode == m.shortCode
    ensures r.Failure? ==> r.error == DuplicateKey(m.shortCode)
    ensures r.Success? ==> |r.value| == |docs| + 1 && r.value[..|docs|] == docs && r.value[|docs|] == m
    ensures r.Success? && Unique(docs, ShortCode) ==> Unique(r.value, ShortCode)
  {
    if FindBy(docs, ShortCode, m.shortCode).Some? then Failure(DuplicateKey(m.shortCode))
    else Success(docs + [m])
  }

  /** The n consecutive characters starting at first. */
  function CharRange(first: char, n: nat): (r: string)
    requires first as int + n <= 0xD800
    ensures |r| == n
  {
    seq(n, i requires 0 <= i < n => (first as int + i) as char)
  }

  const Lower: string := CharRange('a', 26)
  const Upper: string := CharRange('A', 26)
  const Digits: string := CharRange('0', 10)

  /** `string.ascii_letters + string.digits`. */
  const Alphabet: string := Lower + Upper + Digits

  /** The default `length` of generate_unique_short_code. */
  const CodeLength: nat := 6

  predicate IsAlnum(c: char)
  {
    'a' <= c <= 'z' || 'A' <= c <= 'Z' || '0' <= c <= '9'
  }

  /** The alphabet has 62 symbols, and they are exactly the ASCII letters and digits. */
  lemma AlphabetIsAlnum(c: char)
    ensures |Alphabet| == 62
    ensures c in Alphabet <==> IsAlnum(c)
  {
    if 'a' <= c <= 'z' {
      assert Alphabet[c as int - 'a' as int] == c;
    } else if 'A' <= c <= 'Z' {
      assert Alphabet[26 + c as int - 'A' as int] == c;
    } else if '0' <= c <= '9' {
      assert Alphabet[52 + c as int - '0' as int] == c;
    }
  }

  /** A short code of the given length over the alphabet (see AlphabetIsAlnum). */
  ghost predicate IsCode(s: string, length: nat)
  {
    |s| == length && forall i :: 0 <= i < |s| ==> IsAlnum(s[i])
  }

  /** Every character of a well-formed code is one of `string.ascii_letters + string.digits`. */
  lemma CodeInAlphabet(s: string, length: nat)
    requires IsCode(s, length)
    ensures forall i :: 0 <= i < |s| ==> s[i] in Alphabet
  {
    forall i | 0 <= i < |s| ensures s[i] in Alphabet {
      AlphabetIsAlnum(s[i]);
    }
  }

  /** A well-formed code never contains the path separator. */
  lemma CodeHasNoSlash(s: string, length: nat)
    requires IsCode(s, length)
    ensures '/' !in s
  {
    AlphabetIsAlnum('/');
  }

  /** The outcome of one `random.choice(chars)`: an index into the alphabet. */
  type CharIndex = i: nat | i < 62

  /** The candidate drawn on a given attempt: `choice(attempt, j)` is the position in
      the alphabet of the j-th character picked on that attempt. */
  function Candidate(choice: (nat, nat) -> CharIndex, attempt: nat, length: nat): (s: string)
  {
    if length == 0 then ""
    else Candidate(choice, attempt, length - 1) + [Alphabet[choice(attempt, length - 1)]]
  }

  /** Every candidate has the requested length and only alphanumeric characters. */
  lemma {:induction false} CandidateIsCode(choice: (nat, nat) -> CharIndex, attempt: nat, length: nat)
    ensures IsCode(Candidate(choice, attempt, length), length)
  {
    if length > 0 {
      CandidateIsCode(choice, attempt, length - 1);
      AlphabetIsAlnum(Alphabet[choice(attempt, length - 1)]);
    }
  }

  /** One candidate: `''.join(random.choice(chars) for _ in range(length))`,
      with attempt number `attempt` of the random source. */
  method DrawCandidate(length: nat, choice: (nat, nat) -> CharIndex, attempt: nat) returns (candidate: string)
    ensures candidate == Candidate(choice, attempt, length)
  {
    candidate := "";
    var j := 0;
    while j < length
      invariant 0 <= j <= length
      invariant candidate == Candidate(choice, attempt, j)
    {
      candidate := candidate + [Alphabet[choice(attempt, j)]];
      j := j + 1;
    }
  }

  /** The collection behind UrlRepository. */
  class UrlRepository {
    var collection: seq<UrlMapping>

    /** The unique index on short_code. */
    ghost predicate Valid()
      reads this
    {
      Unique(collection, ShortCode)
    }

    /** A repository attached to a collection that already holds `existing`; the
        unique index it ensures on short_code means those codes are distinct. */
    constructor (existing: seq<UrlMapping>)
      requires Unique(existing, ShortCode)
      ensures Valid() && collection == existing
    {
      collection := existing;
    }

    /** `find_one({"short_code": shortCode})`. */
    method FindByShortCode(shortCode: string) returns (r: Option<UrlMapping>)
      ensures r == FindBy(collection, ShortCode, shortCode)
    {
      r := FindBy(collection, ShortCode, shortCode);
    }

    /** `find_one({"original_url": originalUrl})`. */
    method FindByOriginalUrl(originalUrl: string) returns (r: Option<UrlMapping>)
      ensures r == FindBy(collection, OriginalUrl, originalUrl)
    {
      r := FindBy(collection, OriginalUrl, originalUrl);
    }

    /** Stores one document with `expires_at = created_at + expiration_seconds`. An
        expiry outside the range of `datetime` fails before anything is inserted;
        otherwise the unique index refuses a short code that is already present. */
    method SaveUrlMapping(shortCode: string, originalUrl: string, createdAt: Timestamp, expirationSeconds: int)
      returns (r: Result<(), StoreError>)
      requires Valid()
      modifies this
      ensures Valid()
      ensures r.Failure? ==> collection == old(collection)
      ensures !ExpiryInRange(createdAt, expirationSeconds) ==> r == Failure(ExpiryOverflow)
      ensures ExpiryInRange(createdAt, expirationSeconds) ==>
        (r.Failure? <==> exists i :: 0 <= i < |old(collection)| && old(collection)[i].shortCode == shortCode)
      ensures ExpiryInRange(createdAt, expirationSeconds) && r.Failure? ==> r.error == DuplicateKey(shortCode)
      ensures r.Success? ==>
        ExpiryInRange(createdAt, expirationSeconds) &&
        collection == old(collection) + [NewMapping(shortCode, originalUrl, createdAt, expirationSeconds).value]
    {
      match NewMapping(shortCode, originalUrl, createdAt, expirationSeconds)
      case Failure(e) =>
        r := Failure(e);
      case Success(doc) =>
        match Insert(collection, doc)
        case Success(docs) =>
          collection := docs;
          r := Success(());
        case Failure(e) =>
          r := Failure(e);
    }

    /** Draws candidates until one is not the code of any stored document. The
        loop has no retry cap; it ends because some attempt of `choice` is free.
        `attempts` is the number of draws that collided before the one returned. */
    method GenerateUniqueShortCode(length: nat, choice: (nat, nat) -> CharIndex)
      returns (shortCode: string, ghost attempts: nat)
      requires exists k: nat :: FindBy(collection, ShortCode, Candidate(choice, k, length)).None?
      ensures |shortCode| == length && forall i :: 0 <= i < |shortCode| ==> shortCode[i] in Alphabet
      ensures forall i :: 0 <= i < |collection| ==> collection[i].shortCode != shortCode
      ensures shortCode == Candidate(choice, attempts, length)
      ensures forall m: nat {:trigger Candidate(choice, m, length)} :: m < attempts ==> FindBy(collection, ShortCode, Candidate(choice, m, length)).Some?
    {
      ghost var k: nat :| FindBy(collection, ShortCode, Candidate(choice, k, length)).None?;
      var attempt: nat := 0;
      while true
        invariant attempt <= k
        invariant forall m: nat {:trigger Candidate(choice, m, length)} :: m < attempt ==> FindBy(collection, ShortCode, Candidate(choice, m, length)).Some?
        decreases k - attempt
      {
        var candidate := DrawCandidate(length, choice, attempt);
        var doc := FindByShortCode(candidate);
        if doc.None? {
          CandidateIsCode(choice, attempt, length);
          CodeInAlphabet(candidate, length);
          return candidate, attempt;
        }
        assert attempt != k;
        attempt := attempt + 1;
      }
    }
  }
}
