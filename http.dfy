/** Cached, retried JSON fetch. The network answers with a scripted outcome per
    attempt, the cache directory is a map from the key's pre-image to an entry,
    and the clock is a parameter. */
module Http {
  import opened Wrappers
  import opened Ordering

  /** One dictionary entry; `value` is the JSON text of the entry's value. */
  datatype Entry = Entry(name: string, value: string)

  /** What the SHA-256 cache key is computed from: the URL and the parameter and
      header dictionaries, each rendered with its keys sorted. */
  datatype Preimage = Preimage(url: string, params: seq<Entry>, headers: seq<Entry>)

  predicate EntryLe(a: Entry, b: Entry) {
    StrLe(a.name, b.name)
  }

  /** `json.dumps(d or {}, sort_keys=True)`: entries in ascending key order. */
  function Dump(d: Option<seq<Entry>>): seq<Entry> {
    Sort(d.GetOr([]), EntryLe)
  }

  function KeyPreimage(url: string, params: Option<seq<Entry>>, headers: Option<seq<Entry>>): (p: Preimage)
    ensures p.url == url
    ensures multiset(p.params) == multiset(params.GetOr([]))
    ensures multiset(p.headers) == multiset(headers.GetOr([]))
  {
    Preimage(url, Dump(params), Dump(headers))
  }

  /** A Python dictionary: no key twice. */
  predicate DistinctNames(d: seq<Entry>) {
    forall i, j :: 0 <= i < j < |d| ==> d[i].name != d[j].name
  }

  lemma EntryLeTotalPreorder()
    ensures TotalPreorder(EntryLe)
  {
    forall a: Entry, b: Entry ensures EntryLe(a, b) || EntryLe(b, a) {
      StrLeTotal(a.name, b.name);
    }
    forall a: Entry, b: Entry, c: Entry | EntryLe(a, b) && EntryLe(b, c) ensures EntryLe(a, c) {
      StrLeTrans(a.name, b.name, c.name);
    }
  }

  lemma SameDump(d1: seq<Entry>, d2: seq<Entry>)
    requires DistinctNames(d1) && multiset(d1) == multiset(d2)
    ensures Sort(d1, EntryLe) == Sort(d2, EntryLe)
  {
    EntryLeTotalPreorder();
    SortSorted(d1, EntryLe);
    SortSorted(d2, EntryLe);
    var a := Sort(d1, EntryLe);
    forall x, y | x in a && y in a && EntryLe(x, y) && EntryLe(y, x) ensures x == y {
      StrLeAntisym(x.name, y.name);
      assert x in multiset(d1) && y in multiset(d1);
      var i :| 0 <= i < |d1| && d1[i] == x;
      var j :| 0 <= j < |d1| && d1[j] == y;
      assert i == j;
    }
    SortedUnique(a, Sort(d2, EntryLe), EntryLe);
  }

  /** The key depends on the dictionaries' contents only: insertion order never
      changes it, a missing dictionary is the same as an empty one, and any
      differing entry gives a different pre-image. */
  lemma KeyIgnoresOrder(url: string, p1: seq<Entry>, p2: seq<Entry>, h1: seq<Entry>, h2: seq<Entry>)
    requires DistinctNames(p1) && DistinctNames(h1)
    ensures KeyPreimage(url, Some(p1), Some(h1)) == KeyPreimage(url, Some(p2), Some(h2))
        <==> multiset(p1) == multiset(p2) && multiset(h1) == multiset(h2)
    ensures KeyPreimage(url, None, None) == KeyPreimage(url, Some([]), Some([]))
  {
    if multiset(p1) == multiset(p2) && multiset(h1) == multiset(h2) {
      SameDump(p1, p2);
      SameDump(h1, h2);
    }
  }

  const MaxAttempts: nat := 6
  const Backoff: real := 1.5

  /** `ttl or default`, `timeout or default`: None and 0 both mean the default. */
  function OrDefault(x: Option<int>, default: int): (r: int)
    ensures r == default || (x.Some? && r == x.value && r != 0)
    ensures x.None? || x == Some(0) ==> r == default
  {
    if x.None? || x.value == 0 then default else x.value
  }

  /** A cache file: its modification time and its content, None when it cannot
      be read back as JSON. */
  datatype CacheEntry = CacheEntry(mtime: int, payload: Option<string>)
  type Cache = map<Preimage, CacheEntry>

  /** The request each attempt sends; the timeout travels with it. */
  datatype Request = Request(url: string, params: Option<seq<Entry>>, headers: Option<seq<Entry>>, timeout: int)

  /** What writing the cache file did: wrote it at `mtime`, failed before
      creating it, or left a truncated file at `mtime`. */
  datatype CacheWrite = Stored(mtime: int) | NotStored | Truncated(mtime: int)

  /** The network's answer to one attempt; `body` is None when it is not JSON. */
  datatype Outcome =
    | TransportError
    | Response(status: int, body: Option<string>, write: CacheWrite)

  datatype Failure = Transport | TooManyRequests | ServerError | ClientError | InvalidJson

  /** Why an attempt raised, if it did: 429 and 5xx are raised explicitly,
      other 4xx by `raise_for_status`, a body that is not JSON by `r.json()`. */
  function Classify(o: Outcome): Option<Failure> {
    match o
    case TransportError => Some(Transport)
    case Response(status, body, _) =>
      if status == 429 then Some(TooManyRequests)
      else if 500 <= status < 600 then Some(ServerError)
      else if 400 <= status < 600 then Some(ClientError)
      else if body.None? then Some(InvalidJson)
      else None
  }

  predicate Succeeds(o: Outcome) {
    Classify(o).None?
  }

  lemma SuccessMeansJson(o: Outcome)
    ensures Succeeds(o) <==> o.Response? && !(400 <= o.status < 600) && o.body.Some?
  {
  }

  /** The first attempt from `i` on, below `MaxAttempts`, that succeeds;
      `MaxAttempts` when none does. */
  function FirstSuccess(req: Request, respond: (Request, nat) -> Outcome, i: nat): (r: nat)
    requires i <= MaxAttempts
    ensures i <= r <= MaxAttempts
    ensures r < MaxAttempts ==> Succeeds(respond(req, r))
    ensures forall j :: i <= j < r ==> !Succeeds(respond(req, j))
    decreases MaxAttempts - i
  {
    if i == MaxAttempts then MaxAttempts
    else if Succeeds(respond(req, i)) then i
    else FirstSuccess(req, respond, i + 1)
  }

  function Pow(b: real, n: nat): real {
    if n == 0 then 1.0 else b * Pow(b, n - 1)
  }

  /** The sleeps after `k` failed attempts: `1.5 ** i` after attempt `i`. */
  function Sleeps(k: nat): (s: seq<real>)
    ensures |s| == k
  {
    seq(k, (i: nat) => Pow(Backoff, i))
  }

  lemma SleepsNext(k: nat)
    ensures Sleeps(k + 1) == Sleeps(k) + [Pow(Backoff, k)]
  {
  }

  lemma {:induction false} PowIncreasing(n: nat)
    ensures 1.0 <= Pow(Backoff, n) < Pow(Backoff, n + 1)
  {
    if n > 0 {
      PowIncreasing(n - 1);
    }
  }

  lemma {:induction false} PowMonotone(i: nat, j: nat)
    requires i < j
    ensures Pow(Backoff, i) < Pow(Backoff, j)
    decreases j - i
  {
    PowIncreasing(i);
    if i + 1 < j {
      PowMonotone(i + 1, j);
    }
  }

  /** Each sleep is longer than the one before. */
  lemma SleepsIncrease(k: nat)
    ensures forall i, j :: 0 <= i < j < k ==> Sleeps(k)[i] < Sleeps(k)[j]
  {
    forall i, j | 0 <= i < j < k ensures Sleeps(k)[i] < Sleeps(k)[j] {
      PowMonotone(i, j);
    }
  }

  /** The cache entry is served: it exists, is at most `ttl` seconds old and
      reads back as JSON. */
  predicate Serves(cache: Cache, key: Preimage, now: int, ttl: int) {
    key in cache && now - cache[key].mtime <= ttl && cache[key].payload.Some?
  }

  /** The cache after a successful attempt returned `data`. */
  function Store(cache: Cache, key: Preimage, w: CacheWrite, data: string): (c: Cache)
    ensures w.NotStored? ==> c == cache
    ensures !w.NotStored? ==> c.Keys == cache.Keys + {key}
    ensures w.Stored? ==> c[key] == CacheEntry(w.mtime, Some(data))
    ensures w.Truncated? ==> c[key] == CacheEntry(w.mtime, None)
    ensures forall k :: k in cache && k != key ==> k in c && c[k] == cache[k]
  {
    match w
    case Stored(t) => cache[key := CacheEntry(t, Some(data))]
    case NotStored => cache
    case Truncated(t) => cache[key := CacheEntry(t, None)]
  }

  /** What a complete cache write stores is what a later call serves, for as
      long as the entry is at most `ttl` seconds old. */
  lemma StoreThenServe(cache: Cache, key: Preimage, t: int, data: string, now: int, ttl: int)
    ensures var c := Store(cache, key, Stored(t), data);
      Serves(c, key, now, ttl) <==> now - t <= ttl
    ensures Store(cache, key, Stored(t), data)[key].payload == Some(data)
  {
  }

  /** `get_json`: serve a fresh readable cache entry, otherwise make up to six
      attempts, sleeping `1.5 ** i` after failed attempt `i`, and return the
      first successful payload; after six failures the result is None.
      `cfgTtl` and `cfgTimeout` are `CFG.REQUESTS_CACHE_TTL_SECONDS` and
      `CFG.REQUESTS_TIMEOUT`, read from the environment with the defaults
      `Config.DefaultCacheTtlSeconds` and `Config.DefaultRequestsTimeout`. */
  method GetJson(url: string, params: Option<seq<Entry>>, headers: Option<seq<Entry>>,
                 ttl: Option<int>, timeout: Option<int>, cfgTtl: int, cfgTimeout: int,
                 cache: Cache, now: int, respond: (Request, nat) -> Outcome)
    returns (data: Option<string>, cache': Cache, sleeps: seq<real>, attempts: nat)
    ensures var key := KeyPreimage(url, params, headers);
            Serves(cache, key, now, OrDefault(ttl, cfgTtl)) ==>
              data == cache[key].payload && cache' == cache && sleeps == [] && attempts == 0
    ensures var key := KeyPreimage(url, params, headers);
            var req := Request(url, params, headers, OrDefault(timeout, cfgTimeout));
            var k := FirstSuccess(req, respond, 0);
            !Serves(cache, key, now, OrDefault(ttl, cfgTtl)) ==>
              && sleeps == Sleeps(k)
              && (k < MaxAttempts ==>
                    && attempts == k + 1
                    && data == respond(req, k).body
                    && cache' == Store(cache, key, respond(req, k).write, respond(req, k).body.value))
              && (k == MaxAttempts ==> attempts == MaxAttempts && data == None && cache' == cache)
  {
    var effTtl := OrDefault(ttl, cfgTtl);
    var effTimeout := OrDefault(timeout, cfgTimeout);
    var key := KeyPreimage(url, params, headers);
    cache', sleeps, attempts := cache, [], 0;
    if key in cache && now - cache[key].mtime <= effTtl && cache[key].payload.Some? {
      data := cache[key].payload;
      return;
    }
    assert !Serves(cache, key, now, effTtl);
    var req := Request(url, params, headers, effTimeout);
    ghost var k := FirstSuccess(req, respond, 0);
    var attempt: nat := 0;
    while attempt < MaxAttempts
      invariant attempt <= k && attempts == attempt
      invariant sleeps == Sleeps(attempt)
      invariant cache' == cache
    {
      var o := respond(req, attempt);
      attempts := attempts + 1;
      if Classify(o).None? {
        assert k == attempt;
        cache' := Store(cache, key, o.write, o.body.value);
        data := o.body;
        return;
      }
      SleepsNext(attempt);
      sleeps := sleeps + [Pow(Backoff, attempt)];
      attempt := attempt + 1;
    }
    data := None;
  }

  /** A truncated cache write leaves an entry that later calls treat as a miss. */
  lemma TruncatedEntryIsMiss(cache: Cache, key: Preimage, data: string, t: int, now: int, ttl: int)
    ensures !Serves(Store(cache, key, Truncated(t), data), key, now, ttl)
  {
  }
}
