/** The cache of helper verdicts and the middleware around it (dashboard/internal/authz/cache.go and
    middleware.go), for one request at a time.  The hash is a parameter with digests of 64 hexadecimal
    characters, as SHA-256 (FIPS 180-4) has. */
module AuthCache {
  import opened Wrappers
  import opened HelperAuth

  type Digest = string -> string

  ghost predicate FixedLength(hash: Digest) {
    forall p :: |hash(p)| == 64
  }

  /** No two of these passwords have the same digest. */
  ghost predicate CollisionFree(hash: Digest, passwords: set<string>) {
    forall p, q | p in passwords && q in passwords && hash(p) == hash(q) :: p == q
  }

  function CacheKey(hash: Digest, username: string, password: string): string {
    username + ":" + hash(password)
  }

  /** The digest has a fixed length, so a key determines the username even when it contains colons. */
  lemma KeyDetermines(hash: Digest, u: string, p: string, v: string, q: string)
    requires FixedLength(hash)
    ensures CacheKey(hash, u, p) == CacheKey(hash, v, q) <==> u == v && hash(p) == hash(q)
  {
    var k, l := CacheKey(hash, u, p), CacheKey(hash, v, q);
    assert k[..|k| - 65] == u && k[|k| - 64..] == hash(p);
    assert l[..|l| - 65] == v && l[|l| - 64..] == hash(q);
  }

  /** cacheTTL: five minutes, in seconds. */
  const TTL: int := 300

  datatype Entry = Entry(role: string, expires: int)

  type Items = map<string, Entry>

  function Get(hash: Digest, items: Items, username: string, password: string, now: int): Option<string> {
    var key := CacheKey(hash, username, password);
    if key !in items || now > items[key].expires then None else Some(items[key].role)
  }

  function Set(hash: Digest, items: Items, username: string, password: string, role: string, now: int): Items {
    items[CacheKey(hash, username, password) := Entry(role, now + TTL)]
  }

  /** A stored role is found again for the next five minutes and no longer, and storing it changes
      the answer for no other user and no password with another digest. */
  lemma GetAfterSet(hash: Digest, items: Items, u: string, p: string, role: string, at: int, v: string, q: string, now: int)
    requires FixedLength(hash)
    ensures Get(hash, Set(hash, items, u, p, role, at), v, q, now)
         == if u != v || hash(p) != hash(q) then Get(hash, items, v, q, now)
            else if now <= at + 300 then Some(role)
            else None
  {
    KeyDetermines(hash, u, p, v, q);
  }

  /** What the middleware does with a request. */
  datatype Outcome = Forward(role: string) | Status(code: int)

  /** One request served without interference: looked up at `lookup`; on a miss the helper answers
      (None when the socket is unavailable) and an Ok answer is stored at `store`. */
  function Serve(hash: Digest, items: Items, path: string, auth: Option<(string, string)>,
                 lookup: int, answer: Option<Response>, store: int): (Items, Outcome)
  {
    if path == "/healthz" then (items, Forward(""))
    else if auth.None? || auth.value.0 == "" then (items, Status(401))
    else
      var (u, p) := auth.value;
      var hit := Get(hash, items, u, p, lookup);
      if hit.Some? then (items, Forward(hit.value))
      else if answer.None? then (items, Status(503))
      else if !answer.value.ok then (items, Status(401))
      else (Set(hash, items, u, p, answer.value.role, store), Forward(answer.value.role))
  }

  class Cache {
    const hash: Digest
    var items: Items

    constructor (hash: Digest)
      ensures this.hash == hash && items == map[]
    {
      this.hash := hash;
      items := map[];
    }

    method Lookup(username: string, password: string, now: int) returns (role: string, hit: bool)
      ensures (if hit then Some(role) else None) == Get(hash, items, username, password, now)
    {
      var key := CacheKey(hash, username, password);
      if key !in items || now > items[key].expires {
        return "", false;
      }
      return items[key].role, true;
    }

    method Store(username: string, password: string, role: string, now: int)
      modifies this
      ensures items == Set(hash, old(items), username, password, role, now)
    {
      items := items[CacheKey(hash, username, password) := Entry(role, now + TTL)];
    }

    /** The handler Middleware returns, with the socket configured. */
    method Handle(path: string, auth: Option<(string, string)>, lookup: int, answer: Option<Response>, store: int)
      returns (out: Outcome)
      modifies this
      ensures (items, out) == Serve(hash, old(items), path, auth, lookup, answer, store)
    {
      if path == "/healthz" {
        return Forward("");
      }
      if auth.None? || auth.value.0 == "" {
        return Status(401);
      }
      var (username, password) := auth.value;
      var role, hit := Lookup(username, password, lookup);
      if hit {
        return Forward(role);
      }
      if answer.None? {
        return Status(503);
      }
      var resp := answer.value;
      if !resp.ok {
        return Status(401);
      }
      Store(username, password, resp.role, store);
      out := Forward(resp.role);
    }
  }

  /** The middleware, case by case. */
  lemma ServeCases(hash: Digest, items: Items, path: string, auth: Option<(string, string)>,
                   lookup: int, answer: Option<Response>, store: int)
    ensures var (items', out) := Serve(hash, items, path, auth, lookup, answer, store);
      && (path == "/healthz" ==> items' == items && out == Forward(""))
      && (path != "/healthz" && (auth.None? || auth.value.0 == "") ==> items' == items && out == Status(401))
      && (path != "/healthz" && auth.Some? && auth.value.0 != "" ==>
            var hit := Get(hash, items, auth.value.0, auth.value.1, lookup);
            && (hit.Some? ==> items' == items && out == Forward(hit.value))
            && (hit.None? && answer.None? ==> items' == items && out == Status(503))
            && (hit.None? && answer.Some? && !answer.value.ok ==> items' == items && out == Status(401))
            && (hit.None? && answer.Some? && answer.value.ok ==>
                  && out == Forward(answer.value.role)
                  && items'.Keys == items.Keys + {CacheKey(hash, auth.value.0, auth.value.1)}
                  && Get(hash, items', auth.value.0, auth.value.1, store + 300) == Some(answer.value.role)
                  && Get(hash, items', auth.value.0, auth.value.1, store + 301) == None))
  {
  }
}
