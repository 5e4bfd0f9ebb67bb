/** The cache of successful authentications. */
module AuthCache {
  import opened Clock
  import opened Results

  const CACHE_TTL: int := 300 * SECOND

  /** SHA-256 in hexadecimal; all that matters here is that digests have one length. */
  type Digest = string -> string

  const DIGEST_LENGTH: nat := 64

  ghost predicate FixedLength(digest: Digest) {
    forall p :: |digest(p)| == DIGEST_LENGTH
  }

  function CacheKey(digest: Digest, username: string, password: string): string {
    username + ":" + digest(password)
  }

  /** Two credentials share a key only if they have the same user name and password digests. */
  lemma KeyCollision(digest: Digest, user: string, pass: string, user': string, pass': string)
    requires FixedLength(digest)
    ensures CacheKey(digest, user, pass) == CacheKey(digest, user', pass') <==> user == user' && digest(pass) == digest(pass')
  {
    var k, k' := CacheKey(digest, user, pass), CacheKey(digest, user', pass');
    assert |digest(pass)| == |digest(pass')|;
    if k == k' {
      assert k[..|user|] == user && k'[..|user'|] == user';
      assert k[|user| + 1..] == digest(pass) && k'[|user'| + 1..] == digest(pass');
    }
  }

  datatype Entry = Entry(role: string, expires: Time)

  /** One `set`: the key, the role and when it happened. */
  datatype SetRecord = SetRecord(key: string, role: string, at: Time)

  /** The latest `set` for a key. */
  function LastSet(sets: seq<SetRecord>, key: string): Option<SetRecord> {
    if sets == [] then None
    else if sets[|sets| - 1].key == key then Some(sets[|sets| - 1])
    else LastSet(sets[..|sets| - 1], key)
  }

  /** The role a lookup at `now` should find, by scanning the past `set`s. */
  function Scan(sets: seq<SetRecord>, key: string, now: Time): Option<string> {
    match LastSet(sets, key)
    case None => None
    case Some(r) => if now <= r.at + CACHE_TTL then Some(r.role) else None
  }

  /** Set `k` is the latest one for `key`, and happened at most five minutes before `now`. */
  predicate IsCurrent(sets: seq<SetRecord>, k: nat, key: string, now: Time) {
    && k < |sets| && sets[k].key == key && now - sets[k].at <= 300_000_000_000
    && forall j :: k < j < |sets| ==> sets[j].key != key
  }

  /** A scan finds a role exactly when the latest `set` of its key gave it at most five minutes ago. */
  lemma {:induction false} ScanExactlyWhen(sets: seq<SetRecord>, key: string, now: Time, role: string)
    ensures Scan(sets, key, now) == Some(role) <==>
      exists k: nat :: IsCurrent(sets, k, key, now) && sets[k].role == role
  {
    if sets != [] {
      var n := |sets| - 1;
      var front := sets[..n];
      ScanExactlyWhen(front, key, now, role);
      if sets[n].key == key {
        assert IsCurrent(sets, n, key, now) <==> now - sets[n].at <= 300_000_000_000;
      } else {
        assert forall k: nat :: k < n ==> (IsCurrent(front, k, key, now) <==> IsCurrent(sets, k, key, now));
      }
    }
  }

  lemma ScanRole(sets: seq<SetRecord>, key: string, now: Time)
    ensures Scan(sets, key, now).Some? <==> exists k: nat :: IsCurrent(sets, k, key, now)
    ensures Scan(sets, key, now).Some? ==>
      exists k: nat :: IsCurrent(sets, k, key, now) && sets[k].role == Scan(sets, key, now).value
  {
    if Scan(sets, key, now).Some? {
      ScanExactlyWhen(sets, key, now, Scan(sets, key, now).value);
    } else if k: nat :| IsCurrent(sets, k, key, now) {
      ScanExactlyWhen(sets, key, now, sets[k].role);
    }
  }

  /** What `get` reads from the table. */
  function Lookup(items: map<string, Entry>, key: string, now: Time): Option<string> {
    if key !in items || now > items[key].expires then None else Some(items[key].role)
  }

  function Insert(items: map<string, Entry>, key: string, role: string, now: Time): map<string, Entry> {
    items[key := Entry(role, now + CACHE_TTL)]
  }

  /** The table is what the `set`s made of it. */
  ghost predicate Holds(items: map<string, Entry>, sets: seq<SetRecord>) {
    forall key: string ::
      && (key in items <==> LastSet(sets, key).Some?)
      && (key in items ==> items[key] == Entry(LastSet(sets, key).value.role, LastSet(sets, key).value.at + CACHE_TTL))
  }

  lemma InsertHolds(items: map<string, Entry>, sets: seq<SetRecord>, key: string, role: string, now: Time)
    requires Holds(items, sets)
    ensures Holds(Insert(items, key, role, now), sets + [SetRecord(key, role, now)])
  {
    assert (sets + [SetRecord(key, role, now)])[..|sets|] == sets;
  }

  class Cache {
    const digest: Digest
    var items: map<string, Entry>
    ghost var sets: seq<SetRecord>

    ghost predicate Valid()
      reads this
    {
      Holds(items, sets)
    }

    constructor (digest: Digest)
      ensures Valid() && this.digest == digest && sets == []
    {
      this.digest := digest;
      items, sets := map[], [];
    }

    method Get(username: string, password: string, now: Time) returns (role: string, hit: bool)
      requires Valid()
      ensures Scan(sets, CacheKey(digest, username, password), now) == if hit then Some(role) else None
      ensures !hit ==> role == ""
      ensures hit <==> exists k: nat :: IsCurrent(sets, k, username + ":" + digest(password), now)
      ensures hit ==> exists k: nat :: IsCurrent(sets, k, username + ":" + digest(password), now) && sets[k].role == role
    {
      ScanRole(sets, username + ":" + digest(password), now);
      var key := CacheKey(digest, username, password);
      if key !in items || now > items[key].expires {
        return "", false;
      }
      return items[key].role, true;
    }

    method Set(username: string, password: string, role: string, now: Time)
      requires Valid()
      modifies this
      ensures Valid() && sets == old(sets) + [SetRecord(CacheKey(digest, username, password), role, now)]
    {
      var key := CacheKey(digest, username, password);
      InsertHolds(items, sets, key, role, now);
      items := items[key := Entry(role, now + CACHE_TTL)];
      sets := sets + [SetRecord(key, role, now)];
    }
  }
}
