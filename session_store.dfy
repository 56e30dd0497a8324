/** The expiring key/value store that holds one refresh token per user id.
    Each entry carries the instant at which its time-to-live runs out. */
module SessionStore {

  import opened Wrappers
  import opened Errors
  import opened Jwt

  datatype Entry = Entry(value: Credential, deadline: int)

  /** The message the template gives for a null key */
  const NULL_KEY: string := "non null key required"

  /** What a read at `now` sees: an entry disappears on its own once its deadline is reached */
  function Live(entries: map<string, Entry>, key: string, now: int): (r: Option<Credential>)
    ensures r.Some? <==> key in entries && now < entries[key].deadline
    ensures r.Some? ==> r.value == entries[key].value
  {
    if key in entries && now < entries[key].deadline then Some(entries[key].value) else None
  }

  /** The failure, if any, that an operation on `key` raises before touching the store */
  function Precheck(up: bool, key: Option<string>): (r: Option<Exception>)
    ensures r.None? <==> up && key.Some?
  {
    if key.None? then Some(IllegalArgument(NULL_KEY))
    else if !up then Some(DataAccess(StoreUnavailable))
    else None
  }

  /** opsForValue().get(key) */
  function GetResult(entries: map<string, Entry>, up: bool, key: Option<string>, now: int)
    : (r: Result<Option<Credential>, Exception>)
    ensures r.Success? <==> up && key.Some?
    ensures r.Success? ==> r.value == Live(entries, key.value, now)
  {
    match Precheck(up, key)
    case Some(e) => Failure(e)
    case None => Success(Live(entries, key.value, now))
  }

  /** The entries after opsForValue().set(key, value, ttl) at `now` succeeded */
  function Written(entries: map<string, Entry>, key: string, value: Credential, ttl: int, now: int)
    : (m: map<string, Entry>)
    ensures m.Keys == entries.Keys + {key}
    ensures forall k :: k in entries && k != key ==> m[k] == entries[k]
    ensures m[key] == Entry(value, now + ttl)
  {
    entries[key := Entry(value, now + ttl)]
  }

  /** A written value is read back until its time-to-live has run out, and is gone after */
  lemma WrittenThenRead(entries: map<string, Entry>, key: string, value: Credential, ttl: int,
                        now: int, later: int)
    requires now <= later
    ensures Live(Written(entries, key, value, ttl, now), key, later) ==
              if later < now + ttl then Some(value) else None
  {
  }

  /** A write replaces what was stored under the key: there is never more than one value per key,
      and a second write wins over the first */
  lemma WriteSupersedes(entries: map<string, Entry>, key: string, v1: Credential, v2: Credential,
                        ttl: int, t1: int, t2: int)
    ensures Written(Written(entries, key, v1, ttl, t1), key, v2, ttl, t2) ==
              Written(entries, key, v2, ttl, t2)
  {
  }

  class Store {
    var entries: map<string, Entry>
    /** Whether the server can be reached; when it cannot, every call raises a DataAccessException */
    var up: bool

    constructor()
      ensures entries == map[] && up
    {
      entries := map[];
      up := true;
    }

    /** opsForValue().get(key) */
    method Get(key: Option<string>, now: int) returns (r: Result<Option<Credential>, Exception>)
      ensures r == GetResult(entries, up, key, now)
    {
      if key.None? {
        r := Failure(IllegalArgument(NULL_KEY));
      } else if !up {
        r := Failure(DataAccess(StoreUnavailable));
      } else if key.value in entries && now < entries[key.value].deadline {
        r := Success(Some(entries[key.value].value));
      } else {
        r := Success(None);
      }
    }

    /** opsForValue().set(key, value, ttl): replaces any earlier entry under the key */
    method Set(key: Option<string>, value: Credential, ttl: int, now: int)
      returns (r: Result<(), Exception>)
      modifies this`entries
      ensures r.Success? <==> Precheck(up, key).None?
      ensures r.Failure? ==> r.error == Precheck(up, key).value && entries == old(entries)
      ensures r.Success? ==> entries == Written(old(entries), key.value, value, ttl, now)
    {
      var e := Precheck(up, key);
      if e.Some? {
        r := Failure(e.value);
      } else {
        entries := entries[key.value := Entry(value, now + ttl)];
        r := Success(());
      }
    }

    /** delete(key): true when a live entry was removed; an entry past its deadline is already
        gone from the server's point of view, so removing it answers false */
    method Delete(key: Option<string>, now: int) returns (r: Result<bool, Exception>)
      modifies this`entries
      ensures r.Success? <==> Precheck(up, key).None?
      ensures r.Failure? ==> r.error == Precheck(up, key).value && entries == old(entries)
      ensures r.Success? ==> r.value == Live(old(entries), key.value, now).Some?
                             && entries == old(entries) - {key.value}
    {
      var e := Precheck(up, key);
      if e.Some? {
        r := Failure(e.value);
      } else {
        r := Success(Live(entries, key.value, now).Some?);
        entries := entries - {key.value};
      }
    }
  }
}
