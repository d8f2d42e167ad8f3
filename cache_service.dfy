/**
 * `CacheService` (api/cache_service.py:8-33): a thin wrapper over the
 * framework's key/value cache. The backend is modelled as the map `entries`;
 * whether the backend raises is a parameter of each call, because it lies
 * outside the program. A failing read is a miss and a failing write reports
 * `false`.
 */
module Cache {
  import opened Wrappers

  /** The JSON-like values the view stores in the cache and sends as response bodies. */
  datatype Value =
    | Null
    | Bool(b: bool)
    | Number(n: real)
    | Text(s: string)
    | List(items: seq<Value>)
    | Object(fields: seq<(string, Value)>)

  /** The values Python treats as false. */
  const Falsy: set<Value> := {Null, Bool(false), Number(0.0), Text(""), List([]), Object([])}

  /** Python truthiness of such a value: `None`, `False`, zero and empty containers are false. */
  predicate Truthy(v: Value)
    ensures Truthy(v) <==> v !in Falsy
  {
    match v
    case Null => false
    case Bool(b) => b
    case Number(n) => n != 0.0
    case Text(s) => |s| > 0
    case List(items) => |items| > 0
    case Object(fields) => |fields| > 0
  }

  /** One call of `set_cached_data`. */
  datatype CacheWrite = CacheWrite(key: string, data: Value, timeout: int)

  /** What a read returns: the stored value, or `None` for a missing key or a failing backend. */
  function Lookup(entries: map<string, Value>, key: string, fails: bool): (r: Option<Value>)
    ensures r.Some? <==> !fails && key in entries
    ensures r.Some? ==> r.value == entries[key]
  {
    if fails || key !in entries then None else Some(entries[key])
  }

  /** A value stored by a write that succeeded is what the next read that succeeds returns. */
  lemma ReadAfterWrite(entries: map<string, Value>, key: string, data: Value, other: string)
    ensures Lookup(entries[key := data], key, false) == Some(data)
    ensures other != key ==> Lookup(entries[key := data], other, false) == Lookup(entries, other, false)
  {
  }

  class CacheService {
    /** The backend's content (expiry is not modelled). */
    var entries: map<string, Value>
    /** Every key read, in order (a record of the calls, not the source's logging). */
    var readKeys: seq<string>
    /** Every write attempted, in order, whether or not the backend accepted it (a record of the calls). */
    var writeLog: seq<CacheWrite>

    constructor (entries: map<string, Value>)
      ensures this.entries == entries && readKeys == [] && writeLog == []
    {
      this.entries := entries;
      readKeys := [];
      writeLog := [];
    }

    /** `get_cached_data` (api/cache_service.py:9-20). */
    method GetCachedData(key: string, fails: bool) returns (r: Option<Value>)
      modifies this`readKeys
      ensures r == Lookup(entries, key, fails)
      ensures readKeys == old(readKeys) + [key]
    {
      readKeys := readKeys + [key];
      if fails {
        return None;
      }
      r := if key in entries then Some(entries[key]) else None;
    }

    /** `set_cached_data` (api/cache_service.py:22-33): `true` exactly when the backend accepted the value. */
    method SetCachedData(key: string, data: Value, timeout: int, fails: bool) returns (ok: bool)
      modifies this`entries, this`writeLog
      ensures ok == !fails
      ensures writeLog == old(writeLog) + [CacheWrite(key, data, timeout)]
      ensures entries == if fails then old(entries) else old(entries)[key := data]
    {
      writeLog := writeLog + [CacheWrite(key, data, timeout)];
      if fails {
        return false;
      }
      entries := entries[key := data];
      return true;
    }
  }
}
