/**
 * The JSON layer the application puts over the Redis client: `setEx` stores
 * the JSON text of a value, `get` parses a stored text back (a missing or empty
 * value reads as null), `del` and `keys` pass through. Every command error is
 * re-raised to the caller.
 */
module RedisHelper {
  import opened Wrappers
  import opened Json
  import JsonText
  import opened RedisStore

  const SyntaxError := "SyntaxError: Unexpected token in JSON"

  /** What `get` makes of the raw reply of GET. */
  function Decode(raw: Option<string>): (r: Result<Json, string>)
    ensures raw.None? || raw == Some("") ==> r == Ok(JNull)
    ensures raw.Some? && raw.value != "" ==>
              (r.Ok? <==> JsonText.Parse(raw.value).Some?) &&
              (r.Ok? ==> r.value == JsonText.Parse(raw.value).value)
  {
    match raw
    case None => Ok(JNull)
    case Some(text) =>
      if text == "" then Ok(JNull)
      else match JsonText.Parse(text)
        case Some(j) => Ok(j)
        case None => Err(SyntaxError)
  }

  /** Reading back the text `setEx` wrote gives the value that was written. */
  lemma DecodeStringify(j: Json)
    requires WellFormed(j)
    ensures Decode(Some(JsonText.Stringify(j))) == Ok(j)
  {
    JsonText.FirstOfValue(j, "");
    assert JsonText.Stringify(j) + "" == JsonText.Stringify(j);
    JsonText.ParseStringify(j);
  }

  method SetEx(store: Store, key: string, seconds: int, value: Json, now: int) returns (r: Result<(), string>)
    modifies store
    ensures store.connected == old(store.connected)
    ensures !store.connected ==> r == Err(NotConnected) && store.db == old(store.db)
    ensures store.connected ==> match SetExCmd(old(store.db), key, seconds, JsonText.Stringify(value), now)
                                case Ok(d) => r == Ok(()) && store.db == d
                                case Err(e) => r == Err(e) && store.db == old(store.db)
  {
    r := store.SetEx(key, seconds, JsonText.Stringify(value), now);
  }

  method Get(store: Store, key: string, now: int) returns (r: Result<Json, string>)
    ensures r == if store.connected then Decode(Lookup(store.db, key, now)) else Err(NotConnected)
  {
    var raw := store.Get(key, now);
    match raw
    case Err(e) =>
      r := Err(e);
    case Ok(v) =>
      r := Decode(v);
  }

  method Del(store: Store, key: string, now: int) returns (r: Result<int, string>)
    modifies store
    ensures store.connected == old(store.connected)
    ensures !store.connected ==> r == Err(NotConnected) && store.db == old(store.db)
    ensures store.connected ==> r == Ok(DelCmd(old(store.db), key, now).1) && store.db == DelCmd(old(store.db), key, now).0
  {
    r := store.Del(key, now);
  }

  method Keys(store: Store, pattern: string, now: int) returns (r: Result<seq<string>, string>)
    ensures !store.connected ==> r == Err(NotConnected)
    ensures store.connected ==> r.Ok?
    ensures r.Ok? ==> (forall k :: k in r.value <==> k in KeysCmd(store.db, pattern, now))
    ensures r.Ok? ==> forall i, j :: 0 <= i < j < |r.value| ==> r.value[i] != r.value[j]
  {
    r := store.Keys(pattern, now);
  }
}
