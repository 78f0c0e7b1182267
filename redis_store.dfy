/**
 * The part of a Redis server the application relies on: string values with an
 * optional expiry, and the commands GET, SETEX, DEL, KEYS, INCR and EXPIRE.
 * Time is an integer number of milliseconds; an entry is gone once the clock
 * has passed its expiry instant (at the instant itself it is still served). The connection is a flag on the
 * client: when it is down every command fails and nothing changes.
 */
module RedisStore {
  import opened Wrappers
  import Decimal
  import Glob

  /** A stored string and the last instant (ms) at which it is still served, if any. */
  datatype Entry = Entry(value: string, expiresAt: Option<int>)

  type Db = map<string, Entry>

  const NotConnected := "The client is closed"
  const InvalidExpire := "ERR invalid expire time in 'setex' command"
  const NotAnInteger := "ERR value is not an integer or out of range"
  const Int64Max := 0x7fff_ffff_ffff_ffff
  const Int64Min := -0x8000_0000_0000_0000

  predicate Live(e: Entry, now: int) {
    e.expiresAt.None? || now <= e.expiresAt.value
  }

  /** The value GET answers: present only while the key exists and has not expired. */
  function Lookup(db: Db, key: string, now: int): Option<string> {
    if key in db && Live(db[key], now) then Some(db[key].value) else None
  }

  /** SETEX key seconds value: stores the value with a time to live; a non-positive time is refused. */
  function SetExCmd(db: Db, key: string, seconds: int, value: string, now: int): (r: Result<Db, string>)
    ensures r.Err? <==> seconds <= 0
    ensures r.Ok? ==> r.value.Keys == db.Keys + {key}
    ensures r.Ok? ==> forall k :: k in db && k != key ==> r.value[k] == db[k]
  {
    if seconds <= 0 then Err(InvalidExpire)
    else Ok(db[key := Entry(value, Some(now + seconds * 1000))])
  }

  /** DEL key: removes the key; the count says whether a live key was removed. */
  function DelCmd(db: Db, key: string, now: int): (r: (Db, int))
    ensures key !in r.0 && r.0.Keys == db.Keys - {key}
    ensures forall k :: k in r.0 ==> r.0[k] == db[k]
    ensures r.1 == 1 <==> Lookup(db, key, now).Some?
    ensures r.1 == 0 || r.1 == 1
  {
    (db - {key}, if Lookup(db, key, now).Some? then 1 else 0)
  }

  /** KEYS pattern: the live keys the glob pattern matches. */
  function KeysCmd(db: Db, pattern: string, now: int): (r: set<string>)
    ensures forall k :: k in r <==> Lookup(db, k, now).Some? && Glob.Match(pattern, k)
  {
    set k | k in db && Live(db[k], now) && Glob.Match(pattern, k)
  }

  /**
   * The integers Redis accepts in a stored string: an optional minus sign and
   * canonical decimal digits ("-0" is refused), within 64-bit range.
   */
  function ReadInt64(s: string): (r: Option<int>)
    ensures r.Some? ==> Int64Min <= r.value <= Int64Max
  {
    if s == "-0" then None
    else match Decimal.Read(s)
      case Some(n) => if Int64Min <= n <= Int64Max then Some(n) else None
      case None => None
  }

  /**
   * INCR key: an absent or expired key starts at 1 with no expiry; otherwise the
   * stored integer goes up by one and the expiry is kept. A value that is not an
   * integer, or an increment past the 64-bit range, is an error.
   */
  function IncrCmd(db: Db, key: string, now: int): Result<(Db, int), string> {
    match Lookup(db, key, now)
    case None => Ok((db[key := Entry("1", None)], 1))
    case Some(v) =>
      match ReadInt64(v)
      case None => Err(NotAnInteger)
      case Some(n) =>
        if n == Int64Max then Err(NotAnInteger)
        else Ok((db[key := Entry(Decimal.Show(n + 1), db[key].expiresAt)], n + 1))
  }

  /**
   * EXPIRE key seconds: gives a live key a time to live (a non-positive one
   * deletes it at once); the count says whether the key existed.
   */
  function ExpireCmd(db: Db, key: string, seconds: int, now: int): (Db, int) {
    if Lookup(db, key, now).None? then (db, 0)
    else if seconds <= 0 then (db - {key}, 1)
    else (db[key := Entry(db[key].value, Some(now + seconds * 1000))], 1)
  }

  /** A value written by SETEX is read back until its time to live is over, and not afterwards. */
  lemma SetExThenLookup(db: Db, key: string, seconds: int, value: string, now: int, later: int)
    requires seconds > 0 && now <= later
    ensures SetExCmd(db, key, seconds, value, now).Ok?
    ensures Lookup(SetExCmd(db, key, seconds, value, now).value, key, later) ==
            if later <= now + seconds * 1000 then Some(value) else None
  {
  }

  /** SETEX and DEL leave every other key as it was. */
  lemma OtherKeysUntouched(db: Db, key: string, seconds: int, value: string, now: int, k: string, t: int)
    requires k != key
    ensures SetExCmd(db, key, seconds, value, now).Ok? ==>
              Lookup(SetExCmd(db, key, seconds, value, now).value, k, t) == Lookup(db, k, t)
    ensures Lookup(DelCmd(db, key, now).0, k, t) == Lookup(db, k, t)
  {
  }

  /** INCR on an absent key answers 1 and stores "1" with no expiry. */
  lemma IncrFresh(db: Db, key: string, now: int)
    requires Lookup(db, key, now).None?
    ensures IncrCmd(db, key, now) == Ok((db[key := Entry("1", None)], 1))
  {
  }

  /** INCR on a value INCR wrote answers the next integer and keeps the expiry. */
  lemma IncrAfterIncr(db: Db, key: string, now: int, later: int)
    requires IncrCmd(db, key, now).Ok?
    requires var (d, c) := IncrCmd(db, key, now).value; Lookup(d, key, later).Some? && c < Int64Max
    ensures var (d, c) := IncrCmd(db, key, now).value;
            IncrCmd(d, key, later) == Ok((d[key := Entry(Decimal.Show(c + 1), d[key].expiresAt)], c + 1))
  {
    var (d, c) := IncrCmd(db, key, now).value;
    IncrStores(db, key, now);
    ReadInt64Show(c);
    assert Lookup(d, key, later) == Some(Decimal.Show(c));
  }

  /** What a successful INCR stores is the decimal text of its answer, within 64-bit range. */
  lemma IncrStores(db: Db, key: string, now: int)
    requires IncrCmd(db, key, now).Ok?
    ensures var (d, c) := IncrCmd(db, key, now).value;
            key in d && d[key].value == Decimal.Show(c) && Int64Min <= c <= Int64Max
  {
  }

  /** Every 64-bit integer printed in decimal reads back as itself. */
  lemma ReadInt64Show(n: int)
    requires Int64Min <= n <= Int64Max
    ensures ReadInt64(Decimal.Show(n)) == Some(n)
  {
    Decimal.ReadShow(n);
    if n < 0 {
      assert Decimal.Show(n) == "-" + Decimal.Digits(-n);
      assert Decimal.Digits(-n)[0] != '0';
      assert Decimal.Show(n)[1] != '0';
    } else {
      assert Decimal.Show(n)[0] != '-';
    }
  }

  /** The Redis server seen through one client connection. */
  class Store {
    var db: Db
    var connected: bool

    constructor (connected: bool)
      ensures this.db == map[] && this.connected == connected
    {
      db := map[];
      this.connected := connected;
    }

    method Get(key: string, now: int) returns (r: Result<Option<string>, string>)
      ensures r == if connected then Ok(Lookup(db, key, now)) else Err(NotConnected)
    {
      if !connected {
        return Err(NotConnected);
      }
      r := Ok(Lookup(db, key, now));
    }

    method SetEx(key: string, seconds: int, value: string, now: int) returns (r: Result<(), string>)
      modifies this
      ensures connected == old(connected)
      ensures !connected ==> r == Err(NotConnected) && db == old(db)
      ensures connected ==> match SetExCmd(old(db), key, seconds, value, now)
                            case Ok(d) => r == Ok(()) && db == d
                            case Err(e) => r == Err(e) && db == old(db)
    {
      if !connected {
        return Err(NotConnected);
      }
      match SetExCmd(db, key, seconds, value, now)
      case Ok(d) =>
        db := d;
        r := Ok(());
      case Err(e) =>
        r := Err(e);
    }

    method Del(key: string, now: int) returns (r: Result<int, string>)
      modifies this
      ensures connected == old(connected)
      ensures !connected ==> r == Err(NotConnected) && db == old(db)
      ensures connected ==> r == Ok(DelCmd(old(db), key, now).1) && db == DelCmd(old(db), key, now).0
    {
      if !connected {
        return Err(NotConnected);
      }
      var (d, n) := DelCmd(db, key, now);
      db := d;
      r := Ok(n);
    }

    /** KEYS answers every matching live key once, in no particular order. */
    method Keys(pattern: string, now: int) returns (r: Result<seq<string>, string>)
      ensures !connected ==> r == Err(NotConnected)
      ensures connected ==> r.Ok?
      ensures r.Ok? ==> (forall k :: k in r.value <==> k in KeysCmd(db, pattern, now))
      ensures r.Ok? ==> forall i, j :: 0 <= i < j < |r.value| ==> r.value[i] != r.value[j]
    {
      if !connected {
        return Err(NotConnected);
      }
      var pending := KeysCmd(db, pattern, now);
      var found: seq<string> := [];
      while pending != {}
        invariant forall k :: k in KeysCmd(db, pattern, now) <==> k in pending || k in found
        invariant forall k :: k in found ==> k !in pending
        invariant forall i, j :: 0 <= i < j < |found| ==> found[i] != found[j]
        decreases |pending|
      {
        var k :| k in pending;
        found := found + [k];
        pending := pending - {k};
      }
      r := Ok(found);
    }

    method Incr(key: string, now: int) returns (r: Result<int, string>)
      modifies this
      ensures connected == old(connected)
      ensures !connected ==> r == Err(NotConnected) && db == old(db)
      ensures connected ==> match IncrCmd(old(db), key, now)
                            case Ok((d, n)) => r == Ok(n) && db == d
                            case Err(e) => r == Err(e) && db == old(db)
    {
      if !connected {
        return Err(NotConnected);
      }
      match IncrCmd(db, key, now)
      case Ok((d, n)) =>
        db := d;
        r := Ok(n);
      case Err(e) =>
        r := Err(e);
    }

    method Expire(key: string, seconds: int, now: int) returns (r: Result<int, string>)
      modifies this
      ensures connected == old(connected)
      ensures !connected ==> r == Err(NotConnected) && db == old(db)
      ensures connected ==> r == Ok(ExpireCmd(old(db), key, seconds, now).1) && db == ExpireCmd(old(db), key, seconds, now).0
    {
      if !connected {
        return Err(NotConnected);
      }
      var (d, n) := ExpireCmd(db, key, seconds, now);
      db := d;
      r := Ok(n);
    }
  }
}
