/**
 * JSON values as the JavaScript code handles them: request and response bodies,
 * cached values and uploaded files. An object is its list of own properties in
 * property order, so that object literals, spreads and JSON text keep the order
 * JavaScript gives them.
 */
module Json {
  import opened Wrappers

  datatype Json =
    | JNull
    | JBool(b: bool)
    | JNum(n: int)
    | JStr(s: string)
    | JArr(items: seq<Json>)
    | JObj(fields: seq<Field>)

  datatype Field = Field(key: string, value: Json)

  /** JavaScript truthiness: null, false, 0 and "" are falsy, every array and object is truthy. */
  predicate Truthy(j: Json) {
    match j
    case JNull => false
    case JBool(b) => b
    case JNum(n) => n != 0
    case JStr(s) => s != ""
    case JArr(_) => true
    case JObj(_) => true
  }

  function KeySet(fs: seq<Field>): set<string> {
    set i | 0 <= i < |fs| :: fs[i].key
  }

  lemma KeySetCons(f: Field, fs: seq<Field>)
    ensures KeySet([f] + fs) == {f.key} + KeySet(fs)
  {
    var s := [f] + fs;
    forall k | k in KeySet(s) ensures k in {f.key} + KeySet(fs) {
      var i :| 0 <= i < |s| && s[i].key == k;
      if i > 0 { assert fs[i - 1] == s[i]; }
    }
    forall k | k in {f.key} + KeySet(fs) ensures k in KeySet(s) {
      if k == f.key {
        assert s[0] == f;
      } else {
        var i :| 0 <= i < |fs| && fs[i].key == k;
        assert s[i + 1] == fs[i];
      }
    }
  }

  predicate DistinctKeys(fs: seq<Field>) {
    forall i, j :: 0 <= i < j < |fs| ==> fs[i].key != fs[j].key
  }

  /** The position of the first field with key `k`. */
  function IndexOf(fs: seq<Field>, k: string): (i: nat)
    requires k in KeySet(fs)
    ensures i < |fs| && fs[i].key == k
    ensures forall j :: 0 <= j < i ==> fs[j].key != k
  {
    if fs[0].key == k then 0
    else
      KeySetCons(fs[0], fs[1..]);
      assert [fs[0]] + fs[1..] == fs;
      1 + IndexOf(fs[1..], k)
  }

  /** Property lookup `obj[k]`: the value of the first field with that key. */
  function Get(fs: seq<Field>, k: string): (r: Option<Json>)
    ensures r.Some? <==> k in KeySet(fs)
  {
    if k in KeySet(fs) then Some(fs[IndexOf(fs, k)].value) else None
  }

  /** The value of the last field with key `k`, the one that wins when fields are copied in order. */
  function GetLast(fs: seq<Field>, k: string): (r: Option<Json>)
    ensures r.Some? <==> k in KeySet(fs)
  {
    if fs == [] then None
    else
      KeySetCons(fs[0], fs[1..]);
      assert [fs[0]] + fs[1..] == fs;
      var later := GetLast(fs[1..], k);
      if later.Some? then later
      else if fs[0].key == k then Some(fs[0].value)
      else None
  }

  /**
   * Property assignment `obj[k] = v` on a plain object: an existing property keeps
   * its place and takes the new value, a new property goes last.
   */
  function Assign(fs: seq<Field>, k: string, v: Json): (r: seq<Field>)
    ensures KeySet(r) == KeySet(fs) + {k}
    ensures k !in KeySet(fs) ==> r == fs + [Field(k, v)]
  {
    if k in KeySet(fs) then
      var i := IndexOf(fs, k);
      var r := fs[i := Field(k, v)];
      assert KeySet(r) == KeySet(fs) by {
        forall k' | k' in KeySet(fs) ensures k' in KeySet(r) {
          var j :| 0 <= j < |fs| && fs[j].key == k';
          assert r[j].key == k';
        }
        forall k' | k' in KeySet(r) ensures k' in KeySet(fs) {
          var j :| 0 <= j < |r| && r[j].key == k';
          assert fs[j].key == k';
        }
      }
      r
    else
      KeySetAppend(fs, Field(k, v));
      fs + [Field(k, v)]
  }

  lemma KeySetAppend(fs: seq<Field>, f: Field)
    ensures KeySet(fs + [f]) == KeySet(fs) + {f.key}
  {
    var s := fs + [f];
    forall k | k in KeySet(s) ensures k in KeySet(fs) + {f.key} {
      var i :| 0 <= i < |s| && s[i].key == k;
      if i < |fs| { assert fs[i] == s[i]; }
    }
    forall k | k in KeySet(fs) + {f.key} ensures k in KeySet(s) {
      if k == f.key {
        assert s[|fs|] == f;
      } else {
        var i :| 0 <= i < |fs| && fs[i].key == k;
        assert s[i] == fs[i];
      }
    }
  }

  /** After `obj[k] = v`, reading `k` gives `v` and every other property reads as before. */
  lemma AssignGet(fs: seq<Field>, k: string, v: Json, k': string)
    ensures Get(Assign(fs, k, v), k') == if k' == k then Some(v) else Get(fs, k')
  {
    var r := Assign(fs, k, v);
    if k' == k {
      if k in KeySet(fs) {
        var i := IndexOf(fs, k);
        assert r[i].key == k;
        assert IndexOf(r, k) == i;
      } else {
        assert IndexOf(r, k) == |fs|;
      }
    } else if k' in KeySet(fs) {
      var a := IndexOf(fs, k');
      var b := IndexOf(r, k');
      if k in KeySet(fs) {
        var i := IndexOf(fs, k);
        assert forall j :: 0 <= j < |fs| && j != i ==> r[j] == fs[j];
      } else {
        assert r[a] == fs[a];
        assert b <= a;
        assert r[b] == fs[b];
      }
    }
  }

  /** Assignment keeps the keys of an object distinct. */
  lemma AssignDistinct(fs: seq<Field>, k: string, v: Json)
    requires DistinctKeys(fs)
    ensures DistinctKeys(Assign(fs, k, v))
  {
    var r := Assign(fs, k, v);
    if k in KeySet(fs) {
      var i := IndexOf(fs, k);
      forall a, b | 0 <= a < b < |r| ensures r[a].key != r[b].key {
        assert r[a].key == fs[a].key && r[b].key == fs[b].key;
      }
    } else {
      forall a, b | 0 <= a < b < |r| ensures r[a].key != r[b].key {
        if b == |fs| { assert fs[a].key in KeySet(fs); }
        else { assert r[a] == fs[a] && r[b] == fs[b]; }
      }
    }
  }

  /**
   * Copies `fs` field by field into the object `acc`, as an object spread
   * `{...acc, ...fs}` and `JSON.parse` (for repeated keys) both do.
   */
  function Collect(acc: seq<Field>, fs: seq<Field>): seq<Field>
    decreases |fs|
  {
    if fs == [] then acc else Collect(Assign(acc, fs[0].key, fs[0].value), fs[1..])
  }

  /** After copying, a key reads as its last copied value, or as before when it was not copied. */
  lemma {:induction false} CollectGet(acc: seq<Field>, fs: seq<Field>, k: string)
    ensures Get(Collect(acc, fs), k) == if GetLast(fs, k).Some? then GetLast(fs, k) else Get(acc, k)
    decreases |fs|
  {
    if fs != [] {
      AssignGet(acc, fs[0].key, fs[0].value, k);
      CollectGet(Assign(acc, fs[0].key, fs[0].value), fs[1..], k);
    }
  }

  /** Copying keeps the keys of the target distinct and adds exactly the copied keys. */
  lemma {:induction false} CollectKeys(acc: seq<Field>, fs: seq<Field>)
    ensures KeySet(Collect(acc, fs)) == KeySet(acc) + KeySet(fs)
    ensures DistinctKeys(acc) ==> DistinctKeys(Collect(acc, fs))
    decreases |fs|
  {
    if fs != [] {
      KeySetCons(fs[0], fs[1..]);
      assert [fs[0]] + fs[1..] == fs;
      if DistinctKeys(acc) { AssignDistinct(acc, fs[0].key, fs[0].value); }
      CollectKeys(Assign(acc, fs[0].key, fs[0].value), fs[1..]);
    }
  }

  /** Copying fields whose keys are new and distinct just appends them. */
  lemma {:induction false} CollectFresh(acc: seq<Field>, fs: seq<Field>)
    requires DistinctKeys(acc + fs)
    ensures Collect(acc, fs) == acc + fs
    decreases |fs|
  {
    if fs != [] {
      var f := fs[0];
      assert f == (acc + fs)[|acc|];
      assert f.key !in KeySet(acc) by {
        forall i | 0 <= i < |acc| ensures acc[i].key != f.key {
          assert acc[i] == (acc + fs)[i];
        }
      }
      var acc' := Assign(acc, f.key, f.value);
      assert acc' == acc + [f];
      assert acc' + fs[1..] == acc + fs;
      CollectFresh(acc', fs[1..]);
    }
  }

  /** In an object with distinct keys the first and the last field with a key are the same one. */
  lemma {:induction false} GetLastDistinct(fs: seq<Field>, k: string)
    requires DistinctKeys(fs)
    ensures GetLast(fs, k) == Get(fs, k)
  {
    if fs != [] {
      assert DistinctKeys(fs[1..]) by {
        forall i, j | 0 <= i < j < |fs[1..]| ensures fs[1..][i].key != fs[1..][j].key {
          assert fs[1..][i] == fs[i + 1] && fs[1..][j] == fs[j + 1];
        }
      }
      GetLastDistinct(fs[1..], k);
      if fs[0].key == k {
        assert k !in KeySet(fs[1..]) by {
          forall i | 0 <= i < |fs[1..]| ensures fs[1..][i].key != k {
            assert fs[1..][i] == fs[i + 1];
          }
        }
      }
    }
  }

  /** Every object inside the value has distinct keys, as every JavaScript object does. */
  predicate WellFormed(j: Json) {
    match j
    case JArr(items) => forall i :: 0 <= i < |items| ==> WellFormed(items[i])
    case JObj(fs) => DistinctKeys(fs) && forall i :: 0 <= i < |fs| ==> WellFormed(fs[i].value)
    case _ => true
  }
}
