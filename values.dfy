/** JSON-like values, reply wrappers and the dictionary shapes the report script
    builds from Moodle's web-service replies. */
module Values {

  datatype Option<+T> = None | Some(value: T) {
    /** `d.get(key, default)` once the lookup has been made. */
    function GetOr(default: T): T {
      match this
      case Some(v) => v
      case None => default
    }
  }

  /** The outcome of one web-service call after its retries: the parsed reply,
      or the exception the call wrapper re-raises on its last attempt. */
  datatype Response<+T> = Answer(data: T) | CallFailed

  /** The outcome of a routine whose exceptions are not caught inside it. */
  datatype Result<+T> = Ok(value: T) | Raised

  /** A JSON scalar as the script meets it: null, a boolean, an integer, a string. */
  datatype Value = Null | Bool(b: bool) | Int(i: int) | Str(s: string)

  /** Python truthiness of a scalar. */
  predicate Truthy(v: Value) {
    match v
    case Null => false
    case Bool(b) => b
    case Int(i) => i != 0
    case Str(s) => s != ""
  }

  /** Python's `v == k` for an integer literal `k`; booleans compare as 0 and 1. */
  predicate EqualsInt(v: Value, k: int) {
    match v
    case Int(i) => i == k
    case Bool(b) => (if b then 1 else 0) == k
    case _ => false
  }

  /** `m.get(k, default)` on a dictionary. */
  function Get<K, V>(m: map<K, V>, k: K, default: V): V {
    if k in m then m[k] else default
  }

  /** One row of a report sheet before it is written: column title to cell. */
  type Row = map<Value, Value>

  /** A Python dict whose iteration order is observed: the keys in order of
      first insertion, and the current entries. */
  datatype Dict<K(==), V> = Dict(keys: seq<K>, entries: map<K, V>) {

    ghost predicate Valid() {
      && (forall k | k in entries :: k in keys)
      && (forall i | 0 <= i < |keys| :: keys[i] in entries)
      && (forall i, j :: 0 <= i < j < |keys| ==> keys[i] != keys[j])
    }

    /** `d[k] = v`: a new key goes to the end; an existing key keeps its place. */
    function Put(k: K, v: V): (d: Dict<K, V>)
      requires Valid()
      ensures d.Valid()
      ensures d.entries == entries[k := v]
      ensures k in entries ==> d.keys == keys
      ensures k !in entries ==> d.keys == keys + [k]
    {
      Dict(if k in entries then keys else keys + [k], entries[k := v])
    }
  }

  function EmptyDict<K(==), V>(): (d: Dict<K, V>)
    ensures d.Valid() && d.keys == [] && d.entries == map[]
  {
    Dict([], map[])
  }

  /** The dictionary left by the loop `for x in items: d[key(x)] = val(x)`
      started from `{}`. */
  function Tabulate<T, K(==), V>(items: seq<T>, key: T -> K, val: T -> V): map<K, V>
  {
    if items == [] then map[]
    else Tabulate(items[..|items| - 1], key, val)[key(items[|items| - 1]) := val(items[|items| - 1])]
  }

  /** The keys of the table are exactly the keys of the items, and each entry
      holds the value of some item with that key. */
  lemma {:induction false} TabulateKeys<T, K, V>(items: seq<T>, key: T -> K, val: T -> V)
    ensures forall k :: k in Tabulate(items, key, val) <==>
              exists i :: 0 <= i < |items| && key(items[i]) == k
    ensures forall k :: k in Tabulate(items, key, val) ==>
              exists i :: 0 <= i < |items| && key(items[i]) == k && Tabulate(items, key, val)[k] == val(items[i])
  {
    if items != [] {
      var n := |items| - 1;
      var front := items[..n];
      TabulateKeys(front, key, val);
      forall k | (exists i :: 0 <= i < |items| && key(items[i]) == k)
        ensures k in Tabulate(items, key, val)
      {
        var i :| 0 <= i < |items| && key(items[i]) == k;
        if i < n {
          assert key(front[i]) == k;
        }
      }
      forall k | k in Tabulate(items, key, val)
        ensures exists i :: 0 <= i < |items| && key(items[i]) == k && Tabulate(items, key, val)[k] == val(items[i])
      {
        if k == key(items[n]) {
          assert key(items[n]) == k && Tabulate(items, key, val)[k] == val(items[n]);
        } else {
          assert Tabulate(items, key, val) == Tabulate(front, key, val)[key(items[n]) := val(items[n])];
          assert k in Tabulate(front, key, val) && Tabulate(items, key, val)[k] == Tabulate(front, key, val)[k];
          var i :| 0 <= i < |front| && key(front[i]) == k && Tabulate(front, key, val)[k] == val(front[i]);
          assert items[i] == front[i];
        }
      }
    }
  }

  /** A later item with the same key overwrites an earlier one: the entry for
      an item's key is that item's value when no later item shares the key. */
  lemma {:induction false} TabulateLastWins<T, K, V>(items: seq<T>, key: T -> K, val: T -> V, i: nat)
    requires i < |items|
    requires forall j :: i < j < |items| ==> key(items[j]) != key(items[i])
    ensures key(items[i]) in Tabulate(items, key, val)
    ensures Tabulate(items, key, val)[key(items[i])] == val(items[i])
  {
    var n := |items| - 1;
    if i < n {
      var front := items[..n];
      assert front[i] == items[i];
      forall j | i < j < |front| ensures key(front[j]) != key(front[i]) {
        assert front[j] == items[j];
      }
      TabulateLastWins(front, key, val, i);
    }
  }

  /** Writing a key after a merge is writing it into the right-hand side. */
  lemma UnionUpdate<K, V>(a: map<K, V>, b: map<K, V>, k: K, v: V)
    ensures (a + b)[k := v] == a + b[k := v]
  {
  }

  /** `[f(x) for x in xs]`, built by appending one result at a time. */
  function Mapped<A, B>(xs: seq<A>, f: A -> B): (r: seq<B>)
    ensures |r| == |xs|
    ensures forall i :: 0 <= i < |xs| ==> r[i] == f(xs[i])
  {
    if xs == [] then [] else Mapped(xs[..|xs| - 1], f) + [f(xs[|xs| - 1])]
  }
}
