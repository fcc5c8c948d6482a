/** The fixed-size map that matches completions to requests. */
module ArrayMaps {

  datatype Option<T> = None | Some(value: T)

  /** A deleted entry keeps its old value. */
  datatype Entry<K, V> = Entry(key: Option<K>, value: V)

  type Table<K, V> = seq<Entry<K, V>>

  /** The first entry with key `k` (`None` finds the first free entry), or the length. */
  function Find<K(==), V>(t: Table<K, V>, k: Option<K>): (r: nat)
    ensures r <= |t|
    ensures r < |t| ==> t[r].key == k
    ensures forall j :: 0 <= j < r ==> t[j].key != k
  {
    if t == [] || t[0].key == k then 0 else 1 + Find(t[1..], k)
  }

  predicate Full<K(==), V>(t: Table<K, V>) { Find(t, None) == |t| }

  function Get<K(==), V>(t: Table<K, V>, k: K): Option<V> {
    var i := Find(t, Some(k));
    if i < |t| then Some(t[i].value) else None
  }

  function Put<K(==), V>(t: Table<K, V>, k: K, v: V): Table<K, V> {
    var i := Find(t, None);
    if i < |t| then t[i := Entry(Some(k), v)] else t
  }

  function Delete<K(==), V>(t: Table<K, V>, k: K): Table<K, V> {
    var i := Find(t, Some(k));
    if i < |t| then t[i := t[i].(key := None)] else t
  }

  /** The number of entries in use. */
  function Used<K, V>(t: Table<K, V>): (n: nat)
    ensures n <= |t|
  {
    if t == [] then 0 else (if t[0].key.None? then 0 else 1) + Used(t[1..])
  }

  ghost predicate Unique<K, V>(t: Table<K, V>) {
    forall i, j :: 0 <= i < j < |t| && t[i].key.Some? ==> t[i].key != t[j].key
  }

  lemma FindIs<K, V>(t: Table<K, V>, k: Option<K>, i: nat)
    requires i < |t| && t[i].key == k
    requires forall j :: 0 <= j < i ==> t[j].key != k
    ensures Find(t, k) == i
  {
  }

  lemma {:induction false} UsedUpdate<K, V>(t: Table<K, V>, i: nat, e: Entry<K, V>)
    requires i < |t|
    ensures Used(t[i := e]) ==
            Used(t) - (if t[i].key.None? then 0 else 1) + (if e.key.None? then 0 else 1)
  {
    if i > 0 {
      assert t[i := e][1..] == t[1..][i - 1 := e];
      UsedUpdate(t[1..], i - 1, e);
    } else {
      assert t[i := e][1..] == t[1..];
    }
  }

  /** The table is full exactly when all its entries are in use. */
  lemma {:induction false} FullIsAllUsed<K, V>(t: Table<K, V>)
    ensures Full(t) <==> Used(t) == |t|
  {
    if t != [] { FullIsAllUsed(t[1..]); }
  }

  /** What Put means: with a free entry and a new key it adds exactly that pair; a full
      table ignores it. */
  lemma PutMeans<K, V>(t: Table<K, V>, k: K, v: V)
    requires Unique(t) && Get(t, k) == None
    ensures Used(t) == |t| ==> Put(t, k, v) == t
    ensures Used(t) < |t| ==>
              var t' := Put(t, k, v);
              && Unique(t') && |t'| == |t| && Used(t') == Used(t) + 1
              && Get(t', k) == Some(v)
              && forall x :: x != k ==> Get(t', x) == Get(t, x)
  {
    FullIsAllUsed(t);
    var i := Find(t, None);
    if i < |t| {
      var e := Entry(Some(k), v);
      UsedUpdate(t, i, e);
      FindIs(t[i := e], Some(k), i);
      forall x | x != k ensures Get(t[i := e], x) == Get(t, x) {
        GetUpdate(t, i, e, x);
      }
    }
  }

  lemma GetUpdate<K, V>(t: Table<K, V>, i: nat, e: Entry<K, V>, x: K)
    requires i < |t| && t[i].key != Some(x) && e.key != Some(x)
    ensures Get(t[i := e], x) == Get(t, x)
  {
    var j := Find(t, Some(x));
    if j < |t| { FindIs(t[i := e], Some(x), j); }
  }

  /** What Delete means: exactly that key goes. */
  lemma DeleteMeans<K, V>(t: Table<K, V>, k: K)
    requires Unique(t)
    ensures var t' := Delete(t, k);
            && Unique(t') && |t'| == |t|
            && Used(t') == Used(t) - (if Get(t, k).Some? then 1 else 0)
            && Get(t', k) == None
            && forall x :: x != k ==> Get(t', x) == Get(t, x)
  {
    var i := Find(t, Some(k));
    if i < |t| {
      var e := t[i].(key := None);
      UsedUpdate(t, i, e);
      forall x | x != k ensures Get(t[i := e], x) == Get(t, x) {
        GetUpdate(t, i, e, x);
      }
    }
  }

  function EmptyTable<K, V>(size: nat, blank: V): Table<K, V> {
    seq(size, i => Entry(None, blank))
  }

  class ArrayMap<K(==), V> {
    const table: array<Entry<K, V>>

    constructor (size: nat, blank: V)
      ensures fresh(table)
      ensures table[..] == EmptyTable<K, V>(size, blank)
    {
      table := new Entry<K, V>[size](i => Entry(None, blank));
    }

    method Lookup(key: K) returns (r: Option<V>)
      ensures r == Get(table[..], key)
    {
      var i := 0;
      while i < table.Length
        invariant i <= table.Length
        invariant forall j :: 0 <= j < i ==> table[j].key != Some(key)
      {
        if table[i].key == Some(key) {
          FindIs(table[..], Some(key), i);
          return Some(table[i].value);
        }
        i := i + 1;
      }
      return None;
    }

    method Insert(key: K, value: V)
      modifies table
      ensures table[..] == Put(old(table[..]), key, value)
    {
      var i := 0;
      while i < table.Length
        invariant i <= table.Length
        invariant forall j :: 0 <= j < i ==> table[j].key != None
        invariant table[..] == old(table[..])
      {
        if table[i].key.None? {
          FindIs(table[..], None, i);
          table[i] := Entry(Some(key), value);
          break;
        }
        i := i + 1;
      }
    }

    method Remove(key: K)
      modifies table
      ensures table[..] == Delete(old(table[..]), key)
    {
      var i := 0;
      while i < table.Length
        invariant i <= table.Length
        invariant forall j :: 0 <= j < i ==> table[j].key != Some(key)
        invariant table[..] == old(table[..])
      {
        if table[i].key == Some(key) {
          FindIs(table[..], Some(key), i);
          table[i] := table[i].(key := None);
          break;
        }
        i := i + 1;
      }
    }
  }
}
