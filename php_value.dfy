/**
 * PHP values as the importer sees them: scalars, strings, and arrays, which
 * in PHP are ordered maps from int or string keys to values. Decoded JSON,
 * CSV records, the mapping submitted by the admin form, the post data handed
 * to wp_insert_post and the staged transient entry are all such values.
 */
module PhpValue {

  datatype Option<T> = None | Some(value: T)

  /** A PHP array key. */
  datatype Key = IntKey(i: int) | StrKey(s: string)

  /** A PHP value (floating-point numbers are not part of this model). */
  datatype Value =
    | Null
    | Bool(b: bool)
    | Int(i: int)
    | Str(s: string)
    | Arr(entries: seq<Entry>)

  /** One `key => value` pair of a PHP array, in insertion order. */
  datatype Entry = Entry(key: Key, val: Value)

  /** Every PHP array has pairwise distinct keys. */
  ghost predicate DistinctKeys(es: seq<Entry>)
  {
    forall i, j :: 0 <= i < j < |es| ==> es[i].key != es[j].key
  }

  /** `array_keys`: the keys in order. */
  function KeysOf(es: seq<Entry>): (ks: seq<Key>)
    ensures |ks| == |es|
    ensures forall i :: 0 <= i < |es| ==> ks[i] == es[i].key
  {
    seq(|es|, i requires 0 <= i < |es| => es[i].key)
  }

  /** `array_values`: the values in order. */
  function ValuesOf(es: seq<Entry>): (vs: seq<Value>)
    ensures |vs| == |es|
    ensures forall i :: 0 <= i < |es| ==> vs[i] == es[i].val
  {
    seq(|es|, i requires 0 <= i < |es| => es[i].val)
  }

  /** A PHP list: the values under the keys 0, 1, 2, ... (what `$a[] = $v` builds). */
  function ListOf(vs: seq<Value>): (es: seq<Entry>)
    ensures |es| == |vs|
    ensures forall i :: 0 <= i < |vs| ==> es[i] == Entry(IntKey(i), vs[i])
    ensures DistinctKeys(es)
    ensures ValuesOf(es) == vs
  {
    seq(|vs|, i requires 0 <= i < |vs| => Entry(IntKey(i), vs[i]))
  }

  /** Position of the first entry whose key is `k`, or -1. */
  function IndexOf(es: seq<Entry>, k: Key): (r: int)
    ensures -1 <= r < |es|
    ensures r >= 0 ==> es[r].key == k && forall j :: 0 <= j < r ==> es[j].key != k
    ensures r < 0 ==> forall j :: 0 <= j < |es| ==> es[j].key != k
  {
    if es == [] then -1
    else if es[0].key == k then 0
    else
      var r := IndexOf(es[1..], k);
      if r < 0 then -1 else r + 1
  }

  /** `$a[$k]` when the key exists (`array_key_exists`), else None. */
  function Find(es: seq<Entry>, k: Key): (r: Option<Value>)
    ensures r.Some? <==> k in KeysOf(es)
    ensures r.Some? ==> exists i :: 0 <= i < |es| && es[i] == Entry(k, r.value)
  {
    var i := IndexOf(es, k);
    if i < 0 then None else Some(es[i].val)
  }

  /** A key held at exactly one position is found there. */
  lemma FindAt(es: seq<Entry>, p: nat)
    requires p < |es|
    requires forall j :: 0 <= j < |es| && j != p ==> es[j].key != es[p].key
    ensures Find(es, es[p].key) == Some(es[p].val)
  {
    assert es[p].key in KeysOf(es);
  }

  /**
   * `$a[$k] = $v`: an existing key keeps its position and gets the new value;
   * a new key is appended at the end.
   */
  function Put(es: seq<Entry>, k: Key, v: Value): (r: seq<Entry>)
    ensures Find(r, k) == Some(v)
    ensures forall k' :: k' != k ==> Find(r, k') == Find(es, k')
    ensures k in KeysOf(es) ==> KeysOf(r) == KeysOf(es)
    ensures k !in KeysOf(es) ==> KeysOf(r) == KeysOf(es) + [k]
    ensures DistinctKeys(es) ==> DistinctKeys(r)
    ensures forall e :: e in r ==> e in es || e == Entry(k, v)
  {
    var i := IndexOf(es, k);
    if i < 0 then
      var r := es + [Entry(k, v)];
      assert forall k' :: k' != k ==> IndexOf(r, k') == IndexOf(es, k') by {
        forall k' | k' != k ensures IndexOf(r, k') == IndexOf(es, k') {
          IndexOfAppend(es, Entry(k, v), k');
        }
      }
      assert KeysOf(r) == KeysOf(es) + [k];
      IndexOfFresh(es, Entry(k, v));
      r
    else
      var r := es[i := Entry(k, v)];
      assert KeysOf(r) == KeysOf(es);
      assert forall k' :: IndexOf(r, k') == IndexOf(es, k') by {
        forall k' ensures IndexOf(r, k') == IndexOf(es, k') {
          IndexOfKeys(r, es, k');
        }
      }
      r
  }

  /** What `Put` leaves under any one key. */
  lemma PutFind(es: seq<Entry>, k: Key, x: Value, k': Key)
    ensures Find(Put(es, k, x), k') == if k' == k then Some(x) else Find(es, k')
  {
  }

  /**
   * The array a loop builds by assigning `$a[$k] = $v` for each pair of `es`
   * in turn, starting from an empty array.
   */
  function PutAll(es: seq<Entry>): (r: seq<Entry>)
    ensures DistinctKeys(r)
  {
    if es == [] then [] else Put(PutAll(es[..|es| - 1]), es[|es| - 1].key, es[|es| - 1].val)
  }

  /** Position of the last pair of `es` with key `k`, or -1. */
  function LastKeyIndex(es: seq<Entry>, k: Key): (i: int)
    ensures -1 <= i < |es|
    ensures i >= 0 ==> es[i].key == k
    ensures forall j :: i < j < |es| ==> es[j].key != k
  {
    if es == [] then -1
    else if es[|es| - 1].key == k then |es| - 1
    else LastKeyIndex(es[..|es| - 1], k)
  }

  /** Each key ends up holding the value of its last assignment; a key never assigned is absent. */
  lemma {:induction false} PutAllFind(es: seq<Entry>, k: Key)
    ensures var i := LastKeyIndex(es, k);
      Find(PutAll(es), k) == if i < 0 then None else Some(es[i].val)
  {
    if es != [] {
      var init := es[..|es| - 1];
      var e := es[|es| - 1];
      PutAllFind(init, k);
      PutFind(PutAll(init), e.key, e.val, k);
      if e.key != k {
        var i := LastKeyIndex(init, k);
        assert i >= 0 ==> es[i] == init[i];
      }
    }
  }

  /** Every entry of the built array is one of the assigned pairs. */
  lemma {:induction false} PutAllMembers(es: seq<Entry>)
    ensures forall e :: e in PutAll(es) ==> e in es
  {
    if es != [] {
      var init := es[..|es| - 1];
      PutAllMembers(init);
      assert forall e :: e in init ==> e in es;
    }
  }

  /** Assigning pairs with distinct keys builds exactly those pairs, in order. */
  lemma {:induction false} PutAllDistinct(es: seq<Entry>)
    requires DistinctKeys(es)
    ensures PutAll(es) == es
  {
    if es != [] {
      var init := es[..|es| - 1];
      var e := es[|es| - 1];
      PutAllDistinct(init);
      assert e.key !in KeysOf(init) by {
        forall j | 0 <= j < |init| ensures KeysOf(init)[j] != e.key {
          assert init[j] == es[j];
        }
      }
      assert IndexOf(init, e.key) < 0;
      assert init + [e] == es;
    }
  }

  /** Assigning one more pair is one more `Put`. */
  lemma PutAllSnoc(es: seq<Entry>, e: Entry)
    ensures PutAll(es + [e]) == Put(PutAll(es), e.key, e.val)
  {
    assert (es + [e])[..|es|] == es;
  }

  /** The fold over one more element of a prefix. */
  lemma PutAllStep(es: seq<Entry>, i: nat)
    requires i < |es|
    ensures PutAll(es[..i + 1]) == Put(PutAll(es[..i]), es[i].key, es[i].val)
  {
    assert es[..i + 1][..i] == es[..i];
  }

  lemma {:induction false} IndexOfAppend(es: seq<Entry>, e: Entry, k: Key)
    requires e.key != k
    ensures IndexOf(es + [e], k) == IndexOf(es, k)
  {
    if es != [] {
      assert (es + [e])[1..] == es[1..] + [e];
      if es[0].key != k { IndexOfAppend(es[1..], e, k); }
    }
  }

  lemma {:induction false} IndexOfFresh(es: seq<Entry>, e: Entry)
    requires e.key !in KeysOf(es)
    ensures IndexOf(es + [e], e.key) == |es|
  {
    if es != [] {
      assert (es + [e])[1..] == es[1..] + [e];
      assert KeysOf(es)[0] == es[0].key;
      assert KeysOf(es[1..]) == KeysOf(es)[1..];
      IndexOfFresh(es[1..], e);
    }
  }

  /** The position of a key depends on the keys alone. */
  lemma {:induction false} IndexOfKeys(a: seq<Entry>, b: seq<Entry>, k: Key)
    requires KeysOf(a) == KeysOf(b)
    ensures IndexOf(a, k) == IndexOf(b, k)
  {
    if a != [] {
      assert a[0].key == KeysOf(a)[0] == KeysOf(b)[0] == b[0].key;
      assert KeysOf(a[1..]) == KeysOf(a)[1..];
      assert KeysOf(b[1..]) == KeysOf(b)[1..];
      IndexOfKeys(a[1..], b[1..], k);
    }
  }

  /**
   * PHP `empty()` (equivalently, "falsy"): null, false, 0, "", "0" and the
   * empty array.
   */
  predicate IsEmpty(v: Value)
  {
    match v
    case Null => true
    case Bool(b) => !b
    case Int(i) => i == 0
    case Str(s) => s == "" || s == "0"
    case Arr(es) => es == []
  }

  /**
   * `isset($v[$k])`: `$v` is an array holding `$k` with a non-null value.
   * Every use in the importer indexes a possible non-array with a
   * non-numeric string key, for which PHP's `isset` is false as well.
   */
  predicate Isset(v: Value, k: Key)
  {
    v.Arr? && var f := Find(v.entries, k); f.Some? && f.value != Null
  }

  /** `$v[$k]` for a key known to be set. */
  function Get(v: Value, k: Key): (r: Value)
    requires Isset(v, k)
    ensures r != Null && Find(v.entries, k) == Some(r)
  {
    Find(v.entries, k).value
  }

  /** `$v[$k]` with PHP's null for a missing key or a non-array. */
  function GetOrNull(v: Value, k: Key): (r: Value)
    ensures Isset(v, k) ==> r == Get(v, k)
    ensures !Isset(v, k) ==> r == Null
  {
    if Isset(v, k) then Get(v, k) else Null
  }

  /**
   * The array key PHP uses for `$a[$v]`: strings and ints as they are, null as
   * "", booleans as 0 and 1. An array cannot be a key (PHP throws a TypeError).
   */
  function AsKey(v: Value): (r: Option<Key>)
    ensures r.None? <==> v.Arr?
    ensures v.Str? ==> r == Some(StrKey(v.s))
    ensures v.Int? ==> r == Some(IntKey(v.i))
  {
    match v
    case Null => Some(StrKey(""))
    case Bool(b) => Some(IntKey(if b then 1 else 0))
    case Int(i) => Some(IntKey(i))
    case Str(s) => Some(StrKey(s))
    case Arr(_) => None
  }

  /** `isset($item[$k])` where the key is itself a value read from the mapping. */
  predicate IssetBy(item: Value, k: Value)
  {
    var key := AsKey(k); key.Some? && Isset(item, key.value)
  }
}
