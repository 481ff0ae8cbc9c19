// infparser/case_insensitive_dict.py: a dictionary whose lookups ignore
// case but which keeps each key's case, plus a trie of the lower-case keys
// for prefix queries. The entries are kept in insertion order, one order a
// Python 2 dictionary may iterate in.
module CaseInsensitive {
  import opened Wrappers
  import opened PyStr

  /**
   * One entry of `_dict`: the key as stored (its case kept) and the
   * lower-case form that its hash and equality use.
   */
  datatype Entry<V> = Entry(folded: string, key: string, value: V)

  /** The entries of the dictionary part, in insertion order. */
  type Entries<V> = seq<Entry<V>>

  /** Every entry's folded form is its key in lower case. */
  predicate Folded<V>(es: Entries<V>)
  {
    forall i :: 0 <= i < |es| ==> es[i].folded == Lower(es[i].key)
  }

  /** No two keys are equal ignoring case. */
  predicate KeysDistinct<V>(es: Entries<V>)
  {
    forall i, j :: 0 <= i < j < |es| ==> es[i].folded != es[j].folded
  }

  /** The keys in lower case: the keys of the trie. */
  function LowerKeys<V>(es: Entries<V>): (r: set<string>)
    ensures forall k :: k in r <==> exists i :: 0 <= i < |es| && es[i].folded == k
  {
    set i | 0 <= i < |es| :: es[i].folded
  }

  /** Where the key folding to `f` is stored, or -1. */
  function IndexOf<V>(es: Entries<V>, f: string): (r: int)
    ensures -1 <= r < |es|
    ensures r >= 0 ==> es[r].folded == f
    ensures r == -1 <==> forall i :: 0 <= i < |es| ==> es[i].folded != f
  {
    if es == [] then -1
    else if es[|es| - 1].folded == f then |es| - 1
    else IndexOf(es[..|es| - 1], f)
  }

  /** `key in d` (and `d.has_key(key)`): the comparison is on `key.lower()`. */
  predicate HasKey<V>(es: Entries<V>, key: string)
  {
    IndexOf(es, Lower(key)) >= 0
  }

  /** `d[key]`, KeyError when no key equals `key` ignoring case. */
  function Lookup<V>(es: Entries<V>, key: string): (r: Result<V>)
    ensures r.Ok? <==> Lower(key) in LowerKeys(es)
    ensures r.Ok? ==> exists i :: 0 <= i < |es| && es[i].folded == Lower(key) && es[i].value == r.value
    ensures r.Fail? ==> r.error == KeyError
  {
    var i := IndexOf(es, Lower(key));
    if i < 0 then Fail(KeyError) else Ok(es[i].value)
  }

  /**
   * `d[key] = value`: the value of a key already present (ignoring case)
   * is replaced and the stored key keeps its case; a new key is appended.
   */
  function Store<V>(es: Entries<V>, key: string, value: V): (r: Entries<V>)
    ensures LowerKeys(r) == LowerKeys(es) + {Lower(key)}
    ensures Folded(es) ==> Folded(r)
    ensures KeysDistinct(es) ==> KeysDistinct(r)
  {
    var i := IndexOf(es, Lower(key));
    if i < 0 then
      var r := es + [Entry(Lower(key), key, value)];
      assert forall m :: 0 <= m < |es| ==> r[m] == es[m] && es[m].folded != r[|es|].folded;
      r
    else
      var r := es[i := es[i].(value := value)];
      assert forall m :: 0 <= m < |r| ==> r[m].folded == es[m].folded && r[m].key == es[m].key;
      r
  }

  /** After a store, the stored key finds the new value and every other key what it found before. */
  lemma StoreLookup<V>(es: Entries<V>, key: string, value: V, k: string)
    ensures Lookup(Store(es, key, value), k) == if Lower(k) == Lower(key) then Ok(value) else Lookup(es, k)
  {
    var i := IndexOf(es, Lower(key));
    var r := Store(es, key, value);
    if i < 0 {
      assert r[..|r| - 1] == es;
    } else {
      IndexOfUpdate(es, i, value, Lower(k));
    }
  }

  /** Changing a value leaves every key's position where it was. */
  lemma {:induction false} IndexOfUpdate<V>(es: Entries<V>, i: nat, value: V, f: string)
    requires i < |es|
    ensures IndexOf(es[i := es[i].(value := value)], f) == IndexOf(es, f)
  {
    var r := es[i := es[i].(value := value)];
    if i < |es| - 1 {
      assert r[..|r| - 1] == es[..|es| - 1][i := es[i].(value := value)];
      IndexOfUpdate(es[..|es| - 1], i, value, f);
    } else {
      assert r[..|r| - 1] == es[..|es| - 1];
    }
  }

  /** `del d[key]`: KeyError when the key is absent; otherwise its entry goes. */
  function Remove<V>(es: Entries<V>, key: string): (r: Result<Entries<V>>)
    ensures r.Fail? <==> !HasKey(es, key)
    ensures r.Fail? ==> r.error == KeyError
    ensures r.Ok? ==> |r.value| == |es| - 1 && forall e :: e in r.value ==> e in es
  {
    var i := IndexOf(es, Lower(key));
    if i < 0 then Fail(KeyError) else Ok(es[..i] + es[i + 1..])
  }

  /** Removal keeps the keys folded and distinct, and drops exactly the removed key. */
  lemma RemoveKeys<V>(es: Entries<V>, key: string)
    requires Folded(es) && KeysDistinct(es) && HasKey(es, key)
    ensures Folded(Remove(es, key).value) && KeysDistinct(Remove(es, key).value)
    ensures LowerKeys(Remove(es, key).value) == LowerKeys(es) - {Lower(key)}
  {
    var i := IndexOf(es, Lower(key));
    var r := es[..i] + es[i + 1..];
    RemoveShift(es, i);
    forall j | 0 <= j < |r| ensures r[j].folded == Lower(r[j].key)
    {
      assert r[j] == es[Shift(i, j)];
    }
    RemoveDistinct(es, i);
    RemoveLowerKeys(es, i);
  }

  lemma RemoveShift<V>(es: Entries<V>, i: nat)
    requires i < |es|
    ensures forall j :: 0 <= j < |es| - 1 ==> (es[..i] + es[i + 1..])[j] == es[Shift(i, j)]
  {
  }

  lemma RemoveDistinct<V>(es: Entries<V>, i: nat)
    requires i < |es| && KeysDistinct(es)
    ensures KeysDistinct(es[..i] + es[i + 1..])
  {
    var r := es[..i] + es[i + 1..];
    RemoveShift(es, i);
    forall a, b | 0 <= a < b < |r| ensures r[a].folded != r[b].folded
    {
      assert r[a] == es[Shift(i, a)] && r[b] == es[Shift(i, b)];
    }
  }

  lemma RemoveLowerKeys<V>(es: Entries<V>, i: nat)
    requires i < |es| && KeysDistinct(es)
    ensures LowerKeys(es[..i] + es[i + 1..]) == LowerKeys(es) - {es[i].folded}
  {
    var r := es[..i] + es[i + 1..];
    RemoveShift(es, i);
    forall k | k in LowerKeys(r) ensures k in LowerKeys(es) - {es[i].folded}
    {
      var j :| 0 <= j < |r| && r[j].folded == k;
      assert r[j] == es[Shift(i, j)] && Shift(i, j) != i;
    }
    forall k | k in LowerKeys(es) - {es[i].folded} ensures k in LowerKeys(r)
    {
      var j :| 0 <= j < |es| && es[j].folded == k;
      var m := if j < i then j else j - 1;
      assert r[m] == es[j];
    }
  }

  /** The position in the list before a removal at `i` of what is now at `j`. */
  function Shift(i: nat, j: nat): nat
  {
    if j < i then j else j + 1
  }

  /** Without the removed entry, every other key still finds its value. */
  lemma RemoveLookup<V>(es: Entries<V>, key: string, k: string)
    requires KeysDistinct(es) && HasKey(es, key)
    ensures Lookup(Remove(es, key).value, k) == if Lower(k) == Lower(key) then Fail(KeyError) else Lookup(es, k)
  {
    var i := IndexOf(es, Lower(key));
    var r := es[..i] + es[i + 1..];
    assert Remove(es, key).value == r;
    RemoveShift(es, i);
    RemoveDistinct(es, i);
    if Lower(k) == Lower(key) {
      forall m | 0 <= m < |r| ensures r[m].folded != Lower(k)
      {
        assert r[m] == es[Shift(i, m)];
      }
    } else if HasKey(es, k) {
      var j := IndexOf(es, Lower(k));
      var m := if j < i then j else j - 1;
      assert r[m] == es[j];
      UniqueIndex(r, m, Lower(k));
    } else {
      forall m | 0 <= m < |r| ensures r[m].folded != Lower(k)
      {
        assert r[m] == es[Shift(i, m)];
      }
    }
  }

  /** Among distinct keys, the one folding to `f` is the one the lookup finds. */
  lemma UniqueIndex<V>(es: Entries<V>, m: nat, f: string)
    requires KeysDistinct(es) && m < |es| && es[m].folded == f
    ensures IndexOf(es, f) == m
  {
  }

  /** Distinct keys: one trie key per entry. */
  lemma {:induction false} LowerKeysCount<V>(es: Entries<V>)
    requires KeysDistinct(es)
    ensures |LowerKeys(es)| == |es|
  {
    if es != [] {
      var init := es[..|es| - 1];
      LowerKeysCount(init);
      assert LowerKeys(es) == LowerKeys(init) + {es[|es| - 1].folded};
      assert es[|es| - 1].folded !in LowerKeys(init);
    }
  }

  /** `prefixed_keys(prefix)`: the lower-case keys that start with the lower-cased prefix. */
  function PrefixedKeysOf<V>(es: Entries<V>, prefix: string): (r: set<string>)
    ensures forall k :: k in r <==> k in LowerKeys(es) && StartsWith(k, Lower(prefix))
  {
    set k | k in LowerKeys(es) && StartsWith(k, Lower(prefix))
  }

  class CaseInsensitiveDict<V> {
    /** `_dict`. */
    var entries: Entries<V>
    /** `_trie`, keyed by `key.lower()`. */
    var trie: map<string, V>

    /** The two halves hold the same keys and values. */
    ghost predicate Valid()
      reads this
    {
      Mirrors(entries, trie)
    }

    /** `CaseInsensitiveDict()`: empty. */
    constructor()
      ensures Valid() && entries == [] && trie == map[]
    {
      entries := [];
      trie := map[];
    }

    /** `__contains__` and `has_key`. */
    function Contains(key: string): (r: bool)
      reads this
      ensures r <==> Lower(key) in LowerKeys(entries)
    {
      HasKey(entries, key)
    }

    /** `__getitem__`. */
    function Get(key: string): (r: Result<V>)
      reads this
      requires Valid()
      ensures r.Ok? <==> Lower(key) in trie
      ensures r.Ok? ==> r.value == trie[Lower(key)]
      ensures r.Fail? ==> r.error == KeyError
    {
      Lookup(entries, key)
    }

    /** `__len__`: the number of keys that differ ignoring case. */
    function Len(): (r: nat)
      reads this
      requires Valid()
      ensures r == |LowerKeys(entries)| && r == |trie|
    {
      LowerKeysCount(entries);
      |entries|
    }

    /** `prefixed_keys`, read from the trie. */
    function PrefixedKeys(prefix: string): (r: set<string>)
      reads this
      requires Valid()
      ensures r == PrefixedKeysOf(entries, prefix)
    {
      set k | k in trie && StartsWith(k, Lower(prefix))
    }

    /** `__setitem__`: both halves get the new value. */
    method Set(key: string, value: V)
      requires Valid()
      modifies this
      ensures Valid()
      ensures entries == Store(old(entries), key, value) && trie == old(trie)[Lower(key) := value]
    {
      StoreValid(entries, trie, key, value);
      entries := Store(entries, key, value);
      trie := trie[Lower(key) := value];
    }

    /** `__delitem__`: KeyError for an absent key, else the key leaves both halves. */
    method Del(key: string) returns (o: Outcome)
      requires Valid()
      modifies this
      ensures Valid()
      ensures o.Raise? <==> Lower(key) !in old(trie)
      ensures o.Raise? ==> o.error == KeyError && entries == old(entries) && trie == old(trie)
      ensures o.Pass? ==> Remove(old(entries), key) == Ok(entries) && trie == old(trie) - {Lower(key)}
    {
      if Lower(key) !in trie {
        return Raise(KeyError);
      }
      RemoveValid(entries, trie, key);
      entries := Remove(entries, key).value;
      trie := trie - {Lower(key)};
      return Pass;
    }
  }

  /** The dictionary invariant, on values: the trie maps each folded key to its value. */
  ghost predicate Mirrors<V>(es: Entries<V>, trie: map<string, V>)
  {
    Folded(es) && KeysDistinct(es) && trie.Keys == LowerKeys(es) &&
    forall i :: 0 <= i < |es| ==> es[i].folded in trie && trie[es[i].folded] == es[i].value
  }

  lemma StoreValid<V>(es: Entries<V>, trie: map<string, V>, key: string, value: V)
    requires Mirrors(es, trie)
    ensures Mirrors(Store(es, key, value), trie[Lower(key) := value])
  {
    var r := Store(es, key, value);
    var t := trie[Lower(key) := value];
    var i := IndexOf(es, Lower(key));
    forall m | 0 <= m < |r| ensures r[m].folded in t && t[r[m].folded] == r[m].value
    {
      if m == i || m == |es| {
        assert r[m].folded == Lower(key) && r[m].value == value;
      } else {
        assert r[m] == es[m];
        assert es[m].folded != Lower(key) by {
          if i >= 0 {
            assert m != i;
          }
        }
      }
    }
    assert t.Keys == LowerKeys(r);
  }

  lemma RemoveValid<V>(es: Entries<V>, trie: map<string, V>, key: string)
    requires Mirrors(es, trie) && Lower(key) in trie
    ensures HasKey(es, key)
    ensures Mirrors(Remove(es, key).value, trie - {Lower(key)})
  {
    assert Lower(key) in LowerKeys(es);
    var i := IndexOf(es, Lower(key));
    var r := es[..i] + es[i + 1..];
    var t := trie - {Lower(key)};
    assert Remove(es, key).value == r;
    RemoveKeys(es, key);
    assert t.Keys == LowerKeys(r);
    RemoveValues(es, trie, i, r, t);
  }

  lemma RemoveValues<V>(es: Entries<V>, trie: map<string, V>, i: nat, r: Entries<V>, t: map<string, V>)
    requires i < |es| && KeysDistinct(es) && r == es[..i] + es[i + 1..] && t == trie - {es[i].folded}
    requires forall j :: 0 <= j < |es| ==> es[j].folded in trie && trie[es[j].folded] == es[j].value
    ensures forall m :: 0 <= m < |r| ==> r[m].folded in t && t[r[m].folded] == r[m].value
  {
    RemoveShift(es, i);
    forall m | 0 <= m < |r| ensures r[m].folded in t && t[r[m].folded] == r[m].value
    {
      assert r[m] == es[Shift(i, m)] && Shift(i, m) != i;
    }
  }
}
