/**
 * The in-memory key-value backend: one string-keyed table in insertion order,
 * whose keys flatten a store name and a key into decimal text.
 */
module KvStore {
  import opened Wrappers
  import opened Sequences
  import opened Bytes

  // ---- Decimal text ----

  function Digit(d: nat): (c: char)
    requires d < 10
    ensures c == "0123456789"[d]
  {
    ('0' as int + d) as char
  }

  function DigitValue(c: char): nat {
    if '0' <= c <= '9' then c as int - '0' as int else 0
  }

  /** Decimal notation. */
  function Dec(n: nat): (s: string)
    ensures s != "" && forall i :: 0 <= i < |s| ==> '0' <= s[i] <= '9'
  {
    if n < 10 then [Digit(n)] else Dec(n / 10) + [Digit(n % 10)]
  }

  function Number(s: string): nat {
    if s == "" then 0 else 10 * Number(s[..|s| - 1]) + DigitValue(s[|s| - 1])
  }

  lemma {:induction false} NumberOfDec(n: nat)
    ensures Number(Dec(n)) == n
  {
    if n >= 10 {
      NumberOfDec(n / 10);
      var s := Dec(n);
      assert s[..|s| - 1] == Dec(n / 10);
    } else {
      assert Dec(n)[..0] == "";
    }
  }

  /** Array.from(bytes).join(","). */
  function Join(b: Data): (s: string)
    ensures forall i :: 0 <= i < |s| ==> s[i] == ',' || '0' <= s[i] <= '9'
    ensures s == "" <==> b == []
  {
    if b == [] then "" else if |b| == 1 then Dec(b[0]) else Dec(b[0]) + "," + Join(b[1..])
  }

  function FirstComma(s: string, from: nat): (i: nat)
    requires from <= |s|
    ensures from <= i <= |s| && (i < |s| ==> s[i] == ',') && forall k :: from <= k < i ==> s[k] != ','
    decreases |s| - from
  {
    if from == |s| || s[from] == ',' then from else FirstComma(s, from + 1)
  }

  function Split(s: string): seq<string>
    decreases |s|
  {
    var i := FirstComma(s, 0);
    if i == |s| then [s] else [s[..i]] + Split(s[i + 1..])
  }

  function Bytes8(words: seq<string>): (b: Data)
    ensures |b| == |words| && forall i :: 0 <= i < |words| ==> b[i] == Number(words[i]) % 256
  {
    seq(|words|, i requires 0 <= i < |words| => Number(words[i]) % 256)
  }

  /** The bytes that a joined string stands for. */
  function Unjoin(s: string): Data {
    if s == "" then [] else Bytes8(Split(s))
  }

  lemma SplitOne(s: string)
    requires forall i :: 0 <= i < |s| ==> '0' <= s[i] <= '9'
    ensures Split(s) == [s]
  {
  }

  lemma SplitMore(s: string, rest: string)
    requires forall i :: 0 <= i < |s| ==> '0' <= s[i] <= '9'
    ensures Split(s + "," + rest) == [s] + Split(rest)
  {
    var all := s + "," + rest;
    var i := FirstComma(all, 0);
    assert all[|s|] == ',' && forall k :: 0 <= k < |s| ==> all[k] == s[k];
    assert i == |s|;
    assert all[..i] == s && all[i + 1..] == rest;
  }

  lemma UnjoinOne(n: byte)
    ensures Unjoin(Dec(n)) == [n]
  {
    hide Dec, Split, Number, Bytes8;
    SplitOne(Dec(n));
    NumberOfDec(n);
    Bytes8One(Dec(n));
  }

  lemma Bytes8One(w: string)
    ensures Bytes8([w]) == [Number(w) % 256]
  {
  }

  lemma UnjoinMore(n: byte, rest: string)
    requires rest != ""
    ensures Unjoin(Dec(n) + "," + rest) == [n] + Unjoin(rest)
  {
    hide Dec, Split, Number, Bytes8;
    SplitMore(Dec(n), rest);
    NumberOfDec(n);
    Bytes8Cons(Dec(n), Split(rest));
  }

  /** The key part decodes back. */
  lemma {:induction false} UnjoinOfJoin(b: Data)
    ensures Unjoin(Join(b)) == b
    decreases |b|
  {
    hide Dec, Unjoin;
    if b == [] {
      UnjoinNothing();
    } else if |b| == 1 {
      UnjoinOne(b[0]);
      assert b == [b[0]];
    } else {
      UnjoinMore(b[0], Join(b[1..]));
      UnjoinOfJoin(b[1..]);
      assert b == [b[0]] + b[1..];
    }
  }

  lemma UnjoinNothing()
    ensures Unjoin("") == []
  {
  }

  lemma Bytes8Cons(w: string, words: seq<string>)
    ensures Bytes8([w] + words) == [Number(w) % 256] + Bytes8(words)
  {
  }

  // ---- The flattened key ----

  function StorePart(store: Data): string {
    Dec(|store|) + ":" + Join(store) + "|"
  }

  function Composite(store: Data, key: Data): string {
    StorePart(store) + Join(key)
  }

  /** A separator that occurs in neither part splits a string in one way. */
  lemma CutIsUnique(x: string, y: string, sep: char, z: string)
    requires sep !in x && sep !in y && x + [sep] <= y + [sep] + z
    ensures x == y
  {
    var s, t := x + [sep], y + [sep] + z;
    assert s[|x|] == sep && t[|x|] == sep;
    assert |x| >= |y|;
    assert t[|y|] == sep && s[|y|] == sep;
    assert |x| == |y|;
    assert x == s[..|x|] == t[..|x|] == y;
  }

  /** A flattened key starts with the part of a store exactly when it belongs to that store. */
  lemma StorePartSelects(store: Data, store': Data, key: Data)
    ensures StorePart(store) <= Composite(store', key) <==> store == store'
  {
    if StorePart(store) <= Composite(store', key) {
      var x, y := Dec(|store|) + ":" + Join(store), Dec(|store'|) + ":" + Join(store');
      CutIsUnique(x, y, '|', Join(key));
      assert x == y;
      assert Dec(|store|) + [':'] <= x == Dec(|store'|) + [':'] + Join(store');
      CutIsUnique(Dec(|store|), Dec(|store'|), ':', Join(store'));
      assert Join(store) == x[|Dec(|store|)| + 1..] == Join(store');
      UnjoinOfJoin(store);
      UnjoinOfJoin(store');
    }
  }

  /** Different stores or keys never share a flattened key. */
  lemma CompositeInjective(store: Data, key: Data, store': Data, key': Data)
    requires Composite(store, key) == Composite(store', key')
    ensures store == store' && key == key'
  {
    assert StorePart(store) <= Composite(store, key);
    StorePartSelects(store, store', key');
    assert Join(key) == Composite(store, key)[|StorePart(store)|..] == Join(key');
    UnjoinOfJoin(key);
    UnjoinOfJoin(key');
  }

  // ---- The backend ----

  datatype Name = Name(store: Data, key: Data)

  /** The keys of `store` that start with `prefix`, in order of insertion. */
  ghost function Listing(order: seq<Name>, store: Data, prefix: Data): (r: seq<Data>) {
    if order == [] then [] else
    var last := order[|order| - 1];
    Listing(order[..|order| - 1], store, prefix) + if last.store == store && prefix <= last.key then [last.key] else []
  }

  lemma {:induction false} ListingIsExact(order: seq<Name>, store: Data, prefix: Data, key: Data)
    ensures key in Listing(order, store, prefix) <==> prefix <= key && Name(store, key) in order
  {
    if order == [] {
    } else {
      var n := |order| - 1;
      ListingIsExact(order[..n], store, prefix, key);
      assert order == order[..n] + [order[n]];
    }
  }

  lemma {:induction false} ListingOnce(order: seq<Name>, store: Data, prefix: Data)
    requires Distinct(order)
    ensures Distinct(Listing(order, store, prefix))
  {
    if order == [] {
    } else {
      var n := |order| - 1;
      var last := order[n];
      ListingOnce(order[..n], store, prefix);
      ListingIsExact(order[..n], store, prefix, last.key);
      if last.store == store && prefix <= last.key {
        assert last !in order[..n];
        DistinctSnoc(Listing(order[..n], store, prefix), last.key);
      }
    }
  }

  function Flatten(n: Name): string { Composite(n.store, n.key) }

  /** The table, its keys in order, stands for the names in order and their values. */
  ghost predicate Stands(keys: seq<string>, values: map<string, Data>, order: seq<Name>, model: map<Name, Data>) {
    && |keys| == |order| && Distinct(order)
    && (forall i :: 0 <= i < |order| ==> StandsAt(keys[i], values, order[i], model))
    && (forall n :: n in model ==> n in order) && (forall k :: k in values ==> k in keys)
  }

  ghost predicate StandsAt(k: string, values: map<string, Data>, n: Name, model: map<Name, Data>) {
    k == Flatten(n) && n in model && k in values && values[k] == model[n]
  }

  lemma StandsLookup(keys: seq<string>, values: map<string, Data>, order: seq<Name>, model: map<Name, Data>, n: Name)
    requires Stands(keys, values, order, model)
    ensures Flatten(n) in values <==> n in model
    ensures n in model ==> values[Flatten(n)] == model[n]
  {
    hide Flatten;
    if n in model {
      var i :| 0 <= i < |order| && order[i] == n;
      assert StandsAt(keys[i], values, order[i], model);
    }
    if Flatten(n) in values {
      var i :| 0 <= i < |keys| && keys[i] == Flatten(n);
      assert StandsAt(keys[i], values, order[i], model);
      FlattenInjective(n, order[i]);
    }
  }

  lemma FlattenInjective(m: Name, n: Name)
    requires Flatten(m) == Flatten(n)
    ensures m == n
  {
    CompositeInjective(m.store, m.key, n.store, n.key);
  }

  lemma StandsFinds(keys: seq<string>, values: map<string, Data>, order: seq<Name>, model: map<Name, Data>, n: Name)
    requires Stands(keys, values, order, model) && Flatten(n) in values
    ensures exists i :: 0 <= i < |keys| && keys[i] == Flatten(n)
  {
    hide Flatten;
    assert Flatten(n) in keys;
  }

  lemma StandsNamed(keys: seq<string>, values: map<string, Data>, order: seq<Name>, model: map<Name, Data>, n: Name,
                    i: nat)
    requires Stands(keys, values, order, model) && i < |keys| && keys[i] == Flatten(n)
    ensures |keys| == |order| && order[i] == n
  {
    hide Flatten;
    assert StandsAt(keys[i], values, order[i], model);
    FlattenInjective(n, order[i]);
  }

  lemma StandsPutAt(k: string, values: map<string, Data>, m: Name, model: map<Name, Data>, n: Name, v: Data)
    requires StandsAt(k, values, m, model)
    ensures StandsAt(k, values[Flatten(n) := v], m, model[n := v])
  {
    hide Flatten;
    if k == Flatten(n) { FlattenInjective(n, m); }
  }

  lemma StandsPut(keys: seq<string>, values: map<string, Data>, order: seq<Name>, model: map<Name, Data>, n: Name,
                  v: Data)
    requires Stands(keys, values, order, model)
    ensures var c := Flatten(n); var isNew := n !in model;
            Stands(if isNew then keys + [c] else keys, values[c := v], if isNew then order + [n] else order,
                model[n := v])
  {
    hide Stands, StandsAt, Flatten, Distinct;
    StandsParts(keys, values, order, model);
    StandsLookup(keys, values, order, model, n);
    NotInOrder(keys, values, order, model, n);
    var c := Flatten(n);
    var keys', order' := if n !in model then keys + [c] else keys, if n !in model then order + [n] else order;
    forall i | 0 <= i < |order'| ensures StandsAt(keys'[i], values[c := v], order'[i], model[n := v]) {
      if i < |order| {
        assert keys'[i] == keys[i] && order'[i] == order[i];
        StandsPutIndex(keys, values, order, model, n, v, i);
      } else {
        assert keys'[i] == c && order'[i] == n;
        NewStands(values, model, n, v);
      }
    }
    if n !in model { DistinctSnoc(order, n); }
    StandsMade(keys', values[c := v], order', model[n := v]);
  }

  lemma StandsPutIndex(keys: seq<string>, values: map<string, Data>, order: seq<Name>, model: map<Name, Data>,
                       n: Name, v: Data, i: nat)
    requires Stands(keys, values, order, model) && i < |order|
    ensures StandsAt(keys[i], values[Flatten(n) := v], order[i], model[n := v])
  {
    hide StandsAt, Flatten, Distinct;
    StandsPutAt(keys[i], values, order[i], model, n, v);
  }

  lemma NewStands(values: map<string, Data>, model: map<Name, Data>, n: Name, v: Data)
    ensures StandsAt(Flatten(n), values[Flatten(n) := v], n, model[n := v])
  {
    hide Flatten;
  }

  lemma NotInOrder(keys: seq<string>, values: map<string, Data>, order: seq<Name>, model: map<Name, Data>, n: Name)
    requires Stands(keys, values, order, model)
    ensures n in order <==> n in model
  {
    hide Flatten, Distinct;
    forall i | 0 <= i < |order| ensures order[i] in model { assert StandsAt(keys[i], values, order[i], model); }
  }

  lemma StandsDeleteAt(k: string, values: map<string, Data>, m: Name, model: map<Name, Data>, n: Name)
    requires StandsAt(k, values, m, model) && m != n
    ensures StandsAt(k, values - {Flatten(n)}, m, model - {n})
  {
    hide Flatten;
    if k == Flatten(n) {
      FlattenInjective(n, m);
    }
  }

  lemma StandsParts(keys: seq<string>, values: map<string, Data>, order: seq<Name>, model: map<Name, Data>)
    requires Stands(keys, values, order, model)
    ensures |keys| == |order| && Distinct(order)
    ensures forall n :: n in model ==> n in order
    ensures forall k :: k in values ==> k in keys
  {
    hide StandsAt, Distinct;
  }

  lemma StandsDeleteIndex(keys: seq<string>, values: map<string, Data>, order: seq<Name>, model: map<Name, Data>,
                          i: nat, j: nat)
    requires Stands(keys, values, order, model) && i < |order| && j < |order| && i != j
    ensures StandsAt(keys[j], values - {keys[i]}, order[j], model - {order[i]})
  {
    assert StandsAt(keys[i], values, order[i], model) && StandsAt(keys[j], values, order[j], model);
    assert order[i] != order[j];
    hide Stands, Flatten;
    StandsDeleteAt(keys[j], values, order[j], model, order[i]);
  }

  lemma StandsDelete(keys: seq<string>, values: map<string, Data>, order: seq<Name>, model: map<Name, Data>, i: nat)
    requires Stands(keys, values, order, model) && i < |order|
    ensures Stands(Without(keys, i), values - {keys[i]}, Without(order, i), model - {order[i]})
  {
    hide Stands, StandsAt, Distinct;
    StandsParts(keys, values, order, model);
    var keys', order' := Without(keys, i), Without(order, i);
    forall j | 0 <= j < |order'| ensures StandsAt(keys'[j], values - {keys[i]}, order'[j], model - {order[i]}) {
      var j' := if j < i then j else j + 1;
      assert keys'[j] == keys[j'] && order'[j] == order[j'];
      StandsDeleteIndex(keys, values, order, model, i, j');
    }
    DistinctWithout(order, i);
    forall m | m in model - {order[i]} ensures m in order' { WithoutKeeps(order, i, m); }
    forall k | k in values - {keys[i]} ensures k in keys' { WithoutKeeps(keys, i, k); }
    StandsMade(keys', values - {keys[i]}, order', model - {order[i]});
  }

  lemma StandsMade(keys: seq<string>, values: map<string, Data>, order: seq<Name>, model: map<Name, Data>)
    requires |keys| == |order| && Distinct(order)
    requires forall i :: 0 <= i < |order| ==> StandsAt(keys[i], values, order[i], model)
    requires (forall n :: n in model ==> n in order) && (forall k :: k in values ==> k in keys)
    ensures Stands(keys, values, order, model)
  {
    hide StandsAt, Distinct;
  }

  class InMemoryKv {
    // The table of the source is one map that keeps insertion order: its keys in order, and their values.
    var keys: seq<string>
    var values: map<string, Data>
    ghost var order: seq<Name>
    ghost var model: map<Name, Data>

    ghost predicate Valid()
      reads this
    {
      Stands(keys, values, order, model)
    }

    constructor ()
      ensures Valid() && order == [] && model == map[]
    {
      keys, values, order, model := [], map[], [], map[];
    }

    method Get(store: Data, key: Data) returns (r: Result<Data>)
      requires Valid()
      ensures r == if Name(store, key) in model then Ok(model[Name(store, key)]) else Err(2)
    {
      hide Stands, Composite;
      StandsLookup(keys, values, order, model, Name(store, key));
      var c := Composite(store, key);
      if c in values {
        return Ok(values[c]);
      }
      return Err(ENOENT);
    }

    /** A new name goes to the end; an old one keeps its place. */
    method Put(store: Data, key: Data, value: Data)
      requires Valid()
      modifies this
      ensures Valid() && model == old(model)[Name(store, key) := value]
      ensures order == if Name(store, key) in old(model) then old(order) else old(order) + [Name(store, key)]
    {
      hide Stands, Composite;
      ghost var n := Name(store, key);
      StandsLookup(keys, values, order, model, n);
      StandsPut(keys, values, order, model, n, value);
      var c := Composite(store, key);
      if c !in values {
        keys, order := keys + [c], order + [n];
      }
      values, model := values[c := value], model[n := value];
    }

    /** The name leaves the table; deleting a missing name changes nothing. */
    method Delete(store: Data, key: Data)
      requires Valid()
      modifies this
      ensures Valid() && model == old(model) - {Name(store, key)}
      ensures Name(store, key) !in old(model) ==> order == old(order)
      ensures Name(store, key) in old(model) ==>
                exists i :: 0 <= i < |old(order)| && old(order)[i] == Name(store, key) &&
                    order == Without(old(order), i)
    {
      hide Composite, Without, Stands;
      ghost var n := Name(store, key);
      StandsLookup(keys, values, order, model, n);
      var c := Composite(store, key);
      if c in values {
        StandsFinds(keys, values, order, model, n);
        var i :| 0 <= i < |keys| && keys[i] == c;
        StandsNamed(keys, values, order, model, n, i);
        StandsDelete(keys, values, order, model, i);
        keys, values := Without(keys, i), values - {c};
        order, model := Without(order, i), model - {n};
      } else {
        assert model - {n} == model;
      }
    }

    /** Exactly the keys of the store with the prefix, each once, in order of insertion. */
    method List(store: Data, prefix: Data) returns (out: seq<Data>)
      requires Valid()
      ensures out == Listing(order, store, prefix)
    {
      hide Stands, Composite, StorePart, Join, Unjoin, Listing;
      var sPart := StorePart(store);
      out := [];
      SameLength(keys, values, order, model, store, prefix);
      for n := 0 to |keys|
        invariant out == Listing(order[..n], store, prefix)
      {
        KeyAt(keys, values, order, model, n);
        ListingStep(order, n, store, prefix);
        var k := keys[n];
        StorePartSelects(store, order[n].store, order[n].key);
        if sPart <= k {
          KeyPart(order[n].store, order[n].key);
          var keyBytes := Unjoin(k[|sPart|..]);
          var starts := StartsWith(keyBytes, prefix);
          if starts {
            out := out + [keyBytes];
          }
        }
      }
    }
  }

  lemma SameLength(keys: seq<string>, values: map<string, Data>, order: seq<Name>, model: map<Name, Data>,
                   store: Data, prefix: Data)
    requires Stands(keys, values, order, model)
    ensures |keys| == |order| && order[..|order|] == order && Listing(order[..0], store, prefix) == []
  {
  }

  lemma KeyAt(keys: seq<string>, values: map<string, Data>, order: seq<Name>, model: map<Name, Data>, n: nat)
    requires Stands(keys, values, order, model) && n < |order|
    ensures keys[n] == Composite(order[n].store, order[n].key)
  {
    hide Composite;
    assert StandsAt(keys[n], values, order[n], model);
  }

  lemma ListingStep(order: seq<Name>, n: nat, store: Data, prefix: Data)
    requires n < |order|
    ensures Listing(order[..n + 1], store, prefix) == Listing(order[..n], store, prefix) +
            if order[n].store == store && prefix <= order[n].key then [order[n].key] else []
  {
    assert order[..n + 1][..n] == order[..n];
  }

  /** The byte by byte test; a missing byte counts as different. */
  method StartsWith(b: Data, prefix: Data) returns (starts: bool)
    ensures starts <==> prefix <= b
  {
    for i := 0 to |prefix|
      invariant i <= |b| && prefix[..i] == b[..i]
    {
      if i >= |b| || b[i] != prefix[i] {
        return false;
      }
    }
    return true;
  }

  lemma KeyPart(store: Data, key: Data)
    ensures |StorePart(store)| <= |Composite(store, key)|
    ensures Unjoin(Composite(store, key)[|StorePart(store)|..]) == key
  {
    assert Composite(store, key)[|StorePart(store)|..] == Join(key);
    UnjoinOfJoin(key);
  }
}
