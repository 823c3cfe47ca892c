/**
  The hash table that indexes an ad: buckets are chains, new entries go to the front of a chain, and the
  table grows when it is four fifths full, which moves the entries one by one and reverses chains.
 */
module AttrHash {
  import opened Options
  import opened ClassAdOperators
  import opened AttrListModel

  const WORD := 0x1_0000_0000

  /** `torekHash`: 33 times the hash plus the next character in lower case, in 32 bits. */
  function TorekHash(s: string, hash: nat := 0): (h: nat)
    requires hash < WORD
    ensures h < WORD
    decreases |s|
  {
    if s == "" then hash
    else TorekHash(s[1..], (hash * 33 + Lower(s[0]) as int % 256) % WORD)
  }

  /** Names that differ only in case hash alike. */
  lemma {:induction false} HashAgrees(a: string, b: string, hash: nat)
    requires Same(a, b) && hash < WORD
    ensures TorekHash(a, hash) == TorekHash(b, hash)
    decreases |a|
  {
    if a != "" {
      assert LowerAll(a)[0] == Lower(a[0]) && LowerAll(b)[0] == Lower(b[0]);
      assert LowerAll(a)[1..] == LowerAll(a[1..]) && LowerAll(b)[1..] == LowerAll(b[1..]);
      HashAgrees(a[1..], b[1..], (hash * 33 + Lower(a[0]) as int % 256) % WORD);
    }
  }

  datatype Entry<V> = Entry(key: string, value: V)
  type Chain<V> = seq<Entry<V>>
  type Table<V> = t: seq<Chain<V>> | t != [] witness [[]]

  function Index<V>(t: Table<V>, key: string): (i: nat)
    ensures i < |t|
  {
    TorekHash(key) % |t|
  }

  /** The first entry of a chain with that key. */
  function InChain<V>(c: Chain<V>, key: string): Option<V> {
    if c == [] then None
    else if Same(c[0].key, key) then Some(c[0].value)
    else InChain(c[1..], key)
  }

  function Lookup<V>(t: Table<V>, key: string): Option<V> {
    InChain(t[Index(t, key)], key)
  }

  /** Every entry is in the chain its key hashes to. */
  ghost predicate Placed<V>(t: Table<V>) {
    forall i, e | 0 <= i < |t| && e in t[i] :: Index(t, e.key) == i
  }

  ghost predicate UniqueKeys<V>(c: Chain<V>) {
    forall i, j | 0 <= i < j < |c| :: !Same(c[i].key, c[j].key)
  }

  ghost predicate Valid<V>(t: Table<V>) {
    Placed(t) && forall i | 0 <= i < |t| :: UniqueKeys(t[i])
  }

  /** All entries, chain by chain. */
  function Flat<V>(t: seq<Chain<V>>): Chain<V> {
    if t == [] then [] else t[0] + Flat(t[1..])
  }

  /** In front of the chain, whatever is there. */
  function Push<V>(t: Table<V>, e: Entry<V>): Table<V> {
    t[Index(t, e.key) := [e] + t[Index(t, e.key)]]
  }

  function PushAll<V>(t: Table<V>, c: Chain<V>): Table<V>
    decreases c
  {
    if c == [] then t else PushAll(Push(t, c[0]), c[1..])
  }

  function Empty<V>(size: nat): (t: Table<V>)
    requires size > 0
    ensures |t| == size && forall i | 0 <= i < size :: t[i] == []
  {
    seq(size, i => [])
  }

  function Grow<V>(t: Table<V>): Table<V> {
    PushAll(Empty((|t| + 1) * 2 - 1), Flat(t))
  }

  function Add<V>(t: Table<V>, count: nat, key: string, value: V): Table<V> {
    var added := Push(t, Entry(key, value));
    if 5 * (count + 1) >= 4 * |t| then Grow(added) else added
  }

  function Drop<V>(c: Chain<V>, key: string): Chain<V> {
    if c == [] then []
    else if Same(c[0].key, key) then c[1..]
    else [c[0]] + Drop(c[1..], key)
  }

  function Remove<V>(t: Table<V>, key: string): Table<V> {
    t[Index(t, key) := Drop(t[Index(t, key)], key)]
  }

  /***** Chains *****/

  lemma {:induction false} InChainAppend<V>(a: Chain<V>, b: Chain<V>, key: string)
    ensures InChain(a + b, key) == if InChain(a, key).Some? then InChain(a, key) else InChain(b, key)
  {
    if a == [] {
      assert a + b == b;
    } else {
      assert (a + b)[1..] == a[1..] + b;
      InChainAppend(a[1..], b, key);
    }
  }

  lemma {:induction false} InChainMember<V>(c: Chain<V>, key: string)
    ensures InChain(c, key).Some? <==> exists i :: 0 <= i < |c| && Same(c[i].key, key)
  {
    if c != [] && !Same(c[0].key, key) {
      InChainMember(c[1..], key);
      if i :| 0 <= i < |c[1..]| && Same(c[1..][i].key, key) {
        assert Same(c[i + 1].key, key);
      }
      assert forall i | 1 <= i < |c| :: c[i] == c[1..][i - 1];
    }
  }

  lemma {:induction false} DropSets<V>(c: Chain<V>, key: string, other: string)
    requires UniqueKeys(c)
    ensures UniqueKeys(Drop(c, key)) && forall e | e in Drop(c, key) :: e in c
    ensures InChain(Drop(c, key), other) == if Same(other, key) then None else InChain(c, other)
  {
    hide Same;
    SameIsEquivalence();
    if c != [] {
      assert c == [c[0]] + c[1..];
      assert forall e | e in c[1..] :: !Same(c[0].key, e.key);
      if Same(c[0].key, key) {
        InChainMember(c[1..], other);
      } else {
        DropSets(c[1..], key, other);
        var rest := Drop(c[1..], key);
        assert Drop(c, key)[1..] == rest;
        assert forall i | 0 <= i < |rest| :: rest[i] in c[1..];
      }
    }
  }

  /***** Tables *****/

  lemma SameIndex<V>(t: Table<V>, a: string, b: string)
    requires Same(a, b)
    ensures Index(t, a) == Index(t, b)
  {
    HashAgrees(a, b, 0);
  }

  /** A new key: it is found, and everything else as before. */
  lemma PushSets<V>(t: Table<V>, e: Entry<V>, key: string)
    requires Valid(t) && Lookup(t, e.key).None?
    ensures Valid(Push(t, e))
    ensures Lookup(Push(t, e), key) == if Same(key, e.key) then Some(e.value) else Lookup(t, key)
  {
    hide TorekHash, Same;
    var i := Index(t, e.key);
    InChainMember(t[i], e.key);
    SameIsEquivalence();
    if Same(key, e.key) {
      SameIndex(t, key, e.key);
    }
    assert ([e] + t[i])[1..] == t[i];
  }

  lemma SameIsEquivalence()
    ensures forall a, b :: Same(a, b) == Same(b, a)
    ensures forall a, b, c :: Same(a, b) && Same(b, c) ==> Same(a, c)
  {
  }

  lemma RemoveSets<V>(t: Table<V>, key: string, other: string)
    requires Valid(t)
    ensures Valid(Remove(t, key))
    ensures Lookup(Remove(t, key), other) == if Same(other, key) then None else Lookup(t, other)
  {
    hide TorekHash, Same, Drop;
    var i := Index(t, key);
    DropSets(t[i], key, other);
    if Same(other, key) {
      SameIndex(t, other, key);
    }
  }

  /***** Growing *****/

  lemma {:induction false} FlatLookup<V>(t: Table<V>, from: nat, key: string)
    requires Valid(t) && from <= |t|
    ensures InChain(Flat(t[from..]), key) == if from <= Index(t, key) then Lookup(t, key) else None
    decreases |t| - from
  {
    hide TorekHash, Same;
    if from < |t| {
      FlatLookup(t, from + 1, key);
      assert t[from..][1..] == t[from + 1..];
      InChainAppend(t[from], Flat(t[from + 1..]), key);
      if from != Index(t, key) {
        NotInChain(t, from, key);
      }
    }
  }

  /** A key is in no chain but its own. */
  lemma NotInChain<V>(t: Table<V>, i: nat, key: string)
    requires Placed(t) && i < |t| && i != Index(t, key)
    ensures InChain(t[i], key).None?
  {
    hide TorekHash, Same;
    InChainMember(t[i], key);
    forall j | 0 <= j < |t[i]|
      ensures !Same(t[i][j].key, key)
    {
      assert t[i][j] in t[i];
      if Same(t[i][j].key, key) {
        SameIndex(t, t[i][j].key, key);
      }
    }
  }

  lemma {:induction false} FlatUnique<V>(t: Table<V>, from: nat)
    requires Valid(t) && from <= |t|
    ensures UniqueKeys(Flat(t[from..]))
    ensures forall e | e in Flat(t[from..]) :: from <= Index(t, e.key)
    decreases |t| - from
  {
    hide TorekHash, Same;
    if from < |t| {
      FlatUnique(t, from + 1);
      assert t[from..][1..] == t[from + 1..];
      var rest := Flat(t[from + 1..]);
      forall e, f | e in t[from] && f in rest
        ensures !Same(e.key, f.key)
      {
        if Same(e.key, f.key) {
          SameIndex(t, e.key, f.key);
        }
      }
      UniqueAppend(t[from], rest);
    }
  }

  lemma UniqueAppend<V>(a: Chain<V>, b: Chain<V>)
    requires UniqueKeys(a) && UniqueKeys(b) && forall e, f | e in a && f in b :: !Same(e.key, f.key)
    ensures UniqueKeys(a + b)
  {
    var c := a + b;
    forall i, j | 0 <= i < j < |c|
      ensures !Same(c[i].key, c[j].key)
    {
      if i < |a| <= j {
        assert c[i] in a && c[j] in b;
      }
    }
  }

  lemma {:induction false} PushAllSets<V>(t: Table<V>, c: Chain<V>, key: string)
    requires Valid(t) && UniqueKeys(c) && forall e | e in c :: Lookup(t, e.key).None?
    ensures Valid(PushAll(t, c))
    ensures Lookup(PushAll(t, c), key) == if InChain(c, key).Some? then InChain(c, key) else Lookup(t, key)
    decreases c
  {
    hide TorekHash, Same, Push, Lookup;
    if c != [] {
      var next := Push(t, c[0]);
      PushSets(t, c[0], key);
      SameIsEquivalence();
      forall e | e in c[1..]
        ensures Lookup(next, e.key).None?
      {
        PushSets(t, c[0], e.key);
      }
      PushAllSets(next, c[1..], key);
      InChainMember(c[1..], key);
    }
  }

  /** Growing the table loses nothing and finds nothing new. */
  lemma GrowKeeps<V>(t: Table<V>, key: string)
    requires Valid(t)
    ensures Valid(Grow(t)) && Lookup(Grow(t), key) == Lookup(t, key)
  {
    hide TorekHash, PushAll, Flat;
    assert t[0..] == t;
    FlatUnique(t, 0);
    FlatLookup(t, 0, key);
    PushAllSets(Empty((|t| + 1) * 2 - 1), Flat(t), key);
  }

  /** Adding a new key, whether or not the table grows. */
  lemma AddSets<V>(t: Table<V>, count: nat, k: string, v: V, key: string)
    requires Valid(t) && Lookup(t, k).None?
    ensures Valid(Add(t, count, k, v))
    ensures Lookup(Add(t, count, k, v), key) == if Same(key, k) then Some(v) else Lookup(t, key)
  {
    hide Push, Grow, Lookup;
    PushSets(t, Entry(k, v), key);
    GrowKeeps(Push(t, Entry(k, v)), key);
  }

  /***** The number of entries *****/

  lemma {:induction false} FlatUpdate<V>(t: seq<Chain<V>>, i: nat, c: Chain<V>)
    requires i < |t|
    ensures |Flat(t[i := c])| == |Flat(t)| - |t[i]| + |c|
    decreases |t|
  {
    if i > 0 {
      assert t[i := c][1..] == t[1..][i - 1 := c];
      FlatUpdate(t[1..], i - 1, c);
    }
  }

  lemma {:induction false} PushAllCount<V>(t: Table<V>, c: Chain<V>)
    ensures |Flat(PushAll(t, c))| == |Flat(t)| + |c|
    decreases c
  {
    hide TorekHash;
    if c != [] {
      var i := Index(t, c[0].key);
      FlatUpdate(t, i, [c[0]] + t[i]);
      PushAllCount(Push(t, c[0]), c[1..]);
    }
  }

  lemma {:induction false} EmptyFlat<V>(t: seq<Chain<V>>)
    requires forall i | 0 <= i < |t| :: t[i] == []
    ensures Flat(t) == []
  {
    if t != [] {
      EmptyFlat(t[1..]);
    }
  }

  lemma AddCounts<V>(t: Table<V>, count: nat, k: string, v: V)
    ensures |Flat(Add(t, count, k, v))| == |Flat(t)| + 1
  {
    hide TorekHash, PushAll, Flat;
    var i := Index(t, k);
    FlatUpdate(t, i, [Entry(k, v)] + t[i]);
    var added := Push(t, Entry(k, v));
    var empty := Empty<V>((|added| + 1) * 2 - 1);
    EmptyFlat(empty);
    PushAllCount(empty, Flat(added));
  }

  lemma {:induction false} DropCounts<V>(c: Chain<V>, key: string)
    ensures |Drop(c, key)| == if InChain(c, key).Some? then |c| - 1 else |c|
  {
    if c != [] && !Same(c[0].key, key) {
      DropCounts(c[1..], key);
    }
  }

  lemma RemoveCounts<V>(t: Table<V>, key: string)
    ensures |Flat(Remove(t, key))| == if Lookup(t, key).Some? then |Flat(t)| - 1 else |Flat(t)|
  {
    hide TorekHash, Flat;
    var i := Index(t, key);
    DropCounts(t[i], key);
    FlatUpdate(t, i, Drop(t[i], key));
  }

  /** The table grows when an addition would fill four fifths of it, and only then; so it never stays that full. */
  lemma LoadStays<V>(t: Table<V>, count: nat, key: string, value: V)
    requires 5 * count < 4 * |t|
    ensures 5 * (count + 1) < 4 * |Add(t, count, key, value)|
    ensures |Add(t, count, key, value)| == if 5 * (count + 1) < 4 * |t| then |t| else 2 * |t| + 1
  {
    PushAllSize(Empty((|t| + 1) * 2 - 1), Flat(Push(t, Entry(key, value))));
  }

  lemma {:induction false} PushAllSize<V>(t: Table<V>, c: Chain<V>)
    ensures |PushAll(t, c)| == |t|
    decreases c
  {
    if c != [] {
      PushAllSize(Push(t, c[0]), c[1..]);
    }
  }

  /** For instance `Ab`: 33 times the first letter plus the second, in lower case. */
  lemma HashOfTwo()
    ensures TorekHash("Ab") == 97 * 33 + 98
  {
    assert "Ab"[1..] == "b" && "b"[1..] == "";
  }
}
