/** The chained hash table behind every table of the daemon (src/ht.h). */
module HashTables {

  datatype Option<+T> = None | Some(value: T)

  datatype Entry<K, V> = Entry(key: K, val: V)

  /** All chains in the order in which the daemon walks a table: bucket by bucket, head first. */
  ghost function Flat<K(!new), V>(buckets: seq<seq<Entry<K, V>>>): seq<Entry<K, V>>
  {
    if buckets == [] then [] else buckets[0] + Flat(buckets[1..])
  }

  /** The map a list of entries stands for; an earlier entry hides a later one. */
  ghost function MapOf<K(!new), V>(es: seq<Entry<K, V>>): map<K, V>
  {
    if es == [] then map[] else MapOf(es[1..])[es[0].key := es[0].val]
  }

  ghost predicate UniqueKeys<K(!new), V>(es: seq<Entry<K, V>>)
  {
    es == [] || (es[0].key !in MapOf(es[1..]) && UniqueKeys(es[1..]))
  }

  lemma {:induction false} MapOfAppend<K(!new), V>(a: seq<Entry<K, V>>, b: seq<Entry<K, V>>)
    ensures MapOf(a + b) == MapOf(b) + MapOf(a)
    ensures UniqueKeys(a + b) <==> UniqueKeys(a) && UniqueKeys(b) && MapOf(a).Keys !! MapOf(b).Keys
  {
    if a == [] {
      assert a + b == b;
    } else {
      assert (a + b)[1..] == a[1..] + b;
      MapOfAppend(a[1..], b);
    }
  }

  lemma MapPut<K(!new), V>(r: map<K, V>, l: map<K, V>, k: K, v: V)
    requires k !in l
    ensures (r + map[k := v]) + l == (r + l)[k := v]
  {
  }

  lemma MapOfMiddle<K(!new), V>(l: seq<Entry<K, V>>, e: Entry<K, V>, r: seq<Entry<K, V>>)
    ensures UniqueKeys(l + [e] + r) <==> UniqueKeys(l + r) && e.key !in MapOf(l + r)
    ensures UniqueKeys(l + [e] + r) ==> e.key !in MapOf(l)
    ensures e.key !in MapOf(l) ==> MapOf(l + [e] + r) == MapOf(l + r)[e.key := e.val]
  {
    MapOfAppend([e], r);
    MapOfAppend(l, [e] + r);
    MapOfAppend(l, r);
    assert l + [e] + r == l + ([e] + r);
    assert ([e] + r)[1..] == r;
    if e.key !in MapOf(l) {
      MapPut(MapOf(r), MapOf(l), e.key, e.val);
    }
  }

  lemma {:induction false} MapOfAt<K(!new), V>(es: seq<Entry<K, V>>, i: nat)
    requires i < |es|
    ensures es[i].key in MapOf(es)
    ensures UniqueKeys(es) ==> MapOf(es)[es[i].key] == es[i].val
  {
    if i > 0 {
      MapOfAt(es[1..], i - 1);
    }
  }

  lemma {:induction false} MapOfIndex<K(!new), V>(es: seq<Entry<K, V>>, k: K) returns (i: nat)
    requires k in MapOf(es)
    ensures i < |es| && es[i].key == k
  {
    if es[0].key == k {
      i := 0;
    } else {
      i := MapOfIndex(es[1..], k);
      i := i + 1;
    }
  }

  lemma {:induction false} UniqueAt<K(!new), V>(es: seq<Entry<K, V>>, i: nat, j: nat)
    requires UniqueKeys(es) && i < j < |es|
    ensures es[i].key != es[j].key
  {
    if i == 0 {
      MapOfAt(es[1..], j - 1);
    } else {
      UniqueAt(es[1..], i - 1, j - 1);
    }
  }

  lemma OthersDiffer<K(!new), V>(es: seq<Entry<K, V>>, k: nat)
    requires UniqueKeys(es) && k < |es|
    ensures forall i :: 0 <= i < |es| && i != k ==> es[i].key != es[k].key
  {
    forall i | 0 <= i < |es| && i != k
      ensures es[i].key != es[k].key
    {
      UniqueAt(es, if i < k then i else k, if i < k then k else i);
    }
  }

  lemma {:induction false} MapOfSize<K(!new), V>(es: seq<Entry<K, V>>)
    requires UniqueKeys(es)
    ensures |MapOf(es)| == |es|
  {
    if es != [] {
      MapOfSize(es[1..]);
    }
  }

  lemma {:induction false} FlatSplit<K(!new), V>(buckets: seq<seq<Entry<K, V>>>, b: nat, chain: seq<Entry<K, V>>)
    requires b < |buckets|
    ensures Flat(buckets[b := chain]) == Flat(buckets[..b]) + chain + Flat(buckets[b + 1..])
  {
    var after := buckets[b := chain];
    if b == 0 {
      assert after[1..] == buckets[1..];
    } else {
      FlatSplit(buckets[1..], b - 1, chain);
      assert after[1..] == buckets[1..][b - 1 := chain];
      assert buckets[1..][..b - 1] == buckets[..b][1..];
      assert buckets[1..][b..] == buckets[b + 1..];
    }
  }

  lemma {:induction false} FlatPrefix<K(!new), V>(buckets: seq<seq<Entry<K, V>>>, b: nat)
    requires b < |buckets|
    ensures Flat(buckets[..b + 1]) == Flat(buckets[..b]) + buckets[b]
  {
    var p := buckets[..b + 1];
    FlatSplit(p, b, p[b]);
    assert p[b := p[b]] == p && p[..b] == buckets[..b] && p[b + 1..] == [];
  }

  /** A key lives in the bucket it hashes to. */
  ghost predicate Hashed<K(!new), V>(buckets: seq<seq<Entry<K, V>>>, hash: K -> nat)
  {
    && |buckets| > 0
    && forall b, i :: 0 <= b < |buckets| && 0 <= i < |buckets[b]| ==> hash(buckets[b][i].key) % |buckets| == b
  }

  lemma {:induction false} FlatMember<K(!new), V>(buckets: seq<seq<Entry<K, V>>>, i: nat) returns (b: nat, j: nat)
    requires i < |Flat(buckets)|
    ensures b < |buckets| && j < |buckets[b]| && buckets[b][j] == Flat(buckets)[i]
  {
    if i < |buckets[0]| {
      b, j := 0, i;
    } else {
      b, j := FlatMember(buckets[1..], i - |buckets[0]|);
      b := b + 1;
    }
  }

  /** Splicing `mid` to `mid'` in one chain is the same splice in the walking order. */
  lemma Splice<K(!new), V>(buckets: seq<seq<Entry<K, V>>>, hash: K -> nat, b: nat,
                           pre: seq<Entry<K, V>>, mid: seq<Entry<K, V>>, mid': seq<Entry<K, V>>, post: seq<Entry<K, V>>)
    returns (l: seq<Entry<K, V>>, r: seq<Entry<K, V>>)
    requires Hashed(buckets, hash) && b < |buckets| && buckets[b] == pre + mid + post
    requires forall i :: 0 <= i < |mid'| ==> hash(mid'[i].key) % |buckets| == b
    ensures Flat(buckets) == l + mid + r && Flat(buckets[b := pre + mid' + post]) == l + mid' + r
    ensures Hashed(buckets[b := pre + mid' + post], hash) && l == Flat(buckets[..b]) + pre
  {
    l, r := Flat(buckets[..b]) + pre, post + Flat(buckets[b + 1..]);
    FlatSplit(buckets, b, pre + mid + post);
    FlatSplit(buckets, b, pre + mid' + post);
    assert buckets[b := pre + mid + post] == buckets;
    forall i | 0 <= i < |pre + mid' + post|
      ensures hash((pre + mid' + post)[i].key) % |buckets| == b
    {
      if i < |pre| {
        assert buckets[b][i] == pre[i];
      } else if i >= |pre| + |mid'| {
        assert buckets[b][i - |mid'| + |mid|] == (pre + mid' + post)[i];
      }
    }
  }

  /** One entry more, somewhere. */
  ghost predicate InsertedInto<K(!new), V>(es: seq<Entry<K, V>>, es': seq<Entry<K, V>>, e: Entry<K, V>)
  {
    exists i :: 0 <= i <= |es| && es' == es[..i] + [e] + es[i..]
  }

  /** The value of one key is exchanged in its place. */
  ghost predicate StoredInto<K(!new), V>(es: seq<Entry<K, V>>, es': seq<Entry<K, V>>, key: K, val: V)
  {
    |es'| == |es| && forall i :: 0 <= i < |es| ==> es'[i] == if es[i].key == key then Entry(key, val) else es[i]
  }

  /** An entry with the key behind `l`, where it does not occur. */
  ghost predicate FirstAt<K(!new), V>(l: seq<Entry<K, V>>, e: Entry<K, V>, key: K)
  {
    e.key == key && key !in MapOf(l)
  }

  /** The first entry with the key is taken away. */
  ghost predicate RemovedFrom<K(!new), V>(es: seq<Entry<K, V>>, es': seq<Entry<K, V>>, key: K)
  {
    exists i :: 0 <= i < |es| && FirstAt(es[..i], es[i], key) && es' == es[..i] + es[i + 1..]
  }

  /** The first entry with the key has its value exchanged. */
  ghost predicate StoredAtFirst<K(!new), V>(es: seq<Entry<K, V>>, es': seq<Entry<K, V>>, key: K, val: V)
  {
    exists i :: 0 <= i < |es| && FirstAt(es[..i], es[i], key) && es' == es[i := Entry(key, val)]
  }

  lemma {:induction false} NoKey<K(!new), V>(es: seq<Entry<K, V>>, key: K)
    requires forall i :: 0 <= i < |es| ==> es[i].key != key
    ensures key !in MapOf(es)
  {
    if es != [] {
      NoKey(es[1..], key);
    }
  }

  /** Which entry a search in its bucket finds. */
  lemma BucketDecides<K(!new), V>(buckets: seq<seq<Entry<K, V>>>, idx: nat, key: K, pos: nat)
    requires idx < |buckets| && key !in MapOf(Flat(buckets[..idx])) && pos <= |buckets[idx]|
    requires forall b :: idx < b < |buckets| ==> forall i :: 0 <= i < |buckets[b]| ==> buckets[b][i].key != key
    requires forall j :: 0 <= j < pos ==> buckets[idx][j].key != key
    requires pos < |buckets[idx]| ==> buckets[idx][pos].key == key
    ensures pos < |buckets[idx]| <==> key in MapOf(Flat(buckets))
    ensures pos < |buckets[idx]| ==> MapOf(Flat(buckets))[key] == buckets[idx][pos].val
    ensures pos < |buckets[idx]| ==> FirstAt(Flat(buckets[..idx]) + buckets[idx][..pos], buckets[idx][pos], key)
  {
    var chain, front, back := buckets[idx], Flat(buckets[..idx]), Flat(buckets[idx + 1..]);
    FlatSplit(buckets, idx, chain);
    assert buckets[idx := chain] == buckets;
    NoKey(chain[..pos], key);
    MapOfAppend(front, chain[..pos]);
    if pos < |chain| {
      var rest := chain[pos..] + back;
      assert front + chain + back == (front + chain[..pos]) + rest;
      MapOfAppend(front + chain[..pos], rest);
    } else {
      assert chain[..pos] == chain;
      NoneBehind(buckets[idx + 1..], key);
      MapOfAppend(front + chain, back);
    }
  }

  lemma NoneBehind<K(!new), V>(buckets: seq<seq<Entry<K, V>>>, key: K)
    requires forall b :: 0 <= b < |buckets| ==> forall i :: 0 <= i < |buckets[b]| ==> buckets[b][i].key != key
    ensures key !in MapOf(Flat(buckets))
  {
    if key in MapOf(Flat(buckets)) {
      var b, j := KeyMember(buckets, key);
    }
  }

  lemma InsertLaw<K(!new), V>(es: seq<Entry<K, V>>, l: seq<Entry<K, V>>, e: Entry<K, V>, r: seq<Entry<K, V>>)
    requires es == l + [] + r && e.key !in MapOf(l)
    ensures UniqueKeys(l + [e] + r) <==> UniqueKeys(es) && e.key !in MapOf(es)
    ensures MapOf(l + [e] + r) == MapOf(es)[e.key := e.val] && InsertedInto(es, l + [e] + r, e)
  {
    assert es == l + r;
    assert es[..|l|] == l && es[|l|..] == r;
    MapOfMiddle(l, e, r);
  }

  lemma KeyMember<K(!new), V>(buckets: seq<seq<Entry<K, V>>>, key: K) returns (b: nat, j: nat)
    requires key in MapOf(Flat(buckets))
    ensures b < |buckets| && j < |buckets[b]| && buckets[b][j].key == key
  {
    var i := MapOfIndex(Flat(buckets), key);
    b, j := FlatMember(buckets, i);
  }

  /** No bucket in front of its own has the key. */
  lemma NotBefore<K(!new), V>(buckets: seq<seq<Entry<K, V>>>, hash: K -> nat, key: K)
    requires Hashed(buckets, hash) && buckets != []
    ensures key !in MapOf(Flat(buckets[..hash(key) % |buckets|]))
  {
    var front := buckets[..hash(key) % |buckets|];
    if key in MapOf(Flat(front)) {
      var b, j := KeyMember(front, key);
    }
  }

  lemma RemoveLaw<K(!new), V>(l: seq<Entry<K, V>>, e: Entry<K, V>, r: seq<Entry<K, V>>)
    requires UniqueKeys(l + [e] + r)
    ensures UniqueKeys(l + [] + r) && MapOf(l + [] + r) == MapOf(l + [e] + r) - {e.key}
  {
    assert l + [] + r == l + r;
    MapOfMiddle(l, e, r);
  }

  /** What is removed when the key is stored only once, and what otherwise. */
  lemma RemovedLaw<K(!new), V>(es: seq<Entry<K, V>>, l: seq<Entry<K, V>>, e: Entry<K, V>, r: seq<Entry<K, V>>)
    requires es == l + [e] + r && FirstAt(l, e, e.key)
    ensures RemovedFrom(es, l + [] + r, e.key)
    ensures UniqueKeys(es) ==> UniqueKeys(l + [] + r) && MapOf(l + [] + r) == MapOf(es) - {e.key}
  {
    assert l + [] + r == es[..|l|] + es[|l| + 1..] && es[..|l|] == l;
    if UniqueKeys(es) {
      RemoveLaw(l, e, r);
    }
  }

  lemma StoreLaw<K(!new), V>(es: seq<Entry<K, V>>, l: seq<Entry<K, V>>, e: Entry<K, V>, e': Entry<K, V>,
          r: seq<Entry<K, V>>)
    requires es == l + [e] + r && FirstAt(l, e, e.key) && e'.key == e.key
    ensures MapOf(l + [e'] + r) == MapOf(es)[e.key := e'.val]
    ensures StoredAtFirst(es, l + [e'] + r, e.key, e'.val)
    ensures UniqueKeys(es) ==> UniqueKeys(l + [e'] + r) && StoredInto(es, l + [e'] + r, e.key, e'.val)
  {
    MapOfMiddle(l, e, r);
    MapOfMiddle(l, e', r);
    assert es[..|l|] == l && l + [e'] + r == es[|l| := e'];
    if UniqueKeys(es) {
      OthersDiffer(es, |l|);
    }
  }

  class HashTable<K(==, !new), V(!new)> {
    const bucketSize: nat
    const hash: K -> nat
    var buckets: seq<seq<Entry<K, V>>>
    var entrCnt: int

    /** Every entry is in its own bucket, and the count is exact. */
    ghost predicate Proper()
      reads this
    {
      |buckets| == bucketSize && bucketSize > 0 && Hashed(buckets, hash) && entrCnt == |Flat(buckets)|
    }

    /** Moreover, every key is stored once. */
    ghost predicate Valid()
      reads this
    {
      Proper() && UniqueKeys(Flat(buckets))
    }

    /** The entries in walking order. */
    ghost function Entries(): (es: seq<Entry<K, V>>)
      reads this
    {
      Flat(buckets)
    }

    ghost function Model(): map<K, V>
      reads this
    {
      MapOf(Flat(buckets))
    }

    constructor (bucketSize: nat, hash: K -> nat)
      requires bucketSize > 0
      ensures Valid() && Model() == map[] && Entries() == [] && this.hash == hash && this.bucketSize == bucketSize
    {
      this.bucketSize := bucketSize;
      this.hash := hash;
      buckets := seq(bucketSize, i => []);
      entrCnt := 0;
      new;
      AllEmpty(buckets);
    }

    /** A key that is there already is hidden by the new entry, and then stored twice. */
    method Insert(key: K, val: V)
      requires Proper()
      modifies this
      ensures Proper() && (Valid() <==> old(Valid()) && key !in old(Model()))
      ensures Model() == old(Model())[key := val]
      ensures InsertedInto(old(Entries()), Entries(), Entry(key, val))
    {
      var idx := hash(key) % bucketSize;
      var node := buckets[idx];
      ghost var l, r := Splice(buckets, hash, idx, [], [], [Entry(key, val)], node);
      NotBefore(buckets, hash, key);
      assert l == Flat(buckets[..idx]);
      InsertLaw(Flat(buckets), l, Entry(key, val), r);
      buckets := buckets[idx := [] + [Entry(key, val)] + node];
      entrCnt := entrCnt + 1;
    }

    /** Position of the first entry with the key in the bucket it hashes to. */
    method Locate(key: K) returns (idx: nat, pos: nat)
      requires Proper()
      ensures idx < |buckets| && pos <= |buckets[idx]|
      ensures pos < |buckets[idx]| <==> key in Model()
      ensures pos < |buckets[idx]| ==> FirstAt(Flat(buckets[..idx]) + buckets[idx][..pos], buckets[idx][pos], key)
      ensures pos < |buckets[idx]| ==> Model()[key] == buckets[idx][pos].val
    {
      idx := hash(key) % bucketSize;
      var chain := buckets[idx];
      pos := 0;
      while pos < |chain| && chain[pos].key != key
        invariant pos <= |chain| && forall j :: 0 <= j < pos ==> chain[j].key != key
      {
        pos := pos + 1;
      }
      NotBefore(buckets, hash, key);
      BucketDecides(buckets, idx, key, pos);
    }

    method Find(key: K) returns (r: Option<V>)
      requires Proper()
      ensures r == if key in Model() then Some(Model()[key]) else None
    {
      var idx, pos := Locate(key);
      r := if pos < |buckets[idx]| then Some(buckets[idx][pos].val) else None;
    }

    /** The first entry with the key goes; one that it has hidden appears. */
    method Remove(key: K)
      requires Proper() && key in Model()
      modifies this
      ensures Proper() && RemovedFrom(old(Entries()), Entries(), key)
      ensures old(Valid()) ==> Valid() && Model() == old(Model()) - {key}
    {
      var idx, pos := Locate(key);
      var chain := buckets[idx];
      ghost var l, r := Splice(buckets, hash, idx, chain[..pos], [chain[pos]], [], chain[pos + 1..]);
      RemovedLaw(Entries(), l, chain[pos], r);
      buckets := buckets[idx := chain[..pos] + [] + chain[pos + 1..]];
      entrCnt := entrCnt - 1;
    }

    /** A write through the pointer that a successful Find returned: the first entry with the key changes. */
    method Store(key: K, val: V)
      requires Proper() && key in Model()
      modifies this
      ensures Proper() && entrCnt == old(entrCnt)
      ensures Model() == old(Model())[key := val] && StoredAtFirst(old(Entries()), Entries(), key, val)
      ensures old(Valid()) ==> Valid() && StoredInto(old(Entries()), Entries(), key, val)
    {
      var idx, pos := Locate(key);
      var chain := buckets[idx];
      ghost var l, r := Splice(buckets, hash, idx, chain[..pos], [chain[pos]], [Entry(key, val)], chain[pos + 1..]);
      StoreLaw(Entries(), l, chain[pos], Entry(key, val), r);
      buckets := buckets[idx := chain[..pos] + [Entry(key, val)] + chain[pos + 1..]];
    }

    /** The nested walk over all buckets and chains. */
    method Walk() returns (es: seq<Entry<K, V>>)
      requires Proper()
      ensures es == Entries()
    {
      es := [];
      for i := 0 to |buckets|
        invariant es == Flat(buckets[..i])
      {
        FlatPrefix(buckets, i);
        es := es + buckets[i];
      }
      assert buckets[..|buckets|] == buckets;
    }
  }

  lemma {:induction false} AllEmpty<K(!new), V>(buckets: seq<seq<Entry<K, V>>>)
    requires forall i :: 0 <= i < |buckets| ==> buckets[i] == []
    ensures Flat(buckets) == []
  {
    if buckets != [] {
      AllEmpty(buckets[1..]);
    }
  }
}
