/** The chained hash map that holds the path index: a vector of buckets, each a vector of
    key/value pairs, for an arbitrary hash function. */
module HashMap {
  import opened Bytes
  import opened Wrappers

  type pair<V> = (bytes, V)

  predicate DistinctKeys<V>(s: seq<pair<V>>) {
    forall i, j | 0 <= i < j < |s| :: s[i].0 != s[j].0
  }

  ghost predicate HasKey<V>(s: seq<pair<V>>, key: bytes) {
    exists i :: 0 <= i < |s| && s[i].0 == key
  }

  /** The pairs of bucket `b` are pairs of `contents` that belong there, without duplicates. */
  ghost predicate BucketOk<V>(buckets: seq<seq<pair<V>>>, hash: bytes -> nat, contents: map<bytes, V>, b: nat)
    requires b < |buckets|
  {
    && DistinctKeys(buckets[b])
    && forall j | 0 <= j < |buckets[b]| :: PairOk(buckets[b][j], |buckets|, hash, contents, b)
  }

  ghost predicate PairOk<V>(p: pair<V>, n: nat, hash: bytes -> nat, contents: map<bytes, V>, b: nat)
    requires n > 0
  {
    hash(p.0) % n == b && p.0 in contents && contents[p.0] == p.1
  }

  ghost predicate KeyPlaced<V>(buckets: seq<seq<pair<V>>>, hash: bytes -> nat, contents: map<bytes, V>, key: bytes)
    requires |buckets| > 0
  {
    key in contents ==> HasKey(buckets[hash(key) % |buckets|], key)
  }

  /** Each key of `contents` sits in its own bucket, once, with its value, and nothing else does. */
  ghost predicate Holds<V>(buckets: seq<seq<pair<V>>>, hash: bytes -> nat, contents: map<bytes, V>) {
    && |buckets| > 0
    && (forall b | 0 <= b < |buckets| :: BucketOk(buckets, hash, contents, b))
    && (forall key :: KeyPlaced(buckets, hash, contents, key))
  }

  /** Replacing bucket `b` by `s`, and `contents` by `after`, is sound if both agree on the keys of `b`. */
  lemma HoldsReplace<V>(buckets: seq<seq<pair<V>>>, hash: bytes -> nat, contents: map<bytes, V>,
                        b: nat, s: seq<pair<V>>, after: map<bytes, V>)
    requires Holds(buckets, hash, contents) && b < |buckets|
    requires BucketOk(buckets[b := s], hash, after, b)
    requires forall key | hash(key) % |buckets| != b :: SameKey(contents, after, key)
    requires forall key | key in after && hash(key) % |buckets| == b :: HasKey(s, key)
    ensures Holds(buckets[b := s], hash, after)
  {
    var n := buckets[b := s];
    forall c | 0 <= c < |n| ensures BucketOk(n, hash, after, c) {
      if c != b {
        assert BucketOk(buckets, hash, contents, c);
        forall j | 0 <= j < |n[c]| ensures PairOk(n[c][j], |n|, hash, after, c) {
          assert PairOk(buckets[c][j], |buckets|, hash, contents, c);
          assert SameKey(contents, after, n[c][j].0);
        }
      }
    }
    forall key ensures KeyPlaced(n, hash, after, key) {
      assert KeyPlaced(buckets, hash, contents, key);
      if hash(key) % |buckets| != b {
        assert SameKey(contents, after, key);
      }
    }
  }

  ghost predicate SameKey<V>(a: map<bytes, V>, b: map<bytes, V>, key: bytes) {
    (key in a <==> key in b) && (key in a && key in b ==> a[key] == b[key])
  }

  lemma HoldsUpdate<V>(buckets: seq<seq<pair<V>>>, hash: bytes -> nat, contents: map<bytes, V>,
                       j: nat, key: bytes, value: V)
    requires Holds(buckets, hash, contents)
    requires var b := hash(key) % |buckets|; j < |buckets[b]| && buckets[b][j].0 == key
    ensures var b := hash(key) % |buckets|;
            key in contents && Holds(buckets[b := buckets[b][j := (key, value)]], hash, contents[key := value])
  {
    var b := hash(key) % |buckets|;
    var s, after := buckets[b][j := (key, value)], contents[key := value];
    assert BucketOk(buckets, hash, contents, b);
    assert PairOk(buckets[b][j], |buckets|, hash, contents, b);
    forall i | 0 <= i < |s| ensures PairOk(s[i], |buckets|, hash, after, b) {
      assert PairOk(buckets[b][i], |buckets|, hash, contents, b);
    }
    forall k | k in after && hash(k) % |buckets| == b ensures HasKey(s, k) {
      assert KeyPlaced(buckets, hash, contents, k);
      var i :| 0 <= i < |s| && buckets[b][i].0 == k;
      assert s[i].0 == k;
    }
    HoldsReplace(buckets, hash, contents, b, s, after);
  }

  lemma HoldsAppend<V>(buckets: seq<seq<pair<V>>>, hash: bytes -> nat, contents: map<bytes, V>, key: bytes, value: V)
    requires Holds(buckets, hash, contents)
    requires !HasKey(buckets[hash(key) % |buckets|], key)
    ensures var b := hash(key) % |buckets|;
            key !in contents && Holds(buckets[b := buckets[b] + [(key, value)]], hash, contents[key := value])
  {
    var b := hash(key) % |buckets|;
    var s, after := buckets[b] + [(key, value)], contents[key := value];
    assert KeyPlaced(buckets, hash, contents, key);
    assert BucketOk(buckets, hash, contents, b);
    forall i | 0 <= i < |s| ensures PairOk(s[i], |buckets|, hash, after, b) {
      if i < |buckets[b]| {
        assert PairOk(buckets[b][i], |buckets|, hash, contents, b);
      }
    }
    assert s[|buckets[b]|].0 == key;
    forall k | k in after && hash(k) % |buckets| == b ensures HasKey(s, k) {
      if k != key {
        assert KeyPlaced(buckets, hash, contents, k);
        var i :| 0 <= i < |buckets[b]| && buckets[b][i].0 == k;
        assert s[i].0 == k;
      }
    }
    assert DistinctKeys(s);
    HoldsReplace(buckets, hash, contents, b, s, after);
  }

  function Without<T>(s: seq<T>, j: nat): seq<T>
    requires j < |s|
  {
    s[..j] + s[j + 1..]
  }

  lemma BucketWithout<V>(s: seq<pair<V>>, j: nat)
    requires DistinctKeys(s) && j < |s|
    ensures DistinctKeys(Without(s, j))
    ensures forall i | 0 <= i < |s| - 1 ::
      Without(s, j)[i] == s[if i < j then i else i + 1] && Without(s, j)[i].0 != s[j].0
    ensures forall k | HasKey(s, k) && k != s[j].0 :: HasKey(Without(s, j), k)
  {
    var s' := Without(s, j);
    forall i | 0 <= i < |s'| ensures s'[i] == s[if i < j then i else i + 1] {
    }
    forall k | HasKey(s, k) && k != s[j].0 ensures HasKey(s', k) {
      var i :| 0 <= i < |s| && s[i].0 == k;
      assert s'[if i < j then i else i - 1].0 == k;
    }
  }

  lemma HoldsRemove<V>(buckets: seq<seq<pair<V>>>, hash: bytes -> nat, contents: map<bytes, V>, j: nat, key: bytes)
    requires Holds(buckets, hash, contents)
    requires var b := hash(key) % |buckets|; j < |buckets[b]| && buckets[b][j].0 == key
    ensures var b := hash(key) % |buckets|;
            key in contents && Holds(buckets[b := Without(buckets[b], j)], hash, contents - {key})
  {
    var b := hash(key) % |buckets|;
    var s, after := Without(buckets[b], j), contents - {key};
    assert BucketOk(buckets, hash, contents, b);
    assert PairOk(buckets[b][j], |buckets|, hash, contents, b);
    BucketWithout(buckets[b], j);
    forall i | 0 <= i < |s| ensures PairOk(s[i], |buckets|, hash, after, b) {
      assert PairOk(buckets[b][if i < j then i else i + 1], |buckets|, hash, contents, b);
    }
    forall k | k in after && hash(k) % |buckets| == b ensures HasKey(s, k) {
      assert KeyPlaced(buckets, hash, contents, k);
    }
    HoldsReplace(buckets, hash, contents, b, s, after);
  }

  class SimpleHashMap<V> {
    const hash: bytes -> nat
    var buckets: seq<seq<pair<V>>>
    var count: nat
    ghost var contents: map<bytes, V>

    ghost predicate Valid()
      reads this
    {
      Holds(buckets, hash, contents) && count == |contents|
    }

    constructor (hash: bytes -> nat, bucketCount: nat)
      requires bucketCount > 0
      ensures Valid() && contents == map[] && this.hash == hash
    {
      this.hash := hash;
      buckets := seq(bucketCount, _ => []);
      count := 0;
      contents := map[];
    }

    /** The position of `key` in its bucket, or the length of the bucket. */
    method Locate(key: bytes) returns (b: nat, j: nat)
      requires Valid()
      ensures b == hash(key) % |buckets| && b < |buckets| && j <= |buckets[b]|
      ensures j < |buckets[b]| ==> buckets[b][j].0 == key && key in contents && contents[key] == buckets[b][j].1
      ensures j == |buckets[b]| ==> !HasKey(buckets[b], key) && key !in contents
    {
      b := hash(key) % |buckets|;
      assert BucketOk(buckets, hash, contents, b) && KeyPlaced(buckets, hash, contents, key);
      j := 0;
      while j < |buckets[b]| && buckets[b][j].0 != key
        invariant 0 <= j <= |buckets[b]|
        invariant forall i | 0 <= i < j :: buckets[b][i].0 != key
      {
        j := j + 1;
      }
      if j < |buckets[b]| {
        assert PairOk(buckets[b][j], |buckets|, hash, contents, b);
      }
    }

    method Insert(key: bytes, value: V) returns (added: bool)
      requires Valid()
      modifies this
      ensures Valid() && contents == old(contents)[key := value]
      ensures added == (key !in old(contents))
      ensures count == old(count) + (if added then 1 else 0)
    {
      var b, j := Locate(key);
      if j < |buckets[b]| {
        HoldsUpdate(buckets, hash, contents, j, key, value);
        buckets := buckets[b := buckets[b][j := (key, value)]];
        added := false;
        assert contents.Keys == contents[key := value].Keys;
      } else {
        HoldsAppend(buckets, hash, contents, key, value);
        buckets := buckets[b := buckets[b] + [(key, value)]];
        count := count + 1;
        added := true;
      }
      contents := contents[key := value];
    }

    method Erase(key: bytes) returns (found: bool)
      requires Valid()
      modifies this
      ensures Valid() && contents == old(contents) - {key}
      ensures found == (key in old(contents))
      ensures count == old(count) - (if found then 1 else 0)
    {
      var b, j := Locate(key);
      found := j < |buckets[b]|;
      if found {
        HoldsRemove(buckets, hash, contents, j, key);
        SizeWithout(contents, key);
        buckets := buckets[b := Without(buckets[b], j)];
        count := count - 1;
      } else {
        assert contents - {key} == contents;
      }
      contents := contents - {key};
    }

    method Contains(key: bytes) returns (found: bool)
      requires Valid()
      ensures found == (key in contents)
    {
      var b, j := Locate(key);
      found := j < |buckets[b]|;
    }

    method Find(key: bytes) returns (r: Option<V>)
      requires Valid()
      ensures r == if key in contents then Some(contents[key]) else None
    {
      var b, j := Locate(key);
      r := if j < |buckets[b]| then Some(buckets[b][j].1) else None;
    }

    method Size() returns (n: nat)
      requires Valid()
      ensures n == |contents|
    {
      n := count;
    }

    method Clear()
      requires Valid()
      modifies this
      ensures Valid() && contents == map[] && count == 0
    {
      var b := 0;
      while b < |buckets|
        invariant 0 <= b <= |buckets| == old(|buckets|)
        invariant forall c | 0 <= c < b :: buckets[c] == []
      {
        buckets := buckets[b := []];
        b := b + 1;
      }
      count := 0;
      contents := map[];
    }

    /** Every pair, once: bucket by bucket. */
    method GetAll() returns (out: seq<pair<V>>)
      requires Valid()
      ensures DistinctKeys(out) && |out| == count
      ensures forall p :: p in out <==> p.0 in contents && contents[p.0] == p.1
    {
      out := [];
      var b := 0;
      while b < |buckets|
        invariant 0 <= b <= |buckets|
        invariant DistinctKeys(out)
        invariant forall i | 0 <= i < |out| ::
          out[i].0 in contents && contents[out[i].0] == out[i].1 && hash(out[i].0) % |buckets| < b
        invariant forall c, j | 0 <= c < b && 0 <= j < |buckets[c]| :: buckets[c][j] in out
      {
        assert BucketOk(buckets, hash, contents, b);
        assert forall j | 0 <= j < |buckets[b]| :: PairOk(buckets[b][j], |buckets|, hash, contents, b);
        out := out + buckets[b];
        b := b + 1;
      }
      forall key | key in contents ensures (key, contents[key]) in out {
        var c := hash(key) % |buckets|;
        assert KeyPlaced(buckets, hash, contents, key) && BucketOk(buckets, hash, contents, c);
        var j :| 0 <= j < |buckets[c]| && buckets[c][j].0 == key;
        assert PairOk(buckets[c][j], |buckets|, hash, contents, c);
        assert buckets[c][j] in out;
      }
      ListingSize(out, contents);
    }
  }

  lemma SizeWithout<V>(m: map<bytes, V>, key: bytes)
    requires key in m
    ensures |m - {key}| == |m| - 1
  {
    assert m.Keys == (m - {key}).Keys + {key};
  }

  lemma {:induction false} ListingSize<V>(out: seq<pair<V>>, m: map<bytes, V>)
    requires DistinctKeys(out)
    requires forall i | 0 <= i < |out| :: out[i].0 in m
    requires forall key | key in m :: (key, m[key]) in out
    ensures |out| == |m|
  {
    if out == [] {
      assert m.Keys == {};
    } else {
      var k := |out| - 1;
      var key := out[k].0;
      var rest := out[..k];
      SizeWithout(m, key);
      forall x | x in m - {key} ensures (x, m[x]) in rest {
        assert (x, m[x]) in out;
      }
      ListingSize(rest, m - {key});
    }
  }
}
