/** What a frame says about its event, whatever order the map is visited
    in: which pairs it carries, how many, and how many bytes they take. */
module FrameFacts {
  import opened Wire
  import opened Encoder

  /** Visiting `a` then `b` gives the pairs of `a` then those of `b`. */
  lemma {:induction false} MetaPairsConcat(line: map<string, string>, a: seq<string>, b: seq<string>)
    ensures MetaPairs(line, a + b) == MetaPairs(line, a) + MetaPairs(line, b)
  {
    if b == [] {
      assert a + b == a;
    } else {
      var init := b[..|b| - 1];
      assert (a + b)[..|a + b| - 1] == a + init;
      MetaPairsConcat(line, a, init);
    }
  }

  lemma {:induction false} PairsSizeConcat(ps: seq<Pair>, qs: seq<Pair>)
    ensures PairsSize(ps + qs) == PairsSize(ps) + PairsSize(qs)
  {
    if qs == [] {
      assert ps + qs == ps;
    } else {
      var init := qs[..|qs| - 1];
      assert (ps + qs)[..|ps + qs| - 1] == ps + init;
      PairsSizeConcat(ps, init);
    }
  }

  /** Taking out the key at position j. */
  lemma MetaPairsWithout(line: map<string, string>, b: seq<string>, j: nat)
    requires j < |b|
    ensures
      var rest := b[..j] + b[j + 1..];
      && multiset(MetaPairs(line, b)) == multiset(MetaPairs(line, rest)) + multiset(MetaPairs(line, [b[j]]))
      && PairsSize(MetaPairs(line, b)) == PairsSize(MetaPairs(line, rest)) + PairsSize(MetaPairs(line, [b[j]]))
  {
    var left, mid, right := b[..j], [b[j]], b[j + 1..];
    assert b == (left + mid) + right;
    MetaPairsConcat(line, left + mid, right);
    MetaPairsConcat(line, left, mid);
    MetaPairsConcat(line, left, right);
    var l, m, r := MetaPairs(line, left), MetaPairs(line, mid), MetaPairs(line, right);
    PairsSizeConcat(l + m, r);
    PairsSizeConcat(l, m);
    PairsSizeConcat(l, r);
  }

  /** Visiting the same keys in another order gives the same pairs, in
      another order, of the same total size. */
  lemma {:induction false} MetaPairsPermute(line: map<string, string>, a: seq<string>, b: seq<string>)
    requires multiset(a) == multiset(b)
    ensures multiset(MetaPairs(line, a)) == multiset(MetaPairs(line, b))
    ensures PairsSize(MetaPairs(line, a)) == PairsSize(MetaPairs(line, b))
  {
    if a == [] {
      assert |b| == |multiset(b)| == 0;
    } else {
      var init, x := a[..|a| - 1], a[|a| - 1];
      assert a == init + [x];
      assert x in multiset(b);
      var j :| 0 <= j < |b| && b[j] == x;
      var rest := b[..j] + b[j + 1..];
      RemoveAt(b, j);
      RemoveAt(a, |a| - 1);
      assert a[..|a| - 1] + a[|a|..] == init;
      MetaPairsPermute(line, init, rest);
      MetaPairsWithout(line, b, j);
      MetaPairsConcat(line, init, [x]);
      PairsSizeConcat(MetaPairs(line, init), MetaPairs(line, [x]));
    }
  }

  lemma RemoveAt<T>(s: seq<T>, j: nat)
    requires j < |s|
    ensures multiset(s[..j] + s[j + 1..]) == multiset(s) - multiset{s[j]}
  {
    assert s == s[..j] + [s[j]] + s[j + 1..];
    assert multiset(s) == multiset(s[..j]) + multiset{s[j]} + multiset(s[j + 1..]);
  }

  /** No key occurs twice. */
  predicate Distinct(s: seq<string>)
  {
    forall i, j | 0 <= i < j < |s| :: s[i] != s[j]
  }

  /** In a sequence without repeats every element occurs once. */
  lemma {:induction false} DistinctOnce(s: seq<string>, x: string)
    requires Distinct(s)
    ensures multiset(s)[x] == if x in s then 1 else 0
  {
    if s != [] {
      var init := s[..|s| - 1];
      assert s == init + [s[|s| - 1]];
      assert s[|s| - 1] !in init;
      DistinctOnce(init, x);
    }
  }

  /** Two iteration orders of one map visit the same keys. */
  lemma OrderingsPermute(o1: seq<string>, o2: seq<string>, keys: set<string>)
    requires IsOrdering(o1, keys) && IsOrdering(o2, keys)
    ensures multiset(o1) == multiset(o2)
  {
    forall x ensures multiset(o1)[x] == multiset(o2)[x] {
      DistinctOnce(o1, x);
      DistinctOnce(o2, x);
    }
  }

  /** The frame for an event does not depend on the order the map is
      visited in, except for the order of its field blocks: the same
      pairs, the same mapCount and the same msgSize. */
  lemma FrameOrderIndependent(line: map<string, string>, o1: seq<string>, o2: seq<string>)
    requires IsOrdering(o1, line.Keys) && IsOrdering(o2, line.Keys)
    ensures multiset(MetaPairs(line, o1)) == multiset(MetaPairs(line, o2))
    ensures |MetaPairs(line, o1)| == |MetaPairs(line, o2)|
    ensures |Body(line, o1)| == |Body(line, o2)|
    ensures Frame(line, o1)[..8] == Frame(line, o2)[..8]
  {
    OrderingsPermute(o1, o2, line.Keys);
    MetaPairsPermute(line, o1, o2);
    assert |MetaPairs(line, o1)| == |multiset(MetaPairs(line, o1))|;
    BodyLength(line, o1);
    BodyLength(line, o2);
    FrameHeader(line, o1);
    FrameHeader(line, o2);
  }

  /** A frame starts with msgSize and mapCount. */
  lemma FrameHeader(line: map<string, string>, order: seq<string>)
    requires IsOrdering(order, line.Keys)
    ensures Frame(line, order)[..8] == BeU32(|Body(line, order)|) + BeU32(|MetaPairs(line, order)| + 2)
  {
    var body := Body(line, order);
    BodyStart(line, order);
    assert (BeU32(|body|) + body)[..8] == BeU32(|body|) + body[..4];
  }

  /** A body starts with mapCount. */
  lemma BodyStart(line: map<string, string>, order: seq<string>)
    requires IsOrdering(order, line.Keys)
    ensures |Body(line, order)| >= 4 && Body(line, order)[..4] == BeU32(|MetaPairs(line, order)| + 2)
  {
  }

  /** The set of keys a sequence visits. */
  function KeySet(keys: seq<string>): set<string>
  {
    set k | k in keys
  }

  lemma KeySetSnoc(keys: seq<string>, k: string)
    ensures KeySet(keys + [k]) == KeySet(keys) + {k}
  {
    assert forall x | x in keys + [k] :: x in keys || x == k;
  }

  /** Without repeats, every key but `_raw` yields exactly one pair. */
  lemma {:induction false} MetaPairsCount(line: map<string, string>, keys: seq<string>)
    requires Distinct(keys)
    ensures |MetaPairs(line, keys)| == |KeySet(keys) - {RAW_KEY}|
  {
    if keys != [] {
      var init, k := keys[..|keys| - 1], keys[|keys| - 1];
      assert keys == init + [k];
      assert k !in init;
      MetaPairsCount(line, init);
      MetaPairsConcat(line, init, [k]);
      assert |MetaPairs(line, [k])| == if k == RAW_KEY then 0 else 1;
      KeySetCount(init, k);
    }
  }

  /** A new key adds one non-`_raw` key, unless it is `_raw`. */
  lemma KeySetCount(keys: seq<string>, k: string)
    requires k !in keys
    ensures |KeySet(keys + [k]) - {RAW_KEY}| == |KeySet(keys) - {RAW_KEY}| + if k == RAW_KEY then 0 else 1
  {
    KeySetSnoc(keys, k);
    if k != RAW_KEY {
      assert KeySet(keys + [k]) - {RAW_KEY} == (KeySet(keys) - {RAW_KEY}) + {k};
    } else {
      assert KeySet(keys + [k]) - {RAW_KEY} == KeySet(keys) - {RAW_KEY};
    }
  }

  /** mapCount is the number of fields of the event other than `_raw`,
      plus the `_done` and `_raw` pairs. */
  lemma MapCount(line: map<string, string>, order: seq<string>)
    requires IsOrdering(order, line.Keys)
    ensures |MetaPairs(line, order)| + 2 == |line.Keys - {RAW_KEY}| + 2
  {
    MetaPairsCount(line, order);
    assert KeySet(order) == line.Keys;
  }

  /** A pair is among the field pairs exactly when some visited key other
      than `_raw` remaps to it. */
  lemma {:induction false} MetaPairsMember(line: map<string, string>, keys: seq<string>, p: Pair)
    ensures p in MetaPairs(line, keys) <==> exists k | k in keys :: k != RAW_KEY && p == Remap(k, Get(line, k))
  {
    if keys != [] {
      var init, k := keys[..|keys| - 1], keys[|keys| - 1];
      assert keys == init + [k];
      MetaPairsMember(line, init, p);
      if p in MetaPairs(line, keys) && p !in MetaPairs(line, init) {
        assert k != RAW_KEY && p == Remap(k, Get(line, k));
      }
    }
  }

  /** For a full iteration order: the field pairs are exactly the remapped
      fields of the event, `_raw` excluded. */
  lemma FieldPairs(line: map<string, string>, order: seq<string>, p: Pair)
    requires IsOrdering(order, line.Keys)
    ensures p in MetaPairs(line, order) <==> exists k | k in line :: k != RAW_KEY && p == Remap(k, line[k])
  {
    MetaPairsMember(line, order, p);
  }

  /** The receiving side's reading of a field pair: the metadata names go
      back to the event's own names and lose their value prefix. */
  function Unmap(p: Pair): Pair
  {
    if p.key == META_SOURCE && HasPrefix(p.value, SOURCE_PREFIX) then Pair(SOURCE_KEY, p.value[|SOURCE_PREFIX|..])
    else if p.key == META_SOURCETYPE && HasPrefix(p.value, SOURCETYPE_PREFIX) then Pair(SOURCETYPE_KEY, p.value[|SOURCETYPE_PREFIX|..])
    else if p.key == META_HOST && HasPrefix(p.value, HOST_PREFIX) then Pair(HOST_KEY, p.value[|HOST_PREFIX|..])
    else if p.key == META_INDEX then Pair(INDEX_KEY, p.value)
    else p
  }

  predicate HasPrefix(s: string, prefix: string)
  {
    |prefix| <= |s| && s[..|prefix|] == prefix
  }

  /** The metadata names the encoder writes. */
  predicate IsMetaName(k: string)
  {
    k == META_SOURCE || k == META_SOURCETYPE || k == META_HOST || k == META_INDEX
  }

  /** Renaming loses nothing: every field whose own name is not one of the
      metadata names can be read back from its pair. */
  lemma UnmapRemap(k: string, v: string)
    requires !IsMetaName(k)
    ensures Unmap(Remap(k, v)) == Pair(k, v)
  {
    if k == SOURCE_KEY {
      assert (SOURCE_PREFIX + v)[|SOURCE_PREFIX|..] == v;
    } else if k == SOURCETYPE_KEY {
      assert (SOURCETYPE_PREFIX + v)[|SOURCETYPE_PREFIX|..] == v;
    } else if k == HOST_KEY {
      assert (HOST_PREFIX + v)[|HOST_PREFIX|..] == v;
    }
  }

  /** A field that is already called `MetaData:Host` is indistinguishable
      from a remapped `host` field. */
  lemma MetaNameClash(v: string)
    ensures Remap(META_HOST, HOST_PREFIX + v) == Remap(HOST_KEY, v)
  {
  }
}
