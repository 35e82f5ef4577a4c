/** A reader for cooked-mode-v2 frames. The client never reads frames; this
    is the receiving side of the layout `EncodeEvent` writes, used to state
    what a frame carries and that nothing is lost in encoding. */
module Decoder {
  import opened Wire
  import opened Encoder

  /** Reads one string written by `encodeString` from the front of `b`:
      the uint32 length n (counting the NUL), n - 1 bytes, a NUL. */
  function ReadString(b: seq<Byte>): (r: Option<(string, seq<Byte>)>)
    ensures r.Some? ==> |r.value.1| < |b|
  {
    if |b| < 4 then None
    else
      var n := ReadBeU32(b);
      if n == 0 || |b| - 4 < n || b[4 + n - 1] != 0 then None
      else Some((Chars(b[4..4 + n - 1]), b[4 + n..]))
  }

  /** Reads a key string and then a value string. */
  function ReadPair(b: seq<Byte>): (r: Option<(Pair, seq<Byte>)>)
    ensures r.Some? ==> |r.value.1| < |b|
  {
    match ReadString(b)
    case None => None
    case Some((key, b1)) =>
      match ReadString(b1)
      case None => None
      case Some((value, b2)) => Some((Pair(key, value), b2))
  }

  /** Reads `count` pairs one after the other. */
  function ReadPairs(b: seq<Byte>, count: nat): (r: Option<(seq<Pair>, seq<Byte>)>)
    ensures r.Some? ==> |r.value.0| == count
  {
    if count == 0 then Some(([], b))
    else
      match ReadPair(b)
      case None => None
      case Some((p, b1)) =>
        match ReadPairs(b1, count - 1)
        case None => None
        case Some((ps, b2)) => Some(([p] + ps, b2))
  }

  /** Reads a frame body: the mapCount, that many pairs, a zero uint32
      and the `_raw` trailer, with nothing left over. */
  function DecodeBody(body: seq<Byte>): Option<seq<Pair>>
  {
    if |body| < 4 then None
    else
      match ReadPairs(body[4..], ReadBeU32(body))
      case None => None
      case Some((ps, tail)) =>
        if |tail| < 4 || ReadBeU32(tail) != 0 then None
        else
          match ReadString(tail[4..])
          case None => None
          case Some((name, end)) =>
            if name == RAW_KEY && end == [] then Some(ps) else None
  }

  /** Reads one frame from the front of `b`: the size field, then a body of
      exactly that many bytes. Gives the pairs and the bytes after the
      frame. */
  function DecodeFrame(b: seq<Byte>): (r: Option<(seq<Pair>, seq<Byte>)>)
    ensures r.Some? ==> |b| >= 4 && 4 + ReadBeU32(b) + |r.value.1| == |b|
    ensures r.Some? ==> r.value.1 == b[|b| - |r.value.1|..]
  {
    if |b| < 4 then None
    else
      var size := ReadBeU32(b);
      if |b| - 4 < size then None
      else
        match DecodeBody(b[4..4 + size])
        case None => None
        case Some(ps) => Some((ps, b[4 + size..]))
  }

  /** The pairs a frame for `line` carries, in order: the remapped fields,
      then `_done`, then `_raw`. */
  function FramePairs(line: map<string, string>, order: seq<string>): seq<Pair>
  {
    MetaPairs(line, order) + [Pair(DONE_KEY, DONE_KEY), Pair(RAW_KEY, Get(line, RAW_KEY))]
  }

  /** Every key and value of the event is a byte string. */
  predicate EventBytes(line: map<string, string>)
  {
    forall k | k in line :: IsByteString(k) && IsByteString(line[k])
  }

  /** Every string of the pairs is a byte string short enough for its
      uint32 length field. */
  predicate PairsFit(ps: seq<Pair>)
  {
    forall i | 0 <= i < |ps| ::
      && IsByteString(ps[i].key) && IsByteString(ps[i].value)
      && |ps[i].key| + 1 < U32_MOD && |ps[i].value| + 1 < U32_MOD
  }

  lemma ReadBeU32Prefix(x: seq<Byte>, rest: seq<Byte>)
    requires |x| >= 4
    ensures ReadBeU32(x + rest) == ReadBeU32(x)
  {
    assert (x + rest)[..4] == x[..4];
  }

  /** `encodeString` can be read back: the string and exactly the bytes
      after it are recovered. */
  lemma ReadEncodeString(s: string, rest: seq<Byte>)
    requires IsByteString(s) && |s| + 1 < U32_MOD
    ensures ReadString(EncodeString(s) + rest) == Some((s, rest))
  {
    var b := EncodeString(s) + rest;
    var n := |s| + 1;
    ReadBeU32Prefix(EncodeString(s), rest);
    ReadBeU32Prefix(BeU32(n), Octets(s) + [0]);
    assert BeU32(n) + Octets(s) + [0] == BeU32(n) + (Octets(s) + [0]);
    ReadBeU32OfBeU32(n);
    assert ReadBeU32(b) == n;
    assert b[4..4 + n - 1] == Octets(s);
    CharsOfOctets(s);
    assert b[4 + n - 1] == 0;
    assert b[4 + n..] == rest;
  }

  /** `encodeKeyValue` can be read back. */
  lemma ReadEncodePair(p: Pair, rest: seq<Byte>)
    requires IsByteString(p.key) && IsByteString(p.value)
    requires |p.key| + 1 < U32_MOD && |p.value| + 1 < U32_MOD
    ensures ReadPair(EncodePair(p) + rest) == Some((p, rest))
  {
    AppendAssoc(EncodeString(p.key), EncodeString(p.value), rest);
    ReadEncodeString(p.key, EncodeString(p.value) + rest);
    ReadEncodeString(p.value, rest);
  }

  lemma BlocksCons(p: Pair, ps: seq<Pair>)
    ensures Blocks([p] + ps) == [EncodePair(p)] + Blocks(ps)
  {
  }

  lemma {:induction false} FlattenCons(b: seq<Byte>, blocks: seq<seq<Byte>>)
    ensures Flatten([b] + blocks) == b + Flatten(blocks)
    decreases |blocks|
  {
    if blocks != [] {
      var init := blocks[..|blocks| - 1];
      var last := blocks[|blocks| - 1];
      assert ([b] + blocks)[..|blocks|] == [b] + init;
      FlattenCons(b, init);
      assert Flatten([b] + blocks) == Flatten([b] + init) + last;
      AppendAssoc(b, Flatten(init), last);
    }
  }

  /** The blocks of a sequence of pairs read back as those pairs. */
  lemma {:induction false} ReadPairsBlocks(ps: seq<Pair>, rest: seq<Byte>)
    requires PairsFit(ps)
    ensures ReadPairs(Flatten(Blocks(ps)) + rest, |ps|) == Some((ps, rest))
  {
    if ps != [] {
      var p := ps[0];
      var tail := ps[1..];
      assert ps == [p] + tail;
      assert PairsFit(tail) by {
        forall i | 0 <= i < |tail| ensures tail[i] == ps[i + 1] { }
      }
      BlocksCons(p, tail);
      FlattenCons(EncodePair(p), Blocks(tail));
      AppendAssoc(EncodePair(p), Flatten(Blocks(tail)), rest);
      var b1 := Flatten(Blocks(tail)) + rest;
      assert Flatten(Blocks(ps)) + rest == EncodePair(p) + b1;
      ReadEncodePair(p, b1);
      ReadPairsBlocks(tail, rest);
      assert ReadPairs(EncodePair(p) + b1, |ps|) == Some(([p] + tail, rest));
    } else {
      assert Blocks(ps) == [];
      assert Flatten(Blocks(ps)) + rest == rest;
    }
  }

  /** A pair takes at least ten bytes, so PairsSize bounds the number of
      pairs and every single string. */
  lemma {:induction false} PairsSizeBounds(ps: seq<Pair>)
    ensures PairsSize(ps) >= 10 * |ps|
    ensures forall i | 0 <= i < |ps| :: PairsSize(ps) >= |ps[i].key| + |ps[i].value| + 10
  {
    if ps != [] {
      var init := ps[..|ps| - 1];
      PairsSizeBounds(init);
      forall i | 0 <= i < |ps| ensures PairsSize(ps) >= |ps[i].key| + |ps[i].value| + 10 {
        if i < |ps| - 1 { assert ps[i] == init[i]; }
      }
    }
  }

  /** Renaming keeps byte strings byte strings. */
  lemma RemapBytes(k: string, v: string)
    requires IsByteString(k) && IsByteString(v)
    ensures IsByteString(Remap(k, v).key) && IsByteString(Remap(k, v).value)
  {
    MetaNamesBytes();
    if k == SOURCE_KEY {
      ByteStringConcat(SOURCE_PREFIX, v);
    } else if k == SOURCETYPE_KEY {
      ByteStringConcat(SOURCETYPE_PREFIX, v);
    } else if k == HOST_KEY {
      ByteStringConcat(HOST_PREFIX, v);
    }
  }

  /** The metadata names and value prefixes are byte strings. */
  lemma MetaNamesBytes()
    ensures IsByteString(META_SOURCE) && IsByteString(META_SOURCETYPE)
    ensures IsByteString(META_HOST) && IsByteString(META_INDEX)
    ensures IsByteString(SOURCE_PREFIX) && IsByteString(SOURCETYPE_PREFIX) && IsByteString(HOST_PREFIX)
  {
  }

  /** The remapped pairs of a byte-string event are byte strings. */
  lemma {:induction false} MetaPairsBytes(line: map<string, string>, keys: seq<string>)
    requires EventBytes(line)
    requires forall i | 0 <= i < |keys| :: IsByteString(keys[i])
    ensures forall i | 0 <= i < |MetaPairs(line, keys)| ::
      IsByteString(MetaPairs(line, keys)[i].key) && IsByteString(MetaPairs(line, keys)[i].value)
  {
    if keys != [] {
      var k := keys[|keys| - 1];
      var init := MetaPairs(line, keys[..|keys| - 1]);
      MetaPairsBytes(line, keys[..|keys| - 1]);
      if k != RAW_KEY {
        assert IsByteString(Get(line, k));
        RemapBytes(k, Get(line, k));
        assert MetaPairs(line, keys) == init + [Remap(k, Get(line, k))];
      }
    }
  }

  lemma Regroup<T>(a: seq<T>, b: seq<T>, c: seq<T>, d: seq<T>, e: seq<T>, f: seq<T>)
    ensures a + b + c + d + e + f == a + ((b + c + d) + (e + f))
  {
    AppendAssoc(a + b + c + d, e, f);
    AppendAssoc(a + b + c, d, e + f);
    AppendAssoc(a + b, c, d + (e + f));
    AppendAssoc(a, b, c + (d + (e + f)));
    AppendAssoc(b, c, d);
    AppendAssoc(b + c, d, e + f);
    AppendAssoc(b, c, d + (e + f));
  }

  /** The blocks of all frame pairs: the field blocks, `_done`, `_raw`. */
  lemma FrameBlocks(line: map<string, string>, order: seq<string>)
    ensures Flatten(Blocks(FramePairs(line, order)))
         == Flatten(Blocks(MetaPairs(line, order)))
            + EncodeKeyValue(DONE_KEY, DONE_KEY) + EncodeKeyValue(RAW_KEY, Get(line, RAW_KEY))
    ensures PairsSize(FramePairs(line, order))
         == PairsSize(MetaPairs(line, order))
            + |EncodeKeyValue(DONE_KEY, DONE_KEY)| + |EncodeKeyValue(RAW_KEY, Get(line, RAW_KEY))|
  {
    var ps := MetaPairs(line, order);
    var done := Pair(DONE_KEY, DONE_KEY);
    var raw := Pair(RAW_KEY, Get(line, RAW_KEY));
    assert FramePairs(line, order) == (ps + [done]) + [raw];
    BlocksSnoc(ps, done);
    BlocksSnoc(ps + [done], raw);
    FlattenSnoc(Blocks(ps), EncodePair(done));
    FlattenSnoc(Blocks(ps + [done]), EncodePair(raw));
    PairsSizeSnoc(ps, done);
    PairsSizeSnoc(ps + [done], raw);
  }

  /** The body is the count, the blocks of all frame pairs, a zero and the
      `_raw` trailer. */
  lemma BodyShape(line: map<string, string>, order: seq<string>)
    requires IsOrdering(order, line.Keys)
    ensures Body(line, order)
         == BeU32(|FramePairs(line, order)|)
            + (Flatten(Blocks(FramePairs(line, order))) + (BeU32(0) + EncodeString(RAW_KEY)))
    ensures PairsSize(FramePairs(line, order)) < |Body(line, order)|
  {
    FrameBlocks(line, order);
    BodyLength(line, order);
    Regroup(BeU32(|MetaPairs(line, order)| + 2), Flatten(Blocks(MetaPairs(line, order))),
            EncodeKeyValue(DONE_KEY, DONE_KEY), EncodeKeyValue(RAW_KEY, Get(line, RAW_KEY)),
            BeU32(0), EncodeString(RAW_KEY));
  }

  /** In a frame whose body fits its uint32 size field, every string fits
      its own length field and the pair count fits the mapCount field. */
  lemma FramePairsFit(line: map<string, string>, order: seq<string>)
    requires IsOrdering(order, line.Keys)
    requires EventBytes(line)
    requires |Body(line, order)| < U32_MOD
    ensures PairsFit(FramePairs(line, order))
    ensures |FramePairs(line, order)| < U32_MOD
  {
    var ps := MetaPairs(line, order);
    var all := FramePairs(line, order);
    BodyShape(line, order);
    PairsSizeBounds(all);
    MetaPairsBytes(line, order);
    assert IsByteString(Get(line, RAW_KEY));
    assert IsByteString(DONE_KEY) && IsByteString(RAW_KEY);
    forall i | 0 <= i < |all|
      ensures IsByteString(all[i].key) && IsByteString(all[i].value)
    {
      if i < |ps| { assert all[i] == ps[i]; }
    }
  }

  /** The fixed key names are short ASCII strings. */
  lemma FixedKeysFit()
    ensures IsByteString(RAW_KEY) && |RAW_KEY| + 1 < U32_MOD
    ensures IsByteString(DONE_KEY) && |DONE_KEY| + 1 < U32_MOD
  {
  }

  /** The part of a body after mapCount reads back as the pairs, and the
      zero and `_raw` trailer after them are accepted. */
  lemma ReadBodyTail(all: seq<Pair>)
    requires PairsFit(all)
    ensures
      var trailer := BeU32(0) + EncodeString(RAW_KEY);
      && ReadPairs(Flatten(Blocks(all)) + trailer, |all|) == Some((all, trailer))
      && |trailer| >= 4 && ReadBeU32(trailer) == 0
      && ReadString(trailer[4..]) == Some((RAW_KEY, []))
  {
    ReadPairsBlocks(all, BeU32(0) + EncodeString(RAW_KEY));
    ReadTrailer();
  }

  /** The trailer: a zero count, then the `_raw` key alone. */
  lemma ReadTrailer()
    ensures
      var trailer := BeU32(0) + EncodeString(RAW_KEY);
      && |trailer| >= 4 && ReadBeU32(trailer) == 0
      && ReadString(trailer[4..]) == Some((RAW_KEY, []))
  {
    var trailer := BeU32(0) + EncodeString(RAW_KEY);
    ReadBeU32Prefix(BeU32(0), EncodeString(RAW_KEY));
    ReadBeU32OfBeU32(0);
    assert trailer[4..] == EncodeString(RAW_KEY) + [];
    FixedKeysFit();
    ReadEncodeString(RAW_KEY, []);
  }

  /** The reader accepts a body when each of its steps succeeds. */
  lemma DecodeBodyAccepts(body: seq<Byte>, ps: seq<Pair>, tail: seq<Byte>)
    requires |body| >= 4 && ReadPairs(body[4..], ReadBeU32(body)) == Some((ps, tail))
    requires |tail| >= 4 && ReadBeU32(tail) == 0
    requires ReadString(tail[4..]) == Some((RAW_KEY, []))
    ensures DecodeBody(body) == Some(ps)
  {
  }

  /** The reader accepts a frame whose size field is followed by a body it
      accepts. */
  lemma DecodeFrameAccepts(b: seq<Byte>, body: seq<Byte>, ps: seq<Pair>, rest: seq<Byte>)
    requires |b| >= 4 + |body| && ReadBeU32(b) == |body|
    requires b[4..4 + |body|] == body && b[4 + |body|..] == rest
    requires DecodeBody(body) == Some(ps)
    ensures DecodeFrame(b) == Some((ps, rest))
  {
  }

  /** Any frame laid out as EncodeEvent lays it out, with pairs that fit,
      reads back as its pairs. */
  lemma DecodeLaidOut(all: seq<Pair>, rest: seq<Byte>)
    requires PairsFit(all) && |all| < U32_MOD
    requires |BeU32(|all|) + (Flatten(Blocks(all)) + (BeU32(0) + EncodeString(RAW_KEY)))| < U32_MOD
    ensures
      var body := BeU32(|all|) + (Flatten(Blocks(all)) + (BeU32(0) + EncodeString(RAW_KEY)));
      DecodeFrame(BeU32(|body|) + body + rest) == Some((all, rest))
  {
    var trailer := BeU32(0) + EncodeString(RAW_KEY);
    var body := BeU32(|all|) + (Flatten(Blocks(all)) + trailer);
    var b := BeU32(|body|) + body + rest;
    AppendAssoc(BeU32(|body|), body, rest);
    ReadBeU32Prefix(BeU32(|body|), body + rest);
    ReadBeU32OfBeU32(|body|);
    assert ReadBeU32(b) == |body|;
    assert b[4..4 + |body|] == body;
    assert b[4 + |body|..] == rest;
    ReadBeU32Prefix(BeU32(|all|), Flatten(Blocks(all)) + trailer);
    ReadBeU32OfBeU32(|all|);
    assert body[4..] == Flatten(Blocks(all)) + trailer;
    ReadBodyTail(all);
    DecodeBodyAccepts(body, all, trailer);
    DecodeFrameAccepts(b, body, all, rest);
  }

  /** The frame `EncodeEvent` appends reads back as the remapped fields,
      then `_done`, then `_raw` with its value, and the reader stops exactly
      at the end of the frame. */
  lemma DecodeFrameOfEncoded(line: map<string, string>, order: seq<string>, rest: seq<Byte>)
    requires IsOrdering(order, line.Keys)
    requires EventBytes(line)
    requires |Body(line, order)| < U32_MOD
    ensures DecodeFrame(Frame(line, order) + rest) == Some((FramePairs(line, order), rest))
  {
    BodyShape(line, order);
    FramePairsFit(line, order);
    DecodeLaidOut(FramePairs(line, order), rest);
  }
}
