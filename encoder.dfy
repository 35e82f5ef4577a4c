/** The cooked-mode-v2 event frame encoder (splunk_tcp/s2s/utils.go). */
module Encoder {
  import opened Wire

  /** One key/value block of a frame, after key remapping. */
  datatype Pair = Pair(key: string, value: string)

  /** Field names with a meaning of their own, and what they become. */
  const RAW_KEY: string := "_raw"
  const DONE_KEY: string := "_done"
  const SOURCE_KEY: string := "source"
  const SOURCETYPE_KEY: string := "sourcetype"
  const HOST_KEY: string := "host"
  const INDEX_KEY: string := "index"
  const META_SOURCE: string := "MetaData:Source"
  const META_SOURCETYPE: string := "MetaData:Sourcetype"
  const META_HOST: string := "MetaData:Host"
  const META_INDEX: string := "_MetaData:Index"
  const SOURCE_PREFIX: string := "source::"
  const SOURCETYPE_PREFIX: string := "sourcetype::"
  const HOST_PREFIX: string := "host::"

  /** `encodeString`: uint32 length (bytes + the NUL), the bytes, a NUL. */
  function EncodeString(s: string): (r: seq<Byte>)
    ensures |r| == 4 + |s| + 1
    ensures r[|r| - 1] == 0
  {
    BeU32(|s| + 1) + Octets(s) + [0]
  }

  /** `encodeKeyValue`: the key string followed by the value string. */
  function EncodeKeyValue(key: string, value: string): (r: seq<Byte>)
    ensures |r| == |key| + |value| + 10
  {
    EncodeString(key) + EncodeString(value)
  }

  function EncodePair(p: Pair): seq<Byte>
  {
    EncodeKeyValue(p.key, p.value)
  }

  /** The `maps` slice of EncodeEvent: one encoded block per pair. */
  function Blocks(ps: seq<Pair>): (bs: seq<seq<Byte>>)
    ensures |bs| == |ps|
  {
    seq(|ps|, i requires 0 <= i < |ps| => EncodePair(ps[i]))
  }

  /** The blocks written one after another. */
  function Flatten(blocks: seq<seq<Byte>>): seq<Byte>
  {
    if blocks == [] then [] else Flatten(blocks[..|blocks| - 1]) + blocks[|blocks| - 1]
  }

  /** How EncodeEvent renames one field of the event map. */
  function Remap(k: string, v: string): (p: Pair)
    ensures |v| <= |p.value| && p.value[|p.value| - |v|..] == v
  {
    if k == SOURCE_KEY then Pair(META_SOURCE, SOURCE_PREFIX + v)
    else if k == SOURCETYPE_KEY then Pair(META_SOURCETYPE, SOURCETYPE_PREFIX + v)
    else if k == HOST_KEY then Pair(META_HOST, HOST_PREFIX + v)
    else if k == INDEX_KEY then Pair(META_INDEX, v)
    else Pair(k, v)
  }

  /** Exactly the four metadata fields are renamed, each to a metadata
      name; every other field, `_raw` included, keeps its name and value. */
  lemma RemapKeys(k: string, v: string)
    ensures Remap(k, v) == Pair(k, v) <==> k !in {SOURCE_KEY, SOURCETYPE_KEY, HOST_KEY, INDEX_KEY}
    ensures Remap(k, v).key in {META_SOURCE, META_SOURCETYPE, META_HOST, META_INDEX} || Remap(k, v) == Pair(k, v)
  {
  }

  /** `order` enumerates the keys of a map exactly once each: one possible
      iteration order of a Go `range` over the map. */
  predicate IsOrdering(order: seq<string>, keys: set<string>)
  {
    && (forall i, j | 0 <= i < j < |order| :: order[i] != order[j])
    && (forall k | k in order :: k in keys)
    && (forall k | k in keys :: k in order)
  }

  /** The metadata and generic blocks produced by the loop when it visits
      `keys` in that order: every key but `_raw`, remapped. */
  function MetaPairs(line: map<string, string>, keys: seq<string>): (ps: seq<Pair>)
    ensures |ps| <= |keys|
  {
    if keys == [] then []
    else
      var k := keys[|keys| - 1];
      MetaPairs(line, keys[..|keys| - 1]) + (if k == RAW_KEY then [] else [Remap(k, Get(line, k))])
  }

  /** `line[k]`: Go yields the empty string for a missing key. */
  function Get(line: map<string, string>, k: string): (v: string)
    ensures k in line ==> v == line[k]
    ensures k !in line ==> v == ""
  {
    if k in line then line[k] else ""
  }

  /** Everything after the msgSize field: mapCount, the blocks, the `_done`
      pair, the `_raw` pair, a zero uint32 and the `_raw` trailer. */
  function Body(line: map<string, string>, order: seq<string>): (body: seq<Byte>)
    requires IsOrdering(order, line.Keys)
    ensures |body| >= 4 && body[..4] == BeU32(|MetaPairs(line, order)| + 2)
  {
    var ps := MetaPairs(line, order);
    var mapCount := BeU32(|ps| + 2);
    var rest := Flatten(Blocks(ps))
      + EncodeKeyValue(DONE_KEY, DONE_KEY)
      + EncodeKeyValue(RAW_KEY, Get(line, RAW_KEY))
      + BeU32(0) + EncodeString(RAW_KEY);
    assert (mapCount + rest)[..4] == mapCount;
    mapCount + rest
  }

  /** The frame as the protocol wants it: the size of the body, then the
      body. */
  function Frame(line: map<string, string>, order: seq<string>): (frame: seq<Byte>)
    requires IsOrdering(order, line.Keys)
    ensures |frame| == 4 + |Body(line, order)|
    ensures frame[..4] == BeU32(|Body(line, order)|) && frame[4..] == Body(line, order)
  {
    BeU32(|Body(line, order)|) + Body(line, order)
  }

  /** A `bytes.Buffer`: a growable byte slice written at its end and drained
      from its front. */
  class Buffer {
    var data: seq<Byte>

    constructor ()
      ensures data == []
    {
      data := [];
    }

    method Write(b: seq<Byte>)
      modifies this
      ensures data == old(data) + b
    {
      data := data + b;
    }

    /** Read everything (what `io.Copy` does to its source). */
    method Drain() returns (b: seq<Byte>)
      modifies this
      ensures b == old(data) && data == []
    {
      b := data;
      data := [];
    }
  }

  lemma FlattenSnoc(blocks: seq<seq<Byte>>, b: seq<Byte>)
    ensures Flatten(blocks + [b]) == Flatten(blocks) + b
  {
    assert (blocks + [b])[..|blocks|] == blocks;
  }

  lemma BlocksSnoc(ps: seq<Pair>, p: Pair)
    ensures Blocks(ps + [p]) == Blocks(ps) + [EncodePair(p)]
  {
  }

  /** The number of bytes the pairs take once encoded: each pair costs its
      two strings plus two length fields and two NULs. */
  function PairsSize(ps: seq<Pair>): nat
  {
    if ps == [] then 0
    else PairsSize(ps[..|ps| - 1]) + |ps[|ps| - 1].key| + |ps[|ps| - 1].value| + 10
  }

  lemma PairsSizeSnoc(ps: seq<Pair>, p: Pair)
    ensures PairsSize(ps + [p]) == PairsSize(ps) + |p.key| + |p.value| + 10
  {
    assert (ps + [p])[..|ps|] == ps;
  }

  /** PairsSize counts exactly the bytes of the flattened blocks. */
  lemma {:induction false} FlattenBlocksLength(ps: seq<Pair>)
    ensures |Flatten(Blocks(ps))| == PairsSize(ps)
  {
    if ps != [] {
      var init := ps[..|ps| - 1];
      var last := ps[|ps| - 1];
      assert ps == init + [last];
      FlattenBlocksLength(init);
      BlocksSnoc(init, last);
      FlattenSnoc(Blocks(init), EncodePair(last));
    }
  }

  /** One more visited key extends the pairs by that key's remapped pair,
      unless it is `_raw`. */
  lemma MetaPairsStep(line: map<string, string>, order: seq<string>, i: nat)
    requires i < |order|
    ensures MetaPairs(line, order[..i + 1])
         == MetaPairs(line, order[..i]) + (if order[i] == RAW_KEY then [] else [Remap(order[i], Get(line, order[i]))])
  {
    assert order[..i + 1][..i] == order[..i];
  }

  /** A visited key other than `_raw` appends its block and adds the
      block's length. */
  lemma CollectStep(line: map<string, string>, order: seq<string>, i: nat,
                    maps: seq<seq<Byte>>, msgSize: nat, encoded: seq<Byte>)
    requires i < |order| && order[i] != RAW_KEY
    requires maps == Blocks(MetaPairs(line, order[..i]))
    requires msgSize == 8 + PairsSize(MetaPairs(line, order[..i]))
    requires encoded == EncodePair(Remap(order[i], Get(line, order[i])))
    ensures maps + [encoded] == Blocks(MetaPairs(line, order[..i + 1]))
    ensures msgSize + |encoded| == 8 + PairsSize(MetaPairs(line, order[..i + 1]))
  {
    var ps := MetaPairs(line, order[..i]);
    var p := Remap(order[i], Get(line, order[i]));
    MetaPairsStep(line, order, i);
    BlocksSnoc(ps, p);
    PairsSizeSnoc(ps, p);
  }

  /** Visiting `_raw` changes nothing. */
  lemma SkipStep(line: map<string, string>, order: seq<string>, i: nat)
    requires i < |order| && order[i] == RAW_KEY
    ensures MetaPairs(line, order[..i + 1]) == MetaPairs(line, order[..i])
  {
    MetaPairsStep(line, order, i);
  }

  /** The length of the body, block by block. */
  lemma BodyLength(line: map<string, string>, order: seq<string>)
    requires IsOrdering(order, line.Keys)
    ensures |Body(line, order)|
         == 8 + PairsSize(MetaPairs(line, order)) + |EncodeKeyValue(RAW_KEY, Get(line, RAW_KEY))|
              + |EncodeString(RAW_KEY)| + |EncodeKeyValue(DONE_KEY, DONE_KEY)|
  {
    FlattenBlocksLength(MetaPairs(line, order));
  }

  /** One case of the loop's `switch`: the four metadata fields are renamed
      and (but for `index`) prefixed, any other field is kept as it is. */
  method EncodeField(k: string, v: string) returns (encoded: seq<Byte>)
    ensures encoded == EncodePair(Remap(k, v))
  {
    if k == SOURCE_KEY {
      encoded := EncodeKeyValue(META_SOURCE, SOURCE_PREFIX + v);
    } else if k == SOURCETYPE_KEY {
      encoded := EncodeKeyValue(META_SOURCETYPE, SOURCETYPE_PREFIX + v);
    } else if k == HOST_KEY {
      encoded := EncodeKeyValue(META_HOST, HOST_PREFIX + v);
    } else if k == INDEX_KEY {
      encoded := EncodeKeyValue(META_INDEX, v);
    } else {
      encoded := EncodeKeyValue(k, v);
    }
  }

  /** The `for k, v := range line` loop of `EncodeEvent`: visits the keys
      in `order`, collects one encoded block per field but `_raw`, and adds
      each block's length to msgSize, which starts at 8 for the mapCount
      field and the zero that follows `_raw`. Go keeps msgSize in a uint32;
      here it is unbounded and the wrap-around happens where it is written
      (BeU32), which gives the same four bytes since uint32 addition is
      addition modulo 2^32. */
  method CollectBlocks(line: map<string, string>, order: seq<string>) returns (maps: seq<seq<Byte>>, msgSize: nat)
    requires forall k | k in order :: k in line
    ensures maps == Blocks(MetaPairs(line, order))
    ensures msgSize == 8 + PairsSize(MetaPairs(line, order))
  {
    msgSize := 8;
    maps := [];
    var i := 0;
    while i < |order|
      invariant 0 <= i <= |order|
      invariant maps == Blocks(MetaPairs(line, order[..i]))
      invariant msgSize == 8 + PairsSize(MetaPairs(line, order[..i]))
    {
      var k := order[i];
      var v := line[k];
      if k != RAW_KEY {
        var encoded := EncodeField(k, v);
        CollectStep(line, order, i, maps, msgSize, encoded);
        maps := maps + [encoded];
        msgSize := msgSize + |encoded|;
      } else {
        // case "_raw": skipped here, it goes at the end
        SkipStep(line, order, i);
      }
      i := i + 1;
    }
    assert order[..|order|] == order;
  }

  /** The `for _, m := range maps` loop: the blocks go out in the order
      they were collected. */
  method WriteBlocks(buf: Buffer, maps: seq<seq<Byte>>)
    modifies buf
    ensures buf.data == old(buf.data) + Flatten(maps)
  {
    var j := 0;
    while j < |maps|
      invariant 0 <= j <= |maps|
      invariant buf.data == old(buf.data) + Flatten(maps[..j])
    {
      FlattenSnoc(maps[..j], maps[j]);
      assert maps[..j + 1] == maps[..j] + [maps[j]];
      AppendAssoc(old(buf.data), Flatten(maps[..j]), maps[j]);
      buf.Write(maps[j]);
      j := j + 1;
    }
    assert maps[..|maps|] == maps;
  }

  lemma MapCountFirst(a: seq<Byte>, b: seq<Byte>, c: seq<Byte>, d: seq<Byte>, e: seq<Byte>, f: seq<Byte>)
    ensures a + b + c + d + e + f == a + (b + c + d + e + f)
  {
  }

  /** `EncodeEvent`: appends one frame for the event to `buf` and returns
      that same buffer. Whatever the iteration order, the size written
      first is the length of the rest of the frame (modulo 2^32). */
  method EncodeEvent(line: map<string, string>, order: seq<string>, buf: Buffer) returns (out: Buffer)
    requires IsOrdering(order, line.Keys)
    modifies buf
    ensures out == buf
    ensures buf.data == old(buf.data) + Frame(line, order)
  {
    var maps, msgSize := CollectBlocks(line, order);

    var raw := Get(line, RAW_KEY);
    var encodedRaw := EncodeKeyValue(RAW_KEY, raw);
    msgSize := msgSize + |encodedRaw|;
    var encodedRawTrailer := EncodeString(RAW_KEY);
    msgSize := msgSize + |encodedRawTrailer|;
    var encodedDone := EncodeKeyValue(DONE_KEY, DONE_KEY);
    msgSize := msgSize + |encodedDone|;
    BodyLength(line, order);

    ghost var start := buf.data;
    buf.Write(BeU32(msgSize));
    ghost var sized := buf.data;
    buf.Write(BeU32(|maps| + 2));
    WriteBlocks(buf, maps);
    ghost var body := BeU32(|maps| + 2) + Flatten(maps);
    AppendAssoc(sized, BeU32(|maps| + 2), Flatten(maps));
    AppendAssoc(sized, body, encodedDone);
    buf.Write(encodedDone);
    body := body + encodedDone;
    AppendAssoc(sized, body, encodedRaw);
    buf.Write(encodedRaw);
    body := body + encodedRaw;
    AppendAssoc(sized, body, BeU32(0));
    buf.Write(BeU32(0));
    body := body + BeU32(0);
    AppendAssoc(sized, body, encodedRawTrailer);
    buf.Write(encodedRawTrailer);
    body := body + encodedRawTrailer;
    assert buf.data == sized + body;
    MapCountFirst(BeU32(|maps| + 2), Flatten(maps), encodedDone, encodedRaw, BeU32(0), encodedRawTrailer);
    assert body == Body(line, order);
    assert |body| == msgSize;
    assert Frame(line, order) == BeU32(msgSize) + body;
    AppendAssoc(start, BeU32(msgSize), body);
    out := buf;
  }

  /** A Go `interface{}` value handed to `Add`: a string, a scalar
      (int, int64, float64, bool) or anything else (maps, slices, ...). The
      non-string shapes are opaque tokens. */
  datatype Value = Text(s: string) | Scalar(id: nat) | Structured(id: nat)

  /** `InterfaceToString`: a string passes through unchanged; scalars are
      printed with `%v` (`sprint`); everything else goes through
      `json.Marshal` (`marshal`), the only step that can fail. */
  function InterfaceToString(v: Value, sprint: Value -> string, marshal: Value -> Option<string>): (r: Result<string>)
    ensures v.Text? ==> r == Ok(v.s)
    ensures r.Err? <==> v.Structured? && marshal(v).None?
  {
    match v
    case Text(s) => Ok(s)
    case Scalar(_) => Ok(sprint(v))
    case Structured(_) =>
      match marshal(v)
      case Some(json) => Ok(json)
      case None => Err("json: unsupported value")
  }
}
